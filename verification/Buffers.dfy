/** The two buffers the link codec works on: a reading cursor and a growing output. */
module Buffers {
  import opened Basics

  /** Eof is io.EOF, UnexpectedEof is io.ErrUnexpectedEOF, Malformed any other error. */
  datatype ReadError = Eof | UnexpectedEof | Malformed

  /** A buffer being consumed from the front. */
  class ReadBuffer {
    const data: Bytes
    var start: nat

    ghost predicate Valid()
      reads this
    {
      start <= |data|
    }

    function Unread(): (s: Bytes)
      reads this
      requires Valid()
    {
      data[start..]
    }

    constructor (data: Bytes)
      ensures Valid() && Unread() == data
    {
      this.data := data;
      start := 0;
    }

    method ReadByte() returns (r: Result<byte, ReadError>)
      requires Valid()
      modifies this
      ensures Valid()
      ensures old(Unread()) == [] ==> r == Err(Eof) && Unread() == []
      ensures old(Unread()) != [] ==> r == Ok(old(Unread())[0]) && Unread() == old(Unread())[1..]
    {
      if start == |data| {
        return Err(Eof);
      }
      r := Ok(data[start]);
      start := start + 1;
    }

    /** io.ReadFull for a length already known to be available. */
    method ReadFull(n: nat) returns (s: Bytes)
      requires Valid() && n <= |Unread()|
      modifies this
      ensures Valid()
      ensures s == old(Unread())[..n] && Unread() == old(Unread())[n..]
    {
      s := data[start..start + n];
      start := start + n;
    }
  }

  /** Output that only grows at its end. */
  class ByteBuilder {
    var contents: Bytes

    constructor ()
      ensures contents == []
    {
      contents := [];
    }

    method WriteByte(b: byte)
      modifies this
      ensures contents == old(contents) + [b]
    {
      contents := contents + [b];
    }

    method Write(s: Bytes)
      modifies this
      ensures contents == old(contents) + s
    {
      contents := contents + s;
    }
  }
}
