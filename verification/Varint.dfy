/** Variable-length integers, section 16 of RFC 9000: tturl/varint.go. */
module Varint {
  import opened Basics
  import Bits
  import opened Buffers

  const MAX_VARINT_1: int := 63
  const MAX_VARINT_2: int := 16383
  const MAX_VARINT_4: int := 1073741823
  const MAX_VARINT_8: int := 4611686018427387903

  type uint64 = x: int | 0 <= x < TWO_64

  function SizeCode(v: nat): (r: Option<nat>)
    ensures r.Some? ==> r.value < 4
    ensures r.Some? <==> v <= MAX_VARINT_8
  {
    if v <= MAX_VARINT_1 then Some(0)
    else if v <= MAX_VARINT_2 then Some(1)
    else if v <= MAX_VARINT_4 then Some(2)
    else if v <= MAX_VARINT_8 then Some(3)
    else None
  }

  /** 1 << code. */
  function Width(code: nat): (n: nat)
    requires code < 4
    ensures n >= 1
  {
    [1, 2, 4, 8][code]
  }

  /** The number of bytes the writer spends on v. */
  function EncodedLength(v: nat): Result<nat, ReadError> {
    match SizeCode(v)
    case None => Err(Malformed)
    case Some(code) => Ok(Width(code))
  }

  /** The two-bit size code sits on top of the value's big-endian bytes. */
  function Encode(v: nat): (r: Result<Bytes, ReadError>)
    ensures r.Ok? <==> v <= MAX_VARINT_8
    ensures r.Ok? ==> EncodedLength(v) == Ok(|r.value|)
  {
    match SizeCode(v)
    case None => Err(Malformed)
    case Some(code) => Ok(ToBytes(Tagged(v, code), Width(code)))
  }

  /** value |= sizeCode << (8n - 2): the value leaves those two bits clear, so OR adds. */
  function Tagged(v: nat, code: nat): (r: nat)
    requires SizeCode(v) == Some(code)
    ensures r == v + code * 64 * Pow256(Width(code) - 1)
  {
    TagIsClear(v, code);
    Bits.Or(v, Bits.ShiftLeft(code, 8 * Width(code) - 2))
  }

  lemma ShiftSix(a: nat)
    ensures Bits.ShiftLeft(a, 6) == 64 * a
  {
    assert Bits.ShiftLeft(a, 2) == 2 * Bits.ShiftLeft(a, 1);
    assert Bits.ShiftLeft(a, 4) == 2 * Bits.ShiftLeft(a, 3);
  }

  /** Shifting by n bytes and six bits. */
  lemma {:induction false} ShiftBytes(a: nat, n: nat, p: nat)
    requires a < 4 && p == 64 * Pow256(n)
    ensures Bits.ShiftLeft(a, 8 * n + 6) == a * p
  {
    if n == 0 {
      ShiftSix(a);
    } else {
      var q := 64 * Pow256(n - 1);
      ShiftBytes(a, n - 1, q);
      Bits.ShiftByte(a, 8 * n - 2);
      assert p == 256 * q;
      assert a * p == 256 * (a * q);
    }
  }

  lemma TagAdds(v: nat, code: nat, n: nat, p: nat)
    requires n >= 1 && code < 4 && p == 64 * Pow256(n - 1) && v < p
    ensures Bits.Or(v, Bits.ShiftLeft(code, 8 * n - 2)) == v + code * p
  {
    ShiftBytes(1, n - 1, p);
    ShiftBytes(code, n - 1, p);
    Bits.OrCommutes(v, Bits.ShiftLeft(code, 8 * n - 2));
    Bits.OrDisjoint(code, v, 8 * n - 2);
  }

  lemma TagIsClear(v: nat, code: nat)
    requires SizeCode(v) == Some(code)
    ensures Bits.Or(v, Bits.ShiftLeft(code, 8 * Width(code) - 2)) == v + code * 64 * Pow256(Width(code) - 1)
  {
    var n := Width(code);
    ValueIsBelow(v, code);
    TagAdds(v, code, n, 64 * Pow256(n - 1));
  }

  lemma ValueIsBelow(v: nat, code: nat)
    requires SizeCode(v) == Some(code)
    ensures v < 64 * Pow256(Width(code) - 1)
  {
    Pow256Values();
  }

  /** What a reader gets from the front of s: the value and the bytes left. */
  function Read(s: Bytes): (r: Result<(nat, Bytes), ReadError>)
    ensures r.Ok? ==> |r.value.1| < |s|
  {
    if s == [] then Err(Eof)
    else
      var n := Width(s[0] / 64);
      if |s| < n then Err(UnexpectedEof)
      else Ok((BigEndian([s[0] % 64] + s[1..n]), s[n..]))
  }

  lemma Pow256Values()
    ensures Pow256(0) == 1 && Pow256(1) == 0x100 && Pow256(2) == 0x1_0000
    ensures Pow256(3) == 0x100_0000 && Pow256(4) == TWO_32
    ensures Pow256(5) == 0x100_0000_0000 && Pow256(6) == 0x1_0000_0000_0000
    ensures Pow256(7) == 0x100_0000_0000_0000 && Pow256(8) == TWO_64
  {
    assert Pow256(1) == 256 * Pow256(0);
    assert Pow256(2) == 256 * Pow256(1);
    assert Pow256(3) == 256 * Pow256(2);
    assert Pow256(4) == 256 * Pow256(3);
    assert Pow256(5) == 256 * Pow256(4);
    assert Pow256(6) == 256 * Pow256(5);
    assert Pow256(7) == 256 * Pow256(6);
    assert Pow256(8) == 256 * Pow256(7);
  }

  /** The leading byte carries the size code and the top six bits of the value. */
  lemma LeadingByte(b: int, tail: int, v: int, code: int, p: int)
    requires 0 <= v < 64 * p && 0 <= code < 4 && 0 <= tail < p && b >= 0
    requires p == 1 || p == 0x100 || p == 0x100_0000 || p == 0x100_0000_0000_0000
    requires b * p + tail == v + code * 64 * p
    ensures b / 64 == code && b % 64 * p + tail == v
  {
    if p == 1 {
    } else if p == 0x100 {
    } else if p == 0x100_0000 {
    } else {
    }
  }

  lemma SmallValue(v: nat)
    requires v <= MAX_VARINT_1
    ensures Encode(v) == Ok([v])
  {
    var code := SizeCode(v).value;
    var n := Width(code);
    assert code * 64 * Pow256(n - 1) == 0;
    assert Tagged(v, code) == v;
    var s := ToBytes(v, n);
    assert s == ToBytes(v / 256, n - 1) + [v % 256];
    assert |s| == 1 && s[0] == v;
    assert s == [v];
  }

  lemma WidthValues(v: nat, code: nat, p: nat)
    requires SizeCode(v) == Some(code) && p == Pow256(Width(code) - 1)
    ensures p == 1 || p == 0x100 || p == 0x100_0000 || p == 0x100_0000_0000_0000
    ensures v < 64 * p && Pow256(Width(code)) == 256 * p
  {
    Pow256Values();
  }

  lemma TagBound(v: nat, code: nat, p: nat)
    requires v < 64 * p && code < 4
    ensures v + code * 64 * p < 256 * p
  {
    if code == 0 {
    } else if code == 1 {
    } else if code == 2 {
    } else {
    }
  }

  /** The encoding's big-endian reading is the tagged value. */
  lemma EncodedReading(v: nat, code: nat, p: nat)
    requires SizeCode(v) == Some(code) && p == Pow256(Width(code) - 1)
    ensures |Encode(v).value| == Width(code) && BigEndian(Encode(v).value) == v + code * 64 * p
  {
    WidthValues(v, code, p);
    TagBound(v, code, p);
    BigEndianToBytes(Tagged(v, code), Width(code));
  }

  /** A reading that carries a size code splits into the code and the value. */
  lemma SplitHead(s: Bytes, v: nat, code: nat, p: nat)
    requires s != [] && p == Pow256(|s| - 1) && v < 64 * p && code < 4
    requires p == 1 || p == 0x100 || p == 0x100_0000 || p == 0x100_0000_0000_0000
    requires BigEndian(s) == v + code * 64 * p
    ensures s[0] / 64 == code && s[0] % 64 * p + BigEndian(s[1..]) == v
  {
    BigEndianHead(s);
    BigEndianBound(s[1..]);
    LeadingByte(s[0], BigEndian(s[1..]), v, code, p);
  }

  lemma EncodedHead(v: nat)
    requires v <= MAX_VARINT_8
    ensures var s := Encode(v).value;
            && Width(s[0] / 64) == |s|
            && BigEndian([s[0] % 64] + s[1..]) == v
  {
    var code := SizeCode(v).value;
    var p := Pow256(Width(code) - 1);
    var s := Encode(v).value;
    WidthValues(v, code, p);
    EncodedReading(v, code, p);
    SplitHead(s, v, code, p);
    var digits := [s[0] % 64] + s[1..];
    BigEndianHead(digits);
    assert digits[1..] == s[1..];
  }

  /** Reading back what was written gives the value and leaves what follows untouched. */
  lemma RoundTrip(v: nat, rest: Bytes)
    requires v <= MAX_VARINT_8
    ensures Read(Encode(v).value + rest) == Ok((v, rest))
  {
    EncodedHead(v);
    var s := Encode(v).value;
    assert (s + rest)[1..|s|] == s[1..];
    assert (s + rest)[|s|..] == rest;
  }

  /** A successful read stays below 2^62 and the writer never spends more bytes on the value. */
  lemma WriterIsShortest(s: Bytes)
    requires Read(s).Ok?
    ensures var (v, rest) := Read(s).value;
            && v <= MAX_VARINT_8
            && |Encode(v).value| <= |s| - |rest|
            && s == s[..|s| - |rest|] + rest
  {
    var n := Width(s[0] / 64);
    SixBitsBound(s[0], s[1..n]);
    Pow256Values();
  }

  lemma ReadExtends(s: Bytes, t: Bytes)
    requires Read(s).Ok?
    ensures Read(s + t) == Ok((Read(s).value.0, Read(s).value.1 + t))
  {
    var n := Width(s[0] / 64);
    assert (s + t)[1..n] == s[1..n];
    assert (s + t)[n..] == s[n..] + t;
  }

  /** No encoding of one value is a proper prefix of an encoding of another. */
  lemma PrefixFree(a: Bytes, b: Bytes)
    requires Read(a).Ok? && Read(a).value.1 == []
    requires Read(b).Ok? && Read(b).value.1 == []
    requires HasPrefix(b, a)
    ensures a == b
  {
    ReadExtends(a, b[|a|..]);
    assert a + b[|a|..] == b;
  }

  ghost predicate ProperPrefixOfEncoding(s: Bytes) {
    exists t: Bytes :: t != [] && Read(s + t).Ok? && Read(s + t).value.1 == []
  }

  /** End of input and truncation are told apart exactly: no byte at all, or a proper nonempty prefix. */
  lemma ErrorKinds(s: Bytes)
    ensures Read(s) == Err(Eof) <==> s == []
    ensures Read(s) == Err(UnexpectedEof) <==> s != [] && ProperPrefixOfEncoding(s)
    ensures Read(s) != Err(Malformed)
  {
    if s != [] {
      var n := Width(s[0] / 64);
      if |s| < n {
        var t: Bytes := seq(n - |s|, _ => 0);
        assert (s + t)[n..] == [];
        assert Read(s + t).Ok? && Read(s + t).value.1 == [];
      } else {
        forall t: Bytes | t != []
          ensures !(Read(s + t).Ok? && Read(s + t).value.1 == [])
        {
          ReadExtends(s, t);
        }
      }
    }
  }

  /** v >> 8k. */
  function ShiftOut(v: nat, k: nat): nat {
    if k == 0 then v else ShiftOut(v, k - 1) / 256
  }

  /** byte(v >> 8k). */
  function ByteAt(v: nat, k: nat): byte {
    ShiftOut(v, k) % 256
  }

  /** value<<8 | next in 64 bits: the shifted value leaves eight bits clear, so OR adds. */
  function ShiftIn(v: uint64, next: byte): (r: uint64)
    ensures r == v * 256 % TWO_64 + next
  {
    NextIsClear(v, next);
    Bits.Or(v * 256 % TWO_64, next)
  }

  lemma NextIsClear(v: uint64, next: byte)
    ensures Bits.Or(v * 256 % TWO_64, next) == v * 256 % TWO_64 + next < TWO_64
  {
    var kept := v % 0x100_0000_0000_0000;
    assert v * 256 % TWO_64 == 256 * kept;
    Bits.ShiftByte(kept, 0);
    Bits.ShiftByte(1, 0);
    Bits.OrDisjoint(kept, next, 8);
  }

  /** Without its low k bytes the big-endian form is that of the shifted value. */
  lemma {:induction false} LeadingBytes(v: nat, n: nat, k: nat)
    requires k <= n
    ensures ToBytes(v, n)[..n - k] == ToBytes(ShiftOut(v, k), n - k)
  {
    if k > 0 {
      LeadingBytes(v, n, k - 1);
      var longer := ToBytes(ShiftOut(v, k - 1), n - k + 1);
      assert ToBytes(v, n)[..n - k] == longer[..n - k];
    }
  }

  /** The byte the writer shifts out next is the next one of the encoding. */
  lemma NextByte(v: nat, code: nat, left: nat)
    requires SizeCode(v) == Some(code) && left < Width(code)
    ensures |Encode(v).value| == Width(code) <= 8 && Tagged(v, code) < TWO_64
    ensures Encode(v).value[Width(code) - left - 1] == ByteAt(Tagged(v, code), left)
  {
    Pow256Values();
    var n := Width(code);
    LeadingBytes(Tagged(v, code), n, left);
    assert Encode(v).value[..n - left][n - left - 1] == ByteAt(Tagged(v, code), left);
  }

  /** Values over 2^62-1 are refused, so that what is written always started from 64 bits. */
  method WriteVarint(buffer: ByteBuilder, value: nat) returns (r: Result<(), ReadError>)
    modifies buffer
    ensures r.Ok? <==> Encode(value).Ok?
    ensures r.Err? ==> r == Err(Malformed) && buffer.contents == old(buffer.contents)
    ensures r.Ok? ==> buffer.contents == old(buffer.contents) + Encode(value).value
  {
    var sizeCode := SizeCode(value);
    if sizeCode.None? {
      return Err(Malformed);
    }
    var byteLength := Width(sizeCode.value);
    NextByte(value, sizeCode.value, 0);
    var tagged: uint64 := Tagged(value, sizeCode.value);
    var left := byteLength;
    ghost var s := Encode(value).value;
    while left > 0
      invariant 0 <= left <= byteLength
      invariant buffer.contents == old(buffer.contents) + s[..byteLength - left]
    {
      NextByte(value, sizeCode.value, left - 1);
      left := left - 1;
      buffer.WriteByte(ByteAt(tagged, left));
      assert s[..byteLength - left] == s[..byteLength - left - 1] + [ByteAt(tagged, left)];
    }
    assert s[..byteLength] == s;
    r := Ok(());
  }

  /** The value read from the first i bytes: the low six bits of the first, and the others. */
  ghost function ReadSoFar(s: Bytes, i: nat): nat
    requires 1 <= i <= |s|
  {
    BigEndian([s[0] % 64] + s[1..i])
  }

  lemma ReadStart(s: Bytes)
    requires s != []
    ensures ReadSoFar(s, 1) == s[0] % 64
  {
    assert [s[0] % 64] + s[1..1] == [s[0] % 64];
    BigEndianHead([s[0] % 64]);
    Pow256Values();
  }

  /** One turn of the reading loop: the shift pushes no bit out of 64, and the OR brings in the next byte. */
  lemma ReadStep(s: Bytes, i: nat)
    requires 1 <= i < 8 && i < |s|
    ensures ReadSoFar(s, i) * 256 < TWO_64
    ensures ReadSoFar(s, i + 1) == ShiftIn(ReadSoFar(s, i), s[i])
  {
    SixBitsBound(s[0], s[1..i]);
    PowMonotone(i - 1, 6);
    Pow256Values();
    var more := [s[0] % 64] + s[1..i + 1];
    assert more[..|more| - 1] == [s[0] % 64] + s[1..i];
  }

  method ReadVarint(buffer: ReadBuffer) returns (r: Result<uint64, ReadError>)
    requires buffer.Valid()
    modifies buffer
    ensures buffer.Valid()
    ensures match Read(old(buffer.Unread()))
            case Ok((v, rest)) => r == Ok(v) && buffer.Unread() == rest
            case Err(e) => r == Err(e) && buffer.Unread() == []
  {
    ghost var s := buffer.Unread();
    var first := buffer.ReadByte();
    if first.Err? {
      return Err(Eof);
    }
    var byteLength := Width(first.value / 64);
    var value: uint64 := first.value % 64;
    var i := 1;
    ReadStart(s);
    while i < byteLength
      invariant 1 <= i <= byteLength && i <= |s| && byteLength == Width(s[0] / 64)
      invariant buffer.Valid() && buffer.Unread() == s[i..]
      invariant value == ReadSoFar(s, i)
    {
      var next := buffer.ReadByte();
      if next.Err? {
        return Err(UnexpectedEof);
      }
      ReadStep(s, i);
      value := ShiftIn(value, next.value);
      i := i + 1;
    }
    r := Ok(value);
  }

  lemma MulBound(d: int, p: int)
    requires 0 <= d <= 63 && p >= 1
    ensures d * p <= 63 * p
  {
  }

  lemma SixBitsBound(first: byte, tail: Bytes)
    requires |tail| < 8
    ensures BigEndian([first % 64] + tail) < 64 * Pow256(|tail|)
  {
    var d: byte := first % 64;
    var digits := [d] + tail;
    BigEndianHead(digits);
    assert digits[1..] == tail;
    BigEndianBound(tail);
    MulBound(d, Pow256(|tail|));
  }

  lemma {:induction false} PowMonotone(a: nat, b: nat)
    requires a <= b
    ensures Pow256(a) <= Pow256(b)
  {
    if a < b {
      PowMonotone(a, b - 1);
    }
  }

  // ---------------------------------------------------------------- the bytes themselves

  /** Table 4 of RFC 9000: the sizes, the two bits that give them away, and the value big-endian behind. */
  lemma Layout(v: nat)
    requires v <= 4611686018427387903
    ensures Encode(v).Ok?
    ensures v < 64 ==> Encode(v).value == [v]
    ensures 64 <= v < 16384 ==> Encode(v).value == [64 + v / 256, v % 256]
    ensures 16384 <= v < 1073741824 ==>
              Encode(v).value == [128 + v / 16777216, v / 65536 % 256, v / 256 % 256, v % 256]
    ensures 1073741824 <= v ==>
              && |Encode(v).value| == 8
              && forall i | 0 <= i < 8 :: Encode(v).value[i] == ByteAt(v + 0xC000_0000_0000_0000, 7 - i)
  {
    if v < 64 {
      SmallValue(v);
    } else if v < 16384 {
      LayoutTwo(v);
    } else if v < 1073741824 {
      LayoutFour(v);
    } else {
      LayoutEight(v);
    }
  }

  lemma LayoutTwo(v: nat)
    requires 64 <= v < 16384
    ensures Encode(v) == Ok([64 + v / 256, v % 256])
  {
    var t := Tagged(v, 1);
    Pow256Values();
    assert t == v + 16384;
    assert t / 256 == 64 + v / 256 && t % 256 == v % 256;
    TwoBytes(t);
  }

  lemma TwoBytes(t: nat)
    ensures ToBytes(t, 2) == [t / 256 % 256, t % 256]
  {
    OneByte(t / 256);
    assert ToBytes(t, 2) == ToBytes(t / 256, 1) + [t % 256];
  }

  lemma OneByte(t: nat)
    ensures ToBytes(t, 1) == [t % 256]
  {
    assert ToBytes(t, 1) == ToBytes(t / 256, 0) + [t % 256];
  }

  lemma FourBytes(t: nat)
    ensures ToBytes(t, 4) == [t / 16777216 % 256, t / 65536 % 256, t / 256 % 256, t % 256]
  {
    TwoBytes(t / 256 / 256);
    assert ToBytes(t / 256, 3) == ToBytes(t / 256 / 256, 2) + [t / 256 % 256];
    assert ToBytes(t, 4) == ToBytes(t / 256, 3) + [t % 256];
    assert t / 256 / 256 == t / 65536 && t / 65536 / 256 == t / 16777216;
  }

  lemma AboveFour(v: nat, t: nat)
    requires v < 1073741824 && t == v + 128 * 16777216
    ensures t / 16777216 % 256 == 128 + v / 16777216 && t / 65536 % 256 == v / 65536 % 256
    ensures t / 256 % 256 == v / 256 % 256 && t % 256 == v % 256
  {
    assert t / 16777216 == 128 + v / 16777216;
    assert t / 65536 == 32768 + v / 65536;
    assert t / 256 == 8388608 + v / 256;
  }

  lemma LayoutFour(v: nat)
    requires 16384 <= v < 1073741824
    ensures Encode(v) == Ok([128 + v / 16777216, v / 65536 % 256, v / 256 % 256, v % 256])
  {
    var t := Tagged(v, 2);
    assert t == v + 128 * 16777216 by { Pow256Values(); }
    AboveFour(v, t);
    FourBytes(t);
  }

  lemma LayoutEight(v: nat)
    requires 1073741824 <= v <= 4611686018427387903
    ensures Encode(v).Ok? && |Encode(v).value| == 8
    ensures forall i | 0 <= i < 8 :: Encode(v).value[i] == ByteAt(v + 0xC000_0000_0000_0000, 7 - i)
  {
    Pow256Values();
    assert Tagged(v, 3) == v + 0xC000_0000_0000_0000;
    forall i | 0 <= i < 8
      ensures |Encode(v).value| == 8 && Encode(v).value[i] == ByteAt(v + 0xC000_0000_0000_0000, 7 - i)
    {
      NextByte(v, 3, 7 - i);
    }
  }
}
