/** The packet writers and readers of packet.go, working in place on buffers, proved against module PacketSpec. */
module PacketIO {
  import opened Basics
  import opened Buffers
  import opened Address
  import opened Ip
  import opened PacketSpec

  /** buf.Buffer as the packet code uses it: data[start..end] are the contents, what precedes them is headroom. */
  class PacketBuffer {
    const data: array<byte>
    var start: nat
    var end: nat

    ghost predicate Valid()
      reads this
    {
      start <= end <= data.Length
    }

    function Contents(): Bytes
      reads this, data
      requires Valid()
    {
      data[start..end]
    }

    constructor (size: nat)
      ensures Valid() && fresh(data) && data.Length == size && start == end == 0
    {
      data := new byte[size];
      start, end := 0, 0;
    }

    /** Resize(at, 0) followed by Write. */
    method Place(at: nat, s: Bytes)
      requires Valid() && at + |s| <= data.Length
      modifies this, data
      ensures Valid() && start == at && Contents() == s
    {
      start, end := at, at + |s|;
      PutBytes(data, at, s);
    }

    /** ReadFullFrom once the bytes are known: append behind the contents. */
    method Append(s: Bytes)
      requires Valid() && end + |s| <= data.Length
      modifies this, data
      ensures Valid() && start == old(start) && Contents() == old(Contents()) + s
      ensures data[..start] == old(data[..start])
    {
      PutBytes(data, end, s);
      end := end + |s|;
    }
  }

  method PutBytes(a: array<byte>, at: nat, s: Bytes)
    requires at + |s| <= a.Length
    modifies a
    ensures a[..at] == old(a[..at]) && a[at..at + |s|] == s && a[at + |s|..] == old(a[at + |s|..])
  {
    forall i | 0 <= i < |s| {
      a[at + i] := s[i];
    }
  }

  /** buf.With over part of an array: a header filled from its front. */
  class HeaderRegion {
    const data: array<byte>
    const base: nat
    const size: nat
    var filled: nat

    ghost predicate Valid()
      reads this
    {
      filled <= size && base + size <= data.Length
    }

    ghost function Contents(): Bytes
      reads this, data
      requires Valid()
    {
      data[base..base + filled]
    }

    constructor (data: array<byte>, base: nat, size: nat)
      requires base + size <= data.Length
      ensures this.data == data && this.base == base && this.size == size && filled == 0
    {
      this.data, this.base, this.size, filled := data, base, size, 0;
    }

    method Write(s: Bytes)
      requires Valid() && filled + |s| <= size
      modifies this`filled, data
      ensures Valid() && filled == old(filled) + |s| && Contents() == old(Contents()) + s
      ensures data[..base] == old(data[..base]) && data[base + size..] == old(data[base + size..])
    {
      ghost var before := data[..];
      PutBytes(data, base + filled, s);
      assert data[base..base + filled] == before[base..base + filled];
      assert data[base + size..] == data[base + filled + |s|..][size - filled - |s|..];
      filled := filled + |s|;
    }
  }

  /** The stream being written to; once broken, every write fails. */
  class Wire {
    var sent: Bytes
    const broken: bool

    constructor (broken: bool)
      ensures sent == [] && this.broken == broken
    {
      sent, this.broken := [], broken;
    }

    method Write(s: Bytes) returns (ok: bool)
      modifies this
      ensures ok == !broken
      ensures sent == if ok then old(sent) + s else old(sent)
    {
      ok := !broken;
      if ok {
        sent := sent + s;
      }
    }
  }

  datatype SendError = NoResolver | Unresolved | OnlyIP | WriteFailed

  /** The IP address a packet goes to: its own, or what the resolver makes of its name. */
  function Destination(target: Socksaddr, resolve: Option<Bytes -> Option<IpAddr>>): Result<IpAddr, SendError> {
    if target.IsIP() then Ok(target.addr.value)
    else if resolve.None? then Err(NoResolver)
    else
      match resolve.value(target.fqdn)
      case Some(ip) => Ok(ip)
      case None => Err(Unresolved)
  }

  /** Where a header goes: into the headroom if it is large enough, else into an array of its own. */
  method PlaceHeader(buffer: PacketBuffer, headerLen: nat) returns (header: HeaderRegion, inBuffer: bool)
    requires buffer.Valid()
    modifies buffer`start
    ensures buffer.Valid() && fresh(header) && header.Valid() && header.filled == 0 && header.size == headerLen
    ensures inBuffer == (old(buffer.start) >= headerLen)
    ensures inBuffer ==> header.data == buffer.data && header.base == buffer.start == old(buffer.start) - headerLen
    ensures !inBuffer ==> fresh(header.data) && buffer.start == old(buffer.start) && header.base == 0
                          && header.data.Length == headerLen
  {
    inBuffer := buffer.start >= headerLen;
    if inBuffer {
      buffer.start := buffer.start - headerLen;
      header := new HeaderRegion(buffer.data, buffer.start, headerLen);
    } else {
      var own := new byte[headerLen];
      header := new HeaderRegion(own, 0, headerLen);
    }
  }

  method FillClientHeader(header: HeaderRegion, name: Bytes, address: Bytes16, port: uint16, payloadLen: nat)
    requires header.Valid() && header.filled == 0 && header.size == CLIENT_HEADER_BASE_LEN + |name|
    modifies header`filled, header.data
    ensures header.Valid() && header.filled == header.size
    ensures header.Contents() == ClientHeader(name, address, port, payloadLen)
    ensures header.data[..header.base] == old(header.data[..header.base])
    ensures header.data[header.base + header.size..] == old(header.data[header.base + header.size..])
  {
    assert header.Contents() == [];
    header.Write(LengthField(PACKET_ADDRESS_PORT_LEN + PACKET_ADDRESS_PORT_LEN + PACKET_APP_NAME_LENGTH_LEN
                             + |name| + payloadLen));
    header.Write(Zeros(16 + 2));
    header.Write(address);
    header.Write(ToBytes(port, 2));
    header.Write([|name| % 256]);
    header.Write(name);
  }

  method FillServerHeader(header: HeaderRegion, address: Bytes16, port: uint16, payloadLen: nat)
    requires header.Valid() && header.filled == 0 && header.size == SERVER_HEADER_FIXED_LEN
    modifies header`filled, header.data
    ensures header.Valid() && header.filled == header.size
    ensures header.Contents() == ServerHeader(address, port, payloadLen)
    ensures header.data[..header.base] == old(header.data[..header.base])
    ensures header.data[header.base + header.size..] == old(header.data[header.base + header.size..])
  {
    assert header.Contents() == [];
    header.Write(LengthField(PACKET_ADDRESS_PORT_LEN + PACKET_ADDRESS_PORT_LEN + payloadLen));
    header.Write(address);
    header.Write(ToBytes(port, 2));
    header.Write(Zeros(16));
    header.Write(Zeros(2));
  }

  /** The writes that end a send: a header of its own first, then the buffer. */
  method Send(wire: Wire, header: HeaderRegion, inBuffer: bool, buffer: PacketBuffer) returns (ok: bool)
    requires header.Valid() && buffer.Valid()
    modifies wire
    ensures ok == !wire.broken
    ensures ok ==> wire.sent == old(wire.sent) + (if inBuffer then [] else header.Contents()) + buffer.Contents()
    ensures !ok ==> wire.sent == old(wire.sent)
  {
    if !inBuffer {
      ok := wire.Write(header.data[header.base..header.base + header.filled]);
      if !ok {
        return;
      }
    }
    assert wire.sent == old(wire.sent) + (if inBuffer then [] else header.Contents());
    ok := wire.Write(buffer.data[buffer.start..buffer.end]);
  }

  /** From the old start of the contents on, and before the new one, every byte is as it was. */
  ghost predicate HeadroomOnly(before: Bytes, oldStart: nat, after: Bytes, newStart: nat) {
    && newStart <= oldStart <= |before| == |after|
    && after[..newStart] == before[..newStart]
    && after[oldStart..] == before[oldStart..]
  }

  /** A header written into the headroom stands right before contents that did not move. */
  lemma InPlaceLayout(before: Bytes, after: Bytes, start: nat, n: nat, end: nat, header: Bytes)
    requires |before| == |after| && n <= start <= end <= |before| && |header| == n
    requires after[..start - n] == before[..start - n] && after[start - n..start] == header
    requires after[start..] == before[start..]
    ensures after[start - n..end] == header + before[start..end]
    ensures HeadroomOnly(before, start, after, start - n)
  {
    assert after[start..end] == after[start..][..end - start];
    assert before[start..end] == before[start..][..end - start];
  }

  method PrepareClientHeader(buffer: PacketBuffer, name: Bytes, address: Bytes16, port: uint16)
    returns (header: HeaderRegion, inBuffer: bool)
    requires buffer.Valid()
    modifies buffer`start, buffer.data
    ensures buffer.Valid() && fresh(header) && header.Valid()
    ensures header.Contents() == ClientHeader(name, address, port, |old(buffer.Contents())|)
    ensures buffer.Contents() == (if inBuffer then header.Contents() else []) + old(buffer.Contents())
    ensures HeadroomOnly(old(buffer.data[..]), old(buffer.start), buffer.data[..], buffer.start)
  {
    ghost var before, start := buffer.data[..], buffer.start;
    var payloadLen := buffer.end - buffer.start;
    var headerLen := CLIENT_HEADER_BASE_LEN + |name|;
    header, inBuffer := PlaceHeader(buffer, headerLen);
    FillClientHeader(header, name, address, port, payloadLen);
    if inBuffer {
      InPlaceLayout(before, buffer.data[..], start, headerLen, buffer.end, header.Contents());
    } else {
      assert [] + buffer.Contents() == old(buffer.Contents());
    }
  }

  method PrepareServerHeader(buffer: PacketBuffer, address: Bytes16, port: uint16)
    returns (header: HeaderRegion, inBuffer: bool)
    requires buffer.Valid()
    modifies buffer`start, buffer.data
    ensures buffer.Valid() && fresh(header) && header.Valid()
    ensures header.Contents() == ServerHeader(address, port, |old(buffer.Contents())|)
    ensures buffer.Contents() == (if inBuffer then header.Contents() else []) + old(buffer.Contents())
    ensures HeadroomOnly(old(buffer.data[..]), old(buffer.start), buffer.data[..], buffer.start)
  {
    ghost var before, start := buffer.data[..], buffer.start;
    var payloadLen := buffer.end - buffer.start;
    var headerLen := SERVER_HEADER_FIXED_LEN;
    header, inBuffer := PlaceHeader(buffer, headerLen);
    FillServerHeader(header, address, port, payloadLen);
    if inBuffer {
      InPlaceLayout(before, buffer.data[..], start, headerLen, buffer.end, header.Contents());
    } else {
      assert [] + buffer.Contents() == old(buffer.Contents());
    }
  }

  /** A header and contents go out as one byte string, whether they share an array or not. */
  lemma OneFrame(sent: Bytes, header: Bytes, inBuffer: bool, contents: Bytes, payload: Bytes)
    requires contents == (if inBuffer then header else []) + payload
    ensures sent + (if inBuffer then [] else header) + contents == sent + (header + payload)
  {
    Regroup(sent, header, payload);
  }

  /** The packet has gone out in one frame, or the wire was broken and has taken nothing. */
  ghost predicate Sent(r: Result<(), SendError>, before: Bytes, wire: Wire, name: Bytes, p: Packet)
    reads wire
  {
    if wire.broken then r == Err(WriteFailed) && wire.sent == before
    else r == Ok(()) && wire.sent == before + ClientFrame(name, p)
  }

  /**
   * Whatever the headroom, the wire receives one client frame, the payload bytes stay where they are,
   * and at most the header's own bytes of headroom are overwritten.
   */
  method WritePacketToServer(buffer: PacketBuffer, name: Bytes, target: Socksaddr,
                             resolve: Option<Bytes -> Option<IpAddr>>, wire: Wire)
    returns (r: Result<(), SendError>)
    requires buffer.Valid()
    modifies buffer`start, buffer.data, wire
    ensures buffer.Valid()
    ensures match Destination(target, resolve)
            case Err(e) => r == Err(e) && wire.sent == old(wire.sent) && buffer.Contents() == old(buffer.Contents())
            case Ok(address) =>
              if wire.broken then r == Err(WriteFailed) && wire.sent == old(wire.sent)
              else
                && r == Ok(())
                && wire.sent == old(wire.sent) + ClientFrame(name, Packet(address, target.port, old(buffer.Contents())))
    ensures target.addr.Some? ==>
              Sent(r, old(wire.sent), wire, name, Packet(target.addr.value, target.port, old(buffer.Contents())))
    ensures target.addr.None? && resolve.None? ==> r == Err(NoResolver)
    ensures target.addr.None? && resolve.Some? && resolve.value(target.fqdn).None? ==> r == Err(Unresolved)
    ensures target.addr.None? && resolve.Some? && resolve.value(target.fqdn).Some? ==>
              Sent(r, old(wire.sent), wire, name,
                   Packet(resolve.value(target.fqdn).value, target.port, old(buffer.Contents())))
    ensures HeadroomOnly(old(buffer.data[..]), old(buffer.start), buffer.data[..], buffer.start)
  {
    var destination := Destination(target, resolve);
    if destination.Err? {
      return Err(destination.error);
    }
    ghost var payload := buffer.Contents();
    var header, inBuffer := PrepareClientHeader(buffer, name, BuildPaddingIP(destination.value), target.port);
    OneFrame(wire.sent, header.Contents(), inBuffer, buffer.Contents(), payload);
    var ok := Send(wire, header, inBuffer, buffer);
    r := if ok then Ok(()) else Err(WriteFailed);
  }

  /** The same for the server's direction, which takes IP addresses only. */
  method WritePacketToClient(buffer: PacketBuffer, source: Socksaddr, wire: Wire) returns (r: Result<(), SendError>)
    requires buffer.Valid()
    modifies buffer`start, buffer.data, wire
    ensures buffer.Valid()
    ensures if !source.IsIP() then
              r == Err(OnlyIP) && wire.sent == old(wire.sent) && buffer.Contents() == old(buffer.Contents())
            else if wire.broken then r == Err(WriteFailed) && wire.sent == old(wire.sent)
            else
              && r == Ok(())
              && wire.sent == old(wire.sent)
                              + ServerFrame(Packet(source.addr.value, source.port, old(buffer.Contents())))
    ensures HeadroomOnly(old(buffer.data[..]), old(buffer.start), buffer.data[..], buffer.start)
  {
    if !source.IsIP() {
      return Err(OnlyIP);
    }
    ghost var payload := buffer.Contents();
    var header, inBuffer := PrepareServerHeader(buffer, BuildPaddingIP(source.addr.value), source.port);
    OneFrame(wire.sent, header.Contents(), inBuffer, buffer.Contents(), payload);
    var ok := Send(wire, header, inBuffer, buffer);
    r := if ok then Ok(()) else Err(WriteFailed);
  }

  // ---------------------------------------------------------------- reading

  /** io.ReadFull on the body: everything left is consumed when it is not enough. */
  method ReadFull(body: ReadBuffer, n: nat) returns (r: Result<Bytes, PacketError>)
    requires body.Valid()
    modifies body
    ensures body.Valid()
    ensures |old(body.Unread())| < n ==> r == Err(Short(old(body.Unread()))) && body.Unread() == []
    ensures |old(body.Unread())| >= n ==> r == Ok(old(body.Unread())[..n]) && body.Unread() == old(body.Unread())[n..]
  {
    if |body.Unread()| < n {
      r := Err(Short(body.Unread()));
      var _ := body.ReadFull(|body.Unread()|);
    } else {
      var s := body.ReadFull(n);
      r := Ok(s);
    }
  }

  /** The common tail of both readers: check the length, then fill the receive buffer. */
  method ReceivePayload(body: ReadBuffer, buffer: PacketBuffer, length: nat, counted: nat,
                        address: IpAddr, port: uint16)
    returns (r: Result<(IpAddr, uint16), PacketError>)
    requires body.Valid() && buffer.Valid()
    modifies body, buffer, buffer.data
    ensures body.Valid() && buffer.Valid()
    ensures Received(ReadPayload(length, counted, address, port, old(body.Unread()),
                                 buffer.data.Length - old(buffer.end)),
                     r, body.Unread(), old(buffer.Contents()), buffer.Contents())
  {
    if length < counted {
      return Err(InvalidLength);
    }
    var n := length - counted;
    if buffer.data.Length - buffer.end < n {
      return Err(ShortBuffer);
    }
    var payload :- ReadFull(body, n);
    buffer.Append(payload);
    r := Ok((address, port));
  }

  /** How a reader's result, stream and buffer must follow the outcome of the specification. */
  ghost predicate Received(outcome: Outcome, r: Result<(IpAddr, uint16), PacketError>, unread: Bytes,
                           before: Bytes, after: Bytes)
  {
    && unread == outcome.rest
    && (outcome.result.Err? ==> r == Err(outcome.result.error) && after == before)
    && (outcome.result.Ok? ==>
          && r == Ok((outcome.result.value.address, outcome.result.value.port))
          && after == before + outcome.result.value.payload)
  }

  method ReadPacketFromClient(body: ReadBuffer, buffer: PacketBuffer) returns (r: Result<(IpAddr, uint16), PacketError>)
    requires body.Valid() && buffer.Valid()
    modifies body, buffer, buffer.data
    ensures body.Valid() && buffer.Valid()
    ensures Received(ReadFromClient(old(body.Unread()), buffer.data.Length - old(buffer.end)),
                     r, body.Unread(), old(buffer.Contents()), buffer.Contents())
  {
    ghost var s := body.Unread();
    var header :- ReadFull(body, 4 + 16 + 2 + 16 + 2 + 1);
    assert header[..4] == s[..4] && header[22..38] == s[22..38] && header[38..40] == s[38..40];
    var length := BigEndian(header[..4]);
    var address := Parse16BytesIP(header[22..38]);
    var port := PortOf(header[38..40]);
    var nameLen: nat := header[40];
    if nameLen > 0 {
      var skipped := ReadFull(body, nameLen);
      if skipped.Err? {
        return Err(StreamEnd);
      }
    }
    assert body.Unread() == s[41..][nameLen..];
    r := ReceivePayload(body, buffer, length, 16 + 2 + 16 + 2 + 1 + nameLen, address, port);
  }

  method ReadPacketFromServer(body: ReadBuffer, buffer: PacketBuffer) returns (r: Result<(IpAddr, uint16), PacketError>)
    requires body.Valid() && buffer.Valid()
    modifies body, buffer, buffer.data
    ensures body.Valid() && buffer.Valid()
    ensures Received(ReadFromServer(old(body.Unread()), buffer.data.Length - old(buffer.end)),
                     r, body.Unread(), old(buffer.Contents()), buffer.Contents())
  {
    ghost var s := body.Unread();
    var header :- ReadFull(body, 4 + 16 + 2 + 16 + 2);
    assert header[..4] == s[..4] && header[4..20] == s[4..20] && header[20..22] == s[20..22];
    var length := BigEndian(header[..4]);
    var address := Parse16BytesIP(header[4..20]);
    var port := PortOf(header[20..22]);
    r := ReceivePayload(body, buffer, length, 16 + 2 + 16 + 2, address, port);
  }

  /** WriteTo's buffer: the payload behind room enough for a header. */
  method PacketWriteBuffer(payload: Bytes, frontHeadroom: nat) returns (buffer: PacketBuffer)
    ensures fresh(buffer) && fresh(buffer.data) && buffer.Valid()
    ensures buffer.start == frontHeadroom && buffer.Contents() == payload
  {
    buffer := new PacketBuffer(frontHeadroom + |payload|);
    buffer.Place(frontHeadroom, payload);
  }
}
