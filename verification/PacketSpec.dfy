/** Length-prefixed UDP packets on a byte stream: the frames of packet.go and the laws of reading them back. */
module PacketSpec {
  import opened Basics
  import opened Address
  import opened Ip

  const MAX_UINT8: int := 255
  const PACKET_ADDRESS_PORT_LEN: int := 16 + 2
  const PACKET_APP_NAME_LENGTH_LEN: int := 1
  const CLIENT_HEADER_BASE_LEN: int := 41
  const SERVER_HEADER_FIXED_LEN: int := 40

  function TruncateAppName(name: Bytes): (r: Bytes)
    ensures |r| <= MAX_UINT8 && HasPrefix(name, r)
    ensures |name| <= MAX_UINT8 ==> r == name
    ensures |name| > MAX_UINT8 ==> |r| == MAX_UINT8
  {
    if |name| > MAX_UINT8 then name[..MAX_UINT8] else name
  }

  function Zeros(n: nat): (s: Bytes)
    ensures |s| == n
  {
    seq(n, _ => 0)
  }

  /** uint32(n): the length field silently wraps. */
  function LengthField(n: nat): (s: Bytes)
    ensures |s| == 4
  {
    ToBytes(n % TWO_32, 4)
  }

  /** Client to server: length, an unknown source, the destination, the application name. */
  function ClientHeader(name: Bytes, address: Bytes16, port: uint16, payloadLen: nat): (s: Bytes)
    ensures |s| == CLIENT_HEADER_BASE_LEN + |name|
  {
    LengthField(18 + 18 + 1 + |name| + payloadLen) + Zeros(18) + address + ToBytes(port, 2) + [|name| % 256] + name
  }

  /** Server to client: length, the source, an unknown destination. */
  function ServerHeader(address: Bytes16, port: uint16, payloadLen: nat): (s: Bytes)
    ensures |s| == SERVER_HEADER_FIXED_LEN
  {
    LengthField(18 + 18 + payloadLen) + address + ToBytes(port, 2) + Zeros(16) + Zeros(2)
  }

  datatype Packet = Packet(address: IpAddr, port: uint16, payload: Bytes)

  function ClientFrame(name: Bytes, p: Packet): Bytes {
    ClientHeader(name, BuildPaddingIP(p.address), p.port, |p.payload|) + p.payload
  }

  function ServerFrame(p: Packet): Bytes {
    ServerHeader(BuildPaddingIP(p.address), p.port, |p.payload|) + p.payload
  }

  // ---------------------------------------------------------------- reading

  datatype PacketError = StreamEnd | StreamTruncated | InvalidLength | ShortBuffer

  /** What a read returns and what it leaves on the stream. */
  datatype Outcome = Outcome(result: Result<Packet, PacketError>, rest: Bytes)

  /** The error of io.ReadFull on a stream holding too little. */
  function Short(s: Bytes): PacketError {
    if s == [] then StreamEnd else StreamTruncated
  }

  /** The payload: what the length field leaves after the other fields, if the buffer has room for it. */
  function ReadPayload(length: nat, counted: nat, address: IpAddr, port: uint16, s: Bytes, free: nat): Outcome {
    if length < counted then Outcome(Err(InvalidLength), s)
    else
      var n := length - counted;
      if free < n then Outcome(Err(ShortBuffer), s)
      else if |s| < n then Outcome(Err(Short(s)), [])
      else Outcome(Ok(Packet(address, port, s[..n])), s[n..])
  }

  function PortOf(s: Bytes): uint16
    requires |s| == 2
  {
    TwoBytes(s);
    BigEndian(s)
  }

  lemma TwoBytes(s: Bytes)
    requires |s| == 2
    ensures BigEndian(s) == 256 * (s[0] as int) + s[1] as int < 0x1_0000
  {
    assert s[..1] == [s[0]] && s[..1][..0] == [];
    assert BigEndian(s[..1]) == 256 * BigEndian([]) + s[0];
  }

  function ReadFromClient(s: Bytes, free: nat): Outcome {
    if |s| < CLIENT_HEADER_BASE_LEN then Outcome(Err(Short(s)), [])
    else
      var nameLen: nat := s[40];
      var body := s[41..];
      if |body| < nameLen then Outcome(Err(StreamEnd), [])
      else
        ReadPayload(BigEndian(s[..4]), 16 + 2 + 16 + 2 + 1 + nameLen, Parse16BytesIP(s[22..38]), PortOf(s[38..40]),
                    body[nameLen..], free)
  }

  function ReadFromServer(s: Bytes, free: nat): Outcome {
    if |s| < SERVER_HEADER_FIXED_LEN then Outcome(Err(Short(s)), [])
    else
      ReadPayload(BigEndian(s[..4]), 16 + 2 + 16 + 2, Parse16BytesIP(s[4..20]), PortOf(s[20..22]), s[40..], free)
  }

  // ---------------------------------------------------------------- one frame

  /** The packet as the far side sees it: the address went through the 16-byte field. */
  function Delivered(p: Packet): Packet {
    p.(address := Parse16BytesIP(BuildPaddingIP(p.address)))
  }

  predicate ClientFits(name: Bytes, p: Packet) {
    |name| <= MAX_UINT8 && 37 + |name| + |p.payload| < TWO_32
  }

  predicate ServerFits(p: Packet) {
    36 + |p.payload| < TWO_32
  }

  lemma FieldValues(n: nat, port: uint16)
    ensures BigEndian(LengthField(n)) == n % TWO_32
    ensures PortOf(ToBytes(port, 2)) == port
  {
    assert Pow256(1) == 256 * Pow256(0) && Pow256(2) == 256 * Pow256(1);
    assert Pow256(3) == 256 * Pow256(2) && Pow256(4) == 256 * Pow256(3);
    BigEndianToBytes(n % TWO_32, 4);
    BigEndianToBytes(port, 2);
  }

  /** Where the fields of a client frame stand. */
  lemma ClientFields(name: Bytes, p: Packet, rest: Bytes)
    ensures var s := ClientFrame(name, p) + rest;
            && |s| == 41 + |name| + |p.payload| + |rest|
            && s[..4] == LengthField(37 + |name| + |p.payload|)
            && s[22..38] == BuildPaddingIP(p.address)
            && s[38..40] == ToBytes(p.port, 2)
            && s[40] == |name| % 256
            && s[41..] == name + (p.payload + rest)
  {
    var address := BuildPaddingIP(p.address);
    var a := LengthField(18 + 18 + 1 + |name| + |p.payload|);
    var s := ClientFrame(name, p) + rest;
    assert s == a + Zeros(18) + address + ToBytes(p.port, 2) + [|name| % 256] + name + p.payload + rest;
  }

  lemma ServerFields(p: Packet, rest: Bytes)
    ensures var s := ServerFrame(p) + rest;
            && |s| == 40 + |p.payload| + |rest|
            && s[..4] == LengthField(36 + |p.payload|)
            && s[4..20] == BuildPaddingIP(p.address)
            && s[20..22] == ToBytes(p.port, 2)
            && s[40..] == p.payload + rest
  {
    var address := BuildPaddingIP(p.address);
    var s := ServerFrame(p) + rest;
    assert s == LengthField(18 + 18 + |p.payload|) + address + ToBytes(p.port, 2) + Zeros(16) + Zeros(2)
                + p.payload + rest;
  }

  lemma PayloadExact(payload: Bytes, rest: Bytes)
    ensures (payload + rest)[..|payload|] == payload && (payload + rest)[|payload|..] == rest
  {
  }

  /** What the reader makes of a client frame: the wrapped length, the wrapped name length, and all that follows. */
  lemma ReadClientFrame(name: Bytes, p: Packet, rest: Bytes, free: nat)
    ensures |name| % 256 <= |name|
    ensures ReadFromClient(ClientFrame(name, p) + rest, free) ==
            ReadPayload((37 + |name| + |p.payload|) % TWO_32, 37 + |name| % 256, Delivered(p).address, p.port,
                        (name + (p.payload + rest))[|name| % 256..], free)
  {
    ClientFields(name, p, rest);
    FieldValues(37 + |name| + |p.payload|, p.port);
  }

  /** Of what follows, exactly the payload is read if neither length wrapped. */
  lemma ReadAfterName(name: Bytes, p: Packet, rest: Bytes, free: nat, length: nat, nameLen: nat)
    requires nameLen <= |name|
    requires nameLen == |name| ==> (length == 37 + |name| + |p.payload| <==> ClientFits(name, p))
    requires nameLen == |name| <==> |name| <= MAX_UINT8
    ensures ReadPayload(length, 37 + nameLen, p.address, p.port, (name + (p.payload + rest))[nameLen..], free)
            == Outcome(Ok(p), rest) <==>
            ClientFits(name, p) && |p.payload| <= free
  {
    if nameLen == |name| {
      PayloadExact(name, p.payload + rest);
      PayloadExact(p.payload, rest);
    }
  }

  lemma Wraps(nameLen: nat, total: nat)
    ensures nameLen % 256 == nameLen <==> nameLen <= MAX_UINT8
    ensures total % TWO_32 == total <==> total < TWO_32
  {
  }

  /**
   * A client frame is read back, payload and all and nothing else, exactly when the name fits its
   * length byte, the total fits the length field, and the receive buffer has room.
   */
  lemma ClientFrameRoundTrip(name: Bytes, p: Packet, rest: Bytes, free: nat)
    ensures ReadFromClient(ClientFrame(name, p) + rest, free) == Outcome(Ok(Delivered(p)), rest) <==>
            ClientFits(name, p) && |p.payload| <= free
  {
    var total := 37 + |name| + |p.payload|;
    ReadClientFrame(name, p, rest, free);
    Wraps(|name|, total);
    ReadAfterName(name, Delivered(p), rest, free, total % TWO_32, |name| % 256);
  }

  lemma ReadAll(length: nat, counted: nat, address: IpAddr, port: uint16, body: Bytes, free: nat)
    requires length == counted + |body| && |body| <= free
    ensures ReadPayload(length, counted, address, port, body, free) == Outcome(Ok(Packet(address, port, body)), [])
  {
    assert body[..|body|] == body && body[|body|..] == [];
  }

  /** A total that just wraps the length field is announced as nothing, and refused on arrival. */
  lemma WrappedLengthIsLost(name: Bytes, p: Packet, rest: Bytes, free: nat)
    requires 37 + |name| + |p.payload| == TWO_32
    ensures ReadFromClient(ClientFrame(name, p) + rest, free).result == Err(InvalidLength)
  {
    ReadClientFrame(name, p, rest, free);
  }

  /** A name of 256 bytes is announced as none, and arrives as part of the payload. */
  lemma WrappedNameIsLost(name: Bytes, p: Packet, free: nat)
    requires |name| == 256 && 37 + |name| + |p.payload| < TWO_32 && |name| + |p.payload| <= free
    ensures ReadFromClient(ClientFrame(name, p) + [], free) ==
            Outcome(Ok(Delivered(p).(payload := name + p.payload)), [])
  {
    ReadClientFrame(name, p, [], free);
    var body := name + p.payload;
    BehindNoName(name, p.payload);
    Wraps(|name|, 37 + |body|);
    ReadAll(37 + |body|, 37, Delivered(p).address, p.port, body, free);
  }

  lemma BehindNoName(name: Bytes, payload: Bytes)
    requires |name| == 256
    ensures |name| % 256 == 0 && (name + (payload + []))[|name| % 256..] == name + payload
  {
  }

  /** Both do happen, for any address: a payload of 2^32 - 37 bytes, and an empty one behind such a name. */
  lemma LengthsDoWrap(address: IpAddr, port: uint16)
    ensures ReadFromClient(ClientFrame([], Packet(address, port, Zeros(TWO_32 - 37))) + [], TWO_32).result ==
            Err(InvalidLength)
    ensures ReadFromClient(ClientFrame(Zeros(256), Packet(address, port, [])) + [], 256).result ==
            Ok(Packet(Parse16BytesIP(BuildPaddingIP(address)), port, Zeros(256)))
  {
    WrappedLengthIsLost([], Packet(address, port, Zeros(TWO_32 - 37)), [], TWO_32);
    WrappedNameIsLost(Zeros(256), Packet(address, port, []), 256);
    assert Zeros(256) + [] == Zeros(256);
  }

  lemma ServerFrameRoundTrip(p: Packet, rest: Bytes, free: nat)
    ensures ReadFromServer(ServerFrame(p) + rest, free) == Outcome(Ok(Delivered(p)), rest) <==>
            ServerFits(p) && |p.payload| <= free
  {
    ServerFields(p, rest);
    FieldValues(36 + |p.payload|, p.port);
    PayloadExact(p.payload, rest);
  }

  /** A successful read takes exactly the length field and what it counts, so the stream stays in step. */
  lemma ReadsStayAligned(s: Bytes, free: nat)
    ensures ReadFromClient(s, free).result.Ok? ==> |s| - |ReadFromClient(s, free).rest| == 4 + BigEndian(s[..4])
    ensures ReadFromServer(s, free).result.Ok? ==> |s| - |ReadFromServer(s, free).rest| == 4 + BigEndian(s[..4])
  {
  }

  /** Even a cut frame announces its full size, as long as the length field is there. */
  lemma ClientPrefix(name: Bytes, p: Packet, cut: nat)
    requires ClientFits(name, p) && 4 <= cut <= |ClientFrame(name, p)|
    ensures BigEndian(ClientFrame(name, p)[..cut][..4]) == |ClientFrame(name, p)| - 4
  {
    var s := ClientFrame(name, p);
    ClientFields(name, p, []);
    assert s + [] == s && s[..cut][..4] == s[..4];
    FieldValues(37 + |name| + |p.payload|, p.port);
  }

  lemma ServerPrefix(p: Packet, cut: nat)
    requires ServerFits(p) && 4 <= cut <= |ServerFrame(p)|
    ensures BigEndian(ServerFrame(p)[..cut][..4]) == |ServerFrame(p)| - 4
  {
    var s := ServerFrame(p);
    ServerFields(p, []);
    assert s + [] == s && s[..cut][..4] == s[..4];
    FieldValues(36 + |p.payload|, p.port);
  }

  /** No packet is ever delivered from a frame that is cut short. */
  lemma TruncatedFrameFails(name: Bytes, p: Packet, cut: nat, free: nat)
    requires ClientFits(name, p) && cut < |ClientFrame(name, p)|
    ensures ReadFromClient(ClientFrame(name, p)[..cut], free).result.Err?
  {
    if 4 <= cut {
      ClientPrefix(name, p, cut);
      ReadsStayAligned(ClientFrame(name, p)[..cut], free);
    }
  }

  lemma TruncatedServerFrameFails(p: Packet, cut: nat, free: nat)
    requires ServerFits(p) && cut < |ServerFrame(p)|
    ensures ReadFromServer(ServerFrame(p)[..cut], free).result.Err?
  {
    if 4 <= cut {
      ServerPrefix(p, cut);
      ReadsStayAligned(ServerFrame(p)[..cut], free);
    }
  }

  // ---------------------------------------------------------------- whole streams

  function ClientStream(name: Bytes, ps: seq<Packet>): Bytes {
    if ps == [] then [] else ClientFrame(name, ps[0]) + ClientStream(name, ps[1..])
  }

  function ServerStream(ps: seq<Packet>): Bytes {
    if ps == [] then [] else ServerFrame(ps[0]) + ServerStream(ps[1..])
  }

  /** The packets of n reads in a row with buffers of the given room, and what they leave. */
  function ReadManyFromClient(s: Bytes, free: nat, n: nat): Result<(seq<Packet>, Bytes), PacketError> {
    if n == 0 then Ok(([], s))
    else
      var first := ReadFromClient(s, free);
      var p :- first.result;
      var (ps, rest) :- ReadManyFromClient(first.rest, free, n - 1);
      Ok(([p] + ps, rest))
  }

  function ReadManyFromServer(s: Bytes, free: nat, n: nat): Result<(seq<Packet>, Bytes), PacketError> {
    if n == 0 then Ok(([], s))
    else
      var first := ReadFromServer(s, free);
      var p :- first.result;
      var (ps, rest) :- ReadManyFromServer(first.rest, free, n - 1);
      Ok(([p] + ps, rest))
  }

  function DeliveredAll(ps: seq<Packet>): seq<Packet> {
    if ps == [] then [] else [Delivered(ps[0])] + DeliveredAll(ps[1..])
  }

  /** Any number of packets written by a client arrive in order, using up the stream exactly. */
  lemma {:induction false} ClientStreamRoundTrip(name: Bytes, ps: seq<Packet>, rest: Bytes, free: nat)
    requires forall p | p in ps :: ClientFits(name, p) && |p.payload| <= free
    ensures ReadManyFromClient(ClientStream(name, ps) + rest, free, |ps|) == Ok((DeliveredAll(ps), rest))
  {
    if ps == [] {
      assert [] + rest == rest;
    } else {
      var tail := ClientStream(name, ps[1..]);
      ClientFrameRoundTrip(name, ps[0], tail + rest, free);
      Regroup(ClientFrame(name, ps[0]), tail, rest);
      ClientStreamRoundTrip(name, ps[1..], rest, free);
    }
  }

  /** And so do packets written by the server. */
  lemma {:induction false} ServerStreamRoundTrip(ps: seq<Packet>, rest: Bytes, free: nat)
    requires forall p | p in ps :: ServerFits(p) && |p.payload| <= free
    ensures ReadManyFromServer(ServerStream(ps) + rest, free, |ps|) == Ok((DeliveredAll(ps), rest))
  {
    if ps == [] {
      assert [] + rest == rest;
    } else {
      var tail := ServerStream(ps[1..]);
      ServerFrameRoundTrip(ps[0], tail + rest, free);
      Regroup(ServerFrame(ps[0]), tail, rest);
      ServerStreamRoundTrip(ps[1..], rest, free);
    }
  }

  /** Distinct addresses arrive as they were sent. */
  lemma {:induction false} DistinctArriveUnchanged(ps: seq<Packet>)
    ensures DeliveredAll(ps) == ps <==> forall p | p in ps :: Distinct(p.address)
  {
    if ps != [] {
      ParseBuild(ps[0].address);
      DistinctArriveUnchanged(ps[1..]);
      Rejoin(ps, 1);
      assert DeliveredAll(ps)[0] == Delivered(ps[0]) && DeliveredAll(ps)[1..] == DeliveredAll(ps[1..]);
    }
  }

  // ---------------------------------------------------------------- the frames byte by byte

  /** The first four bytes of a frame are the count of those behind them, big-endian in 32 bits. */
  predicate CountsRest(s: Bytes, n: nat)
    requires |s| >= 4
  {
    n < TWO_32 ==> s[0] == n / 16777216 && s[1] == n / 65536 % 256 && s[2] == n / 256 % 256 && s[3] == n % 256
  }

  lemma LengthBytes(n: nat)
    ensures CountsRest(LengthField(n), n)
  {
    if n < TWO_32 {
      var m := n % TWO_32;
      assert ToBytes(m / 16777216, 1) == ToBytes(m / 16777216 / 256, 0) + [m / 16777216 % 256];
      assert m / 65536 / 256 == m / 16777216 && m / 256 / 256 == m / 65536;
      assert ToBytes(m / 65536, 2) == ToBytes(m / 16777216, 1) + [m / 65536 % 256];
      assert ToBytes(m / 256, 3) == ToBytes(m / 65536, 2) + [m / 256 % 256];
      assert ToBytes(m, 4) == ToBytes(m / 256, 3) + [m % 256];
    }
  }

  lemma PortBytes(port: uint16)
    ensures ToBytes(port, 2) == [port / 256, port % 256]
  {
    assert ToBytes(port / 256, 1) == ToBytes(port / 256 / 256, 0) + [port / 256 % 256];
    assert ToBytes(port, 2) == ToBytes(port / 256, 1) + [port % 256];
  }

  /** Towards the server: length, 18 zeros, address, port, name length, name, payload. */
  lemma ClientFrameBytes(name: Bytes, p: Packet)
    requires |name| <= 255
    ensures var s := ClientFrame(name, p);
            && |s| == 41 + |name| + |p.payload|
            && CountsRest(s, |s| - 4)
            && (forall i | 4 <= i < 22 :: s[i] == 0)
            && s[22..38] == BuildPaddingIP(p.address)
            && s[38] == p.port / 256 && s[39] == p.port % 256
            && s[40] == |name|
            && s[41..] == name + p.payload
  {
    var s := ClientFrame(name, p);
    ClientFields(name, p, []);
    assert s + [] == s && p.payload + [] == p.payload;
    LengthBytes(37 + |name| + |p.payload|);
    assert s[..4][0] == s[0] && s[..4][1] == s[1] && s[..4][2] == s[2] && s[..4][3] == s[3];
    PortBytes(p.port);
    assert s[38..40][0] == s[38] && s[38..40][1] == s[39];
    ClientZeros(name, p);
  }

  lemma ClientZeros(name: Bytes, p: Packet)
    ensures forall i | 4 <= i < 22 :: ClientFrame(name, p)[i] == 0
  {
    var rest := BuildPaddingIP(p.address) + ToBytes(p.port, 2) + [|name| % 256] + name + p.payload;
    var a := LengthField(18 + 18 + 1 + |name| + |p.payload|);
    assert ClientFrame(name, p) == a + Zeros(18) + rest;
  }

  /** Towards the client: length, address, port, 18 zeros, payload. */
  lemma ServerFrameBytes(p: Packet)
    ensures var s := ServerFrame(p);
            && |s| == 40 + |p.payload|
            && CountsRest(s, |s| - 4)
            && s[4..20] == BuildPaddingIP(p.address)
            && s[20] == p.port / 256 && s[21] == p.port % 256
            && (forall i | 22 <= i < 40 :: s[i] == 0)
            && s[40..] == p.payload
  {
    var s := ServerFrame(p);
    ServerFields(p, []);
    assert s + [] == s && p.payload + [] == p.payload;
    LengthBytes(36 + |p.payload|);
    assert s[..4][0] == s[0] && s[..4][1] == s[1] && s[..4][2] == s[2] && s[..4][3] == s[3];
    PortBytes(p.port);
    assert s[20..22][0] == s[20] && s[20..22][1] == s[21];
    ServerZeros(p);
  }

  lemma ServerZeros(p: Packet)
    ensures forall i | 22 <= i < 40 :: ServerFrame(p)[i] == 0
  {
    var a := LengthField(18 + 18 + |p.payload|) + BuildPaddingIP(p.address) + ToBytes(p.port, 2);
    assert ServerFrame(p) == a + Zeros(16) + Zeros(2) + p.payload;
  }

  /** What a packet from a client is read from, whatever stands in the source fields. */
  lemma ReadFieldsFromClient(s: Bytes, free: nat)
    requires ReadFromClient(s, free).result.Ok?
    ensures |s| >= 41 + s[40] as int && BigEndian(s[..4]) >= 37 + s[40] as int
    ensures var p, behind := ReadFromClient(s, free).result.value, s[41..][s[40]..];
            && p.address == Parse16BytesIP(s[22..38])
            && p.port == 256 * (s[38] as int) + s[39] as int
            && |p.payload| == BigEndian(s[..4]) - 37 - s[40] as int
            && HasPrefix(behind, p.payload) && ReadFromClient(s, free).rest == behind[|p.payload|..]
  {
    TwoBytes(s[38..40]);
  }

  lemma ReadFieldsFromServer(s: Bytes, free: nat)
    requires ReadFromServer(s, free).result.Ok?
    ensures |s| >= 40 && BigEndian(s[..4]) >= 36
    ensures var p := ReadFromServer(s, free).result.value;
            && p.address == Parse16BytesIP(s[4..20])
            && p.port == 256 * (s[20] as int) + s[21] as int
            && |p.payload| == BigEndian(s[..4]) - 36
            && HasPrefix(s[40..], p.payload) && ReadFromServer(s, free).rest == s[40..][|p.payload|..]
  {
    TwoBytes(s[20..22]);
  }

  lemma FourByteNumber(s: Bytes)
    requires |s| >= 4
    ensures BigEndian(s[..4]) == 16777216 * (s[0] as int) + 65536 * (s[1] as int) + 256 * (s[2] as int) + s[3] as int
  {
    var t := s[..4];
    assert t[..3][..2] == s[..2] && t[..3][2] == s[2] && t[..3] == s[..3];
    TwoBytes(s[..2]);
    assert BigEndian(s[..3]) == 256 * BigEndian(s[..3][..2]) + s[2];
    assert s[..3][..2] == s[..2];
    assert BigEndian(t) == 256 * BigEndian(t[..3]) + s[3];
  }

  // ---------------------------------------------------------------- where a stream ends

  /** What is missing from a packet whose length field says n bytes follow, of which counted are not payload. */
  ghost predicate PayloadErrors(result: Result<Packet, PacketError>, n: nat, counted: nat, left: nat, free: nat) {
    && (result == Err(InvalidLength) <==> n < counted)
    && (result == Err(ShortBuffer) <==> free < n - counted)
    && (result == Err(StreamEnd) <==> counted < n && n - counted <= free && left == 0)
    && (result == Err(StreamTruncated) <==> n - counted <= free && 0 < left < n - counted)
  }

  /** A stream that ends between packets, inside a header, inside a name or inside a payload, each told as it is. */
  lemma EndsFromClient(s: Bytes, free: nat)
    ensures var result := ReadFromClient(s, free).result;
            && (s == [] ==> result == Err(StreamEnd))
            && (0 < |s| < 41 ==> result == Err(StreamTruncated))
            && (|s| >= 41 && |s| < 41 + s[40] as int ==> result == Err(StreamEnd))
            && (|s| >= 41 && |s| >= 41 + s[40] as int ==>
                  PayloadErrors(result, BigEndian(s[..4]), 37 + s[40] as int, |s| - 41 - s[40] as int, free))
  {
  }

  lemma EndsFromServer(s: Bytes, free: nat)
    ensures var result := ReadFromServer(s, free).result;
            && (s == [] ==> result == Err(StreamEnd))
            && (0 < |s| < 40 ==> result == Err(StreamTruncated))
            && (|s| >= 40 ==> PayloadErrors(result, BigEndian(s[..4]), 36, |s| - 40, free))
  {
  }
}
