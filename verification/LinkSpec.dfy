/**
 * Links as text: which records Build prints and in what order, what Parse makes of a link,
 * and the laws between the two. This specifies Parse and Build of tturl/url.go.
 */
module LinkSpec {
  import opened Basics
  import opened Buffers
  import opened Address
  import opened ClientRandom
  import opened Url
  import opened Tlv
  import Base64Url
  import Hex
  import Varint

  /** "tt://" */
  const SCHEME: Bytes := [0x74, 0x74, 0x3A, 0x2F, 0x2F]

  const QUESTION_MARK: byte := 0x3F

  // ---------------------------------------------------------------- writing records

  function EncodeRecord(r: Record): Result<Bytes, ReadError> {
    var tag :- Varint.Encode(r.tag);
    var length :- Varint.Encode(|r.value|);
    Ok(tag + length + r.value)
  }

  function Serialize(rs: seq<Record>): Result<Bytes, ReadError> {
    if rs == [] then Ok([])
    else
      var first :- EncodeRecord(rs[0]);
      var rest :- Serialize(rs[1..]);
      Ok(first + rest)
  }

  /** An item too long for a length prefix is left without one; its list is then too long as well. */
  function EncodeString(item: Bytes): (r: Bytes)
    ensures |r| >= |item|
  {
    match Varint.Encode(|item|)
    case Ok(length) => length + item
    case Err(_) => item
  }

  function EncodeStrings(items: seq<Bytes>): Bytes {
    if items == [] then [] else EncodeString(items[0]) + EncodeStrings(items[1..])
  }

  // ---------------------------------------------------------------- the records of a link

  function AddressRecords(codec: AddressCodec, addresses: seq<Socksaddr>): (r: seq<Record>)
    ensures |r| == |addresses|
    ensures forall i | 0 <= i < |r| :: r[i] == Record(TAG_ADDRESSES, codec.format(addresses[i]))
  {
    seq(|addresses|, i requires 0 <= i < |addresses| => Record(TAG_ADDRESSES, codec.format(addresses[i])))
  }

  function OptionalBytes(tag: nat, value: Bytes): seq<Record> {
    if value != [] then [Record(tag, value)] else []
  }

  function OptionalFlag(tag: nat, flag: bool): seq<Record> {
    if flag then [Record(tag, [1])] else []
  }

  /** What the builder prints for one tag of a normalized link. */
  function Part(codec: AddressCodec, u: Link, tag: nat): seq<Record> {
    if tag == TAG_VERSION then [Record(tag, [u.version])]
    else if tag == TAG_HOSTNAME then OptionalBytes(tag, u.hostname)
    else if tag == TAG_ADDRESSES then AddressRecords(codec, u.addresses)
    else if tag == TAG_CUSTOM_SNI then OptionalBytes(tag, u.customSni)
    else if tag == TAG_USERNAME then OptionalBytes(tag, u.username)
    else if tag == TAG_PASSWORD then OptionalBytes(tag, u.password)
    else if tag == TAG_SKIP_VERIFICATION then OptionalFlag(tag, u.skipVerification)
    else if tag == TAG_CERTIFICATE then OptionalBytes(tag, u.certificate)
    else if tag == TAG_UPSTREAM_PROTOCOL then
      if u.upstreamProtocol != UPSTREAM_HTTP2 then [Record(tag, [u.upstreamProtocol])] else []
    else if tag == TAG_ANTI_DPI then OptionalFlag(tag, u.antiDpi)
    else if tag == TAG_CLIENT_RANDOM_PREFIX then
      if u.clientRandomPrefix.IsEmpty() then [] else [Record(tag, u.clientRandomPrefix.Print())]
    else if tag == TAG_NAME then OptionalBytes(tag, u.name)
    else if tag == TAG_DNS_UPSTREAMS then
      if u.dnsUpstreams != [] then [Record(tag, EncodeStrings(u.dnsUpstreams))] else []
    else if tag == TAG_SUBSCRIPTION_URL then OptionalBytes(tag, u.subscriptionUrl)
    else if tag == TAG_CLIENT_RANDOM_AUTH_KEY then
      if u.clientRandomAuthKey != [] then [Record(tag, Hex.Encode(u.clientRandomAuthKey))] else []
    else []
  }

  /** The order in which the builder visits the tags. */
  const BUILD_ORDER: seq<nat> := [
    TAG_VERSION, TAG_HOSTNAME, TAG_ADDRESSES, TAG_CUSTOM_SNI, TAG_USERNAME, TAG_PASSWORD,
    TAG_CLIENT_RANDOM_PREFIX, TAG_SKIP_VERIFICATION, TAG_CERTIFICATE, TAG_UPSTREAM_PROTOCOL,
    TAG_ANTI_DPI, TAG_NAME, TAG_DNS_UPSTREAMS, TAG_SUBSCRIPTION_URL, TAG_CLIENT_RANDOM_AUTH_KEY]

  function PartsFor(codec: AddressCodec, u: Link, tags: seq<nat>): seq<Record> {
    if tags == [] then [] else Part(codec, u, tags[0]) + PartsFor(codec, u, tags[1..])
  }

  function LinkRecords(codec: AddressCodec, u: Link): seq<Record> {
    PartsFor(codec, u, BUILD_ORDER)
  }

  function BuildLink(codec: AddressCodec, u: Link): Result<Bytes, ReadError> {
    if !RequireValid(codec, ApplyDefaults(u)) then Err(Malformed)
    else
      var payload :- Serialize(LinkRecords(codec, Normalized(u)));
      Ok(SCHEME + [QUESTION_MARK] + Base64Url.Encode(payload))
  }

  // ---------------------------------------------------------------- reading a link

  function TrimQuestionMark(s: Bytes): Bytes {
    if s != [] && s[0] == QUESTION_MARK then s[1..] else s
  }

  function Finish(codec: AddressCodec, u: Link): Result<Link, ReadError> {
    var v := ApplyDefaults(u);
    if RequireValid(codec, v) then Ok(v) else Err(Malformed)
  }

  function ParsePayload(codec: AddressCodec, payload: Bytes): Result<Link, ReadError> {
    var u :- Tlv.Parse(codec, payload, ZERO_LINK);
    Finish(codec, u)
  }

  function ParseLink(codec: AddressCodec, link: Bytes): Result<Link, ReadError> {
    if !HasPrefix(link, SCHEME) then Err(Malformed)
    else
      match Base64Url.Decode(TrimQuestionMark(link[|SCHEME|..]))
      case None => Err(Malformed)
      case Some(payload) => ParsePayload(codec, payload)
  }

  // ---------------------------------------------------------------- records survive serialization

  lemma EncodedValueIsValue(value: Bytes, c: Bytes)
    requires |value| <= Varint.MAX_VARINT_8
    ensures ReadValue(Varint.Encode(|value|).value + (value + c)) == Ok((value, c))
  {
    Varint.RoundTrip(|value|, value + c);
    assert (value + c)[..|value|] == value && (value + c)[|value|..] == c;
  }

  lemma EncodedRecordIsRecord(r: Record, c: Bytes)
    requires EncodeRecord(r).Ok?
    ensures ReadRecord(EncodeRecord(r).value + c) == Ok((r, c))
    ensures EncodeRecord(r).value + c != []
  {
    var tag, length := Varint.Encode(r.tag).value, Varint.Encode(|r.value|).value;
    var afterTag := length + (r.value + c);
    EncodedValueIsValue(r.value, c);
    Varint.RoundTrip(r.tag, afterTag);
    assert ReadRecord(tag + afterTag) == Ok((r, c));
    Regroup(tag + length, r.value, c);
    Regroup(tag, length, r.value + c);
  }

  lemma SerializeStep(rs: seq<Record>)
    requires rs != [] && Serialize(rs).Ok?
    ensures EncodeRecord(rs[0]).Ok? && Serialize(rs[1..]).Ok?
    ensures Serialize(rs).value == EncodeRecord(rs[0]).value + Serialize(rs[1..]).value
  {
  }

  /** The records read back from a serialized list are that list. */
  lemma {:induction false} RecordsSerialize(rs: seq<Record>)
    requires Serialize(rs).Ok?
    ensures Records(Serialize(rs).value) == Ok(rs)
  {
    if rs != [] {
      SerializeStep(rs);
      var rest := Serialize(rs[1..]).value;
      EncodedRecordIsRecord(rs[0], rest);
      RecordsSerialize(rs[1..]);
      RecordsStep(EncodeRecord(rs[0]).value + rest, rs[0], rest);
      Rejoin(rs, 1);
    }
  }

  /** Serialization fails exactly on a record that is too long for its length prefix. */
  ghost predicate AllShort(rs: seq<Record>) {
    forall r | r in rs :: r.tag <= Varint.MAX_VARINT_8 && |r.value| <= Varint.MAX_VARINT_8
  }

  lemma {:induction false} SerializeSucceeds(rs: seq<Record>)
    ensures Serialize(rs).Ok? <==> AllShort(rs)
  {
    if rs != [] {
      SerializeSucceeds(rs[1..]);
      Rejoin(rs, 1);
    }
  }

  // ---------------------------------------------------------------- string arrays

  lemma ReadStringsStep(data: Bytes, item: Bytes, rest: Bytes)
    requires data != [] && ReadValue(data) == Ok((item, rest)) && ReadStrings(rest).Some?
    ensures ReadStrings(data) == Some([item] + ReadStrings(rest).value)
  {
  }

  /** A string array reads back as the list it was written from, empty strings included. */
  lemma {:induction false} StringsRoundTrip(items: seq<Bytes>)
    requires |EncodeStrings(items)| <= Varint.MAX_VARINT_8
    ensures ReadStrings(EncodeStrings(items)) == Some(items)
  {
    if items != [] {
      var first, rest := items[0], EncodeStrings(items[1..]);
      var length := Varint.Encode(|first|).value;
      assert EncodeStrings(items) == length + first + rest;
      Regroup(length, first, rest);
      EncodedValueIsValue(first, rest);
      StringsRoundTrip(items[1..]);
      ReadStringsStep(length + (first + rest), first, rest);
      Rejoin(items, 1);
    }
  }

  /** Writing a list again never takes more room than the text it was read from. */
  lemma {:induction false} StringsNeverGrow(data: Bytes)
    requires ReadStrings(data).Some?
    ensures |EncodeStrings(ReadStrings(data).value)| <= |data|
    decreases |data|
  {
    if data != [] {
      var (item, rest) := ReadValue(data).value;
      Varint.WriterIsShortest(data);
      StringsNeverGrow(rest);
      var items := ReadStrings(rest).value;
      assert ([item] + items)[1..] == items;
    }
  }
}
