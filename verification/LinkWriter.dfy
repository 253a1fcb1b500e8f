/** The builder of tturl/url.go, proved against the records of module LinkSpec. */
module LinkWriter {
  import opened Basics
  import opened Buffers
  import opened Address
  import opened Url
  import opened Tlv
  import opened LinkSpec
  import Base64Url
  import Hex
  import LinkLaws
  import Varint

  /** The dynamic types writeTLV switches over. */
  datatype TlvData =
    | ByteData(b: byte)
    | BoolData(flag: bool)
    | TextData(text: Bytes)
    | ListData(items: seq<Bytes>)
  {
    /** The bytes a record of this data carries. */
    function Payload(): Bytes {
      match this
      case ByteData(b) => [b]
      case BoolData(flag) => [if flag then 1 else 0]
      case TextData(text) => text
      case ListData(items) => EncodeStrings(items)
    }
  }

  lemma {:induction false} EncodeStringsAppend(a: seq<Bytes>, b: seq<Bytes>)
    ensures EncodeStrings(a + b) == EncodeStrings(a) + EncodeStrings(b)
  {
    if a == [] {
      assert a + b == b;
    } else {
      EncodeStringsAppend(a[1..], b);
      assert (a + b)[1..] == a[1..] + b;
      Regroup(EncodeString(a[0]), EncodeStrings(a[1..]), EncodeStrings(b));
    }
  }

  lemma EncodeStringsNext(items: seq<Bytes>, i: nat)
    requires i < |items|
    ensures EncodeStrings(items[..i + 1]) == EncodeStrings(items[..i]) + EncodeString(items[i])
    ensures |EncodeStrings(items[..i + 1])| <= |EncodeStrings(items)|
  {
    var one := [items[i]];
    EncodeStringsAppend(items[..i], one);
    assert items[..i + 1] == items[..i] + one;
    assert one[1..] == [];
    assert EncodeStrings(one) == EncodeString(items[i]) + [];
    EncodeStringsAppend(items[..i + 1], items[i + 1..]);
    Rejoin(items, i + 1);
  }

  lemma ItemLength(item: Bytes)
    ensures match Varint.EncodedLength(|item|)
            case Ok(size) =>
              && Varint.Encode(|item|).Ok?
              && EncodeString(item) == Varint.Encode(|item|).value + item
              && size + |item| == |EncodeString(item)|
            case Err(_) => |item| > Varint.MAX_VARINT_8
  {
  }

  lemma OversizeItem(items: seq<Bytes>, i: nat)
    requires i < |items| && |items[i]| > Varint.MAX_VARINT_8
    ensures |EncodeStrings(items)| > Varint.MAX_VARINT_8
  {
    EncodeStringsNext(items, i);
    ItemLength(items[i]);
  }

  lemma NextLength(items: seq<Bytes>, i: nat)
    requires i < |items| && |items[i]| <= Varint.MAX_VARINT_8
    ensures Varint.EncodedLength(|items[i]|).Ok?
    ensures |EncodeStrings(items[..i + 1])| ==
            |EncodeStrings(items[..i])| + (Varint.EncodedLength(|items[i]|).value + |items[i]|)
  {
    EncodeStringsNext(items, i);
    ItemLength(items[i]);
  }

  /** The first loop of a list record: the length the second loop will write, or an oversize item. */
  method StringArrayLength(items: seq<Bytes>) returns (r: Result<nat, ReadError>)
    ensures r.Ok? ==> r.value == |EncodeStrings(items)|
    ensures r.Ok? ==> forall item | item in items :: |item| <= Varint.MAX_VARINT_8
    ensures r.Err? ==> r == Err(Malformed) && |EncodeStrings(items)| > Varint.MAX_VARINT_8
  {
    var length := 0;
    assert items[..0] == [];
    for i := 0 to |items|
      invariant length == |EncodeStrings(items[..i])|
      invariant forall item | item in items[..i] :: |item| <= Varint.MAX_VARINT_8
    {
      var itemLengthSize := Varint.EncodedLength(|items[i]|);
      ItemLength(items[i]);
      if itemLengthSize.Err? {
        OversizeItem(items, i);
        return Err(Malformed);
      }
      NextLength(items, i);
      length := length + (itemLengthSize.value + |items[i]|);
    }
    assert items[..|items|] == items;
    r := Ok(length);
  }

  /** The second loop. */
  method WriteStringArray(buffer: ByteBuilder, items: seq<Bytes>)
    requires forall item | item in items :: |item| <= Varint.MAX_VARINT_8
    modifies buffer
    ensures buffer.contents == old(buffer.contents) + EncodeStrings(items)
  {
    for i := 0 to |items|
      invariant buffer.contents == old(buffer.contents) + EncodeStrings(items[..i])
    {
      EncodeStringsNext(items, i);
      ItemLength(items[i]);
      var _ := Varint.WriteVarint(buffer, |items[i]|);
      buffer.Write(items[i]);
      Regroup(old(buffer.contents), EncodeStrings(items[..i]), EncodeString(items[i]));
      Regroup(old(buffer.contents) + EncodeStrings(items[..i]), Varint.Encode(|items[i]|).value, items[i]);
    }
    assert items[..|items|] == items;
  }

  method WriteOneByte(buffer: ByteBuilder, b: byte)
    modifies buffer
    ensures Varint.Encode(|[b]|) == Ok([1])
    ensures buffer.contents == old(buffer.contents) + ([1] + [b])
  {
    Varint.SmallValue(|[b]|);
    buffer.WriteByte(1);
    buffer.WriteByte(b);
  }

  method WriteText(buffer: ByteBuilder, text: Bytes) returns (r: Result<(), ReadError>)
    modifies buffer
    ensures r.Ok? <==> Varint.Encode(|text|).Ok?
    ensures r.Err? ==> r == Err(Malformed)
    ensures r.Ok? ==> buffer.contents == old(buffer.contents) + (Varint.Encode(|text|).value + text)
  {
    var _ :- Varint.WriteVarint(buffer, |text|);
    buffer.Write(text);
    Regroup(old(buffer.contents), Varint.Encode(|text|).value, text);
    r := Ok(());
  }

  method WriteList(buffer: ByteBuilder, items: seq<Bytes>) returns (r: Result<(), ReadError>)
    modifies buffer
    ensures r.Ok? <==> Varint.Encode(|EncodeStrings(items)|).Ok?
    ensures r.Err? ==> r == Err(Malformed)
    ensures r.Ok? ==>
              buffer.contents == old(buffer.contents)
                                 + (Varint.Encode(|EncodeStrings(items)|).value + EncodeStrings(items))
  {
    var length :- StringArrayLength(items);
    var _ :- Varint.WriteVarint(buffer, length);
    WriteStringArray(buffer, items);
    Regroup(old(buffer.contents), Varint.Encode(length).value, EncodeStrings(items));
    r := Ok(());
  }

  /** The length and the value of a record. */
  method WriteValue(buffer: ByteBuilder, data: TlvData) returns (r: Result<(), ReadError>)
    modifies buffer
    ensures r.Ok? <==> Varint.Encode(|data.Payload()|).Ok?
    ensures r.Err? ==> r == Err(Malformed)
    ensures r.Ok? ==>
              buffer.contents == old(buffer.contents) + (Varint.Encode(|data.Payload()|).value + data.Payload())
  {
    match data {
      case ByteData(b) =>
        WriteOneByte(buffer, b);
      case BoolData(flag) =>
        WriteOneByte(buffer, if flag then 1 else 0);
      case TextData(text) =>
        r := WriteText(buffer, text);
        return;
      case ListData(items) =>
        r := WriteList(buffer, items);
        return;
    }
    r := Ok(());
  }

  method WriteTlv(buffer: ByteBuilder, tag: nat, data: TlvData) returns (r: Result<(), ReadError>)
    modifies buffer
    ensures r.Ok? <==> EncodeRecord(Record(tag, data.Payload())).Ok?
    ensures r.Ok? ==> buffer.contents == old(buffer.contents) + EncodeRecord(Record(tag, data.Payload())).value
  {
    var _ :- Varint.WriteVarint(buffer, tag);
    r := WriteValue(buffer, data);
    if r.Ok? {
      ghost var tagBytes, lengthBytes := Varint.Encode(tag).value, Varint.Encode(|data.Payload()|).value;
      Regroup(old(buffer.contents), tagBytes, lengthBytes + data.Payload());
      Regroup(tagBytes, lengthBytes, data.Payload());
    }
  }

  // ---------------------------------------------------------------- the records written so far

  lemma PartsForMore(codec: AddressCodec, u: Link, a: seq<nat>, b: seq<nat>)
    requires a != []
    ensures PartsFor(codec, u, a + b) == Part(codec, u, a[0]) + PartsFor(codec, u, a[1..] + b)
  {
    var all := a + b;
    assert all[0] == a[0] && all[1..] == a[1..] + b;
  }

  lemma {:induction false} PartsForAppend(codec: AddressCodec, u: Link, a: seq<nat>, b: seq<nat>)
    ensures PartsFor(codec, u, a + b) == PartsFor(codec, u, a) + PartsFor(codec, u, b)
  {
    if a == [] {
      assert a + b == b;
    } else {
      PartsForAppend(codec, u, a[1..], b);
      PartsForMore(codec, u, a, b);
      Regroup(Part(codec, u, a[0]), PartsFor(codec, u, a[1..]), PartsFor(codec, u, b));
    }
  }

  lemma PartsOfOne(codec: AddressCodec, u: Link, tag: nat)
    ensures PartsFor(codec, u, [tag]) == Part(codec, u, tag)
  {
    var one := [tag];
    assert one[1..] == [];
    assert PartsFor(codec, u, one) == Part(codec, u, tag) + [];
  }

  lemma PartsOfFive(codec: AddressCodec, u: Link, a: nat, b: nat, c: nat, d: nat, e: nat)
    ensures PartsFor(codec, u, [a, b, c, d, e]) ==
            Part(codec, u, a) + Part(codec, u, b) + Part(codec, u, c) + Part(codec, u, d) + Part(codec, u, e)
  {
    PartsOfOne(codec, u, a);
    PartsOfOne(codec, u, b);
    PartsOfOne(codec, u, c);
    PartsOfOne(codec, u, d);
    PartsOfOne(codec, u, e);
    PartsForAppend(codec, u, [a], [b]);
    PartsForAppend(codec, u, [a, b], [c]);
    PartsForAppend(codec, u, [a, b, c], [d]);
    PartsForAppend(codec, u, [a, b, c, d], [e]);
    assert [a] + [b] == [a, b] && [a, b] + [c] == [a, b, c];
    assert [a, b, c] + [d] == [a, b, c, d] && [a, b, c, d] + [e] == [a, b, c, d, e];
  }

  /** The builder visits the tags in three runs of five. */
  lemma LinkRecordsInOrder(codec: AddressCodec, u: Link)
    ensures LinkRecords(codec, u) ==
            PartsFor(codec, u, BUILD_ORDER[..5]) + PartsFor(codec, u, BUILD_ORDER[5..10]) +
            PartsFor(codec, u, BUILD_ORDER[10..])
  {
    PartsForAppend(codec, u, BUILD_ORDER[..5], BUILD_ORDER[5..10]);
    assert BUILD_ORDER[..5] + BUILD_ORDER[5..10] == BUILD_ORDER[..10];
    PartsForAppend(codec, u, BUILD_ORDER[..10], BUILD_ORDER[10..]);
    assert BUILD_ORDER[..10] + BUILD_ORDER[10..] == BUILD_ORDER;
  }

  lemma {:induction false} SerializeAppend(a: seq<Record>, b: seq<Record>)
    requires Serialize(a).Ok? && Serialize(b).Ok?
    ensures Serialize(a + b) == Ok(Serialize(a).value + Serialize(b).value)
  {
    if a == [] {
      assert a + b == b && [] + Serialize(b).value == Serialize(b).value;
    } else {
      SerializeStep(a);
      SerializeAppend(a[1..], b);
      assert (a + b)[1..] == a[1..] + b;
      Regroup(EncodeRecord(a[0]).value, Serialize(a[1..]).value, Serialize(b).value);
    }
  }

  lemma SerializeOne(r: Record)
    requires EncodeRecord(r).Ok?
    ensures Serialize([r]) == EncodeRecord(r)
  {
    var one := [r];
    assert one[1..] == [];
    assert EncodeRecord(r).value + [] == EncodeRecord(r).value;
  }

  lemma {:induction false} SerializeError(rs: seq<Record>, r: Record)
    requires r in rs && EncodeRecord(r).Err?
    ensures Serialize(rs) == Err(Malformed)
  {
    if rs[0] != r && EncodeRecord(rs[0]).Ok? {
      SerializeError(rs[1..], r);
    }
  }

  lemma UnwritableLink(codec: AddressCodec, u: Link, r: Record)
    requires r.tag in BUILD_ORDER && r in Part(codec, u, r.tag) && EncodeRecord(r).Err?
    ensures Serialize(LinkRecords(codec, u)) == Err(Malformed)
  {
    LinkLaws.PartOfLink(codec, u, r.tag);
    SerializeError(LinkRecords(codec, u), r);
  }

  // ---------------------------------------------------------------- the builder

  function WhenPresent(present: bool, tag: nat, data: TlvData): seq<Record> {
    if present then [Record(tag, data.Payload())] else []
  }

  /** One `if` of the builder: write the record if its field is present. */
  method WritePresent(buffer: ByteBuilder, present: bool, tag: nat, data: TlvData,
                      ghost codec: AddressCodec, ghost u: Link, ghost done: seq<Record>)
    returns (ok: bool, ghost more: seq<Record>)
    requires Serialize(done) == Ok(buffer.contents)
    requires tag < 16 && tag != TAG_HAS_IPV6 && Part(codec, u, tag) == WhenPresent(present, tag, data)
    modifies buffer
    ensures more == done + Part(codec, u, tag)
    ensures ok ==> Serialize(more) == Ok(buffer.contents)
    ensures !ok ==> Serialize(LinkRecords(codec, u)) == Err(Malformed)
  {
    more := done + Part(codec, u, tag);
    if present {
      ghost var r := Record(tag, data.Payload());
      var written := WriteTlv(buffer, tag, data);
      if written.Err? {
        LinkLaws.OrderIsComplete(tag);
        UnwritableLink(codec, u, r);
        return false, more;
      }
      SerializeOne(r);
      SerializeAppend(done, [r]);
    } else {
      assert done + [] == done;
    }
    ok := true;
  }

  /** One more record behind those written. */
  lemma SerializeNext(done: seq<Record>, part: seq<Record>, i: nat, contents: Bytes)
    requires i < |part| && Serialize(done + part[..i]) == Ok(contents) && EncodeRecord(part[i]).Ok?
    ensures Serialize(done + part[..i + 1]) == Ok(contents + EncodeRecord(part[i]).value)
  {
    SerializeOne(part[i]);
    SerializeAppend(done + part[..i], [part[i]]);
    assert done + part[..i] + [part[i]] == done + part[..i + 1];
  }

  method WriteAddresses(buffer: ByteBuilder, codec: AddressCodec, u: Link, ghost done: seq<Record>)
    returns (ok: bool, ghost more: seq<Record>)
    requires Serialize(done) == Ok(buffer.contents)
    modifies buffer
    ensures more == done + Part(codec, u, TAG_ADDRESSES)
    ensures ok ==> Serialize(more) == Ok(buffer.contents)
    ensures !ok ==> Serialize(LinkRecords(codec, u)) == Err(Malformed)
  {
    ghost var part := AddressRecords(codec, u.addresses);
    more := done + part;
    LinkLaws.OrderIsComplete(TAG_ADDRESSES);
    assert done + part[..0] == done;
    for i := 0 to |u.addresses|
      invariant Serialize(done + part[..i]) == Ok(buffer.contents)
    {
      ghost var r := Record(TAG_ADDRESSES, codec.format(u.addresses[i]));
      assert part[i] == r && r in part;
      ghost var before := buffer.contents;
      var written := WriteTlv(buffer, TAG_ADDRESSES, TextData(codec.format(u.addresses[i])));
      if written.Err? {
        UnwritableLink(codec, u, r);
        return false, more;
      }
      SerializeNext(done, part, i, before);
    }
    assert part[..|u.addresses|] == part;
    ok := true;
  }

  lemma IdentityParts(codec: AddressCodec, u: Link)
    ensures Part(codec, u, TAG_VERSION) == WhenPresent(true, TAG_VERSION, ByteData(u.version))
    ensures Part(codec, u, TAG_HOSTNAME) == WhenPresent(u.hostname != [], TAG_HOSTNAME, TextData(u.hostname))
    ensures Part(codec, u, TAG_CUSTOM_SNI) == WhenPresent(u.customSni != [], TAG_CUSTOM_SNI, TextData(u.customSni))
    ensures Part(codec, u, TAG_USERNAME) == WhenPresent(u.username != [], TAG_USERNAME, TextData(u.username))
  {
  }

  /** Version to user name. */
  method WriteIdentity(buffer: ByteBuilder, codec: AddressCodec, u: Link, ghost done: seq<Record>)
    returns (ok: bool, ghost more: seq<Record>)
    requires Serialize(done) == Ok(buffer.contents)
    modifies buffer
    ensures ok ==> more == done + PartsFor(codec, u, BUILD_ORDER[..5])
    ensures ok ==> Serialize(more) == Ok(buffer.contents)
    ensures !ok ==> Serialize(LinkRecords(codec, u)) == Err(Malformed)
  {
    IdentityParts(codec, u);
    ok, more := WritePresent(buffer, true, TAG_VERSION, ByteData(u.version), codec, u, done);
    if !ok {
      return;
    }
    ok, more := WritePresent(buffer, u.hostname != [], TAG_HOSTNAME, TextData(u.hostname), codec, u, more);
    if !ok {
      return;
    }
    ok, more := WriteAddresses(buffer, codec, u, more);
    if !ok {
      return;
    }
    ok, more := WritePresent(buffer, u.customSni != [], TAG_CUSTOM_SNI, TextData(u.customSni), codec, u, more);
    if !ok {
      return;
    }
    ok, more := WritePresent(buffer, u.username != [], TAG_USERNAME, TextData(u.username), codec, u, more);
    AppendIdentity(codec, u, done);
  }

  lemma AppendIdentity(codec: AddressCodec, u: Link, done: seq<Record>)
    ensures done + Part(codec, u, TAG_VERSION) + Part(codec, u, TAG_HOSTNAME) + Part(codec, u, TAG_ADDRESSES)
            + Part(codec, u, TAG_CUSTOM_SNI) + Part(codec, u, TAG_USERNAME)
            == done + PartsFor(codec, u, BUILD_ORDER[..5])
  {
    assert BUILD_ORDER[..5] == [TAG_VERSION, TAG_HOSTNAME, TAG_ADDRESSES, TAG_CUSTOM_SNI, TAG_USERNAME];
    PartsOfFive(codec, u, TAG_VERSION, TAG_HOSTNAME, TAG_ADDRESSES, TAG_CUSTOM_SNI, TAG_USERNAME);
    Regroup5(done, Part(codec, u, TAG_VERSION), Part(codec, u, TAG_HOSTNAME), Part(codec, u, TAG_ADDRESSES),
             Part(codec, u, TAG_CUSTOM_SNI), Part(codec, u, TAG_USERNAME));
  }

  lemma OptionsParts(codec: AddressCodec, u: Link)
    ensures Part(codec, u, TAG_PASSWORD) == WhenPresent(u.password != [], TAG_PASSWORD, TextData(u.password))
    ensures Part(codec, u, TAG_CLIENT_RANDOM_PREFIX) ==
            WhenPresent(!u.clientRandomPrefix.IsEmpty(), TAG_CLIENT_RANDOM_PREFIX,
                        TextData(u.clientRandomPrefix.Print()))
    ensures Part(codec, u, TAG_SKIP_VERIFICATION) ==
            WhenPresent(u.skipVerification, TAG_SKIP_VERIFICATION, BoolData(true))
    ensures Part(codec, u, TAG_CERTIFICATE) ==
            WhenPresent(u.certificate != [], TAG_CERTIFICATE, TextData(u.certificate))
    ensures Part(codec, u, TAG_UPSTREAM_PROTOCOL) ==
            WhenPresent(u.upstreamProtocol != UPSTREAM_HTTP2, TAG_UPSTREAM_PROTOCOL, ByteData(u.upstreamProtocol))
  {
  }

  /** Password to upstream protocol. */
  method WriteOptions(buffer: ByteBuilder, codec: AddressCodec, u: Link, ghost done: seq<Record>)
    returns (ok: bool, ghost more: seq<Record>)
    requires Serialize(done) == Ok(buffer.contents)
    modifies buffer
    ensures ok ==> more == done + PartsFor(codec, u, BUILD_ORDER[5..10])
    ensures ok ==> Serialize(more) == Ok(buffer.contents)
    ensures !ok ==> Serialize(LinkRecords(codec, u)) == Err(Malformed)
  {
    OptionsParts(codec, u);
    ok, more := WritePresent(buffer, u.password != [], TAG_PASSWORD, TextData(u.password), codec, u, done);
    if !ok {
      return;
    }
    ok, more := WritePresent(buffer, !u.clientRandomPrefix.IsEmpty(), TAG_CLIENT_RANDOM_PREFIX,
                             TextData(u.clientRandomPrefix.Print()), codec, u, more);
    if !ok {
      return;
    }
    ok, more := WritePresent(buffer, u.skipVerification, TAG_SKIP_VERIFICATION, BoolData(true), codec, u, more);
    if !ok {
      return;
    }
    ok, more := WritePresent(buffer, u.certificate != [], TAG_CERTIFICATE, TextData(u.certificate), codec, u, more);
    if !ok {
      return;
    }
    ok, more := WritePresent(buffer, u.upstreamProtocol != UPSTREAM_HTTP2, TAG_UPSTREAM_PROTOCOL,
                             ByteData(u.upstreamProtocol), codec, u, more);
    AppendOptions(codec, u, done);
  }

  lemma AppendOptions(codec: AddressCodec, u: Link, done: seq<Record>)
    ensures done + Part(codec, u, TAG_PASSWORD) + Part(codec, u, TAG_CLIENT_RANDOM_PREFIX)
            + Part(codec, u, TAG_SKIP_VERIFICATION)
            + Part(codec, u, TAG_CERTIFICATE) + Part(codec, u, TAG_UPSTREAM_PROTOCOL)
            == done + PartsFor(codec, u, BUILD_ORDER[5..10])
  {
    assert BUILD_ORDER[5..10] ==
           [TAG_PASSWORD, TAG_CLIENT_RANDOM_PREFIX, TAG_SKIP_VERIFICATION, TAG_CERTIFICATE, TAG_UPSTREAM_PROTOCOL];
    PartsOfFive(codec, u, TAG_PASSWORD, TAG_CLIENT_RANDOM_PREFIX, TAG_SKIP_VERIFICATION, TAG_CERTIFICATE,
                TAG_UPSTREAM_PROTOCOL);
    Regroup5(done, Part(codec, u, TAG_PASSWORD), Part(codec, u, TAG_CLIENT_RANDOM_PREFIX),
             Part(codec, u, TAG_SKIP_VERIFICATION),
             Part(codec, u, TAG_CERTIFICATE), Part(codec, u, TAG_UPSTREAM_PROTOCOL));
  }

  lemma ExtrasParts(codec: AddressCodec, u: Link)
    ensures Part(codec, u, TAG_ANTI_DPI) == WhenPresent(u.antiDpi, TAG_ANTI_DPI, BoolData(true))
    ensures Part(codec, u, TAG_NAME) == WhenPresent(u.name != [], TAG_NAME, TextData(u.name))
    ensures Part(codec, u, TAG_DNS_UPSTREAMS) ==
            WhenPresent(u.dnsUpstreams != [], TAG_DNS_UPSTREAMS, ListData(u.dnsUpstreams))
    ensures Part(codec, u, TAG_SUBSCRIPTION_URL) ==
            WhenPresent(u.subscriptionUrl != [], TAG_SUBSCRIPTION_URL, TextData(u.subscriptionUrl))
    ensures Part(codec, u, TAG_CLIENT_RANDOM_AUTH_KEY) ==
            WhenPresent(u.clientRandomAuthKey != [], TAG_CLIENT_RANDOM_AUTH_KEY,
                        TextData(Hex.Encode(u.clientRandomAuthKey)))
  {
  }

  /** Anti-DPI to authentication key. */
  method WriteExtras(buffer: ByteBuilder, codec: AddressCodec, u: Link, ghost done: seq<Record>)
    returns (ok: bool, ghost more: seq<Record>)
    requires Serialize(done) == Ok(buffer.contents)
    modifies buffer
    ensures ok ==> more == done + PartsFor(codec, u, BUILD_ORDER[10..])
    ensures ok ==> Serialize(more) == Ok(buffer.contents)
    ensures !ok ==> Serialize(LinkRecords(codec, u)) == Err(Malformed)
  {
    ExtrasParts(codec, u);
    ok, more := WritePresent(buffer, u.antiDpi, TAG_ANTI_DPI, BoolData(true), codec, u, done);
    if !ok {
      return;
    }
    ok, more := WritePresent(buffer, u.name != [], TAG_NAME, TextData(u.name), codec, u, more);
    if !ok {
      return;
    }
    ok, more := WritePresent(buffer, u.dnsUpstreams != [], TAG_DNS_UPSTREAMS, ListData(u.dnsUpstreams), codec, u, more);
    if !ok {
      return;
    }
    ok, more := WritePresent(buffer, u.subscriptionUrl != [], TAG_SUBSCRIPTION_URL, TextData(u.subscriptionUrl),
                                codec, u, more);
    if !ok {
      return;
    }
    ok, more := WritePresent(buffer, u.clientRandomAuthKey != [], TAG_CLIENT_RANDOM_AUTH_KEY,
                             TextData(Hex.Encode(u.clientRandomAuthKey)), codec, u, more);
    AppendExtras(codec, u, done);
  }

  lemma AppendExtras(codec: AddressCodec, u: Link, done: seq<Record>)
    ensures done + Part(codec, u, TAG_ANTI_DPI) + Part(codec, u, TAG_NAME) + Part(codec, u, TAG_DNS_UPSTREAMS)
            + Part(codec, u, TAG_SUBSCRIPTION_URL) + Part(codec, u, TAG_CLIENT_RANDOM_AUTH_KEY)
            == done + PartsFor(codec, u, BUILD_ORDER[10..])
  {
    assert BUILD_ORDER[10..] ==
           [TAG_ANTI_DPI, TAG_NAME, TAG_DNS_UPSTREAMS, TAG_SUBSCRIPTION_URL, TAG_CLIENT_RANDOM_AUTH_KEY];
    PartsOfFive(codec, u, TAG_ANTI_DPI, TAG_NAME, TAG_DNS_UPSTREAMS, TAG_SUBSCRIPTION_URL, TAG_CLIENT_RANDOM_AUTH_KEY);
    Regroup5(done, Part(codec, u, TAG_ANTI_DPI), Part(codec, u, TAG_NAME), Part(codec, u, TAG_DNS_UPSTREAMS),
             Part(codec, u, TAG_SUBSCRIPTION_URL), Part(codec, u, TAG_CLIENT_RANDOM_AUTH_KEY));
  }

  lemma Regroup5<T>(s: seq<T>, a: seq<T>, b: seq<T>, c: seq<T>, d: seq<T>, e: seq<T>)
    ensures s + a + b + c + d + e == s + (a + b + c + d + e)
  {
    Regroup(s, a, b);
    Regroup(s, a + b, c);
    Regroup(s, a + b + c, d);
    Regroup(s, a + b + c + d, e);
  }

  method Build(codec: AddressCodec, u: Link) returns (r: Result<Bytes, ReadError>)
    ensures r == BuildLink(codec, u)
  {
    var v := ApplyDefaults(u);
    if !RequireValid(codec, v) {
      return Err(Malformed);
    }
    v := v.(version := RaisedVersion(v));
    var builder := new ByteBuilder();
    var ok, done := WriteIdentity(builder, codec, v, []);
    if ok {
      ok, done := WriteOptions(builder, codec, v, done);
    }
    if ok {
      ok, done := WriteExtras(builder, codec, v, done);
    }
    if !ok {
      return Err(Malformed);
    }
    LinkRecordsInOrder(codec, v);
    assert [] + PartsFor(codec, v, BUILD_ORDER[..5]) == PartsFor(codec, v, BUILD_ORDER[..5]);
    r := Ok(SCHEME + [QUESTION_MARK] + Base64Url.Encode(builder.contents));
  }
}
