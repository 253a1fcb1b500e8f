/**
 * The link format in its own numbers and characters: the text around a payload, the tag table, what is
 * printed and what is not, the version byte, and which links are valid.
 */
module LinkFormat {
  import opened Basics
  import opened Buffers
  import opened Address
  import opened ClientRandom
  import opened Url
  import opened Tlv
  import opened LinkSpec
  import opened LinkLaws
  import Base64Url
  import Hex
  import Varint

  // ---------------------------------------------------------------- the text around a payload

  /** "tt://" */
  function Prefix(): Bytes {
    ['t' as int, 't' as int, ':' as int, '/' as int, '/' as int]
  }

  /** What a builder returns starts with "tt://?", and the rest is the payload in base64url. */
  lemma BuiltText(codec: AddressCodec, u: Link)
    requires BuildLink(codec, u).Ok?
    ensures Serialize(LinkRecords(codec, Normalized(u))).Ok?
    ensures BuildLink(codec, u).value ==
            Prefix() + ['?' as int] + Base64Url.Encode(Serialize(LinkRecords(codec, Normalized(u))).value)
  {
    assert SCHEME == Prefix();
  }

  /** A text without the prefix is refused; behind it one question mark is dropped, and no more than one. */
  lemma OpenedText(codec: AddressCodec, text: Bytes)
    ensures ParseLink(codec, Prefix() + ['?' as int] + text) == OpenPayload(codec, text)
    ensures text == [] || text[0] != '?' as int ==> ParseLink(codec, Prefix() + text) == OpenPayload(codec, text)
    ensures !HasPrefix(text, Prefix()) ==> ParseLink(codec, text) == Err(Malformed)
  {
    assert SCHEME == Prefix();
    var marked := ['?' as int] + text;
    assert Prefix() + ['?' as int] + text == SCHEME + marked;
    AfterPrefix(marked);
    AfterPrefix(text);
    assert marked[1..] == text;
  }

  lemma AfterPrefix(text: Bytes)
    ensures HasPrefix(SCHEME + text, SCHEME) && (SCHEME + text)[|SCHEME|..] == text
  {
  }

  /** Base64url around a payload, or an error. */
  function OpenPayload(codec: AddressCodec, text: Bytes): Result<Link, ReadError> {
    match Base64Url.Decode(text)
    case None => Err(Malformed)
    case Some(payload) => ParsePayload(codec, payload)
  }

  // ---------------------------------------------------------------- valid links

  /** What every accepted link has. */
  lemma AcceptedFields(codec: AddressCodec, link: Bytes, u: Link)
    requires ParseLink(codec, link) == Ok(u)
    ensures u.version <= 2
    ensures u.upstreamProtocol == 1 || u.upstreamProtocol == 2
    ensures forall a | a in u.addresses :: codec.valid(a) && a.port != 0
    ensures u.subscriptionUrl == [] ==>
              u.hostname != [] && u.username != [] && u.password != [] && u.addresses != []
    ensures u.subscriptionUrl != [] ==> StartsWithHttps(u.subscriptionUrl)
  {
    var payload := Base64Url.Decode(TrimQuestionMark(link[|SCHEME|..])).value;
    var v := Tlv.Parse(codec, payload, ZERO_LINK).value;
    ValidMeans(codec, ApplyDefaults(v));
  }

  /** "https://" */
  predicate StartsWithHttps(s: Bytes) {
    && |s| >= 8
    && s[0] == 'h' as int && s[1] == 't' as int && s[2] == 't' as int && s[3] == 'p' as int
    && s[4] == 's' as int && s[5] == ':' as int && s[6] == '/' as int && s[7] == '/' as int
  }

  lemma HttpsMeans(s: Bytes)
    ensures HasPrefix(s, HTTPS) <==> StartsWithHttps(s)
  {
    if |s| >= 8 {
      var front := s[..8];
      assert front == [s[0], s[1], s[2], s[3], s[4], s[5], s[6], s[7]];
    }
  }

  lemma ValidMeans(codec: AddressCodec, u: Link)
    ensures RequireValid(codec, u) <==>
            && u.version <= 2
            && (u.upstreamProtocol == 1 || u.upstreamProtocol == 2)
            && (forall a | a in u.addresses :: codec.valid(a) && a.port != 0)
            && (u.subscriptionUrl == [] ==>
                  u.hostname != [] && u.username != [] && u.password != [] && u.addresses != [])
            && (u.subscriptionUrl != [] ==> StartsWithHttps(u.subscriptionUrl))
  {
    HttpsMeans(u.subscriptionUrl);
    assert forall a | a in u.addresses :: codec.Dialable(a) <==> codec.valid(a) && a.port != 0;
  }

  /** A payload of well-formed records is accepted exactly if these hold of what they spell, and then as that. */
  lemma AcceptedExactly(codec: AddressCodec, payload: Bytes)
    requires Tlv.Parse(codec, payload, ZERO_LINK).Ok?
    ensures var u := Tlv.Parse(codec, payload, ZERO_LINK).value;
            ParsePayload(codec, payload) ==
            if && u.version <= 2
               && u.upstreamProtocol <= 2
               && (forall a | a in u.addresses :: codec.valid(a) && a.port != 0)
               && (u.subscriptionUrl == [] ==>
                     u.hostname != [] && u.username != [] && u.password != [] && u.addresses != [])
               && (u.subscriptionUrl != [] ==> StartsWithHttps(u.subscriptionUrl))
            then Ok(u.(upstreamProtocol := if u.upstreamProtocol == 0 then 1 else u.upstreamProtocol))
            else Err(Malformed)
  {
    var u := Tlv.Parse(codec, payload, ZERO_LINK).value;
    ValidMeans(codec, ApplyDefaults(u));
  }

  /** A link is built exactly if the same holds of it, and no record is too long. */
  lemma BuiltExactly(codec: AddressCodec, u: Link)
    ensures BuildLink(codec, u).Ok? <==>
            && u.version <= 2
            && u.upstreamProtocol <= 2
            && (forall a | a in u.addresses :: codec.valid(a) && a.port != 0)
            && (u.subscriptionUrl == [] ==>
                  u.hostname != [] && u.username != [] && u.password != [] && u.addresses != [])
            && (u.subscriptionUrl != [] ==> StartsWithHttps(u.subscriptionUrl))
            && AllShort(LinkRecords(codec, Normalized(u)))
  {
    ValidMeans(codec, ApplyDefaults(u));
    BuildSucceeds(codec, u);
  }

  /** new(URL): nothing set. */
  lemma NothingSet()
    ensures ZERO_LINK.version == 0 && ZERO_LINK.upstreamProtocol == 0
    ensures !ZERO_LINK.skipVerification && !ZERO_LINK.antiDpi
    ensures ZERO_LINK.addresses == [] && ZERO_LINK.dnsUpstreams == []
    ensures [] == ZERO_LINK.hostname == ZERO_LINK.customSni == ZERO_LINK.username == ZERO_LINK.password
    ensures [] == ZERO_LINK.certificate == ZERO_LINK.name == ZERO_LINK.subscriptionUrl == ZERO_LINK.clientRandomAuthKey
    ensures ZERO_LINK.clientRandomPrefix.prefix == [] && ZERO_LINK.clientRandomPrefix.mask == []
  {
  }

  // ---------------------------------------------------------------- the version byte

  /** The first record of a built link is its version. */
  lemma WrittenVersion(codec: AddressCodec, u: Link)
    requires BuildLink(codec, u).Ok?
    ensures var rs := LinkRecords(codec, Normalized(u));
            && rs != [] && rs[0].tag == 0 && |rs[0].value| == 1
            && IsWrittenVersion(u, rs[0].value[0])
  {
    BuiltExactly(codec, u);
    FirstRecord(codec, Normalized(u));
  }

  lemma FirstRecord(codec: AddressCodec, u: Link)
    ensures LinkRecords(codec, u) != [] && LinkRecords(codec, u)[0] == Record(0, [u.version])
  {
    var order := BUILD_ORDER;
    assert order[0] == 0;
    assert PartsFor(codec, u, order) == Part(codec, u, order[0]) + PartsFor(codec, u, order[1..]);
  }

  // ---------------------------------------------------------------- the tag table

  /** The strings and the certificate. */
  lemma TextTags(codec: AddressCodec, u: Link, value: Bytes)
    ensures forall tag: nat | tag in {1, 3, 5, 6, 8, 12, 14} :: ValueOk(codec, Record(tag, value))
    ensures Assign(codec, u, Record(1, value)) == u.(hostname := value)
    ensures Assign(codec, u, Record(3, value)) == u.(customSni := value)
    ensures Assign(codec, u, Record(5, value)) == u.(username := value)
    ensures Assign(codec, u, Record(6, value)) == u.(password := value)
    ensures Assign(codec, u, Record(8, value)) == u.(certificate := value)
    ensures Assign(codec, u, Record(12, value)) == u.(name := value)
    ensures Assign(codec, u, Record(14, value)) == u.(subscriptionUrl := value)
  {
  }

  /** The single bytes: any byte but zero is a set flag. */
  lemma ByteTags(codec: AddressCodec, u: Link, value: Bytes)
    ensures ValueOk(codec, Record(0, value)) <==> |value| == 1 && value[0] <= 2
    ensures ValueOk(codec, Record(7, value)) <==> |value| == 1
    ensures ValueOk(codec, Record(9, value)) <==> |value| == 1 && 1 <= value[0] <= 2
    ensures ValueOk(codec, Record(10, value)) <==> |value| == 1
    ensures |value| == 1 && value[0] <= 2 ==> Assign(codec, u, Record(0, value)) == u.(version := value[0])
    ensures |value| == 1 ==> Assign(codec, u, Record(7, value)) == u.(skipVerification := value[0] != 0)
    ensures |value| == 1 && 1 <= value[0] <= 2 ==>
              Assign(codec, u, Record(9, value)) == u.(upstreamProtocol := value[0])
    ensures |value| == 1 ==> Assign(codec, u, Record(10, value)) == u.(antiDpi := value[0] != 0)
  {
  }

  /** An address: accepted if it can be dialed, and appended. */
  lemma AddressTag(codec: AddressCodec, u: Link, value: Bytes)
    ensures ValueOk(codec, Record(2, value)) <==> codec.valid(codec.parse(value)) && codec.parse(value).port != 0
    ensures ValueOk(codec, Record(2, value)) ==>
              Assign(codec, u, Record(2, value)) == u.(addresses := u.addresses + [codec.parse(value)])
  {
  }

  /** The client random and the key, as what they print as in lower case. */
  lemma NotationTags(codec: AddressCodec, u: Link, value: Bytes, c: RandomPrefix, key: Bytes)
    ensures |c.prefix| <= 32 && |c.mask| <= 32 && Hex.Lower(value) == c.Print() ==>
              && ValueOk(codec, Record(11, value))
              && Assign(codec, u, Record(11, value)) == u.(clientRandomPrefix := c)
    ensures Hex.Lower(value) == Hex.Encode(key) ==>
              && ValueOk(codec, Record(15, value))
              && Assign(codec, u, Record(15, value)) == u.(clientRandomAuthKey := key)
  {
    ParseMeans(value, c);
    Hex.DecodeMeans(value, key);
  }

  /** Nothing else is accepted as a client random or a key. */
  lemma NotationTagsOnly(codec: AddressCodec, value: Bytes)
    ensures ValueOk(codec, Record(11, value)) ==>
              exists c: RandomPrefix :: |c.prefix| <= 32 && |c.mask| <= 32 && Hex.Lower(value) == c.Print()
    ensures ValueOk(codec, Record(15, value)) ==> exists key :: Hex.Lower(value) == Hex.Encode(key)
  {
    if ValueOk(codec, Record(11, value)) {
      ParseMeans(value, ClientRandom.Parse(value).value);
    }
    if ValueOk(codec, Record(15, value)) {
      Hex.DecodeMeans(value, Hex.Decode(value).value);
    }
  }

  /** The list of name servers: items one after the other, each behind its length. */
  lemma ListTag(codec: AddressCodec, u: Link, items: seq<Bytes>, value: Bytes)
    requires value == EncodeStrings(items) && |value| <= 4611686018427387903
    ensures ValueOk(codec, Record(13, value))
    ensures Assign(codec, u, Record(13, value)) == u.(dnsUpstreams := items)
  {
    assert ReadStrings(value) == Some(items) by { StringsRoundTrip(items); }
    ListValue(codec, u, items, value);
  }

  lemma ListValue(codec: AddressCodec, u: Link, items: seq<Bytes>, value: Bytes)
    requires ReadStrings(value) == Some(items)
    ensures ValueOk(codec, Record(13, value))
    ensures Assign(codec, u, Record(13, value)) == u.(dnsUpstreams := items)
  {
  }

  lemma {:induction false} ListMeans(items: seq<Bytes>)
    requires items != [] && |items[0]| <= 4611686018427387903
    ensures EncodeStrings(items) == Varint.Encode(|items[0]|).value + items[0] + EncodeStrings(items[1..])
    ensures EncodeStrings([]) == []
  {
  }

  /** 4 and everything above 15 is skipped. */
  lemma OtherTags(codec: AddressCodec, u: Link, tag: nat, value: Bytes)
    requires tag == 4 || tag >= 16
    ensures ValueOk(codec, Record(tag, value)) && Assign(codec, u, Record(tag, value)) == u
  {
  }

  // ---------------------------------------------------------------- what is printed

  /** A field is left out exactly if parsing nothing would give it; only the version is always there. */
  lemma OmittedIfDefault(codec: AddressCodec, u: Link, tag: nat)
    requires 1 <= tag <= 15 && tag != 4
    ensures Part(codec, u, tag) == [] <==> Project(u, tag) == Project(ApplyDefaults(ZERO_LINK), tag)
  {
  }

  /** One record a field, and one an address. */
  lemma RecordsPerField(codec: AddressCodec, u: Link, tag: nat)
    requires tag <= 15 && tag != 4
    ensures tag != 2 ==> |Part(codec, u, tag)| <= 1
    ensures |Part(codec, u, 2)| == |u.addresses|
  {
  }

  /** The fields stand in this order, each tag's records together. */
  lemma RecordOrder(codec: AddressCodec, u: Link)
    ensures LinkRecords(codec, u) == PartsFor(codec, u, [0, 1, 2, 3, 5, 6, 11, 7, 8, 9, 10, 12, 13, 14, 15])
  {
    assert BUILD_ORDER == [0, 1, 2, 3, 5, 6, 11, 7, 8, 9, 10, 12, 13, 14, 15];
  }
}
