/** The laws of the link codec: what a built link parses to, and that a parsed link can be built. */
module LinkLaws {
  import opened Basics
  import opened Buffers
  import opened Address
  import opened ClientRandom
  import opened Url
  import opened Tlv
  import opened LinkSpec
  import Base64Url
  import Hex
  import Varint

  /** The addresses as their text form brings them back. */
  function Reparsed(codec: AddressCodec, addresses: seq<Socksaddr>): (r: seq<Socksaddr>)
    ensures |r| == |addresses|
    ensures forall i | 0 <= i < |r| :: r[i] == codec.parse(codec.format(addresses[i]))
  {
    seq(|addresses|, i requires 0 <= i < |addresses| => codec.parse(codec.format(addresses[i])))
  }

  /** What the printed records spell before defaults are filled in. */
  function Spelled(codec: AddressCodec, u: Link): Link {
    u.(addresses := Reparsed(codec, u.addresses),
       upstreamProtocol := if u.upstreamProtocol == UPSTREAM_HTTP2 then 0 else u.upstreamProtocol)
  }

  ghost predicate ReparsedDialable(codec: AddressCodec, u: Link) {
    forall i | 0 <= i < |u.addresses| :: codec.Dialable(codec.parse(codec.format(u.addresses[i])))
  }

  /** A caller can check this before building: it decides whether the link will be accepted. */
  ghost predicate Readable(codec: AddressCodec, u: Link) {
    Fits(u.clientRandomPrefix) && ReparsedDialable(codec, u)
  }

  // ---------------------------------------------------------------- one tag at a time

  lemma PartTags(codec: AddressCodec, u: Link, tag: nat)
    ensures forall r | r in Part(codec, u, tag) :: r.tag == tag
  {
  }

  lemma PartOk(codec: AddressCodec, u: Link, tag: nat)
    requires IsValidVersion(u.version) && IsValidUpstream(u.upstreamProtocol)
    requires AllShort(Part(codec, u, tag))
    ensures AllOk(codec, Part(codec, u, tag)) <==>
            && (tag == TAG_ADDRESSES ==> ReparsedDialable(codec, u))
            && (tag == TAG_CLIENT_RANDOM_PREFIX ==> Fits(u.clientRandomPrefix))
  {
    var part := Part(codec, u, tag);
    if tag == TAG_ADDRESSES {
      assert forall i | 0 <= i < |part| :: part[i] in part;
    } else if tag == TAG_CLIENT_RANDOM_PREFIX {
      ClientRandom.ParsePrint(u.clientRandomPrefix);
      assert part != [] ==> part[0] in part;
    } else if tag == TAG_DNS_UPSTREAMS && part != [] {
      assert part[0] in part;
      StringsRoundTrip(u.dnsUpstreams);
    } else if tag == TAG_CLIENT_RANDOM_AUTH_KEY {
      Hex.DecodeEncode(u.clientRandomAuthKey);
    }
  }

  lemma {:induction false} ReparsedRecords(codec: AddressCodec, addresses: seq<Socksaddr>)
    ensures AddressesIn(codec, AddressRecords(codec, addresses)) == Reparsed(codec, addresses)
  {
    if addresses != [] {
      ReparsedRecords(codec, addresses[1..]);
      assert AddressRecords(codec, addresses)[1..] == AddressRecords(codec, addresses[1..]);
    }
  }

  lemma AssignOne(codec: AddressCodec, u: Link, r: Record)
    requires ValueOk(codec, r)
    ensures AllOk(codec, [r]) && AssignAll(codec, u, [r]) == Assign(codec, u, r)
  {
    assert [r][1..] == [];
  }

  /** One record, already known to parse, spells the field it was printed from. */
  lemma OneRecordMeaning(codec: AddressCodec, u: Link, tag: nat)
    requires tag in BUILD_ORDER && tag != TAG_ADDRESSES && Part(codec, u, tag) != []
    requires ValueOk(codec, Part(codec, u, tag)[0]) && AllShort(Part(codec, u, tag))
    ensures |Part(codec, u, tag)| == 1
    ensures Project(Assign(codec, ZERO_LINK, Part(codec, u, tag)[0]), tag) == Project(Spelled(codec, u), tag)
  {
    if tag == TAG_DNS_UPSTREAMS {
      assert Part(codec, u, tag)[0] in Part(codec, u, tag);
      StringsRoundTrip(u.dnsUpstreams);
    } else if tag == TAG_CLIENT_RANDOM_PREFIX {
      ClientRandom.ParsePrint(u.clientRandomPrefix);
    } else if tag == TAG_CLIENT_RANDOM_AUTH_KEY {
      Hex.DecodeEncode(u.clientRandomAuthKey);
    }
  }

  /** A field that is not printed is one that needs no printing. */
  lemma NoRecordMeaning(codec: AddressCodec, u: Link, tag: nat)
    requires tag in BUILD_ORDER && tag != TAG_ADDRESSES && Part(codec, u, tag) == []
    ensures Project(ZERO_LINK, tag) == Project(Spelled(codec, u), tag)
  {
  }

  lemma PartMeaning(codec: AddressCodec, u: Link, tag: nat)
    requires tag in BUILD_ORDER
    requires AllOk(codec, Part(codec, u, tag)) && AllShort(Part(codec, u, tag))
    ensures Project(AssignAll(codec, ZERO_LINK, Part(codec, u, tag)), tag) == Project(Spelled(codec, u), tag)
  {
    var part := Part(codec, u, tag);
    if tag == TAG_ADDRESSES {
      AddressesAppend(codec, ZERO_LINK, part);
      ReparsedRecords(codec, u.addresses);
    } else if part == [] {
      NoRecordMeaning(codec, u, tag);
    } else {
      OneRecordMeaning(codec, u, tag);
      assert part == [part[0]];
      AssignOne(codec, ZERO_LINK, part[0]);
    }
  }

  // ---------------------------------------------------------------- all tags together

  lemma {:induction false} WithTagAppend(a: seq<Record>, b: seq<Record>, tag: nat)
    ensures WithTag(a + b, tag) == WithTag(a, tag) + WithTag(b, tag)
  {
    if a == [] {
      assert a + b == b;
    } else {
      WithTagAppend(a[1..], b, tag);
      assert (a + b)[1..] == a[1..] + b;
      Regroup(if a[0].tag == tag then [a[0]] else [], WithTag(a[1..], tag), WithTag(b, tag));
    }
  }

  lemma {:induction false} WithTagUniform(rs: seq<Record>, own: nat, tag: nat)
    requires forall r | r in rs :: r.tag == own
    ensures WithTag(rs, tag) == if own == tag then rs else []
  {
    if rs != [] {
      WithTagUniform(rs[1..], own, tag);
      Rejoin(rs, 1);
    }
  }

  lemma {:induction false} PartsWithTag(codec: AddressCodec, u: Link, tags: seq<nat>, tag: nat)
    requires forall i, j | 0 <= i < j < |tags| :: tags[i] != tags[j]
    ensures WithTag(PartsFor(codec, u, tags), tag) == if tag in tags then Part(codec, u, tag) else []
  {
    if tags != [] {
      var own, others := Part(codec, u, tags[0]), PartsFor(codec, u, tags[1..]);
      PartsWithTag(codec, u, tags[1..], tag);
      PartTags(codec, u, tags[0]);
      WithTagUniform(own, tags[0], tag);
      WithTagAppend(own, others, tag);
      if tag == tags[0] {
        assert tag !in tags[1..];
        assert WithTag(own + others, tag) == own + [];
      } else {
        assert tag in tags <==> tag in tags[1..];
        assert WithTag(own + others, tag) == [] + WithTag(others, tag);
      }
    }
  }

  lemma {:induction false} PartsMembers(codec: AddressCodec, u: Link, tags: seq<nat>, r: Record)
    ensures r in PartsFor(codec, u, tags) <==> r.tag in tags && r in Part(codec, u, r.tag)
  {
    if tags != [] {
      PartsMembers(codec, u, tags[1..], r);
      PartTags(codec, u, tags[0]);
      Rejoin(tags, 1);
    }
  }

  lemma PartOfLink(codec: AddressCodec, u: Link, tag: nat)
    requires tag in BUILD_ORDER
    ensures forall r | r in Part(codec, u, tag) :: r in LinkRecords(codec, u)
  {
    PartTags(codec, u, tag);
    forall r | r in Part(codec, u, tag)
      ensures r in LinkRecords(codec, u)
    {
      PartsMembers(codec, u, BUILD_ORDER, r);
    }
  }

  /** The printed records are acceptable exactly when the link is readable. */
  lemma LinkRecordsOk(codec: AddressCodec, u: Link)
    requires IsValidVersion(u.version) && IsValidUpstream(u.upstreamProtocol)
    requires AllShort(LinkRecords(codec, u))
    ensures AllOk(codec, LinkRecords(codec, u)) <==> Readable(codec, u)
  {
    forall tag | tag in BUILD_ORDER
      ensures AllShort(Part(codec, u, tag))
    {
      PartOfLink(codec, u, tag);
    }
    if AllOk(codec, LinkRecords(codec, u)) {
      assert BUILD_ORDER[2] == TAG_ADDRESSES && BUILD_ORDER[6] == TAG_CLIENT_RANDOM_PREFIX;
      PartOfLink(codec, u, TAG_ADDRESSES);
      PartOfLink(codec, u, TAG_CLIENT_RANDOM_PREFIX);
      PartOk(codec, u, TAG_ADDRESSES);
      PartOk(codec, u, TAG_CLIENT_RANDOM_PREFIX);
    }
    if Readable(codec, u) {
      forall r | r in LinkRecords(codec, u)
        ensures ValueOk(codec, r)
      {
        PartsMembers(codec, u, BUILD_ORDER, r);
        PartOk(codec, u, r.tag);
      }
    }
  }

  lemma OrderIsComplete(tag: nat)
    ensures tag in BUILD_ORDER <==> tag < 16 && tag != TAG_HAS_IPV6
  {
    var order := BUILD_ORDER;
    assert order[0] == 0 && order[1] == 1 && order[2] == 2 && order[3] == 3 && order[4] == 5;
    assert order[5] == 6 && order[6] == 11 && order[7] == 7 && order[8] == 8 && order[9] == 9;
    assert order[10] == 10 && order[11] == 12 && order[12] == 13 && order[13] == 14 && order[14] == 15;
  }

  lemma TagMeaning(codec: AddressCodec, u: Link, tag: nat)
    requires tag in BUILD_ORDER
    requires AllOk(codec, LinkRecords(codec, u)) && AllShort(LinkRecords(codec, u))
    ensures Project(AssignAll(codec, ZERO_LINK, LinkRecords(codec, u)), tag) == Project(Spelled(codec, u), tag)
  {
    var rs := LinkRecords(codec, u);
    var part := Part(codec, u, tag);
    PartOfLink(codec, u, tag);
    assert WithTag(rs, tag) == part by { PartsWithTag(codec, u, BUILD_ORDER, tag); }
    FieldFromOwnRecords(codec, ZERO_LINK, ZERO_LINK, rs, tag);
    PartMeaning(codec, u, tag);
  }

  lemma LinkRecordsMeaning(codec: AddressCodec, u: Link)
    requires AllOk(codec, LinkRecords(codec, u)) && AllShort(LinkRecords(codec, u))
    ensures AssignAll(codec, ZERO_LINK, LinkRecords(codec, u)) == Spelled(codec, u)
  {
    forall tag | 0 <= tag < 16
      ensures Project(AssignAll(codec, ZERO_LINK, LinkRecords(codec, u)), tag) == Project(Spelled(codec, u), tag)
    {
      OrderIsComplete(tag);
      if tag != TAG_HAS_IPV6 {
        TagMeaning(codec, u, tag);
      }
    }
    SameFieldsSameLink(AssignAll(codec, ZERO_LINK, LinkRecords(codec, u)), Spelled(codec, u));
  }

  // ---------------------------------------------------------------- the whole link

  lemma NormalizedIsValid(codec: AddressCodec, u: Link)
    requires RequireValid(codec, ApplyDefaults(u))
    ensures RequireValid(codec, Normalized(u))
    ensures Normalized(u).version == Basics.Max(u.version, LowestVersion(u))
  {
  }

  lemma OpenText(codec: AddressCodec, rest: Bytes, text: Bytes, payload: Bytes)
    requires TrimQuestionMark(rest) == text && Base64Url.Decode(text) == Some(payload)
    ensures ParseLink(codec, SCHEME + rest) == ParsePayload(codec, payload)
  {
    var link := SCHEME + rest;
    assert link[..|SCHEME|] == SCHEME && link[|SCHEME|..] == rest;
  }

  /** Opening a link gives back the payload it was wrapped around, with or without the question mark. */
  lemma OpenLink(codec: AddressCodec, payload: Bytes)
    ensures ParseLink(codec, SCHEME + [QUESTION_MARK] + Base64Url.Encode(payload)) == ParsePayload(codec, payload)
    ensures ParseLink(codec, SCHEME + Base64Url.Encode(payload)) == ParsePayload(codec, payload)
  {
    var text := Base64Url.Encode(payload);
    Base64Url.DecodeEncode(payload);
    Base64Url.EncodeHasNoLineBreaks(payload);
    assert text != [] ==> text[0] in text;
    OpenText(codec, text, text, payload);
    assert ([QUESTION_MARK] + text)[1..] == text;
    OpenText(codec, [QUESTION_MARK] + text, text, payload);
    assert SCHEME + [QUESTION_MARK] + text == SCHEME + ([QUESTION_MARK] + text);
  }

  /**
   * What becomes of every link that can be built: it is accepted exactly when it is readable,
   * and then parses to its normal form with each address as its text form brings it back.
   */
  lemma BuildThenParse(codec: AddressCodec, u: Link)
    requires BuildLink(codec, u).Ok?
    ensures ParseLink(codec, BuildLink(codec, u).value) ==
            if Readable(codec, u)
            then Ok(Normalized(u).(addresses := Reparsed(codec, u.addresses)))
            else Err(Malformed)
  {
    var v := Normalized(u);
    var rs := LinkRecords(codec, v);
    var payload := Serialize(rs).value;
    NormalizedIsValid(codec, u);
    SerializeSucceeds(rs);
    RecordsSerialize(rs);
    LinkRecordsOk(codec, v);
    ParseMeaning(codec, payload, ZERO_LINK);
    OpenLink(codec, payload);
    if Readable(codec, u) {
      LinkRecordsMeaning(codec, v);
      FinishSpelled(codec, v);
    }
  }

  lemma FinishSpelled(codec: AddressCodec, v: Link)
    requires RequireValid(codec, v) && Readable(codec, v)
    ensures Finish(codec, Spelled(codec, v)) == Ok(v.(addresses := Reparsed(codec, v.addresses)))
  {
    var w := v.(addresses := Reparsed(codec, v.addresses));
    assert ApplyDefaults(Spelled(codec, v)) == w;
    assert v.addresses != [] ==> w.addresses[0] in w.addresses;
  }

  ghost predicate AddressesSurvive(codec: AddressCodec, u: Link) {
    forall i | 0 <= i < |u.addresses| :: codec.parse(codec.format(u.addresses[i])) == u.addresses[i]
  }

  lemma SurvivalIsIdentity(codec: AddressCodec, u: Link)
    ensures AddressesSurvive(codec, u) <==> Reparsed(codec, u.addresses) == u.addresses
    ensures AddressesSurvive(codec, u) && RequireValid(codec, ApplyDefaults(u)) ==> ReparsedDialable(codec, u)
  {
    assert forall i | 0 <= i < |u.addresses| :: u.addresses[i] in u.addresses;
  }

  /**
   * The round trip. A link that can be built parses back to its normal form exactly when its
   * client random fits in 32 bytes on either side and its addresses survive their text form.
   */
  lemma RoundTrip(codec: AddressCodec, u: Link)
    requires BuildLink(codec, u).Ok?
    ensures ParseLink(codec, BuildLink(codec, u).value) == Ok(Normalized(u)) <==>
            Fits(u.clientRandomPrefix) && AddressesSurvive(codec, u)
  {
    SurvivalIsIdentity(codec, u);
    BuildThenParse(codec, u);
    assert Normalized(u).addresses == u.addresses;
  }

  /** A link whose prefix is one byte longer than the parser takes. */
  function LongPrefixLink(): Link {
    ZERO_LINK.(version := VERSION_2, subscriptionUrl := HTTPS, clientRandomPrefix := RandomPrefix(seq(33, _ => 0), []))
  }

  lemma LongPrefixBuilds(codec: AddressCodec)
    ensures BuildLink(codec, LongPrefixLink()).Ok?
  {
    var u := LongPrefixLink();
    var v := Normalized(u);
    assert v == ApplyDefaults(u) && RequireValid(codec, v);
    forall r | r in LinkRecords(codec, v)
      ensures r.tag <= Varint.MAX_VARINT_8 && |r.value| <= Varint.MAX_VARINT_8
    {
      PartsMembers(codec, v, BUILD_ORDER, r);
      OrderIsComplete(r.tag);
      LongPrefixRecord(codec, r);
    }
    BuildSucceeds(codec, u);
  }

  lemma LongPrefixRecord(codec: AddressCodec, r: Record)
    requires r in Part(codec, Normalized(LongPrefixLink()), r.tag)
    ensures |r.value| <= 67
  {
    var text := Normalized(LongPrefixLink()).clientRandomPrefix.Print();
    assert |text| <= 67;
  }

  /** The round trip does fail: this link can be built, and the parser refuses what was built. */
  lemma LongPrefixIsLost(codec: AddressCodec)
    ensures BuildLink(codec, LongPrefixLink()).Ok?
    ensures ParseLink(codec, BuildLink(codec, LongPrefixLink()).value) == Err(Malformed)
  {
    LongPrefixBuilds(codec);
    BuildThenParse(codec, LongPrefixLink());
    assert !Fits(LongPrefixLink().clientRandomPrefix);
  }

  // ---------------------------------------------------------------- parsed links can be built

  predicate Short(s: Bytes) {
    |s| <= Varint.MAX_VARINT_8
  }

  /**
   * What is asked of the address text: a dialable address that was parsed from a text no longer than
   * a record can hold prints as such a text, and that text parses to it.
   */
  ghost predicate AddressLaw(codec: AddressCodec) {
    forall text: Bytes | Short(text) && codec.Dialable(codec.parse(text)) :: Stable(codec, codec.parse(text))
  }

  predicate Stable(codec: AddressCodec, a: Socksaddr) {
    codec.parse(codec.format(a)) == a && Short(codec.format(a))
  }

  ghost predicate FieldPrintable(codec: AddressCodec, field: Field, tag: nat) {
    match field
    case BytesField(bytes) => Short(if tag == TAG_CLIENT_RANDOM_AUTH_KEY then Hex.Encode(bytes) else bytes)
    case AddressesField(addresses) => forall a | a in addresses :: Stable(codec, a)
    case PrefixField(prefix) => Fits(prefix)
    case StringsField(strings) => Short(EncodeStrings(strings))
    case _ => true
  }

  /** What every link has while it is being parsed. */
  ghost predicate Printable(codec: AddressCodec, u: Link) {
    forall tag: nat :: FieldPrintable(codec, Project(u, tag), tag)
  }

  lemma RecordValueShort(s: Bytes)
    requires ReadRecord(s).Ok?
    ensures Short(ReadRecord(s).value.0.value)
  {
    Varint.WriterIsShortest(Varint.Read(s).value.1);
  }

  predicate IsTextTag(tag: nat) {
    || tag == TAG_HOSTNAME || tag == TAG_CUSTOM_SNI || tag == TAG_USERNAME || tag == TAG_PASSWORD
    || tag == TAG_CERTIFICATE || tag == TAG_NAME || tag == TAG_SUBSCRIPTION_URL
  }

  lemma AssignedText(codec: AddressCodec, u: Link, r: Record)
    requires IsTextTag(r.tag)
    ensures ValueOk(codec, r) && Project(Assign(codec, u, r), r.tag) == BytesField(r.value)
  {
  }

  lemma AssignedAddress(codec: AddressCodec, u: Link, r: Record)
    requires AddressLaw(codec) && FieldPrintable(codec, Project(u, r.tag), r.tag)
    requires r.tag == TAG_ADDRESSES && ValueOk(codec, r) && Short(r.value)
    ensures FieldPrintable(codec, Project(Assign(codec, u, r), r.tag), r.tag)
  {
    assert Stable(codec, codec.parse(r.value));
    assert Assign(codec, u, r).addresses == u.addresses + [codec.parse(r.value)];
  }

  lemma AssignedFieldPrintable(codec: AddressCodec, u: Link, r: Record)
    requires AddressLaw(codec) && FieldPrintable(codec, Project(u, r.tag), r.tag)
    requires ValueOk(codec, r) && Short(r.value)
    ensures FieldPrintable(codec, Project(Assign(codec, u, r), r.tag), r.tag)
  {
    if IsTextTag(r.tag) {
      AssignedText(codec, u, r);
    } else if r.tag == TAG_ADDRESSES {
      AssignedAddress(codec, u, r);
    } else if r.tag == TAG_DNS_UPSTREAMS {
      StringsNeverGrow(r.value);
    } else if r.tag == TAG_CLIENT_RANDOM_PREFIX {
      ClientRandom.PrintParse(r.value);
    } else if r.tag == TAG_CLIENT_RANDOM_AUTH_KEY {
      assert Assign(codec, u, r).clientRandomAuthKey == Hex.Decode(r.value).value;
    }
  }

  lemma AssignPrintable(codec: AddressCodec, u: Link, r: Record)
    requires AddressLaw(codec) && Printable(codec, u)
    requires ValueOk(codec, r) && Short(r.value)
    ensures Printable(codec, Assign(codec, u, r))
  {
    forall tag: nat
      ensures FieldPrintable(codec, Project(Assign(codec, u, r), tag), tag)
    {
      if tag == r.tag {
        AssignedFieldPrintable(codec, u, r);
      } else {
        AssignTouchesOwnField(codec, u, r, tag);
      }
    }
  }

  lemma {:induction false} ParsePrintable(codec: AddressCodec, s: Bytes, u: Link)
    requires AddressLaw(codec) && Printable(codec, u) && Tlv.Parse(codec, s, u).Ok?
    ensures Printable(codec, Tlv.Parse(codec, s, u).value)
    decreases |s|
  {
    if s != [] {
      var (r, rest) := ReadRecord(s).value;
      RecordValueShort(s);
      AssignPrintable(codec, u, r);
      ParsePrintable(codec, rest, Assign(codec, u, r));
    }
  }

  lemma PartShort(codec: AddressCodec, u: Link, tag: nat)
    requires Printable(codec, u) && tag <= 15
    ensures AllShort(Part(codec, u, tag))
  {
    assert FieldPrintable(codec, Project(u, tag), tag);
    if tag == TAG_ADDRESSES {
      assert forall i | 0 <= i < |u.addresses| :: u.addresses[i] in u.addresses;
    }
  }

  lemma LinkRecordsShort(codec: AddressCodec, u: Link)
    requires Printable(codec, u)
    ensures AllShort(LinkRecords(codec, u))
  {
    forall r | r in LinkRecords(codec, u)
      ensures r.tag <= Varint.MAX_VARINT_8 && |r.value| <= Varint.MAX_VARINT_8
    {
      PartsMembers(codec, u, BUILD_ORDER, r);
      OrderIsComplete(r.tag);
      PartShort(codec, u, r.tag);
    }
  }

  /** A builder that is given valid fields fails only on a field too long for its length prefix. */
  lemma PrintableBuilds(codec: AddressCodec, u: Link)
    requires RequireValid(codec, ApplyDefaults(u)) && Printable(codec, u)
    ensures BuildLink(codec, u).Ok?
  {
    forall tag: nat
      ensures FieldPrintable(codec, Project(Normalized(u), tag), tag)
    {
      assert FieldPrintable(codec, Project(u, tag), tag);
    }
    LinkRecordsShort(codec, Normalized(u));
    SerializeSucceeds(LinkRecords(codec, Normalized(u)));
  }

  lemma ZeroIsPrintable(codec: AddressCodec)
    ensures Printable(codec, ZERO_LINK)
  {
  }

  lemma DefaultsPrintable(codec: AddressCodec, u: Link)
    requires Printable(codec, u)
    ensures Printable(codec, ApplyDefaults(u))
  {
    forall tag: nat
      ensures FieldPrintable(codec, Project(ApplyDefaults(u), tag), tag)
    {
      assert FieldPrintable(codec, Project(u, tag), tag);
    }
  }

  lemma PrintableReadable(codec: AddressCodec, u: Link)
    requires Printable(codec, u)
    ensures Fits(u.clientRandomPrefix) && AddressesSurvive(codec, u)
  {
    assert FieldPrintable(codec, Project(u, TAG_CLIENT_RANDOM_PREFIX), TAG_CLIENT_RANDOM_PREFIX);
    assert FieldPrintable(codec, Project(u, TAG_ADDRESSES), TAG_ADDRESSES);
    forall i | 0 <= i < |u.addresses|
      ensures codec.parse(codec.format(u.addresses[i])) == u.addresses[i]
    {
      assert Stable(codec, u.addresses[i]);
    }
  }

  lemma ParsedIsPrintable(codec: AddressCodec, link: Bytes)
    requires AddressLaw(codec) && ParseLink(codec, link).Ok?
    ensures var u := ParseLink(codec, link).value;
            && Printable(codec, u) && RequireValid(codec, u) && ApplyDefaults(u) == u
  {
    var payload := Base64Url.Decode(TrimQuestionMark(link[|SCHEME|..])).value;
    ZeroIsPrintable(codec);
    ParsePrintable(codec, payload, ZERO_LINK);
    DefaultsPrintable(codec, Tlv.Parse(codec, payload, ZERO_LINK).value);
  }

  /** The version a link is written with: the one asked for, but at least 1, and 2 for a subscription or an auth key. */
  predicate IsWrittenVersion(u: Link, v: int) {
    && u.version <= v && 1 <= v <= 2
    && (v == 2 <==> u.version == 2 || u.subscriptionUrl != [] || u.clientRandomAuthKey != [])
  }

  /**
   * The parser establishes what the builder needs: every accepted link can be built again, and the
   * new link parses to the same fields with only the version raised to what they need.
   */
  lemma ParseThenBuild(codec: AddressCodec, link: Bytes)
    requires AddressLaw(codec) && ParseLink(codec, link).Ok?
    ensures var u := ParseLink(codec, link).value;
            && BuildLink(codec, u).Ok?
            && ParseLink(codec, BuildLink(codec, u).value) ==
               Ok(u.(version := Basics.Max(u.version, LowestVersion(u))))
            && IsWrittenVersion(u, Basics.Max(u.version, LowestVersion(u)))
  {
    var u := ParseLink(codec, link).value;
    ParsedIsPrintable(codec, link);
    PrintableBuilds(codec, u);
    NormalizedIsValid(codec, u);
    PrintableReadable(codec, u);
    RoundTrip(codec, u);
  }

  /** One parse-and-build round reaches the final text: another round does not change it. */
  lemma RebuildIsFinal(codec: AddressCodec, link: Bytes)
    requires AddressLaw(codec) && ParseLink(codec, link).Ok?
    ensures var rebuilt := BuildLink(codec, ParseLink(codec, link).value);
            && rebuilt.Ok?
            && ParseLink(codec, rebuilt.value).Ok?
            && BuildLink(codec, ParseLink(codec, rebuilt.value).value) == rebuilt
  {
    var u := ParseLink(codec, link).value;
    ParseThenBuild(codec, link);
    ParsedIsPrintable(codec, link);
    NormalizedIsValid(codec, u);
    assert Normalized(Normalized(u)) == Normalized(u);
  }

  /** Validation and oversize fields are the only reasons a build fails. */
  lemma BuildSucceeds(codec: AddressCodec, u: Link)
    ensures BuildLink(codec, u).Ok? <==>
            RequireValid(codec, ApplyDefaults(u)) && AllShort(LinkRecords(codec, Normalized(u)))
  {
    SerializeSucceeds(LinkRecords(codec, Normalized(u)));
  }
}
