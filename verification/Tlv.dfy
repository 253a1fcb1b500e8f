/**
 * The record grammar of a link payload and the meaning of a record sequence:
 * the specification of parseTLV, parseTag and the readTLV family of tturl/url.go.
 */
module Tlv {
  import opened Basics
  import opened Buffers
  import opened Address
  import opened ClientRandom
  import opened Url
  import Hex
  import Varint

  datatype Record = Record(tag: nat, value: Bytes)

  // ---------------------------------------------------------------- reading one record

  function ReadLength(s: Bytes): (r: Result<(nat, Bytes), ReadError>)
    ensures r.Ok? ==> r.value.0 <= |r.value.1| < |s|
  {
    var (length, rest) :- Varint.Read(s);
    if length > |rest| then Err(Malformed) else Ok((length, rest))
  }

  function ReadValue(s: Bytes): (r: Result<(Bytes, Bytes), ReadError>)
    ensures r.Ok? ==> |r.value.1| < |s|
  {
    var (length, rest) :- ReadLength(s);
    Ok((rest[..length], rest[length..]))
  }

  function ReadStrings(data: Bytes): Option<seq<Bytes>>
    decreases |data|
  {
    if data == [] then Some([])
    else
      match ReadValue(data)
      case Err(_) => None
      case Ok((item, rest)) =>
        match ReadStrings(rest)
        case None => None
        case Some(items) => Some([item] + items)
  }

  /** Tag, length and value, each complete. */
  function ReadRecord(s: Bytes): (r: Result<(Record, Bytes), ReadError>)
    ensures r.Ok? ==> |r.value.1| < |s|
  {
    var (tag, afterTag) :- Varint.Read(s);
    var (value, rest) :- ReadValue(afterTag);
    Ok((Record(tag, value), rest))
  }

  // ---------------------------------------------------------------- what a record means

  /** Whether a record's value is acceptable; it depends on the record alone. */
  predicate ValueOk(codec: AddressCodec, r: Record) {
    if r.tag == TAG_VERSION then |r.value| == 1 && IsValidVersion(r.value[0])
    else if r.tag == TAG_ADDRESSES then codec.Dialable(codec.parse(r.value))
    else if r.tag == TAG_SKIP_VERIFICATION || r.tag == TAG_ANTI_DPI then |r.value| == 1
    else if r.tag == TAG_UPSTREAM_PROTOCOL then |r.value| == 1 && IsValidUpstream(r.value[0])
    else if r.tag == TAG_CLIENT_RANDOM_PREFIX then ClientRandom.Parse(r.value).Some?
    else if r.tag == TAG_DNS_UPSTREAMS then ReadStrings(r.value).Some?
    else if r.tag == TAG_CLIENT_RANDOM_AUTH_KEY then Hex.Decode(r.value).Some?
    else true
  }

  function Assign(codec: AddressCodec, u: Link, r: Record): Link
    requires ValueOk(codec, r)
  {
    if r.tag == TAG_VERSION then u.(version := r.value[0])
    else if r.tag == TAG_HOSTNAME then u.(hostname := r.value)
    else if r.tag == TAG_ADDRESSES then u.(addresses := u.addresses + [codec.parse(r.value)])
    else if r.tag == TAG_CUSTOM_SNI then u.(customSni := r.value)
    else if r.tag == TAG_USERNAME then u.(username := r.value)
    else if r.tag == TAG_PASSWORD then u.(password := r.value)
    else if r.tag == TAG_SKIP_VERIFICATION then u.(skipVerification := r.value[0] != 0)
    else if r.tag == TAG_CERTIFICATE then u.(certificate := r.value)
    else if r.tag == TAG_UPSTREAM_PROTOCOL then u.(upstreamProtocol := r.value[0])
    else if r.tag == TAG_ANTI_DPI then u.(antiDpi := r.value[0] != 0)
    else if r.tag == TAG_CLIENT_RANDOM_PREFIX then u.(clientRandomPrefix := ClientRandom.Parse(r.value).value)
    else if r.tag == TAG_NAME then u.(name := r.value)
    else if r.tag == TAG_DNS_UPSTREAMS then u.(dnsUpstreams := ReadStrings(r.value).value)
    else if r.tag == TAG_SUBSCRIPTION_URL then u.(subscriptionUrl := r.value)
    else if r.tag == TAG_CLIENT_RANDOM_AUTH_KEY then u.(clientRandomAuthKey := Hex.Decode(r.value).value)
    else u
  }

  ghost predicate AllOk(codec: AddressCodec, rs: seq<Record>) {
    forall r | r in rs :: ValueOk(codec, r)
  }

  ghost function AssignAll(codec: AddressCodec, u: Link, rs: seq<Record>): Link
    requires AllOk(codec, rs)
    decreases |rs|
  {
    if rs == [] then u else AssignAll(codec, Assign(codec, u, rs[0]), rs[1..])
  }

  /** The whole payload: records until the input ends exactly between two of them. */
  function Parse(codec: AddressCodec, s: Bytes, u: Link): Result<Link, ReadError>
    decreases |s|
  {
    if s == [] then Ok(u)
    else
      var (r, rest) :- ReadRecord(s);
      if ValueOk(codec, r) then Parse(codec, rest, Assign(codec, u, r)) else Err(Malformed)
  }

  // ---------------------------------------------------------------- the record grammar

  function Records(s: Bytes): Result<seq<Record>, ReadError>
    decreases |s|
  {
    if s == [] then Ok([])
    else
      var (r, rest) :- ReadRecord(s);
      var rs :- Records(rest);
      Ok([r] + rs)
  }

  /** b is one record in full: a tag, a length and exactly that many bytes. */
  ghost predicate IsRecord(b: Bytes, r: Record) {
    ReadRecord(b) == Ok((r, []))
  }

  /** s is the records of rs one after the other, with nothing before, between or after. */
  ghost predicate IsConcatenation(s: Bytes, rs: seq<Record>) {
    if rs == [] then s == []
    else exists cut | 0 < cut <= |s| :: IsRecord(s[..cut], rs[0]) && IsConcatenation(s[cut..], rs[1..])
  }

  lemma ReadValueExtends(s: Bytes, t: Bytes)
    requires ReadValue(s).Ok?
    ensures ReadValue(s + t) == Ok((ReadValue(s).value.0, ReadValue(s).value.1 + t))
  {
    Varint.ReadExtends(s, t);
    var (length, rest) := ReadLength(s).value;
    assert (rest + t)[..length] == rest[..length];
    assert (rest + t)[length..] == rest[length..] + t;
  }

  lemma ReadRecordExtends(s: Bytes, t: Bytes)
    requires ReadRecord(s).Ok?
    ensures ReadRecord(s + t) == Ok((ReadRecord(s).value.0, ReadRecord(s).value.1 + t))
  {
    Varint.ReadExtends(s, t);
    ReadValueExtends(Varint.Read(s).value.1, t);
  }

  /** A value reads the same from any piece of the input that ends with it. */
  lemma ReadValueCuts(s: Bytes)
    requires ReadValue(s).Ok?
    ensures var (value, rest) := ReadValue(s).value;
            && ReadValue(s[..|s| - |rest|]) == Ok((value, []))
            && rest == s[|s| - |rest|..]
  {
    var (length, afterLength) := ReadLength(s).value;
    var rest := afterLength[length..];
    Varint.WriterIsShortest(s);
    var m := |s| - |afterLength|;
    var b := s[..m + length];
    VarintFront(s, b);
    assert afterLength == s[m..];
    assert b[m..] == afterLength[..length];
    assert b[m..][..length] == b[m..];
  }

  /** A record read from the front of s is a whole record on its own. */
  lemma ReadRecordCuts(s: Bytes)
    requires ReadRecord(s).Ok?
    ensures var (r, rest) := ReadRecord(s).value;
            && IsRecord(s[..|s| - |rest|], r)
            && s == s[..|s| - |rest|] + rest
  {
    var (tag, afterTag) := Varint.Read(s).value;
    var rest := ReadRecord(s).value.1;
    Varint.WriterIsShortest(s);
    ReadValueCuts(afterTag);
    var n := |s| - |afterTag|;
    var b := s[..|s| - |rest|];
    VarintFront(s, b);
    assert afterTag == s[n..] && rest == afterTag[|b| - n..];
    SliceOfSlice(s, n, |b|);
    Rejoin(s, |b|);
  }

  /** A varint reads the same from any piece of the input that still holds all of it. */
  lemma VarintFront(s: Bytes, b: Bytes)
    requires Varint.Read(s).Ok? && HasPrefix(s, b) && |s| - |Varint.Read(s).value.1| <= |b|
    ensures Varint.Read(b) == Ok((Varint.Read(s).value.0, b[|s| - |Varint.Read(s).value.1|..]))
  {
    var n := Varint.Width(s[0] / 64);
    assert Varint.Read(s).value.1 == s[n..];
    assert b == s[..|b|] && b[1..n] == s[1..n];
  }

  /** A whole record in front of c is read first and leaves c. */
  lemma ReadWhole(b: Bytes, c: Bytes, r: Record)
    requires IsRecord(b, r)
    ensures ReadRecord(b + c) == Ok((r, c)) && b + c != []
  {
    ReadRecordExtends(b, c);
    assert [] + c == c;
  }

  lemma RecordsStep(s: Bytes, r: Record, rest: Bytes)
    requires s != [] && ReadRecord(s) == Ok((r, rest))
    ensures Records(rest).Ok? ==> Records(s) == Ok([r] + Records(rest).value)
  {
  }

  lemma {:induction false} FoundIsConcatenation(s: Bytes)
    requires Records(s).Ok?
    ensures IsConcatenation(s, Records(s).value)
    decreases |s|
  {
    if s != [] {
      var (r, rest) := ReadRecord(s).value;
      ReadRecordCuts(s);
      var cut := |s| - |rest|;
      assert s[cut..] == rest;
      FoundIsConcatenation(rest);
      assert Records(s).value[1..] == Records(rest).value;
    }
  }

  lemma PrependRecord(b: Bytes, c: Bytes, r: Record)
    requires IsRecord(b, r) && Records(c).Ok?
    ensures Records(b + c) == Ok([r] + Records(c).value)
  {
    ReadWhole(b, c, r);
    RecordsStep(b + c, r, c);
  }

  lemma {:induction false} ConcatenationIsFound(s: Bytes, rs: seq<Record>)
    requires IsConcatenation(s, rs)
    ensures Records(s) == Ok(rs)
    decreases |rs|
  {
    if rs != [] {
      var cut :| 0 < cut <= |s| && IsRecord(s[..cut], rs[0]) && IsConcatenation(s[cut..], rs[1..]);
      ConcatenationIsFound(s[cut..], rs[1..]);
      PrependRecord(s[..cut], s[cut..], rs[0]);
      Rejoin(s, cut);
      Rejoin(rs, 1);
    }
  }

  /** The records of a payload are found exactly when it is a concatenation of whole records. */
  lemma RecordsExact(s: Bytes, rs: seq<Record>)
    ensures Records(s) == Ok(rs) <==> IsConcatenation(s, rs)
  {
    if Records(s) == Ok(rs) {
      FoundIsConcatenation(s);
    }
    if IsConcatenation(s, rs) {
      ConcatenationIsFound(s, rs);
    }
  }

  /** The payload parser accepts exactly concatenations of whole records with acceptable values. */
  lemma {:induction false} ParseMeaning(codec: AddressCodec, s: Bytes, u: Link)
    ensures Parse(codec, s, u).Ok? <==> Records(s).Ok? && AllOk(codec, Records(s).value)
    ensures Parse(codec, s, u).Ok? ==> Parse(codec, s, u).value == AssignAll(codec, u, Records(s).value)
    ensures Parse(codec, s, u).Err? && Records(s).Ok? ==> Parse(codec, s, u) == Err(Malformed)
    decreases |s|
  {
    if s != [] && ReadRecord(s).Ok? {
      var (r, rest) := ReadRecord(s).value;
      if ValueOk(codec, r) {
        ParseMeaning(codec, rest, Assign(codec, u, r));
      }
      if Records(rest).Ok? {
        var rs := Records(rest).value;
        assert ([r] + rs)[1..] == rs;
        assert forall x :: x in [r] + rs <==> x == r || x in rs;
      }
    }
  }

  /** Parsing is a homomorphism: after whole records, the rest is parsed from the state they left. */
  lemma {:induction false} ParseAppend(codec: AddressCodec, a: Bytes, b: Bytes, u: Link)
    requires Records(a).Ok?
    ensures Parse(codec, a + b, u) ==
            match Parse(codec, a, u)
            case Ok(v) => Parse(codec, b, v)
            case Err(e) => Err(e)
    decreases |a|
  {
    if a == [] {
      assert a + b == b;
    } else {
      var (r, rest) := ReadRecord(a).value;
      ReadRecordExtends(a, b);
      if ValueOk(codec, r) {
        ParseAppend(codec, rest, b, Assign(codec, u, r));
      }
    }
  }

  /** A tag without a length, behind any records, is an error and never the end of input. */
  lemma TagNeedsLength(codec: AddressCodec, a: Bytes, tagBytes: Bytes, u: Link)
    requires Records(a).Ok?
    requires Varint.Read(tagBytes).Ok? && Varint.Read(tagBytes).value.1 == []
    ensures Parse(codec, a + tagBytes, u) == Err(if AllOk(codec, Records(a).value) then Eof else Malformed)
  {
    ParseAppend(codec, a, tagBytes, u);
    ParseMeaning(codec, a, u);
  }

  // ---------------------------------------------------------------- compatibility and order

  predicate Ignored(tag: nat) {
    tag == TAG_HAS_IPV6 || tag > 0x0F
  }

  lemma ParseStep(codec: AddressCodec, s: Bytes, r: Record, rest: Bytes, u: Link)
    requires s != [] && ReadRecord(s) == Ok((r, rest))
    ensures Parse(codec, s, u) ==
            if ValueOk(codec, r) then Parse(codec, rest, Assign(codec, u, r)) else Err(Malformed)
  {
  }

  lemma IgnoredChangesNothing(codec: AddressCodec, r: Record, u: Link)
    requires Ignored(r.tag)
    ensures ValueOk(codec, r) && Assign(codec, u, r) == u
  {
  }

  lemma SkipIgnored(codec: AddressCodec, b: Bytes, c: Bytes, r: Record, u: Link)
    requires IsRecord(b, r) && Ignored(r.tag)
    ensures Parse(codec, b + c, u) == Parse(codec, c, u)
  {
    ReadWhole(b, c, r);
    IgnoredChangesNothing(codec, r, u);
    ParseStep(codec, b + c, r, c, u);
  }

  /** An ignored record at any record boundary changes neither the outcome nor the link. */
  lemma IgnoredRecordIsInvisible(codec: AddressCodec, a: Bytes, b: Bytes, c: Bytes, r: Record, u: Link)
    requires Records(a).Ok? && IsRecord(b, r) && Ignored(r.tag)
    ensures Parse(codec, a + b + c, u) == Parse(codec, a + c, u)
  {
    ParseAppend(codec, a, c, u);
    assert a + b + c == a + (b + c);
    ParseAppend(codec, a, b + c, u);
    if Parse(codec, a, u).Ok? {
      SkipIgnored(codec, b, c, r, Parse(codec, a, u).value);
    }
  }

  ghost function WithTag(rs: seq<Record>, tag: nat): seq<Record> {
    if rs == [] then []
    else (if rs[0].tag == tag then [rs[0]] else []) + WithTag(rs[1..], tag)
  }

  lemma {:induction false} WithTagMembers(rs: seq<Record>, tag: nat)
    ensures forall x :: x in WithTag(rs, tag) <==> x in rs && x.tag == tag
  {
    if rs != [] {
      WithTagMembers(rs[1..], tag);
    }
  }

  lemma {:induction false} NoneWithTag(rs: seq<Record>, tag: nat)
    requires forall r | r in rs :: r.tag != tag
    ensures WithTag(rs, tag) == []
  {
    if rs != [] {
      NoneWithTag(rs[1..], tag);
    }
  }

  lemma AssignTouchesOwnField(codec: AddressCodec, u: Link, r: Record, tag: nat)
    requires ValueOk(codec, r) && r.tag != tag
    ensures Project(Assign(codec, u, r), tag) == Project(u, tag)
  {
  }

  lemma AssignDependsOnOwnField(codec: AddressCodec, u: Link, v: Link, r: Record)
    requires ValueOk(codec, r) && Project(u, r.tag) == Project(v, r.tag)
    ensures Project(Assign(codec, u, r), r.tag) == Project(Assign(codec, v, r), r.tag)
  {
  }

  /** Each field is determined by the records of its own tag. */
  lemma {:induction false} FieldFromOwnRecords(codec: AddressCodec, u: Link, v: Link, rs: seq<Record>, tag: nat)
    requires AllOk(codec, rs) && Project(u, tag) == Project(v, tag)
    ensures AllOk(codec, WithTag(rs, tag))
    ensures Project(AssignAll(codec, u, rs), tag) == Project(AssignAll(codec, v, WithTag(rs, tag)), tag)
    decreases |rs|
  {
    if rs != [] {
      var r := rs[0];
      if r.tag == tag {
        AssignDependsOnOwnField(codec, u, v, r);
        FieldFromOwnRecords(codec, Assign(codec, u, r), Assign(codec, v, r), rs[1..], tag);
        assert WithTag(rs, tag)[1..] == WithTag(rs[1..], tag);
      } else {
        AssignTouchesOwnField(codec, u, r, tag);
        FieldFromOwnRecords(codec, Assign(codec, u, r), v, rs[1..], tag);
        assert WithTag(rs, tag) == WithTag(rs[1..], tag);
      }
    }
  }

  /**
   * Only the relative order of records with equal tags matters: two payloads whose records
   * agree tag by tag have the same outcome and the same link.
   */
  lemma OrderIndependence(codec: AddressCodec, s: Bytes, s': Bytes, u: Link)
    requires Records(s).Ok? && Records(s').Ok?
    requires forall tag: nat :: WithTag(Records(s).value, tag) == WithTag(Records(s').value, tag)
    ensures Parse(codec, s, u) == Parse(codec, s', u)
  {
    var rs, rs' := Records(s).value, Records(s').value;
    ParseMeaning(codec, s, u);
    ParseMeaning(codec, s', u);
    forall r
      ensures r in rs <==> r in rs'
    {
      WithTagMembers(rs, r.tag);
      WithTagMembers(rs', r.tag);
    }
    if AllOk(codec, rs) {
      forall tag | 0 <= tag < 16
        ensures Project(AssignAll(codec, u, rs), tag) == Project(AssignAll(codec, u, rs'), tag)
      {
        FieldFromOwnRecords(codec, u, u, rs, tag);
        FieldFromOwnRecords(codec, u, u, rs', tag);
      }
      SameFieldsSameLink(AssignAll(codec, u, rs), AssignAll(codec, u, rs'));
    }
  }

  // ---------------------------------------------------------------- repeated tags

  function AddressesIn(codec: AddressCodec, rs: seq<Record>): seq<Socksaddr> {
    if rs == [] then []
    else (if rs[0].tag == TAG_ADDRESSES then [codec.parse(rs[0].value)] else []) + AddressesIn(codec, rs[1..])
  }

  /** Addresses append. */
  lemma {:induction false} AddressesAppend(codec: AddressCodec, u: Link, rs: seq<Record>)
    requires AllOk(codec, rs)
    ensures AssignAll(codec, u, rs).addresses == u.addresses + AddressesIn(codec, rs)
    decreases |rs|
  {
    if rs != [] {
      AddressesAppend(codec, Assign(codec, u, rs[0]), rs[1..]);
      if rs[0].tag != TAG_ADDRESSES {
        AssignTouchesOwnField(codec, u, rs[0], TAG_ADDRESSES);
      }
    }
  }

  /** Every other tag is won by its last record, whatever the link held before. */
  lemma {:induction false} LastWins(codec: AddressCodec, u: Link, v: Link,
                                    before: seq<Record>, r: Record, after: seq<Record>)
    requires AllOk(codec, before + [r] + after) && ValueOk(codec, r)
    requires r.tag != TAG_ADDRESSES && forall x | x in after :: x.tag != r.tag
    ensures Project(AssignAll(codec, u, before + [r] + after), r.tag) == Project(Assign(codec, v, r), r.tag)
    decreases |before|
  {
    var rs := before + [r] + after;
    if before == [] {
      assert rs[0] == r && rs[1..] == after;
      FieldFromOwnRecords(codec, Assign(codec, u, r), Assign(codec, v, r), after, r.tag);
      NoneWithTag(after, r.tag);
    } else {
      assert rs[1..] == before[1..] + [r] + after;
      LastWins(codec, Assign(codec, u, rs[0]), v, before[1..], r, after);
    }
  }
}
