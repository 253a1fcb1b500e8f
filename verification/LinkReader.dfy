/** The consuming-buffer parser of tturl/url.go, proved against the grammar of module Tlv. */
module LinkReader {
  import opened Basics
  import opened Buffers
  import opened Address
  import opened ClientRandom
  import opened Url
  import opened LinkSpec
  import Base64Url
  import Hex
  import Tlv
  import Varint

  /** The URL value a parser fills in through its pointer. */
  class LinkCell {
    var value: Link

    constructor (value: Link)
      ensures this.value == value
    {
      this.value := value;
    }
  }

  method ReadTlvLength(buffer: ReadBuffer) returns (r: Result<nat, ReadError>)
    requires buffer.Valid()
    modifies buffer
    ensures buffer.Valid()
    ensures match Tlv.ReadLength(old(buffer.Unread()))
            case Ok((length, rest)) => r == Ok(length) && buffer.Unread() == rest
            case Err(e) => r == Err(e)
  {
    var length :- Varint.ReadVarint(buffer);
    if length > |buffer.Unread()| {
      return Err(Malformed);
    }
    r := Ok(length);
  }

  method ReadTlvBytes(buffer: ReadBuffer) returns (r: Result<Bytes, ReadError>)
    requires buffer.Valid()
    modifies buffer
    ensures buffer.Valid()
    ensures match Tlv.ReadValue(old(buffer.Unread()))
            case Ok((value, rest)) => r == Ok(value) && buffer.Unread() == rest
            case Err(e) => r == Err(e)
  {
    var length :- ReadTlvLength(buffer);
    if length == 0 {
      return Ok([]);
    }
    var value := buffer.ReadFull(length);
    r := Ok(value);
  }

  method ReadTlvFixedBytes(buffer: ReadBuffer, expectLength: nat) returns (r: Result<Bytes, ReadError>)
    requires buffer.Valid()
    modifies buffer
    ensures buffer.Valid()
    ensures match Tlv.ReadValue(old(buffer.Unread()))
            case Ok((value, rest)) =>
              if |value| == expectLength then r == Ok(value) && buffer.Unread() == rest else r == Err(Malformed)
            case Err(e) => r == Err(e)
  {
    var length :- ReadTlvLength(buffer);
    if length != expectLength {
      return Err(Malformed);
    }
    var value := buffer.ReadFull(length);
    r := Ok(value);
  }

  method ReadTlvByte(buffer: ReadBuffer) returns (r: Result<byte, ReadError>)
    requires buffer.Valid()
    modifies buffer
    ensures buffer.Valid()
    ensures match Tlv.ReadValue(old(buffer.Unread()))
            case Ok((value, rest)) =>
              if |value| == 1 then r == Ok(value[0]) && buffer.Unread() == rest else r == Err(Malformed)
            case Err(e) => r == Err(e)
  {
    var value :- ReadTlvFixedBytes(buffer, 1);
    r := Ok(value[0]);
  }

  /** What is known of a string array while its items are being read. */
  ghost predicate ArrayProgress(data: Bytes, result: seq<Bytes>, unread: Bytes) {
    match Tlv.ReadStrings(unread)
    case Some(items) => Tlv.ReadStrings(data) == Some(result + items)
    case None => Tlv.ReadStrings(data).None?
  }

  lemma ArrayStep(data: Bytes, result: seq<Bytes>, unread: Bytes)
    requires unread != [] && ArrayProgress(data, result, unread)
    ensures Tlv.ReadValue(unread).Ok? ==>
              ArrayProgress(data, result + [Tlv.ReadValue(unread).value.0], Tlv.ReadValue(unread).value.1)
    ensures Tlv.ReadValue(unread).Err? ==> Tlv.ReadStrings(data).None?
  {
    if Tlv.ReadValue(unread).Ok? {
      var (item, rest) := Tlv.ReadValue(unread).value;
      if Tlv.ReadStrings(rest).Some? {
        Regroup(result, [item], Tlv.ReadStrings(rest).value);
      }
    }
  }

  method ReadTlvStringArray(buffer: ReadBuffer) returns (r: Result<seq<Bytes>, ReadError>)
    requires buffer.Valid()
    modifies buffer
    ensures buffer.Valid()
    ensures match Tlv.ReadValue(old(buffer.Unread()))
            case Ok((data, rest)) =>
              && buffer.Unread() == rest
              && r == (match Tlv.ReadStrings(data) case Some(items) => Ok(items) case None => Err(Malformed))
            case Err(e) => r == Err(e)
  {
    var data :- ReadTlvBytes(buffer);
    var arrayBuffer := new ReadBuffer(data);
    var result: seq<Bytes> := [];
    assert ArrayProgress(data, [], data) by {
      if Tlv.ReadStrings(data).Some? {
        assert [] + Tlv.ReadStrings(data).value == Tlv.ReadStrings(data).value;
      }
    }
    while |arrayBuffer.Unread()| > 0
      invariant fresh(arrayBuffer) && arrayBuffer.Valid()
      invariant ArrayProgress(data, result, arrayBuffer.Unread())
      invariant buffer.Valid() && Tlv.ReadValue(old(buffer.Unread())) == Ok((data, buffer.Unread()))
      decreases |arrayBuffer.Unread()|
    {
      ArrayStep(data, result, arrayBuffer.Unread());
      var item := ReadTlvBytes(arrayBuffer);
      if item.Err? {
        return Err(Malformed);
      }
      result := result + [item.value];
    }
    assert result + [] == result;
    r := Ok(result);
  }

  /** What reading one value must do to the link: the record's assignment, or an error that leaves it. */
  ghost predicate TagOutcome(codec: AddressCodec, s: Bytes, u: Link, tag: nat,
                             r: Result<(), ReadError>, unread: Bytes, v: Link)
  {
    match Tlv.ReadValue(s)
    case Ok((value, rest)) =>
      if Tlv.ValueOk(codec, Tlv.Record(tag, value))
      then r == Ok(()) && unread == rest && v == Tlv.Assign(codec, u, Tlv.Record(tag, value))
      else r == Err(Malformed) && v == u
    case Err(e) => r == Err(e) && v == u
  }

  /** The tags whose value is taken over as it stands. */
  method ParseTextTag(codec: AddressCodec, buffer: ReadBuffer, link: LinkCell, tag: nat)
    returns (r: Result<(), ReadError>)
    requires buffer.Valid()
    requires tag in {TAG_HOSTNAME, TAG_CUSTOM_SNI, TAG_USERNAME, TAG_PASSWORD, TAG_CERTIFICATE, TAG_NAME,
                     TAG_SUBSCRIPTION_URL}
    modifies buffer, link
    ensures buffer.Valid()
    ensures TagOutcome(codec, old(buffer.Unread()), old(link.value), tag, r, buffer.Unread(), link.value)
  {
    var value :- ReadTlvBytes(buffer);
    if tag == TAG_HOSTNAME {
      link.value := link.value.(hostname := value);
    } else if tag == TAG_CUSTOM_SNI {
      link.value := link.value.(customSni := value);
    } else if tag == TAG_USERNAME {
      link.value := link.value.(username := value);
    } else if tag == TAG_PASSWORD {
      link.value := link.value.(password := value);
    } else if tag == TAG_CERTIFICATE {
      link.value := link.value.(certificate := value);
    } else if tag == TAG_NAME {
      link.value := link.value.(name := value);
    } else {
      link.value := link.value.(subscriptionUrl := value);
    }
    r := Ok(());
  }

  /** The tags whose value is a single byte. */
  method ParseByteTag(codec: AddressCodec, buffer: ReadBuffer, link: LinkCell, tag: nat)
    returns (r: Result<(), ReadError>)
    requires buffer.Valid()
    requires tag in {TAG_VERSION, TAG_SKIP_VERIFICATION, TAG_UPSTREAM_PROTOCOL, TAG_ANTI_DPI}
    modifies buffer, link
    ensures buffer.Valid()
    ensures TagOutcome(codec, old(buffer.Unread()), old(link.value), tag, r, buffer.Unread(), link.value)
  {
    var value :- ReadTlvByte(buffer);
    if tag == TAG_VERSION {
      if !IsValidVersion(value) {
        return Err(Malformed);
      }
      link.value := link.value.(version := value);
    } else if tag == TAG_SKIP_VERIFICATION {
      link.value := link.value.(skipVerification := value != 0);
    } else if tag == TAG_UPSTREAM_PROTOCOL {
      if !IsValidUpstream(value) {
        return Err(Malformed);
      }
      link.value := link.value.(upstreamProtocol := value);
    } else {
      link.value := link.value.(antiDpi := value != 0);
    }
    r := Ok(());
  }

  /** The tags whose value has an inner notation. */
  method ParseNotationTag(codec: AddressCodec, buffer: ReadBuffer, link: LinkCell, tag: nat)
    returns (r: Result<(), ReadError>)
    requires buffer.Valid()
    requires tag in {TAG_ADDRESSES, TAG_CLIENT_RANDOM_PREFIX, TAG_CLIENT_RANDOM_AUTH_KEY}
    modifies buffer, link
    ensures buffer.Valid()
    ensures TagOutcome(codec, old(buffer.Unread()), old(link.value), tag, r, buffer.Unread(), link.value)
  {
    var value :- ReadTlvBytes(buffer);
    if tag == TAG_ADDRESSES {
      var address := codec.parse(value);
      if !codec.Dialable(address) {
        return Err(Malformed);
      }
      link.value := link.value.(addresses := link.value.addresses + [address]);
    } else if tag == TAG_CLIENT_RANDOM_PREFIX {
      var prefix := ClientRandom.Parse(value);
      if prefix.None? {
        return Err(Malformed);
      }
      link.value := link.value.(clientRandomPrefix := prefix.value);
    } else {
      var key := Hex.Decode(value);
      if key.None? {
        return Err(Malformed);
      }
      link.value := link.value.(clientRandomAuthKey := key.value);
    }
    r := Ok(());
  }

  method ParseStringArrayTag(codec: AddressCodec, buffer: ReadBuffer, link: LinkCell)
    returns (r: Result<(), ReadError>)
    requires buffer.Valid()
    modifies buffer, link
    ensures buffer.Valid()
    ensures TagOutcome(codec, old(buffer.Unread()), old(link.value), TAG_DNS_UPSTREAMS, r, buffer.Unread(), link.value)
  {
    var value :- ReadTlvStringArray(buffer);
    link.value := link.value.(dnsUpstreams := value);
    r := Ok(());
  }

  method SkipTlv(codec: AddressCodec, buffer: ReadBuffer, link: LinkCell, tag: nat)
    returns (r: Result<(), ReadError>)
    requires buffer.Valid() && Tlv.Ignored(tag)
    modifies buffer
    ensures buffer.Valid()
    ensures TagOutcome(codec, old(buffer.Unread()), link.value, tag, r, buffer.Unread(), link.value)
  {
    var length :- ReadTlvLength(buffer);
    var skipped := buffer.ReadFull(length);
    Tlv.IgnoredChangesNothing(codec, Tlv.Record(tag, skipped), link.value);
    r := Ok(());
  }

  method ParseTag(codec: AddressCodec, buffer: ReadBuffer, link: LinkCell, tag: nat)
    returns (r: Result<(), ReadError>)
    requires buffer.Valid()
    modifies buffer, link
    ensures buffer.Valid()
    ensures TagOutcome(codec, old(buffer.Unread()), old(link.value), tag, r, buffer.Unread(), link.value)
  {
    if Tlv.Ignored(tag) {
      r := SkipTlv(codec, buffer, link, tag);
    } else if tag == TAG_DNS_UPSTREAMS {
      r := ParseStringArrayTag(codec, buffer, link);
    } else if tag in {TAG_ADDRESSES, TAG_CLIENT_RANDOM_PREFIX, TAG_CLIENT_RANDOM_AUTH_KEY} {
      r := ParseNotationTag(codec, buffer, link, tag);
    } else if tag in {TAG_VERSION, TAG_SKIP_VERIFICATION, TAG_UPSTREAM_PROTOCOL, TAG_ANTI_DPI} {
      r := ParseByteTag(codec, buffer, link, tag);
    } else {
      r := ParseTextTag(codec, buffer, link, tag);
    }
  }

  /** One turn of the parsing loop does to the rest of the payload what the grammar says. */
  lemma ParseTurn(codec: AddressCodec, s: Bytes, u: Link, r: Result<(), ReadError>, unread: Bytes, v: Link)
    requires Varint.Read(s).Ok?
    requires TagOutcome(codec, Varint.Read(s).value.1, u, Varint.Read(s).value.0, r, unread, v)
    ensures r.Ok? ==> Tlv.Parse(codec, s, u) == Tlv.Parse(codec, unread, v) && |unread| < |s|
    ensures r.Err? ==> Tlv.Parse(codec, s, u) == Err(r.error)
  {
    var (tag, afterTag) := Varint.Read(s).value;
    if Tlv.ReadValue(afterTag).Ok? {
      var (value, rest) := Tlv.ReadValue(afterTag).value;
      Tlv.ParseStep(codec, s, Tlv.Record(tag, value), rest, u);
    }
  }

  /** Where no tag can be read, only a fully consumed payload is the regular end. */
  lemma ParseEnd(codec: AddressCodec, s: Bytes, u: Link)
    requires Varint.Read(s).Err?
    ensures Varint.Read(s) == Err(Eof) <==> s == []
    ensures Tlv.Parse(codec, s, u) == if s == [] then Ok(u) else Err(Varint.Read(s).error)
  {
  }

  method ParseTlv(codec: AddressCodec, buffer: ReadBuffer, link: LinkCell) returns (r: Result<(), ReadError>)
    requires buffer.Valid()
    modifies buffer, link
    ensures buffer.Valid()
    ensures match Tlv.Parse(codec, old(buffer.Unread()), old(link.value))
            case Ok(u) => r == Ok(()) && link.value == u && buffer.Unread() == []
            case Err(e) => r == Err(e)
  {
    ghost var outcome := Tlv.Parse(codec, buffer.Unread(), link.value);
    while true
      invariant buffer.Valid()
      invariant Tlv.Parse(codec, buffer.Unread(), link.value) == outcome
      decreases |buffer.Unread()|
    {
      ghost var s, u := buffer.Unread(), link.value;
      var tag := Varint.ReadVarint(buffer);
      if tag.Err? {
        ParseEnd(codec, s, u);
        if tag.error == Eof {
          break;
        }
        return Err(tag.error);
      }
      var done := ParseTag(codec, buffer, link, tag.value);
      ParseTurn(codec, s, u, done, buffer.Unread(), link.value);
      if done.Err? {
        return done;
      }
    }
    r := Ok(());
  }

  method Parse(codec: AddressCodec, link: Bytes) returns (r: Result<Link, ReadError>)
    ensures r == ParseLink(codec, link)
  {
    if !HasPrefix(link, SCHEME) {
      return Err(Malformed);
    }
    var decoded := Base64Url.Decode(TrimQuestionMark(link[|SCHEME|..]));
    if decoded.None? {
      return Err(Malformed);
    }
    var buffer := new ReadBuffer(decoded.value);
    var cell := new LinkCell(ZERO_LINK);
    var parsed := ParseTlv(codec, buffer, cell);
    if parsed.Err? {
      return Err(parsed.error);
    }
    cell.value := ApplyDefaults(cell.value);
    if !RequireValid(codec, cell.value) {
      return Err(Malformed);
    }
    r := Ok(cell.value);
  }
}
