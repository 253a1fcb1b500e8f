/** The 16-byte address field of a packet header: the IP helpers of protocol.go. */
module Ip {
  import opened Basics
  import opened Address

  const TWELVE_ZEROS: Bytes := [0, 0, 0, 0, 0, 0, 0, 0, 0, 0, 0, 0]

  /** 0.0.0.1 and ::1 share their 16 bytes; the field is read as ::1. */
  const ONE: Bytes4 := [0, 0, 0, 1]

  function Parse16BytesIP(b: Bytes16): IpAddr {
    if b[..12] == TWELVE_ZEROS && b[12..] != ONE then V4(b[12..]) else V6(b, [])
  }

  function BuildPaddingIP(a: IpAddr): Bytes16 {
    match a
    case V6(v6, _) => v6
    case V4(v4) => TWELVE_ZEROS + v4
  }

  lemma BuildParse(b: Bytes16)
    ensures BuildPaddingIP(Parse16BytesIP(b)) == b
  {
    Rejoin(b, 12);
  }

  /** The field byte by byte: twelve zeros before an IPv4 address, an IPv6 address as it is. */
  lemma FieldBytes(a: IpAddr, i: nat)
    requires i < 16
    ensures a.V4? ==> BuildPaddingIP(a)[i] == if i < 12 then 0 else a.v4[i - 12]
    ensures a.V6? ==> BuildPaddingIP(a)[i] == a.v6[i]
  {
  }

  /** A field is read as IPv4 exactly if twelve zeros stand before anything but 0.0.0.1, else as IPv6 with no zone. */
  lemma FieldFamily(b: Bytes16)
    ensures Parse16BytesIP(b).V4? <==>
            && (forall i | 0 <= i < 12 :: b[i] == 0)
            && !(b[12] == 0 && b[13] == 0 && b[14] == 0 && b[15] == 1)
    ensures Parse16BytesIP(b).V4? ==> Parse16BytesIP(b).v4 == b[12..]
    ensures Parse16BytesIP(b).V6? ==> Parse16BytesIP(b) == V6(b, [])
  {
    assert (forall i | 0 <= i < 12 :: b[i] == 0) <==> b[..12] == TWELVE_ZEROS by {
      if forall i | 0 <= i < 12 :: b[i] == 0 {
        assert b[..12] == TWELVE_ZEROS;
      }
      if b[..12] == TWELVE_ZEROS {
        forall i | 0 <= i < 12
          ensures b[i] == 0
        {
          assert b[i] == b[..12][i];
        }
      }
    }
    assert b[12..] == [b[12], b[13], b[14], b[15]];
  }

  /** The addresses the field can tell from every other address. */
  predicate Distinct(a: IpAddr) {
    match a
    case V4(v4) => v4 != ONE
    case V6(v6, zone) => zone == [] && (v6[..12] == TWELVE_ZEROS ==> v6[12..] == ONE)
  }

  /** An address comes back unchanged unless it is 0.0.0.1, has a zone, or is an IPv6 address in IPv4's clothes. */
  lemma ParseBuild(a: IpAddr)
    ensures Parse16BytesIP(BuildPaddingIP(a)) == a <==> Distinct(a)
  {
    match a {
      case V4(v4) =>
        var b := TWELVE_ZEROS + v4;
        assert b[..12] == TWELVE_ZEROS && b[12..] == v4;
      case V6(v6, zone) =>
    }
  }

  /** What is lost: 0.0.0.1 arrives as ::1, an IPv6 address behind twelve zeros as the IPv4 one, and any zone. */
  lemma AddressesCollide(v4: Bytes4, v6: Bytes16, zone: Bytes)
    ensures Parse16BytesIP(BuildPaddingIP(V4(ONE))) == V6(TWELVE_ZEROS + ONE, [])
    ensures v4 != ONE ==> Parse16BytesIP(BuildPaddingIP(V6(TWELVE_ZEROS + v4, []))) == V4(v4)
    ensures zone != [] ==> Parse16BytesIP(BuildPaddingIP(V6(v6, zone))) != V6(v6, zone)
  {
    assert (TWELVE_ZEROS + ONE)[..12] == TWELVE_ZEROS && (TWELVE_ZEROS + ONE)[12..] == ONE;
    assert (TWELVE_ZEROS + v4)[..12] == TWELVE_ZEROS && (TWELVE_ZEROS + v4)[12..] == v4;
  }
}
