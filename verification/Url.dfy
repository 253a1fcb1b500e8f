/** The link's fields, their defaults and their validity: the pure part of tturl/url.go. */
module Url {
  import opened Basics
  import opened Address
  import opened ClientRandom

  const VERSION_0: byte := 0
  const VERSION_1: byte := 1
  const VERSION_2: byte := 2

  const UPSTREAM_HTTP2: byte := 1
  const UPSTREAM_HTTP3: byte := 2

  const TAG_VERSION: int := 0x00
  const TAG_HOSTNAME: int := 0x01
  const TAG_ADDRESSES: int := 0x02
  const TAG_CUSTOM_SNI: int := 0x03
  const TAG_HAS_IPV6: int := 0x04
  const TAG_USERNAME: int := 0x05
  const TAG_PASSWORD: int := 0x06
  const TAG_SKIP_VERIFICATION: int := 0x07
  const TAG_CERTIFICATE: int := 0x08
  const TAG_UPSTREAM_PROTOCOL: int := 0x09
  const TAG_ANTI_DPI: int := 0x0A
  const TAG_CLIENT_RANDOM_PREFIX: int := 0x0B
  const TAG_NAME: int := 0x0C
  const TAG_DNS_UPSTREAMS: int := 0x0D
  const TAG_SUBSCRIPTION_URL: int := 0x0E
  const TAG_CLIENT_RANDOM_AUTH_KEY: int := 0x0F

  datatype Link = Link(
    version: byte,
    hostname: Bytes,
    addresses: seq<Socksaddr>,
    customSni: Bytes,
    username: Bytes,
    password: Bytes,
    skipVerification: bool,
    certificate: Bytes,
    upstreamProtocol: byte,
    antiDpi: bool,
    clientRandomPrefix: RandomPrefix,
    name: Bytes,
    dnsUpstreams: seq<Bytes>,
    subscriptionUrl: Bytes,
    clientRandomAuthKey: Bytes)

  /** new(URL). */
  const ZERO_LINK := Link(0, [], [], [], [], [], false, [], 0, false, NO_PREFIX, [], [], [], [])

  /** "https://" */
  const HTTPS: Bytes := [0x68, 0x74, 0x74, 0x70, 0x73, 0x3A, 0x2F, 0x2F]

  predicate IsValidVersion(version: byte) {
    version == VERSION_0 || version == VERSION_1 || version == VERSION_2
  }

  predicate IsValidUpstream(protocol: byte) {
    protocol == UPSTREAM_HTTP2 || protocol == UPSTREAM_HTTP3
  }

  function ApplyDefaults(u: Link): Link {
    if u.upstreamProtocol == 0 then u.(upstreamProtocol := UPSTREAM_HTTP2) else u
  }

  predicate RequireValid(codec: AddressCodec, u: Link) {
    && IsValidVersion(u.version)
    && (if u.subscriptionUrl != [] then HasPrefix(u.subscriptionUrl, HTTPS)
        else u.hostname != [] && u.username != [] && u.password != [] && u.addresses != [])
    && (forall a | a in u.addresses :: codec.Dialable(a))
    && IsValidUpstream(u.upstreamProtocol)
  }

  function LowestVersion(u: Link): byte {
    if u.subscriptionUrl != [] || u.clientRandomAuthKey != [] then VERSION_2 else VERSION_1
  }

  function RaisedVersion(u: Link): byte {
    if u.version < LowestVersion(u) then LowestVersion(u) else u.version
  }

  /** The link a builder really writes: defaults filled in and the version raised to what its fields need. */
  function Normalized(u: Link): Link {
    var v := ApplyDefaults(u);
    v.(version := RaisedVersion(v))
  }

  /** What one tag carries in a link. */
  datatype Field =
    | NoField
    | ByteField(b: byte)
    | FlagField(flag: bool)
    | BytesField(bytes: Bytes)
    | AddressesField(addresses: seq<Socksaddr>)
    | PrefixField(prefix: RandomPrefix)
    | StringsField(strings: seq<Bytes>)

  function Project(u: Link, tag: nat): Field {
    if tag == TAG_VERSION then ByteField(u.version)
    else if tag == TAG_HOSTNAME then BytesField(u.hostname)
    else if tag == TAG_ADDRESSES then AddressesField(u.addresses)
    else if tag == TAG_CUSTOM_SNI then BytesField(u.customSni)
    else if tag == TAG_USERNAME then BytesField(u.username)
    else if tag == TAG_PASSWORD then BytesField(u.password)
    else if tag == TAG_SKIP_VERIFICATION then FlagField(u.skipVerification)
    else if tag == TAG_CERTIFICATE then BytesField(u.certificate)
    else if tag == TAG_UPSTREAM_PROTOCOL then ByteField(u.upstreamProtocol)
    else if tag == TAG_ANTI_DPI then FlagField(u.antiDpi)
    else if tag == TAG_CLIENT_RANDOM_PREFIX then PrefixField(u.clientRandomPrefix)
    else if tag == TAG_NAME then BytesField(u.name)
    else if tag == TAG_DNS_UPSTREAMS then StringsField(u.dnsUpstreams)
    else if tag == TAG_SUBSCRIPTION_URL then BytesField(u.subscriptionUrl)
    else if tag == TAG_CLIENT_RANDOM_AUTH_KEY then BytesField(u.clientRandomAuthKey)
    else NoField
  }

  lemma SameIdentity(u: Link, v: Link)
    requires forall tag | 0 <= tag < 16 :: Project(u, tag) == Project(v, tag)
    ensures u.version == v.version && u.hostname == v.hostname && u.addresses == v.addresses
    ensures u.customSni == v.customSni && u.username == v.username && u.password == v.password
    ensures u.skipVerification == v.skipVerification
  {
    assert Project(u, TAG_VERSION) == Project(v, TAG_VERSION) && Project(u, TAG_HOSTNAME) == Project(v, TAG_HOSTNAME);
    assert Project(u, TAG_ADDRESSES) == Project(v, TAG_ADDRESSES);
    assert Project(u, TAG_CUSTOM_SNI) == Project(v, TAG_CUSTOM_SNI);
    assert Project(u, TAG_USERNAME) == Project(v, TAG_USERNAME) && Project(u, TAG_PASSWORD) == Project(v, TAG_PASSWORD);
    assert Project(u, TAG_SKIP_VERIFICATION) == Project(v, TAG_SKIP_VERIFICATION);
  }

  lemma SameOptions(u: Link, v: Link)
    requires forall tag | 0 <= tag < 16 :: Project(u, tag) == Project(v, tag)
    ensures u.certificate == v.certificate && u.upstreamProtocol == v.upstreamProtocol && u.antiDpi == v.antiDpi
    ensures u.clientRandomPrefix == v.clientRandomPrefix && u.name == v.name && u.dnsUpstreams == v.dnsUpstreams
    ensures u.subscriptionUrl == v.subscriptionUrl && u.clientRandomAuthKey == v.clientRandomAuthKey
  {
    assert Project(u, TAG_CERTIFICATE) == Project(v, TAG_CERTIFICATE);
    assert Project(u, TAG_UPSTREAM_PROTOCOL) == Project(v, TAG_UPSTREAM_PROTOCOL);
    assert Project(u, TAG_ANTI_DPI) == Project(v, TAG_ANTI_DPI) && Project(u, TAG_NAME) == Project(v, TAG_NAME);
    assert Project(u, TAG_CLIENT_RANDOM_PREFIX) == Project(v, TAG_CLIENT_RANDOM_PREFIX);
    assert Project(u, TAG_DNS_UPSTREAMS) == Project(v, TAG_DNS_UPSTREAMS);
    assert Project(u, TAG_SUBSCRIPTION_URL) == Project(v, TAG_SUBSCRIPTION_URL);
    assert Project(u, TAG_CLIENT_RANDOM_AUTH_KEY) == Project(v, TAG_CLIENT_RANDOM_AUTH_KEY);
  }

  /** A link is nothing but its tagged fields. */
  lemma SameFieldsSameLink(u: Link, v: Link)
    requires forall tag | 0 <= tag < 16 :: Project(u, tag) == Project(v, tag)
    ensures u == v
  {
    SameIdentity(u, v);
    SameOptions(u, v);
  }
}
