/** Socket addresses as far as the repository looks into them. */
module Address {
  import opened Basics

  type Bytes4 = s: Bytes | |s| == 4 witness [0, 0, 0, 0]
  type Bytes16 = s: Bytes | |s| == 16 witness [0, 0, 0, 0, 0, 0, 0, 0, 0, 0, 0, 0, 0, 0, 0, 0]
  type uint16 = x: int | 0 <= x < 0x1_0000

  /** netip.Addr without its zero value. */
  datatype IpAddr = V4(v4: Bytes4) | V6(v6: Bytes16, zone: Bytes)

  /** M.Socksaddr; no address stands for the zero netip.Addr. */
  datatype Socksaddr = Socksaddr(addr: Option<IpAddr>, port: uint16, fqdn: Bytes) {
    predicate IsIP() {
      addr.Some?
    }
  }

  /** The text form of addresses, whose code is not in the repository. */
  datatype AddressCodec = AddressCodec(
    format: Socksaddr -> Bytes,
    parse: Bytes -> Socksaddr,
    valid: Socksaddr -> bool)
  {
    predicate Dialable(a: Socksaddr) {
      valid(a) && a.port != 0
    }
  }
}
