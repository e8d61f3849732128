/**
 IPv4 addresses and CIDR prefixes as bit strings (section 5.1 of RFC 4632):
 an address is 32 bits, a prefix is its leading bits, and an address lies in a
 prefix exactly when the prefix starts it.
 */
module Ipv4 {
  import opened Basics

  type Bits = seq<bool>

  type Addr = a: Bits | |a| == 32 witness seq(32, _ => false)

  type Net = n: Bits | |n| <= 32

  /** What the address-prefix parsers return for a textual CIDR. */
  datatype ParsedPrefix = NotACidr | V6 | V4(addr: Addr, bits: nat)

  /** The masked network of a parsed IPv4 prefix that is not the default route. */
  function UsableNet(p: ParsedPrefix): Option<Net> {
    if p.V4? && 0 < p.bits <= 32 then Some(p.addr[..p.bits]) else None
  }

  predicate Contains(n: Net, a: Addr) {
    n <= a
  }

  predicate InAny(nets: seq<Net>, a: Addr) {
    exists i :: 0 <= i < |nets| && Contains(nets[i], a)
  }

  /** Two networks share an address exactly when one starts the other. */
  predicate Overlaps(p: Net, q: Net) {
    p <= q || q <= p
  }

  function Host(n: Net): (a: Addr)
    ensures Contains(n, a)
  {
    n + seq(32 - |n|, _ => false)
  }

  /** Networks that overlap are nested, and overlapping means a shared address. */
  lemma OverlapIsSharedAddress(p: Net, q: Net)
    ensures Overlaps(p, q) <==> exists a: Addr :: Contains(p, a) && Contains(q, a)
  {
    if p <= q {
      assert Contains(q, Host(q)) && Contains(p, Host(q));
    }
    if q <= p {
      assert Contains(p, Host(p)) && Contains(q, Host(p));
    }
    forall a: Addr | Contains(p, a) && Contains(q, a)
      ensures Overlaps(p, q)
    {
      if |p| <= |q| {
        assert p == q[..|p|];
      } else {
        assert q == p[..|q|];
      }
    }
  }

  // 10.0.0.0/8, 172.16.0.0/12 and 192.168.0.0/16
  const NET_10: Net := [false, false, false, false, true, false, true, false]

  const NET_172_16: Net := [true, false, true, false, true, true, false, false, false, false, false, true]

  const NET_192_168: Net :=
    [true, true, false, false, false, false, false, false, true, false, true, false, true, false, false, false]

  /** The private address space (section 3 of RFC 1918). */
  predicate IsPrivate(a: Addr) {
    Contains(NET_10, a) || Contains(NET_172_16, a) || Contains(NET_192_168, a)
  }
}
