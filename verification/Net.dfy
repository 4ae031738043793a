// Addresses as the wrapper sees them: netip.Addr, netip.Prefix and the
// host-or-name destination of the AnyTLS protocol.
module Net {
  const V4_SPACE: nat := 0x1_0000_0000
  const V6_SPACE: nat := 0x1_00000000_00000000_00000000_00000000

  type U32 = n: nat | n < V4_SPACE
  type U128 = n: nat | n < V6_SPACE

  // Invalid is the zero netip.Addr. An IPv6 address may carry a zone.
  datatype Addr =
    | Invalid
    | V4(v4: U32)
    | V6(v6: U128, zone: string)
  {
    predicate IsValid() { !Invalid? }

    // True for every 128-bit address, the IPv4-mapped ones included.
    predicate Is6() { V6? }

    predicate Is4In6() { V6? && v6 / V4_SPACE == 0xffff }

    // An IPv4-mapped address becomes the IPv4 address it carries.
    function Unmap(): Addr {
      if Is4In6() then V4(v6 % V4_SPACE) else this
    }

    function Octet(k: nat): nat
      requires V4? && k < 4
    {
      if k == 0 then v4 / 0x100_0000 else if k == 1 then v4 / 0x1_0000 % 0x100
      else if k == 2 then v4 / 0x100 % 0x100 else v4 % 0x100
    }

    // The first 16 bits of an IPv6 address.
    function Head(): nat
      requires V6?
    {
      v6 / 0x1_0000_00000000_00000000_00000000
    }

    // The address classes of package netip.
    predicate IsPrivate() {
      match this
      case V4(_) => Octet(0) == 10 || (Octet(0) == 172 && Octet(1) / 16 == 1) || (Octet(0) == 192 && Octet(1) == 168)
      case V6(_, _) => Head() / 0x200 == 0xfc00 / 0x200
      case Invalid => false
    }

    predicate IsLoopback() {
      match this
      case V4(_) => Octet(0) == 127
      case V6(b, _) => b == 1
      case Invalid => false
    }

    predicate IsLinkLocalUnicast() {
      match this
      case V4(_) => Octet(0) == 169 && Octet(1) == 254
      case V6(_, _) => Head() / 0x40 == 0xfe80 / 0x40
      case Invalid => false
    }

    predicate IsLinkLocalMulticast() {
      match this
      case V4(_) => Octet(0) == 224 && Octet(1) == 0 && Octet(2) == 0
      case V6(_, _) => Head() / 0x100 == 0xff && Head() % 0x10 == 2
      case Invalid => false
    }

    predicate IsUnspecified() { this == V4(0) || this == V6(0, "") }

    predicate IsMulticast() {
      match this
      case V4(_) => Octet(0) / 16 == 14
      case V6(_, _) => Head() / 0x100 == 0xff
      case Invalid => false
    }
  }

  function Pow2(n: nat): nat { if n == 0 then 1 else 2 * Pow2(n - 1) }

  lemma {:induction false} Pow2Positive(n: nat)
    ensures Pow2(n) > 0
  {
    if n > 0 { Pow2Positive(n - 1); }
  }

  // A network: the first `bits` bits of the base address.
  datatype Prefix = Prefix(base: Addr, bits: nat) {
    // Families do not mix, and an address with a zone is in no network.
    predicate Contains(ip: Addr) {
      match (base, ip)
      case (V4(b), V4(a)) => bits <= 32 && SameHead(b, a, 32 - bits)
      case (V6(b, _), V6(a, zone)) => bits <= 128 && zone == "" && SameHead(b, a, 128 - bits)
      case _ => false
    }
  }

  predicate SameHead(b: nat, a: nat, free: nat) {
    Pow2Positive(free);
    b / Pow2(free) == a / Pow2(free)
  }

  datatype Socksaddr = Socksaddr(fqdn: string, addr: Addr, port: nat) {
    predicate IsValid() { addr.IsValid() || fqdn != "" }
    predicate Is6() { addr.Is6() }
  }

  // The IPv6 addresses from ::ffff:0.0.0.0 to ::ffff:255.255.255.255 carry the
  // IPv4 addresses, in order; no other address is changed.
  lemma UnmapCarries(b: U32, zone: string)
    ensures V6(0xffff_0000_0000 + b, zone).Unmap() == V4(b)
  {
  }

  lemma UnmapLeaves(a: Addr)
    ensures a.Unmap() != a <==> a.V6? && 0xffff_0000_0000 <= a.v6 <= 0xffff_ffff_ffff
  {
  }

  // Addresses are of the family of their width; an IPv4-mapped one is wide.
  lemma FamilyIsByWidth(b: U32, x: U128, zone: string)
    ensures !V4(b).Is6() && V6(x, zone).Is6() && !Invalid.Is6()
    ensures V6(0xffff_0000_0000 + b, zone).Is6()
    ensures forall d: Socksaddr :: d.Is6() <==> d.addr.V6?
  {
  }

  lemma {:induction false} Pow2Sum(a: nat, b: nat)
    ensures Pow2(a + b) == Pow2(a) * Pow2(b)
  {
    if b > 0 {
      Pow2Sum(a, b - 1);
      assert Pow2(a + b) == 2 * (Pow2(a) * Pow2(b - 1)) == Pow2(a) * (2 * Pow2(b - 1));
    }
  }

  lemma Pow2Small()
    ensures Pow2(0) == 1 && Pow2(16) == 0x1_0000 && Pow2(20) == 0x10_0000 && Pow2(22) == 0x40_0000
    ensures Pow2(24) == 0x100_0000 && Pow2(32) == V4_SPACE
  {
    assert Pow2(2) == 4;
    Pow2Sum(2, 2); Pow2Sum(4, 4); Pow2Sum(8, 8);
    Pow2Sum(16, 4); Pow2Sum(20, 2); Pow2Sum(16, 8); Pow2Sum(16, 16);
  }

  lemma Pow2Large()
    ensures Pow2(118) == 0x40_0000_0000_0000_0000_0000_0000_0000
    ensures Pow2(121) == 0x200_0000_0000_0000_0000_0000_0000_0000
  {
    Pow2Small();
    assert Pow2(3) == 8;
    Pow2Sum(32, 32); Pow2Sum(64, 32); Pow2Sum(96, 22); Pow2Sum(118, 3);
  }

  lemma QuotientIs(q: nat, a: nat, p: nat)
    requires p > 0
    ensures a / p == q <==> p * q <= a < p * q + p
  {
    var d := a / p;
    assert p * d <= a < p * d + p;
    assert p * (d + 1) == p * d + p && p * (q + 1) == p * q + p;
    Cancel(p, d, q + 1);
    Cancel(p, q, d + 1);
  }

  lemma Cancel(p: nat, x: nat, y: nat)
    requires p > 0
    ensures p * x < p * y ==> x < y
  {
  }

  // Counted off from zero in blocks of 2^free numbers, x is in block q.
  predicate InBlock(q: nat, free: nat, x: nat) { Pow2(free) * q <= x < Pow2(free) * q + Pow2(free) }

  lemma SameHeadIsBlock(q: nat, b: nat, a: nat, free: nat)
    requires InBlock(q, free, b)
    ensures SameHead(b, a, free) <==> InBlock(q, free, a)
  {
    Pow2Positive(free);
    QuotientIs(q, b, Pow2(free));
    QuotientIs(q, a, Pow2(free));
  }

  // A network is the block of 2^(32 - bits) addresses in which its base lies,
  // and of 2^(128 - bits) for IPv6; families do not mix.
  lemma ContainsV4(b: U32, bits: nat, q: nat, a: Addr)
    requires bits <= 32 && InBlock(q, 32 - bits, b)
    ensures Prefix(V4(b), bits).Contains(a) <==> a.V4? && InBlock(q, 32 - bits, a.v4)
  {
    if a.V4? { SameHeadIsBlock(q, b, a.v4, 32 - bits); }
  }

  lemma ContainsV6(x: U128, zone: string, bits: nat, q: nat, a: Addr)
    requires bits <= 128 && InBlock(q, 128 - bits, x)
    ensures Prefix(V6(x, zone), bits).Contains(a) <==> a.V6? && a.zone == "" && InBlock(q, 128 - bits, a.v6)
  {
    if a.V6? { SameHeadIsBlock(q, x, a.v6, 128 - bits); }
  }

  // Every number is in a block of every size.
  lemma BlockOf(x: nat, free: nat) returns (q: nat)
    ensures InBlock(q, free, x)
  {
    Pow2Positive(free);
    q := Quotient(x, Pow2(free));
  }

  lemma Quotient(x: nat, p: nat) returns (q: nat)
    requires p > 0
    ensures p * q <= x < p * q + p
  {
    q := x / p;
  }

  // The longest prefixes hold one address, the shortest a whole family.
  lemma SingleAndAllV4(b: U32, a: U32)
    ensures Prefix(V4(b), 32).Contains(V4(a)) <==> a == b
    ensures Prefix(V4(b), 0).Contains(V4(a))
  {
    Pow2Small();
  }

  lemma SingleAndAllV6(x: U128, y: U128)
    ensures Prefix(V6(x, ""), 128).Contains(V6(y, "")) <==> y == x
    ensures Prefix(V6(x, ""), 0).Contains(V6(y, ""))
  {
    Pow2Small();
    Pow2Sum(32, 32);
    Pow2Sum(64, 64);
    assert Pow2(128) == V6_SPACE;
  }
}
