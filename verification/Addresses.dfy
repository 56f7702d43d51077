/** IP addresses and prefixes as `net/netip` has them, without zones. */
module Addresses {

  const V4_SPACE: int := 0x1_0000_0000
  const V6_SPACE: int := 0x1_0000_0000_0000_0000_0000_0000_0000_0000
  /** ::ffff:0:0, the first IPv4-mapped address. */
  const MAPPED_BASE: int := 0xffff_0000_0000

  type V4Bits = n: int | 0 <= n < V4_SPACE
  type V6Bits = n: int | 0 <= n < V6_SPACE

  datatype Addr = Invalid | V4(n4: V4Bits) | V6(n6: V6Bits)
  {
    predicate IsMapped() {
      V6? && n6 / V4_SPACE == 0xffff
    }

    /** An IPv4-mapped IPv6 address becomes the IPv4 address; others stay. */
    function Unmap(): (r: Addr)
      ensures !r.IsMapped() && (!IsMapped() ==> r == this)
    {
      if IsMapped() then V4(n6 % V4_SPACE) else this
    }
  }

  /** The IPv4-mapped form of an IPv4 address. */
  function Mapped(n: V4Bits): (a: Addr)
    ensures a.V6? && a.IsMapped() && a.Unmap() == V4(n)
  {
    V6(MAPPED_BASE + n)
  }

  function Pow2(k: nat): (p: int)
    ensures p > 0
  {
    if k == 0 then 1 else 2 * Pow2(k - 1)
  }

  lemma Pow2Plus8(k: nat)
    ensures Pow2(k + 8) == 256 * Pow2(k)
  {
    assert Pow2(k + 2) == 4 * Pow2(k);
    assert Pow2(k + 4) == 4 * Pow2(k + 2);
    assert Pow2(k + 6) == 4 * Pow2(k + 4);
    assert Pow2(k + 8) == 4 * Pow2(k + 6);
  }

  lemma Pow2Plus32(k: nat)
    ensures Pow2(k + 32) == V4_SPACE * Pow2(k)
  {
    Pow2Plus8(k);
    Pow2Plus8(k + 8);
    Pow2Plus8(k + 16);
    Pow2Plus8(k + 24);
  }

  /** Block sizes of IPv4 prefixes. */
  lemma Pow2UpTo32()
    ensures Pow2(0) == 1 && Pow2(8) == 0x100 && Pow2(17) == 0x2_0000 && Pow2(22) == 0x40_0000
    ensures Pow2(24) == 0x100_0000 && Pow2(28) == 0x1000_0000 && Pow2(31) == 0x8000_0000 && Pow2(32) == V4_SPACE
  {
    Pow2Plus8(0);
    Pow2Plus8(8);
    Pow2Plus8(16);
    assert Pow2(17) == 2 * Pow2(16);
    assert Pow2(18) == 4 * Pow2(16);
    assert Pow2(20) == 4 * Pow2(18);
    assert Pow2(22) == 4 * Pow2(20);
    assert Pow2(26) == 4 * Pow2(24);
    assert Pow2(28) == 4 * Pow2(26);
    assert Pow2(30) == 4 * Pow2(28);
    Pow2Plus32(0);
  }

  /** Block sizes of IPv6 prefixes. */
  lemma Pow2Above32()
    ensures Pow2(64) == 0x1_0000_0000_0000_0000 && Pow2(96) == 0x1_0000_0000_0000_0000_0000_0000
    ensures Pow2(105) == 512 * Pow2(96) && Pow2(112) == 65536 * Pow2(96) && Pow2(128) == V6_SPACE
    ensures Pow2(127) == V6_SPACE / 2
  {
    Pow2Plus32(0);
    Pow2Plus32(32);
    Pow2Plus32(64);
    Pow2Plus32(96);
    Pow2Plus8(96);
    Pow2Plus8(104);
  }

  /** A family, an address and a number of leading bits. */
  datatype Prefix = P4(base4: V4Bits, len: nat) | P6(base6: V6Bits, len: nat)
  {
    predicate Valid() {
      len <= Width()
    }

    function Width(): nat {
      if P4? then 32 else 128
    }

    function Base(): int {
      if P4? then base4 else base6
    }

    /** The size of the block the prefix covers. */
    function Block(): (b: int)
      requires Valid()
      ensures b > 0
    {
      Pow2(Width() - len)
    }

    /** `Prefix.Contains`: the same family, and the leading bits agree. */
    predicate Contains(a: Addr)
      requires Valid()
    {
      match a
      case Invalid => false
      case V4(n) => P4? && n / Block() == base4 / Block()
      case V6(n) => P6? && n / Block() == base6 / Block()
    }

    /** `Prefix.Masked`: the host bits cleared. */
    function Masked(): (p: Prefix)
      requires Valid()
      ensures p.Valid() && p.len == len && p.P4? == P4?
    {
      var b := Base() / Block() * Block();
      DivMulBelow(Base(), Block());
      if P4? then P4(b, len) else P6(b, len)
    }
  }

  lemma DivMulBelow(n: int, b: int)
    requires n >= 0 && b > 0
    ensures 0 <= n / b * b <= n < n / b * b + b
  {
    assert n == n / b * b + n % b;
    assert n / b >= 0;
  }

  lemma DivMulDiv(q: int, b: int)
    requires b > 0
    ensures (q * b) / b == q
  {
    var n := q * b;
    var r := n / b;
    assert n == r * b + n % b;
    NextMultiple(r, q, b);
    NextMultiple(q, r, b);
  }

  lemma NextMultiple(x: int, y: int, b: int)
    requires b > 0
    ensures x < y ==> x * b + b <= y * b
  {
    if x < y {
      assert (x + 1) * b <= y * b;
    }
  }

  /** Masking changes no membership. */
  lemma MaskedContainsSame(p: Prefix, a: Addr)
    requires p.Valid()
    ensures p.Masked().Contains(a) == p.Contains(a)
  {
    DivMulBelow(p.Base(), p.Block());
    DivMulDiv(p.Base() / p.Block(), p.Block());
  }

  /** Membership in a prefix without host bits is lying in the block that starts at its base. */
  lemma AlignedContains(p: Prefix, a: Addr, q: int, size: int)
    requires p.Valid() && p.Block() == size && p.Base() == q * size
    ensures p.P4? && a.V4? ==> (p.Contains(a) <==> p.Base() <= a.n4 < p.Base() + size)
    ensures p.P6? && a.V6? ==> (p.Contains(a) <==> p.Base() <= a.n6 < p.Base() + size)
  {
    DivMulDiv(q, size);
    if a.V4? { SameBlock(a.n4, p.Base(), size); }
    if a.V6? { SameBlock(a.n6, p.Base(), size); }
  }

  lemma SameBlock(n: int, m: int, b: int)
    requires n >= 0 && m >= 0 && b > 0
    ensures n / b == m / b <==> m / b * b <= n < m / b * b + b
  {
    DivMulBelow(n, b);
    NextMultiple(m / b, n / b, b);
    NextMultiple(n / b, m / b, b);
  }

  /** A full-length prefix holds its own address and no other. */
  lemma FullLengthIsItself(p: Prefix, a: Addr)
    requires p.Valid() && p.len == p.Width()
    ensures p.Contains(a) <==> a == (if p.P4? then V4(p.base4) else V6(p.base6))
  {
  }

  /** Exactly ::ffff:0:0 to ::ffff:ffff:ffff are mapped, each to the IPv4 address in its last four bytes. */
  lemma MappedIff(a: Addr)
    ensures a.IsMapped() <==> a.V6? && 0xffff_0000_0000 <= a.n6 <= 0xffff_ffff_ffff
    ensures a.IsMapped() ==> a.Unmap() == V4(a.n6 - 0xffff_0000_0000)
  {
  }

  /** Masking leaves the first address of the block the prefix lies in. */
  lemma MaskedIsFirst(p: Prefix)
    requires p.Valid()
    ensures var b := p.Masked().Base(); b <= p.Base() < b + p.Block() && b % p.Block() == 0
  {
    DivMulBelow(p.Base(), p.Block());
    MultipleMod(p.Base() / p.Block(), p.Block());
  }

  lemma MultipleMod(q: int, b: int)
    requires b > 0
    ensures (q * b) % b == 0
  {
    DivMulDiv(q, b);
    assert q * b == (q * b) / b * b + (q * b) % b;
  }
}
