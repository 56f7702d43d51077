/** Addresses that are never sent to a proxy (internal/netaddr/reserved.go). */
module Reserved {
  import opened Addresses

  // ---- The predicates of net/netip, on unmapped addresses ----

  predicate IsLoopback(a: Addr) {
    match a case Invalid => false case V4(n) => n / 0x100_0000 == 127 case V6(n) => n == 1
  }

  predicate IsPrivate(a: Addr) {
    match a
    case Invalid => false
    case V4(n) => n / 0x100_0000 == 10 || n / 0x10_0000 == 0xAC1 || n / 0x1_0000 == 0xC0A8
    case V6(n) => n / 0x200_0000_0000_0000_0000_0000_0000_0000 == 0x7E
  }

  predicate IsUnspecified(a: Addr) {
    a == V4(0) || a == V6(0)
  }

  predicate IsLinkLocalUnicast(a: Addr) {
    match a
    case Invalid => false
    case V4(n) => n / 0x1_0000 == 0xA9FE
    case V6(n) => n / 0x40_0000_0000_0000_0000_0000_0000_0000 == 0x3FA
  }

  predicate IsLinkLocalMulticast(a: Addr) {
    match a
    case Invalid => false
    case V4(n) => n / 0x100 == 0xE0_0000
    case V6(n) =>
      var top := n / 0x1_0000_0000_0000_0000_0000_0000_0000;
      top / 256 == 0xFF && top % 16 == 2
  }

  predicate IsMulticast(a: Addr) {
    match a
    case Invalid => false
    case V4(n) => n / 0x1000_0000 == 0xE
    case V6(n) => n / 0x100_0000_0000_0000_0000_0000_0000_0000 == 0xFF
  }

  // ---- The table and the decision ----

  const SHIFT96: int := 0x1_0000_0000_0000_0000_0000_0000
  const SHIFT112: int := 0x1_0000_0000_0000_0000_0000_0000_0000

  /** `reservedPrefixes`, in order. */
  function Entry(i: nat): (p: Prefix)
    requires i < 14
    ensures p.Valid()
  {
    match i
    case 0 => P4(0, 8)
    case 1 => P4(0x6440_0000, 10)
    case 2 => P4(0xC000_0000, 24)
    case 3 => P4(0xC000_0200, 24)
    case 4 => P4(0xC612_0000, 15)
    case 5 => P4(0xC633_6400, 24)
    case 6 => P4(0xCB00_7100, 24)
    case 7 => P4(0xF000_0000, 4)
    case 8 => P4(0xFFFF_FFFF, 32)
    case 9 => P6(MAPPED_BASE, 96)
    case 10 => P6(0x0064_ff9b * SHIFT96, 96)
    case 11 => P6(0x0100 * SHIFT112, 64)
    case 12 => P6(0x2001 * SHIFT112, 23)
    case _ => P6(0x2002 * SHIFT112, 16)
  }

  predicate ByLibrary(a: Addr) {
    IsLoopback(a) || IsPrivate(a) || IsUnspecified(a) || IsLinkLocalUnicast(a)
    || IsLinkLocalMulticast(a) || IsMulticast(a)
  }

  /** Some table entry other than the skipped ones holds the address. */
  predicate ByTable(a: Addr, skipped: set<nat>) {
    exists i :: 0 <= i < 14 && i !in skipped && Entry(i).Contains(a)
  }

  predicate IsReserved(addr: Addr) {
    var a := addr.Unmap();
    !a.Invalid? && (ByLibrary(a) || ByTable(a, {}))
  }

  /** The decision as it is computed: the library predicates, then the table from the start. */
  method CheckReserved(addr: Addr) returns (reserved: bool)
    ensures reserved == IsReserved(addr)
  {
    hide Entry, ByLibrary, Prefix.Contains;
    var a := addr.Unmap();
    if a.Invalid? { return false; }
    if ByLibrary(a) { return true; }
    for i := 0 to 14
      invariant forall j :: 0 <= j < i ==> !Entry(j).Contains(a)
    {
      if Entry(i).Contains(a) { return true; }
    }
    reserved := false;
  }

  // ---- The same set as intervals ----

  /** Thirteen IPv4 intervals, by first address and length. */
  const INTERVALS4: seq<(int, int)> := [
    (0, 0x100_0000),                  // 0.0.0.0/8
    (0x0A00_0000, 0x100_0000),        // 10.0.0.0/8
    (0x6440_0000, 0x40_0000),         // 100.64.0.0/10
    (0x7F00_0000, 0x100_0000),        // 127.0.0.0/8
    (0xA9FE_0000, 0x1_0000),          // 169.254.0.0/16
    (0xAC10_0000, 0x10_0000),         // 172.16.0.0/12
    (0xC000_0000, 0x100),             // 192.0.0.0/24
    (0xC000_0200, 0x100),             // 192.0.2.0/24
    (0xC0A8_0000, 0x1_0000),          // 192.168.0.0/16
    (0xC612_0000, 0x2_0000),          // 198.18.0.0/15
    (0xC633_6400, 0x100),             // 198.51.100.0/24
    (0xCB00_7100, 0x100),             // 203.0.113.0/24
    (0xE000_0000, 0x2000_0000)]       // 224.0.0.0 to 255.255.255.255

  /** Eight IPv6 intervals. */
  const INTERVALS6: seq<(int, int)> := [
    (0, 2),                                                                                    // :: and ::1
    (0x64_ff9b_0000_0000_0000_0000_0000_0000, 0x1_0000_0000),                                  // 64:ff9b::/96
    (0x100_0000_0000_0000_0000_0000_0000_0000, 0x1_0000_0000_0000_0000),                       // 100::/64
    (0x2001_0000_0000_0000_0000_0000_0000_0000, 0x200_0000_0000_0000_0000_0000_0000),          // 2001::/23
    (0x2002_0000_0000_0000_0000_0000_0000_0000, 0x1_0000_0000_0000_0000_0000_0000_0000),       // 2002::/16
    (0xfc00_0000_0000_0000_0000_0000_0000_0000, 0x200_0000_0000_0000_0000_0000_0000_0000),     // fc00::/7
    (0xfe80_0000_0000_0000_0000_0000_0000_0000, 0x40_0000_0000_0000_0000_0000_0000_0000),      // fe80::/10
    (0xff00_0000_0000_0000_0000_0000_0000_0000, 0x100_0000_0000_0000_0000_0000_0000_0000)]     // ff00::/8

  predicate Within(n: int, r: (int, int)) {
    r.0 <= n < r.0 + r.1
  }

  predicate InSome(n: int, intervals: seq<(int, int)>) {
    exists i :: 0 <= i < |intervals| && Within(n, intervals[i])
  }

  /** The set of reserved addresses, independently of how it is decided. */
  predicate InReservedSpace(a: Addr) {
    match a.Unmap()
    case Invalid => false
    case V4(n) => InSome(n, INTERVALS4)
    case V6(n) => InSome(n, INTERVALS6)
  }

  predicate Disjoint(intervals: seq<(int, int)>) {
    forall i, j :: 0 <= i < j < |intervals| ==> intervals[i].0 + intervals[i].1 <= intervals[j].0
  }

  lemma IntervalsDisjoint()
    ensures Disjoint(INTERVALS4) && Disjoint(INTERVALS6) && |INTERVALS4| == 13 && |INTERVALS6| == 8
  {
  }

  /** What each table entry holds. */
  lemma TableEntries4(n: V4Bits)
    ensures Entry(0).Contains(V4(n)) <==> Within(n, INTERVALS4[0])
    ensures Entry(1).Contains(V4(n)) <==> Within(n, INTERVALS4[2])
    ensures Entry(2).Contains(V4(n)) <==> Within(n, INTERVALS4[6])
    ensures Entry(3).Contains(V4(n)) <==> Within(n, INTERVALS4[7])
    ensures Entry(4).Contains(V4(n)) <==> Within(n, INTERVALS4[9])
    ensures Entry(5).Contains(V4(n)) <==> Within(n, INTERVALS4[10])
    ensures Entry(6).Contains(V4(n)) <==> Within(n, INTERVALS4[11])
    ensures Entry(7).Contains(V4(n)) <==> 0xF000_0000 <= n
    ensures Entry(8).Contains(V4(n)) <==> n == 0xFFFF_FFFF
  {
    Pow2UpTo32();
    hide Pow2, Prefix.Contains;
    var a := V4(n);
    AlignedContains(Entry(0), a, 0, 0x100_0000);
    AlignedContains(Entry(1), a, 0x191, 0x40_0000);
    AlignedContains(Entry(2), a, 0xC0_0000, 0x100);
    AlignedContains(Entry(3), a, 0xC0_0002, 0x100);
    AlignedContains(Entry(4), a, 0x6309, 0x2_0000);
    AlignedContains(Entry(5), a, 0xC6_3364, 0x100);
    AlignedContains(Entry(6), a, 0xCB_0071, 0x100);
    AlignedContains(Entry(7), a, 0xF, 0x1000_0000);
    AlignedContains(Entry(8), a, 0xFFFF_FFFF, 1);
  }

  lemma TableEntries6(n: V6Bits)
    ensures Entry(9).Contains(V6(n)) <==> V6(n).IsMapped()
    ensures Entry(10).Contains(V6(n)) <==> Within(n, INTERVALS6[1])
    ensures Entry(11).Contains(V6(n)) <==> Within(n, INTERVALS6[2])
    ensures Entry(12).Contains(V6(n)) <==> Within(n, INTERVALS6[3])
    ensures Entry(13).Contains(V6(n)) <==> Within(n, INTERVALS6[4])
  {
    Pow2UpTo32();
    Pow2Above32();
    hide Pow2, Prefix.Contains;
    var a := V6(n);
    SameBlock(n, MAPPED_BASE, V4_SPACE);
    AlignedContains(Entry(9), a, 0xffff, 0x1_0000_0000);
    AlignedContains(Entry(10), a, 0x64_ff9b_0000_0000_0000_0000, 0x1_0000_0000);
    AlignedContains(Entry(11), a, 0x100_0000_0000_0000, 0x1_0000_0000_0000_0000);
    AlignedContains(Entry(12), a, 0x10_0080, 0x200_0000_0000_0000_0000_0000_0000);
    AlignedContains(Entry(13), a, 0x2002, 0x1_0000_0000_0000_0000_0000_0000_0000);
  }

  lemma Library4(n: V4Bits)
    ensures ByLibrary(V4(n)) <==>
      || n == 0 || Within(n, INTERVALS4[1]) || Within(n, INTERVALS4[3]) || Within(n, INTERVALS4[4])
      || Within(n, INTERVALS4[5]) || Within(n, INTERVALS4[8]) || 0xE000_0000 <= n < 0xF000_0000
  {
  }

  lemma Library6(n: V6Bits)
    ensures ByLibrary(V6(n)) <==>
      || Within(n, INTERVALS6[0]) || Within(n, INTERVALS6[5]) || Within(n, INTERVALS6[6]) || Within(n, INTERVALS6[7])
  {
  }

  lemma TableFamilies(a: Addr, i: nat)
    requires i < 14
    ensures a.V4? && Entry(i).Contains(a) ==> i <= 8
    ensures a.V6? && Entry(i).Contains(a) ==> i >= 9
  {
  }

  /** `IsReserved` is membership in the thirteen IPv4 or eight IPv6 intervals, and the entries for the
      broadcast address and for IPv4-mapped addresses change no answer. */
  lemma ReservedIsIntervals(addr: Addr)
    ensures IsReserved(addr) <==> InReservedSpace(addr)
    ensures var a := addr.Unmap(); IsReserved(addr) <==> !a.Invalid? && (ByLibrary(a) || ByTable(a, {8, 9}))
  {
    var a := addr.Unmap();
    match a {
      case Invalid =>
      case V4(n) => ReservedV4(n);
      case V6(n) => ReservedV6(n);
    }
  }

  lemma ReservedV4(n: V4Bits)
    ensures ByLibrary(V4(n)) || ByTable(V4(n), {}) <==> InSome(n, INTERVALS4)
    ensures ByLibrary(V4(n)) || ByTable(V4(n), {8, 9}) <==> InSome(n, INTERVALS4)
  {
    TableEntries4(n);
    Library4(n);
    hide Entry, ByLibrary, Prefix.Contains;
    if InSome(n, INTERVALS4) {
      var i :| 0 <= i < 13 && Within(n, INTERVALS4[i]);
      Cover4(n, i);
    }
    forall i | 0 <= i < 14 && Entry(i).Contains(V4(n)) ensures InSome(n, INTERVALS4) {
      TableFamilies(V4(n), i);
      Found4(n, i);
    }
    assert ByTable(V4(n), {8, 9}) ==> ByTable(V4(n), {});
    if ByLibrary(V4(n)) { LibraryFound4(n); }
  }

  /** Every interval is covered by the library or by a table entry that is neither 8 nor 9. */
  lemma Cover4(n: V4Bits, i: nat)
    requires i < 13 && Within(n, INTERVALS4[i])
    ensures ByLibrary(V4(n)) || ByTable(V4(n), {8, 9})
  {
    TableEntries4(n);
    Library4(n);
    hide Entry, ByLibrary, Prefix.Contains;
    assert i == 0 ==> Entry(0).Contains(V4(n));
    assert i == 2 ==> Entry(1).Contains(V4(n));
    assert i == 6 ==> Entry(2).Contains(V4(n));
    assert i == 7 ==> Entry(3).Contains(V4(n));
    assert i == 9 ==> Entry(4).Contains(V4(n));
    assert i == 10 ==> Entry(5).Contains(V4(n));
    assert i == 11 ==> Entry(6).Contains(V4(n));
    assert i == 12 && n >= 0xF000_0000 ==> Entry(7).Contains(V4(n));
  }

  lemma Found4(n: V4Bits, i: nat)
    requires i <= 8 && Entry(i).Contains(V4(n))
    ensures InSome(n, INTERVALS4)
  {
    TableEntries4(n);
    hide Entry, Prefix.Contains;
    var k := if i == 0 then 0 else if i == 1 then 2 else if i == 2 then 6 else if i == 3 then 7
             else if i == 4 then 9 else if i == 5 then 10 else if i == 6 then 11 else 12;
    assert Within(n, INTERVALS4[k]);
  }

  lemma LibraryFound4(n: V4Bits)
    requires ByLibrary(V4(n))
    ensures InSome(n, INTERVALS4)
  {
    Library4(n);
    hide ByLibrary;
    var k := if n == 0 then 0 else if Within(n, INTERVALS4[1]) then 1 else if Within(n, INTERVALS4[3]) then 3
             else if Within(n, INTERVALS4[4]) then 4 else if Within(n, INTERVALS4[5]) then 5
             else if Within(n, INTERVALS4[8]) then 8 else 12;
    assert Within(n, INTERVALS4[k]);
  }

  lemma ReservedV6(n: V6Bits)
    requires !V6(n).IsMapped()
    ensures ByLibrary(V6(n)) || ByTable(V6(n), {}) <==> InSome(n, INTERVALS6)
    ensures ByLibrary(V6(n)) || ByTable(V6(n), {8, 9}) <==> InSome(n, INTERVALS6)
  {
    TableEntries6(n);
    Library6(n);
    hide Entry, ByLibrary, Prefix.Contains;
    if InSome(n, INTERVALS6) {
      var i :| 0 <= i < 8 && Within(n, INTERVALS6[i]);
      assert 1 <= i <= 4 ==> Entry(i + 9).Contains(V6(n));
    }
    forall i | 0 <= i < 14 && Entry(i).Contains(V6(n)) ensures InSome(n, INTERVALS6) {
      TableFamilies(V6(n), i);
      assert Within(n, INTERVALS6[i - 9]);
    }
    assert ByTable(V6(n), {8, 9}) ==> ByTable(V6(n), {});
    if ByLibrary(V6(n)) {
      var k := if Within(n, INTERVALS6[0]) then 0 else if Within(n, INTERVALS6[5]) then 5
               else if Within(n, INTERVALS6[6]) then 6 else 7;
      assert Within(n, INTERVALS6[k]);
    }
  }

  /** The comment beside 2001::/23 says that it covers 2001:db8::; it does not. */
  lemma DocumentationPrefixNotReserved()
    ensures !IsReserved(V6(0x2001_0db8_0000_0000_0000_0000_0000_0001))
  {
    var n := 0x2001_0db8_0000_0000_0000_0000_0000_0001;
    ReservedIsIntervals(V6(n));
    assert !V6(n).IsMapped();
    assert forall i :: 0 <= i < 8 ==> !Within(n, INTERVALS6[i]);
  }
}
