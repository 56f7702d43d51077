/** What becomes of a flow: the gateway handler in front of the proxy chain
    (internal/gateway/handler.go, internal/proxychain/chain.go), and the user's prefix list
    (internal/config/config.go, `parsePrefixList`). */
module FlowPolicy {
  import opened Text
  import opened Addresses
  import opened Reserved
  import opened AutoRoute

  // ---- Addresses as the stack delivers them ----

  function BigEndian(b: seq<byte>): nat {
    if b == [] then 0 else BigEndian(b[..|b| - 1]) * 256 + b[|b| - 1]
  }

  lemma {:induction false} BigEndianBound(b: seq<byte>)
    ensures BigEndian(b) < Pow2(8 * |b|)
  {
    if b != [] {
      BigEndianBound(b[..|b| - 1]);
      Pow2Plus8(8 * (|b| - 1));
    }
  }

  /** `netip.AddrFromSlice`: four or sixteen bytes. */
  function FromSlice(b: seq<byte>): Addr {
    if |b| == 4 then (BigEndianBound(b); Pow2UpTo32(); V4(BigEndian(b)))
    else if |b| == 16 then (BigEndianBound(b); Pow2Above32(); V6(BigEndian(b)))
    else Invalid
  }

  /** The sixteen bytes of the IPv4-mapped form. */
  function MappedBytes(b: seq<byte>): seq<byte>
    requires |b| == 4
  {
    [0, 0, 0, 0, 0, 0, 0, 0, 0, 0, 255, 255] + b
  }

  lemma {:induction false} BigEndianAppend(a: seq<byte>, b: seq<byte>)
    ensures BigEndian(a + b) == BigEndian(a) * Pow2(8 * |b|) + BigEndian(b)
  {
    hide Pow2;
    if b == [] {
      assert a + b == a;
      assert Pow2(0) == 1 by { Pow2UpTo32(); }
    } else {
      var n := |b| - 1;
      assert (a + b)[..|a + b| - 1] == a + b[..n];
      BigEndianAppend(a, b[..n]);
      Pow2Plus8(8 * n);
      Shift256(BigEndian(a), Pow2(8 * n), BigEndian(b[..n]));
    }
  }

  lemma Shift256(x: int, y: int, z: int)
    ensures (x * y + z) * 256 == x * (256 * y) + z * 256
  {
  }

  lemma {:induction false} BigEndianZeros(k: nat)
    ensures BigEndian(seq(k, _ => 0)) == 0
  {
    if k > 0 {
      BigEndianZeros(k - 1);
      assert seq(k, _ => 0 as byte)[..k - 1] == seq(k - 1, _ => 0 as byte);
    }
  }

  lemma MappedBytesUnmap(b: seq<byte>)
    requires |b| == 4
    ensures FromSlice(MappedBytes(b)).Unmap() == FromSlice(b)
  {
    var zeros: seq<byte> := seq(10, _ => 0);
    var head: seq<byte> := [0, 0, 0, 0, 0, 0, 0, 0, 0, 0, 255, 255];
    assert head == zeros + [255, 255];
    BigEndianZeros(10);
    BigEndianAppend(zeros, [255, 255]);
    assert [255, 255][..1] == [255] && [255][..0] == [];
    assert BigEndian([255]) == 255 by { assert BigEndian([]) == 0; }
    assert BigEndian([255, 255]) == 65535;
    BigEndianAppend(head, b);
    Pow2UpTo32();
    BigEndianBound(b);
    assert MappedBytes(b) == head + b;
    assert FromSlice(MappedBytes(b)) == Mapped(BigEndian(b));
  }

  // ---- The user's prefixes ----

  /** One configured line, after trimming and parsing its text. */
  datatype Line = Blank | Bare(addr: Addr) | Cidr(prefix: Prefix) | Bad

  predicate WellParsed(l: Line) {
    (l.Bare? ==> !l.addr.Invalid?) && (l.Cidr? ==> l.prefix.Valid())
  }

  /** A bare address becomes a full-length prefix. */
  function LinePrefix(l: Line): (p: Prefix)
    requires WellParsed(l) && (l.Bare? || l.Cidr?)
    ensures p.Valid()
  {
    match l
    case Cidr(p) => p
    case Bare(V4(n)) => P4(n, 32)
    case Bare(V6(n)) => P6(n, 128)
  }

  /** Blank lines are skipped, the others give masked prefixes in order, one bad line spoils the list. */
  method ParsePrefixList(raw: seq<Line>) returns (r: Option<seq<Prefix>>)
    requires forall l :: l in raw ==> WellParsed(l)
    ensures r.None? <==> Bad in raw
    ensures r.Some? ==> (forall p :: p in r.value ==> p.Valid())
    ensures r.Some? ==> forall dst: Addr :: !dst.IsMapped() ==> (Matches(r.value, dst) <==> Wanted(raw, dst))
    ensures r.Some? ==> |r.value| <= |raw|
  {
    var out: seq<Prefix> := [];
    for i := 0 to |raw|
      invariant Bad !in raw[..i] && |out| <= i
      invariant forall p :: p in out ==> p.Valid()
      invariant forall dst: Addr :: !dst.IsMapped() ==> (Matches(out, dst) <==> Wanted(raw[..i], dst))
    {
      var l := raw[i];
      assert raw[..i + 1] == raw[..i] + [l];
      if l.Bad? { return None; }
      if l.Blank? {
        forall dst: Addr | !dst.IsMapped() ensures Matches(out, dst) <==> Wanted(raw[..i + 1], dst) {
          WantedOneMore(raw[..i], l, dst);
        }
        continue;
      }
      var p := LinePrefix(l).Masked();
      forall dst: Addr | !dst.IsMapped() ensures Matches(out + [p], dst) <==> Wanted(raw[..i + 1], dst) {
        WantedOneMore(raw[..i], l, dst);
        MatchesOneMore(out, p, dst);
        MaskedContainsSame(LinePrefix(l), dst);
        if l.Bare? { FullLengthIsItself(LinePrefix(l), dst); }
      }
      out := out + [p];
    }
    assert raw[..|raw|] == raw;
    r := Some(out);
  }

  /** The scan over `ExcludedPrefixes`. */
  predicate Matches(prefixes: seq<Prefix>, dst: Addr)
    requires forall p :: p in prefixes ==> p.Valid()
  {
    exists i :: 0 <= i < |prefixes| && prefixes[i].Contains(dst)
  }

  /** What the user asked for: a bare address means itself, a prefix its whole block, host bits or not. */
  predicate Covers(l: Line, dst: Addr)
    requires WellParsed(l)
  {
    match l
    case Bare(a) => a == dst
    case Cidr(p) => p.Contains(dst)
    case _ => false
  }

  predicate Wanted(raw: seq<Line>, dst: Addr)
    requires forall l :: l in raw ==> WellParsed(l)
  {
    exists i :: 0 <= i < |raw| && Covers(raw[i], dst)
  }

  lemma WantedOneMore(raw: seq<Line>, l: Line, dst: Addr)
    requires (forall x :: x in raw ==> WellParsed(x)) && WellParsed(l)
    ensures (forall x :: x in raw + [l] ==> WellParsed(x))
            && (Wanted(raw + [l], dst) <==> Wanted(raw, dst) || Covers(l, dst))
  {
    var s := raw + [l];
    if Wanted(raw, dst) {
      var i :| 0 <= i < |raw| && Covers(raw[i], dst);
      assert Covers(s[i], dst);
    }
    if Covers(l, dst) { assert Covers(s[|raw|], dst); }
  }

  lemma MatchesOneMore(prefixes: seq<Prefix>, p: Prefix, dst: Addr)
    requires (forall x :: x in prefixes ==> x.Valid()) && p.Valid()
    ensures (forall x :: x in prefixes + [p] ==> x.Valid())
            && (Matches(prefixes + [p], dst) <==> Matches(prefixes, dst) || p.Contains(dst))
  {
    var s := prefixes + [p];
    if Matches(prefixes, dst) {
      var i :| 0 <= i < |prefixes| && prefixes[i].Contains(dst);
      assert s[i].Contains(dst);
    }
    if p.Contains(dst) { assert s[|prefixes|].Contains(dst); }
  }

  /** Destinations are unmapped before the scan: a bare line excludes exactly its own address if that is not
      IPv4-mapped, and nothing at all if it is. */
  lemma BareLineMatchesIff(a: Addr, dst: Addr)
    requires WellParsed(Bare(a))
    ensures LinePrefix(Bare(a)).Masked().Contains(dst.Unmap()) <==> !a.IsMapped() && dst.Unmap() == a
  {
    var l := Bare(a);
    MaskedContainsSame(LinePrefix(l), dst.Unmap());
    FullLengthIsItself(LinePrefix(l), dst.Unmap());
  }

  // ---- The decision ----

  datatype Decision = Relay | Drop | Direct | Upstream
  datatype Hand = Taken(d: Decision) | Forward

  predicate LanOnly(udp: bool, port: nat) {
    if udp then port == 137 || port == 138 || port == 445 || port == 5353 else port == 139 || port == 445
  }

  /** `HandleTCP` of the gateway. */
  function HandleTCP(dst: Addr, port: nat): Hand {
    if dst == GW4 || dst == GW6 then (if port == 53 then Taken(Relay) else Taken(Drop))
    else if LanOnly(false, port) then Taken(Drop)
    else Forward
  }

  /** `HandleUDP` of the gateway. */
  function HandleUDP(dst: Addr, port: nat): Hand {
    if (dst == GW4 || dst == GW6) && port == 53 then Taken(Relay)
    else if LanOnly(true, port) then Taken(Drop)
    else Forward
  }

  predicate IsDirect(prefixes: seq<Prefix>, addr: Addr)
    requires forall p :: p in prefixes ==> p.Valid()
  {
    var dst := addr.Unmap();
    !dst.Invalid? && (IsReserved(dst) || Matches(prefixes, dst))
  }

  /** `DialContext` and `DialUDP` of the chain. */
  function Dial(skipProcess: bool, prefixes: seq<Prefix>, addr: Addr): Decision
    requires forall p :: p in prefixes ==> p.Valid()
  {
    if skipProcess then Direct else if IsDirect(prefixes, addr) then Direct else Upstream
  }

  /** Handler and chain together, from the address bytes of the flow. */
  function Decide(udp: bool, bytes: seq<byte>, port: nat, skipProcess: bool, prefixes: seq<Prefix>): Decision
    requires forall p :: p in prefixes ==> p.Valid()
  {
    var dst := FromSlice(bytes).Unmap();
    match (if udp then HandleUDP(dst, port) else HandleTCP(dst, port))
    case Taken(d) => d
    case Forward => Dial(skipProcess, prefixes, FromSlice(bytes))
  }

  /** 198.18.0.1 or fdfe:dcba:9876::1. */
  predicate ToGateway(dst: Addr) {
    dst == V4(0xC612_0001) || dst == V6(0xfdfe_dcba_9876_0000_0000_0000_0000_0001)
  }

  /** The four outcomes.  Port 53 of the gateway is relayed; other TCP to the gateway, TCP to ports 139 and 445, and UDP
      to ports 137, 138, 445 and 5353 are dropped; and of the rest a flow reaches the upstream proxy exactly when its
      process is not excluded and its destination lies neither in the reserved space nor in what the user asked for. */
  lemma DecisionTable(udp: bool, bytes: seq<byte>, port: nat, skipProcess: bool, raw: seq<Line>, prefixes: seq<Prefix>)
    requires forall p :: p in prefixes ==> p.Valid()
    requires forall l :: l in raw ==> WellParsed(l)
    requires forall dst: Addr :: !dst.IsMapped() ==> (Matches(prefixes, dst) <==> Wanted(raw, dst))
    ensures var dst := FromSlice(bytes).Unmap();
            var d := Decide(udp, bytes, port, skipProcess, prefixes);
            var relayed := ToGateway(dst) && port == 53;
            var dropped := !relayed && if udp then port in {137, 138, 445, 5353}
                                       else ToGateway(dst) || port in {139, 445};
            var spared := skipProcess || InReservedSpace(dst) || (!dst.Invalid? && Wanted(raw, dst));
            d == if relayed then Relay else if dropped then Drop else if spared then Direct else Upstream
  {
    hide IsReserved, InReservedSpace, FromSlice, Matches, Wanted;
    var dst := FromSlice(bytes).Unmap();
    ReservedIsIntervals(dst);
    UnmapTwice(FromSlice(bytes));
    InvalidNotReserved();
  }

  lemma InvalidNotReserved()
    ensures !InReservedSpace(Invalid)
  {
  }

  lemma UnmapTwice(a: Addr)
    ensures a.Unmap().Unmap() == a.Unmap()
  {
  }

  /** Both gateway addresses are in the reserved space, so no flow to them reaches the proxy on any port. */
  lemma GatewayNeverUpstream(udp: bool, bytes: seq<byte>, port: nat, skipProcess: bool, prefixes: seq<Prefix>)
    requires forall p :: p in prefixes ==> p.Valid()
    requires FromSlice(bytes).Unmap() == GW4 || FromSlice(bytes).Unmap() == GW6
    ensures Decide(udp, bytes, port, skipProcess, prefixes) != Upstream
  {
    hide IsReserved, FromSlice, Matches;
    var dst := FromSlice(bytes).Unmap();
    UnmapTwice(FromSlice(bytes));
    ReservedIsIntervals(dst);
    if dst == GW4 { assert Within(GW4.n4, INTERVALS4[9]); }
    else { assert Within(GW6.n6, INTERVALS6[5]); }
  }

  /** The plain and the IPv4-mapped form of an address get the same decision. */
  lemma MappedSameDecision(udp: bool, b: seq<byte>, port: nat, skipProcess: bool, prefixes: seq<Prefix>)
    requires |b| == 4 && forall p :: p in prefixes ==> p.Valid()
    ensures Decide(udp, MappedBytes(b), port, skipProcess, prefixes) == Decide(udp, b, port, skipProcess, prefixes)
  {
    hide IsReserved, Matches;
    MappedBytesUnmap(b);
  }

  /** Addresses come in network byte order: the gateways, byte by byte. */
  lemma GatewayBytes()
    ensures ToGateway(FromSlice([198, 18, 0, 1]))
    ensures ToGateway(FromSlice([0xfd, 0xfe, 0xdc, 0xba, 0x98, 0x76, 0, 0, 0, 0, 0, 0, 0, 0, 0, 1]))
  {
    assert FromSlice([198, 18, 0, 1]) == V4(0xC612_0001) by { FourBytes(198, 18, 0, 1); }
    GatewayBytes6();
  }

  /** Four bytes are an IPv4 address, sixteen an IPv6 one, first byte first; anything else is none. */
  lemma AddressOfBytes(b: seq<byte>)
    ensures |b| == 4 ==>
              && FromSlice(b).V4?
              && FromSlice(b).n4 == (((b[0] as int) * 256 + b[1] as int) * 256 + b[2] as int) * 256 + b[3] as int
    ensures |b| == 16 ==> FromSlice(b).V6? && FromSlice(b).n6 == BigEndian(b)
    ensures |b| != 4 && |b| != 16 ==> FromSlice(b) == Invalid
  {
    if |b| == 4 {
      assert b == [b[0], b[1], b[2], b[3]];
      FourBytes(b[0], b[1], b[2], b[3]);
    }
  }

  lemma FourBytes(a: byte, b: byte, c: byte, d: byte)
    ensures BigEndian([a, b, c, d]) == ((a * 256 + b) * 256 + c) * 256 + d
  {
    assert [a, b, c, d][..3] == [a, b, c] && [a, b, c][..2] == [a, b] && [a, b][..1] == [a] && [a][..0] == [];
    assert BigEndian([]) == 0;
    assert BigEndian([a]) == a;
    assert BigEndian([a, b]) == a * 256 + b;
    assert BigEndian([a, b, c]) == (a * 256 + b) * 256 + c;
  }

  lemma GatewayBytes6()
    ensures FromSlice([0xfd, 0xfe, 0xdc, 0xba, 0x98, 0x76, 0, 0, 0, 0, 0, 0, 0, 0, 0, 1]) == GW6
  {
    var b1, b2, b3, b4: seq<byte> := [0xfd, 0xfe, 0xdc, 0xba], [0x98, 0x76, 0, 0], [0, 0, 0, 0], [0, 0, 0, 1];
    FourBytes(0xfd, 0xfe, 0xdc, 0xba);
    FourBytes(0x98, 0x76, 0, 0);
    FourBytes(0, 0, 0, 0);
    FourBytes(0, 0, 0, 1);
    Pow2UpTo32();
    BigEndianAppend(b1, b2);
    BigEndianAppend(b1 + b2, b3);
    BigEndianAppend(b1 + b2 + b3, b4);
    assert b1 + b2 + b3 + b4 == [0xfd, 0xfe, 0xdc, 0xba, 0x98, 0x76, 0, 0, 0, 0, 0, 0, 0, 0, 0, 1];
  }
}
