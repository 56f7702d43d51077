/** `Apply` and `revert` command by command: a table that the commands change, and a stack of undo actions
    that grows as they succeed (internal/autoroute). */
module AutoRouteApply {
  import opened Text
  import opened Addresses
  import opened Routes
  import opened AutoRoute
  import opened DnsRedirect

  /** The table of the operating system and the `cleanups` slice.  `history` records the state after every
      route command. */
  class Transaction {
    const os: Platform
    var table: RouteTable
    var cleanups: seq<Item>
    ghost var history: seq<Progress>

    ghost function Now(): Progress
      reads this
    {
      Progress(table, cleanups)
    }

    constructor (os: Platform, table: RouteTable)
      ensures this.os == os && this.table == table && cleanups == [] && history == []
    {
      this.os, this.table, cleanups, history := os, table, [], [];
    }

    /** Run one add command; on success append its undo action. */
    method Add(item: Item, ok: bool) returns (done: bool)
      modifies this
      ensures Now() == Try(os, old(Now()), item, ok)
      ensures done <==> ok && (item.ensure || !Taken(os, old(table), item.route))
      ensures history == old(history) + [Now()]
    {
      if !ok || (Taken(os, table, item.route) && !item.ensure) {
        history := history + [Now()];
        return false;
      }
      if !Taken(os, table, item.route) {
        table := table + {item.route};
      }
      cleanups := cleanups + [item];
      history := history + [Now()];
      done := true;
    }

    /** `ip -6 route add`, without a record of it; what is not a prefix is rejected. */
    method Add6(p: Prefix, via: Addr, dev: string)
      modifies this`table
      ensures !p.Valid() ==> table == old(table)
      ensures p.Valid() ==> table == old(table) + {Route(p, 1024, via, dev)}
    {
      if p.Valid() { table := table + {Route(p, 1024, via, dev)}; }
    }

    /** Run the undo actions from the last to the first; those whose command fails have no effect. */
    method Revert(stuck: set<Item>)
      modifies this
      ensures table == Routes.Revert(os, old(Now()), stuck) && cleanups == old(cleanups)
      ensures |history| == |old(history)| + |cleanups| && history[..|old(history)|] == old(history)
      ensures forall m :: 1 <= m <= |cleanups| ==> history[|old(history)| + m - 1] == Pops(os, old(Now()), stuck, m)
    {
      var i := |cleanups|;
      ghost var m := 0;
      while i > 0
        invariant 0 <= i <= |cleanups| && m == |cleanups| - i && cleanups == old(cleanups)
        invariant Pops(os, old(Now()), stuck, m) == Progress(table, cleanups[..i])
        invariant |history| == |old(history)| + m && history[..|old(history)|] == old(history)
        invariant forall j :: 1 <= j <= m ==> history[|old(history)| + j - 1] == Pops(os, old(Now()), stuck, j)
      {
        i := i - 1;
        assert cleanups[..i + 1][..i] == cleanups[..i];
        assert cleanups[..i + 1][i] == cleanups[i];
        if cleanups[i] !in stuck { table := Deleted(os, table, cleanups[i]); }
        m := m + 1;
        history := history + [Progress(table, cleanups[..i])];
      }
    }
  }

  /** A command for a destination that the plan did not name before meets the initial table there. */
  lemma FirstForDest(os: Platform, t0: RouteTable, plan: seq<Item>, ok: seq<bool>, i: nat)
    requires Sound(os, plan) && i < |plan| && i < |ok|
    requires forall j :: 0 <= j < i ==> plan[j].route.dest != plan[i].route.dest
    ensures Taken(os, Tries(os, t0, plan[..i], ok[..i]).table, plan[i].route) <==> Taken(os, t0, plan[i].route)
  {
    hide Tries, Taken, Sound;
    var before := plan[..i];
    SoundPrefix(os, plan, i);
    TriesKeepInv(os, t0, before, ok[..i]);
    var p := Tries(os, t0, before, ok[..i]);
    forall j | 0 <= j < |p.stack| ensures p.stack[j].route.dest != plan[i].route.dest {
      var a :| 0 <= a < i && before[a] == p.stack[j];
    }
    TakenAtFreeDest(os, t0, p, plan[i].route);
  }

  lemma TriesStep(os: Platform, t0: RouteTable, plan: seq<Item>, ok: seq<bool>, i: nat)
    requires i < |plan| && i < |ok|
    ensures Tries(os, t0, plan[..i + 1], ok[..i + 1]) == Try(os, Tries(os, t0, plan[..i], ok[..i]), plan[i], ok[i])
  {
    assert plan[..i + 1][..i] == plan[..i] && ok[..i + 1][..i] == ok[..i];
  }

  /** `resolveProxyHost` after the look-up: the IPv4 addresses in order, IPv4-mapped ones in plain form. */
  method ResolveProxyHost(answer: Option<seq<Addr>>) returns (v4: seq<V4Bits>)
    ensures answer.None? ==> v4 == []
    ensures answer.Some? ==> v4 == Ipv4Of(answer.value)
  {
    v4 := [];
    if answer.None? { return; }
    var addrs := answer.value;
    for i := 0 to |addrs|
      invariant v4 == Ipv4Of(addrs[..i])
    {
      assert addrs[..i + 1][..i] == addrs[..i];
      var a := addrs[i].Unmap();
      if a.V4? { v4 := v4 + [a.n4]; }
    }
    assert addrs[..|addrs|] == addrs;
  }

  function Ipv4Of(addrs: seq<Addr>): seq<V4Bits> {
    if addrs == [] then []
    else
      var last := addrs[|addrs| - 1].Unmap();
      Ipv4Of(addrs[..|addrs| - 1]) + if last.V4? then [last.n4] else []
  }

  /** In the order of the answer. */
  lemma {:induction false} Ipv4OfInOrder(a: seq<Addr>, b: seq<Addr>)
    ensures Ipv4Of(a + b) == Ipv4Of(a) + Ipv4Of(b)
  {
    if b == [] {
      assert a + b == a && Ipv4Of(a) + Ipv4Of(b) == Ipv4Of(a);
    } else {
      var n := |b| - 1;
      Ipv4OfInOrder(a, b[..n]);
      Ipv4OfSnoc(a, b[..n], b[n]);
      assert b == b[..n] + [b[n]];
    }
  }

  lemma Ipv4OfSnoc(a: seq<Addr>, b: seq<Addr>, x: Addr)
    ensures var own := if x.Unmap().V4? then [x.Unmap().n4] else [];
            Ipv4Of(a + (b + [x])) == Ipv4Of(a + b) + own && Ipv4Of(b + [x]) == Ipv4Of(b) + own
  {
    var all := a + (b + [x]);
    assert all[..|all| - 1] == a + b && (b + [x])[..|b|] == b;
  }

  /** Exactly the addresses that are IPv4, plain or mapped: no IPv6 address ever gets a host route. */
  lemma {:induction false} Ipv4OfMeaning(addrs: seq<Addr>, n: V4Bits)
    ensures n in Ipv4Of(addrs) <==> exists i :: 0 <= i < |addrs| && addrs[i].Unmap() == V4(n)
  {
    if addrs != [] {
      var k := |addrs| - 1;
      Ipv4OfMeaning(addrs[..k], n);
      if n in Ipv4Of(addrs[..k]) {
        var i :| 0 <= i < k && addrs[..k][i].Unmap() == V4(n);
        assert addrs[i].Unmap() == V4(n);
      }
      forall i | 0 <= i < |addrs| && addrs[i].Unmap() == V4(n) ensures n in Ipv4Of(addrs) {
        if i < k { assert addrs[..k][i].Unmap() == V4(n); }
      }
    }
  }

  // ---- The states a run goes through ----

  /** A state that some moment of a run goes through. */
  ghost predicate Visited(os: Platform, t0: RouteTable, c: Setup, ok: seq<bool>, stuck: set<Item>, s: Progress)
    requires |ok| == |PlanOf(os, c)|
  {
    exists k, m :: 0 <= k <= |ok| && Moment(os, t0, c, ok[..k], stuck, m) && s == At(os, t0, c, ok[..k], stuck, m)
  }

  ghost predicate AllVisited(os: Platform, t0: RouteTable, c: Setup, ok: seq<bool>, stuck: set<Item>, h: seq<Progress>)
    requires |ok| == |PlanOf(os, c)|
  {
    forall i :: 0 <= i < |h| ==> Visited(os, t0, c, ok, stuck, h[i])
  }

  /** Loop freedom and, on Linux and Darwin, the whole routing of a state. */
  ghost predicate Safe(os: Platform, t0: RouteTable, c: Setup, ok: seq<bool>, stuck: set<Item>, t: RouteTable)
    requires |ok| == |PlanOf(os, c)|
  {
    && (forall b :: 0 <= b < |c.ips| && Stacks(os, t0, PlanOf(os, c), ok, b) && Wide(os, c, c.ips[b]) !in stuck
                    && New(os, t0, t, Wide(os, c, c.ips[b]).route) ==>
          (ResolvesTo(t, V4(c.ips[b]), c.gw) <==> !exists q :: Rival(t0, q, Bypass(os, c, c.ips[b]).route))
          && (!os.Windows? ==> ResolvesTo(t, V4(c.ips[b]), c.gw)))
    && (!os.Windows? && Canonical(t0) ==> forall n, via :: Routed(os, t0, c, t, n, via))
    && (!os.Windows? && Canonical(t0) && NoneMisread(os, t0, c) ==> forall n, via :: Routed6(os, t0, c, t, n, via))
  }

  ghost predicate Routed(os: Platform, t0: RouteTable, c: Setup, t: RouteTable, n: V4Bits, via: Addr) {
    ResolvesTo(t, V4(n), via) <==>
      Expected(os, t0, c, New(os, t0, t, Bypass(os, c, n).route), New(os, t0, t, Wide(os, c, n).route), n, via)
  }

  ghost predicate Routed6(os: Platform, t0: RouteTable, c: Setup, t: RouteTable, n: V6Bits, via: Addr) {
    ResolvesTo(t, V6(n), via) <==> Expected6(os, t0, c, New(os, t0, t, Wide6(os, c, n).route), n, via)
  }

  /** Every state that a run goes through is safe. */
  lemma VisitedIsSafe(os: Platform, t0: RouteTable, c: Setup, ok: seq<bool>, stuck: set<Item>, s: Progress)
    requires |ok| == |PlanOf(os, c)| && Visited(os, t0, c, ok, stuck, s)
    ensures Safe(os, t0, c, ok, stuck, s.table)
  {
    hide ResolvesTo, Rival, At, Moment, PlanOf, New, Expected, Expected6, Taken, NoneMisread;
    var k, m :| 0 <= k <= |ok| && Moment(os, t0, c, ok[..k], stuck, m) && s == At(os, t0, c, ok[..k], stuck, m);
    forall b | 0 <= b < |c.ips| && Stacks(os, t0, PlanOf(os, c), ok, b) && Wide(os, c, c.ips[b]) !in stuck
               && New(os, t0, s.table, Wide(os, c, c.ips[b]).route)
      ensures ResolvesTo(s.table, V4(c.ips[b]), c.gw) <==> !exists q :: Rival(t0, q, Bypass(os, c, c.ips[b]).route)
      ensures !os.Windows? ==> ResolvesTo(s.table, V4(c.ips[b]), c.gw)
    {
      HostsTriedBeforeWide(os, t0, c, ok[..k], stuck, m, c.ips[b]);
      LoopFree(os, t0, c, ok[..k], stuck, m, b);
    }
    if !os.Windows? && Canonical(t0) {
      forall n, via ensures Routed(os, t0, c, s.table, n, via) { Routing(os, t0, c, ok[..k], stuck, m, n, via); }
      if NoneMisread(os, t0, c) {
        forall n, via ensures Routed6(os, t0, c, s.table, n, via) { Routing6(os, t0, c, ok[..k], stuck, m, n, via); }
      }
    }
  }

  lemma HostsTriedBeforeWide(os: Platform, t0: RouteTable, c: Setup, ok: seq<bool>, stuck: set<Item>, m: nat, n: V4Bits)
    requires Moment(os, t0, c, ok, stuck, m) && New(os, t0, At(os, t0, c, ok, stuck, m).table, Wide(os, c, n).route)
    ensures |c.ips| < |ok|
  {
    hide At, PlanOf, Taken;
    var r := Wide(os, c, n).route;
    InMeansTaken(os, t0, r);
    var i := TableItem(os, t0, c, ok, stuck, m, r);
    PlanItem(os, c, i);
    WideHolds(os, c, n);
  }

  lemma AllSafe(os: Platform, t0: RouteTable, c: Setup, ok: seq<bool>, stuck: set<Item>, h: seq<Progress>)
    requires |ok| == |PlanOf(os, c)| && AllVisited(os, t0, c, ok, stuck, h)
    ensures forall i :: 0 <= i < |h| ==> Safe(os, t0, c, ok, stuck, h[i].table)
  {
    hide Visited, Safe;
    forall i | 0 <= i < |h| ensures Safe(os, t0, c, ok, stuck, h[i].table) {
      VisitedIsSafe(os, t0, c, ok, stuck, h[i]);
    }
  }

  lemma VisitedAt(os: Platform, t0: RouteTable, c: Setup, ok: seq<bool>, stuck: set<Item>, k: nat, m: nat)
    requires |ok| == |PlanOf(os, c)| && k <= |ok|
    requires var p := Tries(os, t0, PlanOf(os, c)[..k], ok[..k]); m <= |p.stack|
    ensures var p := Tries(os, t0, PlanOf(os, c)[..k], ok[..k]);
            && Visited(os, t0, c, ok, stuck, Pops(os, p, stuck, m)) && (m == 0 ==> Visited(os, t0, c, ok, stuck, p))
  {
    hide Tries, PlanOf;
    var p := Tries(os, t0, PlanOf(os, c)[..k], ok[..k]);
    assert At(os, t0, c, ok[..k], stuck, 0) == p;
    assert At(os, t0, c, ok[..k], stuck, m) == Pops(os, p, stuck, m);
    assert Moment(os, t0, c, ok[..k], stuck, m);
  }

  lemma UndoStatesVisited(os: Platform, t0: RouteTable, c: Setup, ok: seq<bool>, stuck: set<Item>, k: nat, p: Progress,
                          before: seq<Progress>, h: seq<Progress>)
    requires |ok| == |PlanOf(os, c)| && k <= |ok| && p == Tries(os, t0, PlanOf(os, c)[..k], ok[..k])
    requires AllVisited(os, t0, c, ok, stuck, before) && |h| == |before| + |p.stack| && h[..|before|] == before
    requires forall m :: 1 <= m <= |p.stack| ==> h[|before| + m - 1] == Pops(os, p, stuck, m)
    ensures AllVisited(os, t0, c, ok, stuck, h)
  {
    hide Tries, Visited, Pops, PlanOf;
    forall i | 0 <= i < |h| ensures Visited(os, t0, c, ok, stuck, h[i]) {
      if i >= |before| {
        var m := i - |before| + 1;
        assert h[|before| + m - 1] == Pops(os, p, stuck, m);
        VisitedAt(os, t0, c, ok, stuck, k, m);
      } else {
        assert h[..|before|][i] == before[i];
      }
    }
  }

  /** Run the next command of the plan. */
  method AddNext(tx: Transaction, c: Setup, ok: seq<bool>, ghost stuck: set<Item>, i: nat, ghost t0: RouteTable)
    returns (done: bool)
    requires i < |ok| == |PlanOf(tx.os, c)| && tx.Now() == Tries(tx.os, t0, PlanOf(tx.os, c)[..i], ok[..i])
    requires AllVisited(tx.os, t0, c, ok, stuck, tx.history)
    modifies tx
    ensures tx.Now() == Tries(tx.os, t0, PlanOf(tx.os, c)[..i + 1], ok[..i + 1])
    ensures done <==>
      var item := PlanOf(tx.os, c)[i];
      ok[i] && (item.ensure || !Taken(tx.os, old(tx.table), item.route))
    ensures !done ==> tx.Now() == old(tx.Now())
    ensures AllVisited(tx.os, t0, c, ok, stuck, tx.history)
  {
    hide Tries, Taken, Visited, PlanOf;
    TriesStep(tx.os, t0, PlanOf(tx.os, c), ok, i);
    done := tx.Add(PlanOf(tx.os, c)[i], ok[i]);
    VisitedAt(tx.os, t0, c, ok, stuck, i + 1, 0);
  }

  /** Run the first commands of the plan, warning about failures and going on. */
  method AddAll(tx: Transaction, c: Setup, ok: seq<bool>, ghost stuck: set<Item>, n: nat)
    requires n <= |ok| == |PlanOf(tx.os, c)| && tx.cleanups == [] && tx.history == []
    modifies tx
    ensures tx.Now() == Tries(tx.os, old(tx.table), PlanOf(tx.os, c)[..n], ok[..n])
    ensures AllVisited(tx.os, old(tx.table), c, ok, stuck, tx.history)
  {
    hide Tries, Taken, Visited, PlanOf;
    TriesNone(tx.os, tx.table);
    for i := 0 to n
      invariant tx.Now() == Tries(tx.os, old(tx.table), PlanOf(tx.os, c)[..i], ok[..i])
      invariant AllVisited(tx.os, old(tx.table), c, ok, stuck, tx.history)
    {
      var done := AddNext(tx, c, ok, stuck, i, old(tx.table));
    }
  }

  lemma TriesNone(os: Platform, t0: RouteTable)
    ensures Tries(os, t0, [], []) == Progress(t0, [])
  {
  }

  /** Undo everything after the first `k` commands. */
  method UndoAll(tx: Transaction, c: Setup, ok: seq<bool>, stuck: set<Item>, ghost k: nat, ghost t0: RouteTable)
    requires k <= |ok| == |PlanOf(tx.os, c)| && tx.Now() == Tries(tx.os, t0, PlanOf(tx.os, c)[..k], ok[..k])
    requires AllVisited(tx.os, t0, c, ok, stuck, tx.history)
    modifies tx
    ensures tx.table == Routes.Revert(tx.os, old(tx.Now()), stuck)
    ensures AllVisited(tx.os, t0, c, ok, stuck, tx.history)
  {
    hide Tries, AllVisited, Pops, PlanOf;
    ghost var before, p := tx.history, tx.Now();
    tx.Revert(stuck);
    UndoStatesVisited(tx.os, t0, c, ok, stuck, k, p, before, tx.history);
  }

  // ---- Linux ----

  datatype DnsUndo = NoUndo | UndoNft | UndoIpt

  /** Which tools exist, which of their commands work, and which of the commands that undo them. */
  datatype DnsTools = DnsTools(nft: bool, ipt: bool, nftOk: seq<bool>, iptOk: seq<bool>,
                               nftStuck: set<TableName>, iptWorks: seq<bool>) {
    predicate Valid() {
      |nftOk| == 8 && |iptOk| == |iptWorks| == 4
    }
  }

  datatype Outcome = Failed | Installed(dns: DnsUndo)

  /** The original gateway and its interface are detected together. */
  function SetupOf(tun: string, ips: seq<V4Bits>, orig: (Addr, string)): Setup {
    Setup(ips, orig.0, orig.1, "", tun)
  }

  /** What `RedirectDns` stacks. */
  function DnsChoice(tools: DnsTools): DnsUndo
    requires tools.Valid()
  {
    if tools.nft then if Ran(tools.nftOk) == 8 then UndoNft else NoUndo
    else if tools.ipt && tools.iptOk[0] && tools.iptOk[1] then UndoIpt
    else NoUndo
  }

  /** What it leaves. */
  function DnsAfter(nf: Nat, tools: DnsTools): Nat
    requires tools.Valid()
  {
    match DnsChoice(tools)
    case UndoNft => NftCommands(nf, 8)
    case UndoIpt => DnsRedirect.Installed(nf, tools.iptOk)
    case NoUndo =>
      if tools.nft then CleanupNft(NftCommands(nf, Ran(tools.nftOk)), tools.nftStuck)
      else if tools.ipt then IptRoundTrip(nf, tools.iptOk, tools.iptWorks)
      else nf
  }

  /** `Apply` on Linux.  `orig` is the detected default gateway, `orig6` the IPv6 one.  It fails exactly when
      there is no gateway or the IPv4 default cannot be added; then the rules are untouched and the routes are
      back exactly when every undo worked. */
  method ApplyLinux(tx: Transaction, nf: Netfilter, tun: string, ips: seq<V4Bits>, orig: Option<(Addr, string)>,
                    orig6: Option<(Addr, string)>, ok: seq<bool>, stuck: set<Item>, tools: DnsTools)
    returns (r: Outcome)
    requires tx.os == Linux && tx.cleanups == [] && tx.history == [] && |ok| == |ips| + 2 && tools.Valid()
    modifies tx, nf
    ensures r.Failed? <==> orig.None? || !LinuxStacks(old(tx.table), SetupOf(tun, ips, orig.value), ok, |ips|)
    ensures r.Failed? ==> nf.state == old(nf.state)
    ensures r.Failed? ==> (tx.table == old(tx.table) <==>
      orig.None? || LinuxUndone(old(tx.table), SetupOf(tun, ips, orig.value), ok[..|ips| + 1], stuck))
    ensures r.Installed? ==>
      && r.dns == DnsChoice(tools) && nf.state == DnsAfter(old(nf.state), tools)
      && tx.Now() == Tries(Linux, old(tx.table), LinuxPlan(SetupOf(tun, ips, orig.value)), ok)
    ensures orig.Some? ==> AllVisited(Linux, old(tx.table), SetupOf(tun, ips, orig.value), ok, stuck, tx.history)
  {
    if orig.None? { return Failed; }
    hide Tries, Taken, AllVisited, LinuxStacks, LinuxUndone, DnsAfter;
    var done := InstallLinuxRoutes(tx, SetupOf(tun, ips, orig.value), orig6, ok, stuck);
    if !done { return Failed; }
    var dns := RedirectDns(nf, tools);
    r := Installed(dns);
  }

  method InstallLinuxRoutes(tx: Transaction, c: Setup, orig6: Option<(Addr, string)>, ok: seq<bool>, stuck: set<Item>)
    returns (done: bool)
    requires tx.os == Linux && tx.cleanups == [] && tx.history == [] && |ok| == |c.ips| + 2
    modifies tx
    ensures done <==> LinuxStacks(old(tx.table), c, ok, |c.ips|)
    ensures !done ==> (tx.table == old(tx.table) <==> LinuxUndone(old(tx.table), c, ok[..|c.ips| + 1], stuck))
    ensures done ==> tx.Now() == Tries(Linux, old(tx.table), LinuxPlan(c), ok)
    ensures AllVisited(Linux, old(tx.table), c, ok, stuck, tx.history)
  {
    ghost var t0 := tx.table;
    var n := |c.ips|;
    assert PlanOf(Linux, c)[n] == Default4(c) && PlanOf(Linux, c) == LinuxPlan(c);
    hide Tries, Taken, AllVisited, Pops, PlanOf, LinuxPlan, LinuxUndone;
    AddAll(tx, c, ok, stuck, n);
    DefaultIsFirst(t0, c, ok);
    done := AddNext(tx, c, ok, stuck, n, t0);
    if !done {
      UndoAll(tx, c, ok, stuck, n + 1, t0);
      LinuxErrorRestoresIff(t0, c, ok[..n + 1], stuck);
      return;
    }
    if orig6.Some? {
      AddMismatched6(tx, c.ips, orig6.value.0, orig6.value.1);
    }
    var done6 := AddNext(tx, c, ok, stuck, n + 1, t0);
    assert LinuxPlan(c)[..n + 2] == LinuxPlan(c) && ok[..n + 2] == ok;
  }

  lemma DefaultIsFirst(t0: RouteTable, c: Setup, ok: seq<bool>)
    requires |ok| == |c.ips| + 2
    ensures var n := |c.ips|;
            Taken(Linux, Tries(Linux, t0, LinuxPlan(c)[..n], ok[..n]).table, Default4(c).route)
            <==> Taken(Linux, t0, Default4(c).route)
  {
    hide Tries, Taken, Sound;
    var plan := LinuxPlan(c);
    LinuxPlanSound(c, |plan|);
    assert plan[..|plan|] == plan && plan[|c.ips|] == Default4(c);
    FirstForDest(Linux, t0, plan, ok, |c.ips|);
  }

  /** The best-effort IPv6 host routes are asked for as /128 of IPv4 addresses, which are no prefixes. */
  method AddMismatched6(tx: Transaction, ips: seq<V4Bits>, via: Addr, dev: string)
    modifies tx`table
    ensures tx.table == old(tx.table)
  {
    for i := 0 to |ips|
      invariant tx.table == old(tx.table)
    {
      tx.Add6(P4(ips[i], 128), via, dev);
    }
  }

  /** nftables when it exists, else iptables, else nothing. */
  method RedirectDns(nf: Netfilter, tools: DnsTools) returns (dns: DnsUndo)
    requires tools.Valid()
    modifies nf
    ensures dns == DnsChoice(tools) && nf.state == DnsAfter(old(nf.state), tools)
  {
    hide NftCommands, Insertions, CleanupIpt, CleanupNft;
    if tools.nft {
      var done := nf.ApplyNft(tools.nftOk, tools.nftStuck);
      return if done then UndoNft else NoUndo;
    }
    if tools.ipt {
      var done := nf.ApplyIPTables(tools.iptOk, tools.iptWorks);
      return if done then UndoIpt else NoUndo;
    }
    dns := NoUndo;
  }

  /** The function that `Apply` returns: the DNS rules were stacked last and go first, then the routes. */
  method RevertLinux(tx: Transaction, nf: Netfilter, dns: DnsUndo, stuck: set<Item>, tools: DnsTools)
    requires tools.Valid()
    modifies tx, nf
    ensures tx.table == Routes.Revert(tx.os, old(tx.Now()), stuck) && tx.cleanups == old(tx.cleanups)
    ensures |tx.history| == |old(tx.history)| + |tx.cleanups| && tx.history[..|old(tx.history)|] == old(tx.history)
    ensures forall m :: 1 <= m <= |tx.cleanups| ==>
      tx.history[|old(tx.history)| + m - 1] == Pops(tx.os, old(tx.Now()), stuck, m)
    ensures nf.state == match dns
                        case NoUndo => old(nf.state)
                        case UndoNft => CleanupNft(old(nf.state), tools.nftStuck)
                        case UndoIpt => CleanupIpt(old(nf.state), tools.iptWorks)
  {
    hide Pops, CleanupIpt;
    match dns {
      case NoUndo =>
      case UndoNft => var gone := nf.DeleteNftTables(tools.nftStuck);
      case UndoIpt => nf.DeleteIPTablesRules(tools.iptWorks);
    }
    tx.Revert(stuck);
  }

  /** The DNS rules leave no trace, judged before the run. */
  predicate DnsSpotless(nf: Nat, tools: DnsTools)
    requires tools.Valid()
  {
    if tools.nft then
      var k := Ran(tools.nftOk);
      SpotlessTable(nf, k, tools.nftStuck, OwnTable4) && SpotlessTable(nf, k, tools.nftStuck, OwnTable6)
    else if tools.ipt then
      forall i :: 0 <= i < 4 ==> Spotless(Chain(nf, i), IptRule(i), Inserted(tools.iptOk, i), tools.iptWorks[i])
    else true
  }

  lemma DnsBackIff(nf: Nat, tools: DnsTools)
    requires tools.Valid()
    ensures var after := DnsAfter(nf, tools);
            var back := match DnsChoice(tools)
                        case NoUndo => after
                        case UndoNft => CleanupNft(after, tools.nftStuck)
                        case UndoIpt => CleanupIpt(after, tools.iptWorks);
            back == nf <==> DnsSpotless(nf, tools)
  {
    hide NftCommands, Insertions, CleanupIpt, CleanupNft, Spotless, SpotlessTable;
    if tools.nft { NftRestoresIff(nf, Ran(tools.nftOk), tools.nftStuck); }
    else if tools.ipt { IptablesRestoresIff(nf, tools.iptOk, tools.iptWorks); }
  }

  /** The routes leave no trace, judged before the run. */
  predicate RoutesSpotless(t0: RouteTable, c: Setup, ok: seq<bool>, stuck: set<Item>)
    requires |ok| == |c.ips| + 2
  {
    if LinuxStacks(t0, c, ok, |c.ips|) then LinuxUndone(t0, c, ok, stuck) && !Default6Misread(t0, c, ok)
    else LinuxUndone(t0, c, ok[..|c.ips| + 1], stuck)
  }

  /** A whole run: apply at the start, the returned function at the end.  The table and the netfilter rules are
      what they were, each exactly when none of its commands leaves a trace, and every state of the table on
      the way is free of loops and routes every address as it should. */
  method ApplyThenRevertLinux(tx: Transaction, nf: Netfilter, tun: string, ips: seq<V4Bits>,
                              orig: Option<(Addr, string)>, orig6: Option<(Addr, string)>, ok: seq<bool>,
                              stuck: set<Item>, tools: DnsTools)
    requires tx.os == Linux && tx.cleanups == [] && tx.history == [] && |ok| == |ips| + 2 && tools.Valid()
    modifies tx, nf
    ensures orig.None? ==> tx.table == old(tx.table) && nf.state == old(nf.state)
    ensures orig.Some? ==>
      var c := SetupOf(tun, ips, orig.value);
      && (tx.table == old(tx.table) <==> RoutesSpotless(old(tx.table), c, ok, stuck))
      && (nf.state == old(nf.state) <==>
            !LinuxStacks(old(tx.table), c, ok, |ips|) || DnsSpotless(old(nf.state), tools))
      && forall i :: 0 <= i < |tx.history| ==> Safe(Linux, old(tx.table), c, ok, stuck, tx.history[i].table)
  {
    hide Tries, Pops, Taken, AllVisited, Safe, LinuxStacks, LinuxUndone, DnsSpotless, DnsAfter, CleanupIpt, CleanupNft;
    ghost var t0, nf0 := tx.table, nf.state;
    var r := ApplyLinux(tx, nf, tun, ips, orig, orig6, ok, stuck, tools);
    if r.Failed? {
      if orig.Some? { AllSafe(Linux, t0, SetupOf(tun, ips, orig.value), ok, stuck, tx.history); }
      return;
    }
    ghost var c, before, p := SetupOf(tun, ips, orig.value), tx.history, tx.Now();
    RevertLinux(tx, nf, r.dns, stuck, tools);
    LinuxSuccessRestoresIff(t0, c, ok, stuck);
    DnsBackIff(nf0, tools);
    assert LinuxPlan(c)[..|ok|] == LinuxPlan(c) && ok[..|ok|] == ok;
    UndoStatesVisited(Linux, t0, c, ok, stuck, |ok|, p, before, tx.history);
    AllSafe(Linux, t0, c, ok, stuck, tx.history);
  }

  // ---- Darwin and Windows ----

  datatype SplitOutcome = FirstHalfFailed | SecondHalfFailed | SplitInstalled

  /** `Apply` on Darwin and Windows.  A failing first half-space route returns without undoing anything; a
      failing second one undoes everything. */
  method ApplySplit(tx: Transaction, c: Setup, ok: seq<bool>, stuck: set<Item>) returns (r: SplitOutcome)
    requires !tx.os.Linux? && tx.cleanups == [] && tx.history == [] && |ok| == |PlanOf(tx.os, c)|
    modifies tx
    ensures r == FirstHalfFailed <==> !Stacks(tx.os, old(tx.table), PlanOf(tx.os, c), ok, |ok| - 4)
    ensures r == SplitInstalled <==>
      && Stacks(tx.os, old(tx.table), PlanOf(tx.os, c), ok, |ok| - 4)
      && Stacks(tx.os, old(tx.table), PlanOf(tx.os, c), ok, |ok| - 3)
    ensures r == FirstHalfFailed ==>
      tx.Now() == Tries(tx.os, old(tx.table), PlanOf(tx.os, c)[..|ok| - 4], ok[..|ok| - 4])
    ensures r == SecondHalfFailed ==>
      tx.table == Routes.Revert(tx.os,
                                Tries(tx.os, old(tx.table), PlanOf(tx.os, c)[..|ok| - 2], ok[..|ok| - 2]), stuck)
    ensures r == SplitInstalled ==> tx.Now() == Tries(tx.os, old(tx.table), PlanOf(tx.os, c), ok)
    ensures AllVisited(tx.os, old(tx.table), c, ok, stuck, tx.history)
  {
    ghost var t0 := tx.table;
    var n := |SplitFirst(tx.os, c)|;
    assert |ok| == n + 4 && n + 4 == |PlanOf(tx.os, c)|;
    hide Tries, Taken, Pops, AllVisited, PlanOf, SplitFirst, Stacks;
    AddAll(tx, c, ok, stuck, n);
    HalfIsFirst(tx.os, t0, c, ok, n);
    var done := AddNext(tx, c, ok, stuck, n, t0);
    if !done { return FirstHalfFailed; }
    HalfIsFirst(tx.os, t0, c, ok, n + 1);
    done := AddNext(tx, c, ok, stuck, n + 1, t0);
    if !done {
      UndoAll(tx, c, ok, stuck, n + 2, t0);
      return SecondHalfFailed;
    }
    done := AddNext(tx, c, ok, stuck, n + 2, t0);
    done := AddNext(tx, c, ok, stuck, n + 3, t0);
    assert PlanOf(tx.os, c)[..n + 4] == PlanOf(tx.os, c) && ok[..n + 4] == ok;
    r := SplitInstalled;
  }

  /** The command for a half works as the initial table says. */
  lemma HalfIsFirst(os: Platform, t0: RouteTable, c: Setup, ok: seq<bool>, i: nat)
    requires !os.Linux? && |ok| == |PlanOf(os, c)| && |ok| - 4 <= i < |ok| - 2
    ensures var plan := PlanOf(os, c);
            Stacks(os, t0, plan, ok, i) <==>
              ok[i] && (plan[i].ensure || !Taken(os, Tries(os, t0, plan[..i], ok[..i]).table, plan[i].route))
  {
    var n, plan := |SplitFirst(os, c)|, PlanOf(os, c);
    assert plan[n].route.dest == P4(0, 1) && plan[n + 1].route.dest == P4(HIGH4, 1);
    assert forall j :: 0 <= j < n ==> plan[j] == SplitFirst(os, c)[j] && plan[j].route.dest.len >= 8;
    assert plan[..|plan|] == plan;
    hide Tries, Taken, Sound, PlanOf, SplitFirst;
    PlanSound(os, c, |plan|);
    FirstForDest(os, t0, plan, ok, i);
  }

  /** The routes leave no trace, judged before the run: nothing was added before the first half-space route failed,
      or every stacked item up to the second, or up to the end, is undone without harm. */
  predicate SplitSpotless(os: Platform, t0: RouteTable, c: Setup, ok: seq<bool>, stuck: set<Item>)
    requires |ok| == |PlanOf(os, c)| && |ok| >= 4
  {
    var plan, n := PlanOf(os, c), |ok| - 4;
    if !Stacks(os, t0, plan, ok, n) then forall i :: 0 <= i < n && ok[i] ==> Taken(os, t0, plan[i].route)
    else
      var k := if Stacks(os, t0, plan, ok, n + 1) then |ok| else n + 2;
      forall i :: 0 <= i < k && Stacks(os, t0, plan, ok, i) ==> Harmless(os, t0, stuck, plan[i])
  }

  /** A whole run on Darwin or Windows gives back the table exactly when no command leaves a trace, and every state
      on the way is free of loops. */
  method ApplyThenRevertSplit(tx: Transaction, c: Setup, ok: seq<bool>, stuck: set<Item>)
    requires !tx.os.Linux? && tx.cleanups == [] && tx.history == [] && |ok| == |PlanOf(tx.os, c)|
    modifies tx
    ensures tx.table == old(tx.table) <==> SplitSpotless(tx.os, old(tx.table), c, ok, stuck)
    ensures forall i :: 0 <= i < |tx.history| ==> Safe(tx.os, old(tx.table), c, ok, stuck, tx.history[i].table)
  {
    ghost var t0, plan, n := tx.table, PlanOf(tx.os, c), |ok| - 4;
    assert |plan| >= 4 && plan[..|ok|] == plan && ok[..|ok|] == ok;
    hide Tries, Pops, Taken, Harmless, Sound, PlanOf, AllVisited, Safe;
    var r := ApplySplit(tx, c, ok, stuck);
    if r == FirstHalfFailed {
      AllSafe(tx.os, t0, c, ok, stuck, tx.history);
      TriesAddNothingIff(tx.os, t0, plan[..n], ok[..n]);
      return;
    }
    if r == SplitInstalled {
      UndoAll(tx, c, ok, stuck, |ok|, t0);
    }
    AllSafe(tx.os, t0, c, ok, stuck, tx.history);
    ghost var k := if r == SplitInstalled then |ok| else n + 2;
    PlanSound(tx.os, c, k);
    RevertRestoresIff(tx.os, t0, plan[..k], ok[..k], stuck);
    assert forall i :: 0 <= i < k ==> (Stacks(tx.os, t0, plan[..k], ok[..k], i) <==> Stacks(tx.os, t0, plan, ok, i));
  }
}
