/** The routes that `Apply` installs on each platform, and what the transaction guarantees for them
    (internal/autoroute/autoroute_linux.go, autoroute_darwin.go, autoroute_windows.go). */
module AutoRoute {
  import opened Addresses
  import opened Routes

  /** 198.18.0.1 and fdfe:dcba:9876::1 (internal/netaddr/well_known.go). */
  const GW4: Addr := V4(0xC612_0001)
  const GW6: Addr := V6(0xfdfe_dcba_9876_0000_0000_0000_0000_0001)

  // ---- Plans ----

  /** What a call starts from: the proxy's addresses, the original gateway and its interface, the loopback
      interface (Windows) and the tunnel interface. */
  datatype Setup = Setup(ips: seq<V4Bits>, gw: Addr, dev: string, lo: string, tun: string)

  function HostDest(ip: V4Bits): Dest {
    P4(ip, 32)
  }

  /** A host route to the proxy through the original gateway. */
  function Bypass(os: Platform, c: Setup, ip: V4Bits): Item {
    match os
    case Linux => Item(Route(HostDest(ip), 0, c.gw, c.dev), false, false)
    case Darwin => Item(Route(HostDest(ip), 0, c.gw, ""), false, false)
    case Windows => Item(Route(HostDest(ip), 1, c.gw, c.dev), false, true)
  }

  function Bypasses(os: Platform, c: Setup): (plan: seq<Item>)
    ensures |plan| == |c.ips|
    ensures forall i :: 0 <= i < |c.ips| ==> plan[i] == Bypass(os, c, c.ips[i])
  {
    seq(|c.ips|, i requires 0 <= i < |c.ips| => Bypass(os, c, c.ips[i]))
  }

  /** Linux: `ip route add default` has metric 0 for IPv4 and 1024 for IPv6. */
  function Default4(c: Setup): Item {
    Item(Route(P4(0, 0), 0, GW4, c.tun), false, false)
  }

  function Default6(c: Setup): Item {
    Item(Route(P6(0, 0), 1024, GW6, c.tun), false, false)
  }

  function LinuxPlan(c: Setup): (plan: seq<Item>)
    ensures |plan| == |c.ips| + 2
  {
    Bypasses(Linux, c) + [Default4(c), Default6(c)]
  }

  const HIGH4: V4Bits := 0x8000_0000
  const HIGH6: V6Bits := 0x8000_0000_0000_0000_0000_0000_0000_0000

  /** Darwin and Windows: two half-space routes per family. */
  function Half(os: Platform, dest: Dest, c: Setup): Item {
    Item(Route(dest, if os.Windows? then 1 else 0, if dest.P4? then GW4 else GW6, if os.Windows? then c.tun else ""),
         false, false)
  }

  function Halves4(os: Platform, c: Setup): seq<Item> {
    [Half(os, P4(0, 1), c), Half(os, P4(HIGH4, 1), c)]
  }

  function Halves6(os: Platform, c: Setup): seq<Item> {
    [Half(os, P6(0, 1), c), Half(os, P6(HIGH6, 1), c)]
  }

  /** Windows: 127.0.0.0/8, on-link on the loopback interface, created unless it exists. */
  function Localhost(c: Setup): Item {
    Item(Route(P4(0x7F00_0000, 8), 1, V4(0), c.lo), true, true)
  }

  /** What comes before the half-space routes. */
  function SplitFirst(os: Platform, c: Setup): seq<Item> {
    Bypasses(os, c) + if os.Windows? then [Localhost(c)] else []
  }

  function SplitPlan(os: Platform, c: Setup): seq<Item> {
    SplitFirst(os, c) + Halves4(os, c) + Halves6(os, c)
  }

  lemma LinuxPlanSound(c: Setup, k: nat)
    requires k <= |c.ips| + 2
    ensures Sound(Linux, LinuxPlan(c)[..k])
  {
  }

  /** The one route a split plan may hold for a destination. */
  function SplitRoute(os: Platform, dest: Dest, c: Setup): Route {
    if dest.P4? && dest.len == 32 then Bypass(os, c, dest.base4).route
    else if dest.len == 8 then Localhost(c).route
    else Half(os, dest, c).route
  }

  lemma SplitPlanAt(os: Platform, c: Setup, i: nat)
    requires !os.Linux? && i < |SplitPlan(os, c)|
    ensures var item := SplitPlan(os, c)[i];
            && item.route == SplitRoute(os, item.route.dest, c)
            && (item.ensure ==> os.Windows?) && (item.ensure <==> i == |c.ips| && os.Windows?)
            && (item.ensure <==> item.route.dest == P4(0x7F00_0000, 8))
            && (i < |c.ips| <==> item.route.dest.P4? && item.route.dest.len == 32)
            && (item.anyDev <==> os.Windows? && (item.route.dest.len == 32 || item.ensure))
  {
    var plan := SplitPlan(os, c);
    var n := |SplitFirst(os, c)|;
    if i < |c.ips| { assert plan[i] == Bypass(os, c, c.ips[i]); }
    else if i < n { assert plan[i] == Localhost(c); }
    else if i == n { assert plan[i] == Half(os, P4(0, 1), c); }
    else if i == n + 1 { assert plan[i] == Half(os, P4(HIGH4, 1), c); }
    else if i == n + 2 { assert plan[i] == Half(os, P6(0, 1), c); }
    else { assert plan[i] == Half(os, P6(HIGH6, 1), c); }
  }

  lemma SplitPlanSound(os: Platform, c: Setup, k: nat)
    requires !os.Linux? && k <= |SplitPlan(os, c)|
    ensures Sound(os, SplitPlan(os, c)[..k])
  {
    hide SplitPlan, SplitRoute;
    var plan := SplitPlan(os, c)[..k];
    forall i | 0 <= i < k
      ensures plan[i].route == SplitRoute(os, plan[i].route.dest, c) && (plan[i].ensure ==> os.Windows?)
      ensures plan[i].ensure <==> i == |c.ips| && os.Windows?
      ensures plan[i].ensure <==> plan[i].route.dest == P4(0x7F00_0000, 8)
      ensures plan[i].anyDev <==> os.Windows? && (plan[i].route.dest.len == 32 || plan[i].ensure)
    {
      SplitPlanAt(os, c, i);
    }
  }

  // ---- Linux ----

  /** Metric 0 is the lowest there is: nothing in the initial table looks like a new IPv4 route of the plan. */
  lemma LinuxV4Unlike(t0: RouteTable, item: Item)
    requires item.route.metric == 0 && !Taken(Linux, t0, item.route)
    ensures Unlike(Linux, t0, item)
  {
  }

  lemma LinuxPlanItems(c: Setup)
    ensures var plan := LinuxPlan(c);
            forall i :: 0 <= i < |plan| ==>
              !plan[i].ensure && (plan[i].route.metric == 0 || i == |c.ips| + 1)
              && (plan[i] == Default6(c) <==> i == |c.ips| + 1)
  {
  }

  /** A command of the plan works and its route is new, judged by the initial table. */
  predicate LinuxStacks(t0: RouteTable, c: Setup, ok: seq<bool>, i: nat)
    requires i < |ok| <= |c.ips| + 2
  {
    ok[i] && !Taken(Linux, t0, LinuxPlan(c)[i].route)
  }

  lemma LinuxStacksIsStacks(t0: RouteTable, c: Setup, ok: seq<bool>)
    requires |ok| <= |c.ips| + 2
    ensures forall i :: 0 <= i < |ok| ==>
              (Stacks(Linux, t0, LinuxPlan(c)[..|ok|], ok, i) <==> LinuxStacks(t0, c, ok, i))
  {
    hide Taken, LinuxPlan;
    LinuxPlanItems(c);
  }

  /** Every undo command of a route that was added works. */
  predicate LinuxUndone(t0: RouteTable, c: Setup, ok: seq<bool>, stuck: set<Item>)
    requires |ok| <= |c.ips| + 2
  {
    forall i :: 0 <= i < |ok| && LinuxStacks(t0, c, ok, i) ==> LinuxPlan(c)[i] !in stuck
  }

  /** An error return: the bypasses were tried, the IPv4 default failed, everything is undone.  The table is
      the initial one, whatever it was and whichever adds failed, if and only if no undo fails. */
  lemma LinuxErrorRestoresIff(t0: RouteTable, c: Setup, ok: seq<bool>, stuck: set<Item>)
    requires |ok| == |c.ips| + 1
    ensures Revert(Linux, Tries(Linux, t0, LinuxPlan(c)[..|ok|], ok), stuck) == t0 <==> LinuxUndone(t0, c, ok, stuck)
  {
    hide Tries, Pops, Taken, Sound, Unlike, LinuxPlan, Stacks;
    var plan := LinuxPlan(c)[..|ok|];
    LinuxPlanSound(c, |ok|);
    LinuxPlanItems(c);
    LinuxStacksIsStacks(t0, c, ok);
    RevertRestoresIff(Linux, t0, plan, ok, stuck);
    forall i | 0 <= i < |ok| && LinuxStacks(t0, c, ok, i) ensures Unlike(Linux, t0, plan[i]) {
      LinuxV4Unlike(t0, plan[i]);
    }
  }

  /** An IPv6 default through the tunnel that a delete without a metric would reach first. */
  predicate LowerDefault6(c: Setup, q: Route) {
    q.dest == P6(0, 0) && q.via == GW6 && q.dev == c.tun && q.metric < 1024
  }

  /** The IPv6 default is added and a lower one is already there. */
  predicate Default6Misread(t0: RouteTable, c: Setup, ok: seq<bool>)
    requires |ok| == |c.ips| + 2
  {
    LinuxStacks(t0, c, ok, |c.ips| + 1) && exists q :: q in t0 && LowerDefault6(c, q)
  }

  lemma Default6UnlikeIff(t0: RouteTable, c: Setup)
    requires !Taken(Linux, t0, Default6(c).route)
    ensures Unlike(Linux, t0, Default6(c)) <==> !exists q :: q in t0 && LowerDefault6(c, q)
  {
    forall q | q in t0 ensures LookAlike(Linux, q, Default6(c)) <==> LowerDefault6(c, q) {
      assert !SameSlot(Linux, q, Default6(c).route);
    }
  }

  /** A success return followed by `revert` restores the table exactly when every undo works and the IPv6 default
      could not be added or no IPv6 default through the tunnel with a lower metric was there before. */
  lemma LinuxSuccessRestoresIff(t0: RouteTable, c: Setup, ok: seq<bool>, stuck: set<Item>)
    requires |ok| == |c.ips| + 2
    ensures Revert(Linux, Tries(Linux, t0, LinuxPlan(c), ok), stuck) == t0
            <==> LinuxUndone(t0, c, ok, stuck) && !Default6Misread(t0, c, ok)
  {
    hide Tries, Pops, Taken, Sound, Unlike, Stacks;
    var plan, n := LinuxPlan(c), |c.ips| + 1;
    assert plan[..|ok|] == plan && plan[n] == Default6(c);
    LinuxPlanSound(c, |ok|);
    LinuxPlanItems(c);
    LinuxStacksIsStacks(t0, c, ok);
    RevertRestoresIff(Linux, t0, plan, ok, stuck);
    forall i | 0 <= i < |ok| && LinuxStacks(t0, c, ok, i)
      ensures Unlike(Linux, t0, plan[i]) <==> i != n || !Default6Misread(t0, c, ok)
    {
      if i == n { Default6UnlikeIff(t0, c); } else { LinuxV4Unlike(t0, plan[i]); }
    }
  }

  // ---- Darwin and Windows: split default routes ----

  /** Darwin: undoing everything restores every initial table, after every pattern of failing adds, if and only
      if no undo command of an added route fails. */
  lemma DarwinRevertRestoresIff(t0: RouteTable, c: Setup, ok: seq<bool>, stuck: set<Item>)
    requires |ok| <= |SplitPlan(Darwin, c)|
    ensures var plan := SplitPlan(Darwin, c)[..|ok|];
            Revert(Darwin, Tries(Darwin, t0, plan, ok), stuck) == t0
            <==> forall i :: 0 <= i < |ok| && Stacks(Darwin, t0, plan, ok, i) ==> plan[i] !in stuck
  {
    hide SplitPlan, Tries, Pops, Sound, Taken, Unlike;
    var plan := SplitPlan(Darwin, c)[..|ok|];
    SplitPlanSound(Darwin, c, |ok|);
    RevertRestoresIff(Darwin, t0, plan, ok, stuck);
    forall i | 0 <= i < |ok| && Stacks(Darwin, t0, plan, ok, i)
      ensures !Taken(Darwin, t0, plan[i].route) && Unlike(Darwin, t0, plan[i])
    {
      SplitPlanAt(Darwin, c, i);
      DarwinUnlike(t0, plan[i]);
    }
  }

  lemma DarwinUnlike(t0: RouteTable, item: Item)
    requires !Taken(Darwin, t0, item.route)
    ensures Unlike(Darwin, t0, item)
  {
    assert forall q :: q in t0 ==> !SameSlot(Darwin, q, item.route);
  }

  /** A route that Windows' interface-blind removal would take for the item's own. */
  predicate SameDestAndHop(q: Route, item: Item) {
    item.anyDev && q.dest == item.route.dest && q.via == item.route.via
  }

  lemma WindowsUnlikeIff(t0: RouteTable, item: Item)
    requires item.anyDev || !Taken(Windows, t0, item.route)
    ensures Unlike(Windows, t0, item) <==> !exists q :: q in t0 && SameDestAndHop(q, item)
  {
    if Unlike(Windows, t0, item) {
      assert forall q :: q in t0 && SameDestAndHop(q, item) ==> LookAlike(Windows, q, item);
    } else {
      var q :| q in t0 && LookAlike(Windows, q, item);
      assert item.anyDev || SameSlot(Windows, q, item.route);
    }
  }

  /** What makes a planned route whose command stacked leave a trace: its removal fails and the route was new, or
      works and the initial table has a route with the destination and next hop of a host or loopback route. */
  predicate WindowsTrace(t0: RouteTable, stuck: set<Item>, item: Item) {
    if item in stuck then !Taken(Windows, t0, item.route) else exists q :: q in t0 && SameDestAndHop(q, item)
  }

  /** Windows: undoing everything restores the table exactly when no planned route leaves a trace. */
  lemma WindowsRevertRestoresIff(t0: RouteTable, c: Setup, ok: seq<bool>, stuck: set<Item>)
    requires |ok| <= |SplitPlan(Windows, c)|
    ensures var plan := SplitPlan(Windows, c)[..|ok|];
            Revert(Windows, Tries(Windows, t0, plan, ok), stuck) == t0
            <==> forall i :: 0 <= i < |ok| && Stacks(Windows, t0, plan, ok, i) ==> !WindowsTrace(t0, stuck, plan[i])
  {
    hide SplitPlan, Tries, Pops, Sound, Taken, Unlike;
    var plan := SplitPlan(Windows, c)[..|ok|];
    SplitPlanSound(Windows, c, |ok|);
    RevertRestoresIff(Windows, t0, plan, ok, stuck);
    forall i | 0 <= i < |ok| && Stacks(Windows, t0, plan, ok, i)
      ensures Unlike(Windows, t0, plan[i]) <==> !exists q :: q in t0 && SameDestAndHop(q, plan[i])
    {
      SplitPlanAt(Windows, c, i);
      WindowsUnlikeIff(t0, plan[i]);
    }
  }

  /** The usual Windows host has the loopback route from the start: whenever the script and its removal ran
      without error, that route is gone after the revert. */
  lemma WindowsLosesLoopback(t0: RouteTable, c: Setup, ok: seq<bool>, stuck: set<Item>, q: Route)
    requires |ok| == |c.ips| + 5 && ok[|c.ips|] && Localhost(c) !in stuck
    requires q in t0 && q.dest == P4(0x7F00_0000, 8) && q.via == V4(0) && q.dev == c.lo
    ensures q !in Revert(Windows, Tries(Windows, t0, SplitPlan(Windows, c), ok), stuck)
  {
    var plan := SplitPlan(Windows, c);
    assert plan[..|c.ips| + 5] == plan && plan[|c.ips|] == Localhost(c);
    var p := Tries(Windows, t0, plan, ok);
    hide SplitPlan, Tries, Pops, Taken;
    SplitPlanSound(Windows, c, |c.ips| + 5);
    StackIff(Windows, t0, plan, ok);
    assert Stacks(Windows, t0, plan, ok, |c.ips|);
    var j :| 0 <= j < |p.stack| && p.stack[j] == Localhost(c);
    NamedIsGone(Windows, p, stuck, j, q);
  }

  lemma NamedIsGone(os: Platform, p: Progress, stuck: set<Item>, j: nat, q: Route)
    requires j < |p.stack| && p.stack[j] !in stuck && !os.Linux? && Named(os, q, p.stack[j])
    ensures q !in Revert(os, p, stuck)
  {
    var m := |p.stack| - 1 - j;
    PopsStack(os, p, stuck, m);
    PopsOnlyShrink(os, p, stuck, m + 1, |p.stack|);
    assert q !in Deleted(os, Pops(os, p, stuck, m).table, p.stack[j]);
  }

  /** When the first half-space route fails, `Apply` returns an error without undoing anything: the table is the
      initial one exactly when every earlier command that worked found its route there already. */
  lemma FirstHalfFailureRestoresIff(os: Platform, t0: RouteTable, c: Setup, ok: seq<bool>)
    requires !os.Linux? && |ok| == |SplitFirst(os, c)|
    ensures var first := SplitFirst(os, c);
            Tries(os, t0, first, ok).table == t0 <==>
              forall i :: 0 <= i < |first| && ok[i] ==> Taken(os, t0, first[i].route)
  {
    TriesAddNothingIff(os, t0, SplitFirst(os, c), ok);
  }

  // ---- Where addresses go, on every platform and at every moment of a run ----

  function PlanOf(os: Platform, c: Setup): (plan: seq<Item>)
    ensures |c.ips| + 2 <= |plan|
  {
    if os.Linux? then LinuxPlan(c) else SplitPlan(os, c)
  }

  lemma PlanSound(os: Platform, c: Setup, k: nat)
    requires k <= |PlanOf(os, c)|
    ensures Sound(os, PlanOf(os, c)[..k])
  {
    if os.Linux? { LinuxPlanSound(c, k); } else { SplitPlanSound(os, c, k); }
  }

  /** The route of the plan that takes an address into the tunnel: the default or a half. */
  function Wide(os: Platform, c: Setup, n: V4Bits): Item {
    if os.Linux? then Default4(c) else Half(os, P4(if n < HIGH4 then 0 else HIGH4, 1), c)
  }

  function WideAt(os: Platform, c: Setup, n: V4Bits): nat {
    if os.Linux? then |c.ips| else |SplitFirst(os, c)| + if n < HIGH4 then 0 else 1
  }

  lemma WideHolds(os: Platform, c: Setup, n: V4Bits)
    ensures var d := Wide(os, c, n).route.dest; d.Contains(V4(n)) && d.Masked() == d && d.len <= 1
  {
    DefaultHolds(n);
    HalfHolds(n);
    HalfMasked();
  }

  lemma DefaultHolds(n: V4Bits)
    ensures var d: Dest := P4(0, 0); d.Contains(V4(n)) && d.Masked() == d
  {
    Pow2UpTo32();
  }

  lemma HalfMasked()
    ensures P4(0, 1).Masked() == P4(0, 1) && P4(HIGH4, 1).Masked() == P4(HIGH4, 1)
  {
    Pow2UpTo32();
  }

  /** What the plan may hold for an address: its host route, the loopback route and the wide one. */
  lemma PlanItem(os: Platform, c: Setup, i: nat)
    requires i < |PlanOf(os, c)|
    ensures var item := PlanOf(os, c)[i];
            && (i < |c.ips| ==> item == Bypass(os, c, c.ips[i]))
            && (i < |c.ips| <==> item.route.dest.P4? && item.route.dest.len == 32)
            && (item.ensure ==> item == Localhost(c) && os.Windows?)
            && (!os.Windows? && item.route.dest.P4? ==> item.route.metric == 0)
            && (item.route.dest.P4? && item.route.dest.len != 32 ==>
                  (os.Windows? && item == Localhost(c)) || exists n :: item == Wide(os, c, n))
  {
    if !os.Linux? { SplitPlanAt(os, c, i); }
    var item := PlanOf(os, c)[i];
    assert Wide(os, c, 0) in [Default4(c), Half(os, P4(0, 1), c)];
    assert Wide(os, c, HIGH4) in [Default4(c), Half(os, P4(HIGH4, 1), c)];
    if !os.Linux? && |SplitFirst(os, c)| <= i < |SplitFirst(os, c)| + 2 {
      assert item == Wide(os, c, if i == |SplitFirst(os, c)| then 0 else HIGH4);
    }
  }

  lemma WideInPlan(os: Platform, c: Setup, n: V4Bits)
    ensures WideAt(os, c, n) < |PlanOf(os, c)| && PlanOf(os, c)[WideAt(os, c, n)] == Wide(os, c, n)
  {
  }

  /** The first `|ok|` adds were tried, then `m` undo actions ran, those in `stuck` in vain. */
  ghost function At(os: Platform, t0: RouteTable, c: Setup, ok: seq<bool>, stuck: set<Item>, m: nat): Progress
    requires |ok| <= |PlanOf(os, c)|
  {
    Pops(os, Tries(os, t0, PlanOf(os, c)[..|ok|], ok), stuck, m)
  }

  /** There is such a moment. */
  ghost predicate Moment(os: Platform, t0: RouteTable, c: Setup, ok: seq<bool>, stuck: set<Item>, m: nat) {
    |ok| <= |PlanOf(os, c)| && m <= |At(os, t0, c, ok, stuck, 0).stack|
  }

  /** A new route of the plan and the initial routes are all there is for its destination. */
  lemma NewAt(os: Platform, t0: RouteTable, c: Setup, ok: seq<bool>, stuck: set<Item>, m: nat, r: Route)
    requires Moment(os, t0, c, ok, stuck, m) && New(os, t0, At(os, t0, c, ok, stuck, m).table, r)
    requires os.Linux? && m > 0 ==> r.metric == 0
    ensures forall q: Route :: q.dest == r.dest ==> (q in At(os, t0, c, ok, stuck, m).table <==> q in t0 || q == r)
  {
    hide Tries, Pops, Sound, Inv, Grown, New;
    var plan := PlanOf(os, c)[..|ok|];
    var p := Tries(os, t0, plan, ok);
    PopsZero(os, p, stuck);
    PlanSound(os, c, |ok|);
    TriesKeepInv(os, t0, plan, ok);
    NewRouteAlone(os, t0, plan, p, stuck, m, r);
  }

  /** While the host route of an address is in, the address goes to the original gateway: on Linux and Darwin
      always, on Windows exactly when the initial table has no rival for it. */
  lemma BypassWinsIff(os: Platform, t0: RouteTable, c: Setup, ok: seq<bool>, stuck: set<Item>, m: nat, n: V4Bits)
    requires Moment(os, t0, c, ok, stuck, m)
    requires New(os, t0, At(os, t0, c, ok, stuck, m).table, Bypass(os, c, n).route)
    ensures ResolvesTo(At(os, t0, c, ok, stuck, m).table, V4(n), c.gw)
            <==> !exists q :: Rival(t0, q, Bypass(os, c, n).route)
    ensures !os.Windows? ==> !exists q :: Rival(t0, q, Bypass(os, c, n).route)
  {
    hide At, ResolvesTo, Taken, Rival;
    var t, r := At(os, t0, c, ok, stuck, m).table, Bypass(os, c, n).route;
    NewAt(os, t0, c, ok, stuck, m, r);
    FullLengthIsItself(r.dest, V4(n));
    forall q | q in t && q.dest.Contains(V4(n)) ensures q.dest.len <= 32 && (q.dest.len == 32 ==> q.dest == r.dest) {
      if q.dest.len == 32 { FullLengthIsItself(q.dest, V4(n)); }
    }
    AddedRouteWinsIff(t0, t, r, V4(n));
    if !os.Windows? {
      forall q ensures !Rival(t0, q, r) { NewHasNoRival(os, t0, r, q); }
    }
  }

  /** While the wide route for an address is in and nothing longer covers it, the address goes to the tunnel: on
      Linux and Darwin always, on Windows exactly when the initial table has no rival for the half. */
  lemma TunnelTakesTheRestIff(os: Platform, t0: RouteTable, c: Setup, ok: seq<bool>, stuck: set<Item>,
                              m: nat, n: V4Bits)
    requires Moment(os, t0, c, ok, stuck, m) && Canonical(t0)
    requires New(os, t0, At(os, t0, c, ok, stuck, m).table, Wide(os, c, n).route)
    requires NoneLonger(At(os, t0, c, ok, stuck, m).table, V4(n), Wide(os, c, n).route.dest.len)
    ensures ResolvesTo(At(os, t0, c, ok, stuck, m).table, V4(n), GW4)
            <==> !exists q :: Rival(t0, q, Wide(os, c, n).route)
    ensures !os.Windows? ==> !exists q :: Rival(t0, q, Wide(os, c, n).route)
  {
    hide ResolvesTo, Taken, Rival;
    var t, r := At(os, t0, c, ok, stuck, m).table, Wide(os, c, n).route;
    NewAt(os, t0, c, ok, stuck, m, r);
    WideHolds(os, c, n);
    forall q | q in t && q.dest.Contains(V4(n)) && q.dest.len == r.dest.len ensures q.dest == r.dest {
      SameLengthAsWide(os, t0, c, ok, stuck, m, q, n);
    }
    AddedRouteWinsIff(t0, t, r, V4(n));
    if !os.Windows? {
      forall q ensures !Rival(t0, q, r) { NewHasNoRival(os, t0, r, q); }
    }
  }

  predicate NoneLonger(t: RouteTable, a: Addr, len: nat) {
    forall q :: q in t && q.dest.Contains(a) ==> q.dest.len <= len
  }

  lemma SameLengthSameDest(d: Dest, e: Dest, a: Addr)
    requires d.Contains(a) && e.Contains(a) && d.len == e.len && d.Masked() == d && e.Masked() == e
    ensures d == e
  {
  }

  lemma SameLengthAsWide(os: Platform, t0: RouteTable, c: Setup, ok: seq<bool>, stuck: set<Item>, m: nat,
                         q: Route, n: V4Bits)
    requires Moment(os, t0, c, ok, stuck, m) && q in At(os, t0, c, ok, stuck, m).table && Canonical(t0)
    requires q.dest.Contains(V4(n)) && q.dest.len == Wide(os, c, n).route.dest.len
    ensures q.dest == Wide(os, c, n).route.dest
  {
    hide At;
    WideHolds(os, c, n);
    if q in t0 {
      SameLengthSameDest(q.dest, Wide(os, c, n).route.dest, V4(n));
    } else {
      var i := TableItem(os, t0, c, ok, stuck, m, q);
      CoveringItem(os, c, i, n);
    }
  }

  /** Every route of the table that is not an initial one is planned, and new. */
  lemma TableItem(os: Platform, t0: RouteTable, c: Setup, ok: seq<bool>, stuck: set<Item>, m: nat, q: Route)
    returns (i: nat)
    requires Moment(os, t0, c, ok, stuck, m) && q in At(os, t0, c, ok, stuck, m).table && q !in t0
    ensures i < |ok| && PlanOf(os, c)[i].route == q && !Taken(os, t0, q)
  {
    hide Tries, Pops, Sound, Taken, PlanOf;
    var plan := PlanOf(os, c)[..|ok|];
    var p := Tries(os, t0, plan, ok);
    PopsZero(os, p, stuck);
    PlanSound(os, c, |ok|);
    TriesKeepInv(os, t0, plan, ok);
    PopsOnlyShrink(os, p, stuck, 0, m);
    assert q in Added(os, t0, p.stack);
    var j :| 0 <= j < |p.stack| && p.stack[j].route == q;
    i :| 0 <= i < |plan| && plan[i] == p.stack[j];
  }

  /** A planned route of the table that covers an address is its host route, the loopback route or the wide one. */
  lemma CoveringItem(os: Platform, c: Setup, i: nat, n: V4Bits)
    requires i < |PlanOf(os, c)| && PlanOf(os, c)[i].route.dest.Contains(V4(n))
    ensures var item := PlanOf(os, c)[i];
            item == Bypass(os, c, n) || (os.Windows? && item == Localhost(c)) || item == Wide(os, c, n)
  {
    var item := PlanOf(os, c)[i];
    PlanItem(os, c, i);
    if i < |c.ips| {
      FullLengthIsItself(item.route.dest, V4(n));
    } else if item != Localhost(c) {
      var k :| item == Wide(os, c, k);
      HalfHolds(n);
    }
  }

  lemma HalfHolds(n: V4Bits)
    ensures P4(0, 1).Contains(V4(n)) <==> n < HIGH4
    ensures P4(HIGH4, 1).Contains(V4(n)) <==> n >= HIGH4
  {
    Pow2UpTo32();
  }

  // ---- Loop freedom ----

  /** Undo actions are stacked in the order of the plan. */
  predicate InPlanOrder(plan: seq<Item>, stack: seq<Item>) {
    forall i, j :: 0 <= i < j < |stack| ==>
      exists a, b :: 0 <= a < b < |plan| && plan[a] == stack[i] && plan[b] == stack[j]
  }

  lemma {:induction false} StackFollowsPlan(os: Platform, t0: RouteTable, plan: seq<Item>, ok: seq<bool>)
    requires |ok| == |plan|
    ensures var p := Tries(os, t0, plan, ok);
            InPlanOrder(plan, p.stack) && forall i :: 0 <= i < |p.stack| ==> p.stack[i] in plan
  {
    if plan != [] {
      var n := |plan| - 1;
      StackFollowsPlan(os, t0, plan[..n], ok[..n]);
      var p, r := Tries(os, t0, plan[..n], ok[..n]), Tries(os, t0, plan, ok);
      forall i, j | 0 <= i < j < |r.stack|
        ensures exists a, b :: 0 <= a < b < |plan| && plan[a] == r.stack[i] && plan[b] == r.stack[j]
      {
        if j < |p.stack| {
          var a, b :| 0 <= a < b < |plan[..n]| && plan[..n][a] == p.stack[i] && plan[..n][b] == p.stack[j];
          assert plan[a] == r.stack[i] && plan[b] == r.stack[j];
        } else {
          var a :| 0 <= a < n && plan[..n][a] == p.stack[i];
          assert plan[a] == r.stack[i] && plan[n] == r.stack[j];
        }
      }
      forall i | 0 <= i < |r.stack| ensures r.stack[i] in plan {
        if i < |p.stack| { assert p.stack[i] in plan[..n]; }
      }
    }
  }

  /** Host routes are stacked below everything else. */
  lemma HostsFirst(os: Platform, c: Setup, k: nat, stack: seq<Item>, b: nat, d: nat)
    requires k <= |PlanOf(os, c)| && InPlanOrder(PlanOf(os, c)[..k], stack) && b < |stack| && d < |stack|
    requires stack[b].route.dest.P4? && stack[b].route.dest.len == 32 && stack[d].route.dest.len <= 1
    ensures b < d
  {
    hide PlanOf;
    var plan := PlanOf(os, c)[..k];
    forall x | 0 <= x < k ensures x < |c.ips| <==> plan[x].route.dest.P4? && plan[x].route.dest.len == 32 {
      PlanItem(os, c, x);
    }
  }

  /** Loop freedom after every command of `Apply` and of `revert`, whatever other undo commands fail: as long as the
      undo of the wide route does its work, and while that route is in the table, the host route of every proxy
      address that was bypassed is in the table too, and the address goes to the original gateway (on Windows, exactly
      when the initial table has no rival for its host route). */
  lemma LoopFree(os: Platform, t0: RouteTable, c: Setup, ok: seq<bool>, stuck: set<Item>, m: nat, b: nat)
    requires Moment(os, t0, c, ok, stuck, m) && b < |c.ips| && b < |ok|
    requires Stacks(os, t0, PlanOf(os, c)[..|ok|], ok, b)
    requires New(os, t0, At(os, t0, c, ok, stuck, m).table, Wide(os, c, c.ips[b]).route)
    requires Wide(os, c, c.ips[b]) !in stuck
    ensures New(os, t0, At(os, t0, c, ok, stuck, m).table, Bypass(os, c, c.ips[b]).route)
    ensures ResolvesTo(At(os, t0, c, ok, stuck, m).table, V4(c.ips[b]), c.gw)
            <==> !exists q :: Rival(t0, q, Bypass(os, c, c.ips[b]).route)
    ensures !os.Windows? ==> ResolvesTo(At(os, t0, c, ok, stuck, m).table, V4(c.ips[b]), c.gw)
  {
    hide ResolvesTo, Rival, Tries, Pops, Taken, PlanOf;
    HostStillIn(os, t0, c, ok, stuck, m, b);
    BypassWinsIff(os, t0, c, ok, stuck, m, c.ips[b]);
  }

  lemma HostStillIn(os: Platform, t0: RouteTable, c: Setup, ok: seq<bool>, stuck: set<Item>, m: nat, b: nat)
    requires Moment(os, t0, c, ok, stuck, m) && b < |c.ips| && b < |ok|
    requires Stacks(os, t0, PlanOf(os, c)[..|ok|], ok, b)
    requires New(os, t0, At(os, t0, c, ok, stuck, m).table, Wide(os, c, c.ips[b]).route)
    requires Wide(os, c, c.ips[b]) !in stuck
    ensures New(os, t0, At(os, t0, c, ok, stuck, m).table, Bypass(os, c, c.ips[b]).route)
  {
    hide Tries, Pops, Taken, Sound, Grown, PlanOf, InPlanOrder;
    var plan, w := PlanOf(os, c)[..|ok|], Wide(os, c, c.ips[b]);
    var p := Tries(os, t0, plan, ok);
    PopsZero(os, p, stuck);
    PlanSound(os, c, |ok|);
    PlanItem(os, c, b);
    TriesKeepInv(os, t0, plan, ok);
    GrownMeans(os, t0, p);
    StackIff(os, t0, plan, ok);
    StackFollowsPlan(os, t0, plan, ok);
    var d := NewIsStacked(os, t0, p, stuck, m, w.route);
    assert p.stack[d] == w by { OnlyWide(os, c, |ok|, p.stack[d], c.ips[b]); }
    assert plan[b] in p.stack;
    var x :| 0 <= x < |p.stack| && p.stack[x] == plan[b];
    HostsFirst(os, c, |ok|, p.stack, x, d);
    OthersStay(os, p, stuck, m, plan[b].route);
  }

  lemma OnlyWide(os: Platform, c: Setup, k: nat, item: Item, n: V4Bits)
    requires k <= |PlanOf(os, c)| && item in PlanOf(os, c)[..k] && item.route == Wide(os, c, n).route
    ensures item == Wide(os, c, n)
  {
    hide PlanOf;
    var i :| 0 <= i < k && PlanOf(os, c)[i] == item;
    WideHolds(os, c, n);
    CoveringItem(os, c, i, n);
  }

  // ---- Linux and Darwin: the whole routing of every IPv4 address ----

  /** Where an address goes, from the initial table and the two routes a run may have added for it. */
  ghost predicate Expected(os: Platform, t0: RouteTable, c: Setup, hostIn: bool, wideIn: bool, n: V4Bits, via: Addr) {
    if hostIn then via == c.gw
    else if wideIn && NoneLonger(t0, V4(n), Wide(os, c, n).route.dest.len) then via == GW4
    else ResolvesTo(t0, V4(n), via)
  }

  /** An initial IPv4 route stays whatever is undone. */
  lemma {:induction false} InitialStays(os: Platform, t0: RouteTable, p: Progress, stuck: set<Item>, m: nat, q: Route)
    requires !os.Windows? && m <= |p.stack| && DistinctDests(p.stack) && Grown(os, t0, p) && q in t0 && q.dest.P4?
    requires forall i :: 0 <= i < |p.stack| ==>
               !Taken(os, t0, p.stack[i].route) && (p.stack[i].route.dest.P4? ==> p.stack[i].route.metric == 0)
    ensures q in Pops(os, p, stuck, m).table
  {
    hide Deleted, Grown;
    GrownMeans(os, t0, p);
    if m > 0 {
      InitialStays(os, t0, p, stuck, m - 1, q);
      PopsStack(os, p, stuck, m - 1);
      var r := Pops(os, p, stuck, m - 1);
      var item := r.stack[|r.stack| - 1];
      if item !in stuck {
        OthersStay(os, p, stuck, m - 1, item.route);
        DeleteSparesInitial(os, t0, r.table, item, q);
      }
    }
  }

  lemma DeleteSparesInitial(os: Platform, t0: RouteTable, t: RouteTable, item: Item, q: Route)
    requires !os.Windows? && q in t0 && q in t && item.route in t && q.dest.P4?
    requires !Taken(os, t0, item.route) && (item.route.dest.P4? ==> item.route.metric == 0)
    ensures q in Deleted(os, t, item)
  {
    assert Named(os, item.route, item) && !SameSlot(os, q, item.route);
  }

  /** Routes that some initial one beats, by length or metric, change nothing. */
  lemma SameLookup(t0: RouteTable, t: RouteTable, a: Addr, via: Addr)
    requires forall q :: q in t0 && q.dest.Contains(a) ==> q in t
    requires forall q :: q in t && q.dest.Contains(a) ==> q in t0 || exists z :: Beats(t0, z, q, a)
    ensures ResolvesTo(t, a, via) <==> ResolvesTo(t0, a, via)
  {
    forall r ensures Best(t, a, r) <==> Best(t0, a, r) {
    }
  }

  predicate Beats(t0: RouteTable, z: Route, q: Route, a: Addr) {
    && z in t0 && z.dest.Contains(a)
    && (z.dest.len > q.dest.len || (z.dest.len == q.dest.len && z.metric < q.metric))
  }

  lemma NotBoth(t: RouteTable, a: Addr, x: Addr, y: Addr)
    requires ResolvesTo(t, a, x)
    ensures ResolvesTo(t, a, y) <==> y == x
  {
  }

  /** The exact look-up of every IPv4 address for every next hop, after every command of `Apply` and of `revert` and
      whatever commands fail: the original gateway while its host route is in; else the tunnel while the wide route
      is in and nothing longer was there before; else as before the run. */
  lemma Routing(os: Platform, t0: RouteTable, c: Setup, ok: seq<bool>, stuck: set<Item>, m: nat, n: V4Bits, via: Addr)
    requires !os.Windows? && Moment(os, t0, c, ok, stuck, m) && Canonical(t0)
    ensures var t := At(os, t0, c, ok, stuck, m).table;
            ResolvesTo(t, V4(n), via) <==>
              Expected(os, t0, c, New(os, t0, t, Bypass(os, c, n).route), New(os, t0, t, Wide(os, c, n).route), n, via)
  {
    hide ResolvesTo, At, Rival, Taken, PlanOf;
    var t := At(os, t0, c, ok, stuck, m).table;
    var host, w := Bypass(os, c, n).route, Wide(os, c, n).route;
    if New(os, t0, t, host) {
      BypassWinsIff(os, t0, c, ok, stuck, m, n);
      NotBoth(t, V4(n), c.gw, via);
    } else {
      forall q | q in t && q.dest.Contains(V4(n)) ensures q in t0 || (q == w && New(os, t0, t, w)) {
        if q !in t0 {
          var i := TableItem(os, t0, c, ok, stuck, m, q);
          CoveringItem(os, c, i, n);
        }
      }
      if New(os, t0, t, w) && NoneLonger(t0, V4(n), w.dest.len) {
        TunnelTakesTheRestIff(os, t0, c, ok, stuck, m, n);
        NotBoth(t, V4(n), GW4, via);
      } else {
        forall q | q in t0 && q.dest.Contains(V4(n)) ensures q in t { InitialStaysAt(os, t0, c, ok, stuck, m, q); }
        forall q | q in t && q.dest.Contains(V4(n)) ensures q in t0 || exists z :: Beats(t0, z, q, V4(n)) {
          if q !in t0 {
            var z :| z in t0 && z.dest.Contains(V4(n)) && z.dest.len > w.dest.len;
            assert Beats(t0, z, q, V4(n));
          }
        }
        SameLookup(t0, t, V4(n), via);
      }
    }
  }

  lemma InitialStaysAt(os: Platform, t0: RouteTable, c: Setup, ok: seq<bool>, stuck: set<Item>, m: nat, q: Route)
    requires !os.Windows? && Moment(os, t0, c, ok, stuck, m) && q in t0 && q.dest.P4?
    ensures q in At(os, t0, c, ok, stuck, m).table
  {
    hide Tries, Pops, Taken, Sound, Grown, PlanOf;
    var plan := PlanOf(os, c)[..|ok|];
    var p := Tries(os, t0, plan, ok);
    PopsZero(os, p, stuck);
    PlanSound(os, c, |ok|);
    TriesKeepInv(os, t0, plan, ok);
    forall i | 0 <= i < |p.stack|
      ensures !Taken(os, t0, p.stack[i].route) && (p.stack[i].route.dest.P4? ==> p.stack[i].route.metric == 0)
    {
      assert p.stack[i] in plan;
      var a :| 0 <= a < |plan| && plan[a] == p.stack[i];
      PlanItem(os, c, a);
    }
    InitialStays(os, t0, p, stuck, m, q);
  }

  /** The same after the revert, from the inputs: only routes that were added and whose undo failed matter. */
  lemma RoutingAfterRevert(os: Platform, t0: RouteTable, c: Setup, ok: seq<bool>, stuck: set<Item>,
                           n: V4Bits, via: Addr)
    requires !os.Windows? && |ok| <= |PlanOf(os, c)| && Canonical(t0)
    ensures var plan := PlanOf(os, c)[..|ok|];
            var left := LeftOf(os, t0, plan, ok, stuck);
            ResolvesTo(Revert(os, Tries(os, t0, plan, ok), stuck), V4(n), via) <==>
              Expected(os, t0, c, Bypass(os, c, n).route in left, Wide(os, c, n).route in left, n, via)
  {
    hide ResolvesTo, Tries, Pops, Sound, PlanOf, LeftOf, New, Expected;
    var plan := PlanOf(os, c)[..|ok|];
    var p := Tries(os, t0, plan, ok);
    PlanSound(os, c, |ok|);
    PopsZero(os, p, stuck);
    Routing(os, t0, c, ok, stuck, |p.stack|, n, via);
    NewAtEndIff(os, t0, plan, ok, stuck, Bypass(os, c, n).route);
    NewAtEndIff(os, t0, plan, ok, stuck, Wide(os, c, n).route);
  }

  /** The exact condition for a loop after the revert, for a proxy address that was bypassed and whose wide route was
      added: it goes into the tunnel if and only if its own undo worked and either the wide route's failed, with
      nothing longer there before, or it went there before the run.  (If its own undo failed it goes to the original
      gateway.) */
  lemma LoopsIff(os: Platform, t0: RouteTable, c: Setup, ok: seq<bool>, stuck: set<Item>, b: nat)
    requires !os.Windows? && |ok| == |PlanOf(os, c)| && Canonical(t0) && b < |c.ips|
    requires Stacks(os, t0, PlanOf(os, c), ok, b) && Stacks(os, t0, PlanOf(os, c), ok, WideAt(os, c, c.ips[b]))
    ensures var ip := c.ips[b];
            ResolvesTo(Revert(os, Tries(os, t0, PlanOf(os, c), ok), stuck), V4(ip), GW4) <==>
              if Bypass(os, c, ip) in stuck then c.gw == GW4
              else (Wide(os, c, ip) in stuck && NoneLonger(t0, V4(ip), Wide(os, c, ip).route.dest.len))
                   || ResolvesTo(t0, V4(ip), GW4)
  {
    hide ResolvesTo, Tries, Pops, Sound, PlanOf, NoneLonger;
    var plan, ip := PlanOf(os, c), c.ips[b];
    assert plan[..|ok|] == plan;
    PlanItem(os, c, b);
    WideInPlan(os, c, ip);
    LeftIff(os, t0, c, ok, stuck, b);
    LeftIff(os, t0, c, ok, stuck, WideAt(os, c, ip));
    RoutingAfterRevert(os, t0, c, ok, stuck, ip, GW4);
  }

  lemma LeftIff(os: Platform, t0: RouteTable, c: Setup, ok: seq<bool>, stuck: set<Item>, i: nat)
    requires i < |ok| == |PlanOf(os, c)| && !os.Windows? && Stacks(os, t0, PlanOf(os, c), ok, i)
    ensures var plan := PlanOf(os, c); plan[i].route in LeftOf(os, t0, plan, ok, stuck) <==> plan[i] in stuck
  {
    hide PlanOf, Taken;
    var plan := PlanOf(os, c);
    assert plan[..|ok|] == plan;
    PlanSound(os, c, |ok|);
    PlanItem(os, c, i);
  }

  // ---- Right after the adds ----

  lemma NewAfterAdds(os: Platform, t0: RouteTable, c: Setup, ok: seq<bool>, i: nat)
    requires i < |ok| <= |PlanOf(os, c)| && !PlanOf(os, c)[i].ensure && Stacks(os, t0, PlanOf(os, c)[..|ok|], ok, i)
    ensures var p := Tries(os, t0, PlanOf(os, c)[..|ok|], ok);
            p == At(os, t0, c, ok, {}, 0) && New(os, t0, p.table, PlanOf(os, c)[i].route) && t0 <= p.table
  {
    hide PlanOf, Taken, Tries, Sound, Grown;
    var plan := PlanOf(os, c)[..|ok|];
    var p := Tries(os, t0, plan, ok);
    PopsZero(os, p, {});
    PlanSound(os, c, |ok|);
    TriesKeepInv(os, t0, plan, ok);
    GrownMeans(os, t0, p);
    StackIff(os, t0, plan, ok);
    assert plan[i] in p.stack;
  }

  /** With the wide route of an address in, and nothing longer covering it, it goes to the tunnel if and only if the
      initial table has no rival for that route, which on Linux and Darwin it never has; every initial route, the
      old default among them, is still there. */
  lemma TunnelAfterApplyIff(os: Platform, t0: RouteTable, c: Setup, ok: seq<bool>, n: V4Bits)
    requires WideAt(os, c, n) < |ok| <= |PlanOf(os, c)| && Canonical(t0)
    requires Stacks(os, t0, PlanOf(os, c)[..|ok|], ok, WideAt(os, c, n))
    requires NoneLonger(Tries(os, t0, PlanOf(os, c)[..|ok|], ok).table, V4(n), Wide(os, c, n).route.dest.len)
    ensures var t := Tries(os, t0, PlanOf(os, c)[..|ok|], ok).table;
            && t0 <= t
            && (ResolvesTo(t, V4(n), GW4) <==> !exists q :: Rival(t0, q, Wide(os, c, n).route))
            && (!os.Windows? ==> ResolvesTo(t, V4(n), GW4))
  {
    hide ResolvesTo, Rival, PlanOf, Tries, At, NoneLonger, New;
    WideInPlan(os, c, n);
    NewAfterAdds(os, t0, c, ok, WideAt(os, c, n));
    TunnelTakesTheRestIff(os, t0, c, ok, {}, 0, n);
  }

  /** A bypassed proxy address goes to the original gateway once its host route is in: on Linux and Darwin always, on
      Windows exactly when the initial table has no rival for that route. */
  lemma BypassAfterApplyIff(os: Platform, t0: RouteTable, c: Setup, ok: seq<bool>, b: nat)
    requires b < |c.ips| && b < |ok| <= |PlanOf(os, c)| && Stacks(os, t0, PlanOf(os, c)[..|ok|], ok, b)
    ensures var t := Tries(os, t0, PlanOf(os, c)[..|ok|], ok).table;
            && (ResolvesTo(t, V4(c.ips[b]), c.gw) <==> !exists q :: Rival(t0, q, Bypass(os, c, c.ips[b]).route))
            && (!os.Windows? ==> ResolvesTo(t, V4(c.ips[b]), c.gw))
  {
    hide ResolvesTo, Rival, PlanOf, Tries, At, New;
    PlanItem(os, c, b);
    NewAfterAdds(os, t0, c, ok, b);
    BypassWinsIff(os, t0, c, ok, {}, 0, c.ips[b]);
  }

  /** Windows: another tunnel's half of metric 0, and the commands working.  An address of the low half does not go to
      the tunnel. */
  lemma ForeignHalfWins(c: Setup, ok: seq<bool>, via: Addr, dev: string)
    requires c.ips == [] && |ok| == 5 && ok[1] && via != GW4
    ensures var t0 := {Route(P4(0, 1), 0, via, dev)};
            !ResolvesTo(Tries(Windows, t0, PlanOf(Windows, c)[..5], ok).table, V4(1), GW4)
  {
    var q := Route(P4(0, 1), 0, via, dev);
    var t0 := {q};
    WideInPlan(Windows, c, 1);
    assert Rival(t0, q, Wide(Windows, c, 1).route);
    assert Stacks(Windows, t0, PlanOf(Windows, c)[..5], ok, 1);
    HalfMasked();
    hide ResolvesTo, Tries, PlanOf, Rival, Stacks, Moment, At;
    ForeignHalfIsLongest(c, ok, q);
    TunnelAfterApplyIff(Windows, t0, c, ok, 1);
  }

  lemma ForeignHalfIsLongest(c: Setup, ok: seq<bool>, q: Route)
    requires c.ips == [] && |ok| == 5 <= |PlanOf(Windows, c)| && q.dest == P4(0, 1)
    ensures NoneLonger(Tries(Windows, {q}, PlanOf(Windows, c)[..5], ok).table, V4(1), 1)
  {
    hide Tries, PlanOf;
    var t := Tries(Windows, {q}, PlanOf(Windows, c)[..5], ok).table;
    PopsZero(Windows, Tries(Windows, {q}, PlanOf(Windows, c)[..5], ok), {});
    assert Moment(Windows, {q}, c, ok, {}, 0);
    forall r | r in t && r.dest.Contains(V4(1)) ensures r.dest.len <= 1 {
      if r !in {q} {
        var i := TableItem(Windows, {q}, c, ok, {}, 0, r);
        PlanItem(Windows, c, i);
        CoveringItem(Windows, c, i, 1);
        LoopbackHoldsNot();
      }
    }
  }

  lemma LoopbackHoldsNot()
    ensures !P4(0x7F00_0000, 8).Contains(V4(1))
  {
    Pow2UpTo32();
  }

  // ---- IPv6 ----

  /** The route of the plan that takes an IPv6 address into the tunnel. */
  function Wide6(os: Platform, c: Setup, n: V6Bits): Item {
    if os.Linux? then Default6(c) else Half(os, P6(if n < HIGH6 then 0 else HIGH6, 1), c)
  }

  function Wide6At(os: Platform, c: Setup, n: V6Bits): nat {
    if os.Linux? then |c.ips| + 1 else |SplitFirst(os, c)| + if n < HIGH6 then 2 else 3
  }

  /** The two halves of each family hold every address, each exactly one of them. */
  lemma HalvesHoldAll(n: V4Bits, k: V6Bits)
    ensures P4(0, 1).Contains(V4(n)) <==> n < 0x8000_0000
    ensures P4(HIGH4, 1).Contains(V4(n)) <==> n >= 0x8000_0000
    ensures P6(0, 1).Contains(V6(k)) <==> k < 0x8000_0000_0000_0000_0000_0000_0000_0000
    ensures P6(HIGH6, 1).Contains(V6(k)) <==> k >= 0x8000_0000_0000_0000_0000_0000_0000_0000
  {
    HalfHolds(n);
    Half6Holds(k);
  }

  lemma Half6Holds(n: V6Bits)
    ensures P6(0, 1).Contains(V6(n)) <==> n < HIGH6
    ensures P6(HIGH6, 1).Contains(V6(n)) <==> n >= HIGH6
  {
    hide Pow2;
    Pow2Above32();
    var low, high: Dest := P6(0, 1), P6(HIGH6, 1);
    assert low.Block() == HIGH6 && high.Block() == HIGH6;
    assert n / HIGH6 == if n < HIGH6 then 0 else 1;
    assert low.Contains(V6(n)) <==> n / HIGH6 == 0;
    assert high.Contains(V6(n)) <==> n / HIGH6 == 1;
  }

  lemma Half6Masked()
    ensures P6(0, 1).Masked() == P6(0, 1) && P6(HIGH6, 1).Masked() == P6(HIGH6, 1)
  {
    Pow2Above32();
  }

  lemma Default6Holds(n: V6Bits)
    ensures var d: Dest := P6(0, 0); d.Contains(V6(n)) && d.Masked() == d
  {
    Pow2Above32();
  }

  lemma Wide6Holds(os: Platform, c: Setup, n: V6Bits)
    ensures var r := Wide6(os, c, n).route;
            r.dest.Contains(V6(n)) && r.dest.Masked() == r.dest && r.dest.len <= 1 && r.via == GW6
  {
    Default6Holds(n);
    Half6Holds(n);
    Half6Masked();
  }

  lemma Wide6InPlan(os: Platform, c: Setup, n: V6Bits)
    ensures Wide6At(os, c, n) < |PlanOf(os, c)| && PlanOf(os, c)[Wide6At(os, c, n)] == Wide6(os, c, n)
    ensures !Wide6(os, c, n).ensure
  {
  }

  /** A planned route that covers an IPv6 address is its wide one. */
  lemma CoveringItem6(os: Platform, c: Setup, i: nat, n: V6Bits)
    requires i < |PlanOf(os, c)| && PlanOf(os, c)[i].route.dest.Contains(V6(n))
    ensures PlanOf(os, c)[i] == Wide6(os, c, n)
  {
    if !os.Linux? {
      SplitPlanAt(os, c, i);
      Half6Holds(n);
      var f := |SplitFirst(os, c)|;
      assert i == f + 2 ==> PlanOf(os, c)[i] == Half(os, P6(0, 1), c);
      assert i == f + 3 ==> PlanOf(os, c)[i] == Half(os, P6(HIGH6, 1), c);
    }
  }

  /** With its wide route in, and nothing longer covering it, an IPv6 address goes to the tunnel exactly when the
      initial table has no rival for that route: after the adds on every platform, and on Darwin and Windows at every
      moment of a run.  On Darwin there is never one. */
  lemma Tunnel6TakesTheRestIff(os: Platform, t0: RouteTable, c: Setup, ok: seq<bool>, stuck: set<Item>,
                               m: nat, n: V6Bits)
    requires Moment(os, t0, c, ok, stuck, m) && Canonical(t0) && (os.Linux? ==> m == 0)
    requires New(os, t0, At(os, t0, c, ok, stuck, m).table, Wide6(os, c, n).route)
    requires NoneLonger(At(os, t0, c, ok, stuck, m).table, V6(n), Wide6(os, c, n).route.dest.len)
    ensures ResolvesTo(At(os, t0, c, ok, stuck, m).table, V6(n), GW6)
            <==> !exists q :: Rival(t0, q, Wide6(os, c, n).route)
    ensures os.Darwin? ==> !exists q :: Rival(t0, q, Wide6(os, c, n).route)
  {
    hide ResolvesTo, Taken, Rival, At, PlanOf;
    var t, r := At(os, t0, c, ok, stuck, m).table, Wide6(os, c, n).route;
    NewAt(os, t0, c, ok, stuck, m, r);
    Wide6Holds(os, c, n);
    forall q | q in t && q.dest.Contains(V6(n)) && q.dest.len == r.dest.len ensures q.dest == r.dest {
      if q in t0 {
        SameLengthSameDest(q.dest, r.dest, V6(n));
      } else {
        var i := TableItem(os, t0, c, ok, stuck, m, q);
        CoveringItem6(os, c, i, n);
      }
    }
    AddedRouteWinsIff(t0, t, r, V6(n));
    if os.Darwin? {
      forall q ensures !Rival(t0, q, r) { NewHasNoRival(os, t0, r, q); }
    }
  }

  lemma Tunnel6AfterApplyIff(os: Platform, t0: RouteTable, c: Setup, ok: seq<bool>, n: V6Bits)
    requires Wide6At(os, c, n) < |ok| <= |PlanOf(os, c)| && Canonical(t0)
    requires Stacks(os, t0, PlanOf(os, c)[..|ok|], ok, Wide6At(os, c, n))
    requires NoneLonger(Tries(os, t0, PlanOf(os, c)[..|ok|], ok).table, V6(n), Wide6(os, c, n).route.dest.len)
    ensures var t := Tries(os, t0, PlanOf(os, c)[..|ok|], ok).table;
            && t0 <= t
            && (ResolvesTo(t, V6(n), GW6) <==> !exists q :: Rival(t0, q, Wide6(os, c, n).route))
            && (os.Darwin? ==> ResolvesTo(t, V6(n), GW6))
  {
    hide ResolvesTo, Rival, PlanOf, Tries, At, NoneLonger, New;
    Wide6InPlan(os, c, n);
    NewAfterAdds(os, t0, c, ok, Wide6At(os, c, n));
    Tunnel6TakesTheRestIff(os, t0, c, ok, {}, 0, n);
  }

  /** Where an IPv6 address goes: no host routes are added for this family, and the wide route wins when nothing
      longer was there before and nothing of lower metric for its destination. */
  ghost predicate Expected6(os: Platform, t0: RouteTable, c: Setup, wideIn: bool, n: V6Bits, via: Addr) {
    var w := Wide6(os, c, n).route;
    if wideIn && NoneLonger(t0, V6(n), w.dest.len) && Foremost(t0, w) then via == GW6
    else ResolvesTo(t0, V6(n), via)
  }

  predicate Foremost(t0: RouteTable, r: Route) {
    forall q :: q in t0 && q.dest == r.dest ==> q.metric > r.metric
  }

  /** No undo of the plan can take an initial route for its own. */
  predicate NoneMisread(os: Platform, t0: RouteTable, c: Setup) {
    os.Linux? ==> forall q :: q in t0 ==> !LowerDefault6(c, q)
  }

  /** The table at every moment, on Linux and Darwin. */
  lemma TableAt(os: Platform, t0: RouteTable, c: Setup, ok: seq<bool>, stuck: set<Item>, m: nat)
    requires !os.Windows? && Moment(os, t0, c, ok, stuck, m) && NoneMisread(os, t0, c)
    ensures t0 <= At(os, t0, c, ok, stuck, m).table
  {
    hide Tries, Pops, Taken, Sound, Unlike, PlanOf, Added, Left;
    var plan := PlanOf(os, c)[..|ok|];
    var p := Tries(os, t0, plan, ok);
    PopsZero(os, p, stuck);
    PlanSound(os, c, |ok|);
    TriesKeepInv(os, t0, plan, ok);
    forall i | 0 <= i < |p.stack| ensures Unlike(os, t0, p.stack[i]) {
      assert p.stack[i] in plan;
      var a :| 0 <= a < |plan| && plan[a] == p.stack[i];
      PlanUnlike(os, t0, c, a);
    }
    PopsLeave(os, t0, plan, p, stuck, m);
  }

  lemma PlanUnlike(os: Platform, t0: RouteTable, c: Setup, i: nat)
    requires !os.Windows? && i < |PlanOf(os, c)| && !Taken(os, t0, PlanOf(os, c)[i].route) && NoneMisread(os, t0, c)
    ensures Unlike(os, t0, PlanOf(os, c)[i])
  {
    hide Unlike, Taken;
    PlanItem(os, c, i);
    if os.Darwin? {
      DarwinUnlike(t0, PlanOf(os, c)[i]);
    } else {
      LinuxPlanItems(c);
      if i == |c.ips| + 1 { Default6UnlikeIff(t0, c); } else { LinuxV4Unlike(t0, PlanOf(os, c)[i]); }
    }
  }

  /** The exact look-up of every IPv6 address for every next hop, at every moment of a run and whatever fails. */
  lemma Routing6(os: Platform, t0: RouteTable, c: Setup, ok: seq<bool>, stuck: set<Item>, m: nat, n: V6Bits, via: Addr)
    requires !os.Windows? && Moment(os, t0, c, ok, stuck, m) && Canonical(t0) && NoneMisread(os, t0, c)
    ensures var t := At(os, t0, c, ok, stuck, m).table;
            ResolvesTo(t, V6(n), via) <==> Expected6(os, t0, c, New(os, t0, t, Wide6(os, c, n).route), n, via)
  {
    hide ResolvesTo, At, Rival, Taken, PlanOf, NoneMisread;
    var t, w := At(os, t0, c, ok, stuck, m).table, Wide6(os, c, n).route;
    TableAt(os, t0, c, ok, stuck, m);
    Wide6Holds(os, c, n);
    forall q | q in t && q.dest.Contains(V6(n)) ensures q in t0 || (q == w && New(os, t0, t, w)) {
      if q !in t0 {
        var i := TableItem(os, t0, c, ok, stuck, m, q);
        CoveringItem6(os, c, i, n);
      }
    }
    WideAmong(os, t0, t, w, V6(n), via);
  }

  /** One new route beside the initial ones: it decides, or it changes nothing. */
  lemma WideAmong(os: Platform, t0: RouteTable, t: RouteTable, w: Route, a: Addr, via: Addr)
    requires !os.Windows? && Canonical(t0) && t0 <= t && w.dest.Contains(a) && w.dest.Masked() == w.dest
    requires forall q :: q in t && q.dest.Contains(a) ==> q in t0 || (q == w && New(os, t0, t, w))
    ensures ResolvesTo(t, a, via) <==>
              if New(os, t0, t, w) && NoneLonger(t0, a, w.dest.len) && Foremost(t0, w) then via == w.via
              else ResolvesTo(t0, a, via)
  {
    hide ResolvesTo;
    if New(os, t0, t, w) && NoneLonger(t0, a, w.dest.len) && Foremost(t0, w) {
      forall q | q in t && q.dest.Contains(a) && q.dest.len == w.dest.len ensures q.dest == w.dest {
        if q in t0 { SameLengthSameDest(q.dest, w.dest, a); }
      }
      forall q: Route | q.dest == w.dest ensures q in t <==> q in t0 || q == w {
        assert q.dest.Contains(a);
      }
      AddedRouteWinsIff(t0, t, w, a);
      assert !exists q :: Rival(t0, q, w);
      NotBoth(t, a, w.via, via);
    } else {
      forall q | q in t && q.dest.Contains(a) ensures q in t0 || exists z :: Beats(t0, z, q, a) {
        if q !in t0 { BeatenWide(os, t0, w, a); }
      }
      SameLookup(t0, t, a, via);
    }
  }

  lemma BeatenWide(os: Platform, t0: RouteTable, w: Route, a: Addr)
    requires !os.Windows? && !Taken(os, t0, w) && w.dest.Contains(a)
    requires !NoneLonger(t0, a, w.dest.len) || !Foremost(t0, w)
    ensures exists z :: Beats(t0, z, w, a)
  {
    if !NoneLonger(t0, a, w.dest.len) {
      var z :| z in t0 && z.dest.Contains(a) && z.dest.len > w.dest.len;
      assert Beats(t0, z, w, a);
    } else {
      var z :| z in t0 && z.dest == w.dest && z.metric <= w.metric;
      assert !SameSlot(os, z, w);
      assert Beats(t0, z, w, a);
    }
  }

  /** Linux, without any condition: the exact IPv6 table at every moment of a run.  Once the undo of the default has
      worked, the lowest route it names is gone, which is the default itself unless a lower one was there. */
  lemma LinuxTable6(t0: RouteTable, c: Setup, ok: seq<bool>, stuck: set<Item>, m: nat, q: Route)
    requires Moment(Linux, t0, c, ok, stuck, m) && |ok| == |c.ips| + 2 && q.dest.P6?
    ensures var w, added := Default6(c), LinuxStacks(t0, c, ok, |c.ips| + 1);
            q in At(Linux, t0, c, ok, stuck, m).table <==>
              && (q in t0 || (added && q == w.route))
              && !(added && m > 0 && w !in stuck && Victim(Linux, t0 + {w.route}, q, w))
  {
    var plan := PlanOf(Linux, c)[..|ok|];
    assert plan == LinuxPlan(c);
    var p := Tries(Linux, t0, plan, ok);
    hide Tries, Pops, Taken, PlanOf, LinuxPlan, Victim, Grown, LinuxStacks;
    PopsZero(Linux, p, stuck);
    Default6OnTop(t0, c, ok);
    Table6AfterAdds(t0, c, p, q);
    if m > 0 && LinuxStacks(t0, c, ok, |c.ips| + 1) {
      PopsSplit(Linux, p, stuck, m);
      OnlyOtherDests(Linux, Pop(Linux, p, stuck), stuck, m - 1, q);
      forall x: Route | x.dest == P6(0, 0) ensures x in p.table <==> x in t0 || x == Default6(c).route {
        Table6AfterAdds(t0, c, p, x);
      }
      SameVictim(t0, p.table, Default6(c), q);
    } else if m > 0 {
      OnlyOtherDests(Linux, p, stuck, m, q);
    }
  }

  /** The IPv6 default is stacked last, and nothing below it is IPv6. */
  lemma Default6OnTop(t0: RouteTable, c: Setup, ok: seq<bool>)
    requires |ok| == |c.ips| + 2
    ensures var p := Tries(Linux, t0, LinuxPlan(c), ok);
            var top := if LinuxStacks(t0, c, ok, |c.ips| + 1) then 1 else 0;
            && Grown(Linux, t0, p) && top <= |p.stack|
            && (top == 1 ==> p.stack[|p.stack| - 1] == Default6(c) && !Taken(Linux, t0, Default6(c).route))
            && forall i :: 0 <= i < |p.stack| - top ==> p.stack[i].route.dest.P4?
  {
    var plan, n := LinuxPlan(c), |c.ips| + 1;
    var p0 := Tries(Linux, t0, plan[..n], ok[..n]);
    assert plan[n] == Default6(c) && plan[..n + 1] == plan;
    assert forall i :: 0 <= i < n ==> plan[i].route.dest.P4?;
    assert Tries(Linux, t0, plan, ok) == Try(Linux, p0, Default6(c), ok[n]);
    hide Tries, Taken, Sound, LinuxPlan, Grown;
    LinuxPlanSound(c, n);
    LinuxPlanSound(c, n + 1);
    TriesKeepInv(Linux, t0, plan, ok);
    TriesKeepInv(Linux, t0, plan[..n], ok[..n]);
    forall i | 0 <= i < |p0.stack| ensures p0.stack[i].route.dest.P4? {
      var a :| 0 <= a < n && plan[..n][a] == p0.stack[i];
    }
    TakenAtFreeDest(Linux, t0, p0, Default6(c).route);
  }

  lemma Table6AfterAdds(t0: RouteTable, c: Setup, p: Progress, q: Route)
    requires Grown(Linux, t0, p) && q.dest.P6?
    requires forall i :: 0 <= i < |p.stack| ==>
               p.stack[i].route.dest.P4? || (p.stack[i] == Default6(c) && !Taken(Linux, t0, Default6(c).route))
    ensures q in p.table <==> q in t0 || (q == Default6(c).route && Default6(c) in p.stack)
  {
    hide Taken;
    if q == Default6(c).route && Default6(c) in p.stack {
      var i :| 0 <= i < |p.stack| && p.stack[i] == Default6(c);
      assert q in Added(Linux, t0, p.stack);
    }
  }

  lemma {:induction false} PopsSplit(os: Platform, p: Progress, stuck: set<Item>, m: nat)
    requires m > 0
    ensures Pops(os, p, stuck, m) == Pops(os, Pop(os, p, stuck), stuck, m - 1)
  {
    if m > 1 { PopsSplit(os, p, stuck, m - 1); } else { PopsZero(os, p, stuck); }
  }

  /** Undoing routes for other destinations changes nothing here. */
  lemma OnlyOtherDests(os: Platform, p: Progress, stuck: set<Item>, m: nat, q: Route)
    requires m <= |p.stack| && forall i :: 0 <= i < |p.stack| ==> p.stack[i].route.dest != q.dest
    ensures q in Pops(os, p, stuck, m).table <==> q in p.table
  {
    PopsOnlyShrink(os, p, stuck, 0, m);
    if q in p.table { OthersStay(os, p, stuck, m, q); }
  }

  lemma SameVictim(t0: RouteTable, t: RouteTable, w: Item, q: Route)
    requires forall x: Route :: x.dest == w.route.dest ==> (x in t <==> x in t0 || x == w.route)
    ensures q.dest.P6? ==> (Victim(Linux, t, q, w) <==> Victim(Linux, t0 + {w.route}, q, w))
  {
  }

  /** The same after the revert, from the inputs. */
  lemma RoutingAfterRevert6(os: Platform, t0: RouteTable, c: Setup, ok: seq<bool>, stuck: set<Item>,
                            n: V6Bits, via: Addr)
    requires !os.Windows? && |ok| <= |PlanOf(os, c)| && Canonical(t0) && NoneMisread(os, t0, c)
    ensures var plan := PlanOf(os, c)[..|ok|];
            var left := LeftOf(os, t0, plan, ok, stuck);
            ResolvesTo(Revert(os, Tries(os, t0, plan, ok), stuck), V6(n), via) <==>
              Expected6(os, t0, c, Wide6(os, c, n).route in left, n, via)
  {
    hide ResolvesTo, Tries, Pops, Sound, PlanOf, Expected6, Unlike, Taken;
    var plan := PlanOf(os, c)[..|ok|];
    var p := Tries(os, t0, plan, ok);
    PlanSound(os, c, |ok|);
    PopsZero(os, p, stuck);
    Routing6(os, t0, c, ok, stuck, |p.stack|, n, via);
    forall i | 0 <= i < |plan| && Stacks(os, t0, plan, ok, i) ensures Unlike(os, t0, plan[i]) {
      PlanItem(os, c, i);
      PlanUnlike(os, t0, c, i);
    }
    RevertLeavesStuck(os, t0, plan, ok, stuck);
    InMeansTaken(os, t0, Wide6(os, c, n).route);
  }

  // ---- The commands ----

  /** The routes that the Linux commands name: `ip route add <ip>/32 via <gw> dev <dev>`, `ip route add default via
      198.18.0.1 dev <tun>` and `ip -6 route add default via fdfe:dcba:9876::1 dev <tun>`. */
  lemma LinuxCommands(c: Setup)
    ensures |LinuxPlan(c)| == |c.ips| + 2
    ensures forall i :: 0 <= i < |c.ips| ==>
              LinuxPlan(c)[i] == Item(Route(P4(c.ips[i], 32), 0, c.gw, c.dev), false, false)
    ensures LinuxPlan(c)[|c.ips|] == Item(Route(P4(0, 0), 0, V4(0xC612_0001), c.tun), false, false)
    ensures LinuxPlan(c)[|c.ips| + 1]
            == Item(Route(P6(0, 0), 1024, V6(0xfdfe_dcba_9876_0000_0000_0000_0000_0001), c.tun), false, false)
  {
  }

  /** The routes that the Darwin commands name: `route add -host <ip> <gw>`, then 0.0.0.0/1, 128.0.0.0/1, ::/1 and
      8000::/1. */
  lemma DarwinCommands(c: Setup)
    ensures var plan, n := SplitPlan(Darwin, c), |c.ips|;
            var gw4, gw6 := V4(0xC612_0001), V6(0xfdfe_dcba_9876_0000_0000_0000_0000_0001);
            && |plan| == n + 4
            && (forall i :: 0 <= i < n ==> plan[i] == Item(Route(P4(c.ips[i], 32), 0, c.gw, ""), false, false))
            && plan[n] == Item(Route(P4(0, 1), 0, gw4, ""), false, false)
            && plan[n + 1] == Item(Route(P4(0x8000_0000, 1), 0, gw4, ""), false, false)
            && plan[n + 2] == Item(Route(P6(0, 1), 0, gw6, ""), false, false)
            && plan[n + 3] == Item(Route(P6(0x8000_0000_0000_0000_0000_0000_0000_0000, 1), 0, gw6, ""), false, false)
  {
  }

  /** The routes that the Windows commands name, all of metric 1: the hosts by next hop, 127.0.0.0/8 on the loopback
      interface if it is not there, and the halves on the tunnel. */
  lemma WindowsCommands(c: Setup)
    ensures var plan, n := SplitPlan(Windows, c), |c.ips|;
            var gw4, gw6 := V4(0xC612_0001), V6(0xfdfe_dcba_9876_0000_0000_0000_0000_0001);
            && |plan| == n + 5
            && (forall i :: 0 <= i < n ==> plan[i] == Item(Route(P4(c.ips[i], 32), 1, c.gw, c.dev), false, true))
            && plan[n] == Item(Route(P4(0x7F00_0000, 8), 1, V4(0), c.lo), true, true)
            && plan[n + 1] == Item(Route(P4(0, 1), 1, gw4, c.tun), false, false)
            && plan[n + 2] == Item(Route(P4(0x8000_0000, 1), 1, gw4, c.tun), false, false)
            && plan[n + 3] == Item(Route(P6(0, 1), 1, gw6, c.tun), false, false)
            && plan[n + 4] == Item(Route(P6(0x8000_0000_0000_0000_0000_0000_0000_0000, 1), 1, gw6, c.tun), false, false)
  {
  }
}
