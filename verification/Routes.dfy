/** Routing tables and the add-and-undo transaction that auto-route runs on them
    (internal/autoroute: `Apply` and `revert` of the three platforms).
    The operating systems differ in when an add is refused and in what a delete matches. */
module Routes {
  import opened Addresses

  type Dest = p: Prefix | p.Valid() witness P4(0, 0)

  datatype Route = Route(dest: Dest, metric: nat, via: Addr, dev: string)
  type RouteTable = set<Route>

  /** Destinations have no host bits, as every kernel stores them. */
  predicate Canonical(t: RouteTable) {
    forall q :: q in t ==> q.dest.Masked() == q.dest
  }

  // ---- Look-up ----

  /** Longest prefix first, then lowest metric. */
  ghost predicate Best(t: RouteTable, a: Addr, r: Route) {
    && r in t && r.dest.Contains(a)
    && forall q :: q in t && q.dest.Contains(a) ==>
         q.dest.len < r.dest.len || (q.dest.len == r.dest.len && r.metric <= q.metric)
  }

  /** Some route is best, and every best one uses this next hop. */
  ghost predicate ResolvesTo(t: RouteTable, a: Addr, via: Addr) {
    && (exists r :: Best(t, a, r))
    && (forall r :: Best(t, a, r) ==> r.via == via)
  }

  // ---- Commands ----

  datatype Platform = Linux | Darwin | Windows

  /** A planned route.  `ensure`: adding succeeds, without effect, when the route is there already.
      `anyDev`: its delete command names no interface. */
  datatype Item = Item(route: Route, ensure: bool, anyDev: bool)

  /** Two routes that cannot be in the table together. */
  predicate SameSlot(os: Platform, q: Route, r: Route) {
    match os
    case Linux => q.dest == r.dest && q.metric == r.metric
    case Darwin => q.dest == r.dest
    case Windows => q.dest == r.dest && q.dev == r.dev && q.via == r.via
  }

  predicate Taken(os: Platform, t: RouteTable, r: Route) {
    exists q :: q in t && SameSlot(os, q, r)
  }

  /** The routes the delete command of `item` is willing to remove. */
  predicate Named(os: Platform, q: Route, item: Item) {
    && q.dest == item.route.dest && q.via == item.route.via
    && (os.Linux? || (os.Windows? && !item.anyDev) ==> q.dev == item.route.dev)
  }

  /** What it removes: on Linux the named route of lowest metric, elsewhere every named route. */
  predicate Victim(os: Platform, t: RouteTable, q: Route, item: Item) {
    && q in t && Named(os, q, item)
    && (os.Linux? ==> forall p :: p in t && Named(os, p, item) ==> q.metric <= p.metric)
  }

  function Deleted(os: Platform, t: RouteTable, item: Item): RouteTable {
    set q | q in t && !Victim(os, t, q, item)
  }

  /** A route that the delete of `item` would take away with or instead of the item's own. */
  predicate LookAlike(os: Platform, q: Route, item: Item) {
    Named(os, q, item) && (os.Linux? ==> q.metric <= item.route.metric)
  }

  // ---- The transaction ----

  /** The table and the stack of pending undo actions. */
  datatype Progress = Progress(table: RouteTable, stack: seq<Item>)

  function Try(os: Platform, p: Progress, item: Item, ok: bool): Progress {
    if !ok then p
    else if Taken(os, p.table, item.route) then
      if item.ensure then p.(stack := p.stack + [item]) else p
    else Progress(p.table + {item.route}, p.stack + [item])
  }

  function Tries(os: Platform, t0: RouteTable, plan: seq<Item>, ok: seq<bool>): Progress
    requires |ok| == |plan|
  {
    if plan == [] then Progress(t0, [])
    else Try(os, Tries(os, t0, plan[..|plan| - 1], ok[..|plan| - 1]), plan[|plan| - 1], ok[|plan| - 1])
  }

  /** Run the newest undo action.  The commands of the items in `stuck` fail, which is only logged. */
  function Pop(os: Platform, p: Progress, stuck: set<Item>): Progress {
    if p.stack == [] then p
    else
      var item := p.stack[|p.stack| - 1];
      Progress(if item in stuck then p.table else Deleted(os, p.table, item), p.stack[..|p.stack| - 1])
  }

  function Pops(os: Platform, p: Progress, stuck: set<Item>, m: nat): Progress {
    if m == 0 then p else Pop(os, Pops(os, p, stuck, m - 1), stuck)
  }

  function Revert(os: Platform, p: Progress, stuck: set<Item>): RouteTable {
    Pops(os, p, stuck, |p.stack|).table
  }

  function StackRoutes(stack: seq<Item>): RouteTable {
    set i | 0 <= i < |stack| :: stack[i].route
  }

  /** Plans never hold two different items for one destination. */
  predicate OneItemPerDest(plan: seq<Item>) {
    forall i, j :: 0 <= i < |plan| && 0 <= j < |plan| && plan[i].route.dest == plan[j].route.dest ==> plan[i] == plan[j]
  }

  /** Items that only ensure a route occur once. */
  predicate EnsuresOnce(plan: seq<Item>) {
    forall i, j :: 0 <= i < |plan| && 0 <= j < |plan| && plan[i].ensure && plan[i] == plan[j] ==> i == j
  }

  /** What the plans of nanotun have in common. */
  predicate Sound(os: Platform, plan: seq<Item>) {
    OneItemPerDest(plan) && EnsuresOnce(plan) && (os.Windows? || forall i :: 0 <= i < |plan| ==> !plan[i].ensure)
  }

  // ---- What every command keeps ----

  predicate DistinctDests(stack: seq<Item>) {
    forall i, j :: 0 <= i < j < |stack| ==> stack[i].route.dest != stack[j].route.dest
  }

  /** An item on the stack was added, in a slot that was free at the start, or was ensured and there already. */
  predicate Pushed(os: Platform, t0: RouteTable, item: Item) {
    !Taken(os, t0, item.route) || (item.ensure && os.Windows?)
  }

  predicate Inv(os: Platform, t0: RouteTable, plan: seq<Item>, p: Progress) {
    && DistinctDests(p.stack)
    && (forall i :: 0 <= i < |p.stack| ==> p.stack[i] in plan && Pushed(os, t0, p.stack[i]))
  }

  /** The routes of a stack whose slots were free at the start. */
  function Added(os: Platform, t0: RouteTable, stack: seq<Item>): RouteTable {
    set i | 0 <= i < |stack| && !Taken(os, t0, stack[i].route) :: stack[i].route
  }

  /** Adding: the table is the initial one and what the stack has added. */
  predicate Grown(os: Platform, t0: RouteTable, p: Progress) {
    p.table == t0 + Added(os, t0, p.stack)
  }

  lemma {:induction false} TriesKeepInv(os: Platform, t0: RouteTable, plan: seq<Item>, ok: seq<bool>)
    requires |ok| == |plan| && Sound(os, plan)
    ensures Inv(os, t0, plan, Tries(os, t0, plan, ok)) && Grown(os, t0, Tries(os, t0, plan, ok))
  {
    hide Inv, Grown, Sound;
    if plan == [] {
      NothingTried(os, t0);
    } else {
      var n := |plan| - 1;
      SoundPrefix(os, plan, n);
      TriesKeepInv(os, t0, plan[..n], ok[..n]);
      TryKeepsInv(os, t0, plan, Tries(os, t0, plan[..n], ok[..n]), ok[n]);
    }
  }

  lemma NothingTried(os: Platform, t0: RouteTable)
    ensures Inv(os, t0, [], Progress(t0, [])) && Grown(os, t0, Progress(t0, []))
  {
  }

  lemma SoundPrefix(os: Platform, plan: seq<Item>, n: nat)
    requires Sound(os, plan) && n <= |plan|
    ensures Sound(os, plan[..n])
  {
  }

  lemma TryKeepsInv(os: Platform, t0: RouteTable, plan: seq<Item>, p: Progress, ok: bool)
    requires Sound(os, plan) && plan != []
    requires Inv(os, t0, plan[..|plan| - 1], p) && Grown(os, t0, p)
    ensures var r := Try(os, p, plan[|plan| - 1], ok); Inv(os, t0, plan, r) && Grown(os, t0, r)
  {
    hide Grown, Pushed, Taken, Sound, Added;
    var item := plan[|plan| - 1];
    var before := plan[..|plan| - 1];
    assert forall x :: x in before ==> x in plan;
    assert forall i :: 0 <= i < |p.stack| ==> p.stack[i] in before;
    if Try(os, p, item, ok) != p {
      forall i | 0 <= i < |p.stack| ensures p.stack[i].route.dest != item.route.dest {
        NotTwice(os, t0, plan, p, i);
      }
      TryGrows(os, t0, plan, p);
    }
  }

  /** A destination on the stack is not pushed again. */
  lemma NotTwice(os: Platform, t0: RouteTable, plan: seq<Item>, p: Progress, i: nat)
    requires Sound(os, plan) && plan != [] && Grown(os, t0, p) && i < |p.stack| && p.stack[i] in plan[..|plan| - 1]
    requires Try(os, p, plan[|plan| - 1], true) != p
    ensures p.stack[i].route.dest != plan[|plan| - 1].route.dest
  {
    var n, route := |plan| - 1, p.stack[i].route;
    var a :| 0 <= a < n && plan[..n][a] == p.stack[i];
    assert SameSlot(os, route, route);
    assert Taken(os, t0, route) || route in p.table;
    assert plan[a] == p.stack[i];
  }

  lemma TryGrows(os: Platform, t0: RouteTable, plan: seq<Item>, p: Progress)
    requires Sound(os, plan) && plan != [] && Grown(os, t0, p)
    requires Try(os, p, plan[|plan| - 1], true) != p
    requires forall i :: 0 <= i < |p.stack| ==> p.stack[i].route.dest != plan[|plan| - 1].route.dest
    ensures Pushed(os, t0, plan[|plan| - 1]) && Grown(os, t0, Try(os, p, plan[|plan| - 1], true))
  {
    var item := plan[|plan| - 1];
    AddedSnoc(os, t0, p.stack, item);
    TakenAtFreeDest(os, t0, p, item.route);
  }

  lemma AddedSnoc(os: Platform, t0: RouteTable, stack: seq<Item>, item: Item)
    ensures Added(os, t0, stack + [item])
            == Added(os, t0, stack) + if Taken(os, t0, item.route) then {} else {item.route}
  {
    hide Taken;
    var all := stack + [item];
    assert all[|stack|] == item;
    forall q | q in Added(os, t0, stack) ensures q in Added(os, t0, all) {
      var i :| 0 <= i < |stack| && !Taken(os, t0, stack[i].route) && stack[i].route == q;
      assert all[i] == stack[i];
    }
  }

  /** At a destination the stack does not hold, the table is as it was. */
  lemma TakenAtFreeDest(os: Platform, t0: RouteTable, p: Progress, route: Route)
    requires Grown(os, t0, p)
    requires forall i :: 0 <= i < |p.stack| ==> p.stack[i].route.dest != route.dest
    ensures Taken(os, p.table, route) <==> Taken(os, t0, route)
  {
    assert forall q :: q in Added(os, t0, p.stack) ==> q.dest != route.dest;
  }

  /** In other words: nothing is lost, and what is new comes from the stack. */
  lemma GrownMeans(os: Platform, t0: RouteTable, p: Progress)
    requires Grown(os, t0, p)
    ensures t0 <= p.table <= t0 + StackRoutes(p.stack)
    ensures forall i :: 0 <= i < |p.stack| ==> Taken(os, t0, p.stack[i].route) || p.stack[i].route in p.table
  {
    hide Taken;
  }

  // ---- Undoing, with any undo commands failing ----

  /** Removing never touches other destinations. */
  lemma DeletedKeepsOthers(os: Platform, t: RouteTable, item: Item, q: Route)
    requires q in t && q.dest != item.route.dest
    ensures q in Deleted(os, t, item)
  {
  }

  /** The delete of an item removes exactly its own route when nothing else at that destination looks like it. */
  lemma DeletedExactly(os: Platform, t: RouteTable, item: Item)
    requires item.route in t
    requires forall q :: q in t && LookAlike(os, q, item) ==> q == item.route
    ensures Deleted(os, t, item) == t - {item.route}
  {
  }

  /** Nothing in the initial table looks like the item. */
  predicate Unlike(os: Platform, t0: RouteTable, item: Item) {
    forall q :: q in t0 ==> !LookAlike(os, q, item)
  }

  lemma UnlikeIsNew(os: Platform, t0: RouteTable, item: Item)
    requires Pushed(os, t0, item) && Unlike(os, t0, item)
    ensures !Taken(os, t0, item.route)
  {
  }

  /** The routes that the actions from index `low` on have added and, their commands failing, left. */
  function Left(os: Platform, t0: RouteTable, stack: seq<Item>, stuck: set<Item>, low: nat): RouteTable {
    set i | low <= i < |stack| && stack[i] in stuck && !Taken(os, t0, stack[i].route) :: stack[i].route
  }

  /** At every moment of a revert, whatever undo commands fail: the table is the initial one, what is still
      stacked, and what the failed commands left, as long as nothing looks like an item whose command worked. */
  lemma {:induction false} PopsLeave(os: Platform, t0: RouteTable, plan: seq<Item>, p: Progress,
                                     stuck: set<Item>, m: nat)
    requires m <= |p.stack| && Inv(os, t0, plan, p) && Grown(os, t0, p)
    requires forall i :: |p.stack| - m <= i < |p.stack| && p.stack[i] !in stuck ==> Unlike(os, t0, p.stack[i])
    ensures var r := Pops(os, p, stuck, m);
            var low := |p.stack| - m;
            && r.stack == p.stack[..low]
            && r.table == t0 + Added(os, t0, r.stack) + Left(os, t0, p.stack, stuck, low)
  {
    hide Unlike, Added, Pushed, Deleted;
    var low := |p.stack| - m;
    if m == 0 {
      assert p.stack[..low] == p.stack && Left(os, t0, p.stack, stuck, low) == {};
    } else {
      PopsLeave(os, t0, plan, p, stuck, m - 1);
      PopLeaves(os, t0, p.stack, stuck, low);
      assert p.stack[..low + 1][..low] == p.stack[..low];
    }
  }

  lemma PopLeaves(os: Platform, t0: RouteTable, stack: seq<Item>, stuck: set<Item>, low: nat)
    requires low < |stack| && DistinctDests(stack) && Pushed(os, t0, stack[low])
    requires stack[low] !in stuck ==> Unlike(os, t0, stack[low])
    ensures var item := stack[low];
            var table := t0 + Added(os, t0, stack[..low + 1]) + Left(os, t0, stack, stuck, low + 1);
            t0 + Added(os, t0, stack[..low]) + Left(os, t0, stack, stuck, low)
            == if item in stuck then table else Deleted(os, table, item)
  {
    hide Taken, Pushed, Added, Left, DistinctDests, Unlike;
    var item, rest, above := stack[low], Added(os, t0, stack[..low]), Left(os, t0, stack, stuck, low + 1);
    assert stack[..low + 1] == stack[..low] + [item];
    AddedSnoc(os, t0, stack[..low], item);
    LeftStep(os, t0, stack, stuck, low);
    OtherDests(os, t0, stack, stuck, low);
    var table := t0 + Added(os, t0, stack[..low + 1]) + above;
    if item !in stuck {
      UnlikeIsNew(os, t0, item);
      assert table == t0 + rest + {item.route} + above;
      UnlikeOthers(os, t0, item);
      DeletedExactly(os, table, item);
    }
  }

  lemma UnlikeOthers(os: Platform, t0: RouteTable, item: Item)
    requires Unlike(os, t0, item)
    ensures forall q :: q in t0 ==> !LookAlike(os, q, item)
  {
  }

  lemma OtherDests(os: Platform, t0: RouteTable, stack: seq<Item>, stuck: set<Item>, low: nat)
    requires low < |stack| && DistinctDests(stack)
    ensures forall q :: q in Added(os, t0, stack[..low]) || q in Left(os, t0, stack, stuck, low + 1) ==>
              q.dest != stack[low].route.dest
  {
    hide Taken;
  }

  lemma LeftStep(os: Platform, t0: RouteTable, stack: seq<Item>, stuck: set<Item>, low: nat)
    requires low < |stack|
    ensures Left(os, t0, stack, stuck, low) == Left(os, t0, stack, stuck, low + 1)
              + if stack[low] in stuck && !Taken(os, t0, stack[low].route) then {stack[low].route} else {}
  {
    hide Taken;
  }

  /** Once removed, a route never comes back. */
  lemma {:induction false} PopsOnlyShrink(os: Platform, p: Progress, stuck: set<Item>, m: nat, k: nat)
    requires m <= k
    ensures Pops(os, p, stuck, k).table <= Pops(os, p, stuck, m).table <= p.table
    decreases k
  {
    if m < k { PopsOnlyShrink(os, p, stuck, m, k - 1); }
    else if m > 0 { PopsOnlyShrink(os, p, stuck, m - 1, k - 1); }
  }

  lemma {:induction false} PopsStack(os: Platform, p: Progress, stuck: set<Item>, m: nat)
    requires m <= |p.stack|
    ensures Pops(os, p, stuck, m).stack == p.stack[..|p.stack| - m]
  {
    if m > 0 { PopsStack(os, p, stuck, m - 1); }
  }

  /** Undoing the item leaves no trace: if its command fails the route was there before, and if it works
      it can take nothing else away. */
  predicate Harmless(os: Platform, t0: RouteTable, stuck: set<Item>, item: Item) {
    if item in stuck then Taken(os, t0, item.route) else Unlike(os, t0, item)
  }

  /** Exactly when a full revert gives back the initial table, for every initial table, every plan, every
      pattern of failing adds and every set of failing undo commands. */
  lemma RevertRestoresIff(os: Platform, t0: RouteTable, plan: seq<Item>, ok: seq<bool>, stuck: set<Item>)
    requires |ok| == |plan| && Sound(os, plan)
    ensures Revert(os, Tries(os, t0, plan, ok), stuck) == t0 <==>
              forall i :: 0 <= i < |plan| && Stacks(os, t0, plan, ok, i) ==> Harmless(os, t0, stuck, plan[i])
  {
    hide Tries, Pops, Taken, Unlike, Sound, Stacks, Harmless, Inv, Grown;
    var p := Tries(os, t0, plan, ok);
    TriesKeepInv(os, t0, plan, ok);
    StackIff(os, t0, plan, ok);
    if forall i :: 0 <= i < |plan| && Stacks(os, t0, plan, ok, i) ==> Harmless(os, t0, stuck, plan[i]) {
      forall j | 0 <= j < |p.stack| ensures Harmless(os, t0, stuck, p.stack[j]) {
        assert Planned(os, t0, plan, ok, p.stack[j]);
      }
      AllHarmless(os, t0, plan, p, stuck);
    } else {
      var i :| 0 <= i < |plan| && Stacks(os, t0, plan, ok, i) && !Harmless(os, t0, stuck, plan[i]);
      var j :| 0 <= j < |p.stack| && p.stack[j] == plan[i];
      OneHarmful(os, t0, plan, p, stuck, j);
    }
  }

  lemma AllHarmless(os: Platform, t0: RouteTable, plan: seq<Item>, p: Progress, stuck: set<Item>)
    requires Inv(os, t0, plan, p) && Grown(os, t0, p)
    requires forall j :: 0 <= j < |p.stack| ==> Harmless(os, t0, stuck, p.stack[j])
    ensures Revert(os, p, stuck) == t0
  {
    hide Inv, Grown, Taken, Unlike, Pops;
    PopsLeave(os, t0, plan, p, stuck, |p.stack|);
    assert Added(os, t0, p.stack[..0]) == {} && Left(os, t0, p.stack, stuck, 0) == {};
  }

  lemma OneHarmful(os: Platform, t0: RouteTable, plan: seq<Item>, p: Progress, stuck: set<Item>, j: nat)
    requires Inv(os, t0, plan, p) && Grown(os, t0, p) && j < |p.stack| && !Harmless(os, t0, stuck, p.stack[j])
    ensures Revert(os, p, stuck) != t0
  {
    hide Pops, Grown, Taken;
    GrownMeans(os, t0, p);
    if p.stack[j] in stuck {
      OthersStay(os, p, stuck, |p.stack|, p.stack[j].route);
      InMeansTaken(os, t0, p.stack[j].route);
    } else {
      var q :| q in t0 && LookAlike(os, q, p.stack[j]);
      LookAlikeIsLost(os, t0, p, stuck, q, j);
    }
  }

  lemma InMeansTaken(os: Platform, t: RouteTable, r: Route)
    ensures r in t ==> Taken(os, t, r)
  {
    assert SameSlot(os, r, r);
  }

  /** Undoing an item that something looks like loses a route for good. */
  lemma LookAlikeIsLost(os: Platform, t0: RouteTable, p: Progress, stuck: set<Item>, q: Route, i: nat)
    requires DistinctDests(p.stack) && p.table <= t0 + StackRoutes(p.stack)
    requires q in t0 && i < |p.stack| && LookAlike(os, q, p.stack[i]) && p.stack[i] !in stuck
    ensures Revert(os, p, stuck) != t0
  {
    var m := |p.stack| - 1 - i;
    PopsStack(os, p, stuck, m);
    var r := Pops(os, p, stuck, m);
    var item := p.stack[i];
    assert item == r.stack[|r.stack| - 1];
    PopsOnlyShrink(os, p, stuck, m + 1, |p.stack|);
    PopsOnlyShrink(os, p, stuck, m, m + 1);
    var after := Pops(os, p, stuck, m + 1).table;
    assert after == Deleted(os, r.table, item);
    if t0 <= after {
      forall x | x in r.table && Named(os, x, item) ensures x in t0 || x == item.route {
        OnlyOwnAtDest(t0, p, x, i);
      }
      LowerNamedIsLost(os, t0, r.table, q, item);
    }
  }

  lemma OnlyOwnAtDest(t0: RouteTable, r: Progress, q: Route, n: nat)
    requires n < |r.stack| && DistinctDests(r.stack) && r.table <= t0 + StackRoutes(r.stack)
    requires q in r.table && q.dest == r.stack[n].route.dest
    ensures q in t0 || q == r.stack[n].route
  {
  }

  lemma {:induction false} LowerNamedIsLost(os: Platform, t0: RouteTable, t: RouteTable, q: Route, item: Item)
    requires q in t0 && LookAlike(os, q, item)
    requires forall x :: x in t && Named(os, x, item) ==> x in t0 || x == item.route
    ensures !(t0 <= Deleted(os, t, item))
    decreases q.metric
  {
    if t0 <= Deleted(os, t, item) {
      assert q in t && !Victim(os, t, q, item);
      var x :| x in t && Named(os, x, item) && x.metric < q.metric;
      LowerNamedIsLost(os, t0, t, x, item);
    }
  }

  // ---- What the stack holds, from the inputs ----

  /** The command works and stacks an undo action, judged by the initial table. */
  predicate Stacks(os: Platform, t0: RouteTable, plan: seq<Item>, ok: seq<bool>, i: nat)
    requires i < |plan| == |ok|
  {
    ok[i] && (plan[i].ensure || !Taken(os, t0, plan[i].route))
  }

  predicate Planned(os: Platform, t0: RouteTable, plan: seq<Item>, ok: seq<bool>, item: Item)
    requires |ok| == |plan|
  {
    exists i :: 0 <= i < |plan| && Stacks(os, t0, plan, ok, i) && plan[i] == item
  }

  /** The stack holds exactly the planned items that stack. */
  lemma {:induction false} StackIff(os: Platform, t0: RouteTable, plan: seq<Item>, ok: seq<bool>)
    requires |ok| == |plan| && Sound(os, plan)
    ensures forall i :: 0 <= i < |plan| && Stacks(os, t0, plan, ok, i) ==> plan[i] in Tries(os, t0, plan, ok).stack
    ensures forall item :: item in Tries(os, t0, plan, ok).stack ==> Planned(os, t0, plan, ok, item)
  {
    hide Sound, Taken;
    if plan != [] {
      var n := |plan| - 1;
      var before, okBefore := plan[..n], ok[..n];
      SoundPrefix(os, plan, n);
      StackIff(os, t0, before, okBefore);
      var p, r := Tries(os, t0, before, okBefore), Tries(os, t0, plan, ok);
      TriesKeepInv(os, t0, before, okBefore);
      StackTop(os, t0, plan, ok, p);
      forall i | 0 <= i < |plan| && Stacks(os, t0, plan, ok, i) ensures plan[i] in r.stack {
        if i < n { assert Stacks(os, t0, before, okBefore, i); }
      }
      forall item | item in r.stack ensures Planned(os, t0, plan, ok, item) {
        if item in p.stack {
          assert Planned(os, t0, before, okBefore, item);
          var i :| 0 <= i < n && Stacks(os, t0, before, okBefore, i) && before[i] == item;
          assert Stacks(os, t0, plan, ok, i) && plan[i] == item;
        } else {
          assert Stacks(os, t0, plan, ok, n);
        }
      }
    }
  }

  /** The last command of a plan: its item is stacked if it stacks, and only then is anything pushed. */
  lemma StackTop(os: Platform, t0: RouteTable, plan: seq<Item>, ok: seq<bool>, p: Progress)
    requires plan != [] && |ok| == |plan| && Sound(os, plan)
    requires Inv(os, t0, plan[..|plan| - 1], p) && Grown(os, t0, p)
    ensures var n := |plan| - 1;
            var r := Try(os, p, plan[n], ok[n]);
            && (Stacks(os, t0, plan, ok, n) ==> plan[n] in r.stack)
            && (r.stack == p.stack || (r.stack == p.stack + [plan[n]] && Stacks(os, t0, plan, ok, n)))
  {
    hide Sound;
    var n := |plan| - 1;
    var r := Try(os, p, plan[n], ok[n]);
    GrownMeans(os, t0, p);
    if r.stack == p.stack && Stacks(os, t0, plan, ok, n) {
      assert forall x :: x in plan[..n] ==> x in plan;
      TakenByStack(os, t0, plan, p, plan[n]);
    }
  }

  /** A slot that was free at the start and is taken now is taken by the same item. */
  lemma TakenByStack(os: Platform, t0: RouteTable, plan: seq<Item>, p: Progress, item: Item)
    requires Sound(os, plan) && item in plan && (forall i :: 0 <= i < |p.stack| ==> p.stack[i] in plan)
    requires Grown(os, t0, p) && Taken(os, p.table, item.route) && !Taken(os, t0, item.route)
    ensures item in p.stack
  {
    var q :| q in p.table && SameSlot(os, q, item.route);
    assert q in Added(os, t0, p.stack);
    var j :| 0 <= j < |p.stack| && p.stack[j].route == q;
    var a :| 0 <= a < |plan| && plan[a] == p.stack[j];
    var b :| 0 <= b < |plan| && plan[b] == item;
  }

  /** The adds change nothing exactly when every route whose command would work is there already. */
  lemma {:induction false} TriesAddNothingIff(os: Platform, t0: RouteTable, plan: seq<Item>, ok: seq<bool>)
    requires |ok| == |plan|
    ensures t0 <= Tries(os, t0, plan, ok).table
    ensures Tries(os, t0, plan, ok).table == t0 <==>
              forall i :: 0 <= i < |plan| && ok[i] ==> Taken(os, t0, plan[i].route)
  {
    hide Taken;
    if plan != [] {
      var n := |plan| - 1;
      var before, okBefore := plan[..n], ok[..n];
      TriesAddNothingIff(os, t0, before, okBefore);
      var p := Tries(os, t0, before, okBefore);
      InMeansTaken(os, p.table, plan[n].route);
      if forall i :: 0 <= i < |plan| && ok[i] ==> Taken(os, t0, plan[i].route) {
        assert forall i :: 0 <= i < n ==> before[i] == plan[i] && okBefore[i] == ok[i];
      } else if p.table == t0 {
        forall i | 0 <= i < n && ok[i] ensures Taken(os, t0, plan[i].route) {
          assert before[i] == plan[i] && okBefore[i];
        }
      }
    }
  }

  /** After adds and a full revert with any failures: the initial table and exactly the routes that were added
      and whose undo failed. */
  lemma RevertLeavesStuck(os: Platform, t0: RouteTable, plan: seq<Item>, ok: seq<bool>, stuck: set<Item>)
    requires |ok| == |plan| && Sound(os, plan)
    requires forall i :: 0 <= i < |plan| && Stacks(os, t0, plan, ok, i) && plan[i] !in stuck ==> Unlike(os, t0, plan[i])
    ensures Revert(os, Tries(os, t0, plan, ok), stuck) == t0 + LeftOf(os, t0, plan, ok, stuck)
  {
    hide Tries, Pops, Taken, Unlike, Sound, Inv, Grown;
    var p := Tries(os, t0, plan, ok);
    TriesKeepInv(os, t0, plan, ok);
    StackIff(os, t0, plan, ok);
    forall j | 0 <= j < |p.stack| ensures Planned(os, t0, plan, ok, p.stack[j]) {
      assert p.stack[j] in p.stack;
    }
    PopsLeave(os, t0, plan, p, stuck, |p.stack|);
    assert Added(os, t0, p.stack[..0]) == {};
    assert Left(os, t0, p.stack, stuck, 0) == LeftOf(os, t0, plan, ok, stuck);
  }

  /** The planned routes that were added, judged by the initial table, and whose undo fails. */
  function LeftOf(os: Platform, t0: RouteTable, plan: seq<Item>, ok: seq<bool>, stuck: set<Item>): RouteTable
    requires |ok| == |plan|
  {
    set i | 0 <= i < |plan| && Stacks(os, t0, plan, ok, i) && plan[i] in stuck && !Taken(os, t0, plan[i].route)
      :: plan[i].route
  }

  // ---- Where one added route leads, at every moment of a run ----

  /** The route is in the table and was not possible beside the initial ones: this run has added it. */
  predicate New(os: Platform, t0: RouteTable, t: RouteTable, r: Route) {
    r in t && !Taken(os, t0, r)
  }

  /** Whatever is undone, a route stays whose destination no working undo names. */
  lemma {:induction false} OthersStay(os: Platform, p: Progress, stuck: set<Item>, m: nat, q: Route)
    requires m <= |p.stack| && q in p.table
    requires forall i :: |p.stack| - m <= i < |p.stack| && p.stack[i] !in stuck ==> p.stack[i].route.dest != q.dest
    ensures q in Pops(os, p, stuck, m).table
  {
    hide Deleted;
    if m > 0 {
      OthersStay(os, p, stuck, m - 1, q);
      PopsStack(os, p, stuck, m - 1);
      var r := Pops(os, p, stuck, m - 1);
      var item := r.stack[|r.stack| - 1];
      if item !in stuck { DeletedKeepsOthers(os, r.table, item, q); }
    }
  }

  /** A route whose undo command worked is out of the table from then on; on Linux if no metric is below its own. */
  lemma PoppedIsGone(os: Platform, p: Progress, stuck: set<Item>, m: nat, d: nat)
    requires m <= |p.stack| && |p.stack| - m <= d < |p.stack| && p.stack[d] !in stuck
    requires os.Linux? ==> p.stack[d].route.metric == 0
    ensures p.stack[d].route !in Pops(os, p, stuck, m).table
  {
    var at := |p.stack| - d;
    PopsStack(os, p, stuck, at - 1);
    var r := Pops(os, p, stuck, at - 1);
    assert r.stack[|r.stack| - 1] == p.stack[d];
    OwnIsRemoved(os, r.table, p.stack[d]);
    PopsOnlyShrink(os, p, stuck, at, m);
  }

  lemma OwnIsRemoved(os: Platform, t: RouteTable, item: Item)
    requires os.Linux? ==> item.route.metric == 0
    ensures item.route !in Deleted(os, t, item)
  {
    assert Named(os, item.route, item);
  }

  /** A new route is on the stack: still pending, or its undo has failed. */
  lemma NewIsStacked(os: Platform, t0: RouteTable, p: Progress, stuck: set<Item>, m: nat, r: Route) returns (i: nat)
    requires Grown(os, t0, p) && m <= |p.stack| && New(os, t0, Pops(os, p, stuck, m).table, r)
    requires os.Linux? && m > 0 ==> r.metric == 0
    ensures i < |p.stack| && p.stack[i].route == r && (i < |p.stack| - m || p.stack[i] in stuck)
  {
    hide Pops, Taken, Grown;
    GrownMeans(os, t0, p);
    PopsOnlyShrink(os, p, stuck, 0, m);
    PopsZero(os, p, stuck);
    InMeansTaken(os, t0, r);
    assert r in StackRoutes(p.stack);
    i :| 0 <= i < |p.stack| && p.stack[i].route == r;
    if i >= |p.stack| - m && p.stack[i] !in stuck { PoppedIsGone(os, p, stuck, m, i); }
  }

  lemma PopsZero(os: Platform, p: Progress, stuck: set<Item>)
    ensures Pops(os, p, stuck, 0) == p
  {
  }

  /** At the destination of a new route the table holds the initial routes and it. */
  lemma NewRouteAlone(os: Platform, t0: RouteTable, plan: seq<Item>, p: Progress, stuck: set<Item>, m: nat, r: Route)
    requires Inv(os, t0, plan, p) && Grown(os, t0, p) && m <= |p.stack|
    requires New(os, t0, Pops(os, p, stuck, m).table, r) && (os.Linux? && m > 0 ==> r.metric == 0)
    ensures forall q: Route :: q.dest == r.dest ==> (q in Pops(os, p, stuck, m).table <==> q in t0 || q == r)
  {
    hide Pops, Taken, Grown;
    GrownMeans(os, t0, p);
    var i := NewIsStacked(os, t0, p, stuck, m, r);
    PopsOnlyShrink(os, p, stuck, 0, m);
    PopsZero(os, p, stuck);
    var t := Pops(os, p, stuck, m).table;
    forall q: Route | q.dest == r.dest ensures q in t <==> q in t0 || q == r {
      if q in t { OnlyOwnAtDest(t0, p, q, i); }
      if q in t0 { OthersStay(os, p, stuck, m, q); }
    }
  }

  /** After a full revert the new routes are the added ones whose undo failed. */
  lemma NewAtEndIff(os: Platform, t0: RouteTable, plan: seq<Item>, ok: seq<bool>, stuck: set<Item>, r: Route)
    requires |ok| == |plan| && Sound(os, plan) && (os.Linux? ==> r.metric == 0)
    ensures New(os, t0, Revert(os, Tries(os, t0, plan, ok), stuck), r) <==> r in LeftOf(os, t0, plan, ok, stuck)
  {
    hide Tries, Pops, Taken, Sound, Grown;
    var p := Tries(os, t0, plan, ok);
    TriesKeepInv(os, t0, plan, ok);
    GrownMeans(os, t0, p);
    StackIff(os, t0, plan, ok);
    if New(os, t0, Revert(os, p, stuck), r) {
      var i := NewIsStacked(os, t0, p, stuck, |p.stack|, r);
      assert p.stack[i] in p.stack;
    }
    if r in LeftOf(os, t0, plan, ok, stuck) {
      var a :| 0 <= a < |plan| && Stacks(os, t0, plan, ok, a) && plan[a] in stuck && plan[a].route == r;
      assert plan[a] in p.stack;
      var i :| 0 <= i < |p.stack| && p.stack[i] == plan[a];
      OthersStay(os, p, stuck, |p.stack|, r);
    }
  }

  /** An initial route that look-ups prefer to `r`, or cannot tell from it: for the same destination, of lowest metric
      there and not above that of `r`, through another next hop. */
  predicate Rival(t0: RouteTable, q: Route, r: Route) {
    && q in t0 && q.dest == r.dest && q.metric <= r.metric && q.via != r.via
    && forall z :: z in t0 && z.dest == r.dest ==> q.metric <= z.metric
  }

  lemma {:induction false} LowestAt(t: RouteTable, q: Route) returns (z: Route)
    requires q in t
    ensures z in t && z.dest == q.dest && forall x :: x in t && x.dest == q.dest ==> z.metric <= x.metric
    decreases q.metric
  {
    z := q;
    if x :| x in t && x.dest == q.dest && x.metric < q.metric { z := LowestAt(t, x); }
  }

  /** Nothing longer covers the address: it goes the way of the added route exactly when that has no rival. */
  lemma AddedRouteWinsIff(t0: RouteTable, t: RouteTable, r: Route, a: Addr)
    requires r in t && r.dest.Contains(a)
    requires forall q :: q in t && q.dest.Contains(a) ==>
               q.dest.len <= r.dest.len && (q.dest.len == r.dest.len ==> q.dest == r.dest)
    requires forall q: Route :: q.dest == r.dest ==> (q in t <==> q in t0 || q == r)
    ensures ResolvesTo(t, a, r.via) <==> !exists q :: Rival(t0, q, r)
  {
    var z := LowestAt(t, r);
    assert Best(t, a, z);
    if q :| Rival(t0, q, r) {
      assert Best(t, a, q);
    } else {
      forall q | Best(t, a, q) ensures q.via == r.via {
        assert q.via != r.via ==> Rival(t0, q, r);
      }
    }
  }

  lemma NewHasNoRival(os: Platform, t0: RouteTable, r: Route, q: Route)
    requires !Taken(os, t0, r) && (os.Darwin? || (os.Linux? && r.metric == 0))
    ensures !Rival(t0, q, r)
  {
    assert q in t0 ==> !SameSlot(os, q, r);
  }

  // ---- The exact table where deletes remove all they name ----

  /** The undo of an item from index `low` on has taken the route away. */
  predicate Lost(os: Platform, stack: seq<Item>, stuck: set<Item>, low: nat, q: Route) {
    exists i :: low <= i < |stack| && stack[i] !in stuck && Named(os, q, stack[i])
  }

  function Kept(os: Platform, t0: RouteTable, stack: seq<Item>, stuck: set<Item>, low: nat): RouteTable {
    set q | q in t0 && !Lost(os, stack, stuck, low, q)
  }

  /** On Darwin and Windows, at every moment of a revert and without any condition: the initial routes no working
      undo has named, what is still stacked, and what the failed commands left. */
  lemma {:induction false} PopsTable(os: Platform, t0: RouteTable, plan: seq<Item>, p: Progress,
                                     stuck: set<Item>, m: nat)
    requires !os.Linux? && m <= |p.stack| && Inv(os, t0, plan, p) && Grown(os, t0, p)
    ensures var r := Pops(os, p, stuck, m);
            var low := |p.stack| - m;
            && r.stack == p.stack[..low]
            && r.table == Kept(os, t0, p.stack, stuck, low) + Added(os, t0, r.stack) + Left(os, t0, p.stack, stuck, low)
  {
    hide Added, Pushed, Deleted;
    var low := |p.stack| - m;
    if m == 0 {
      assert p.stack[..low] == p.stack && Left(os, t0, p.stack, stuck, low) == {};
      assert Kept(os, t0, p.stack, stuck, low) == t0;
    } else {
      PopsTable(os, t0, plan, p, stuck, m - 1);
      PopTable(os, t0, p.stack, stuck, low);
      assert p.stack[..low + 1][..low] == p.stack[..low];
    }
  }

  lemma PopTable(os: Platform, t0: RouteTable, stack: seq<Item>, stuck: set<Item>, low: nat)
    requires !os.Linux? && low < |stack| && DistinctDests(stack)
    ensures var item := stack[low];
            var table := Kept(os, t0, stack, stuck, low + 1) + Added(os, t0, stack[..low + 1])
                         + Left(os, t0, stack, stuck, low + 1);
            Kept(os, t0, stack, stuck, low) + Added(os, t0, stack[..low]) + Left(os, t0, stack, stuck, low)
            == if item in stuck then table else Deleted(os, table, item)
  {
    hide Taken, Added, Left, DistinctDests, Kept;
    var item, rest, above := stack[low], Added(os, t0, stack[..low]), Left(os, t0, stack, stuck, low + 1);
    assert stack[..low + 1] == stack[..low] + [item];
    AddedSnoc(os, t0, stack[..low], item);
    LeftStep(os, t0, stack, stuck, low);
    KeptStep(os, t0, stack, stuck, low);
    OtherDests(os, t0, stack, stuck, low);
    InMeansTaken(os, t0, item.route);
    DeletedUnion(os, Kept(os, t0, stack, stuck, low + 1), rest, above, item);
  }

  lemma KeptStep(os: Platform, t0: RouteTable, stack: seq<Item>, stuck: set<Item>, low: nat)
    requires low < |stack|
    ensures Kept(os, t0, stack, stuck, low) == set q | q in Kept(os, t0, stack, stuck, low + 1)
                                                       && (stack[low] in stuck || !Named(os, q, stack[low]))
  {
    forall q ensures Lost(os, stack, stuck, low, q) <==>
                       Lost(os, stack, stuck, low + 1, q) || (stack[low] !in stuck && Named(os, q, stack[low]))
    {
    }
  }

  lemma DeletedUnion(os: Platform, kept: RouteTable, rest: RouteTable, above: RouteTable, item: Item)
    requires !os.Linux? && forall q :: q in rest || q in above ==> q.dest != item.route.dest
    ensures (set q | q in kept && !Named(os, q, item)) + rest + above == Deleted(os, kept + rest + above, item)
    ensures (set q | q in kept && !Named(os, q, item)) + rest + above
            == Deleted(os, kept + (rest + {item.route}) + above, item)
  {
    assert Named(os, item.route, item);
  }

  /** A planned item that stacks, and whose undo works, names the route. */
  predicate LostTo(os: Platform, t0: RouteTable, plan: seq<Item>, ok: seq<bool>, stuck: set<Item>, q: Route)
    requires |ok| == |plan|
  {
    exists i :: 0 <= i < |plan| && Stacks(os, t0, plan, ok, i) && plan[i] !in stuck && Named(os, q, plan[i])
  }

  /** The table after a full revert, from the inputs. */
  lemma RevertTable(os: Platform, t0: RouteTable, plan: seq<Item>, ok: seq<bool>, stuck: set<Item>)
    requires !os.Linux? && |ok| == |plan| && Sound(os, plan)
    ensures Revert(os, Tries(os, t0, plan, ok), stuck)
            == (set q | q in t0 && !LostTo(os, t0, plan, ok, stuck, q)) + LeftOf(os, t0, plan, ok, stuck)
  {
    hide Tries, Pops, Taken, Sound, Inv, Grown, Named;
    var p := Tries(os, t0, plan, ok);
    TriesKeepInv(os, t0, plan, ok);
    StackIff(os, t0, plan, ok);
    forall j | 0 <= j < |p.stack| ensures Planned(os, t0, plan, ok, p.stack[j]) {
      assert p.stack[j] in p.stack;
    }
    PopsTable(os, t0, plan, p, stuck, |p.stack|);
    assert Added(os, t0, p.stack[..0]) == {};
    assert Left(os, t0, p.stack, stuck, 0) == LeftOf(os, t0, plan, ok, stuck);
    forall q ensures Lost(os, p.stack, stuck, 0, q) <==> LostTo(os, t0, plan, ok, stuck, q) {
      if LostTo(os, t0, plan, ok, stuck, q) {
        var i :| 0 <= i < |plan| && Stacks(os, t0, plan, ok, i) && plan[i] !in stuck && Named(os, q, plan[i]);
        assert plan[i] in p.stack;
        var j :| 0 <= j < |p.stack| && p.stack[j] == plan[i];
      }
    }
  }
}
