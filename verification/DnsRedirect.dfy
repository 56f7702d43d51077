/** The DNS redirect rules of Linux auto-route, with nftables and with iptables
    (internal/autoroute/autoroute_linux.go, `applyNft` to `cleanupIPTables`). */
module DnsRedirect {
  import opened Addresses
  import opened AutoRoute

  /** The socket mark of the relay's own queries. */
  const MARK: int := 0x6e74

  datatype Proto = Udp | Tcp | OtherProto
  datatype Packet = Packet(proto: Proto, daddr: Addr, dport: nat, mark: int)

  /** Port 53 of one protocol to the gateway, except packets that are marked or already on their way there. */
  datatype Rule = Redirect(proto: Proto, gw: Addr) | Foreign(id: int)

  predicate Matches(r: Rule, p: Packet) {
    r.Redirect? && p.proto == r.proto && p.dport == 53 && p.daddr != r.gw && p.mark != MARK
  }

  /** The first matching rule of ours rewrites the destination. */
  function Eval(rules: seq<Rule>, p: Packet): Packet {
    if rules == [] then p
    else if Matches(rules[0], p) then p.(daddr := rules[0].gw)
    else Eval(rules[1..], p)
  }

  /** nanotun_dns in family ip, nanotun_dns6 in family ip6, and everybody else's tables. */
  datatype TableName = OwnTable4 | OwnTable6 | OtherTable(name: string)

  /** The netfilter state: the two OUTPUT chains of the nat tables, and the nftables tables by name. */
  datatype Nat = Nat(out4: seq<Rule>, out6: seq<Rule>, nft: map<TableName, seq<Rule>>)

  // ---- iptables ----

  /** The four rules in the order their commands run. */
  function IptRule(i: nat): Rule
    requires i < 4
  {
    Redirect(if i % 2 == 0 then Udp else Tcp, if i < 2 then GW4 else GW6)
  }

  function Chain(nf: Nat, i: nat): seq<Rule> {
    if i < 2 then nf.out4 else nf.out6
  }

  /** `-I OUTPUT`: insert at the head. */
  function Insert(nf: Nat, i: nat): Nat
    requires i < 4
  {
    if i < 2 then nf.(out4 := [IptRule(i)] + nf.out4) else nf.(out6 := [IptRule(i)] + nf.out6)
  }

  /** `-D`: remove the first equal rule, if any. */
  function RemoveFirst(rules: seq<Rule>, r: Rule): seq<Rule> {
    if rules == [] then []
    else if rules[0] == r then rules[1..]
    else [rules[0]] + RemoveFirst(rules[1..], r)
  }

  function Remove(nf: Nat, i: nat): Nat
    requires i < 4
  {
    if i < 2 then nf.(out4 := RemoveFirst(nf.out4, IptRule(i))) else nf.(out6 := RemoveFirst(nf.out6, IptRule(i)))
  }

  function RemoveIf(nf: Nat, i: nat, works: bool): Nat
    requires i < 4
  {
    if works then Remove(nf, i) else nf
  }

  /** The first `k` deletions, those that do not work without effect. */
  function Removals(nf: Nat, works: seq<bool>, k: nat): Nat
    requires k <= 4 == |works|
  {
    if k == 0 then nf else RemoveIf(Removals(nf, works, k - 1), k - 1, works[k - 1])
  }

  function CleanupIpt(nf: Nat, works: seq<bool>): Nat
    requires |works| == 4
  {
    Removals(nf, works, 4)
  }

  /** Which insertions take place, given which commands would work: the IPv4 ones stop at the first failure,
      the IPv6 ones are tried only after both IPv4 ones. */
  predicate Inserted(ok: seq<bool>, i: nat)
    requires |ok| == 4 && i < 4
  {
    match i
    case 0 => ok[0]
    case 1 => ok[0] && ok[1]
    case _ => ok[0] && ok[1] && ok[i]
  }

  function InsertIf(nf: Nat, i: nat, yes: bool): Nat
    requires i < 4
  {
    if yes then Insert(nf, i) else nf
  }

  /** The first `k` insertions, those that do not take place without effect. */
  function Insertions(nf: Nat, ok: seq<bool>, k: nat): Nat
    requires k <= 4 == |ok|
  {
    if k == 0 then nf else InsertIf(Insertions(nf, ok, k - 1), k - 1, Inserted(ok, k - 1))
  }

  /** All insertions that take place. */
  function Installed(nf: Nat, ok: seq<bool>): Nat
    requires |ok| == 4
  {
    Insertions(nf, ok, 4)
  }

  /** `applyIPTables`: cleans up itself when an IPv4 command fails. */
  function ApplyIpt(nf: Nat, ok: seq<bool>, works: seq<bool>): (Nat, bool)
    requires |ok| == |works| == 4
  {
    if ok[0] && ok[1] then (Installed(nf, ok), true) else (CleanupIpt(Installed(nf, ok), works), false)
  }

  /** Apply, and clean up later if that was not done already. */
  function IptRoundTrip(nf: Nat, ok: seq<bool>, works: seq<bool>): Nat
    requires |ok| == |works| == 4
  {
    var (n, done) := ApplyIpt(nf, ok, works);
    if done then CleanupIpt(n, works) else n
  }

  function Count(rules: seq<Rule>, r: Rule): nat {
    if rules == [] then 0 else Count(rules[1..], r) + if rules[0] == r then 1 else 0
  }

  lemma {:induction false} RemoveFirstSameIff(rules: seq<Rule>, r: Rule)
    ensures RemoveFirst(rules, r) == rules <==> r !in rules
    ensures r in rules <==> Count(rules, r) > 0
  {
    if rules != [] {
      RemoveFirstSameIff(rules[1..], r);
      assert rules == [rules[0]] + rules[1..];
    }
  }

  lemma {:induction false} RemoveFirstCount(rules: seq<Rule>, r: Rule, x: Rule)
    ensures Count(RemoveFirst(rules, r), x) == Count(rules, x) - if x == r && Count(rules, r) > 0 then 1 else 0
  {
    if rules != [] && rules[0] != r {
      RemoveFirstCount(rules[1..], r, x);
      var rest := RemoveFirst(rules[1..], r);
      assert ([rules[0]] + rest)[1..] == rest;
    }
  }

  lemma CountHead(c: seq<Rule>, u: Rule, x: Rule)
    ensures Count([u] + c, x) == Count(c, x) + if x == u then 1 else 0
  {
    assert ([u] + c)[1..] == c;
  }

  /** The deletion of a rule leaves no trace: it works and the rule was inserted or never there, or it fails and
      the rule was not inserted. */
  predicate Spotless(rules: seq<Rule>, r: Rule, inserted: bool, works: bool) {
    if works then inserted || r !in rules else !inserted
  }

  function Undo(c: seq<Rule>, u: Rule, t: Rule, insU: bool, insT: bool, delU: bool, delT: bool): seq<Rule> {
    var c1 := if insU then [u] + c else c;
    var c2 := if insT then [t] + c1 else c1;
    var c3 := if delU then RemoveFirst(c2, u) else c2;
    if delT then RemoveFirst(c3, t) else c3
  }

  /** One chain: two head insertions, in this order, undone by two first-match deletions. */
  lemma ChainRestoredIff(c: seq<Rule>, u: Rule, t: Rule, insU: bool, insT: bool, delU: bool, delT: bool)
    requires u != t
    ensures Undo(c, u, t, insU, insT, delU, delT) == c <==> Spotless(c, u, insU, delU) && Spotless(c, t, insT, delT)
  {
    hide RemoveFirst, Count;
    UndoCount(c, u, t, insU, insT, delU, delT);
    RemoveFirstSameIff(c, u);
    RemoveFirstSameIff(c, t);
    var c1 := if insU then [u] + c else c;
    RemoveBehindHead(c1, u, t);
    RemoveHead(c, t);
    RemoveHead(c, u);
  }

  /** What is left of each rule. */
  lemma UndoCount(c: seq<Rule>, u: Rule, t: Rule, insU: bool, insT: bool, delU: bool, delT: bool)
    requires u != t
    ensures var r := Undo(c, u, t, insU, insT, delU, delT);
            && Count(r, u) == Remaining(Count(c, u), insU, delU) && Count(r, t) == Remaining(Count(c, t), insT, delT)
  {
    hide RemoveFirst, Count;
    var c1 := if insU then [u] + c else c;
    var c2 := if insT then [t] + c1 else c1;
    var c3 := if delU then RemoveFirst(c2, u) else c2;
    forall x ensures Count(c2, x) == Count(c, x) + (if insU && x == u then 1 else 0)
                       + (if insT && x == t then 1 else 0) {
      CountHead(c, u, x);
      CountHead(c1, t, x);
    }
    RemoveFirstCount(c2, u, u);
    RemoveFirstCount(c2, u, t);
    RemoveFirstCount(c3, t, u);
    RemoveFirstCount(c3, t, t);
  }

  function Remaining(n: nat, ins: bool, del: bool): nat {
    var more := n + if ins then 1 else 0;
    if del && more > 0 then more - 1 else more
  }

  lemma RemoveHead(c: seq<Rule>, u: Rule)
    ensures RemoveFirst([u] + c, u) == c
  {
    assert ([u] + c)[1..] == c;
  }

  lemma RemoveBehindHead(c: seq<Rule>, u: Rule, t: Rule)
    requires u != t
    ensures RemoveFirst([t] + c, u) == [t] + RemoveFirst(c, u)
  {
    assert ([t] + c)[1..] == c;
  }

  /** Exactly when a partial or full iptables run with its cleanup gives back both chains, order included,
      whichever insertions and deletions fail. */
  lemma IptablesRestoresIff(nf: Nat, ok: seq<bool>, works: seq<bool>)
    requires |ok| == |works| == 4
    ensures IptRoundTrip(nf, ok, works) == nf <==>
              forall i :: 0 <= i < 4 ==> Spotless(Chain(nf, i), IptRule(i), Inserted(ok, i), works[i])
  {
    ChainRestoredIff(nf.out4, IptRule(0), IptRule(1), Inserted(ok, 0), Inserted(ok, 1), works[0], works[1]);
    ChainRestoredIff(nf.out6, IptRule(2), IptRule(3), Inserted(ok, 2), Inserted(ok, 3), works[2], works[3]);
    hide Spotless, Inserted, IptRoundTrip, Undo;
    RoundTripByChain(nf, ok, works);
    var r := IptRoundTrip(nf, ok, works);
    assert r == nf <==> r.out4 == nf.out4 && r.out6 == nf.out6;
    AllFour(nf, ok, works);
  }

  lemma RoundTripByChain(nf: Nat, ok: seq<bool>, works: seq<bool>)
    requires |ok| == |works| == 4
    ensures IptRoundTrip(nf, ok, works) == nf.(
      out4 := Undo(nf.out4, IptRule(0), IptRule(1), Inserted(ok, 0), Inserted(ok, 1), works[0], works[1]),
      out6 := Undo(nf.out6, IptRule(2), IptRule(3), Inserted(ok, 2), Inserted(ok, 3), works[2], works[3]))
  {
    hide Inserted, RemoveFirst, Insertions, Removals;
    FourInsertions(nf, ok);
    FourRemovals(Installed(nf, ok), works);
  }

  lemma FourInsertions(nf: Nat, ok: seq<bool>)
    requires |ok| == 4
    ensures Installed(nf, ok) ==
      InsertIf(InsertIf(InsertIf(InsertIf(nf, 0, Inserted(ok, 0)), 1, Inserted(ok, 1)),
               2, Inserted(ok, 2)), 3, Inserted(ok, 3))
  {
    assert Insertions(nf, ok, 1) == InsertIf(nf, 0, Inserted(ok, 0));
    assert Insertions(nf, ok, 2) == InsertIf(Insertions(nf, ok, 1), 1, Inserted(ok, 1));
    assert Insertions(nf, ok, 3) == InsertIf(Insertions(nf, ok, 2), 2, Inserted(ok, 2));
  }

  lemma FourRemovals(nf: Nat, works: seq<bool>)
    requires |works| == 4
    ensures CleanupIpt(nf, works) ==
      RemoveIf(RemoveIf(RemoveIf(RemoveIf(nf, 0, works[0]), 1, works[1]), 2, works[2]), 3, works[3])
  {
    assert Removals(nf, works, 1) == RemoveIf(nf, 0, works[0]);
    assert Removals(nf, works, 2) == RemoveIf(Removals(nf, works, 1), 1, works[1]);
    assert Removals(nf, works, 3) == RemoveIf(Removals(nf, works, 2), 2, works[2]);
  }

  lemma AllFour(nf: Nat, ok: seq<bool>, works: seq<bool>)
    requires |ok| == |works| == 4
    ensures (forall i :: 0 <= i < 4 ==> Spotless(Chain(nf, i), IptRule(i), Inserted(ok, i), works[i])) <==>
      && Spotless(nf.out4, IptRule(0), Inserted(ok, 0), works[0])
      && Spotless(nf.out4, IptRule(1), Inserted(ok, 1), works[1])
      && Spotless(nf.out6, IptRule(2), Inserted(ok, 2), works[2])
      && Spotless(nf.out6, IptRule(3), Inserted(ok, 3), works[3])
  {
    if forall i :: 0 <= i < 4 ==> Spotless(Chain(nf, i), IptRule(i), Inserted(ok, i), works[i]) {
      assert Spotless(Chain(nf, 0), IptRule(0), Inserted(ok, 0), works[0]);
      assert Spotless(Chain(nf, 1), IptRule(1), Inserted(ok, 1), works[1]);
      assert Spotless(Chain(nf, 2), IptRule(2), Inserted(ok, 2), works[2]);
      assert Spotless(Chain(nf, 3), IptRule(3), Inserted(ok, 3), works[3]);
    }
  }

  /** Which rules stand where after the insertions: newest first, TCP above UDP, the IPv4 ones up to the first failure
      and the IPv6 ones, each on its own, only after both. */
  lemma IptablesInstalls(nf: Nat, ok: seq<bool>)
    requires |ok| == 4
    ensures var both := ok[0] && ok[1];
            var gw4, gw6 := V4(0xC612_0001), V6(0xfdfe_dcba_9876_0000_0000_0000_0000_0001);
            Installed(nf, ok) == nf.(
              out4 := (if both then [Redirect(Tcp, gw4)] else [])
                      + (if ok[0] then [Redirect(Udp, gw4)] else []) + nf.out4,
              out6 := (if both && ok[3] then [Redirect(Tcp, gw6)] else [])
                      + (if both && ok[2] then [Redirect(Udp, gw6)] else []) + nf.out6)
  {
    FourInsertions(nf, ok);
  }

  // ---- nftables ----

  /** Four commands per family: table, chain, UDP rule, TCP rule. */
  function NftTable(i: nat): TableName {
    if i < 4 then OwnTable4 else OwnTable6
  }

  function NftCommand(nf: Nat, i: nat): Nat
    requires i < 8
  {
    var name := NftTable(i);
    var rules := if name in nf.nft then nf.nft[name] else [];
    if i % 4 < 2 then nf.(nft := nf.nft[name := rules])
    else nf.(nft := nf.nft[name := rules + [Redirect(if i % 4 == 2 then Udp else Tcp, if i < 4 then GW4 else GW6)]])
  }

  function NftCommands(nf: Nat, k: nat): Nat
    requires k <= 8
  {
    if k == 0 then nf else NftCommand(NftCommands(nf, k - 1), k - 1)
  }

  /** How many commands run before the first that fails. */
  function Ran(ok: seq<bool>): (k: nat)
    ensures k <= |ok| && (forall i :: 0 <= i < k ==> ok[i]) && (k < |ok| ==> !ok[k])
  {
    if ok == [] || !ok[0] then 0 else 1 + Ran(ok[1..])
  }

  /** `nft delete table` for both tables; the commands for the tables in `stuck` fail. */
  function CleanupNft(nf: Nat, stuck: set<TableName>): Nat {
    nf.(nft := nf.nft - ({OwnTable4, OwnTable6} - stuck))
  }

  /** After `k` commands one of the own tables is as it was: they did not reach it, or they asked for a table and
      a chain that were there. */
  predicate Untouched(nf: Nat, k: nat, name: TableName) {
    var base := if name == OwnTable4 then 0 else 4;
    k <= base || (name in nf.nft && k <= base + 2)
  }

  lemma {:induction false} NftTouches(nf: Nat, k: nat, name: TableName)
    requires k <= 8 && name in {OwnTable4, OwnTable6}
    ensures var m, base := NftCommands(nf, k).nft, if name == OwnTable4 then 0 else 4;
            var rules := if name in nf.nft then nf.nft[name] else [];
            && (name in m <==> name in nf.nft || k > base)
            && (name in m ==> if k <= base + 2 then m[name] == rules else |m[name]| > |rules|)
  {
    if k > 0 { NftTouches(nf, k - 1, name); }
  }

  lemma {:induction false} NftSparesOthers(nf: Nat, k: nat)
    requires k <= 8
    ensures var r := NftCommands(nf, k); r.out4 == nf.out4 && r.out6 == nf.out6
    ensures NftCommands(nf, k).nft - {OwnTable4, OwnTable6} == nf.nft - {OwnTable4, OwnTable6}
  {
    if k > 0 { NftSparesOthers(nf, k - 1); }
  }

  /** The deletion of an own table leaves no trace. */
  predicate SpotlessTable(nf: Nat, k: nat, stuck: set<TableName>, name: TableName) {
    if name in stuck then Untouched(nf, k, name) else name !in nf.nft
  }

  /** However many commands ran and whichever deletion fails, exactly when the cleanup gives back the state. */
  lemma NftRestoresIff(nf: Nat, k: nat, stuck: set<TableName>)
    requires k <= 8
    ensures CleanupNft(NftCommands(nf, k), stuck) == nf
            <==> SpotlessTable(nf, k, stuck, OwnTable4) && SpotlessTable(nf, k, stuck, OwnTable6)
  {
    hide NftCommands;
    var r := CleanupNft(NftCommands(nf, k), stuck);
    NftSparesOthers(nf, k);
    OwnTableBackIff(nf, k, stuck, OwnTable4);
    OwnTableBackIff(nf, k, stuck, OwnTable6);
    if r.nft != nf.nft && SameEntry(r.nft, nf.nft, OwnTable4) && SameEntry(r.nft, nf.nft, OwnTable6) {
      SameElsewhere(NftCommands(nf, k).nft, nf.nft, stuck);
    }
  }

  predicate SameEntry(a: map<TableName, seq<Rule>>, b: map<TableName, seq<Rule>>, name: TableName) {
    (name in a <==> name in b) && (name in a ==> a[name] == b[name])
  }

  lemma OwnTableBackIff(nf: Nat, k: nat, stuck: set<TableName>, name: TableName)
    requires k <= 8 && name in {OwnTable4, OwnTable6}
    ensures SameEntry(CleanupNft(NftCommands(nf, k), stuck).nft, nf.nft, name) <==> SpotlessTable(nf, k, stuck, name)
  {
    hide NftCommands;
    NftTouches(nf, k, name);
  }

  lemma SameElsewhere(m: map<TableName, seq<Rule>>, n: map<TableName, seq<Rule>>, stuck: set<TableName>)
    requires m - {OwnTable4, OwnTable6} == n - {OwnTable4, OwnTable6}
    requires var r := m - ({OwnTable4, OwnTable6} - stuck); SameEntry(r, n, OwnTable4) && SameEntry(r, n, OwnTable6)
    ensures m - ({OwnTable4, OwnTable6} - stuck) == n
  {
    var own := {OwnTable4, OwnTable6};
    var r := m - (own - stuck);
    forall x | x !in own ensures SameEntry(r, n, x) {
      assert x in m <==> x in m - own;
      assert x in n <==> x in n - own;
      if x in m { assert m[x] == (m - own)[x] == (n - own)[x] == n[x]; }
    }
    forall x ensures SameEntry(r, n, x) {
      if x in own { assert x == OwnTable4 || x == OwnTable6; }
    }
    assert forall x :: SameEntry(r, n, x) ==> (x in r <==> x in n);
  }

  // ---- What the rules do to packets ----

  /** What the redirect is for: UDP and TCP to port 53 go to the gateway, unless they are on their way there or
      carry the mark of the relay's own queries. */
  function Redirected(p: Packet, gw: Addr): Packet {
    if p.proto != OtherProto && p.dport == 53 && p.daddr != gw && p.mark != 0x6e74 then p.(daddr := gw) else p
  }

  /** Both backends, installed in full, rewrite every packet the same way, whatever foreign rules iptables
      had before and none of ours among them; a marked packet is left alone, and a second pass changes nothing. */
  lemma BackendsAgree(nf: Nat, p: Packet, ok: seq<bool>)
    requires ok == [true, true, true, true] && OwnTable4 !in nf.nft && OwnTable6 !in nf.nft
    requires forall r :: r in nf.out4 || r in nf.out6 ==> r.Foreign?
    ensures OwnTable4 in NftCommands(nf, 8).nft && OwnTable6 in NftCommands(nf, 8).nft
    ensures Eval(Installed(nf, ok).out4, p) == Eval(NftCommands(nf, 8).nft[OwnTable4], p) == Redirected(p, GW4)
    ensures Eval(Installed(nf, ok).out6, p) == Eval(NftCommands(nf, 8).nft[OwnTable6], p) == Redirected(p, GW6)
    ensures p.mark == 0x6e74 ==> Redirected(p, GW4) == p && Redirected(p, GW6) == p
    ensures Redirected(Redirected(p, GW4), GW4) == Redirected(p, GW4)
    ensures Redirected(Redirected(p, GW6), GW6) == Redirected(p, GW6)
  {
    NftFull(nf);
    FourInsertions(nf, ok);
    EvalPair(Udp, Tcp, GW4, [], p);
    EvalPair(Udp, Tcp, GW6, [], p);
    EvalPair(Tcp, Udp, GW4, nf.out4, p);
    EvalPair(Tcp, Udp, GW6, nf.out6, p);
    assert Installed(nf, ok).out4 == [Redirect(Tcp, GW4), Redirect(Udp, GW4)] + nf.out4;
    assert Installed(nf, ok).out6 == [Redirect(Tcp, GW6), Redirect(Udp, GW6)] + nf.out6;
    assert [Redirect(Udp, GW4), Redirect(Tcp, GW4)] + [] == [Redirect(Udp, GW4), Redirect(Tcp, GW4)];
    assert [Redirect(Udp, GW6), Redirect(Tcp, GW6)] + [] == [Redirect(Udp, GW6), Redirect(Tcp, GW6)];
  }

  lemma {:induction false} EvalForeign(rules: seq<Rule>, p: Packet)
    requires forall r :: r in rules ==> r.Foreign?
    ensures Eval(rules, p) == p
  {
    if rules != [] {
      assert rules[0] in rules;
      EvalForeign(rules[1..], p);
    }
  }

  lemma EvalPair(first: Proto, second: Proto, gw: Addr, rest: seq<Rule>, p: Packet)
    requires (first == Udp && second == Tcp) || (first == Tcp && second == Udp)
    requires forall r :: r in rest ==> r.Foreign?
    ensures Eval([Redirect(first, gw), Redirect(second, gw)] + rest, p) == Redirected(p, gw)
  {
    var rules := [Redirect(first, gw), Redirect(second, gw)] + rest;
    assert rules[1..] == [Redirect(second, gw)] + rest;
    assert rules[1..][1..] == rest;
    EvalForeign(rest, p);
  }

  lemma NftFull(nf: Nat)
    requires OwnTable4 !in nf.nft && OwnTable6 !in nf.nft
    ensures var m := NftCommands(nf, 8).nft;
            && OwnTable4 in m && m[OwnTable4] == [Redirect(Udp, GW4), Redirect(Tcp, GW4)]
            && OwnTable6 in m && m[OwnTable6] == [Redirect(Udp, GW6), Redirect(Tcp, GW6)]
  {
    var n1 := NftCommand(nf, 0);
    assert NftCommands(nf, 0) == nf;
    assert n1 == NftCommands(nf, 1);
    assert n1.nft[OwnTable4] == [] && OwnTable6 !in n1.nft;
    var n2 := NftCommand(n1, 1);
    var n3 := NftCommand(n2, 2);
    var n4 := NftCommand(n3, 3);
    assert n2 == NftCommands(nf, 2);
    assert n3 == NftCommands(nf, 3);
    assert n4 == NftCommands(nf, 4);
    assert n4.nft[OwnTable4] == [Redirect(Udp, GW4), Redirect(Tcp, GW4)] && OwnTable6 !in n4.nft;
    var n5 := NftCommand(n4, 4);
    var n6 := NftCommand(n5, 5);
    var n7 := NftCommand(n6, 6);
    assert n5 == NftCommands(nf, 5);
    assert n6 == NftCommands(nf, 6);
    assert n7 == NftCommands(nf, 7);
  }

  // ---- The commands one by one ----

  class Netfilter {
    var state: Nat

    constructor (state: Nat)
      ensures this.state == state
    {
      this.state := state;
    }

    /** Stops and cleans up at the first command that fails. */
    method ApplyNft(ok: seq<bool>, stuck: set<TableName>) returns (done: bool)
      requires |ok| == 8
      modifies this
      ensures done <==> Ran(ok) == 8
      ensures done ==> state == NftCommands(old(state), 8)
      ensures !done ==> state == CleanupNft(NftCommands(old(state), Ran(ok)), stuck)
    {
      for i := 0 to 8
        invariant state == NftCommands(old(state), i) && forall j :: 0 <= j < i ==> ok[j]
      {
        if !ok[i] {
          var err := DeleteNftTables(stuck);
          return false;
        }
        state := NftCommand(state, i);
      }
      done := true;
    }

    /** `nft delete table`: an error when the table is not there. */
    method DeleteTable(name: TableName, stuck: bool) returns (ok: bool)
      modifies this
      ensures ok <==> name in old(state).nft && !stuck
      ensures state == if ok then old(state).(nft := old(state).nft - {name}) else old(state)
    {
      if name !in state.nft || stuck { return false; }
      state := state.(nft := state.nft - {name});
      ok := true;
    }

    /** Both own tables go, everything else stays, and an error means that one of them was missing or stuck. */
    method DeleteNftTables(stuck: set<TableName>) returns (ok: bool)
      modifies this
      ensures forall name :: name in {OwnTable4, OwnTable6} ==>
        if name in stuck then SameEntry(state.nft, old(state).nft, name) else name !in state.nft
      ensures forall name :: name !in {OwnTable4, OwnTable6} ==> SameEntry(state.nft, old(state).nft, name)
      ensures state.out4 == old(state).out4 && state.out6 == old(state).out6
      ensures ok <==> forall name :: name in {OwnTable4, OwnTable6} ==> name in old(state).nft && name !in stuck
      ensures state == CleanupNft(old(state), stuck)
    {
      var names := [OwnTable4, OwnTable6];
      ok := true;
      for i := 0 to 2
        invariant state == old(state).(nft := old(state).nft - ((set x | x in names[..i]) - stuck))
        invariant ok <==> forall j :: 0 <= j < i ==> names[j] in old(state).nft && names[j] !in stuck
      {
        assert names[..i + 1] == names[..i] + [names[i]];
        var done := DeleteTable(names[i], names[i] in stuck);
        if !done { ok := false; }
      }
      assert names[..2] == names && names[0] == OwnTable4 && names[1] == OwnTable6;
      assert (set x | x in names) == {OwnTable4, OwnTable6};
    }

    method ApplyIPTables(ok: seq<bool>, works: seq<bool>) returns (done: bool)
      requires |ok| == |works| == 4
      modifies this
      ensures (state, done) == ApplyIpt(old(state), ok, works)
    {
      for i := 0 to 2
        invariant state == Insertions(old(state), ok, i) && forall j :: 0 <= j < i ==> ok[j]
      {
        if !ok[i] {
          StoppedAt(old(state), ok, i);
          DeleteIPTablesRules(works);
          return false;
        }
        state := Insert(state, i);
      }
      if ok[2] { state := Insert(state, 2); }
      assert state == Insertions(old(state), ok, 3);
      if ok[3] { state := Insert(state, 3); }
      done := true;
    }

    method DeleteIPTablesRules(works: seq<bool>)
      requires |works| == 4
      modifies this
      ensures state == CleanupIpt(old(state), works)
    {
      for i := 0 to 4
        invariant state == Removals(old(state), works, i)
      {
        if works[i] { state := Remove(state, i); }
      }
    }
  }

  /** After a failing IPv4 command nothing more is inserted. */
  lemma StoppedAt(nf: Nat, ok: seq<bool>, i: nat)
    requires |ok| == 4 && i < 2 && !ok[i]
    ensures Installed(nf, ok) == Insertions(nf, ok, i)
  {
    FourInsertions(nf, ok);
    assert Insertions(nf, ok, 1) == InsertIf(nf, 0, Inserted(ok, 0));
  }
}
