/** The process-exclusion matcher as a concurrent protocol (internal/exclude/matcher.go): periodic scans,
    on-miss scans and readers interleave.  Each step is one acquisition of the lock, one connection probe, or
    one question for a process name (opening the process and reading its name, with nothing shared in between).
    A run is any sequence of events; an event that is not enabled changes nothing but the step count. */
module MatcherProtocol {
  import opened Text
  import opened ProcessNames
  import opened FlowTable

  const SECOND: int := 1_000_000_000

  /** Where a cached name came from: this scan's own question to the operating system, or the name
      cache as published by the scan with that index. */
  datatype Source = FromOs(raw: string) | FromCache(index: nat)

  type Answers = seq<Option<seq<Conn>>>

  /** What one scan publishes under the lock.  `pids`, `sources`, `probes` (the answers to the four connection
      probes) and `begun` (how many snapshots were published at the first of them) are not stored by the
      program; they record where the maps came from. */
  datatype Snapshot = Snapshot(flows: map<Flow, int>, pids: set<int>, names: map<int, string>,
                               sources: map<int, Source>, probes: Answers, begun: nat, at: int)

  datatype Why = Periodic | OnMiss(key: Flow, ticket: nat)

  datatype Thread =
    | Asked(key: Flow)                  // ShouldSkip, before the first look-up
    | Missed(key: Flow)                 // refreshOnMiss, before the staleness check
    | Probing(why: Why, begun: nat, probes: Answers)    // scanOnce, with the answers so far
    | Resolving(why: Why, begun: nat, probes: Answers, todo: set<int>, asking: Option<int>,
                names: map<int, string>, sources: map<int, Source>)
    | Retry(key: Flow)                  // ShouldSkip, before the second look-up
    | Found(key: Flow, pid: int, pidAt: nat)
    | Answered(key: Flow, verdict: bool, pidAt: nat, nameAt: nat)
    | Finished                          // a periodic scan that is over

  /** An on-miss scan: when and at which step its staleness check passed, when it started probing, and
      the time and step of its publication. */
  datatype Miss = Miss(thread: nat, checkedAt: int, checkStep: nat, startedAt: Option<int>,
                       published: Option<(int, nat)>)

  datatype State = State(published: seq<Snapshot>, lastScan: Option<int>, now: int, step: nat,
                         threads: map<nat, Thread>, misses: seq<Miss>)

  datatype Event =
    | Tick(dt: nat)
    | Call(t: nat, key: Flow)
    | StartScan(t: nat)
    | Lookup(t: nat)
    | Check(t: nat)
    | Probe(t: nat, answer: Option<seq<Conn>>)
    | Peek(t: nat, pid: int)
    | Ask(t: nat, name: Option<string>)
    | Publish(t: nat)

  // ---- Steps ----

  function Init(now: int): State {
    State([Snapshot(map[], {}, map[], map[], [], 0, now)], None, now, 0, map[], [])
  }

  function PidOf(snap: Snapshot, key: Flow): int {
    if key in snap.flows then snap.flows[key] else 0
  }

  function NameIn(names: map<int, string>, pid: int): string {
    if pid in names then names[pid] else ""
  }

  /** The last step of `ShouldSkip`. */
  predicate IsTarget(targets: set<string>, cached: string) {
    Normalize(cached) != "" && Normalize(cached) in targets
  }

  predicate Stale(s: State) {
    s.lastScan.None? || s.now - s.lastScan.value > SECOND
  }

  /** `scanOnce` after the next probe: the fourth starts the resolution of names. */
  function AfterProbe(th: Thread, published: nat, answer: Option<seq<Conn>>): Thread
    requires th.Probing?
  {
    var begun, probes := if th.probes == [] then published else th.begun, th.probes + [answer];
    if |probes| < 4 then Probing(th.why, begun, probes)
    else Resolving(th.why, begun, probes, TableOf(Rows(probes)).pids, None, map[], map[])
  }

  /** `resolveProcessNames` takes the next PID and looks it up in the cache as published now. */
  function AfterPeek(th: Thread, cache: map<int, string>, index: nat, pid: int): Thread
    requires th.Resolving?
  {
    var rest := th.(todo := th.todo - {pid});
    if pid == 0 then rest
    else if NameIn(cache, pid) != "" then
      rest.(names := th.names[pid := NameIn(cache, pid)], sources := th.sources[pid := FromCache(index)])
    else rest.(asking := Some(pid))
  }

  /** The answer of the operating system about the PID that was not in the cache. */
  function AfterAsk(th: Thread, pid: int, name: Option<string>): Thread
    requires th.Resolving?
  {
    var rest := th.(asking := None);
    if name.None? then rest
    else rest.(names := th.names[pid := Normalize(name.value)], sources := th.sources[pid := FromOs(name.value)])
  }

  function Step(targets: set<string>, s: State, e: Event): State
    requires s.published != []
  {
    var cur := |s.published| - 1;
    var snap := s.published[cur];
    var s1 := s.(step := s.step + 1);
    if e.Tick? then s1.(now := s.now + e.dt)
    else if e.t !in s.threads then
      match e
      case Call(t, key) => s1.(threads := s.threads[t := Asked(key)])
      case StartScan(t) => s1.(threads := s.threads[t := Probing(Periodic, 0, [])])
      case _ => s1
    else
      var t, th := e.t, s.threads[e.t];
      match e
      case Lookup(_) =>
        (match th
         case Asked(key) =>
           var pid := PidOf(snap, key);
           s1.(threads := s.threads[t := if pid == 0 then Missed(key) else Found(key, pid, cur)])
         case Retry(key) =>
           var pid := PidOf(snap, key);
           s1.(threads := s.threads[t := if pid == 0 then Answered(key, false, cur, cur) else Found(key, pid, cur)])
         case Found(key, pid, pidAt) =>
           s1.(threads := s.threads[t := Answered(key, IsTarget(targets, NameIn(snap.names, pid)), pidAt, cur)])
         case _ => s1)
      case Check(_) =>
        if !th.Missed? then s1
        else if Stale(s) then
          s1.(threads := s.threads[t := Probing(OnMiss(th.key, |s.misses|), 0, [])],
              misses := s.misses + [Miss(t, s.now, s.step, None, None)])
        else s1.(threads := s.threads[t := Retry(th.key)])
      case Probe(_, answer) =>
        if !th.Probing? then s1
        else
          s1.(threads := s.threads[t := AfterProbe(th, |s.published|, answer)],
              misses := if th.probes == [] && th.why.OnMiss? && th.why.ticket < |s.misses|
                        then s.misses[th.why.ticket := s.misses[th.why.ticket].(startedAt := Some(s.now))]
                        else s.misses)
      case Peek(_, pid) =>
        if !th.Resolving? || th.asking.Some? || pid !in th.todo then s1
        else s1.(threads := s.threads[t := AfterPeek(th, snap.names, cur, pid)])
      case Ask(_, name) =>
        if !th.Resolving? || th.asking.None? then s1
        else s1.(threads := s.threads[t := AfterAsk(th, th.asking.value, name)])
      case Publish(_) =>
        if !th.Resolving? || th.asking.Some? || th.todo != {} then s1
        else
          s1.(published := s.published + [NewSnapshot(th, s.now)],
              lastScan := Some(s.now),
              threads := s.threads[t := if th.why.OnMiss? then Retry(th.why.key) else Finished],
              misses := if th.why.OnMiss? && th.why.ticket < |s.misses|
                        then s.misses[th.why.ticket := s.misses[th.why.ticket].(published := Some((s.now, s.step)))]
                        else s.misses)
      case _ => s1
  }

  function NewSnapshot(th: Thread, now: int): Snapshot
    requires th.Resolving?
  {
    var table := TableOf(Rows(th.probes));
    Snapshot(table.flows, table.pids, th.names, th.sources, th.probes, th.begun, now)
  }

  function Run(targets: set<string>, start: int, es: seq<Event>): (s: State)
    ensures s.published != []
  {
    if es == [] then Init(start) else Step(targets, Run(targets, start, es[..|es| - 1]), es[|es| - 1])
  }

  // ---- What every step keeps: snapshots and readers ----

  predicate SourceOk(p: seq<Snapshot>, begun: nat, pid: int, name: string, source: Source) {
    match source
    case FromOs(raw) => name == Normalize(raw)
    case FromCache(c) => begun <= c + 1 && c < |p| && pid in p[c].names && p[c].names[pid] == name && name != ""
  }

  predicate NamesOk(p: seq<Snapshot>, begun: nat, pids: set<int>, names: map<int, string>, sources: map<int, Source>) {
    && names.Keys == sources.Keys
    && forall pid :: pid in names ==> pid != 0 && pid in pids && SourceOk(p, begun, pid, names[pid], sources[pid])
  }

  /** A snapshot's flows and PIDs are those of its own probes, and its names only depend on earlier snapshots. */
  predicate SnapshotOk(p: seq<Snapshot>, i: nat)
    requires i < |p|
  {
    && Table(p[i].flows, p[i].pids) == TableOf(Rows(p[i].probes))
    && p[i].begun <= i
    && NamesOk(p[..i], p[i].begun, p[i].pids, p[i].names, p[i].sources)
    && forall j :: 0 <= j < i ==> p[j].at <= p[i].at
  }

  /** The answer of `ShouldSkip` on the snapshots its two reads saw. */
  predicate AnswerOk(targets: set<string>, p: seq<Snapshot>, key: Flow, verdict: bool, pidAt: nat, nameAt: nat) {
    && pidAt <= nameAt < |p|
    && var pid := PidOf(p[pidAt], key);
       verdict <==> pid != 0 && IsTarget(targets, NameIn(p[nameAt].names, pid))
  }

  predicate ThreadOk(targets: set<string>, p: seq<Snapshot>, th: Thread) {
    match th
    case Probing(_, begun, _) => begun <= |p|
    case Resolving(_, begun, probes, todo, asking, names, sources) =>
      var pids := TableOf(Rows(probes)).pids;
      && begun <= |p| && todo <= pids && (asking.Some? ==> asking.value != 0 && asking.value in pids)
      && NamesOk(p, begun, pids, names, sources)
    case Found(key, pid, pidAt) => pidAt < |p| && pid != 0 && PidOf(p[pidAt], key) == pid
    case Answered(key, verdict, pidAt, nameAt) => AnswerOk(targets, p, key, verdict, pidAt, nameAt)
    case _ => true
  }

  predicate Inv(targets: set<string>, s: State) {
    && s.published != []
    && (forall i :: 0 <= i < |s.published| ==> SnapshotOk(s.published, i) && s.published[i].at <= s.now)
    && (forall t :: t in s.threads ==> ThreadOk(targets, s.published, s.threads[t]))
    && s.lastScan == (if |s.published| == 1 then None else Some(s.published[|s.published| - 1].at))
  }

  lemma MoreSnapshotsKeepThread(targets: set<string>, p: seq<Snapshot>, x: Snapshot, th: Thread)
    requires ThreadOk(targets, p, th)
    ensures ThreadOk(targets, p + [x], th)
  {
  }

  lemma MoreSnapshotsKeepSnapshot(p: seq<Snapshot>, x: Snapshot, i: nat)
    requires i < |p| && SnapshotOk(p, i)
    ensures SnapshotOk(p + [x], i)
  {
  }

  lemma PeekKeepsThread(targets: set<string>, p: seq<Snapshot>, th: Thread, pid: int)
    requires p != [] && th.Resolving? && ThreadOk(targets, p, th) && pid in th.todo
    ensures ThreadOk(targets, p, AfterPeek(th, p[|p| - 1].names, |p| - 1, pid))
  {
  }

  lemma AskKeepsThread(targets: set<string>, p: seq<Snapshot>, th: Thread, name: Option<string>)
    requires th.Resolving? && ThreadOk(targets, p, th) && th.asking.Some?
    ensures ThreadOk(targets, p, AfterAsk(th, th.asking.value, name))
  {
  }

  lemma ProbeKeepsThread(targets: set<string>, p: seq<Snapshot>, th: Thread, answer: Option<seq<Conn>>)
    requires th.Probing? && ThreadOk(targets, p, th)
    ensures ThreadOk(targets, p, AfterProbe(th, |p|, answer))
  {
  }

  lemma PublishKeepsInv(targets: set<string>, s: State, t: nat)
    requires Inv(targets, s) && t in s.threads && s.threads[t].Resolving?
    requires s.threads[t].asking.None? && s.threads[t].todo == {}
    ensures Inv(targets, Step(targets, s, Publish(t)))
  {
    hide NamesOk, IsTarget, TableOf, Rows;
    var th := s.threads[t];
    var x := NewSnapshot(th, s.now);
    var p := s.published + [x];
    var r := Step(targets, s, Publish(t));
    assert p[..|s.published|] == s.published;
    assert ThreadOk(targets, s.published, th);
    forall i | 0 <= i < |p| ensures SnapshotOk(p, i) && p[i].at <= r.now {
      if i < |s.published| { MoreSnapshotsKeepSnapshot(s.published, x, i); }
    }
    forall u | u in r.threads ensures ThreadOk(targets, p, r.threads[u]) {
      if u != t { MoreSnapshotsKeepThread(targets, s.published, x, s.threads[u]); }
    }
  }

  lemma StepKeepsInv(targets: set<string>, s: State, e: Event)
    requires Inv(targets, s)
    ensures Inv(targets, Step(targets, s, e))
  {
    hide Normalize, TableOf, Rows, NamesOk, SnapshotOk, AfterProbe, AfterPeek, AfterAsk, NewSnapshot;
    if !e.Tick? && e.t in s.threads {
      var th := s.threads[e.t];
      if e.Publish? && th.Resolving? && th.asking.None? && th.todo == {} {
        PublishKeepsInv(targets, s, e.t);
      } else if e.Peek? && th.Resolving? && e.pid in th.todo {
        PeekKeepsThread(targets, s.published, th, e.pid);
      } else if e.Ask? && th.Resolving? && th.asking.Some? {
        AskKeepsThread(targets, s.published, th, e.name);
      } else if e.Probe? && th.Probing? {
        ProbeKeepsThread(targets, s.published, th, e.answer);
      }
    }
  }

  lemma {:induction false} RunKeepsInv(targets: set<string>, start: int, es: seq<Event>)
    ensures Inv(targets, Run(targets, start, es))
  {
    hide Step, Inv;
    if es == [] {
      InitInv(targets, start);
    } else {
      RunKeepsInv(targets, start, es[..|es| - 1]);
      StepKeepsInv(targets, Run(targets, start, es[..|es| - 1]), es[|es| - 1]);
    }
  }

  lemma InitInv(targets: set<string>, start: int)
    ensures Inv(targets, Init(start))
  {
  }

  // ---- Theorems about every run ----

  /** The maps readers see always come from one scan: the flows are those of its own probes, mapped PIDs are in its
      PID set, names exist only for non-zero PIDs of the set (so the cache never outgrows the latest scan), and
      `lastScan` is the time of the newest publication, which is the latest of all. */
  lemma OneScanBehindBothMaps(targets: set<string>, start: int, es: seq<Event>, i: nat)
    requires i < |Run(targets, start, es).published|
    ensures var s := Run(targets, start, es);
            var p := s.published;
            && Table(p[i].flows, p[i].pids) == TableOf(Rows(p[i].probes))
            && (forall k :: k in p[i].flows ==> p[i].flows[k] in p[i].pids)
            && p[i].names.Keys <= p[i].pids - {0} && |p[i].names| <= |p[i].pids|
            && (forall j :: 0 <= j <= i ==> p[j].at <= p[i].at)
            && s.lastScan == (if |p| == 1 then None else Some(p[|p| - 1].at))
            && (i > 0 ==> s.lastScan.Some? && p[i].at <= s.lastScan.value <= s.now)
  {
    hide Run, Normalize, TableOf, Rows;
    RunKeepsInv(targets, start, es);
    var p := Run(targets, start, es).published;
    assert SnapshotOk(p, i) && SnapshotOk(p, |p| - 1);
    MappedPidsAreListed(Rows(p[i].probes));
    assert forall pid :: pid in p[i].names.Keys ==> pid in p[i].names && pid in p[i].pids && pid != 0;
    SubsetSize(p[i].names.Keys, p[i].pids);
  }

  /** What was published stays, and `lastScan` never decreases. */
  predicate Extends(a: State, b: State) {
    && a.published <= b.published && a.now <= b.now
    && (a.lastScan.Some? ==> b.lastScan.Some? && a.lastScan.value <= b.lastScan.value)
  }

  lemma StepExtends(targets: set<string>, s: State, e: Event)
    requires s.published != [] && (s.lastScan.Some? ==> s.lastScan.value <= s.now)
    ensures Extends(s, Step(targets, s, e))
  {
    hide TableOf, Rows, IsTarget, AfterProbe, AfterPeek, AfterAsk, NewSnapshot;
  }

  /** Two moments of one run: every snapshot of the earlier one is still there at the later one, under the same
      index, and neither the clock nor `lastScan` has gone back. */
  lemma {:induction false} PublishedOnlyGrows(targets: set<string>, start: int, es: seq<Event>, n: nat)
    requires n <= |es|
    ensures Extends(Run(targets, start, es[..n]), Run(targets, start, es))
  {
    hide Step;
    if n == |es| {
      assert es[..n] == es;
    } else {
      var before := es[..|es| - 1];
      PublishedOnlyGrows(targets, start, before, n);
      assert before[..n] == es[..n];
      RunKeepsRate(targets, start, before);
      StepExtends(targets, Run(targets, start, before), es[|es| - 1]);
    }
  }

  lemma {:induction false} SubsetSize<T>(a: set<T>, b: set<T>)
    requires a <= b
    ensures |a| <= |b|
  {
    if |a| != 0 {
      var x :| x in a;
      SubsetSize(a - {x}, b - {x});
    }
  }

  /** Scans did not overlap: each began after the one before it had published. */
  predicate NoOverlap(p: seq<Snapshot>) {
    forall i :: 0 < i < |p| ==> p[i].begun == i
  }

  /** Every cached name is the normalised answer of the operating system to a question about that very
      PID, asked by scan `j`.  If scans do not overlap, the PID was listed by every scan since. */
  lemma {:induction false} NamesComeFromTheOs(targets: set<string>, start: int, es: seq<Event>, i: nat, pid: int)
    returns (j: nat, raw: string)
    requires i < |Run(targets, start, es).published| && pid in Run(targets, start, es).published[i].names
    ensures var p := Run(targets, start, es).published;
            && j <= i && pid in p[j].sources && p[j].sources[pid] == FromOs(raw)
            && p[i].names[pid] == Normalize(raw)
            && (NoOverlap(p) ==> forall k :: j <= k <= i ==> pid in p[k].pids)
    decreases i
  {
    hide Run, Normalize;
    RunKeepsInv(targets, start, es);
    var p := Run(targets, start, es).published;
    assert SnapshotOk(p, i);
    assert SourceOk(p[..i], p[i].begun, pid, p[i].names[pid], p[i].sources[pid]);
    match p[i].sources[pid] {
      case FromOs(r) => j, raw := i, r;
      case FromCache(c) =>
        j, raw := NamesComeFromTheOs(targets, start, es, c, pid);
    }
  }

  /** Direct evaluation of a flow on one snapshot. */
  predicate Direct(targets: set<string>, snap: Snapshot, key: Flow) {
    PidOf(snap, key) != 0 && IsTarget(targets, NameIn(snap.names, PidOf(snap, key)))
  }

  /** What an answer of `ShouldSkip` means under every interleaving: the PID was read from one published
      snapshot and the name from the same or a later one; with no publication in between the answer is the
      direct evaluation of that snapshot. */
  lemma AnswerMeaning(targets: set<string>, start: int, es: seq<Event>, t: nat)
    requires var s := Run(targets, start, es); t in s.threads && s.threads[t].Answered?
    ensures var s := Run(targets, start, es);
            var Answered(key, verdict, pidAt, nameAt) := s.threads[t];
            && pidAt <= nameAt < |s.published|
            && var pid := PidOf(s.published[pidAt], key);
               && (verdict <==> pid != 0 && IsTarget(targets, NameIn(s.published[nameAt].names, pid)))
               && (pidAt == nameAt ==> (verdict <==> Direct(targets, s.published[pidAt], key)))
  {
    hide Run, Normalize;
    RunKeepsInv(targets, start, es);
    assert ThreadOk(targets, Run(targets, start, es).published, Run(targets, start, es).threads[t]);
  }

  /** A flow is only ever skipped for a process whose name, as the operating system gave it for that PID,
      normalises twice to a target. */
  lemma SkippedProcessIsATarget(targets: set<string>, start: int, es: seq<Event>, t: nat) returns (j: nat, raw: string)
    requires var s := Run(targets, start, es); t in s.threads && s.threads[t].Answered? && s.threads[t].verdict
    ensures var s := Run(targets, start, es);
            var Answered(key, _, pidAt, nameAt) := s.threads[t];
            && j <= nameAt < |s.published| && pidAt <= nameAt
            && var pid := PidOf(s.published[pidAt], key);
               && pid != 0 && pid in s.published[j].sources && s.published[j].sources[pid] == FromOs(raw)
               && Normalize(Normalize(raw)) != "" && Normalize(Normalize(raw)) in targets
  {
    hide Run, Normalize;
    AnswerMeaning(targets, start, es, t);
    NormalizeEmpty();
    var s := Run(targets, start, es);
    var pid := PidOf(s.published[s.threads[t].pidAt], s.threads[t].key);
    j, raw := NamesComeFromTheOs(targets, start, es, s.threads[t].nameAt, pid);
  }

  lemma NormalizeEmpty()
    ensures Normalize("") == ""
  {
  }

  // ---- The rate limit ----

  function Ticket(th: Thread): Option<nat> {
    match th
    case Probing(OnMiss(_, k), _, _) => Some(k)
    case Resolving(OnMiss(_, k), _, _, _, _, _, _) => Some(k)
    case _ => None
  }

  /** The scan has run its first probe. */
  predicate Started(th: Thread) {
    th.Resolving? || (th.Probing? && th.probes != [])
  }

  predicate MissOk(s: State, m: Miss) {
    && m.checkStep < s.step && m.checkedAt <= s.now
    && m.thread in s.threads && !s.threads[m.thread].Asked? && !s.threads[m.thread].Missed?
    && (m.startedAt.Some? ==> m.checkedAt <= m.startedAt.value <= s.now)
    && (m.published.Some? ==>
          && m.startedAt.Some? && m.startedAt.value <= m.published.value.0
          && m.published.value.1 < s.step
          && s.lastScan.Some? && m.published.value.0 <= s.lastScan.value)
  }

  /** A check that passed after a publication came more than a second after it. */
  predicate Spaced(a: Miss, b: Miss) {
    a.published.Some? && a.published.value.1 < b.checkStep ==> b.checkedAt > a.published.value.0 + SECOND
  }

  predicate TicketOk(s: State, t: nat)
    requires t in s.threads
  {
    Ticket(s.threads[t]).Some? ==>
      && Ticket(s.threads[t]).value < |s.misses|
      && var m := s.misses[Ticket(s.threads[t]).value];
         m.thread == t && m.published.None? && (m.startedAt.Some? <==> Started(s.threads[t]))
  }

  predicate RateInv(s: State) {
    && (s.lastScan.Some? ==> s.lastScan.value <= s.now)
    && (forall i :: 0 <= i < |s.misses| ==> MissOk(s, s.misses[i]))
    && (forall i, j :: 0 <= i < j < |s.misses| ==>
          s.misses[i].thread != s.misses[j].thread && s.misses[i].checkStep < s.misses[j].checkStep)
    && (forall i, j :: 0 <= i < |s.misses| && 0 <= j < |s.misses| ==> Spaced(s.misses[i], s.misses[j]))
    && (forall t :: t in s.threads ==> TicketOk(s, t))
  }

  /** A step that only moves one thread, without starting, probing or publishing for an on-miss scan. */
  lemma MoveKeepsRate(s: State, t: nat, th: Thread)
    requires RateInv(s)
    requires Ticket(th).None? ||
             (t in s.threads && Ticket(th) == Ticket(s.threads[t]) && Started(th) == Started(s.threads[t]))
    requires th.Asked? ==> t !in s.threads
    requires th.Missed? ==> t in s.threads && s.threads[t].Asked?
    ensures RateInv(s.(step := s.step + 1, threads := s.threads[t := th]))
  {
    var r := s.(step := s.step + 1, threads := s.threads[t := th]);
    forall i | 0 <= i < |r.misses| ensures MissOk(r, r.misses[i]) {
      assert MissOk(s, s.misses[i]);
    }
    forall u | u in r.threads ensures TicketOk(r, u) {
      assert u in s.threads ==> TicketOk(s, u);
    }
  }

  lemma TickKeepsRate(s: State, dt: nat)
    requires RateInv(s)
    ensures RateInv(s.(step := s.step + 1, now := s.now + dt))
  {
  }

  lemma CheckKeepsRate(s: State, t: nat)
    requires RateInv(s) && Stale(s) && t in s.threads && s.threads[t].Missed?
    ensures RateInv(s.(step := s.step + 1,
                       threads := s.threads[t := Probing(OnMiss(s.threads[t].key, |s.misses|), 0, [])],
                       misses := s.misses + [Miss(t, s.now, s.step, None, None)]))
  {
    var m := s.misses + [Miss(t, s.now, s.step, None, None)];
    var r := s.(step := s.step + 1, threads := s.threads[t := Probing(OnMiss(s.threads[t].key, |s.misses|), 0, [])],
               misses := m);
    forall i | 0 <= i < |m| ensures MissOk(r, m[i]) && (i < |s.misses| ==> m[i].thread != t) {
      if i < |s.misses| { assert MissOk(s, s.misses[i]); }
    }
    hide Ticket, Started;
    forall i, j | 0 <= i < |m| && 0 <= j < |m| ensures Spaced(m[i], m[j]) {
      if i < |s.misses| {
        if j < |s.misses| { assert Spaced(s.misses[i], s.misses[j]); } else { StaleIsSpaced(s, s.misses[i], m[j]); }
      }
    }
    hide MissOk, Spaced;
    forall u | u in r.threads ensures TicketOk(r, u) {
      CheckKeepsTicket(s, r, t, u);
    }
  }

  lemma StaleIsSpaced(s: State, a: Miss, b: Miss)
    requires Stale(s) && MissOk(s, a) && b.checkedAt == s.now
    ensures Spaced(a, b)
  {
  }

  lemma CheckKeepsTicket(s: State, r: State, t: nat, u: nat)
    requires RateInv(s) && t in s.threads && s.threads[t].Missed? && u in r.threads
    requires r.threads == s.threads[t := Probing(OnMiss(s.threads[t].key, |s.misses|), 0, [])]
    requires r.misses == s.misses + [Miss(t, s.now, s.step, None, None)]
    ensures TicketOk(r, u)
  {
    if u != t { assert TicketOk(s, u); }
  }

  /** Recording the start or the publication of the on-miss scan that thread `t` carries. */
  lemma RecordKeepsRate(s: State, t: nat, th: Thread, m: Miss, publish: bool)
    requires RateInv(s) && t in s.threads && Ticket(s.threads[t]).Some?
    requires Ticket(s.threads[t]).value < |s.misses|
    requires var was := s.misses[Ticket(s.threads[t]).value];
             if publish then Started(s.threads[t]) && Ticket(th).None? && m == was.(published := Some((s.now, s.step)))
             else !Started(s.threads[t]) && Started(th) && Ticket(th) == Ticket(s.threads[t])
                  && m == was.(startedAt := Some(s.now))
    requires !th.Asked? && !th.Missed?
    ensures RateInv(s.(step := s.step + 1, threads := s.threads[t := th],
                       lastScan := if publish then Some(s.now) else s.lastScan,
                       misses := s.misses[Ticket(s.threads[t]).value := m]))
  {
    var k := Ticket(s.threads[t]).value;
    var r := s.(step := s.step + 1, threads := s.threads[t := th],
                lastScan := if publish then Some(s.now) else s.lastScan, misses := s.misses[k := m]);
    assert TicketOk(s, t);
    hide MissOk, TicketOk, Spaced, Ticket, Started;
    forall i | 0 <= i < |r.misses| ensures MissOk(r, r.misses[i]) {
      RecordKeepsMiss(s, r, t, th, s.misses[i], r.misses[i]);
    }
    forall i, j | 0 <= i < |r.misses| && 0 <= j < |r.misses| ensures Spaced(r.misses[i], r.misses[j]) {
      RecordKeepsSpaced(s, s.misses[i], s.misses[j], r.misses[i], r.misses[j]);
    }
    forall u | u in r.threads ensures TicketOk(r, u) {
      RecordKeepsTicket(s, r, t, th, u);
    }
  }

  /** `b` is `a`, or `a` with its start or its publication recorded now. */
  predicate Recorded(s: State, a: Miss, b: Miss) {
    b == a || b == a.(startedAt := Some(s.now)) || (a.startedAt.Some? && b == a.(published := Some((s.now, s.step))))
  }

  lemma RecordKeepsMiss(s: State, r: State, t: nat, th: Thread, a: Miss, b: Miss)
    requires MissOk(s, a) && Recorded(s, a, b) && (s.lastScan.Some? ==> s.lastScan.value <= s.now)
    requires b != a ==> a.published.None?
    requires r.step == s.step + 1 && r.now == s.now && r.threads == s.threads[t := th] && !th.Asked? && !th.Missed?
    requires r.lastScan == s.lastScan || r.lastScan == Some(s.now)
    requires b != a && b.published.Some? ==> r.lastScan == Some(s.now)
    ensures MissOk(r, b)
  {
  }

  lemma RecordKeepsSpaced(s: State, a: Miss, b: Miss, a1: Miss, b1: Miss)
    requires Spaced(a, b) && MissOk(s, b) && Recorded(s, a, a1) && Recorded(s, b, b1)
    ensures Spaced(a1, b1)
  {
  }

  lemma RecordKeepsTicket(s: State, r: State, t: nat, th: Thread, u: nat)
    requires RateInv(s) && t in s.threads && Ticket(s.threads[t]).Some? && TicketOk(s, t) && u in r.threads
    requires var k := Ticket(s.threads[t]).value;
             && r.threads == s.threads[t := th] && |r.misses| == |s.misses| && r.misses[k].thread == t
             && (forall i :: 0 <= i < |s.misses| && i != k ==> r.misses[i] == s.misses[i])
             && (Ticket(th).Some? ==>
                   Ticket(th).value == k && Started(th) && r.misses[k].startedAt.Some? && r.misses[k].published.None?)
    ensures TicketOk(r, u)
  {
    if u != t { assert TicketOk(s, u); }
  }

  /** A periodic scan publishes. */
  lemma PeriodicKeepsRate(s: State, t: nat)
    requires RateInv(s) && t in s.threads && s.threads[t].Resolving? && Ticket(s.threads[t]).None?
    ensures RateInv(s.(step := s.step + 1, threads := s.threads[t := Finished], lastScan := Some(s.now)))
  {
  }

  /** The invariant does not look at the snapshots. */
  lemma RateIgnoresSnapshots(s: State, p: seq<Snapshot>)
    requires RateInv(s)
    ensures RateInv(s.(published := p))
  {
  }

  lemma StepKeepsRate(targets: set<string>, s: State, e: Event)
    requires s.published != [] && RateInv(s)
    ensures RateInv(Step(targets, s, e))
  {
    hide TableOf, Rows, IsTarget, AfterProbe, AfterPeek, AfterAsk, NewSnapshot, RateInv, MissOk, TicketOk, Spaced;
    var r := Step(targets, s, e);
    if e.Tick? {
      TickKeepsRate(s, e.dt);
    } else if e.t !in s.threads {
      if e.Call? { MoveKeepsRate(s, e.t, Asked(e.key)); }
      else if e.StartScan? { MoveKeepsRate(s, e.t, Probing(Periodic, 0, [])); }
      else { TickKeepsRate(s, 0); }
    } else {
      var t, th := e.t, s.threads[e.t];
      if Ticket(th).Some? { TicketInRange(s, t); }
      if r.threads == s.threads && r.misses == s.misses && r.lastScan == s.lastScan && r.published == s.published {
        TickKeepsRate(s, 0);
      } else if e.Check? && Stale(s) {
        CheckKeepsRate(s, t);
      } else if e.Probe? && Ticket(th).Some? && !Started(th) {
        ScanKeepsTicket(th, s, e);
        RecordKeepsRate(s, t, r.threads[t], r.misses[Ticket(th).value], false);
      } else if e.Publish? {
        if Ticket(th).Some? { RecordKeepsRate(s, t, r.threads[t], r.misses[Ticket(th).value], true); }
        else { PeriodicKeepsRate(s, t); }
        RateIgnoresSnapshots(r.(published := s.published), r.published);
      } else {
        ScanKeepsTicket(th, s, e);
        MoveKeepsRate(s, t, r.threads[t]);
      }
    }
  }

  lemma TicketInRange(s: State, t: nat)
    requires RateInv(s) && t in s.threads && Ticket(s.threads[t]).Some?
    ensures Ticket(s.threads[t]).value < |s.misses|
  {
  }

  /** Probing and resolving go on for the same reason. */
  lemma ScanKeepsTicket(th: Thread, s: State, e: Event)
    requires s.published != []
    ensures e.Probe? && th.Probing? ==>
              var r := AfterProbe(th, |s.published|, e.answer);
              Ticket(r) == Ticket(th) && Started(r) && !r.Asked? && !r.Missed?
    ensures e.Peek? && th.Resolving? ==>
              var r := AfterPeek(th, s.published[|s.published| - 1].names, |s.published| - 1, e.pid);
              r.Resolving? && Ticket(r) == Ticket(th)
    ensures e.Ask? && th.Resolving? && th.asking.Some? ==>
              var r := AfterAsk(th, th.asking.value, e.name); r.Resolving? && Ticket(r) == Ticket(th)
  {
    hide TableOf, Rows;
  }

  lemma {:induction false} RunKeepsRate(targets: set<string>, start: int, es: seq<Event>)
    ensures RateInv(Run(targets, start, es))
  {
    hide Step;
    if es != [] {
      RunKeepsRate(targets, start, es[..|es| - 1]);
      StepKeepsRate(targets, Run(targets, start, es[..|es| - 1]), es[|es| - 1]);
    }
  }

  /** Two on-miss scans, the first published before the second checked for staleness, start more than a
      second apart. */
  lemma OnMissScansSpaced(targets: set<string>, start: int, es: seq<Event>, i: nat, j: nat)
    requires var m := Run(targets, start, es).misses;
             && i < |m| && j < |m| && m[j].startedAt.Some?
             && m[i].published.Some? && m[i].published.value.1 < m[j].checkStep
    ensures var m := Run(targets, start, es).misses;
            m[i].startedAt.Some? && m[j].startedAt.value - m[i].startedAt.value > 1_000_000_000
  {
    hide Run;
    RunKeepsRate(targets, start, es);
    var s := Run(targets, start, es);
    assert MissOk(s, s.misses[i]) && MissOk(s, s.misses[j]) && Spaced(s.misses[i], s.misses[j]);
  }

  /** The scan had passed its check and not yet published at that step. */
  predicate InFlight(m: Miss, step: nat) {
    m.checkStep <= step && (m.published.Some? ==> step <= m.published.value.1)
  }

  /** On-miss scans that start within one second of each other are all in flight at one step, each on
      behalf of a different `ShouldSkip` call: no more scans than overlapping calls. */
  lemma WindowIsOverlap(targets: set<string>, start: int, es: seq<Event>, window: set<nat>, from: int)
    returns (step: nat)
    requires var m := Run(targets, start, es).misses;
             forall i :: i in window ==>
               i < |m| && m[i].startedAt.Some? && from <= m[i].startedAt.value <= from + 1_000_000_000
    ensures var m := Run(targets, start, es).misses;
            && (forall i :: i in window ==> i < |m| && InFlight(m[i], step))
            && (forall i, j :: i in window && j in window && i != j ==> m[i].thread != m[j].thread)
  {
    hide Run;
    RunKeepsRate(targets, start, es);
    var m := Run(targets, start, es).misses;
    if window == {} { return 0; }
    var last := Largest(window);
    step := m[last].checkStep;
    forall i | i in window ensures InFlight(m[i], step) {
      var s := Run(targets, start, es);
      assert MissOk(s, m[i]) && MissOk(s, m[last]) && Spaced(m[i], m[last]);
    }
  }

  lemma {:induction false} Largest(xs: set<nat>) returns (x: nat)
    requires xs != {}
    ensures x in xs && forall y :: y in xs ==> y <= x
  {
    x :| x in xs;
    var rest := xs - {x};
    assert forall y :: y in xs ==> y == x || y in rest;
    if rest != {} {
      var y := Largest(rest);
      if y > x { x := y; }
    }
  }
}
