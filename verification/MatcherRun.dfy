/** One call of the `Matcher` object is a run of the protocol (internal/exclude/matcher.go): what `Matcher` proves of an
    undisturbed call and what `MatcherProtocol` proves of all interleavings speak about the same steps. */
module MatcherRun {
  import opened Text
  import opened ProcessNames
  import opened FlowTable
  import opened MatcherProtocol
  import opened Matcher

  /** The cache as a state of the protocol holds it. */
  function CacheOf(s: State): Cache
    requires s.published != []
  {
    var snap := s.published[|s.published| - 1];
    Cache(snap.flows, snap.names, s.lastScan)
  }

  /** `es` continues `before` with steps of one thread only, and with time passing. */
  predicate Alone(before: seq<Event>, es: seq<Event>, t: nat) {
    before <= es && forall i :: |before| <= i < |es| ==> es[i].Tick? || es[i].t == t
  }

  lemma OneMore(targets: set<string>, start: int, before: seq<Event>, es: seq<Event>, t: nat, e: Event)
    requires Alone(before, es, t) && (e.Tick? || e.t == t)
    ensures Alone(before, es + [e], t)
    ensures Run(targets, start, es + [e]) == Step(targets, Run(targets, start, es), e)
  {
    var all := es + [e];
    assert all[..|all| - 1] == es;
  }

  /** The state differs from `s` in the thread `t` only, and in what records the run. */
  predicate OnlyThread(s: State, r: State, t: nat, th: Thread) {
    r.published == s.published && r.lastScan == s.lastScan && r.threads == s.threads[t := th]
  }

  /** Resolving what is left, one PID after the other, each looked up in the cache and, if it is not there, asked
      for: the names become those of `Matcher.Resolved`. */
  lemma {:induction false} ResolveAll(targets: set<string>, start: int, before: seq<Event>, es: seq<Event>, t: nat,
                                      done: set<int>, os: map<int, string>) returns (es1: seq<Event>, th1: Thread)
    requires Alone(before, es, t)
    requires var s := Run(targets, start, es);
             && t in s.threads && s.threads[t].Resolving? && s.threads[t].asking.None?
             && s.threads[t].names == Resolved(done, CacheOf(s).names, os)
    ensures Alone(before, es1, t)
    ensures var s, r := Run(targets, start, es), Run(targets, start, es1);
            var th := s.threads[t];
            && OnlyThread(s, r, t, th1) && r.now == s.now
            && th1.Resolving? && th1.why == th.why && th1.probes == th.probes && th1.todo == {} && th1.asking.None?
            && th1.names == Resolved(done + th.todo, CacheOf(s).names, os)
    decreases |Run(targets, start, es).threads[t].todo|
  {
    hide Run, Normalize, Resolved, TableOf, Rows, IsTarget;
    var s := Run(targets, start, es);
    var th := s.threads[t];
    if th.todo == {} {
      es1, th1 := es, th;
      assert done + th.todo == done && s.threads[t := th] == s.threads;
    } else {
      var pid := Member(th.todo);
      var es2 := ResolveOne(targets, start, before, es, t, done, os, pid);
      es1, th1 := ResolveAll(targets, start, before, es2, t, done + {pid}, os);
      assert done + {pid} + (th.todo - {pid}) == done + th.todo;
    }
  }

  lemma ResolveOne(targets: set<string>, start: int, before: seq<Event>, es: seq<Event>, t: nat,
                   done: set<int>, os: map<int, string>, pid: int) returns (es1: seq<Event>)
    requires Alone(before, es, t)
    requires var s := Run(targets, start, es);
             && t in s.threads && s.threads[t].Resolving? && s.threads[t].asking.None? && pid in s.threads[t].todo
             && s.threads[t].names == Resolved(done, CacheOf(s).names, os)
    ensures Alone(before, es1, t)
    ensures var s, r := Run(targets, start, es), Run(targets, start, es1);
            && t in r.threads && OnlyThread(s, r, t, r.threads[t]) && r.now == s.now
            && var th, th1 := s.threads[t], r.threads[t];
               && th1.Resolving? && th1.why == th.why && th1.probes == th.probes && th1.todo == th.todo - {pid}
               && th1.asking.None? && th1.names == Resolved(done + {pid}, CacheOf(s).names, os)
  {
    hide Run, Normalize, Resolved, TableOf, Rows, IsTarget;
    var s := Run(targets, start, es);
    var th := s.threads[t];
    ResolvedOneMore(done, pid, CacheOf(s).names, os);
    OneMore(targets, start, before, es, t, Peek(t, pid));
    es1 := es + [Peek(t, pid)];
    var s1 := Run(targets, start, es1);
    assert s1.threads[t] == AfterPeek(th, CacheOf(s).names, |s.published| - 1, pid);
    if s1.threads[t].asking.Some? {
      var name := if pid in os then Some(os[pid]) else None;
      OneMore(targets, start, before, es1, t, Ask(t, name));
      es1 := es1 + [Ask(t, name)];
    }
  }

  /** Four probes. */
  lemma ProbeAll(targets: set<string>, start: int, before: seq<Event>, es: seq<Event>, t: nat,
                 probes: Answers) returns (es1: seq<Event>, th1: Thread)
    requires Alone(before, es, t) && |probes| == 4
    requires var s := Run(targets, start, es);
             t in s.threads && s.threads[t].Probing? && s.threads[t].probes == []
    ensures Alone(before, es1, t)
    ensures var s, r := Run(targets, start, es), Run(targets, start, es1);
            && OnlyThread(s, r, t, th1) && r.now == s.now
            && th1.Resolving? && th1.why == s.threads[t].why && th1.probes == probes && th1.asking.None?
            && th1.todo == TableOf(Rows(probes)).pids && th1.names == map[]
  {
    hide Run, TableOf, Rows, IsTarget;
    var s := Run(targets, start, es);
    es1 := es;
    for i := 0 to 4
      invariant Alone(before, es1, t)
      invariant var r := Run(targets, start, es1);
                && t in r.threads && OnlyThread(s, r, t, r.threads[t]) && r.now == s.now
                && (i < 4 ==>
                      var th := r.threads[t];
                      th.Probing? && th.why == s.threads[t].why && th.probes == probes[..i])
                && (i == 4 ==>
                      var th := r.threads[t];
                      && th.Resolving? && th.why == s.threads[t].why && th.probes == probes && th.asking.None?
                      && th.todo == TableOf(Rows(probes)).pids && th.names == map[])
    {
      OneMore(targets, start, before, es1, t, Probe(t, probes[i]));
      assert probes[..i] + [probes[i]] == probes[..i + 1];
      es1 := es1 + [Probe(t, probes[i])];
    }
    th1 := Run(targets, start, es1).threads[t];
  }

  /** A whole scan by one thread leaves the cache that `ScanOnce` leaves. */
  lemma ScanIsARun(targets: set<string>, start: int, before: seq<Event>, es: seq<Event>, t: nat, world: World)
    returns (es1: seq<Event>)
    requires Alone(before, es, t) && |world.probes| == 4
    requires var s := Run(targets, start, es);
             && t in s.threads && s.threads[t].Probing? && s.threads[t].probes == []
             && s.now <= world.later
    ensures Alone(before, es1, t)
    ensures var s, r := Run(targets, start, es), Run(targets, start, es1);
            && CacheOf(r) == Scanned(CacheOf(s), world) && r.now == world.later
            && r.threads == s.threads[t := match s.threads[t].why
                                           case Periodic => Finished
                                           case OnMiss(key, _) => Retry(key)]
  {
    hide Run, TableOf, Rows, IsTarget, Resolved;
    var s := Run(targets, start, es);
    var th1, th2;
    es1, th1 := ProbeAll(targets, start, before, es, t, world.probes);
    ResolvedNothing(CacheOf(s).names, world.os);
    es1, th2 := ResolveAll(targets, start, before, es1, t, {}, world.os);
    assert {} + th1.todo == th1.todo;
    var wait := Tick(world.later - s.now);
    OneMore(targets, start, before, es1, t, wait);
    es1 := es1 + [wait];
    OneMore(targets, start, before, es1, t, Publish(t));
    es1 := es1 + [Publish(t)];
  }

  /** The three look-ups of a call, each under the lock. */
  lemma LookupMeans(targets: set<string>, s: State, t: nat)
    requires s.published != [] && t in s.threads
    ensures var r, cur, c := Step(targets, s, Lookup(t)), |s.published| - 1, CacheOf(s);
            && t in r.threads && OnlyThread(s, r, t, r.threads[t]) && r.now == s.now
            && match s.threads[t]
               case Asked(key) =>
                 var pid := PidOf(c.View(), key);
                 r.threads[t] == if pid == 0 then Missed(key) else Found(key, pid, cur)
               case Retry(key) =>
                 var pid := PidOf(c.View(), key);
                 r.threads[t] == if pid == 0 then Answered(key, false, cur, cur) else Found(key, pid, cur)
               case Found(key, pid, at) =>
                 r.threads[t] == Answered(key, IsTarget(targets, NameIn(c.names, pid)), at, cur)
               case _ => true
  {
    hide IsTarget;
  }

  /** After the first look-up, and the refresh if the flow is unknown: the thread stands before its last look-ups, or
      has found the PID. */
  lemma RefreshIsARun(targets: set<string>, start: int, before: seq<Event>, t: nat, key: Flow, world: World)
    returns (es: seq<Event>)
    requires |world.probes| == 4 && t !in Run(targets, start, before).threads
    requires Run(targets, start, before).now <= world.now <= world.later
    ensures Alone(before, es, t)
    ensures var s, r := Run(targets, start, before), Run(targets, start, es);
            && CacheOf(r) == Refreshed(CacheOf(s), key, world)
            && t in r.threads && r.threads == s.threads[t := r.threads[t]]
            && var pid, now := PidOf(CacheOf(s).View(), key), |r.published| - 1;
               if pid == 0 then r.threads[t] == Retry(key) else r.threads[t] == Found(key, pid, now)
  {
    hide Run, TableOf, Rows, IsTarget, Resolved, Scanned, AfterProbe, AfterPeek, AfterAsk, NewSnapshot;
    es := AskIsARun(targets, start, before, t, key, world);
    hide Step;
    LookupMeans(targets, Run(targets, start, es), t);
    OneMore(targets, start, before, es, t, Lookup(t));
    es := es + [Lookup(t)];
    var s1 := Run(targets, start, es);
    if s1.threads[t].Missed? {
      CheckMeans(targets, s1, t);
      OneMore(targets, start, before, es, t, Check(t));
      es := es + [Check(t)];
      if Stale(s1) {
        es := ScanIsARun(targets, start, before, es, t, world);
      }
    }
  }

  lemma CheckMeans(targets: set<string>, s: State, t: nat)
    requires s.published != [] && t in s.threads && s.threads[t].Missed?
    ensures var r := Step(targets, s, Check(t));
            && t in r.threads && OnlyThread(s, r, t, r.threads[t]) && r.now == s.now
            && r.threads[t] == if Stale(s) then Probing(OnMiss(s.threads[t].key, |s.misses|), 0, [])
                               else Retry(s.threads[t].key)
  {
  }

  lemma AskIsARun(targets: set<string>, start: int, before: seq<Event>, t: nat, key: Flow, world: World)
    returns (es: seq<Event>)
    requires t !in Run(targets, start, before).threads && Run(targets, start, before).now <= world.now
    ensures Alone(before, es, t)
    ensures var s, r := Run(targets, start, before), Run(targets, start, es);
            OnlyThread(s, r, t, Asked(key)) && r.now == world.now
  {
    hide Run;
    var wait := Tick(world.now - Run(targets, start, before).now);
    OneMore(targets, start, before, before, t, wait);
    OneMore(targets, start, before, before + [wait], t, Call(t, key));
    es := before + [wait] + [Call(t, key)];
  }

  /** An undisturbed call of `ShouldSkip`, from every state a run of the protocol can reach, is a continuation of that
      run by one thread: it leaves the cache and gives the verdict that the object's contract states. */
  lemma CallIsARun(targets: set<string>, start: int, before: seq<Event>, t: nat, key: Flow, world: World)
    returns (es: seq<Event>)
    requires |world.probes| == 4 && t !in Run(targets, start, before).threads
    requires Run(targets, start, before).now <= world.now <= world.later
    ensures Alone(before, es, t)
    ensures var s, r := Run(targets, start, before), Run(targets, start, es);
            && CacheOf(r) == Refreshed(CacheOf(s), key, world)
            && t in r.threads && r.threads == s.threads[t := r.threads[t]]
            && r.threads[t].Answered? && r.threads[t].key == key
            && (r.threads[t].verdict <==> Direct(targets, CacheOf(r).View(), key))
  {
    hide Run, Refreshed, Step, Direct;
    es := RefreshIsARun(targets, start, before, t, key, world);
    PidStays(CacheOf(Run(targets, start, before)), key, world);
    es := AnswerIsARun(targets, start, before, es, t, key);
  }

  /** The last look-ups. */
  lemma AnswerIsARun(targets: set<string>, start: int, before: seq<Event>, es0: seq<Event>, t: nat, key: Flow)
    returns (es: seq<Event>)
    requires Alone(before, es0, t)
    requires var s := Run(targets, start, es0);
             && t in s.threads
             && (s.threads[t] == Retry(key)
                 || (s.threads[t].Found? && s.threads[t].key == key
                     && s.threads[t].pid == PidOf(CacheOf(s).View(), key) != 0))
    ensures Alone(before, es, t)
    ensures var s, r := Run(targets, start, es0), Run(targets, start, es);
            && t in r.threads && OnlyThread(s, r, t, r.threads[t]) && r.threads[t].Answered? && r.threads[t].key == key
            && (r.threads[t].verdict <==> Direct(targets, CacheOf(s).View(), key))
  {
    hide Run, IsTarget, Step, Alone;
    es := es0;
    var s := Run(targets, start, es);
    if s.threads[t].Retry? {
      LookupMeans(targets, s, t);
      OneMore(targets, start, before, es, t, Lookup(t));
      es := es + [Lookup(t)];
      s := Run(targets, start, es);
    }
    if s.threads[t].Found? {
      LookupMeans(targets, s, t);
      OneMore(targets, start, before, es, t, Lookup(t));
      es := es + [Lookup(t)];
    }
  }

  /** A known flow is answered from the cache as it is. */
  lemma PidStays(c: Cache, key: Flow, world: World)
    ensures PidOf(c.View(), key) != 0 ==> Refreshed(c, key, world) == c
  {
  }
}
