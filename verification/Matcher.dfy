/** The `Matcher` object with its fields and loops (internal/exclude/matcher.go), one call at a time.
    `MatcherProtocol` treats the same steps when calls interleave. */
module Matcher {
  import opened Text
  import opened Addresses
  import opened ProcessNames
  import opened FlowTable
  import opened MatcherProtocol

  const DEFAULT_INTERVAL: int := 15 * SECOND

  /** The names a matcher looks for: the configured ones, normalised, without the empty one. */
  function TargetSet(names: seq<string>): set<string> {
    set n | n in names && Normalize(n) != "" :: Normalize(n)
  }

  /** What `resolveProcessNames` returns: the cached name if there is one, else what the operating
      system says, else nothing; PID 0 is never resolved. */
  function Resolved(pids: set<int>, cache: map<int, string>, os: map<int, string>): map<int, string> {
    map pid | pid in pids && pid != 0 && (NameIn(cache, pid) != "" || pid in os)
      :: if NameIn(cache, pid) != "" then NameIn(cache, pid) else Normalize(os[pid])
  }

  lemma ResolvedNothing(cache: map<int, string>, os: map<int, string>)
    ensures Resolved({}, cache, os) == map[]
  {
  }

  lemma ResolvedOneMore(done: set<int>, pid: int, cache: map<int, string>, os: map<int, string>)
    ensures var before := Resolved(done, cache, os);
            Resolved(done + {pid}, cache, os) ==
              if pid == 0 then before
              else if NameIn(cache, pid) != "" then before[pid := NameIn(cache, pid)]
              else if pid in os then before[pid := Normalize(os[pid])]
              else before
  {
    hide Normalize;
  }

  lemma Member<T>(s: set<T>) returns (x: T)
    requires s != {}
    ensures x in s
  {
    x :| x in s;
  }

  /** The world as one scan finds it. */
  datatype World = World(probes: seq<Option<seq<Conn>>>, os: map<int, string>, now: int, later: int)

  /** The fields that scans replace. */
  datatype Cache = Cache(flows: map<Flow, int>, names: map<int, string>, lastScan: Option<int>)
  {
    /** The maps as a snapshot of the protocol. */
    function View(): Snapshot {
      Snapshot(flows, {}, names, map[], [], 0, 0)
    }
  }

  /** What a scan leaves. */
  function Scanned(c: Cache, world: World): Cache {
    var table := TableOf(Rows(world.probes));
    Cache(table.flows, Resolved(table.pids, c.names, world.os), Some(world.later))
  }

  /** What a look-up of the flow leaves: a scan only if the flow is unknown and the last scan over a second old. */
  function Refreshed(c: Cache, key: Flow, world: World): Cache {
    if PidOf(c.View(), key) == 0 && (c.lastScan.None? || world.now - c.lastScan.value > SECOND)
    then Scanned(c, world) else c
  }

  class Matcher {
    const targets: set<string>
    const interval: int
    var flowToPID: map<Flow, int>
    var pidNames: map<int, string>
    var lastScan: Option<int>

    constructor (targets: set<string>, interval: int)
      ensures this.targets == targets && this.interval == interval
      ensures flowToPID == map[] && pidNames == map[] && lastScan == None
    {
      this.targets, this.interval := targets, interval;
      flowToPID, pidNames, lastScan := map[], map[], None;
    }

    method LookupPID(key: Flow) returns (pid: int)
      ensures pid == if key in flowToPID then flowToPID[key] else 0
    {
      pid := if key in flowToPID then flowToPID[key] else 0;
    }

    method LookupName(pid: int) returns (name: string)
      ensures name == NameIn(pidNames, pid)
    {
      name := if pid in pidNames then pidNames[pid] else "";
    }

    /** The PIDs are visited in any order. */
    method ResolveProcessNames(pids: set<int>, os: map<int, string>) returns (names: map<int, string>)
      ensures names == Resolved(pids, pidNames, os)
    {
      hide Normalize, Resolved;
      names := map[];
      var todo := pids;
      ghost var done: set<int> := {};
      ResolvedNothing(pidNames, os);
      while todo != {}
        invariant done + todo == pids && names == Resolved(done, pidNames, os)
        decreases |todo|
      {
        ghost var some := Member(todo);
        var pid :| pid in todo;
        todo := todo - {pid};
        ResolvedOneMore(done, pid, pidNames, os);
        done := done + {pid};
        if pid == 0 { continue; }
        var cached := LookupName(pid);
        if cached != "" {
          names := names[pid := cached];
          continue;
        }
        if pid !in os { continue; }
        names := names[pid := Normalize(os[pid])];
      }
    }

    /** A scan replaces both maps at once; names of PIDs that are gone are forgotten. */
    method ScanOnce(world: World)
      modifies this
      ensures Now() == Scanned(old(Now()), world)
    {
      var table := BuildTable(world.probes);
      var names := ResolveProcessNames(table.pids, world.os);
      flowToPID, pidNames, lastScan := table.flows, names, Some(world.later);
    }

    /** At most one scan per second. */
    method RefreshOnMiss(world: World) returns (scanned: bool)
      modifies this
      ensures scanned <==> old(lastScan).None? || world.now - old(lastScan).value > 1_000_000_000
      ensures Now() == if scanned then Scanned(old(Now()), world) else old(Now())
    {
      scanned := lastScan.None? || world.now - lastScan.value > SECOND;
      if scanned { ScanOnce(world); }
    }

    ghost function Now(): Cache
      reads this
    {
      Cache(flowToPID, pidNames, lastScan)
    }

    /** Undisturbed, the answer is the direct evaluation of the maps as they are on return, and a scan
        happens only for an unknown flow and a stale cache. */
    method ShouldSkip(udp: bool, addr: Addr, port: nat, world: World) returns (skip: bool)
      modifies this
      ensures skip <==> !addr.Invalid? && Direct(targets, Now().View(), Flow(udp, addr, port))
      ensures Now() == if addr.Invalid? then old(Now()) else Refreshed(old(Now()), Flow(udp, addr, port), world)
    {
      var key := FlowKey(udp, addr, port);
      if key.None? { return false; }
      var pid := LookupPID(key.value);
      if pid == 0 {
        var scanned := RefreshOnMiss(world);
        pid := LookupPID(key.value);
        if pid == 0 { return false; }
      }
      var cached := LookupName(pid);
      var name := Normalize(cached);
      if name == "" { return false; }
      skip := name in targets;
    }
  }

  /** `New`: no matcher for an empty list, and the fallback for a missing interval. */
  method New(targets: seq<string>, interval: int) returns (m: Matcher?)
    ensures m == null <==> targets == []
    ensures m != null ==> fresh(m) && m.targets == TargetSet(targets)
    ensures m != null ==> m.interval == if interval > 0 then interval else 15_000_000_000
    ensures m != null ==> m.flowToPID == map[] && m.pidNames == map[] && m.lastScan == None
  {
    hide Normalize;
    if |targets| == 0 { return null; }
    var wanted: set<string> := {};
    for i := 0 to |targets|
      invariant wanted == TargetSet(targets[..i])
    {
      assert targets[..i + 1] == targets[..i] + [targets[i]];
      var clean := Normalize(targets[i]);
      if clean == "" { continue; }
      wanted := wanted + {clean};
    }
    assert targets[..|targets|] == targets;
    m := new Matcher(wanted, if interval <= 0 then DEFAULT_INTERVAL else interval);
  }
}
