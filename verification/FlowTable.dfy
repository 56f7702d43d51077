/** The table a process scan builds from the operating system's connection lists
    (internal/exclude/matcher.go, `scanOnce`, `flowKey`, `networkForKind`). */
module FlowTable {
  import opened Text
  import opened Addresses

  /** A flow key: network, source address and source port. */
  datatype Flow = Flow(udp: bool, addr: Addr, port: nat)

  /** The key of a flow; none for an invalid address. */
  function FlowKey(udp: bool, addr: Addr, port: nat): Option<Flow> {
    if addr.Invalid? then None else Some(Flow(udp, addr, port))
  }

  /** One row of a connection list; `addr` is `Invalid` when its text does not parse. */
  datatype Conn = Conn(status: string, addr: Addr, port: nat, pid: int)

  datatype Table = Table(flows: map<Flow, int>, pids: set<int>)

  /** What a row contributes, if anything.  IPv4-mapped addresses are unmapped first. */
  function Entry(udp: bool, c: Conn): Option<(Flow, int)> {
    if c.status != "ESTABLISHED" && !udp then None
    else if c.addr.Invalid? then None
    else if c.port == 0 then None
    else
      match FlowKey(udp, c.addr.Unmap(), c.port % 65536)
      case None => None
      case Some(key) => Some((key, c.pid))
  }

  function Put(t: Table, e: Option<(Flow, int)>): Table {
    if e.None? then t else Table(t.flows[e.value.0 := e.value.1], t.pids + {e.value.1})
  }

  /** Rows in the order they are seen, each with its network. */
  function TableOf(rows: seq<(bool, Conn)>): Table {
    if rows == [] then Table(map[], {})
    else
      var last := rows[|rows| - 1];
      Put(TableOf(rows[..|rows| - 1]), Entry(last.0, last.1))
  }

  function EntryAt(rows: seq<(bool, Conn)>, i: nat): Option<(Flow, int)>
    requires i < |rows|
  {
    Entry(rows[i].0, rows[i].1)
  }

  /** The last row that contributes to a key decides its PID; `pids` also keeps the PIDs of rows
      whose key was overwritten later. */
  ghost predicate Means(rows: seq<(bool, Conn)>, t: Table) {
    && (forall i :: 0 <= i < |rows| && EntryAt(rows, i).Some? ==>
          EntryAt(rows, i).value.0 in t.flows && EntryAt(rows, i).value.1 in t.pids)
    && (forall p :: p in t.pids ==> Listed(rows, p))
    && (forall k :: k in t.flows ==> LastWins(rows, k, t.flows[k]))
  }

  ghost predicate Listed(rows: seq<(bool, Conn)>, pid: int) {
    exists i :: 0 <= i < |rows| && EntryAt(rows, i).Some? && EntryAt(rows, i).value.1 == pid
  }

  ghost predicate LastWins(rows: seq<(bool, Conn)>, k: Flow, pid: int) {
    exists i :: 0 <= i < |rows| && EntryAt(rows, i) == Some((k, pid))
      && forall j :: i < j < |rows| ==> EntryAt(rows, j).None? || EntryAt(rows, j).value.0 != k
  }

  lemma ListedStays(before: seq<(bool, Conn)>, row: (bool, Conn), pid: int)
    requires Listed(before, pid) || (Entry(row.0, row.1).Some? && Entry(row.0, row.1).value.1 == pid)
    ensures Listed(before + [row], pid)
  {
    hide Entry;
    var rows := before + [row];
    if Listed(before, pid) {
      var i :| 0 <= i < |before| && EntryAt(before, i).Some? && EntryAt(before, i).value.1 == pid;
      assert EntryAt(rows, i) == EntryAt(before, i);
    } else {
      assert EntryAt(rows, |before|) == Entry(row.0, row.1);
    }
  }

  lemma LastWinsStays(before: seq<(bool, Conn)>, row: (bool, Conn), k: Flow, pid: int)
    requires var e := Entry(row.0, row.1);
             e == Some((k, pid)) || ((e.None? || e.value.0 != k) && LastWins(before, k, pid))
    ensures LastWins(before + [row], k, pid)
  {
    hide Entry;
    var rows, n := before + [row], |before|;
    assert EntryAt(rows, n) == Entry(row.0, row.1);
    if Entry(row.0, row.1) != Some((k, pid)) {
      var i :| 0 <= i < n && EntryAt(before, i) == Some((k, pid))
        && forall j :: i < j < n ==> EntryAt(before, j).None? || EntryAt(before, j).value.0 != k;
      assert EntryAt(rows, i) == Some((k, pid));
      forall j | i < j < |rows|
        ensures EntryAt(rows, j).None? || EntryAt(rows, j).value.0 != k
      {
        if j < n { assert EntryAt(rows, j) == EntryAt(before, j); }
      }
    }
  }

  /** One more row. */
  lemma RowMeaning(before: seq<(bool, Conn)>, row: (bool, Conn), t: Table)
    requires Means(before, t)
    ensures Means(before + [row], Put(t, Entry(row.0, row.1)))
  {
    hide Entry, Listed, LastWins;
    var rows, u := before + [row], Put(t, Entry(row.0, row.1));
    forall p | p in u.pids ensures Listed(rows, p) {
      ListedStays(before, row, p);
    }
    forall k | k in u.flows ensures LastWins(rows, k, u.flows[k]) {
      LastWinsStays(before, row, k, u.flows[k]);
    }
    forall i | 0 <= i < |rows| && EntryAt(rows, i).Some?
      ensures EntryAt(rows, i).value.0 in u.flows && EntryAt(rows, i).value.1 in u.pids
    {
      if i < |before| { assert EntryAt(rows, i) == EntryAt(before, i); }
    }
  }

  lemma {:induction false} TableMeaning(rows: seq<(bool, Conn)>)
    ensures Means(rows, TableOf(rows))
  {
    hide Entry, Put;
    if rows != [] {
      var n := |rows| - 1;
      TableMeaning(rows[..n]);
      RowMeaning(rows[..n], rows[n], TableOf(rows[..n]));
      assert rows == rows[..n] + [rows[n]];
    }
  }

  /** Every mapped PID is in the scan's PID set. */
  lemma MappedPidsAreListed(rows: seq<(bool, Conn)>)
    ensures var t := TableOf(rows); forall k :: k in t.flows ==> t.flows[k] in t.pids
  {
    TableMeaning(rows);
    var t := TableOf(rows);
    forall k | k in t.flows ensures t.flows[k] in t.pids {
      assert LastWins(rows, k, t.flows[k]);
      var i :| 0 <= i < |rows| && EntryAt(rows, i) == Some((k, t.flows[k]));
    }
  }

  /** A socket listed under the IPv4-mapped form of its address gets the key of the plain form. */
  lemma MappedAndPlainRowsAgree(udp: bool, status: string, n: V4Bits, port: nat, pid: int)
    ensures Entry(udp, Conn(status, Mapped(n), port, pid)) == Entry(udp, Conn(status, V4(n), port, pid))
  {
  }

  /** The rows of the four probes in order: tcp4, tcp6, udp4, udp6.  A probe that failed gives none. */
  function Rows(probes: seq<Option<seq<Conn>>>): seq<(bool, Conn)> {
    if probes == [] then []
    else
      var n := |probes| - 1;
      Rows(probes[..n]) + match probes[n] { case None => [] case Some(conns) => Tagged(n >= 2, conns) }
  }

  function Tagged(udp: bool, conns: seq<Conn>): (rows: seq<(bool, Conn)>)
    ensures |rows| == |conns|
  {
    seq(|conns|, i requires 0 <= i < |conns| => (udp, conns[i]))
  }

  /** The loops of `scanOnce` over the kinds of socket and, below, over the connections of one kind. */
  method BuildTable(probes: seq<Option<seq<Conn>>>) returns (t: Table)
    ensures t == TableOf(Rows(probes))
    ensures ReadsProbes(probes, t)
  {
    hide Entry;
    t := Table(map[], {});
    for kind := 0 to |probes|
      invariant t == TableOf(Rows(probes[..kind]))
    {
      assert probes[..kind + 1][..kind] == probes[..kind];
      if probes[kind].None? {
        assert Rows(probes[..kind]) + [] == Rows(probes[..kind]);
        continue;
      }
      t := AddKind(t, kind >= 2, probes[kind].value, Rows(probes[..kind]));
    }
    assert probes[..|probes|] == probes;
    ScanMeaning(probes);
  }

  method AddKind(t: Table, udp: bool, conns: seq<Conn>, ghost before: seq<(bool, Conn)>) returns (r: Table)
    requires t == TableOf(before)
    ensures r == TableOf(before + Tagged(udp, conns))
  {
    var nextFlow, pidSet := t.flows, t.pids;
    ghost var tagged := Tagged(udp, conns);
    assert before + tagged[..0] == before;
    for i := 0 to |conns|
      invariant Table(nextFlow, pidSet) == TableOf(before + tagged[..i])
    {
      var c := conns[i];
      OneMoreRow(before, tagged, i);
      if c.status != "ESTABLISHED" && !udp { continue; }
      if c.addr.Invalid? { continue; }
      var addr := c.addr.Unmap();
      if c.port == 0 { continue; }
      var key := FlowKey(udp, addr, c.port % 65536);
      if key.None? { continue; }
      nextFlow := nextFlow[key.value := c.pid];
      pidSet := pidSet + {c.pid};
    }
    assert tagged[..|conns|] == tagged;
    r := Table(nextFlow, pidSet);
  }

  lemma OneMoreRow(before: seq<(bool, Conn)>, tagged: seq<(bool, Conn)>, i: nat)
    requires i < |tagged|
    ensures TableOf(before + tagged[..i + 1]) == Put(TableOf(before + tagged[..i]), Entry(tagged[i].0, tagged[i].1))
  {
    hide Entry, Put;
    var rows := before + tagged[..i + 1];
    assert rows[..|rows| - 1] == before + tagged[..i];
  }

  // ---- The table, read off the probes ----

  /** Row `i` of the list of kind `kind` (tcp4, tcp6, udp4, udp6) is a socket of the flow. */
  predicate Shows(probes: seq<Option<seq<Conn>>>, kind: nat, i: nat, key: Flow) {
    && kind < |probes| && probes[kind].Some? && i < |probes[kind].value|
    && var c := probes[kind].value[i];
       && (key.udp <==> kind >= 2) && (kind < 2 ==> c.status == "ESTABLISHED")
       && !c.addr.Invalid? && c.addr.Unmap() == key.addr
       && c.port != 0 && c.port % 65536 == key.port
  }

  /** It is the last such row, and its PID is this one. */
  ghost predicate ShowsLast(probes: seq<Option<seq<Conn>>>, kind: nat, i: nat, key: Flow, pid: int) {
    && Shows(probes, kind, i, key) && probes[kind].value[i].pid == pid
    && forall k: nat, j: nat :: k > kind || (k == kind && j > i) ==> !Shows(probes, k, j, key)
  }

  ghost predicate ShownWith(probes: seq<Option<seq<Conn>>>, pid: int) {
    exists kind: nat, i: nat, key :: Shows(probes, kind, i, key) && probes[kind].value[i].pid == pid
  }

  /** A flow is mapped exactly when some row shows it, to the PID of the last such row, and the PIDs are those of all
      rows that show a flow. */
  ghost predicate ReadsProbes(probes: seq<Option<seq<Conn>>>, t: Table) {
    && (forall key :: key in t.flows <==> exists kind: nat, i: nat :: Shows(probes, kind, i, key))
    && (forall key :: key in t.flows ==> exists kind: nat, i: nat :: ShowsLast(probes, kind, i, key, t.flows[key]))
    && (forall pid :: pid in t.pids <==> ShownWith(probes, pid))
  }

  /** Where the row stands among all rows. */
  function Position(probes: seq<Option<seq<Conn>>>, kind: nat, i: nat): nat
    requires kind < |probes|
  {
    |Rows(probes[..kind])| + i
  }

  lemma {:induction false} RowsPrefix(probes: seq<Option<seq<Conn>>>, k: nat)
    requires k <= |probes|
    ensures Rows(probes[..k]) <= Rows(probes)
  {
    if k < |probes| {
      var n := |probes| - 1;
      RowsPrefix(probes[..n], k);
      assert probes[..n][..k] == probes[..k];
    } else {
      assert probes[..k] == probes;
    }
  }

  lemma RowAt(probes: seq<Option<seq<Conn>>>, kind: nat, i: nat)
    requires kind < |probes| && probes[kind].Some? && i < |probes[kind].value|
    ensures Position(probes, kind, i) < |Rows(probes[..kind + 1])| <= |Rows(probes)|
    ensures Rows(probes)[Position(probes, kind, i)] == (kind >= 2, probes[kind].value[i])
  {
    RowsOfKind(probes, kind);
    hide Rows;
    RowsPrefix(probes, kind + 1);
    var before, own, all := Rows(probes[..kind]), Tagged(kind >= 2, probes[kind].value), Rows(probes);
    assert all[|before| + i] == (before + own)[|before| + i] == own[i];
  }

  lemma RowsOfKind(probes: seq<Option<seq<Conn>>>, kind: nat)
    requires kind < |probes| && probes[kind].Some?
    ensures Rows(probes[..kind + 1]) == Rows(probes[..kind]) + Tagged(kind >= 2, probes[kind].value)
  {
    assert probes[..kind + 1][..kind] == probes[..kind];
  }

  /** Every row comes from a probe. */
  lemma {:induction false} RowFrom(probes: seq<Option<seq<Conn>>>, r: nat) returns (kind: nat, i: nat)
    requires r < |Rows(probes)|
    ensures kind < |probes| && probes[kind].Some? && i < |probes[kind].value| && Position(probes, kind, i) == r
  {
    var n := |probes| - 1;
    if r < |Rows(probes[..n])| {
      kind, i := RowFrom(probes[..n], r);
      assert probes[..n][..kind] == probes[..kind];
    } else {
      kind, i := n, r - |Rows(probes[..n])|;
    }
  }

  lemma EntryIff(udp: bool, c: Conn, key: Flow, pid: int)
    ensures Entry(udp, c) == Some((key, pid)) <==>
              && c.pid == pid && (key.udp <==> udp) && (!udp ==> c.status == "ESTABLISHED")
              && !c.addr.Invalid? && c.addr.Unmap() == key.addr && c.port != 0 && c.port % 65536 == key.port
  {
  }

  /** A row shows a flow exactly when it contributes its key. */
  lemma ShowsIff(probes: seq<Option<seq<Conn>>>, kind: nat, i: nat, key: Flow)
    requires kind < |probes| && probes[kind].Some? && i < |probes[kind].value|
    ensures Position(probes, kind, i) < |Rows(probes)|
    ensures Shows(probes, kind, i, key) <==>
              EntryAt(Rows(probes), Position(probes, kind, i)) == Some((key, probes[kind].value[i].pid))
    ensures EntryAt(Rows(probes), Position(probes, kind, i)).Some? ==>
              EntryAt(Rows(probes), Position(probes, kind, i)).value.1 == probes[kind].value[i].pid
  {
    RowAt(probes, kind, i);
    EntryIff(kind >= 2, probes[kind].value[i], key, probes[kind].value[i].pid);
  }

  lemma LaterPosition(probes: seq<Option<seq<Conn>>>, kind: nat, i: nat, k: nat, j: nat)
    requires kind < |probes| && probes[kind].Some? && i < |probes[kind].value| && k < |probes|
    requires k > kind || (k == kind && j > i)
    ensures Position(probes, kind, i) < Position(probes, k, j)
  {
    if k > kind {
      RowAt(probes, kind, i);
      RowsPrefix(probes[..k], kind + 1);
      assert probes[..k][..kind + 1] == probes[..kind + 1];
    }
  }

  lemma ScanMeaning(probes: seq<Option<seq<Conn>>>)
    ensures ReadsProbes(probes, TableOf(Rows(probes)))
  {
    hide Entry, Rows, TableOf, Shows;
    var rows := Rows(probes);
    var t := TableOf(rows);
    TableMeaning(rows);
    forall key ensures key in t.flows <==> exists kind: nat, i: nat :: Shows(probes, kind, i, key) {
      if kind: nat, i: nat :| Shows(probes, kind, i, key) { ShownIsMapped(probes, kind, i, key); }
      if key in t.flows {
        var kind, i := LastShown(probes, key);
        assert Shows(probes, kind, i, key);
      }
    }
    forall key | key in t.flows ensures exists kind: nat, i: nat :: ShowsLast(probes, kind, i, key, t.flows[key]) {
      var kind, i := LastShown(probes, key);
    }
    forall pid ensures pid in t.pids <==> ShownWith(probes, pid) { PidShownIff(probes, pid); }
  }

  lemma PidShownIff(probes: seq<Option<seq<Conn>>>, pid: int)
    ensures pid in TableOf(Rows(probes)).pids <==> ShownWith(probes, pid)
  {
    var rows := Rows(probes);
    hide Entry, Rows, TableOf, Position;
    TableMeaning(rows);
    if ShownWith(probes, pid) {
      var kind: nat, i: nat, key :| Shows(probes, kind, i, key) && probes[kind].value[i].pid == pid;
      ShownIsMapped(probes, kind, i, key);
    }
    if pid in TableOf(rows).pids {
      assert Listed(rows, pid);
      var r :| 0 <= r < |rows| && EntryAt(rows, r).Some? && EntryAt(rows, r).value.1 == pid;
      var kind, i := RowFrom(probes, r);
      ShowsIff(probes, kind, i, EntryAt(rows, r).value.0);
    }
  }

  lemma ShowsInRange(probes: seq<Option<seq<Conn>>>, kind: nat, i: nat, key: Flow)
    requires Shows(probes, kind, i, key)
    ensures kind < |probes| && probes[kind].Some? && i < |probes[kind].value|
  {
  }

  lemma ShownIsMapped(probes: seq<Option<seq<Conn>>>, kind: nat, i: nat, key: Flow)
    requires Shows(probes, kind, i, key)
    ensures key in TableOf(Rows(probes)).flows
    ensures kind < |probes| && probes[kind].Some? && i < |probes[kind].value|
    ensures probes[kind].value[i].pid in TableOf(Rows(probes)).pids
  {
    hide Entry, Rows, TableOf, Position, Shows;
    ShowsInRange(probes, kind, i, key);
    TableMeaning(Rows(probes));
    ShowsIff(probes, kind, i, key);
  }

  lemma LastShown(probes: seq<Option<seq<Conn>>>, key: Flow) returns (kind: nat, i: nat)
    requires key in TableOf(Rows(probes)).flows
    ensures ShowsLast(probes, kind, i, key, TableOf(Rows(probes)).flows[key])
  {
    hide Entry, Rows, TableOf, Position, Shows;
    var rows := Rows(probes);
    var pid := TableOf(rows).flows[key];
    TableMeaning(rows);
    assert LastWins(rows, key, pid);
    var r :| 0 <= r < |rows| && EntryAt(rows, r) == Some((key, pid))
      && forall j :: r < j < |rows| ==> EntryAt(rows, j).None? || EntryAt(rows, j).value.0 != key;
    kind, i := RowFrom(probes, r);
    ShowsIff(probes, kind, i, key);
    forall k: nat, j: nat | k > kind || (k == kind && j > i) ensures !Shows(probes, k, j, key) {
      if Shows(probes, k, j, key) {
        ShowsInRange(probes, k, j, key);
        ShowsIff(probes, k, j, key);
        LaterPosition(probes, kind, i, k, j);
      }
    }
  }
}
