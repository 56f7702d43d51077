/** The rotating log writer as a state machine over a modelled directory
    (internal/logger/file_writer.go).  Every operating-system call may fail; its outcome is an input.
    The theorems at the end hold for every run. */
module LogStore {
  import opened Text
  import opened LogNames

  // ---- The directory ----

  /** A directory maps names to inodes.  Removing a name keeps the inode, so `inodes` remembers
      every file that ever existed, in the order of creation. */
  datatype Directory = Directory(links: map<string, nat>, inodes: seq<seq<byte>>, subdirs: set<string>)
  {
    predicate Valid() {
      && links.Keys !! subdirs
      && forall n :: n in links ==> links[n] < |inodes|
    }

    /** `entries` is one possible result of `os.ReadDir`, in any order. */
    predicate ListedBy(entries: seq<string>) {
      && (forall n :: n in entries ==> n in links || n in subdirs)
      && (forall n :: n in links ==> n in entries)
    }
  }

  // ---- Clock readings ----

  const DAY: int := 86_400_000_000_000
  const MAX_DURATION: int := 0x7FFF_FFFF_FFFF_FFFF

  /** A local clock reading in a zone of fixed offset: the date it formats to and the nanoseconds since midnight. */
  datatype Instant = Instant(date: string, nanos: int)
  {
    predicate Valid() {
      ValidDate(date) && 0 <= nanos < DAY
    }
  }

  /** `now.Sub(midnight of date)`, which saturates at the largest duration. */
  function Age(now: Instant, date: string): int
    requires now.Valid() && ValidDate(date)
  {
    var d := (DayNumber(now.date) - DayNumber(date)) * DAY + now.nanos;
    if d > MAX_DURATION then MAX_DURATION else d
  }

  // ---- Writer state ----

  datatype Settings = Settings(prefix: string, maxSize: int, maxAge: int)
  datatype Writer = Writer(file: Option<nat>, currentDate: string, number: int, size: int)
  datatype State = State(dir: Directory, w: Writer)

  /** How the operating system answers the calls of one `Write`. */
  datatype Outcome = Outcome(
    scan: Option<seq<string>>,   // ReadDir in nextSeq; None is an error
    openOk: bool, statOk: bool,
    sweep: Option<seq<string>>,  // ReadDir in cleanupOldLocked; None is an error
    removable: set<string>,      // names for which os.Remove works
    written: nat)                // bytes the file accepts, if it is asked to

  datatype Op = Write(p: seq<byte>, now: Instant, later: Instant, os: Outcome) | Close

  const DEFAULT_MAX_SIZE: int := 1048576
  const DEFAULT_MAX_AGE: int := 72 * 3_600_000_000_000

  function MakeSettings(prefix: string, maxSize: int, maxAge: int): (c: Settings)
    ensures c.maxSize > 0 && c.maxAge > 0
  {
    Settings(prefix, if maxSize <= 0 then DEFAULT_MAX_SIZE else maxSize,
             if maxAge <= 0 then DEFAULT_MAX_AGE else maxAge)
  }

  function NewWriter(): Writer {
    Writer(None, "", -1, 0)
  }

  /** The limits in force when none are given: a mebibyte and three days. */
  lemma DefaultLimits(prefix: string, maxSize: int, maxAge: int)
    ensures var c := MakeSettings(prefix, maxSize, maxAge);
            && c.prefix == prefix
            && c.maxSize == (if maxSize > 0 then maxSize else 1_048_576)
            && c.maxAge == (if maxAge > 0 then maxAge else 259_200_000_000_000)
  {
  }

  // ---- nextSeq ----

  /** The largest sequence number among the entries dated `date`, or -1. */
  function MaxNumber(prefix: string, entries: seq<string>, subdirs: set<string>, date: string): (m: int)
    ensures -1 <= m <= MAX_INT
  {
    if entries == [] then -1
    else
      var last := entries[|entries| - 1];
      var m := MaxNumber(prefix, entries[..|entries| - 1], subdirs, date);
      var r := ParseFileName(prefix, last);
      if last !in subdirs && r.Some? && r.value.0 == date && r.value.1 > m then r.value.1 else m
  }

  /** It is an upper bound, and attained. */
  lemma {:induction false} MaxNumberIsMax(prefix: string, entries: seq<string>, subdirs: set<string>, date: string)
    ensures var m := MaxNumber(prefix, entries, subdirs, date);
            && (forall n :: n in entries && n !in subdirs ==> DatedUpTo(prefix, n, date, m))
            && (m == -1 || exists n :: n in entries && n !in subdirs && ParseFileName(prefix, n) == Some((date, m)))
  {
    hide ParseFileName, ValidDate;
    if entries != [] {
      var rest := entries[..|entries| - 1];
      MaxNumberIsMax(prefix, rest, subdirs, date);
      assert entries == rest + [entries[|entries| - 1]];
    }
  }

  /** The name is not dated `date`, or its number is at most `m`. */
  predicate DatedUpTo(prefix: string, name: string, date: string, m: int) {
    var r := ParseFileName(prefix, name);
    r.Some? && r.value.0 == date ==> r.value.1 <= m
  }

  function NextNumber(prefix: string, entries: seq<string>, subdirs: set<string>, date: string): int {
    Increment(MaxNumber(prefix, entries, subdirs, date))
  }

  /** Exactly when the name chosen after a scan is new: always, unless the counter is used up and
      the first file of the day still exists. */
  lemma NextNameFresh(prefix: string, dir: Directory, entries: seq<string>, date: string)
    requires dir.Valid() && dir.ListedBy(entries) && ValidDate(date)
    ensures FileName(prefix, date, NextNumber(prefix, entries, dir.subdirs, date)) in dir.links
            <==> MaxNumber(prefix, entries, dir.subdirs, date) == MAX_INT && FileName(prefix, date, 0) in dir.links
  {
    hide ParseFileName, ValidDate, FileName;
    var m := MaxNumber(prefix, entries, dir.subdirs, date);
    MaxNumberIsMax(prefix, entries, dir.subdirs, date);
    if m == MAX_INT {
      NegativeNumberIsZero(prefix, date);
    } else {
      ParseOfFileName(prefix, date, m + 1);
      var name := FileName(prefix, date, m + 1);
      assert name in dir.links ==> name in entries && name !in dir.subdirs;
    }
  }

  lemma NegativeNumberIsZero(prefix: string, date: string)
    ensures FileName(prefix, date, MIN_INT) == FileName(prefix, date, 0)
  {
  }

  // ---- cleanupOldLocked ----

  predicate Expired(c: Settings, name: string, now: Instant)
    requires now.Valid()
  {
    var r := ParseFileName(c.prefix, name);
    r.Some? && Age(now, r.value.0) > c.maxAge
  }

  /** The links left when every expired entry that can be removed is removed. */
  function Swept(c: Settings, dir: Directory, now: Instant, os: Outcome): Directory
    requires now.Valid()
  {
    match os.sweep
    case None => dir
    case Some(entries) =>
      dir.(links := map n | n in dir.links
                            && !(n in entries && n !in dir.subdirs && Expired(c, n, now) && n in os.removable)
                      :: dir.links[n])
  }

  // ---- rotate, ensureFile, Write, Close ----

  function Created(dir: Directory, name: string): Directory {
    dir.(links := dir.links[name := |dir.inodes|], inodes := dir.inodes + [[]])
  }

  /** The number a rotation that gets past its scan moves on to. */
  function Chosen(c: Settings, s: State, date: string, os: Outcome): int
    requires MIN_INT <= s.w.number <= MAX_INT && (s.w.currentDate != date ==> os.scan.Some?)
  {
    if s.w.currentDate != date then NextNumber(c.prefix, os.scan.value, s.dir.subdirs, date) else Increment(s.w.number)
  }

  /** The new state and whether a file is open.  Opening appends to a file that already has the name. */
  function Rotate(c: Settings, s: State, date: string, later: Instant, os: Outcome): (State, bool)
    requires later.Valid() && MIN_INT <= s.w.number <= MAX_INT
  {
    var w := s.w.(file := None);
    if w.currentDate != date && os.scan.None? then (State(s.dir, w), false)
    else
      var number := Chosen(c, s, date, os);
      var name := FileName(c.prefix, date, number);
      var w1 := w.(number := number);
      if !os.openOk || name in s.dir.subdirs then (State(s.dir, w1), false)
      else
        var dir1 := if name in s.dir.links then s.dir else Created(s.dir, name);
        var id := dir1.links[name];
        if !os.statOk || id >= |dir1.inodes| then (State(dir1, w1), false)
        else (State(Swept(c, dir1, later, os), Writer(Some(id), date, number, |dir1.inodes[id]|)), true)
  }

  predicate Fits(c: Settings, w: Writer, date: string, incoming: nat) {
    w.file.Some? && w.currentDate == date && w.size + incoming <= c.maxSize
  }

  function Append(dir: Directory, id: nat, data: seq<byte>): Directory {
    if id < |dir.inodes| then dir.(inodes := dir.inodes[id := dir.inodes[id] + data]) else dir
  }

  /** The new state and the number of bytes `Write` reports as written. */
  function Step(c: Settings, s: State, op: Op): (State, nat)
    requires MIN_INT <= s.w.number <= MAX_INT
    requires op.Write? ==> op.now.Valid() && op.later.Valid()
  {
    match op
    case Close => (s.(w := s.w.(file := None)), 0)
    case Write(p, now, later, os) =>
      if p == [] then (s, 0)
      else
        var (t, open) := if Fits(c, s.w, now.date, |p|) then (s, true) else Rotate(c, s, now.date, later, os);
        if !open || t.w.file.None? then (t, 0)
        else
          var n := if os.written < |p| then os.written else |p|;
          (State(Append(t.dir, t.w.file.value, p[..n]), t.w.(size := t.w.size + n)), n)
  }

  // ---- Runs ----

  predicate InRange(ops: seq<Op>) {
    forall i :: 0 <= i < |ops| && ops[i].Write? ==> ops[i].now.Valid() && ops[i].later.Valid()
  }

  lemma StepInRange(c: Settings, s: State, op: Op)
    requires MIN_INT <= s.w.number <= MAX_INT
    requires op.Write? ==> op.now.Valid() && op.later.Valid()
    ensures MIN_INT <= Step(c, s, op).0.w.number <= MAX_INT
  {
  }

  function Run(c: Settings, s0: State, ops: seq<Op>): (s: State)
    requires MIN_INT <= s0.w.number <= MAX_INT && InRange(ops)
    ensures MIN_INT <= s.w.number <= MAX_INT
  {
    if ops == [] then s0
    else
      var s := Run(c, s0, ops[..|ops| - 1]);
      StepInRange(c, s, ops[|ops| - 1]);
      Step(c, s, ops[|ops| - 1]).0
  }

  /** The bytes each `Write` of the run reported as written, in order; writes of nothing are left out. */
  function Accepted(c: Settings, s0: State, ops: seq<Op>): seq<seq<byte>>
    requires MIN_INT <= s0.w.number <= MAX_INT && InRange(ops)
  {
    if ops == [] then []
    else
      var last := ops[|ops| - 1];
      Accepted(c, s0, ops[..|ops| - 1]) + Record(last, Step(c, Run(c, s0, ops[..|ops| - 1]), last).1)
  }

  function Record(op: Op, n: nat): seq<seq<byte>> {
    if op.Write? && 0 < n <= |op.p| then [op.p[..n]] else []
  }

  /** The answers of the operating system are possible ones: every listing lists the directory as it
      is at that moment (nobody else changes it). */
  ghost predicate Possible(s: State, op: Op) {
    op.Write? && op.os.scan.Some? ==> s.dir.ListedBy(op.os.scan.value)
  }

  ghost predicate PossibleRun(c: Settings, s0: State, ops: seq<Op>)
    requires MIN_INT <= s0.w.number <= MAX_INT && InRange(ops)
  {
    forall i :: 0 <= i < |ops| ==> Possible(Run(c, s0, ops[..i]), ops[i])
  }

  // ---- When a record stays in the open file, and when it opens another ----

  /** A record that fits the open file of its day goes there: no other file is opened, created, renamed or removed. */
  lemma StaysInOpenFile(c: Settings, s: State, op: Op)
    requires MIN_INT <= s.w.number <= MAX_INT && DirOk(s)
    requires op.Write? && op.p != [] && op.now.Valid() && op.later.Valid()
    requires s.w.file.Some? && s.w.currentDate == op.now.date && s.w.size + |op.p| <= c.maxSize
    ensures var (t, n) := Step(c, s, op);
            && n == (if op.os.written < |op.p| then op.os.written else |op.p|)
            && t.w == s.w.(size := s.w.size + n)
            && t.dir == s.dir.(inodes := s.dir.inodes[s.w.file.value := s.dir.inodes[s.w.file.value] + op.p[..n]])
  {
  }

  /** Any other record opens the next file of its day, if the directory can be listed when it has to be, the open and
      stat work and the name is free: a file that did not exist, with the number after the counter on the current
      day and after the largest listed one on another day, holding the record and nothing else. */
  lemma OpensNextFile(c: Settings, s: State, op: Op, number: int)
    requires MIN_INT <= s.w.number <= MAX_INT && number <= MAX_INT && DirOk(s)
    requires op.Write? && op.p != [] && op.now.Valid() && op.later.Valid() && op.os.openOk && op.os.statOk
    requires s.w.file.None? || s.w.currentDate != op.now.date || s.w.size + |op.p| > c.maxSize
    requires if s.w.currentDate == op.now.date then number == s.w.number + 1
             else && op.os.scan.Some?
                  && number == MaxNumber(c.prefix, op.os.scan.value, s.dir.subdirs, op.now.date) + 1
    requires var name := FileName(c.prefix, op.now.date, number);
             name !in s.dir.links && name !in s.dir.subdirs
    ensures var (t, n) := Step(c, s, op);
            var name, id := FileName(c.prefix, op.now.date, number), |s.dir.inodes|;
            && n == (if op.os.written < |op.p| then op.os.written else |op.p|)
            && t.w == Writer(Some(id), op.now.date, number, n)
            && t.dir.inodes == s.dir.inodes + [op.p[..n]]
            && t.dir.links == Swept(c, s.dir.(links := s.dir.links[name := id]), op.later, op.os).links
  {
    hide FileName, ParseFileName, ValidDate, Expired;
    var (t, n) := Step(c, s, op);
    assert [] + op.p[..n] == op.p[..n];
    assert t.dir.inodes == (s.dir.inodes + [[]])[|s.dir.inodes| := op.p[..n]];
  }

  /** A write of nothing does nothing, and closing only forgets the file: the next record opens another. */
  lemma CloseForgetsFile(c: Settings, s: State, op: Op)
    requires MIN_INT <= s.w.number <= MAX_INT && (op.Write? ==> op.p == [] && op.now.Valid() && op.later.Valid())
    ensures var closed := State(s.dir, Writer(None, s.w.currentDate, s.w.number, s.w.size));
            Step(c, s, op) == (if op.Close? then closed else s, 0)
  {
  }

  /** When a call of the operating system fails nothing is written and no file stays open; the day and every
      existing file are as before, but the counter has moved on unless the listing failed. */
  lemma FailureWritesNothing(c: Settings, s: State, op: Op)
    requires MIN_INT <= s.w.number <= MAX_INT && DirOk(s)
    requires op.Write? && op.p != [] && op.now.Valid() && op.later.Valid()
    requires s.w.file.None? || s.w.currentDate != op.now.date || s.w.size + |op.p| > c.maxSize
    requires (s.w.currentDate != op.now.date && op.os.scan.None?) || !op.os.openOk || !op.os.statOk
    ensures var (t, n) := Step(c, s, op);
            && n == 0 && t.w.file.None? && t.w.currentDate == s.w.currentDate && s.dir.inodes <= t.dir.inodes
            && (forall name :: name in s.dir.links ==> name in t.dir.links && t.dir.links[name] == s.dir.links[name])
            && (s.w.currentDate == op.now.date && s.w.number < MAX_INT ==> t.w.number == s.w.number + 1)
            && (s.w.currentDate != op.now.date ==>
                  if op.os.scan.None? then t.w.number == s.w.number
                  else var max := MaxNumber(c.prefix, op.os.scan.value, s.dir.subdirs, op.now.date);
                       max < MAX_INT ==> t.w.number == max + 1)
  {
    hide FileName, ParseFileName, ValidDate, MaxNumber;
  }

  // ---- When a rotation opens a file that exists ----

  /** The write rotates, its open and stat work, and the name it moves on to exists: on the current date the
      name after the counter, on another date only if the counter is used up. */
  predicate Clashes(c: Settings, s: State, op: Op)
    requires MIN_INT <= s.w.number <= MAX_INT
    requires op.Write? ==> op.now.Valid()
  {
    && op.Write? && op.p != [] && !Fits(c, s.w, op.now.date, |op.p|)
    && op.os.openOk && op.os.statOk
    && if s.w.currentDate == op.now.date then FileName(c.prefix, op.now.date, Increment(s.w.number)) in s.dir.links
       else op.os.scan.Some? && FileName(c.prefix, op.now.date, 0) in s.dir.links
            && MaxNumber(c.prefix, op.os.scan.value, s.dir.subdirs, op.now.date) == MAX_INT
  }

  predicate DirOk(s: State) {
    s.dir.Valid() && (s.w.file.Some? ==> s.w.file.value < |s.dir.inodes|)
  }

  lemma ClashIsAnExistingName(c: Settings, s: State, op: Op)
    requires MIN_INT <= s.w.number <= MAX_INT && s.dir.Valid() && Possible(s, op)
    requires op.Write? && op.now.Valid() && op.later.Valid() && op.p != [] && !Fits(c, s.w, op.now.date, |op.p|)
    requires s.w.currentDate != op.now.date ==> op.os.scan.Some?
    ensures Clashes(c, s, op) <==>
              && op.os.openOk && op.os.statOk
              && FileName(c.prefix, op.now.date, Chosen(c, s, op.now.date, op.os)) in s.dir.links
  {
    hide ParseFileName, FileName, MaxNumber;
    if s.w.currentDate != op.now.date { NextNameFresh(c.prefix, s.dir, op.os.scan.value, op.now.date); }
  }

  /** The file that existed before the write and that the write goes into: the open one if the record fits,
      the one whose name is taken if it clashes, otherwise none. */
  function Target(c: Settings, s: State, op: Op): Option<nat>
    requires MIN_INT <= s.w.number <= MAX_INT
    requires op.Write? ==> op.now.Valid() && op.later.Valid()
  {
    if op.Close? || op.p == [] then None
    else if s.w.file.Some? && s.w.currentDate == op.now.date && s.w.size + |op.p| <= c.maxSize then s.w.file
    else if Clashes(c, s, op) then
      var number := if s.w.currentDate == op.now.date then Increment(s.w.number) else 0;
      Some(s.dir.links[FileName(c.prefix, op.now.date, number)])
    else None
  }

  /** The bytes the write adds to an existing file. */
  function Into(c: Settings, s: State, op: Op, id: nat): seq<byte>
    requires MIN_INT <= s.w.number <= MAX_INT
    requires op.Write? ==> op.now.Valid() && op.later.Valid()
  {
    if op.Write? && Target(c, s, op) == Some(id) then op.p[..if op.os.written < |op.p| then op.os.written else |op.p|]
    else []
  }

  /** What one operation does to the files that exist: the target grows by the accepted bytes, the others stay. */
  lemma StepGrowsTarget(c: Settings, s: State, op: Op)
    requires MIN_INT <= s.w.number <= MAX_INT && DirOk(s) && Possible(s, op)
    requires op.Write? ==> op.now.Valid() && op.later.Valid()
    ensures var t := Step(c, s, op).0;
            && |s.dir.inodes| <= |t.dir.inodes|
            && forall id :: 0 <= id < |s.dir.inodes| ==> t.dir.inodes[id] == s.dir.inodes[id] + Into(c, s, op, id)
  {
    hide ParseFileName, FileName, NextNumber, ValidDate, Swept, MaxNumber, Clashes;
    if op.Write? && op.p != [] && !Fits(c, s.w, op.now.date, |op.p|) {
      var date := op.now.date;
      if s.w.currentDate == date || op.os.scan.Some? {
        ClashIsAnExistingName(c, s, op);
        ClashName(c, s, op);
        SweptKeepsInodes(c, s.dir, op.later, op.os);
        var name := FileName(c.prefix, date, Chosen(c, s, date, op.os));
        SweptKeepsInodes(c, Created(s.dir, name), op.later, op.os);
      } else {
        NoScanNoClash(c, s, op);
      }
    }
  }

  /** The name a clash is about is the one the rotation chooses. */
  lemma ClashName(c: Settings, s: State, op: Op)
    requires MIN_INT <= s.w.number <= MAX_INT && op.Write? && op.now.Valid() && op.later.Valid()
    requires s.w.currentDate != op.now.date ==> op.os.scan.Some?
    ensures Clashes(c, s, op) ==>
              FileName(c.prefix, op.now.date, Chosen(c, s, op.now.date, op.os))
              == FileName(c.prefix, op.now.date, if s.w.currentDate == op.now.date then Increment(s.w.number) else 0)
  {
    hide FileName;
    NegativeNumberIsZero(c.prefix, op.now.date);
  }

  lemma NoScanNoClash(c: Settings, s: State, op: Op)
    requires MIN_INT <= s.w.number <= MAX_INT && op.Write? && op.now.Valid()
    requires s.w.currentDate != op.now.date && op.os.scan.None?
    ensures !Clashes(c, s, op)
  {
  }

  lemma NoRotationNoClash(c: Settings, s: State, op: Op)
    requires MIN_INT <= s.w.number <= MAX_INT && (op.Write? ==> op.now.Valid())
    requires op.Close? || op.p == [] || Fits(c, s.w, op.now.date, |op.p|)
    ensures !Clashes(c, s, op)
  {
  }

  lemma SweptKeepsInodes(c: Settings, dir: Directory, now: Instant, os: Outcome)
    requires now.Valid()
    ensures var r := Swept(c, dir, now, os);
            && r.inodes == dir.inodes && r.subdirs == dir.subdirs
            && forall n :: n in r.links ==> n in dir.links && r.links[n] == dir.links[n]
  {
  }

  lemma {:induction false} RunKeepsDirOk(c: Settings, s0: State, ops: seq<Op>)
    requires MIN_INT <= s0.w.number <= MAX_INT && InRange(ops) && DirOk(s0)
    ensures DirOk(Run(c, s0, ops))
  {
    hide Step;
    if ops != [] {
      RunKeepsDirOk(c, s0, ops[..|ops| - 1]);
      StepKeepsDirOk(c, Run(c, s0, ops[..|ops| - 1]), ops[|ops| - 1]);
    }
  }

  lemma StepKeepsDirOk(c: Settings, s: State, op: Op)
    requires MIN_INT <= s.w.number <= MAX_INT && DirOk(s)
    requires op.Write? ==> op.now.Valid() && op.later.Valid()
    ensures DirOk(Step(c, s, op).0)
  {
    hide ParseFileName, FileName, NextNumber, ValidDate, Swept;
    if op.Write? && (s.w.currentDate == op.now.date || op.os.scan.Some?) {
      var name := FileName(c.prefix, op.now.date, Chosen(c, s, op.now.date, op.os));
      SweptKeepsInodes(c, s.dir, op.later, op.os);
      SweptKeepsInodes(c, Created(s.dir, name), op.later, op.os);
    }
  }

  /** All the bytes a run adds to a file that existed before it. */
  function IntoAll(c: Settings, s0: State, ops: seq<Op>, id: nat): seq<byte>
    requires MIN_INT <= s0.w.number <= MAX_INT && InRange(ops)
  {
    if ops == [] then []
    else
      var before := ops[..|ops| - 1];
      IntoAll(c, s0, before, id) + Into(c, Run(c, s0, before), ops[|ops| - 1], id)
  }

  /** The content of every file that existed before a run, after it, whatever failed and in any order of dates. */
  lemma {:induction false} RunGrowsTargets(c: Settings, s0: State, ops: seq<Op>, id: nat)
    requires MIN_INT <= s0.w.number <= MAX_INT && InRange(ops) && DirOk(s0) && PossibleRun(c, s0, ops)
    requires id < |s0.dir.inodes|
    ensures var s := Run(c, s0, ops);
            |s0.dir.inodes| <= |s.dir.inodes| && s.dir.inodes[id] == s0.dir.inodes[id] + IntoAll(c, s0, ops, id)
  {
    hide Step, Into, Possible, PossibleRun, DirOk;
    if ops != [] {
      var before, op := ops[..|ops| - 1], ops[|ops| - 1];
      Shorten(c, s0, ops);
      RunKeepsDirOk(c, s0, before);
      RunGrowsTargets(c, s0, before, id);
      StepGrowsTarget(c, Run(c, s0, before), op);
    }
  }

  /** The write puts at least one byte into the file. */
  predicate Hits(c: Settings, s: State, op: Op, id: nat)
    requires MIN_INT <= s.w.number <= MAX_INT
    requires op.Write? ==> op.now.Valid() && op.later.Valid()
  {
    op.Write? && Target(c, s, op) == Some(id) && op.os.written > 0
  }

  /** No write of the run puts a byte into the file. */
  predicate NeverHit(c: Settings, s0: State, ops: seq<Op>, id: nat)
    requires MIN_INT <= s0.w.number <= MAX_INT && InRange(ops)
  {
    forall i :: 0 <= i < |ops| ==> !Hits(c, Run(c, s0, ops[..i]), ops[i], id)
  }

  lemma NeverHitStep(c: Settings, s0: State, ops: seq<Op>, id: nat)
    requires MIN_INT <= s0.w.number <= MAX_INT && InRange(ops) && ops != []
    ensures var n := |ops| - 1;
            NeverHit(c, s0, ops, id) <==> NeverHit(c, s0, ops[..n], id) && !Hits(c, Run(c, s0, ops[..n]), ops[n], id)
  {
    hide Run, Hits;
    var n := |ops| - 1;
    var before := ops[..n];
    assert forall i :: 0 <= i < n ==> before[i] == ops[i] && before[..i] == ops[..i];
    if NeverHit(c, s0, ops, id) {
      forall i | 0 <= i < n ensures !Hits(c, Run(c, s0, before[..i]), before[i], id) {
        assert !Hits(c, Run(c, s0, ops[..i]), ops[i], id);
      }
      assert !Hits(c, Run(c, s0, ops[..n]), ops[n], id);
    } else {
      var i :| 0 <= i < |ops| && Hits(c, Run(c, s0, ops[..i]), ops[i], id);
      if i < n { assert Hits(c, Run(c, s0, before[..i]), before[i], id); }
    }
  }

  lemma {:induction false} NothingIntoIff(c: Settings, s0: State, ops: seq<Op>, id: nat)
    requires MIN_INT <= s0.w.number <= MAX_INT && InRange(ops)
    ensures IntoAll(c, s0, ops, id) == [] <==> NeverHit(c, s0, ops, id)
  {
    if ops != [] {
      hide Run, Target, NeverHit;
      var before := ops[..|ops| - 1];
      NothingIntoIff(c, s0, before, id);
      TargetNotEmpty(c, Run(c, s0, before), ops[|ops| - 1]);
      NeverHitStep(c, s0, ops, id);
    }
  }

  lemma TargetNotEmpty(c: Settings, s: State, op: Op)
    requires MIN_INT <= s.w.number <= MAX_INT
    requires op.Write? ==> op.now.Valid() && op.later.Valid()
    ensures Target(c, s, op).Some? ==> op.Write? && op.p != []
  {
  }

  /** Exactly when a run leaves a file alone that existed before it, for every file and every possible run: no
      write puts a byte into it, be it one that clashes or one that fits after a clash has opened the file. */
  lemma FileUntouchedIff(c: Settings, s0: State, ops: seq<Op>, id: nat)
    requires MIN_INT <= s0.w.number <= MAX_INT && InRange(ops) && DirOk(s0) && PossibleRun(c, s0, ops)
    requires id < |s0.dir.inodes|
    ensures var s := Run(c, s0, ops);
            && |s0.dir.inodes| <= |s.dir.inodes|
            && (s.dir.inodes[id] == s0.dir.inodes[id] <==> NeverHit(c, s0, ops, id))
  {
    hide Run, IntoAll, NeverHit, PossibleRun, DirOk;
    RunGrowsTargets(c, s0, ops, id);
    NothingIntoIff(c, s0, ops, id);
  }

  /** Exactly when a run leaves all of them alone. */
  lemma OldFilesUntouchedIff(c: Settings, s0: State, ops: seq<Op>)
    requires MIN_INT <= s0.w.number <= MAX_INT && InRange(ops) && DirOk(s0) && PossibleRun(c, s0, ops)
    ensures var s, k := Run(c, s0, ops), |s0.dir.inodes|;
            && k <= |s.dir.inodes|
            && (s.dir.inodes[..k] == s0.dir.inodes <==> forall id :: 0 <= id < k ==> NeverHit(c, s0, ops, id))
  {
    hide Run, NeverHit, PossibleRun, DirOk;
    var s, k := Run(c, s0, ops), |s0.dir.inodes|;
    RunOnlyAdds(c, s0, ops);
    forall id | 0 <= id < k ensures s.dir.inodes[..k][id] == s0.dir.inodes[id] <==> NeverHit(c, s0, ops, id) {
      FileUntouchedIff(c, s0, ops, id);
    }
  }

  lemma {:induction false} RunOnlyAdds(c: Settings, s0: State, ops: seq<Op>)
    requires MIN_INT <= s0.w.number <= MAX_INT && InRange(ops) && DirOk(s0) && PossibleRun(c, s0, ops)
    ensures |s0.dir.inodes| <= |Run(c, s0, ops).dir.inodes|
  {
    hide Step, Possible, PossibleRun, DirOk;
    if ops != [] {
      var before := ops[..|ops| - 1];
      Shorten(c, s0, ops);
      RunKeepsDirOk(c, s0, before);
      RunOnlyAdds(c, s0, before);
      StepGrowsTarget(c, Run(c, s0, before), ops[|ops| - 1]);
    }
  }

  // ---- Conservation ----

  predicate ClashFree(c: Settings, s0: State, ops: seq<Op>)
    requires MIN_INT <= s0.w.number <= MAX_INT && InRange(ops)
  {
    forall i :: 0 <= i < |ops| ==> !Clashes(c, Run(c, s0, ops[..i]), ops[i])
  }

  /** What every step without a clash keeps.  `groups[i]` lists the records in the i-th file created by this writer. */
  ghost predicate Inv(c: Settings, s0: State, s: State, groups: seq<seq<seq<byte>>>) {
    var k := |s0.dir.inodes|;
    && s.dir.Valid()
    && |s.dir.inodes| == k + |groups|
    && (forall i :: 0 <= i < k ==> s.dir.inodes[i] == s0.dir.inodes[i])
    && (forall i :: 0 <= i < |groups| ==> s.dir.inodes[k + i] == Concat(groups[i]))
    && (forall i :: 0 <= i < |groups| ==> |s.dir.inodes[k + i]| <= c.maxSize || |groups[i]| == 1)
    && (s.w.file.Some? ==> |groups| > 0 && s.w.file.value == |s.dir.inodes| - 1
                           && s.w.size == |s.dir.inodes[s.w.file.value]|)
  }

  /** Creating a file under a new name. */
  lemma CreateKeepsInv(c: Settings, s0: State, s: State, name: string, groups: seq<seq<seq<byte>>>)
    requires c.maxSize > 0 && Inv(c, s0, s, groups) && s.w.file.None?
    requires name !in s.dir.links && name !in s.dir.subdirs
    ensures Inv(c, s0, s.(dir := Created(s.dir, name)), groups + [[]])
  {
  }

  /** Opening the newest, still empty, file and sweeping out the expired ones. */
  lemma OpenKeepsInv(c: Settings, s0: State, s: State, w: Writer, later: Instant, os: Outcome,
                     groups: seq<seq<seq<byte>>>)
    requires Inv(c, s0, s, groups) && later.Valid() && groups != [] && groups[|groups| - 1] == []
    requires w.file == Some(|s.dir.inodes| - 1) && w.size == 0
    ensures Inv(c, s0, State(Swept(c, s.dir, later, os), w), groups)
  {
    hide Swept;
    SweptKeepsInodes(c, s.dir, later, os);
  }

  /** The invariant looks at the writer only through its open file. */
  lemma CloseKeepsInv(c: Settings, s0: State, s: State, w: Writer, groups: seq<seq<seq<byte>>>)
    requires Inv(c, s0, s, groups) && w.file.None?
    ensures Inv(c, s0, s.(w := w), groups)
  {
  }

  /** A rotation that does not clash creates at most one inode, empty, and opens only that one, whatever fails. */
  lemma RotateKeepsInv(c: Settings, s0: State, s: State, date: string, later: Instant, os: Outcome,
                       groups: seq<seq<seq<byte>>>) returns (groups': seq<seq<seq<byte>>>)
    requires c.maxSize > 0 && Inv(c, s0, s, groups) && MIN_INT <= s.w.number <= MAX_INT && later.Valid()
    requires (s.w.currentDate == date || os.scan.Some?) && os.openOk && os.statOk ==>
               FileName(c.prefix, date, Chosen(c, s, date, os)) !in s.dir.links
    ensures Inv(c, s0, Rotate(c, s, date, later, os).0, groups')
    ensures groups' == groups || groups' == groups + [[]]
    ensures Rotate(c, s, date, later, os).1 ==>
      var w := Rotate(c, s, date, later, os).0.w;
      && groups' == groups + [[]] && w.file.Some? && w.size == 0 && w.currentDate == date
  {
    hide ParseFileName, FileName, Swept, NextNumber, Inv;
    groups' := groups;
    CloseKeepsInv(c, s0, s, s.w.(file := None), groups);
    if s.w.currentDate != date && os.scan.None? { return; }
    var number := Chosen(c, s, date, os);
    var name := FileName(c.prefix, date, number);
    var t := State(s.dir, s.w.(file := None, number := number));
    CloseKeepsInv(c, s0, s, t.w, groups);
    if !os.openOk || name in s.dir.subdirs || name in s.dir.links { return; }
    groups' := groups + [[]];
    CreateKeepsInv(c, s0, t, name, groups);
    var dir1 := Created(s.dir, name);
    var w := Writer(Some(|dir1.inodes| - 1), date, number, 0);
    OpenKeepsInv(c, s0, State(dir1, t.w), w, later, os, groups');
  }

  /** Appending an accepted record to the open file. */
  lemma AppendKeepsInv(c: Settings, s0: State, s: State, groups: seq<seq<seq<byte>>>, data: seq<byte>)
    returns (groups': seq<seq<seq<byte>>>)
    requires Inv(c, s0, s, groups) && s.w.file.Some?
    requires |data| > 0 && (s.w.size + |data| <= c.maxSize || groups[|groups| - 1] == [])
    ensures Inv(c, s0, State(Append(s.dir, s.w.file.value, data), s.w.(size := s.w.size + |data|)), groups')
    ensures Concat(groups') == Concat(groups) + [data]
  {
    var k := |groups| - 1;
    groups' := groups[k := groups[k] + [data]];
    ConcatGrowLast(groups, [data]);
    ConcatSnoc(groups[k], data);
  }

  /** Every `Write` and `Close` without a clash. */
  lemma StepKeepsInv(c: Settings, s0: State, s: State, op: Op, groups: seq<seq<seq<byte>>>)
    returns (groups': seq<seq<seq<byte>>>)
    requires c.maxSize > 0 && Inv(c, s0, s, groups) && MIN_INT <= s.w.number <= MAX_INT
    requires op.Write? ==> op.now.Valid() && op.later.Valid()
    requires Possible(s, op) && !Clashes(c, s, op)
    ensures Inv(c, s0, Step(c, s, op).0, groups')
    ensures Concat(groups') == Concat(groups) + Record(op, Step(c, s, op).1)
  {
    hide ParseFileName, ValidDate, FileName, Inv, Rotate, Concat, Clashes;
    groups' := groups;
    CloseKeepsInv(c, s0, s, s.w.(file := None), groups);
    if op.Close? || op.p == [] { return; }
    var date := op.now.date;
    var t := s;
    OpenIsNewest(c, s0, s, groups);
    if !Fits(c, s.w, date, |op.p|) {
      if s.w.currentDate == date || op.os.scan.Some? { ClashIsAnExistingName(c, s, op); }
      groups' := RotateKeepsInv(c, s0, s, date, op.later, op.os, groups);
      if groups' != groups { ConcatSnoc(groups, []); }
      var r := Rotate(c, s, date, op.later, op.os);
      if !r.1 { return; }
      t := r.0;
    }
    OpenIsNewest(c, s0, t, groups');
    var n := if op.os.written < |op.p| then op.os.written else |op.p|;
    if n == 0 {
      assert t.dir.inodes[t.w.file.value] + op.p[..0] == t.dir.inodes[t.w.file.value];
      assert Append(t.dir, t.w.file.value, op.p[..0]) == t.dir;
    } else {
      groups' := AppendKeepsInv(c, s0, t, groups', op.p[..n]);
    }
  }

  lemma OpenIsNewest(c: Settings, s0: State, s: State, groups: seq<seq<seq<byte>>>)
    requires Inv(c, s0, s, groups)
    ensures s.dir.Valid() && (s.w.file.Some? ==> groups != [] && s.w.file.value == |s.dir.inodes| - 1)
  {
  }

  /** A shorter run is possible too. */
  lemma Shorten(c: Settings, s0: State, ops: seq<Op>)
    requires ops != [] && MIN_INT <= s0.w.number <= MAX_INT && InRange(ops) && PossibleRun(c, s0, ops)
    ensures var before, op := ops[..|ops| - 1], ops[|ops| - 1];
            InRange(before) && PossibleRun(c, s0, before) && Possible(Run(c, s0, before), op)
  {
    hide Step, Run, Possible;
    var before, op := ops[..|ops| - 1], ops[|ops| - 1];
    forall i | 0 <= i < |before|
      ensures Possible(Run(c, s0, before[..i]), before[i])
    {
      assert before[..i] == ops[..i];
      assert Possible(Run(c, s0, ops[..i]), ops[i]);
    }
    assert Possible(Run(c, s0, ops[..|ops| - 1]), op);
  }

  lemma ShortenClashFree(c: Settings, s0: State, ops: seq<Op>)
    requires ops != [] && MIN_INT <= s0.w.number <= MAX_INT && InRange(ops) && ClashFree(c, s0, ops)
    ensures var before, op := ops[..|ops| - 1], ops[|ops| - 1];
            InRange(before) && ClashFree(c, s0, before) && !Clashes(c, Run(c, s0, before), op)
  {
    hide Step, Run, Clashes;
    var before := ops[..|ops| - 1];
    forall i | 0 <= i < |before| ensures !Clashes(c, Run(c, s0, before[..i]), before[i]) {
      assert before[..i] == ops[..i];
      assert !Clashes(c, Run(c, s0, ops[..i]), ops[i]);
    }
    assert !Clashes(c, Run(c, s0, ops[..|ops| - 1]), ops[|ops| - 1]);
  }

  /** What conservation means for the end of a run. */
  ghost predicate Conserved(c: Settings, s0: State, ops: seq<Op>, groups: seq<seq<seq<byte>>>)
    requires MIN_INT <= s0.w.number <= MAX_INT && InRange(ops)
  {
    var s, k := Run(c, s0, ops), |s0.dir.inodes|;
    && |s.dir.inodes| == k + |groups|
    && s.dir.inodes[..k] == s0.dir.inodes
    && (forall i :: 0 <= i < |groups| ==> s.dir.inodes[k + i] == Concat(groups[i]))
    && (forall i :: 0 <= i < |groups| ==> |s.dir.inodes[k + i]| <= c.maxSize || |groups[i]| == 1)
    && (s.w.file.Some? ==> k <= s.w.file.value < |s.dir.inodes|
                           && s.w.size == |s.dir.inodes[s.w.file.value]|)
    && Concat(groups) == Accepted(c, s0, ops)
  }

  lemma {:induction false} RunKeepsInv(c: Settings, s0: State, ops: seq<Op>) returns (groups: seq<seq<seq<byte>>>)
    requires c.maxSize > 0 && s0.dir.Valid() && s0.w == NewWriter()
    requires InRange(ops) && PossibleRun(c, s0, ops) && ClashFree(c, s0, ops)
    ensures Inv(c, s0, Run(c, s0, ops), groups)
    ensures Concat(groups) == Accepted(c, s0, ops)
  {
    hide ParseFileName, ValidDate, FileName, Step, PossibleRun, Possible, ClashFree, Clashes;
    if ops == [] {
      groups := [];
    } else {
      var before := ops[..|ops| - 1];
      Shorten(c, s0, ops);
      ShortenClashFree(c, s0, ops);
      groups := RunKeepsInv(c, s0, before);
      groups := StepKeepsInv(c, s0, Run(c, s0, before), ops[|ops| - 1], groups);
    }
  }

  /** Conservation over every run without a clash, in any order of dates and through any failures.  Files that
      existed before are untouched; the files this writer created, in the order of creation, hold exactly the
      accepted bytes in order; every accepted record lies whole in one file; a file is within the size limit
      or holds a single record; and `size` is the true length of the open file. */
  lemma RunConservesBytes(c: Settings, s0: State, ops: seq<Op>) returns (groups: seq<seq<seq<byte>>>)
    requires c.maxSize > 0 && s0.dir.Valid() && s0.w == NewWriter()
    requires InRange(ops) && PossibleRun(c, s0, ops) && ClashFree(c, s0, ops)
    ensures Conserved(c, s0, ops, groups)
  {
    hide ParseFileName, ValidDate, FileName, Run, Accepted, ClashFree, PossibleRun;
    groups := RunKeepsInv(c, s0, ops);
  }

  /** The operation creates a file. */
  predicate Creates(c: Settings, s: State, op: Op)
    requires MIN_INT <= s.w.number <= MAX_INT
    requires op.Write? ==> op.now.Valid() && op.later.Valid()
  {
    |Step(c, s, op).0.dir.inodes| > |s.dir.inodes|
  }

  /** What a step that leaves a file open has done, unless it clashed: stayed, or created that file. */
  lemma OpenAfterStep(c: Settings, s: State, op: Op)
    requires MIN_INT <= s.w.number <= MAX_INT && DirOk(s) && Possible(s, op)
    requires op.Write? ==> op.now.Valid() && op.later.Valid()
    requires !Clashes(c, s, op) && Step(c, s, op).0.w.file.Some?
    ensures var t := Step(c, s, op).0;
            if Creates(c, s, op) then
              && op.Write? && t.w.file == Some(|s.dir.inodes|) && |t.dir.inodes| == |s.dir.inodes| + 1
              && t.w.currentDate == op.now.date
            else
              t.w.file == s.w.file && t.w.currentDate == s.w.currentDate && |t.dir.inodes| == |s.dir.inodes|
  {
    hide ParseFileName, FileName, NextNumber, ValidDate, Swept, MaxNumber, Clashes;
    if op.Write? && op.p != [] && !Fits(c, s.w, op.now.date, |op.p|) {
      assert s.w.currentDate == op.now.date || op.os.scan.Some?;
      ClashIsAnExistingName(c, s, op);
      var name := FileName(c.prefix, op.now.date, Chosen(c, s, op.now.date, op.os));
      SweptKeepsInodes(c, s.dir, op.later, op.os);
      SweptKeepsInodes(c, Created(s.dir, name), op.later, op.os);
    }
  }

  /** The i-th operation of the run creates a file. */
  predicate CreatesAt(c: Settings, s0: State, ops: seq<Op>, i: nat)
    requires MIN_INT <= s0.w.number <= MAX_INT && InRange(ops) && i < |ops|
  {
    Creates(c, Run(c, s0, ops[..i]), ops[i])
  }

  predicate OpenBefore(c: Settings, s0: State, ops: seq<Op>, i: nat)
    requires MIN_INT <= s0.w.number <= MAX_INT && InRange(ops) && i <= |ops|
  {
    Run(c, s0, ops[..i]).w.file.Some?
  }

  /** From the creation of a file on, while a file is open and no other is created, it is that file on that day. */
  lemma {:induction false} SameFileOpen(c: Settings, s0: State, ops: seq<Op>, i: nat, j: nat)
    requires MIN_INT <= s0.w.number <= MAX_INT && InRange(ops) && DirOk(s0)
    requires PossibleRun(c, s0, ops) && ClashFree(c, s0, ops) && i < j <= |ops| && CreatesAt(c, s0, ops, i)
    requires forall k :: i < k < j ==> !CreatesAt(c, s0, ops, k)
    requires forall k :: i < k <= j ==> OpenBefore(c, s0, ops, k)
    ensures var s, id := Run(c, s0, ops[..j]), |Run(c, s0, ops[..i]).dir.inodes|;
            && ops[i].Write? && s.w.file == Some(id) && s.w.currentDate == ops[i].now.date
            && |s.dir.inodes| == id + 1
    decreases j
  {
    hide Step, Creates, Clashes, Possible, DirOk;
    var k := j - 1;
    assert OpenBefore(c, s0, ops, j) && (k > i ==> !CreatesAt(c, s0, ops, k));
    assert ops[..j][..k] == ops[..k] && ops[..j][k] == ops[k];
    assert Possible(Run(c, s0, ops[..k]), ops[k]) && !Clashes(c, Run(c, s0, ops[..k]), ops[k]);
    RunKeepsDirOk(c, s0, ops[..k]);
    assert Run(c, s0, ops[..j]) == Step(c, Run(c, s0, ops[..k]), ops[k]).0;
    if k > i { SameFileOpen(c, s0, ops, i, k); }
    OpenAfterStep(c, Run(c, s0, ops[..k]), ops[k]);
  }

  /** The i-th and the j-th operation create files, none in between does, and a file is open all the time. */
  predicate NextCreation(c: Settings, s0: State, ops: seq<Op>, i: nat, j: nat)
    requires MIN_INT <= s0.w.number <= MAX_INT && InRange(ops) && i < j < |ops|
  {
    && CreatesAt(c, s0, ops, i) && CreatesAt(c, s0, ops, j)
    && (forall k :: i < k < j ==> !CreatesAt(c, s0, ops, k))
    && (forall k :: i < k <= j ==> OpenBefore(c, s0, ops, k))
  }

  /** The length, before the j-th operation, of the file that the i-th created. */
  function LengthBefore(c: Settings, s0: State, ops: seq<Op>, i: nat, j: nat): nat
    requires MIN_INT <= s0.w.number <= MAX_INT && InRange(ops) && i < j < |ops|
  {
    var inodes, id := Run(c, s0, ops[..j]).dir.inodes, |Run(c, s0, ops[..i]).dir.inodes|;
    if id < |inodes| then |inodes[id]| else 0
  }

  /** Two files created one after the other on one day, with a file open all the time in between: the second was
      created only because the next record would have taken the first over the limit. */
  lemma NextFileOnlyWhenFull(c: Settings, s0: State, ops: seq<Op>, i: nat, j: nat)
    requires c.maxSize > 0 && s0.dir.Valid() && s0.w == NewWriter()
    requires InRange(ops) && PossibleRun(c, s0, ops) && ClashFree(c, s0, ops)
    requires i < j < |ops| && NextCreation(c, s0, ops, i, j)
    requires ops[i].Write? && ops[j].Write? && ops[i].now.date == ops[j].now.date
    ensures LengthBefore(c, s0, ops, i, j) + |ops[j].p| > c.maxSize
  {
    hide Step, Creates, Clashes, Possible, Run, PossibleRun, ClashFree;
    var s := Run(c, s0, ops[..j]);
    SameFileOpen(c, s0, ops, i, j);
    ShortenTo(c, s0, ops, j);
    var groups := RunKeepsInv(c, s0, ops[..j]);
    CreatesOnlyWhenFull(c, s, ops[j]);
  }

  lemma CreatesOnlyWhenFull(c: Settings, s: State, op: Op)
    requires MIN_INT <= s.w.number <= MAX_INT && op.Write? && op.now.Valid() && op.later.Valid()
    requires s.w.file.Some? && s.w.currentDate == op.now.date && Creates(c, s, op)
    ensures s.w.size + |op.p| > c.maxSize
  {
  }

  lemma ShortenTo(c: Settings, s0: State, ops: seq<Op>, n: nat)
    requires MIN_INT <= s0.w.number <= MAX_INT && InRange(ops) && n <= |ops|
    requires PossibleRun(c, s0, ops) && ClashFree(c, s0, ops)
    ensures PossibleRun(c, s0, ops[..n]) && ClashFree(c, s0, ops[..n])
  {
    hide Run, Possible, Clashes;
    forall i | 0 <= i < n
      ensures Possible(Run(c, s0, ops[..n][..i]), ops[..n][i]) && !Clashes(c, Run(c, s0, ops[..n][..i]), ops[..n][i])
    {
      assert ops[..n][..i] == ops[..i] && ops[..n][i] == ops[i];
      assert Possible(Run(c, s0, ops[..i]), ops[i]) && !Clashes(c, Run(c, s0, ops[..i]), ops[i]);
    }
  }

  // ---- When no write clashes ----

  /** The step moves the counter on. */
  predicate Recounts(c: Settings, s: State, op: Op) {
    && op.Write? && op.p != [] && !Fits(c, s.w, op.now.date, |op.p|)
    && (s.w.currentDate == op.now.date || op.os.scan.Some?)
  }

  /** The date the counter was last moved on for; empty before the first time. */
  function CounterDate(c: Settings, s0: State, ops: seq<Op>): string
    requires MIN_INT <= s0.w.number <= MAX_INT && InRange(ops)
  {
    if ops == [] then ""
    else
      var before, op := ops[..|ops| - 1], ops[|ops| - 1];
      if Recounts(c, Run(c, s0, before), op) then op.now.date else CounterDate(c, s0, before)
  }

  /** A write on the current date whose counter was last moved on for another date: the rotation for that
      other date got past its scan and then failed to open or stat its file. */
  predicate Returns(c: Settings, s: State, counterDate: string, op: Op) {
    && op.Write? && op.p != [] && !Fits(c, s.w, op.now.date, |op.p|)
    && s.w.currentDate == op.now.date != counterDate
  }

  predicate NeverReturns(c: Settings, s0: State, ops: seq<Op>)
    requires MIN_INT <= s0.w.number <= MAX_INT && InRange(ops)
  {
    forall i :: 0 <= i < |ops| ==> !Returns(c, Run(c, s0, ops[..i]), CounterDate(c, s0, ops[..i]), ops[i])
  }

  /** The clock's date never goes backwards. */
  predicate DatesAscend(ops: seq<Op>)
    requires InRange(ops)
  {
    forall i, j :: 0 <= i < j < |ops| && ops[i].Write? && ops[j].Write? ==>
      DateKey(ops[i].now.date) <= DateKey(ops[j].now.date)
  }

  /** No file of the directory carries a sequence number above `bound`. */
  predicate NumbersUpTo(c: Settings, dir: Directory, bound: int) {
    forall n :: n in dir.links ==>
      (var r := ParseFileName(c.prefix, n); r.Some? ==> r.value.1 <= bound)
  }

  /** `number` is at or above every sequence number used for `date`. */
  predicate Ahead(c: Settings, dir: Directory, date: string, number: int) {
    && number >= 0
    && forall n :: n in dir.links ==> DatedUpTo(c.prefix, n, date, number)
  }

  /** What the counter keeps: bounded, and ahead of the current date's files unless it was moved on for
      another date. */
  predicate CounterInv(c: Settings, s: State, counterDate: string, bound: int) {
    && DirOk(s) && -1 <= s.w.number <= bound && NumbersUpTo(c, s.dir, bound)
    && (s.w.currentDate != "" && s.w.currentDate == counterDate ==> Ahead(c, s.dir, s.w.currentDate, s.w.number))
  }

  lemma ValidDateNotEmpty(date: string)
    requires ValidDate(date)
    ensures date != ""
  {
  }

  /** The number a rotation picks belongs to no file yet, and stays ahead once it is used. */
  lemma RotateNumber(c: Settings, s: State, date: string, os: Outcome, bound: int)
    requires s.dir.Valid() && ValidDate(date)
    requires os.scan.Some? ==> s.dir.ListedBy(os.scan.value)
    requires -1 <= s.w.number <= bound < MAX_INT && NumbersUpTo(c, s.dir, bound)
    requires s.w.currentDate == date ==> Ahead(c, s.dir, date, s.w.number)
    requires s.w.currentDate != date ==> os.scan.Some?
    ensures var number := Chosen(c, s, date, os);
            && 0 <= number <= bound + 1
            && FileName(c.prefix, date, number) !in s.dir.links
            && Ahead(c, s.dir, date, number)
  {
    hide ParseFileName, ValidDate, FileName;
    if s.w.currentDate != date {
      MaxNumberIsMax(c.prefix, os.scan.value, s.dir.subdirs, date);
      NextNameFresh(c.prefix, s.dir, os.scan.value, date);
    } else {
      ParseOfFileName(c.prefix, date, s.w.number + 1);
    }
  }

  /** Links that were there before, and perhaps the file just named. */
  lemma FewerNames(c: Settings, dir: Directory, dir1: Directory, date: string, number: int, bound: int)
    requires ValidDate(date) && 0 <= number <= bound <= MAX_INT
             && Ahead(c, dir, date, number) && NumbersUpTo(c, dir, bound)
    requires forall n :: n in dir1.links ==> n in dir.links || n == FileName(c.prefix, date, number)
    ensures Ahead(c, dir1, date, number) && NumbersUpTo(c, dir1, bound)
  {
    hide ParseFileName, ValidDate, FileName;
    ParseOfFileName(c.prefix, date, number);
  }

  /** What a write that moves the counter on does to names, counter and current date. */
  lemma RecountShape(c: Settings, s: State, op: Op)
    requires MIN_INT <= s.w.number <= MAX_INT && s.dir.Valid() && Recounts(c, s, op)
    requires op.now.Valid() && op.later.Valid()
    ensures var t, number := Step(c, s, op).0, Chosen(c, s, op.now.date, op.os);
            && t.w.number == number && (t.w.currentDate == s.w.currentDate || t.w.currentDate == op.now.date)
            && forall n :: n in t.dir.links ==> n in s.dir.links || n == FileName(c.prefix, op.now.date, number)
  {
    hide ParseFileName, ValidDate, FileName, NextNumber, Swept;
    var name := FileName(c.prefix, op.now.date, Chosen(c, s, op.now.date, op.os));
    SweptKeepsInodes(c, s.dir, op.later, op.os);
    SweptKeepsInodes(c, Created(s.dir, name), op.later, op.os);
  }

  lemma NoRecountShape(c: Settings, s: State, op: Op)
    requires MIN_INT <= s.w.number <= MAX_INT && !Recounts(c, s, op)
    requires op.Write? ==> op.now.Valid() && op.later.Valid()
    ensures var t := Step(c, s, op).0;
            t.dir.links == s.dir.links && t.w.number == s.w.number && t.w.currentDate == s.w.currentDate
  {
    hide ParseFileName, ValidDate, FileName, NextNumber, Swept;
  }

  lemma StepKeepsCounter(c: Settings, s: State, counterDate: string, op: Op, bound: int)
    requires CounterInv(c, s, counterDate, bound) && -1 <= bound < MAX_INT
    requires op.Write? ==> op.now.Valid() && op.later.Valid()
    requires Possible(s, op) && !Returns(c, s, counterDate, op)
    ensures !Clashes(c, s, op)
    ensures CounterInv(c, Step(c, s, op).0, if Recounts(c, s, op) then op.now.date else counterDate, bound + 1)
  {
    hide ParseFileName, ValidDate, FileName, Step, Chosen, Ahead, NumbersUpTo, Clashes;
    StepKeepsDirOk(c, s, op);
    var t := Step(c, s, op).0;
    LargerBound(c, s.dir, bound);
    if Recounts(c, s, op) {
      var date := op.now.date;
      ValidDateNotEmpty(date);
      RotateNumber(c, s, date, op.os, bound);
      ClashIsAnExistingName(c, s, op);
      RecountShape(c, s, op);
      FewerNames(c, s.dir, t.dir, date, t.w.number, bound + 1);
    } else {
      NoRecountShape(c, s, op);
      if op.Write? && s.w.currentDate != op.now.date && op.os.scan.None? { NoScanNoClash(c, s, op); }
      else { NoRotationNoClash(c, s, op); }
      SameNames(c, s.dir, t.dir, s.w.currentDate, s.w.number, bound + 1);
    }
  }

  lemma LargerBound(c: Settings, dir: Directory, bound: int)
    requires NumbersUpTo(c, dir, bound)
    ensures NumbersUpTo(c, dir, bound + 1)
  {
    hide ParseFileName;
  }

  lemma SameNames(c: Settings, dir: Directory, dir1: Directory, date: string, number: int, bound: int)
    requires dir1.links == dir.links && NumbersUpTo(c, dir, bound)
    ensures NumbersUpTo(c, dir1, bound) && (Ahead(c, dir, date, number) ==> Ahead(c, dir1, date, number))
  {
    hide ParseFileName;
  }

  lemma ShortenNeverReturns(c: Settings, s0: State, ops: seq<Op>)
    requires ops != [] && MIN_INT <= s0.w.number <= MAX_INT && InRange(ops) && NeverReturns(c, s0, ops)
    ensures var before, op := ops[..|ops| - 1], ops[|ops| - 1];
            && InRange(before) && NeverReturns(c, s0, before)
            && !Returns(c, Run(c, s0, before), CounterDate(c, s0, before), op)
  {
    hide Step, Run, CounterDate, Returns;
    var before, op := ops[..|ops| - 1], ops[|ops| - 1];
    forall i | 0 <= i < |before|
      ensures !Returns(c, Run(c, s0, before[..i]), CounterDate(c, s0, before[..i]), before[i])
    {
      assert before[..i] == ops[..i];
      assert !Returns(c, Run(c, s0, ops[..i]), CounterDate(c, s0, ops[..i]), ops[i]);
    }
    assert !Returns(c, Run(c, s0, ops[..|ops| - 1]), CounterDate(c, s0, ops[..|ops| - 1]), op);
  }

  /** A run that never returns to a date its counter has left, in any order of dates, has no clash as long as
      the numbers last. */
  lemma {:induction false} NeverReturnsNeverClashes(c: Settings, s0: State, ops: seq<Op>, bound: int)
    requires s0.dir.Valid() && s0.w == NewWriter() && InRange(ops) && PossibleRun(c, s0, ops)
    requires NeverReturns(c, s0, ops)
    requires -1 <= bound && NumbersUpTo(c, s0.dir, bound) && bound + |ops| <= MAX_INT
    ensures ClashFree(c, s0, ops) && CounterInv(c, Run(c, s0, ops), CounterDate(c, s0, ops), bound + |ops|)
  {
    hide ParseFileName, ValidDate, Step, PossibleRun, Possible, NeverReturns, Returns,
         Recounts, NumbersUpTo, Ahead, Clashes;
    if ops != [] {
      var before, op := ops[..|ops| - 1], ops[|ops| - 1];
      Shorten(c, s0, ops);
      ShortenNeverReturns(c, s0, ops);
      NeverReturnsNeverClashes(c, s0, before, bound);
      StepKeepsCounter(c, Run(c, s0, before), CounterDate(c, s0, before), op, bound + |before|);
      forall i | 0 <= i < |ops| ensures !Clashes(c, Run(c, s0, ops[..i]), ops[i]) {
        if i < |before| {
          assert ops[..i] == before[..i] && ops[i] == before[i];
          assert !Clashes(c, Run(c, s0, before[..i]), before[i]);
        }
      }
    }
  }

  predicate WrittenOn(ops: seq<Op>, date: string) {
    exists i :: 0 <= i < |ops| && ops[i].Write? && ops[i].now.date == date
  }

  /** In a run with ascending dates the counter's date is that of an earlier write and not before the current date. */
  lemma {:induction false} AscendingCounter(c: Settings, s0: State, ops: seq<Op>)
    requires s0.dir.Valid() && s0.w == NewWriter() && InRange(ops) && DatesAscend(ops)
    ensures var w, tag := Run(c, s0, ops).w, CounterDate(c, s0, ops);
            && (tag != "" ==> WrittenOn(ops, tag) && ValidDate(tag))
            && (w.currentDate != "" ==> tag != "" && ValidDate(w.currentDate) && DateKey(w.currentDate) <= DateKey(tag))
  {
    hide ParseFileName, ValidDate, Step, Recounts, DateKey, WrittenOn, DatesAscend, InRange;
    if ops != [] {
      var before, op := ops[..|ops| - 1], ops[|ops| - 1];
      PrefixAscends(ops);
      AscendingCounter(c, s0, before);
      var s, tag := Run(c, s0, before), CounterDate(c, s0, before);
      RunKeepsDirOk(c, s0, before);
      if Recounts(c, s, op) {
        RecountIsAWrite(c, s, op);
        RecountShape(c, s, op);
        ValidDateNotEmpty(op.now.date);
        if tag != "" { WrittenBefore(ops, tag); }
      } else {
        NoRecountShape(c, s, op);
        if tag != "" { WrittenStays(ops, tag); }
      }
    }
  }

  lemma PrefixAscends(ops: seq<Op>)
    requires ops != [] && InRange(ops) && DatesAscend(ops)
    ensures var before, op := ops[..|ops| - 1], ops[|ops| - 1];
            && InRange(before) && DatesAscend(before)
            && (op.Write? ==> op.now.Valid() && op.later.Valid() && WrittenOn(ops, op.now.date))
  {
    hide ValidDate, DateKey;
  }

  lemma WrittenStays(ops: seq<Op>, date: string)
    requires ops != [] && WrittenOn(ops[..|ops| - 1], date)
    ensures WrittenOn(ops, date)
  {
    var i :| 0 <= i < |ops| - 1 && ops[..|ops| - 1][i].Write? && ops[..|ops| - 1][i].now.date == date;
    assert ops[i].Write? && ops[i].now.date == date;
  }

  lemma WrittenBefore(ops: seq<Op>, date: string)
    requires ops != [] && InRange(ops) && DatesAscend(ops) && ops[|ops| - 1].Write?
    requires ValidDate(date) && WrittenOn(ops[..|ops| - 1], date)
    ensures DateKey(date) <= DateKey(ops[|ops| - 1].now.date)
  {
    hide ValidDate, DateKey;
    var i :| 0 <= i < |ops| - 1 && ops[..|ops| - 1][i].Write? && ops[..|ops| - 1][i].now.date == date;
    assert ops[i].Write? && ops[i].now.date == date;
  }

  lemma RecountIsAWrite(c: Settings, s: State, op: Op)
    requires Recounts(c, s, op)
    ensures op.Write?
  {
  }

  lemma SameDay(a: string, b: string)
    requires ValidDate(a) && ValidDate(b) && DateKey(a) == DateKey(b)
    ensures a == b
  {
    DateKeyInjective(a, b);
  }

  /** Ascending dates never return. */
  lemma AscendingNeverReturns(c: Settings, s0: State, ops: seq<Op>)
    requires s0.dir.Valid() && s0.w == NewWriter() && InRange(ops) && DatesAscend(ops)
    ensures NeverReturns(c, s0, ops)
  {
    hide ParseFileName, ValidDate, DateKey, Step, Run, CounterDate, Returns;
    forall i | 0 <= i < |ops|
      ensures !Returns(c, Run(c, s0, ops[..i]), CounterDate(c, s0, ops[..i]), ops[i])
    {
      AscendingStep(c, s0, ops, i);
    }
  }

  lemma AscendingStep(c: Settings, s0: State, ops: seq<Op>, i: nat)
    requires s0.dir.Valid() && s0.w == NewWriter() && InRange(ops) && DatesAscend(ops) && i < |ops|
    ensures !Returns(c, Run(c, s0, ops[..i]), CounterDate(c, s0, ops[..i]), ops[i])
  {
    hide ParseFileName, ValidDate, DateKey, Step, Run, CounterDate, WrittenOn;
    var upTo, before, op := ops[..i + 1], ops[..i], ops[i];
    assert upTo[..|upTo| - 1] == before && upTo[|upTo| - 1] == op;
    AscendingCounter(c, s0, before);
    var w, tag := Run(c, s0, before).w, CounterDate(c, s0, before);
    if op.Write? && w.currentDate == op.now.date {
      ValidDateNotEmpty(op.now.date);
      WrittenBefore(upTo, tag);
      SameDay(tag, w.currentDate);
    }
  }

  /** Conservation for every run that never returns, in any order of dates, while the numbers last. */
  lemma NeverReturnsConserves(c: Settings, s0: State, ops: seq<Op>, bound: int) returns (groups: seq<seq<seq<byte>>>)
    requires c.maxSize > 0 && s0.dir.Valid() && s0.w == NewWriter()
    requires InRange(ops) && PossibleRun(c, s0, ops) && NeverReturns(c, s0, ops)
    requires -1 <= bound && NumbersUpTo(c, s0.dir, bound) && bound + |ops| <= MAX_INT
    ensures Conserved(c, s0, ops, groups)
  {
    hide ParseFileName, Run, Accepted, Conserved;
    NeverReturnsNeverClashes(c, s0, ops, bound);
    groups := RunConservesBytes(c, s0, ops);
  }

  /** Conservation for every run whose dates do not go backwards. */
  lemma AscendingConserves(c: Settings, s0: State, ops: seq<Op>, bound: int) returns (groups: seq<seq<seq<byte>>>)
    requires c.maxSize > 0 && s0.dir.Valid() && s0.w == NewWriter()
    requires InRange(ops) && PossibleRun(c, s0, ops) && DatesAscend(ops)
    requires -1 <= bound && NumbersUpTo(c, s0.dir, bound) && bound + |ops| <= MAX_INT
    ensures Conserved(c, s0, ops, groups)
  {
    hide ParseFileName, Run, Accepted, Conserved;
    AscendingNeverReturns(c, s0, ops);
    groups := NeverReturnsConserves(c, s0, ops, bound);
  }

  // ---- A run that does return ----

  function Plain(scan: Option<seq<string>>, openOk: bool, written: nat): Outcome {
    Outcome(scan, openOk, true, None, {}, written)
  }

  /** The three writes of `BackwardDateAppends`: one day, the next with a failing open, the first day again. */
  function BackwardOps(c: Settings, d1: string, d2: string, p: seq<byte>): seq<Op> {
    var n1, n2 := FileName(c.prefix, d1, 1), FileName(c.prefix, d1, 2);
    [Write(p, Instant(d1, 0), Instant(d1, 0), Plain(Some([n1]), true, |p|)),
     Write(p, Instant(d2, 0), Instant(d2, 0), Plain(Some([n1, n2]), false, 0)),
     Write(p, Instant(d1, 0), Instant(d1, 0), Plain(None, true, |p|))]
  }

  function BackwardStart(c: Settings, d1: string, prior: seq<byte>): State {
    State(Directory(map[FileName(c.prefix, d1, 1) := 0], [prior], {}), NewWriter())
  }

  /** The states after the first and the second of those writes. */
  function BackwardMiddle(c: Settings, d1: string, p: seq<byte>, prior: seq<byte>, second: bool): State {
    State(Directory(map[FileName(c.prefix, d1, 1) := 0, FileName(c.prefix, d1, 2) := 1], [prior, p], {}),
          if second then Writer(None, d1, 0, |p|) else Writer(Some(1), d1, 2, |p|))
  }

  lemma BackwardFirst(c: Settings, d1: string, d2: string, p: seq<byte>, prior: seq<byte>)
    requires c.maxSize > 0 && ValidDate(d1) && p != []
    ensures Step(c, BackwardStart(c, d1, prior), BackwardOps(c, d1, d2, p)[0]).0
            == BackwardMiddle(c, d1, p, prior, false)
  {
    hide ParseFileName, ValidDate, FileName;
    var n1, n2 := FileName(c.prefix, d1, 1), FileName(c.prefix, d1, 2);
    ParseOfFileName(c.prefix, d1, 1);
    ParseOfFileName(c.prefix, d1, 2);
    ValidDateNotEmpty(d1);
    assert [n1][..0] == [];
    assert MaxNumber(c.prefix, [n1], {}, d1) == 1;
    assert p[..|p|] == p && [] + p == p;
  }

  lemma BackwardSecond(c: Settings, d1: string, d2: string, p: seq<byte>, prior: seq<byte>)
    requires c.maxSize > 0 && ValidDate(d1) && ValidDate(d2) && d1 != d2 && p != []
    ensures Step(c, BackwardMiddle(c, d1, p, prior, false), BackwardOps(c, d1, d2, p)[1]).0
            == BackwardMiddle(c, d1, p, prior, true)
  {
    hide ParseFileName, ValidDate, FileName;
    var n1, n2 := FileName(c.prefix, d1, 1), FileName(c.prefix, d1, 2);
    ParseOfFileName(c.prefix, d1, 1);
    ParseOfFileName(c.prefix, d1, 2);
    assert [n1][..0] == [] && [n1, n2][..1] == [n1];
    assert MaxNumber(c.prefix, [n1], {}, d2) == -1;
    assert MaxNumber(c.prefix, [n1, n2], {}, d2) == -1;
  }

  lemma BackwardThird(c: Settings, d1: string, d2: string, p: seq<byte>, prior: seq<byte>)
    requires c.maxSize > 0 && ValidDate(d1) && p != []
    ensures var dir := Step(c, BackwardMiddle(c, d1, p, prior, true), BackwardOps(c, d1, d2, p)[2]).0.dir;
            |dir.inodes| == 2 && dir.inodes[0] == prior + p
  {
    hide ParseFileName, ValidDate, FileName;
    ParseOfFileName(c.prefix, d1, 1);
    ParseOfFileName(c.prefix, d1, 2);
    assert p[..|p|] == p;
  }

  /** Without ascending dates conservation fails, whatever the settings, dates and data: after an open
      that failed on a new day, a clock set back to the first day makes the writer append to a file
      that was there before it started. */
  lemma BackwardDateAppends(c: Settings, d1: string, d2: string, p: seq<byte>, prior: seq<byte>)
    requires c.maxSize > 0 && ValidDate(d1) && ValidDate(d2) && d1 != d2 && p != []
    ensures var s0, ops := BackwardStart(c, d1, prior), BackwardOps(c, d1, d2, p);
            && InRange(ops) && PossibleRun(c, s0, ops)
            && |Run(c, s0, ops).dir.inodes| == 2 && Run(c, s0, ops).dir.inodes[0] == prior + p
  {
    var s0, ops := BackwardStart(c, d1, prior), BackwardOps(c, d1, d2, p);
    var s1, s2 := BackwardMiddle(c, d1, p, prior, false), BackwardMiddle(c, d1, p, prior, true);
    hide ParseFileName, ValidDate, FileName, Step;
    BackwardFirst(c, d1, d2, p, prior);
    BackwardSecond(c, d1, d2, p, prior);
    BackwardThird(c, d1, d2, p, prior);
    assert ops[..0] == [] && ops[..3] == ops;
    assert ops[..1][..0] == ops[..0] && ops[..2][..1] == ops[..1] && ops[..3][..2] == ops[..2];
    assert Run(c, s0, ops[..1]) == s1;
    assert Run(c, s0, ops[..2]) == s2;
  }

  /** The counter wraps around: with the largest number and the plain file present, the scan leads back
      to the plain file. */
  lemma CounterWraps(prefix: string, date: string)
    requires ValidDate(date)
    ensures var first, last := FileName(prefix, date, 0), FileName(prefix, date, MAX_INT);
            FileName(prefix, date, NextNumber(prefix, [first, last], {}, date)) == first
  {
    hide ParseFileName, ValidDate, FileName;
    var first, last := FileName(prefix, date, 0), FileName(prefix, date, MAX_INT);
    ParseOfFileName(prefix, date, 0);
    ParseOfFileName(prefix, date, MAX_INT);
    NegativeNumberIsZero(prefix, date);
    MaxNumberIsMax(prefix, [first, last], {}, date);
    assert last in [first, last];
    assert DatedUpTo(prefix, last, date, MaxNumber(prefix, [first, last], {}, date));
  }

  // ---- Cleanup ----

  /** A name that disappears in a step was an expired log file, and names never change their inode. */
  lemma StepRemovesOnlyExpired(c: Settings, s: State, op: Op, name: string)
    requires MIN_INT <= s.w.number <= MAX_INT && name in s.dir.links
    requires op.Write? ==> op.now.Valid() && op.later.Valid()
    ensures var links := Step(c, s, op).0.dir.links;
            if name in links then links[name] == s.dir.links[name]
            else op.Write? && Expired(c, name, op.later)
  {
    hide ParseFileName, ValidDate, FileName, NextNumber, Expired;
  }

  /** Over every run, whatever fails: a directory entry keeps its inode, or it was a log file of this
      prefix that one of the sweeps found too old. */
  lemma {:induction false} RunRemovesOnlyExpired(c: Settings, s0: State, ops: seq<Op>, name: string)
    requires MIN_INT <= s0.w.number <= MAX_INT && InRange(ops) && name in s0.dir.links
    ensures var links := Run(c, s0, ops).dir.links;
            || (name in links && links[name] == s0.dir.links[name])
            || (exists i :: 0 <= i < |ops| && ops[i].Write? && Expired(c, name, ops[i].later))
  {
    hide ParseFileName, ValidDate, FileName, Step, Expired;
    if ops != [] {
      var before := ops[..|ops| - 1];
      RunRemovesOnlyExpired(c, s0, before, name);
      if name in Run(c, s0, before).dir.links {
        StepRemovesOnlyExpired(c, Run(c, s0, before), ops[|ops| - 1], name);
      }
    }
  }

  /** Exactly when the file a rotation has just opened loses its name to the sweep of that rotation: the sweep lists
      it, can remove it, and by then it is too old.  It never is when logs live at least a day and both clock
      readings fall on the same day. */
  lemma OpenFileSurvivesSweepIff(c: Settings, s: State, date: string, later: Instant, os: Outcome)
    requires ValidDate(date) && later.Valid() && MIN_INT <= s.w.number <= MAX_INT
    requires Rotate(c, s, date, later, os).1
    ensures var t := Rotate(c, s, date, later, os).0;
            var name := FileName(c.prefix, date, t.w.number);
            && (name in t.dir.links <==>
                  !(os.sweep.Some? && name in os.sweep.value && name in os.removable && Age(later, date) > c.maxAge))
            && (name in t.dir.links ==> t.w.file == Some(t.dir.links[name]))
    ensures c.maxAge >= DAY && later.date == date ==> Age(later, date) <= c.maxAge
  {
    var number := Rotate(c, s, date, later, os).0.w.number;
    hide ParseFileName, ValidDate, FileName, NextNumber;
    ParseOfAnyNumber(c.prefix, date, number);
  }

  /** Exactly what the sweep removes: the listed, removable logs of this prefix whose day began more than the limit ago,
      counted in days of the calendar and nanoseconds of the last one.  (A duration that does not fit saturates, so
      the largest limit is never exceeded.) */
  lemma SweptIff(c: Settings, dir: Directory, name: string, now: Instant, os: Outcome)
    requires now.Valid() && name in dir.links && name !in dir.subdirs
    ensures name !in Swept(c, dir, now, os).links <==>
              && os.sweep.Some? && name in os.sweep.value && name in os.removable
              && var r := ParseFileName(c.prefix, name);
                 && r.Some? && c.maxAge < 0x7FFF_FFFF_FFFF_FFFF
                 && (DayNumber(now.date) - DayNumber(r.value.0)) * 86_400_000_000_000 + now.nanos > c.maxAge
    ensures name in Swept(c, dir, now, os).links ==> Swept(c, dir, now, os).links[name] == dir.links[name]
  {
    hide ParseFileName, ValidDate, DayNumber;
  }

  lemma ParseOfAnyNumber(prefix: string, date: string, number: int)
    requires ValidDate(date) && number <= MAX_INT
    ensures ParseFileName(prefix, FileName(prefix, date, number)) == Some((date, if number < 0 then 0 else number))
  {
    ParseOfFileName(prefix, date, if number < 0 then 0 else number);
  }
}
