/** `rotatingFileWriter` as an object that changes its fields and the directory call by call
    (internal/logger/file_writer.go).  Each method is tied to the state machine of `LogStore`, whose
    runs are the subject of the theorems there. */
module LogWriter {
  import opened Text
  import opened LogNames
  import opened LogStore

  class RotatingFileWriter {
    const settings: Settings
    var dir: Directory
    var file: Option<nat>
    var currentDate: string
    var number: int
    var size: int

    ghost function Abs(): State
      reads this
    {
      State(dir, Writer(file, currentDate, number, size))
    }

    /** The counter is a Go `int`, and an open file has an inode. */
    ghost predicate Valid()
      reads this
    {
      MIN_INT <= number <= MAX_INT && dir.Valid() && (file.Some? ==> file.value < |dir.inodes|)
    }

    constructor (prefix: string, maxSize: int, maxAge: int, dir: Directory)
      requires dir.Valid()
      ensures Valid() && Abs() == State(dir, NewWriter())
      ensures settings == MakeSettings(prefix, maxSize, maxAge) && settings.maxSize > 0
    {
      settings := MakeSettings(prefix, maxSize, maxAge);
      this.dir := dir;
      file, currentDate, number, size := None, "", -1, 0;
    }

    method Write(p: seq<byte>, now: Instant, later: Instant, os: Outcome) returns (n: nat, ok: bool)
      requires Valid() && now.Valid() && later.Valid()
      modifies this
      ensures Valid() && (Abs(), n) == Step(settings, old(Abs()), Op.Write(p, now, later, os))
      ensures n <= |p| && (ok <==> n == |p|)
    {
      hide Rotate, ValidDate;
      if p == [] { return 0, true; }
      var open := EnsureFile(now.date, |p|, later, os);
      if !open { return 0, false; }
      n := if os.written < |p| then os.written else |p|;
      dir := Append(dir, file.value, p[..n]);
      size := size + n;
      ok := n == |p|;
    }

    method Close()
      requires Valid()
      modifies this
      ensures Valid() && Abs() == Step(settings, old(Abs()), Op.Close).0
      ensures file == None && dir == old(dir) && currentDate == old(currentDate) && number == old(number)
    {
      file := None;
    }

    method EnsureFile(date: string, incoming: nat, later: Instant, os: Outcome) returns (open: bool)
      requires Valid() && later.Valid()
      modifies this
      ensures Valid() && (open ==> file.Some?)
      ensures var stays := old(file).Some? && old(currentDate) == date && old(size) + incoming <= settings.maxSize;
              (Abs(), open) == if stays then (old(Abs()), true)
                               else Rotate(settings, old(Abs()), date, later, os)
    {
      if file.Some? && currentDate == date && size + incoming <= settings.maxSize {
        return true;
      }
      open := RotateTo(date, later, os);
    }

    method RotateTo(date: string, later: Instant, os: Outcome) returns (open: bool)
      requires Valid() && later.Valid()
      modifies this
      ensures Valid() && (open ==> file.Some?)
      ensures (Abs(), open) == Rotate(settings, old(Abs()), date, later, os)
    {
      hide FileName, ParseFileName, ValidDate, MaxNumber;
      file := None;
      if currentDate != date {
        if os.scan.None? { return false; }
        number := NextSeq(os.scan.value, date);
      } else {
        number := Increment(number);
      }
      var name := FileName(settings.prefix, date, number);
      if !os.openOk || name in dir.subdirs { return false; }
      if name !in dir.links {
        dir := Created(dir, name);
      }
      var id := dir.links[name];
      if !os.statOk { return false; }
      file, currentDate, size := Some(id), date, |dir.inodes[id]|;
      CleanupOld(later, os);
      open := true;
    }

    /** The loop over the directory entries that finds the next free sequence number. */
    method NextSeq(entries: seq<string>, date: string) returns (next: int)
      ensures next == NextNumber(settings.prefix, entries, dir.subdirs, date)
    {
      hide ParseFileName, ValidDate;
      var maxSeq := -1;
      for i := 0 to |entries|
        invariant maxSeq == MaxNumber(settings.prefix, entries[..i], dir.subdirs, date)
      {
        assert entries[..i + 1][..i] == entries[..i];
        var name := entries[i];
        if name in dir.subdirs { continue; }
        var parsed := ParseFileName(settings.prefix, name);
        if parsed.None? || parsed.value.0 != date { continue; }
        if parsed.value.1 > maxSeq {
          maxSeq := parsed.value.1;
        }
      }
      assert entries[..|entries|] == entries;
      next := Increment(maxSeq);
    }

    /** The loop that removes expired files one by one. */
    method CleanupOld(now: Instant, os: Outcome)
      requires now.Valid() && Valid()
      modifies this`dir
      ensures Valid() && dir == Swept(settings, old(dir), now, os)
    {
      hide ParseFileName, ValidDate, FileName;
      if os.sweep.None? { return; }
      var entries := os.sweep.value;
      for i := 0 to |entries|
        invariant Valid() && dir == Swept(settings, old(dir), now, os.(sweep := Some(entries[..i])))
      {
        var name := entries[i];
        assert entries[..i + 1] == entries[..i] + [name];
        if name in dir.subdirs { continue; }
        var parsed := ParseFileName(settings.prefix, name);
        if parsed.None? { continue; }
        if Age(now, parsed.value.0) > settings.maxAge && name in os.removable {
          dir := dir.(links := dir.links - {name});
        }
      }
      assert entries[..|entries|] == entries;
    }
  }
}
