/** Names of log files: printing, parsing and the calendar they carry
    (internal/logger/file_writer.go, `fileName`, `parseFileName`). */
module LogNames {
  import opened Text

  /** Go's `int` on the 64-bit platforms nanotun ships for. */
  const MAX_INT: int := 0x7FFF_FFFF_FFFF_FFFF
  const MIN_INT: int := -0x8000_0000_0000_0000

  /** `x + 1` on a Go `int`. */
  function Increment(x: int): (r: int)
    requires MIN_INT <= x <= MAX_INT
    ensures MIN_INT <= r <= MAX_INT
  {
    if x == MAX_INT then MIN_INT else x + 1
  }

  // ---- Decimal numbers ----

  predicate IsDigit(c: char) {
    '0' <= c <= '9'
  }

  predicate AllDigits(s: string) {
    forall i :: 0 <= i < |s| ==> IsDigit(s[i])
  }

  function Digit(n: nat): (c: char)
    requires n < 10
    ensures IsDigit(c) && DigitValue(c) == n
  {
    ('0' as int + n) as char
  }

  function DigitValue(c: char): (n: nat)
    requires IsDigit(c)
    ensures n < 10
  {
    c as int - '0' as int
  }

  /** The `%d` verb on a non-negative number. */
  function Itoa(n: nat): (s: string)
    ensures s != [] && AllDigits(s)
  {
    if n < 10 then [Digit(n)] else Itoa(n / 10) + [Digit(n % 10)]
  }

  function DigitsValue(s: string): nat
    requires AllDigits(s)
  {
    if s == [] then 0 else 10 * DigitsValue(s[..|s| - 1]) + DigitValue(s[|s| - 1])
  }

  /** `strconv.Atoi`: an optional sign, at least one digit, and a value that fits an `int`. */
  function Atoi(s: string): Option<int> {
    var signed := s != [] && (s[0] == '+' || s[0] == '-');
    var digits := if signed then s[1..] else s;
    if digits == [] || !AllDigits(digits) then None
    else
      var v: int := if signed && s[0] == '-' then 0 - DigitsValue(digits) else DigitsValue(digits);
      if MIN_INT <= v <= MAX_INT then Some(v) else None
  }

  lemma {:induction false} DigitsOfItoa(n: nat)
    ensures DigitsValue(Itoa(n)) == n
  {
    if n < 10 {
      assert [Digit(n)][..0] == [];
    } else {
      DigitsOfItoa(n / 10);
      var s := Itoa(n / 10) + [Digit(n % 10)];
      assert s[..|s| - 1] == Itoa(n / 10);
    }
  }

  lemma AtoiOfItoa(n: nat)
    requires n <= MAX_INT
    ensures Atoi(Itoa(n)) == Some(n)
  {
    DigitsOfItoa(n);
    assert IsDigit(Itoa(n)[0]);
  }

  /** Exactly what reads as an `int`: digits, or a sign and digits, within the range. */
  lemma AtoiIff(s: string, v: int)
    ensures Atoi(s) == Some(v) <==>
              && -0x8000_0000_0000_0000 <= v <= 0x7FFF_FFFF_FFFF_FFFF
              && exists d :: d != "" && AllDigits(d) && ((s == d && v == DigitsValue(d))
                   || (s == "+" + d && v == DigitsValue(d)) || (s == "-" + d && v == 0 - DigitsValue(d)))
  {
    if Atoi(s) == Some(v) {
      var d := if s[0] == '+' || s[0] == '-' then s[1..] else s;
      assert s == "+" + d || s == "-" + d || s == d;
      assert d != "" && AllDigits(d);
    }
    if d :| d != "" && AllDigits(d) && ((s == d && v == DigitsValue(d))
              || (s == "+" + d && v == DigitsValue(d)) || (s == "-" + d && v == 0 - DigitsValue(d)))
    {
      assert IsDigit(d[0]);
      assert s != d ==> s[1..] == d;
    }
  }

  // ---- Calendar dates in the layout 2006-01-02 ----

  function Two(s: string, i: nat): nat
    requires i + 2 <= |s| && IsDigit(s[i]) && IsDigit(s[i + 1])
  {
    10 * DigitValue(s[i]) + DigitValue(s[i + 1])
  }

  predicate DateShape(s: string) {
    && |s| == 10 && s[4] == '-' && s[7] == '-'
    && IsDigit(s[0]) && IsDigit(s[1]) && IsDigit(s[2]) && IsDigit(s[3])
    && IsDigit(s[5]) && IsDigit(s[6]) && IsDigit(s[8]) && IsDigit(s[9])
  }

  function Year(s: string): nat requires DateShape(s) { 100 * Two(s, 0) + Two(s, 2) }
  function Month(s: string): nat requires DateShape(s) { Two(s, 5) }
  function Day(s: string): nat requires DateShape(s) { Two(s, 8) }

  predicate IsLeap(year: nat) {
    year % 4 == 0 && (year % 100 != 0 || year % 400 == 0)
  }

  function DaysIn(month: nat, year: nat): nat {
    if month == 2 then (if IsLeap(year) then 29 else 28)
    else if month == 4 || month == 6 || month == 9 || month == 11 then 30
    else 31
  }

  /** What `time.Parse("2006-01-02", s)` accepts. */
  predicate ValidDate(s: string) {
    && DateShape(s)
    && 1 <= Month(s) <= 12
    && 1 <= Day(s) <= DaysIn(Month(s), Year(s))
  }

  /** Position of a date in calendar order. */
  function DateKey(s: string): nat
    requires DateShape(s)
  {
    10000 * Year(s) + 100 * Month(s) + Day(s)
  }

  /** Two dates on the same calendar position are the same text. */
  lemma DateKeyInjective(a: string, b: string)
    requires DateShape(a) && DateShape(b) && DateKey(a) == DateKey(b)
    ensures a == b
  {
    assert Year(a) == Year(b) && Month(a) == Month(b) && Day(a) == Day(b) by {
      assert Month(a) < 100 && Day(a) < 100 && Month(b) < 100 && Day(b) < 100;
    }
    assert Two(a, 0) == Two(b, 0) && Two(a, 2) == Two(b, 2);
    forall i | 0 <= i < 10
      ensures a[i] == b[i]
    {
      SameDigit(a, b, i);
    }
  }

  lemma SameDigit(a: string, b: string, i: nat)
    requires DateShape(a) && DateShape(b) && i < 10
    requires Two(a, 0) == Two(b, 0) && Two(a, 2) == Two(b, 2)
    requires Month(a) == Month(b) && Day(a) == Day(b)
    ensures a[i] == b[i]
  {
  }

  function DaysBeforeMonth(month: nat, year: nat): nat
    decreases month
  {
    if month <= 1 then 0 else DaysBeforeMonth(month - 1, year) + DaysIn(month - 1, year)
  }

  /** Days since 0000-01-01 of a year, month and day. */
  function DaysTo(y: nat, m: nat, d: nat): int {
    365 * y + (y + 3) / 4 - (y + 99) / 100 + (y + 399) / 400 + DaysBeforeMonth(m, y) + d - 1
  }

  function DayNumber(s: string): int
    requires DateShape(s)
  {
    DaysTo(Year(s), Month(s), Day(s))
  }

  lemma YearLength(y: nat)
    ensures DaysBeforeMonth(12, y) + 31 == if IsLeap(y) then 366 else 365
  {
    assert DaysBeforeMonth(4, y) == 59 + DaysIn(2, y) - 28 + 31 by { assert DaysBeforeMonth(2, y) == 31; }
    assert DaysBeforeMonth(6, y) == DaysBeforeMonth(4, y) + 61;
    assert DaysBeforeMonth(8, y) == DaysBeforeMonth(6, y) + 61;
    assert DaysBeforeMonth(10, y) == DaysBeforeMonth(8, y) + 61;
    assert DaysBeforeMonth(12, y) == DaysBeforeMonth(10, y) + 61;
  }

  /** The numbering is the calendar: each day is followed by the next, over the ends of months and years. */
  lemma CalendarIsConsecutive(y: nat, m: nat, d: nat)
    requires 1 <= m <= 12
    ensures DaysTo(y, m, d + 1) == DaysTo(y, m, d) + 1
    ensures m < 12 ==> DaysTo(y, m + 1, 1) == DaysTo(y, m, DaysIn(m, y)) + 1
    ensures DaysTo(y + 1, 1, 1) == DaysTo(y, 12, 31) + 1
  {
    hide DaysBeforeMonth, IsLeap;
    YearLength(y);
    LeapDays(y);
    assert DaysBeforeMonth(1, y + 1) == 0 by { FirstMonth(y + 1); }
    if m < 12 { MonthAfter(m, y); }
  }

  lemma FirstMonth(y: nat)
    ensures DaysBeforeMonth(1, y) == 0
  {
  }

  lemma MonthAfter(m: nat, y: nat)
    requires 1 <= m
    ensures DaysBeforeMonth(m + 1, y) == DaysBeforeMonth(m, y) + DaysIn(m, y)
  {
  }

  lemma CeilingStep(y: nat, k: nat)
    requires k == 4 || k == 100 || k == 400
    ensures (y + k) / k == (y + k - 1) / k + if y % k == 0 then 1 else 0
  {
  }

  /** How the count of leap days before a year grows. */
  lemma LeapDays(y: nat)
    ensures (y + 4) / 4 - (y + 100) / 100 + (y + 400) / 400
            == (y + 3) / 4 - (y + 99) / 100 + (y + 399) / 400 + if IsLeap(y) then 1 else 0
  {
    CeilingStep(y, 4);
    CeilingStep(y, 100);
    CeilingStep(y, 400);
    Multiples(y);
  }

  lemma Multiples(y: nat)
    ensures y % 400 == 0 ==> y % 100 == 0
    ensures y % 100 == 0 ==> y % 4 == 0
  {
    var q, r := y / 400, y / 100;
    assert y % 400 == 0 ==> y == 100 * (4 * q);
    assert y % 100 == 0 ==> y == 4 * (25 * r);
  }

  lemma {:induction false} MonthsAscend(m: nat, n: nat, y: nat)
    requires 1 <= m < n
    ensures DaysBeforeMonth(m, y) + DaysIn(m, y) <= DaysBeforeMonth(n, y)
    decreases n
  {
    MonthAfter(n - 1, y);
    if m < n - 1 { MonthsAscend(m, n - 1, y); }
  }

  /** A day of the year lies before the next first of January. */
  lemma WithinYear(y: nat, m: nat, d: nat)
    requires 1 <= m <= 12 && 1 <= d <= DaysIn(m, y)
    ensures DaysTo(y, 1, 1) <= DaysTo(y, m, d) < DaysTo(y + 1, 1, 1)
  {
    hide DaysIn, DaysBeforeMonth;
    CalendarIsConsecutive(y, 12, 31);
    FirstMonth(y);
    YearEnds(y);
    if m < 12 { MonthsAscend(m, 12, y); }
    if m > 1 { MonthsAscend(1, m, y); }
  }

  lemma YearEnds(y: nat)
    ensures DaysIn(12, y) == 31
  {
  }

  lemma {:induction false} YearsAscend(y: nat, z: nat)
    requires y <= z
    ensures DaysTo(y, 1, 1) <= DaysTo(z, 1, 1)
    decreases z
  {
    if y < z {
      YearsAscend(y, z - 1);
      YearEnds(z - 1);
      WithinYear(z - 1, 1, 1);
    }
  }

  /** Calendar order of the texts is the order of the days. */
  lemma DateKeyOrders(a: string, b: string)
    requires ValidDate(a) && ValidDate(b)
    ensures DateKey(a) < DateKey(b) <==> DayNumber(a) < DayNumber(b)
  {
    hide DaysTo, DaysIn;
    if DateKey(a) < DateKey(b) { EarlierDay(a, b); }
    else if DateKey(b) < DateKey(a) { EarlierDay(b, a); }
    else { DateKeyInjective(a, b); }
  }

  lemma EarlierDay(a: string, b: string)
    requires ValidDate(a) && ValidDate(b) && DateKey(a) < DateKey(b)
    ensures DayNumber(a) < DayNumber(b)
  {
    hide DaysIn, DaysBeforeMonth;
    assert Month(a) < 100 && Day(a) < 100 && Month(b) < 100 && Day(b) < 100;
    if Year(a) < Year(b) {
      WithinYear(Year(a), Month(a), Day(a));
      YearsAscend(Year(a) + 1, Year(b));
      WithinYear(Year(b), Month(b), Day(b));
    } else {
      assert Year(a) == Year(b);
      if Month(a) < Month(b) { MonthsAscend(Month(a), Month(b), Year(a)); }
    }
  }

  /** The twelve months, in common and leap years. */
  lemma MonthLengths(year: nat)
    ensures DaysIn(1, year) == 31 && DaysIn(3, year) == 31 && DaysIn(4, year) == 30 && DaysIn(5, year) == 31
    ensures DaysIn(6, year) == 30 && DaysIn(7, year) == 31 && DaysIn(8, year) == 31 && DaysIn(9, year) == 30
    ensures DaysIn(10, year) == 31 && DaysIn(11, year) == 30 && DaysIn(12, year) == 31
    ensures DaysIn(2, year) == if year % 400 == 0 || (year % 4 == 0 && year % 100 != 0) then 29 else 28
  {
    Multiples(year);
  }

  lemma DigitText(n: nat)
    requires n < 10
    ensures Digit(n) == "0123456789"[n]
  {
  }

  /** A year, month and day in the layout 2006-01-02. */
  function DateText(y: nat, m: nat, d: nat): string
    requires y < 10000 && m < 100 && d < 100
  {
    [Digit(y / 1000), Digit(y / 100 % 10), Digit(y / 10 % 10), Digit(y % 10), '-',
     Digit(m / 10), Digit(m % 10), '-', Digit(d / 10), Digit(d % 10)]
  }

  lemma DateTextParts(y: nat, m: nat, d: nat)
    requires y < 10000 && m < 100 && d < 100
    ensures var s := DateText(y, m, d); DateShape(s) && Year(s) == y && Month(s) == m && Day(s) == d
  {
    assert 1000 * (y / 1000) + 100 * (y / 100 % 10) + 10 * (y / 10 % 10) + y % 10 == y by { FourDigits(y); }
  }

  lemma FourDigits(y: nat)
    ensures y / 1000 == y / 100 / 10 && y / 100 == y / 10 / 10
    ensures y < 10000 ==> 1000 * (y / 1000) + 100 * (y / 100 % 10) + 10 * (y / 10 % 10) + y % 10 == y
  {
  }

  /** Exactly the days of the calendar are valid, and every valid text is the layout of one. */
  lemma ValidDateIff(s: string)
    ensures ValidDate(s) <==> exists y: nat, m: nat, d: nat :: IsCalendarDay(y, m, d) && s == DateText(y, m, d)
  {
    hide DateText;
    if ValidDate(s) {
      var y, m, d := Year(s), Month(s), Day(s);
      DateTextParts(y, m, d);
      DateKeyInjective(s, DateText(y, m, d));
      assert IsCalendarDay(y, m, d) && s == DateText(y, m, d);
    }
    if y: nat, m: nat, d: nat :| IsCalendarDay(y, m, d) && s == DateText(y, m, d) {
      DateTextParts(y, m, d);
    }
  }

  predicate IsCalendarDay(y: nat, m: nat, d: nat) {
    y < 10000 && 1 <= m <= 12 && 1 <= d <= DaysIn(m, y) <= 31
  }

  // ---- File names ----

  function FileName(prefix: string, date: string, number: int): string {
    if number <= 0 then prefix + "-" + date + ".log"
    else prefix + "-" + date + "." + Itoa(number) + ".log"
  }

  /** `parseFileName`: the date and sequence number a directory entry stands for, if any.
      Accepts more than `FileName` prints: signs, leading zeros and an explicit zero. */
  function ParseFileName(prefix: string, name: string): (r: Option<(string, int)>)
    ensures r.Some? ==> ValidDate(r.value.0) && 0 <= r.value.1 <= MAX_INT
  {
    var p := prefix + "-";
    if !HasPrefix(name, p) || !HasSuffix(name, ".log") then None
    else
      var parts := Split(TrimSuffix(TrimPrefix(name, p), ".log"), '.');
      if !ValidDate(parts[0]) then None
      else if |parts| == 1 then Some((parts[0], 0))
      else if |parts| == 2 then
        match Atoi(parts[1])
        case None => None
        case Some(n) => if n < 0 then None else Some((parts[0], n))
      else None
  }

  lemma DateHasNoDot(date: string)
    requires ValidDate(date)
    ensures '.' !in date
  {
    forall i | 0 <= i < |date| ensures date[i] != '.' {
      assert IsDigit(date[i]) || date[i] == '-';
    }
  }

  lemma StripDecoration(prefix: string, base: string)
    ensures var name := prefix + "-" + base + ".log";
            && HasPrefix(name, prefix + "-") && HasSuffix(name, ".log")
            && TrimSuffix(TrimPrefix(name, prefix + "-"), ".log") == base
  {
    var name := prefix + "-" + base + ".log";
    assert name[..|prefix| + 1] == prefix + "-";
    assert name[|name| - 4..] == ".log";
    var rest := name[|prefix| + 1..];
    assert rest == base + ".log";
    assert rest[|rest| - 4..] == ".log";
    assert rest[..|rest| - 4] == base;
  }

  /** What the parser makes of a dated name with one dotted part after the date. */
  lemma ParseOfNumbered(prefix: string, date: string, tail: string)
    requires ValidDate(date) && '.' !in tail
    ensures ParseFileName(prefix, prefix + "-" + date + "." + tail + ".log")
            == match Atoi(tail)
               case None => None
               case Some(n) => if n < 0 then None else Some((date, n))
  {
    DateHasNoDot(date);
    var base := date + "." + tail;
    assert prefix + "-" + date + "." + tail + ".log" == prefix + "-" + base + ".log";
    StripDecoration(prefix, base);
    SplitAtFirst(date, '.', tail);
    SplitWithoutSeparator(tail, '.');
  }

  /** Parsing undoes printing, for every valid date and every sequence number an `int` can hold. */
  lemma ParseOfFileName(prefix: string, date: string, number: nat)
    requires ValidDate(date) && number <= MAX_INT
    ensures ParseFileName(prefix, FileName(prefix, date, number)) == Some((date, number))
  {
    if number == 0 {
      DateHasNoDot(date);
      StripDecoration(prefix, date);
      SplitWithoutSeparator(date, '.');
    } else {
      assert '.' !in Itoa(number);
      ParseOfNumbered(prefix, date, Itoa(number));
      AtoiOfItoa(number);
    }
  }

  // ---- When printing undoes parsing ----

  predicate LeadingDigit(c: char) {
    '1' <= c <= '9'
  }

  lemma {:induction false} ItoaLeads(n: nat)
    requires n > 0
    ensures LeadingDigit(Itoa(n)[0])
  {
    if n >= 10 { ItoaLeads(n / 10); }
  }

  /** Printing undoes reading for digits without a leading zero. */
  lemma {:induction false} ItoaOfDigits(s: string)
    requires s != [] && AllDigits(s) && LeadingDigit(s[0])
    ensures DigitsValue(s) > 0 && Itoa(DigitsValue(s)) == s
  {
    var head, last := s[..|s| - 1], s[|s| - 1];
    assert s == head + [last];
    if head == [] {
      assert DigitsValue(s) == DigitValue(last);
    } else {
      ItoaOfDigits(head);
      var n, d := DigitsValue(head), DigitValue(last);
      assert DigitsValue(s) == 10 * n + d;
      assert (10 * n + d) / 10 == n && (10 * n + d) % 10 == d;
      assert Digit(d) == last;
    }
  }

  lemma {:induction false} SplitOne(s: string, sep: char)
    requires |Split(s, sep)| == 1
    ensures Split(s, sep) == [s]
  {
    if s != [] {
      SplitOne(s[1..], sep);
      assert s == [s[0]] + s[1..];
    }
  }

  lemma {:induction false} SplitTwo(s: string, sep: char)
    requires |Split(s, sep)| == 2
    ensures s == Split(s, sep)[0] + [sep] + Split(s, sep)[1]
  {
    if s[0] == sep {
      SplitOne(s[1..], sep);
    } else {
      SplitTwo(s[1..], sep);
    }
    assert s == [s[0]] + s[1..];
  }

  /** The part of a log file's name between the prefix and the suffix. */
  function Core(prefix: string, name: string): string {
    TrimSuffix(TrimPrefix(name, prefix + "-"), ".log")
  }

  /** A prefix whose last character is not in the suffix does not overlap it. */
  lemma EndsApart(name: string, p: string, t: string)
    requires HasPrefix(name, p) && HasSuffix(name, t) && p != [] && p[|p| - 1] !in t
    ensures |p| + |t| <= |name|
  {
    var at, from := |p| - 1, |name| - |t|;
    assert name[at] == name[..|p|][at];
    assert forall j :: from <= j < |name| ==> name[from..][j - from] == name[j];
  }

  /** The prefix ends in '-', which the suffix does not contain. */
  lemma CoreInside(prefix: string, name: string)
    requires HasPrefix(name, prefix + "-") && HasSuffix(name, ".log")
    ensures name == prefix + "-" + Core(prefix, name) + ".log"
  {
    var p := prefix + "-";
    EndsApart(name, p, ".log");
    var rest := name[|p|..];
    assert rest[|rest| - 4..] == name[|name| - 4..];
    assert rest == rest[..|rest| - 4] + ".log";
    assert name == p + rest;
  }

  /** A tail that reads as a number is what that number prints as exactly when it starts with 1 to 9. */
  lemma TailPrintedIff(prefix: string, date: string, tail: string, number: nat)
    requires Atoi(tail) == Some(number)
    ensures tail != ""
    ensures FileName(prefix, date, number) == prefix + "-" + date + "." + tail + ".log" <==> LeadingDigit(tail[0])
  {
    var name := prefix + "-" + date + "." + tail + ".log";
    if LeadingDigit(tail[0]) {
      ItoaOfDigits(tail);
    } else if number > 0 {
      ItoaLeads(number);
      var k := |prefix| + 1 + |date| + 1;
      assert name[k] == tail[0];
      assert FileName(prefix, date, number)[k] == Itoa(number)[0];
    } else {
      assert |FileName(prefix, date, number)| < |name|;
    }
  }

  /** Printing what was parsed gives the name back exactly when the name has no dotted tail or its tail starts
      with a digit from 1 to 9: `.0`, `.00`, `.01`, `.+1` and `.-0` are read and never printed. */
  lemma PrintOfParseIff(prefix: string, name: string)
    requires ParseFileName(prefix, name).Some?
    ensures var (date, number) := ParseFileName(prefix, name).value;
            var parts := Split(Core(prefix, name), '.');
            FileName(prefix, date, number) == name <==> |parts| == 1 || (parts[1] != "" && LeadingDigit(parts[1][0]))
  {
    hide ValidDate, Atoi, FileName, Split, TrimSuffix, TrimPrefix, HasPrefix, HasSuffix;
    CoreInside(prefix, name);
    var core := Core(prefix, name);
    var parts := Split(core, '.');
    var (date, number) := ParseFileName(prefix, name).value;
    if |parts| == 1 {
      SplitOne(core, '.');
      PlainPrinted(prefix, date);
    } else {
      SplitTwo(core, '.');
      assert name == prefix + "-" + date + "." + parts[1] + ".log";
      TailPrintedIff(prefix, date, parts[1], number);
    }
  }

  lemma PlainPrinted(prefix: string, date: string)
    ensures FileName(prefix, date, 0) == prefix + "-" + date + ".log"
  {
  }

  /** Two instances, for every date: a leading zero and a sign are read and not printed. */
  lemma ParseAcceptsUnprintable(prefix: string, date: string)
    requires ValidDate(date)
    ensures ParseFileName(prefix, prefix + "-" + date + ".01.log") == Some((date, 1))
    ensures ParseFileName(prefix, prefix + "-" + date + ".+1.log") == Some((date, 1))
    ensures FileName(prefix, date, 1) == prefix + "-" + date + ".1.log"
  {
    hide ParseFileName, ValidDate;
    ParseOfNumbered(prefix, date, "01");
    ParseOfNumbered(prefix, date, "+1");
    assert prefix + "-" + date + "." + "01" + ".log" == prefix + "-" + date + ".01.log";
    assert prefix + "-" + date + "." + "+1" + ".log" == prefix + "-" + date + ".+1.log";
    assert prefix + "-" + date + "." + "1" + ".log" == prefix + "-" + date + ".1.log";
    assert "01"[..1] == "0" && "0"[..0] == "" && "1"[..0] == "";
    assert "+1"[1..] == "1";
    assert DigitsValue("0") == 0 && DigitsValue("1") == 1 && DigitsValue("01") == 1;
  }

  // ---- What the parser accepts ----

  /** The name with a dotted tail that reads as the number. */
  predicate Numbered(prefix: string, name: string, date: string, number: int, tail: string) {
    '.' !in tail && Atoi(tail) == Some(number) && number >= 0
    && name == prefix + "-" + date + "." + tail + ".log"
  }

  /** Exactly what a name has to look like to stand for a date and a number. */
  lemma ParseIff(prefix: string, name: string, date: string, number: int)
    ensures ParseFileName(prefix, name) == Some((date, number)) <==>
              && ValidDate(date)
              && ((number == 0 && name == prefix + "-" + date + ".log")
                  || exists tail :: Numbered(prefix, name, date, number, tail))
  {
    if ParseFileName(prefix, name) == Some((date, number)) {
      ParsedShape(prefix, name, date, number);
    } else if ValidDate(date) {
      hide ParseFileName, ValidDate, Atoi;
      if number == 0 && name == prefix + "-" + date + ".log" {
        ParseOfFileName(prefix, date, 0);
        FileNameText(prefix, date, 0);
      } else if tail :| Numbered(prefix, name, date, number, tail) {
        ParseOfNumbered(prefix, date, tail);
      }
    }
  }

  lemma ParsedParts(prefix: string, name: string, date: string, number: int)
    requires ParseFileName(prefix, name) == Some((date, number))
    ensures HasPrefix(name, prefix + "-") && HasSuffix(name, ".log")
    ensures var parts := Split(Core(prefix, name), '.');
            && parts[0] == date && |parts| <= 2 && (|parts| == 1 ==> number == 0)
            && (|parts| == 2 ==> Atoi(parts[1]) == Some(number) && number >= 0)
  {
    hide HasPrefix, HasSuffix, Split, Atoi, ValidDate;
  }

  lemma NumberedText(prefix: string, date: string, tail: string)
    ensures prefix + "-" + (date + ['.'] + tail) + ".log" == prefix + "-" + date + "." + tail + ".log"
  {
  }

  lemma ParsedShape(prefix: string, name: string, date: string, number: int)
    requires ParseFileName(prefix, name) == Some((date, number))
    ensures (number == 0 && name == prefix + "-" + date + ".log")
            || exists tail :: Numbered(prefix, name, date, number, tail)
  {
    hide ParseFileName, ValidDate, Atoi, Split, Core, HasPrefix, HasSuffix;
    ParsedParts(prefix, name, date, number);
    var core := Core(prefix, name);
    var parts := Split(core, '.');
    CoreInside(prefix, name);
    if |parts| == 1 {
      SplitOne(core, '.');
    } else {
      SplitTwo(core, '.');
      SplitParts(core, '.');
      NumberedText(prefix, date, parts[1]);
      assert Numbered(prefix, name, date, number, parts[1]);
    }
  }

  lemma {:induction false} SplitParts(s: string, sep: char)
    ensures forall i :: 0 <= i < |Split(s, sep)| ==> sep !in Split(s, sep)[i]
  {
    if s != [] { SplitParts(s[1..], sep); }
  }

  /** The printed form, with examples. */
  lemma FileNameText(prefix: string, date: string, number: int)
    ensures number <= 0 ==> FileName(prefix, date, number) == prefix + "-" + date + ".log"
    ensures number > 0 ==> FileName(prefix, date, number) == prefix + "-" + date + "." + Itoa(number) + ".log"
    ensures FileName("app", "2024-05-01", 0) == "app-2024-05-01.log"
    ensures FileName("app", "2024-05-01", 12) == "app-2024-05-01.12.log"
  {
    assert Itoa(12) == "12" by { assert Itoa(1) == "1" && "1" + "2" == "12"; }
    assert "app" + "-" + "2024-05-01" + ".log" == "app-2024-05-01.log";
    assert "app" + "-" + "2024-05-01" + "." + "12" + ".log" == "app-2024-05-01.12.log";
  }
}
