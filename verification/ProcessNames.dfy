/** Process names in the form used for matching (internal/procname/procname.go), over ASCII text. */
module ProcessNames {
  import opened Text

  predicate IsSpace(c: char) {
    c == ' ' || c == '\t' || c == '\n' || c == '\r' || c == '\U{0B}' || c == '\U{0C}'
  }

  function LowerChar(c: char): char {
    if 'A' <= c <= 'Z' then (c as int + 32) as char else c
  }

  function ToLower(s: string): (r: string)
    ensures |r| == |s| && forall i :: 0 <= i < |s| ==> r[i] == LowerChar(s[i])
  {
    seq(|s|, i requires 0 <= i < |s| => LowerChar(s[i]))
  }

  function TrimLeft(s: string): string {
    if s != [] && IsSpace(s[0]) then TrimLeft(s[1..]) else s
  }

  function TrimRight(s: string): string {
    if s != [] && IsSpace(s[|s| - 1]) then TrimRight(s[..|s| - 1]) else s
  }

  function TrimSpace(s: string): string {
    TrimRight(TrimLeft(s))
  }

  function Normalize(name: string): string {
    TrimSuffix(ToLower(TrimSpace(name)), ".exe")
  }

  /** Lower-casing a second time changes nothing, and no text becomes or stops being empty. */
  lemma LowerIdempotent(s: string)
    ensures ToLower(ToLower(s)) == ToLower(s)
    ensures ToLower(s) == "" <==> s == ""
  {
  }

  predicate Trimmed(s: string) {
    s != [] ==> !IsSpace(s[0]) && !IsSpace(s[|s| - 1])
  }

  lemma {:induction false} TrimRightKeepsHead(s: string)
    ensures var r := TrimRight(s); r != [] ==> s != [] && r[0] == s[0] && !IsSpace(r[|r| - 1])
    ensures |TrimRight(s)| <= |s|
  {
    if s != [] && IsSpace(s[|s| - 1]) {
      TrimRightKeepsHead(s[..|s| - 1]);
    }
  }

  lemma {:induction false} TrimLeftHead(s: string)
    ensures var r := TrimLeft(s); |r| <= |s| && (r != [] ==> !IsSpace(r[0]))
  {
    if s != [] && IsSpace(s[0]) {
      TrimLeftHead(s[1..]);
    }
  }

  /** Trimming gives trimmed text, and leaves exactly the trimmed texts alone. */
  lemma TrimSpaceMeaning(s: string)
    ensures Trimmed(TrimSpace(s))
    ensures TrimSpace(s) == s <==> Trimmed(s)
  {
    TrimLeftHead(s);
    TrimRightKeepsHead(TrimLeft(s));
  }

  lemma LowerTrimmed(s: string)
    ensures Trimmed(ToLower(s)) <==> Trimmed(s)
  {
  }

  /** `Normalize` is not idempotent.  Exactly when a second application changes nothing: the trimmed and
      lower-cased name does not end in ".exe.exe", nor in a space followed by ".exe". */
  lemma NormalizeStableIff(name: string)
    ensures var l := ToLower(TrimSpace(name));
            Normalize(Normalize(name)) == Normalize(name) <==>
              !HasSuffix(l, ".exe.exe") && !(HasSuffix(l, ".exe") && |l| > 4 && IsSpace(l[|l| - 5]))
  {
    var t := TrimSpace(name);
    var l := ToLower(t);
    var n := Normalize(name);
    TrimSpaceMeaning(name);
    LowerTrimmed(t);
    assert n != "" ==> !IsSpace(n[0]);
    assert ToLower(n) == n;
    TrimSpaceMeaning(n);
    TrimSpaceLength(n);
    DoubleSuffix(l);
  }

  /** The text before a final ".exe" ends in ".exe" exactly when the whole ends in ".exe.exe". */
  lemma DoubleSuffix(l: string)
    ensures HasSuffix(l, ".exe.exe") <==> HasSuffix(l, ".exe") && HasSuffix(l[..|l| - 4], ".exe")
  {
    if |l| >= 8 {
      assert l[|l| - 8..] == l[..|l| - 4][|l| - 8..] + l[|l| - 4..];
      assert ".exe.exe" == ".exe" + ".exe";
      assert l[|l| - 8..][4..] == l[|l| - 4..] && l[|l| - 8..][..4] == l[..|l| - 4][|l| - 8..];
    }
  }

  lemma TrimSpaceLength(s: string)
    ensures |TrimSpace(s)| <= |s|
    ensures |TrimSpace(s)| == |s| ==> TrimSpace(s) == s
  {
    TrimLeftHead(s);
    TrimRightKeepsHead(TrimLeft(s));
    TrimLeftSame(s);
    TrimRightSame(TrimLeft(s));
  }

  lemma {:induction false} TrimLeftSame(s: string)
    ensures |TrimLeft(s)| == |s| ==> TrimLeft(s) == s
  {
    if s != [] { TrimLeftHead(s[1..]); }
  }

  lemma {:induction false} TrimRightSame(s: string)
    ensures |TrimRight(s)| == |s| ==> TrimRight(s) == s
  {
    if s != [] { TrimRightKeepsHead(s[..|s| - 1]); }
  }

  // ---- What the normal form is ----

  /** The six blanks of ASCII: space, tab, line feed, carriage return, vertical tab and form feed. */
  predicate IsBlank(c: char) {
    c in [' ', '\t', '\n', '\r', '\U{0B}', '\U{0C}']
  }

  predicate Blanks(s: string) {
    forall i :: 0 <= i < |s| ==> IsBlank(s[i])
  }

  /** Neither the first nor the last character is blank. */
  predicate Bare(s: string) {
    s != [] ==> !IsBlank(s[0]) && !IsBlank(s[|s| - 1])
  }

  /** The letters pair by pair. */
  function SmallLetter(c: char): char {
    match c
    case 'A' => 'a' case 'B' => 'b' case 'C' => 'c' case 'D' => 'd' case 'E' => 'e' case 'F' => 'f'
    case 'G' => 'g' case 'H' => 'h' case 'I' => 'i' case 'J' => 'j' case 'K' => 'k' case 'L' => 'l'
    case 'M' => 'm' case 'N' => 'n' case 'O' => 'o' case 'P' => 'p' case 'Q' => 'q' case 'R' => 'r'
    case 'S' => 's' case 'T' => 't' case 'U' => 'u' case 'V' => 'v' case 'W' => 'w' case 'X' => 'x'
    case 'Y' => 'y' case 'Z' => 'z'
    case _ => c
  }

  function SmallLetters(s: string): (r: string)
    ensures |r| == |s| && forall i :: 0 <= i < |s| ==> r[i] == SmallLetter(s[i])
  {
    seq(|s|, i requires 0 <= i < |s| => SmallLetter(s[i]))
  }

  lemma LowerIsSmall(s: string)
    ensures ToLower(s) == SmallLetters(s)
  {
  }

  lemma BlankIsSpace()
    ensures forall c :: IsBlank(c) <==> IsSpace(c)
  {
  }

  lemma {:induction false} TrimLeftBlanks(a: string, s: string)
    requires Blanks(a)
    ensures TrimLeft(a + s) == TrimLeft(s)
  {
    BlankIsSpace();
    if a == [] {
      assert a + s == s;
    } else {
      assert (a + s)[1..] == a[1..] + s;
      TrimLeftBlanks(a[1..], s);
    }
  }

  lemma {:induction false} TrimRightBlanks(s: string, b: string)
    requires Blanks(b)
    ensures TrimRight(s + b) == TrimRight(s)
  {
    BlankIsSpace();
    if b == [] {
      assert s + b == s;
    } else {
      assert (s + b)[..|s + b| - 1] == s + b[..|b| - 1];
      TrimRightBlanks(s, b[..|b| - 1]);
    }
  }

  /** Trimming takes away the blanks around a text and nothing else. */
  lemma TrimSpaceText(a: string, s: string, b: string)
    requires Blanks(a) && Blanks(b) && Bare(s)
    ensures TrimSpace(a + s + b) == s
  {
    BlankIsSpace();
    assert a + s + b == a + (s + b);
    TrimLeftBlanks(a, s + b);
    if s == [] {
      assert s + b == b + [];
      TrimLeftBlanks(b, []);
    } else {
      TrimRightBlanks(s, b);
    }
  }

  /** Every text is such a text between blanks. */
  lemma {:induction false} Between(name: string) returns (a: string, s: string, b: string)
    ensures name == a + s + b && Blanks(a) && Blanks(b) && Bare(s)
  {
    if name == [] {
      return [], [], [];
    }
    if IsBlank(name[0]) {
      a, s, b := Between(name[1..]);
      a := [name[0]] + a;
      assert name == [name[0]] + name[1..];
    } else if IsBlank(name[|name| - 1]) {
      a, s, b := Between(name[..|name| - 1]);
      b := b + [name[|name| - 1]];
      assert name == name[..|name| - 1] + [name[|name| - 1]];
    } else {
      a, s, b := [], name, [];
      assert [] + name + [] == name;
    }
  }

  /** What `Normalize` computes: the text between the blanks, in small letters, without one final ".exe". */
  lemma NormalizeText(a: string, s: string, b: string)
    requires Blanks(a) && Blanks(b) && Bare(s)
    ensures var l := SmallLetters(s);
            Normalize(a + s + b) == if |l| >= 4 && l[|l| - 4..] == ".exe" then l[..|l| - 4] else l
  {
    TrimSpaceText(a, s, b);
    LowerIsSmall(s);
  }

  /** Two texts without blanks around them have the same normal form if they differ in the size of ASCII letters
      only, and, when neither ends in ".exe", only then. */
  lemma SameNormalForm(s: string, t: string)
    requires Bare(s) && Bare(t)
    ensures SmallLetters(s) == SmallLetters(t) ==> Normalize(s) == Normalize(t)
    ensures Normalize(s) == Normalize(t) && !HasSuffix(SmallLetters(s), ".exe") && !HasSuffix(SmallLetters(t), ".exe")
            ==> SmallLetters(s) == SmallLetters(t)
  {
    hide Normalize, SmallLetters, Bare;
    NormalizeBare(s);
    NormalizeBare(t);
  }

  lemma NormalizeBare(s: string)
    requires Bare(s)
    ensures var l := SmallLetters(s); Normalize(s) == if HasSuffix(l, ".exe") then l[..|l| - 4] else l
  {
    hide Normalize, SmallLetters;
    NormalizeText([], s, []);
    assert [] + s + [] == s;
  }
}
