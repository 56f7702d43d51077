/** Quoting of values in generated PowerShell (internal/autoroute/powershell.go): verbatim string literals
    of section 2.3.5.2 of the Windows PowerShell Language Specification 3.0, with ASCII quotes. */
module PowerShell {
  import opened Text
  import opened ProcessNames

  const QUOTE: char := '\''

  /** `strings.ReplaceAll(s, "'", "''")`. */
  function Doubled(s: string): string {
    if s == [] then [] else (if s[0] == QUOTE then [QUOTE, QUOTE] else [s[0]]) + Doubled(s[1..])
  }

  function PsQuote(s: string): string {
    [QUOTE] + Doubled(s) + [QUOTE]
  }

  /** The rest of a verbatim literal, after its opening quote: two quotes stand for one, a single quote ends
      it.  The result is its value and the text behind it. */
  function Body(t: string): (r: Option<(string, string)>)
    ensures r.Some? ==> |r.value.1| < |t|
  {
    if t == [] then None
    else if t[0] != QUOTE then
      match Body(t[1..])
      case None => None
      case Some((v, rest)) => Some(([t[0]] + v, rest))
    else if |t| >= 2 && t[1] == QUOTE then
      match Body(t[2..])
      case None => None
      case Some((v, rest)) => Some(([QUOTE] + v, rest))
    else Some(([], t[1..]))
  }

  /** The values of all string literals of a script, in order; none for an unfinished literal. */
  function Literals(script: string): Option<seq<string>>
    decreases |script|
  {
    if script == [] then Some([])
    else if script[0] != QUOTE then Literals(script[1..])
    else
      match Body(script[1..])
      case None => None
      case Some((v, rest)) =>
        match Literals(rest)
        case None => None
        case Some(vs) => Some([v] + vs)
  }

  predicate NoQuoteAhead(t: string) {
    t == [] || t[0] != QUOTE
  }

  lemma {:induction false} BodyOfDoubled(s: string, rest: string)
    requires NoQuoteAhead(rest)
    ensures Body(Doubled(s) + [QUOTE] + rest) == Some((s, rest))
  {
    var t := Doubled(s) + [QUOTE] + rest;
    if s == [] {
      assert t[1..] == rest;
    } else {
      BodyOfDoubled(s[1..], rest);
      var next := Doubled(s[1..]) + [QUOTE] + rest;
      assert s == [s[0]] + s[1..];
      if s[0] == QUOTE { assert t[2..] == next; } else { assert t[1..] == next; }
    }
  }

  /** The quoted form of any text reads back as that text, wherever in a script it stands. */
  lemma LiteralsOfQuoted(s: string, rest: string)
    requires NoQuoteAhead(rest)
    ensures Literals(PsQuote(s) + rest) ==
            match Literals(rest) case None => None case Some(vs) => Some([s] + vs)
  {
    var t := PsQuote(s) + rest;
    assert t[1..] == Doubled(s) + [QUOTE] + rest;
    BodyOfDoubled(s, rest);
  }

  lemma {:induction false} LiteralsOfPlain(text: string, rest: string)
    requires QUOTE !in text
    ensures Literals(text + rest) == Literals(rest)
  {
    if text == [] {
      assert text + rest == rest;
    } else {
      assert (text + rest)[1..] == text[1..] + rest;
      LiteralsOfPlain(text[1..], rest);
    }
  }

  /** A script is plain text with quoted values in between. */
  datatype Piece = Plain(text: string) | Quoted(value: string)

  function Render(pieces: seq<Piece>): string {
    if pieces == [] then []
    else (match pieces[0] case Plain(t) => t case Quoted(v) => PsQuote(v)) + Render(pieces[1..])
  }

  function Values(pieces: seq<Piece>): seq<string> {
    if pieces == [] then []
    else (match pieces[0] case Plain(_) => [] case Quoted(v) => [v]) + Values(pieces[1..])
  }

  /** Plain text without quotes, and between any two values some plain text. */
  predicate Separated(pieces: seq<Piece>) {
    && (forall i :: 0 <= i < |pieces| && pieces[i].Plain? ==> pieces[i].text != [] && QUOTE !in pieces[i].text)
    && (forall i :: 0 <= i < |pieces| - 1 && pieces[i].Quoted? ==> pieces[i + 1].Plain?)
  }

  /** The literals of a script are exactly the values put into it, whatever characters they hold. */
  lemma {:induction false} ScriptMeansItsValues(pieces: seq<Piece>)
    requires Separated(pieces)
    ensures Literals(Render(pieces)) == Some(Values(pieces))
  {
    if pieces != [] {
      var rest := pieces[1..];
      ScriptMeansItsValues(rest);
      match pieces[0] {
        case Plain(t) =>
          LiteralsOfPlain(t, Render(rest));
          assert [] + Values(rest) == Values(rest);
        case Quoted(v) =>
          if rest != [] {
            assert rest[0] == pieces[1] && rest[0].Plain?;
            assert Render(rest)[0] == rest[0].text[0] != QUOTE;
          }
          LiteralsOfQuoted(v, Render(rest));
      }
    }
  }

  /** Texts and values in turn, starting and ending with a text. */
  function Template(texts: seq<string>, values: seq<string>): seq<Piece>
    requires |texts| == |values| + 1
  {
    if values == [] then [Plain(texts[0])]
    else [Plain(texts[0]), Quoted(values[0])] + Template(texts[1..], values[1..])
  }

  lemma {:induction false} TemplateOk(texts: seq<string>, values: seq<string>)
    requires |texts| == |values| + 1 && forall i :: 0 <= i < |texts| ==> texts[i] != [] && QUOTE !in texts[i]
    ensures var p := Template(texts, values);
            Separated(p) && Values(p) == values && p != [] && p[0].Plain?
  {
    var p := Template(texts, values);
    if values == [] {
      assert p[1..] == [];
    } else {
      TemplateOk(texts[1..], values[1..]);
      var rest := Template(texts[1..], values[1..]);
      assert p[2..] == rest && p[1..] == [Quoted(values[0])] + rest;
      assert p[1..][1..] == rest;
      assert Values(p) == [] + Values(p[1..]);
      assert Values(p[1..]) == [values[0]] + Values(rest);
      assert values == [values[0]] + values[1..];
      forall i | 0 <= i < |p| - 1 && p[i].Quoted? ensures p[i + 1].Plain? {
        if i >= 2 { assert p[i] == rest[i - 2] && p[i + 1] == rest[i - 1]; }
      }
      forall i | 0 <= i < |p| && p[i].Plain? ensures p[i].text != [] && QUOTE !in p[i].text {
        if i >= 2 { assert p[i] == rest[i - 2]; }
      }
    }
  }

  /** A script built from fixed texts without quotes and quoted values names exactly those values, whatever
      characters they hold: no value can change the shape of the script. */
  lemma ScriptNamesItsValues(texts: seq<string>, values: seq<string>)
    requires |texts| == |values| + 1 && forall i :: 0 <= i < |texts| ==> texts[i] != [] && QUOTE !in texts[i]
    ensures Literals(Render(Template(texts, values))) == Some(values)
  {
    TemplateOk(texts, values);
    ScriptMeansItsValues(Template(texts, values));
  }

  // ---- The two scripts ----

  // Their fixed words, each short enough to be seen to hold no quote.
  const INDEX_IS := "$ifIndex = ("
  const EXISTING_IS := "$existing = "
  const GET_ROUTE := "Get-NetRoute"
  const NEW_ROUTE := "New-NetRoute"
  const GET_ADDRESS := "Get-NetIPAddress"
  const FAMILY := " -AddressFamily IPv4"
  const ADDRESS := " -IPAddress "
  const PREFIX := " -DestinationPrefix "
  const NEXT_HOP := " -NextHop "
  const ON_INDEX := " -InterfaceIndex $ifIndex"
  const QUIETLY := " -ErrorAction SilentlyContinue"
  const OR_STOP := " -ErrorAction Stop"
  const SORTED := " | Sort-Object RouteMetric"
  const FIRST := " | Select-Object -First 1"
  const TAKE_INDEX := ").InterfaceIndex; "
  const UNLESS_INDEX := "if (-not $ifIndex) { throw "
  const UNLESS_EXISTING := "; if (-not $existing) { "
  const METRIC := " -RouteMetric 1"
  const STORE := " -PolicyStore ActiveStore"
  const REMOVE_ROUTE := "Remove-NetRoute"
  const CONFIRMED := " -Confirm:$false"
  const FAILED := "failed to resolve interface"
  const NO_INDEX := FAILED + " index for default route"

  lemma PlainNouns()
    ensures QUOTE !in INDEX_IS && QUOTE !in EXISTING_IS && QUOTE !in GET_ROUTE && QUOTE !in NEW_ROUTE
    ensures QUOTE !in GET_ADDRESS && QUOTE !in FAMILY && QUOTE !in ADDRESS && QUOTE !in PREFIX
  {
  }

  lemma PlainOptions()
    ensures QUOTE !in NEXT_HOP && QUOTE !in ON_INDEX && QUOTE !in METRIC && QUOTE !in STORE && QUOTE !in OR_STOP
  {
  }

  lemma PlainFilters()
    ensures QUOTE !in QUIETLY && QUOTE !in SORTED && QUOTE !in FIRST
  {
  }

  lemma PlainConditions()
    ensures QUOTE !in TAKE_INDEX && QUOTE !in UNLESS_INDEX && QUOTE !in UNLESS_EXISTING
  {
  }

  const UNICODE := "$OutputEncoding = " + "[Console]::OutputEncoding = " + "[System.Text.Encoding]" + "::Unicode; "

  /** `withPowerShellUnicode`, which every script goes through. */
  function WithUnicode(script: string): string {
    UNICODE + TrimSpace(script)
  }

  lemma UnicodeKeepsLiterals(script: string)
    requires Trimmed(script)
    ensures Literals(WithUnicode(script)) == Literals(script)
  {
    PlainUnicode();
    TrimSpaceMeaning(script);
    LiteralsOfPlain(UNICODE, script);
  }

  lemma PlainUnicode()
    ensures QUOTE !in UNICODE
  {
    assert QUOTE !in "$OutputEncoding = ";
    assert QUOTE !in "[Console]::OutputEncoding = ";
    assert QUOTE !in "[System.Text.Encoding]";
    assert QUOTE !in "::Unicode; ";
  }

  lemma PlainRemoval()
    ensures QUOTE !in REMOVE_ROUTE && QUOTE !in CONFIRMED
  {
  }

  lemma PlainMessage()
    ensures QUOTE !in NO_INDEX
  {
    assert QUOTE !in FAILED;
  }

  /** Six texts with five values between them. */
  function Joined(t: seq<string>, v: seq<string>): string
    requires |t| == 6 && |v| == 5
  {
    t[0] + (v[0] + (t[1] + (v[1] + (t[2] + (v[2] + (t[3] + (v[3] + (t[4] + (v[4] + t[5])))))))))
  }

  /** What stands around the quoted values of `buildAddIPv4HostRouteScript`. */
  function HostTexts(): (texts: seq<string>)
    ensures |texts| == 6
  {
    [INDEX_IS + GET_ROUTE + FAMILY + PREFIX, NEXT_HOP, QUIETLY + SORTED + FIRST + TAKE_INDEX + UNLESS_INDEX,
     " }; " + NEW_ROUTE + FAMILY + PREFIX, ON_INDEX + NEXT_HOP, METRIC + STORE + OR_STOP]
  }

  function AddHostRouteScript(ip: string, nextHop: string): string {
    Joined(HostTexts(), ["'0.0.0.0/0'", PsQuote(nextHop), "'" + NO_INDEX + "'", PsQuote(ip + "/32"), PsQuote(nextHop)])
  }

  /** The same for `buildAddLocalhostRouteScript`. */
  function LocalhostTexts(): (texts: seq<string>)
    ensures |texts| == 6
  {
    [INDEX_IS + GET_ADDRESS + FAMILY + ADDRESS,
     OR_STOP + FIRST + TAKE_INDEX + EXISTING_IS + GET_ROUTE + FAMILY + PREFIX, ON_INDEX + NEXT_HOP,
     QUIETLY + FIRST + UNLESS_EXISTING + NEW_ROUTE + FAMILY + PREFIX, ON_INDEX + NEXT_HOP,
     METRIC + STORE + OR_STOP + " }"]
  }

  function AddLocalhostRouteScript(addr: string, prefix: string, onLink: string): string {
    Joined(LocalhostTexts(), [PsQuote(addr), PsQuote(prefix), PsQuote(onLink), PsQuote(prefix), PsQuote(onLink)])
  }

  /** Texts without quotes that neither begin nor end the script with a space. */
  predicate PlainTexts(t: seq<string>) {
    && t != [] && (forall i :: 0 <= i < |t| ==> t[i] != [] && QUOTE !in t[i])
    && !IsSpace(t[0][0]) && var last := t[|t| - 1]; !IsSpace(last[|last| - 1])
  }

  lemma HostTextsPlain()
    ensures PlainTexts(HostTexts())
  {
    PlainNouns();
    PlainOptions();
    PlainFilters();
    PlainConditions();
    var t := HostTexts();
    assert t[0][0] == '$' && t[5][|t[5]| - 1] == 'p';
  }

  lemma LocalhostTextsPlain()
    ensures PlainTexts(LocalhostTexts())
  {
    PlainNouns();
    PlainOptions();
    PlainFilters();
    PlainConditions();
    var t := LocalhostTexts();
    assert t[0][0] == '$' && t[5][|t[5]| - 1] == '}';
  }

  lemma {:induction false} DoubledPlain(s: string)
    requires QUOTE !in s
    ensures Doubled(s) == s
  {
    if s != [] {
      DoubledPlain(s[1..]);
      assert s == [s[0]] + s[1..];
    }
  }

  /** With values quoted, the joined script names them. */
  lemma JoinedNamesItsValues(t: seq<string>, q: seq<string>, v: seq<string>)
    requires PlainTexts(t) && |t| == 6 && |q| == |v| == 5 && forall i :: 0 <= i < 5 ==> q[i] == PsQuote(v[i])
    ensures Literals(WithUnicode(Joined(t, q))) == Some(v)
  {
    hide Literals, PsQuote, Render, Template, WithUnicode;
    ScriptNamesItsValues(t, v);
    RenderStep(t, v, 0);
    RenderStep(t, v, 1);
    RenderStep(t, v, 2);
    RenderStep(t, v, 3);
    RenderStep(t, v, 4);
    RenderStep(t, v, 5);
    assert t[0..] == t && v[0..] == v;
    assert Joined(t, q) == Render(Template(t, v));
    JoinedTrimmed(t, q);
    UnicodeKeepsLiterals(Joined(t, q));
  }

  lemma JoinedTrimmed(t: seq<string>, q: seq<string>)
    requires PlainTexts(t) && |t| == 6 && |q| == 5
    ensures Trimmed(Joined(t, q))
  {
    var script := Joined(t, q);
    assert script[0] == t[0][0];
    assert script[|script| - 1] == t[5][|t[5]| - 1];
  }

  lemma RenderStep(texts: seq<string>, values: seq<string>, i: nat)
    requires i < |texts| == |values| + 1
    ensures Render(Template(texts[i..], values[i..])) ==
            if i == |values| then texts[i]
            else texts[i] + (PsQuote(values[i]) + Render(Template(texts[i + 1..], values[i + 1..])))
  {
    var t, v := texts[i..], values[i..];
    var p := Template(t, v);
    if v == [] {
      assert p[1..] == [];
    } else {
      assert t[1..] == texts[i + 1..] && v[1..] == values[i + 1..];
      assert p[1..][1..] == Template(t[1..], v[1..]);
    }
  }

  /** A text without quotes is quoted by putting quotes around it. */
  lemma QuotedPlain(s: string)
    requires QUOTE !in s
    ensures PsQuote(s) == "'" + s + "'"
  {
    DoubledPlain(s);
  }

  /** The script that adds a host route, as it is run, names the five values it should and no others, for every
      address and next hop. */
  lemma HostScriptNamesItsValues(ip: string, nextHop: string)
    ensures Literals(WithUnicode(AddHostRouteScript(ip, nextHop)))
            == Some(["0.0.0.0/0", nextHop, NO_INDEX, ip + "/32", nextHop])
  {
    hide Literals, HostTexts, NO_INDEX, PsQuote, Joined, WithUnicode, PlainTexts;
    HostTextsPlain();
    PlainMessage();
    QuotedPlain(NO_INDEX);
    QuotedPlain("0.0.0.0/0");
    assert "'0.0.0.0/0'" == "'" + "0.0.0.0/0" + "'";
    var q := ["'0.0.0.0/0'", PsQuote(nextHop), "'" + NO_INDEX + "'", PsQuote(ip + "/32"), PsQuote(nextHop)];
    JoinedNamesItsValues(HostTexts(), q, ["0.0.0.0/0", nextHop, NO_INDEX, ip + "/32", nextHop]);
  }

  /** So does the script that ensures the loopback route. */
  lemma LocalhostScriptNamesItsValues(addr: string, prefix: string, onLink: string)
    ensures Literals(WithUnicode(AddLocalhostRouteScript(addr, prefix, onLink)))
            == Some([addr, prefix, onLink, prefix, onLink])
  {
    hide Literals, LocalhostTexts, PsQuote, Joined, WithUnicode, PlainTexts;
    LocalhostTextsPlain();
    var q := [PsQuote(addr), PsQuote(prefix), PsQuote(onLink), PsQuote(prefix), PsQuote(onLink)];
    JoinedNamesItsValues(LocalhostTexts(), q, [addr, prefix, onLink, prefix, onLink]);
  }

  // ---- Removal ----

  function RemovalTexts(): (texts: seq<string>)
    ensures |texts| == 3
  {
    [REMOVE_ROUTE + FAMILY + PREFIX, NEXT_HOP, STORE + CONFIRMED + OR_STOP]
  }

  /** The script of `removeIPv4HostRoutePS` and of `removeLocalhostRoutePS`. */
  function RemoveRouteScript(prefix: string, nextHop: string): string {
    var t := RemovalTexts();
    t[0] + (PsQuote(prefix) + (t[1] + (PsQuote(nextHop) + t[2])))
  }

  lemma RemovalTextsPlain()
    ensures PlainTexts(RemovalTexts())
  {
    PlainNouns();
    PlainOptions();
    PlainRemoval();
    var t := RemovalTexts();
    assert t[0][0] == 'R' && t[2][|t[2]| - 1] == 'p';
  }

  lemma PairTrimmed(t: seq<string>, q: seq<string>)
    requires PlainTexts(t) && |t| == 3 && |q| == 2
    ensures Trimmed(t[0] + (q[0] + (t[1] + (q[1] + t[2]))))
  {
    var script := t[0] + (q[0] + (t[1] + (q[1] + t[2])));
    assert script[0] == t[0][0];
    assert script[|script| - 1] == t[2][|t[2]| - 1];
  }

  /** The removal script, as it is run, names the prefix and the next hop, whatever they are: for the host route of any
      address, and for the loopback route. */
  lemma RemovalScriptNamesItsValues(prefix: string, nextHop: string)
    ensures Literals(WithUnicode(RemoveRouteScript(prefix, nextHop))) == Some([prefix, nextHop])
  {
    var t, v := RemovalTexts(), [prefix, nextHop];
    hide Literals, PsQuote, Render, Template, WithUnicode, RemovalTexts;
    RemovalTextsPlain();
    ScriptNamesItsValues(t, v);
    RenderStep(t, v, 0);
    RenderStep(t, v, 1);
    RenderStep(t, v, 2);
    assert t[0..] == t && v[0..] == v;
    PairTrimmed(t, [PsQuote(prefix), PsQuote(nextHop)]);
    UnicodeKeepsLiterals(RemoveRouteScript(prefix, nextHop));
  }

  // ---- The words of the scripts ----

  /** The fixed texts, word by word: what each script asks for, in which order, and what it does with it. */
  lemma HostWords()
    ensures HostTexts() == [
              "$ifIndex = (" + "Get-NetRoute" + " -AddressFamily IPv4" + " -DestinationPrefix ",
              " -NextHop ",
              " -ErrorAction SilentlyContinue" + " | Sort-Object RouteMetric" + " | Select-Object -First 1"
              + ").InterfaceIndex; " + "if (-not $ifIndex) { throw ",
              " }; " + "New-NetRoute" + " -AddressFamily IPv4" + " -DestinationPrefix ",
              " -InterfaceIndex $ifIndex" + " -NextHop ",
              " -RouteMetric 1" + " -PolicyStore ActiveStore" + " -ErrorAction Stop"]
  {
  }

  lemma LocalhostWords()
    ensures LocalhostTexts() == [
              "$ifIndex = (" + "Get-NetIPAddress" + " -AddressFamily IPv4" + " -IPAddress ",
              " -ErrorAction Stop" + " | Select-Object -First 1" + ").InterfaceIndex; "
              + "$existing = " + "Get-NetRoute" + " -AddressFamily IPv4" + " -DestinationPrefix ",
              " -InterfaceIndex $ifIndex" + " -NextHop ",
              " -ErrorAction SilentlyContinue" + " | Select-Object -First 1" + "; if (-not $existing) { "
              + "New-NetRoute" + " -AddressFamily IPv4" + " -DestinationPrefix ",
              " -InterfaceIndex $ifIndex" + " -NextHop ",
              " -RouteMetric 1" + " -PolicyStore ActiveStore" + " -ErrorAction Stop" + " }"]
  {
  }

  lemma RemovalWords()
    ensures RemovalTexts() == [
              "Remove-NetRoute" + " -AddressFamily IPv4" + " -DestinationPrefix ",
              " -NextHop ",
              " -PolicyStore ActiveStore" + " -Confirm:$false" + " -ErrorAction Stop"]
  {
  }

  /** Every script is run with both encodings set to Unicode. */
  lemma UnicodeWords(script: string)
    ensures WithUnicode(script) ==
            "$OutputEncoding = " + "[Console]::OutputEncoding = " + "[System.Text.Encoding]" + "::Unicode; "
            + TrimSpace(script)
  {
  }
}
