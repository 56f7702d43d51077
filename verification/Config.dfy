/** Layered configuration and the way excluded process names travel from it to the matcher
    (internal/config/config.go, cmd/nanotun/main.go). */
module Config {
  import opened Text
  import opened ProcessNames
  import opened MatcherProtocol
  import M = Matcher

  const MINUTE: int := 60 * SECOND

  datatype Config = Config(
    tunName: string, mtu: int, stackMode: string, proxy: string, dns: string, udpTimeout: int,
    excludedProcesses: seq<string>, excludeRefresh: int, excludedIPs: seq<string>,
    logLevel: string, logDir: string, autoDefaultRoute: bool)

  const DEFAULT: Config := Config("nano0", 1500, "gvisor", "", "", MINUTE, [], 15 * SECOND, [], "info", "logs", false)

  // ---- Merge ----

  function Text1(below: string, above: string): string { if above != "" then above else below }
  function Number1(below: int, above: int): int { if above != 0 then above else below }
  function List1(below: seq<string>, above: seq<string>): seq<string> { if |above| > 0 then above else below }

  /** `below` overridden by the non-zero fields of `above`. */
  function Merged(below: Config, above: Config): Config {
    Config(
      Text1(below.tunName, above.tunName),
      Number1(below.mtu, above.mtu),
      if above.stackMode != "" then ToLower(above.stackMode) else below.stackMode,
      Text1(below.proxy, above.proxy),
      Text1(below.dns, above.dns),
      Number1(below.udpTimeout, above.udpTimeout),
      List1(below.excludedProcesses, above.excludedProcesses),
      Number1(below.excludeRefresh, above.excludeRefresh),
      List1(below.excludedIPs, above.excludedIPs),
      Text1(below.logLevel, above.logLevel),
      Text1(below.logDir, above.logDir),
      below.autoDefaultRoute || above.autoDefaultRoute)
  }

  /** `Merge` changes its receiver field by field. */
  class MutableConfig {
    var tunName: string
    var mtu: int
    var stackMode: string
    var proxy: string
    var dns: string
    var udpTimeout: int
    var excludedProcesses: seq<string>
    var excludeRefresh: int
    var excludedIPs: seq<string>
    var logLevel: string
    var logDir: string
    var autoDefaultRoute: bool

    function Value(): Config
      reads this
    {
      Config(tunName, mtu, stackMode, proxy, dns, udpTimeout, excludedProcesses, excludeRefresh, excludedIPs,
             logLevel, logDir, autoDefaultRoute)
    }

    constructor (c: Config)
      ensures Value() == c
    {
      tunName, mtu, stackMode, proxy, dns, udpTimeout := c.tunName, c.mtu, c.stackMode, c.proxy, c.dns, c.udpTimeout;
      excludedProcesses, excludeRefresh, excludedIPs := c.excludedProcesses, c.excludeRefresh, c.excludedIPs;
      logLevel, logDir, autoDefaultRoute := c.logLevel, c.logDir, c.autoDefaultRoute;
    }

    method Merge(override: Config)
      modifies this
      ensures Value() == Merged(old(Value()), override)
    {
      MergeTunnel(override);
      MergePolicy(override);
    }

    method MergeTunnel(override: Config)
      modifies this`tunName, this`mtu, this`stackMode, this`proxy, this`dns, this`udpTimeout
      ensures tunName == Text1(old(tunName), override.tunName)
      ensures mtu == Number1(old(mtu), override.mtu)
      ensures stackMode == if override.stackMode != "" then ToLower(override.stackMode) else old(stackMode)
      ensures proxy == Text1(old(proxy), override.proxy)
      ensures dns == Text1(old(dns), override.dns)
      ensures udpTimeout == Number1(old(udpTimeout), override.udpTimeout)
    {
      hide ToLower;
      if override.tunName != "" { tunName := override.tunName; }
      if override.mtu != 0 { mtu := override.mtu; }
      if override.stackMode != "" { stackMode := ToLower(override.stackMode); }
      if override.proxy != "" { proxy := override.proxy; }
      if override.dns != "" { dns := override.dns; }
      if override.udpTimeout != 0 { udpTimeout := override.udpTimeout; }
    }

    method MergePolicy(override: Config)
      modifies this`excludedProcesses, this`excludeRefresh, this`excludedIPs, this`logLevel,
               this`logDir, this`autoDefaultRoute
      ensures excludedProcesses == List1(old(excludedProcesses), override.excludedProcesses)
      ensures excludeRefresh == Number1(old(excludeRefresh), override.excludeRefresh)
      ensures excludedIPs == List1(old(excludedIPs), override.excludedIPs)
      ensures logLevel == Text1(old(logLevel), override.logLevel)
      ensures logDir == Text1(old(logDir), override.logDir)
      ensures autoDefaultRoute == (old(autoDefaultRoute) || override.autoDefaultRoute)
    {
      hide ToLower;
      if |override.excludedProcesses| > 0 { excludedProcesses := override.excludedProcesses; }
      if override.excludeRefresh != 0 { excludeRefresh := override.excludeRefresh; }
      if |override.excludedIPs| > 0 { excludedIPs := override.excludedIPs; }
      if override.logLevel != "" { logLevel := override.logLevel; }
      if override.logDir != "" { logDir := override.logDir; }
      if override.autoDefaultRoute { autoDefaultRoute := true; }
    }
  }

  /** Layers can be merged in any grouping.  Lower-casing the stack mode on the way does not break this,
      because it is idempotent and keeps non-empty text non-empty. */
  lemma MergeAssociative(a: Config, b: Config, c: Config)
    ensures Merged(Merged(a, b), c) == Merged(a, Merged(b, c))
  {
    hide ToLower;
    LowerIdempotent(b.stackMode);
    LowerIdempotent(c.stackMode);
  }

  lemma DefaultIdempotent()
    ensures Merged(DEFAULT, DEFAULT) == DEFAULT
  {
    var s := "gvisor";
    assert ToLower(s) == s;
  }

  /** The configuration that the program assembles: defaults, then the file, then the command line. */
  function Pipeline(file: Config, cli: Config): Config {
    Merged(Merged(DEFAULT, file), cli)
  }

  /** `Finalize` merges over the defaults once more; in the pipeline that changes nothing. */
  lemma SecondMergeIsIdle(file: Config, cli: Config)
    ensures Merged(DEFAULT, Pipeline(file, cli)) == Pipeline(file, cli)
  {
    hide ToLower;
    MergeAssociative(DEFAULT, Merged(DEFAULT, file), cli);
    MergeAssociative(DEFAULT, DEFAULT, file);
    DefaultIdempotent();
  }

  // ---- Finalize ----

  datatype StackMode = GVisor | Simple
  datatype Error = NoProxy | BadStackMode | BadPrefix | BadMtu | BadDns
  datatype Result<T> = Ok(value: T) | Err(error: Error)

  datatype Runtime = Runtime(
    tunName: string, mtu: int, stackMode: StackMode, proxy: string, dns: string, udpTimeout: int,
    excludedProcesses: seq<string>, excludeRefresh: int, logLevel: string, logDir: string, autoDefaultRoute: bool)

  function ParseStackMode(v: string): Option<StackMode> {
    var m := ToLower(TrimSpace(v));
    if m == "" || m == "gvisor" then Some(GVisor) else if m == "simple" then Some(Simple) else None
  }

  const DEFAULT_DNS: string := "8.8.8.8:53"

  /** `parseAddrPort` before the parse: port 53 unless the text has a colon. */
  function WithPort(raw: string): string {
    if ':' in raw then raw else raw + ":53"
  }

  /** The validation and the view, on the merged configuration.  `prefixesOk` and `dnsOk` say whether the
      address texts parse; `names` is the cleaned process list.  The resolver is given as the text that is parsed. */
  function View(base: Config, prefixesOk: bool, dnsOk: bool, names: seq<string>, fallbacks: bool): Result<Runtime> {
    if base.proxy == "" then Err(NoProxy)
    else
      match ParseStackMode(base.stackMode)
      case None => Err(BadStackMode)
      case Some(mode) =>
        if !prefixesOk then Err(BadPrefix)
        else if base.mtu < 0 then Err(BadMtu)
        else if TrimSpace(base.dns) != "" && !dnsOk then Err(BadDns)
        else Ok(Runtime(base.tunName, base.mtu, mode, base.proxy,
                        if TrimSpace(base.dns) != "" then WithPort(base.dns) else DEFAULT_DNS,
                        if fallbacks && base.udpTimeout == 0 then MINUTE else base.udpTimeout,
                        names,
                        if fallbacks && base.excludeRefresh == 0 then 15 * SECOND else base.excludeRefresh,
                        base.logLevel, base.logDir, base.autoDefaultRoute))
  }

  function Finalize(c: Config, prefixesOk: bool, dnsOk: bool, names: seq<string>): Result<Runtime> {
    View(Merged(DEFAULT, c), prefixesOk, dnsOk, names, true)
  }

  /** The last of three layers that is set. */
  function LastSet<T(==)>(zero: T, layers: (T, T, T)): T {
    if layers.2 != zero then layers.2 else if layers.1 != zero then layers.1 else layers.0
  }

  /** Field by field, the command line beats the file and the file the defaults; auto-route is on as soon as
      one layer asks for it. */
  lemma LastLayerWins(file: Config, cli: Config)
    ensures var c := Pipeline(file, cli);
            && c.tunName == LastSet("", ("nano0", file.tunName, cli.tunName))
            && c.mtu == LastSet(0, (1500, file.mtu, cli.mtu))
            && c.stackMode == LastSet("", ("gvisor", ToLower(file.stackMode), ToLower(cli.stackMode)))
            && c.proxy == LastSet("", ("", file.proxy, cli.proxy))
            && c.dns == LastSet("", ("", file.dns, cli.dns))
            && c.udpTimeout == LastSet(0, (MINUTE, file.udpTimeout, cli.udpTimeout))
            && c.excludedProcesses == LastSet([], ([], file.excludedProcesses, cli.excludedProcesses))
            && c.excludeRefresh == LastSet(0, (15 * SECOND, file.excludeRefresh, cli.excludeRefresh))
            && c.excludedIPs == LastSet([], ([], file.excludedIPs, cli.excludedIPs))
            && c.logLevel == LastSet("", ("info", file.logLevel, cli.logLevel))
            && c.logDir == LastSet("", ("logs", file.logDir, cli.logDir))
            && c.autoDefaultRoute == (file.autoDefaultRoute || cli.autoDefaultRoute)
  {
    hide ToLower;
    LowerIdempotent(file.stackMode);
    LowerIdempotent(cli.stackMode);
  }

  /** For every file and command line both timeouts are set before the zero-timeout fallbacks are reached. */
  lemma FallbacksNeverApply(file: Config, cli: Config)
    ensures Merged(DEFAULT, Pipeline(file, cli)).udpTimeout != 0
    ensures Merged(DEFAULT, Pipeline(file, cli)).excludeRefresh != 0
  {
    hide ToLower;
    SecondMergeIsIdle(file, cli);
    LastLayerWins(file, cli);
  }

  /** The mode a text stands for: "simple", "gvisor" or nothing, in letters of any size and between blanks. */
  ghost predicate ModeText(v: string, word: string) {
    exists a, s, b :: v == a + s + b && Blanks(a) && Blanks(b) && Bare(s) && SmallLetters(s) == word
  }

  lemma ModeTextIff(v: string, word: string)
    ensures ModeText(v, word) <==> ToLower(TrimSpace(v)) == word
  {
    var a, s, b := Between(v);
    TrimSpaceText(a, s, b);
    LowerIsSmall(s);
    if ToLower(TrimSpace(v)) == word {
      assert v == a + s + b && SmallLetters(s) == word;
    }
    if a1, s1, b1 :| v == a1 + s1 + b1 && Blanks(a1) && Blanks(b1) && Bare(s1) && SmallLetters(s1) == word {
      TrimSpaceText(a1, s1, b1);
      LowerIsSmall(s1);
    }
  }

  lemma EmptyIff(v: string)
    ensures Blanks(v) <==> TrimSpace(v) == ""
  {
    var a, s, b := Between(v);
    TrimSpaceText(a, s, b);
    if s == [] {
      assert v == a + b;
    } else {
      assert v[|a|] == s[0];
    }
  }

  /** The first thing that is wrong with what file and command line add up to, in the order of the checks. */
  ghost function FirstError(file: Config, cli: Config, prefixesOk: bool, dnsOk: bool): Option<Error> {
    var mode := LastSet("", ("gvisor", file.stackMode, cli.stackMode));
    var mtu := LastSet(0, (1500, file.mtu, cli.mtu));
    var dns := LastSet("", ("", file.dns, cli.dns));
    if file.proxy == "" && cli.proxy == "" then Some(NoProxy)
    else if !ModeText(mode, "") && !ModeText(mode, "gvisor") && !ModeText(mode, "simple") then Some(BadStackMode)
    else if !prefixesOk then Some(BadPrefix)
    else if mtu < 0 then Some(BadMtu)
    else if !Blanks(dns) && !dnsOk then Some(BadDns)
    else None
  }

  /** What `Finalize` makes of every file and command line: the first error, or every field from the last layer that
      sets it, with port 53 added to a resolver without one and 8.8.8.8:53 for none. */
  lemma FinalizeMeaning(file: Config, cli: Config, prefixesOk: bool, dnsOk: bool, names: seq<string>)
    ensures var r := Finalize(Pipeline(file, cli), prefixesOk, dnsOk, names);
            var e := FirstError(file, cli, prefixesOk, dnsOk);
            var dns := LastSet("", ("", file.dns, cli.dns));
            && (r.Err? <==> e.Some?)
            && (r.Err? ==> r.error == e.value)
            && (r.Ok? ==>
                  && r.value.tunName == LastSet("", ("nano0", file.tunName, cli.tunName))
                  && r.value.mtu == LastSet(0, (1500, file.mtu, cli.mtu))
                  && (r.value.stackMode == Simple <==>
                        ModeText(LastSet("", ("gvisor", file.stackMode, cli.stackMode)), "simple"))
                  && r.value.proxy == (if cli.proxy != "" then cli.proxy else file.proxy)
                  && r.value.dns == (if Blanks(dns) then "8.8.8.8:53" else if ':' in dns then dns else dns + ":53")
                  && r.value.udpTimeout == LastSet(0, (60_000_000_000, file.udpTimeout, cli.udpTimeout))
                  && r.value.excludedProcesses == names
                  && r.value.excludeRefresh == LastSet(0, (15_000_000_000, file.excludeRefresh, cli.excludeRefresh))
                  && r.value.logLevel == LastSet("", ("info", file.logLevel, cli.logLevel))
                  && r.value.logDir == LastSet("", ("logs", file.logDir, cli.logDir))
                  && r.value.autoDefaultRoute == (file.autoDefaultRoute || cli.autoDefaultRoute))
  {
    hide ToLower, TrimSpace, Pipeline, Merged, ModeText, Blanks;
    var c := Pipeline(file, cli);
    var mode := LastSet("", ("gvisor", file.stackMode, cli.stackMode));
    SecondMergeIsIdle(file, cli);
    LastLayerWins(file, cli);
    EmptyIff(c.dns);
    LowerMode(file, cli);
    ModeTextIff(mode, "");
    ModeTextIff(mode, "gvisor");
    ModeTextIff(mode, "simple");
  }

  /** Lower-casing the mode while merging does not change what it stands for. */
  lemma LowerMode(file: Config, cli: Config)
    ensures ToLower(TrimSpace(Pipeline(file, cli).stackMode))
            == ToLower(TrimSpace(LastSet("", ("gvisor", file.stackMode, cli.stackMode))))
  {
    var mode := LastSet("", ("gvisor", file.stackMode, cli.stackMode));
    LowerIdempotent(file.stackMode);
    LowerIdempotent(cli.stackMode);
    assert Pipeline(file, cli).stackMode == mode || Pipeline(file, cli).stackMode == ToLower(mode);
    TrimLower(mode);
  }

  lemma TrimLower(v: string)
    ensures ToLower(TrimSpace(ToLower(v))) == ToLower(TrimSpace(v))
  {
    var a, s, b := Between(v);
    TrimSpaceText(a, s, b);
    assert ToLower(v) == ToLower(a) + ToLower(s) + ToLower(b);
    TrimSpaceText(ToLower(a), ToLower(s), ToLower(b));
    LowerIdempotent(s);
  }

  // ---- Process names ----

  /** Byte order on text. */
  predicate LexLess(a: string, b: string) {
    b != [] && (a == [] || a[0] < b[0] || (a[0] == b[0] && LexLess(a[1..], b[1..])))
  }

  lemma {:induction false} LexTransitive(a: string, b: string, c: string)
    requires LexLess(a, b) && LexLess(b, c)
    ensures LexLess(a, c)
  {
    if a != [] && a[0] == b[0] && b[0] == c[0] { LexTransitive(a[1..], b[1..], c[1..]); }
  }

  lemma {:induction false} LexTotal(a: string, b: string)
    ensures a == b || LexLess(a, b) || LexLess(b, a)
  {
    if a != [] && b != [] && a[0] == b[0] {
      LexTotal(a[1..], b[1..]);
      assert a == [a[0]] + a[1..] && b == [b[0]] + b[1..];
    }
  }

  /** The order of a dictionary: the first difference decides, and a beginning comes before the whole. */
  lemma {:induction false} LexLessIff(a: string, b: string)
    ensures LexLess(a, b) <==>
              exists i :: 0 <= i <= |a| && i < |b| && a[..i] == b[..i] && (i == |a| || a[i] < b[i])
  {
    if a == [] || b == [] || a[0] != b[0] {
      if LexLess(a, b) { assert a[..0] == b[..0]; }
    } else {
      LexLessIff(a[1..], b[1..]);
      if LexLess(a, b) {
        var i :| 0 <= i <= |a[1..]| && i < |b[1..]| && a[1..][..i] == b[1..][..i]
          && (i == |a[1..]| || a[1..][i] < b[1..][i]);
        assert a[..i + 1] == [a[0]] + a[1..][..i] == [b[0]] + b[1..][..i] == b[..i + 1];
      }
      if i :| 0 <= i <= |a| && i < |b| && a[..i] == b[..i] && (i == |a| || a[i] < b[i]) {
        assert i > 0;
        assert a[1..][..i - 1] == a[..i][1..] == b[..i][1..] == b[1..][..i - 1];
      }
    }
  }

  predicate StrictlySorted(s: seq<string>) {
    forall i, j :: 0 <= i < j < |s| ==> LexLess(s[i], s[j])
  }

  function InsertSorted(s: seq<string>, x: string): seq<string> {
    if s == [] then [x] else if LexLess(x, s[0]) then [x] + s else [s[0]] + InsertSorted(s[1..], x)
  }

  lemma {:induction false} InsertKeepsSorted(s: seq<string>, x: string)
    requires StrictlySorted(s) && x !in s
    ensures var r := InsertSorted(s, x);
            StrictlySorted(r) && |r| == |s| + 1 && forall y :: y in r <==> y in s || y == x
  {
    hide LexLess;
    var r := InsertSorted(s, x);
    if s == [] {
    } else if LexLess(x, s[0]) {
      forall i | 0 <= i < |s| ensures LexLess(x, s[i]) {
        if i > 0 { LexTransitive(x, s[0], s[i]); }
      }
    } else {
      InsertKeepsSorted(s[1..], x);
      LexTotal(x, s[0]);
      var tail := InsertSorted(s[1..], x);
      forall i | 0 <= i < |tail| ensures LexLess(s[0], tail[i]) {
        assert tail[i] in tail;
        if tail[i] != x {
          var k :| 0 <= k < |s[1..]| && s[1..][k] == tail[i];
          assert LexLess(s[0], s[k + 1]);
        }
      }
      assert s == [s[0]] + s[1..];
    }
  }

  /** `slices.Sort` on distinct texts. */
  method SortDistinct(s: seq<string>) returns (r: seq<string>)
    requires forall i, j :: 0 <= i < j < |s| ==> s[i] != s[j]
    ensures StrictlySorted(r) && |r| == |s| && forall y :: y in r <==> y in s
  {
    r := [];
    for i := 0 to |s|
      invariant StrictlySorted(r) && |r| == i && forall y :: y in r <==> y in s[..i]
    {
      assert s[i] !in s[..i];
      InsertKeepsSorted(r, s[i]);
      r := InsertSorted(r, s[i]);
      assert s[..i + 1] == s[..i] + [s[i]];
    }
    assert s[..|s|] == s;
  }

  /** `normalizeProcessList`: normalised, without empties and duplicates, strictly sorted. */
  method NormalizeProcessList(names: seq<string>) returns (r: seq<string>)
    ensures StrictlySorted(r)
    ensures forall y :: y in r <==> y != "" && exists i :: 0 <= i < |names| && Normalize(names[i]) == y
  {
    hide Normalize, StrictlySorted;
    var out: seq<string> := [];
    var seen: set<string> := {};
    for i := 0 to |names|
      invariant forall y :: y in out <==> y in seen
      invariant forall a, b :: 0 <= a < b < |out| ==> out[a] != out[b]
      invariant forall y :: y in seen ==> y != "" && exists k :: 0 <= k < i && Normalize(names[k]) == y
      invariant forall k :: 0 <= k < i && Normalize(names[k]) != "" ==> Normalize(names[k]) in seen
    {
      var cleaned := Normalize(names[i]);
      if cleaned == "" { continue; }
      if cleaned in seen { continue; }
      seen := seen + {cleaned};
      out := out + [cleaned];
    }
    r := SortDistinct(out);
  }

  predicate TwiceNamed(configured: seq<string>, name: string) {
    name != "" && exists i :: 0 <= i < |configured| && Normalize(Normalize(configured[i])) == name
  }

  /** The matcher's targets are the twice-normalised configured names: once by the configuration, once by
      the matcher. */
  lemma TargetsAreTwiceNormalised(configured: seq<string>, list: seq<string>, name: string)
    requires forall y :: y in list <==> y != "" && exists i :: 0 <= i < |configured| && Normalize(configured[i]) == y
    ensures name in M.TargetSet(list) <==> TwiceNamed(configured, name)
  {
    NormalizeEmpty();
    hide Normalize;
    if name in M.TargetSet(list) {
      var n :| n in list && Normalize(n) != "" && Normalize(n) == name;
      var i :| 0 <= i < |configured| && Normalize(configured[i]) == n;
    }
    if TwiceNamed(configured, name) {
      var i :| 0 <= i < |configured| && Normalize(Normalize(configured[i])) == name;
      assert Normalize(configured[i]) in list;
    }
  }

  /** End to end, under every interleaving of scans and readers: a flow whose process was resolved is skipped
      exactly when the name the operating system gave for its PID, normalised twice, is not empty and equals
      a twice-normalised configured name.  `Normalize` is not idempotent, so it matters that both sides are
      normalised the same number of times, also for names carried over from earlier scans. */
  lemma SkippedIffConfigured(configured: seq<string>, list: seq<string>, start: int, es: seq<Event>, t: nat)
    returns (j: nat, raw: string)
    requires forall y :: y in list <==> y != "" && exists i :: 0 <= i < |configured| && Normalize(configured[i]) == y
    requires var s := Run(M.TargetSet(list), start, es);
             && t in s.threads && s.threads[t].Answered?
             && var Answered(key, _, pidAt, nameAt) := s.threads[t];
                pidAt < |s.published| && nameAt < |s.published|
                && PidOf(s.published[pidAt], key) != 0 && PidOf(s.published[pidAt], key) in s.published[nameAt].names
    ensures var s := Run(M.TargetSet(list), start, es);
            var Answered(key, verdict, pidAt, nameAt) := s.threads[t];
            var pid := PidOf(s.published[pidAt], key);
            && j <= nameAt && pid in s.published[j].sources && s.published[j].sources[pid] == FromOs(raw)
            && (verdict <==> TwiceNamed(configured, Normalize(Normalize(raw))))
  {
    hide Normalize, Run;
    var targets := M.TargetSet(list);
    var s := Run(targets, start, es);
    AnswerMeaning(targets, start, es, t);
    var pid := PidOf(s.published[s.threads[t].pidAt], s.threads[t].key);
    j, raw := NamesComeFromTheOs(targets, start, es, s.threads[t].nameAt, pid);
    TargetsAreTwiceNormalised(configured, list, Normalize(Normalize(raw)));
  }

  /** Blanks around a name and the size of its letters never decide: whatever the operating system's name for the
      process looks like in these respects, it meets the configured one. */
  lemma SpellingDoesNotMatter(configured: seq<string>, i: nat, a: string, s: string, b: string, raw: string)
    requires i < |configured| && configured[i] == a + s + b && Blanks(a) && Blanks(b) && Bare(s)
    requires exists x, t, y ::
               raw == x + t + y && Blanks(x) && Blanks(y) && Bare(t) && SmallLetters(t) == SmallLetters(s)
    ensures Normalize(raw) == Normalize(configured[i])
    ensures Normalize(Normalize(raw)) != "" ==> TwiceNamed(configured, Normalize(Normalize(raw)))
  {
    hide Normalize;
    var x, t, y :| raw == x + t + y && Blanks(x) && Blanks(y) && Bare(t) && SmallLetters(t) == SmallLetters(s);
    NormalizeText(a, s, b);
    NormalizeText(x, t, y);
  }

  /** Once is not enough: a name with a doubled suffix changes when it is normalised again. */
  lemma TwiceDiffersFromOnce()
    ensures Normalize("a.exe.exe") == "a.exe" && Normalize("a.exe") == "a"
  {
    assert TrimSpace("a.exe.exe") == "a.exe.exe" by { TrimSpaceMeaning("a.exe.exe"); }
    assert ToLower("a.exe.exe") == "a.exe.exe";
    assert "a.exe.exe"[5..] == ".exe" && "a.exe.exe"[..5] == "a.exe";
    assert TrimSpace("a.exe") == "a.exe" by { TrimSpaceMeaning("a.exe"); }
    assert ToLower("a.exe") == "a.exe";
    assert "a.exe"[1..] == ".exe" && "a.exe"[..1] == "a";
  }
}
