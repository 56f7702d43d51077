# nanotun, verified model

nanotun is a transparent TUN gateway: it takes over the host's default route, sends flows to a SOCKS
proxy, answers DNS on a virtual gateway address, lets excluded processes and addresses go direct, and
writes rotating logs.  This project models the parts of it that keep state or decide something, and proves
what they promise over every run, every interleaving, every table and every failure of the operating system.

| part | files |
|---|---|
| rotating log writer | `LogNames`, `LogStore` (state machine and run theorems), `LogWriter` (the object) |
| process-exclusion matcher | `ProcessNames`, `FlowTable`, `MatcherProtocol` (interleavings), `Matcher` (the object), `MatcherRun` (a call is a run) |
| auto-route | `Routes` (tables and transactions), `AutoRoute` (platform plans and theorems), `DnsRedirect`, `AutoRouteApply` (the commands), `PowerShell` |
| flow classification | `Addresses`, `Reserved`, `FlowPolicy` |
| DNS-over-TCP relay | `DnsRelay` |
| configuration | `Config` |
| shared text and sequence facts | `Text` |

Operating-system calls are inputs: each carries the answer it gets (a failed open, a short write, a rejected
route, a chunk of a stream, a clock reading), and the theorems quantify over all answers.

## What does not hold without a condition

Each of these comes with the exact condition, stated on what is known before the call.

- A scan of the log directory yields a new file name unless a file carries the largest `int` as its number and
  the day's first file exists: `maxSeq + 1` wraps around (`LogStore.NextNameFresh`, `LogStore.CounterWraps`).
- A rotation on the date the writer already has reuses its counter without a scan, and may so open a file that
  exists (a clash).  Over every run the files that were there before stay as they were if and only if no write puts
  a byte into one of them, be it by a clash or, fitting, after a clash that itself wrote nothing
  (`LogStore.OldFilesUntouchedIff`).  Without a clash every run conserves bytes, in any order of dates
  (`LogStore.RunConservesBytes`).  The one way into a clash, short of running out of numbers, is a return: a rotation on
  a date other than the one the counter was last computed for, after a failed open
  (`LogStore.NeverReturnsNeverClashes`, `LogStore.BackwardDateAppends`).
- The file just opened can lose its name to the sweep of the same rotation, exactly when it is listed, removable and
  already too old (`LogStore.OpenFileSurvivesSweepIff`).
- Printing a parsed log name gives it back if and only if its tail is missing or starts with 1 to 9
  (`LogNames.PrintOfParseIff`).
- Undo commands may fail, which is only logged.  A run of auto-route gives back the routes, and the netfilter
  rules, exactly when no command leaves a trace (`Routes.RevertRestoresIff`, `AutoRouteApply.ApplyThenRevertLinux`,
  `AutoRouteApply.ApplyThenRevertSplit`).  Even when every undo works:
  - iptables cleanup deletes by first match and also deletes rules it never inserted
    (`DnsRedirect.IptablesRestoresIff`), and the nftables cleanup deletes own tables of an earlier run
    (`DnsRedirect.NftRestoresIff`);
  - Linux: deleting the IPv6 default names no metric, so an older tunnel default of lower metric would be
    deleted instead (`AutoRoute.LinuxSuccessRestoresIff`);
  - Darwin and Windows return without undoing when the first half-space route fails
    (`AutoRoute.FirstHalfFailureRestoresIff`);
  - Windows undoes host and loopback routes without naming the interface, and stacks the removal of the loopback
    route even when it existed before (`AutoRoute.WindowsRevertRestoresIff`, `AutoRoute.WindowsLosesLoopback`).
- Linux and Darwin, with an original gateway other than the tunnel's: after the revert a bypassed proxy address whose
  tunnel route had been added is routed into the tunnel if and only if its own undo worked and either the tunnel route's undo failed, with nothing longer for the address there before, or the address
  went into the tunnel before the run (`AutoRoute.LoopsIff`).  With a working undo of the tunnel route there is no loop
  at any moment, whatever else fails (`AutoRoute.LoopFree`).
- Linux: the IPv6 default has metric 1024, so an IPv6 address goes to the tunnel if and only if no other default of lower
  metric was there (`AutoRoute.Tunnel6AfterApplyIff`).
- Windows: the tunnel's halves and host routes have metric 1 and may stand beside others for the same destination.  An
  address they cover goes their way if and only if the initial table has no rival, a route for that destination of
  lowest metric, at most 1, through another next hop (`AutoRoute.TunnelAfterApplyIff`,
  `AutoRoute.BypassAfterApplyIff`).  So with another tunnel's half of metric 0 in place the commands work and yet
  addresses of that half do not go to the tunnel (`AutoRoute.ForeignHalfWins`).
- A bare line of the user's list excludes its address if and only if that is not IPv4-mapped
  (`FlowPolicy.BareLineMatchesIff`).
- `Normalize` is not idempotent (`ProcessNames.NormalizeStableIff`).
- A comment in internal/netaddr/reserved.go says that 2001::/23 covers 2001:db8::; the code does not treat it
  as reserved (`Reserved.DocumentationPrefixNotReserved`).

## Model

| member | source | states |
|---|---|---|
| LogNames.ParseOfFileName | internal/logger/file_writer.go:121-194 | parsing a printed name gives back its date and number, for every valid date and every number an `int` holds |
| LogNames.ParseIff | internal/logger/file_writer.go:172-194 | exactly what a name looks like that stands for a date and a number: prefix, a calendar date, and either nothing or one dotted tail that reads as that number, before the suffix |
| LogNames.AtoiIff | internal/logger/file_writer.go:187 | exactly what reads as a number: digits, or a sign and digits, within the range of an `int` |
| LogNames.DigitText | internal/logger/file_writer.go:121-126 | the ten digits |
| LogNames.FileNameText | internal/logger/file_writer.go:121-126 | the printed text for every prefix, date and number, with examples |
| LogNames.PrintOfParseIff | internal/logger/file_writer.go:172-194 | for every name that parses, printing the date and number gives the name back if and only if it has no dotted tail or the tail starts with a digit from 1 to 9 |
| LogNames.ParseAcceptsUnprintable | internal/logger/file_writer.go:183-192 | for every date, a leading zero or a sign parses as number 1, whose name is another one |
| LogNames.DateKeyInjective | internal/logger/file_writer.go:60 | two formatted dates at the same calendar position are the same text, so non-decreasing dates do not return |
| LogNames.DateKeyOrders | internal/logger/file_writer.go:60 | calendar order of the texts is the order of the days |
| LogNames.ValidDateIff | internal/logger/file_writer.go:180 | the valid date texts are exactly the days of the calendar in the layout year-month-day |
| LogNames.MonthLengths | internal/logger/file_writer.go:180 | the twelve month lengths and the leap years, written out |
| LogNames.CalendarIsConsecutive | internal/logger/file_writer.go:162-166 | the day numbers behind log ages follow the calendar over month ends, year ends and leap years |
| LogStore.MaxNumberIsMax | internal/logger/file_writer.go:133-146 | the number found by the directory scan bounds every number of that date and is attained |
| LogStore.NextNameFresh | internal/logger/file_writer.go:128-147 | for every directory and every listing order, the name after the scan is taken if and only if the counter is exhausted and the day's first file exists |
| LogStore.StaysInOpenFile | internal/logger/file_writer.go:80-83 | a record that fits the open file of its day goes there: no file is opened, created or removed and the counter stays |
| LogStore.OpensNextFile | internal/logger/file_writer.go:84-119 | any other record, if the calls work and the name is free, goes into one new file, with the number after the counter or after the largest listed one, and becomes its whole content |
| LogStore.FailureWritesNothing | internal/logger/file_writer.go:87-112 | when the listing, the open or the stat fails nothing is written, no file stays open, the existing files and names are as before, and the counter has moved on unless the listing failed |
| LogStore.CloseForgetsFile | internal/logger/file_writer.go:51-78 | a write of nothing does nothing and closing forgets the file only |
| LogStore.NextFileOnlyWhenFull | internal/logger/file_writer.go:80-85 | over every run without a clash: of two files created one after the other on one day, with a file open in between, the second was created only because the next record would have taken the first over the limit |
| LogStore.StepGrowsTarget | internal/logger/file_writer.go:51-119 | in every state with a sound directory an operation adds the accepted bytes to one file that exists, the open one if its day and the size limit allow or the one whose name is taken if it clashes, and changes no other |
| LogStore.RunGrowsTargets | internal/logger/file_writer.go:51-119 | after every run, whatever failed and in any order of dates, a file that was there before holds its old content and then exactly what the writes into it added |
| LogStore.FileUntouchedIff | internal/logger/file_writer.go:51-119 | such a file is unchanged if and only if no write puts a byte into it |
| LogStore.OldFilesUntouchedIff | internal/logger/file_writer.go:51-119 | all of them are unchanged if and only if no write puts a byte into any of them |
| LogStore.RotateKeepsInv | internal/logger/file_writer.go:87-119 | a rotation that does not clash, on any date, creates at most one file, empty, opens only that one, and keeps the writer's invariant through failed scans, opens and stats |
| LogStore.StepKeepsInv | internal/logger/file_writer.go:51-85 | every `Write` that does not clash and every `Close` keeps the invariant and adds exactly the accepted bytes to one file |
| LogStore.RunConservesBytes | internal/logger/file_writer.go:51-119 | over every run without a clash, in any order of dates: old files untouched; new files in order hold exactly the accepted bytes; no record is split; each file is within the limit or holds one record; `size` is the open file's length |
| LogStore.StepKeepsCounter | internal/logger/file_writer.go:87-119 | a step that does not return to a date the counter was not computed for never clashes and keeps the counter ahead of every number of its date |
| LogStore.NeverReturnsNeverClashes | internal/logger/file_writer.go:87-147 | over every run without such a return, in any order of dates and while the numbers last, no write clashes |
| LogStore.NeverReturnsConserves | internal/logger/file_writer.go:51-147 | so every such run conserves bytes |
| LogStore.AscendingNeverReturns | internal/logger/file_writer.go:60 | dates that do not go back never return |
| LogStore.AscendingConserves | internal/logger/file_writer.go:51-147 | so every run with non-decreasing dates conserves bytes |
| LogStore.BackwardDateAppends | internal/logger/file_writer.go:93-107 | for all settings, dates and data: a failed open on a new day followed by a return to the first day appends to a pre-existing file |
| LogStore.CounterWraps | internal/logger/file_writer.go:146 | with the largest number present the scan leads back to the day's first name |
| LogStore.RunRemovesOnlyExpired | internal/logger/file_writer.go:149-170 | over every run a directory entry keeps its file unless a sweep found it to be an expired log of this prefix |
| LogStore.OpenFileSurvivesSweepIff | internal/logger/file_writer.go:114-117 | the file just opened loses its name if and only if the sweep lists it, can remove it and finds it too old, which it never is when logs live at least a day and both clock readings fall on one day |
| LogStore.SweptIff | internal/logger/file_writer.go:149-170 | exactly which names the sweep removes: listed, removable logs of this prefix whose day began more than the limit ago |
| LogStore.DefaultLimits | internal/logger/logger.go:21-22 | the limits in force when none are given: 1048576 bytes and 72 hours |
| LogWriter.RotatingFileWriter.constructor | internal/logger/file_writer.go:27-49 | a new writer has no open file, counter -1 and positive limits |
| LogWriter.RotatingFileWriter.Write | internal/logger/file_writer.go:51-67 | the object's `Write` is a step of the state machine and reports the accepted count |
| LogWriter.RotatingFileWriter.Close | internal/logger/file_writer.go:69-78 | closing is a step of the state machine |
| LogWriter.RotatingFileWriter.EnsureFile | internal/logger/file_writer.go:80-85 | stays in the open file when there is one, its day is the record's and the sum of sizes is within the limit, else rotates |
| LogWriter.RotatingFileWriter.RotateTo | internal/logger/file_writer.go:87-119 | the object's rotation is the one the run theorems are about |
| LogWriter.RotatingFileWriter.NextSeq | internal/logger/file_writer.go:128-147 | the loop computes one past the maximum |
| LogWriter.RotatingFileWriter.CleanupOld | internal/logger/file_writer.go:149-170 | the loop removes exactly the expired, removable, listed log files |
| ProcessNames.NormalizeText | internal/procname/procname.go:7-13 | what the normal form is: the text between the blanks, each capital replaced by its small letter, less one final ".exe" |
| ProcessNames.SameNormalForm | internal/procname/procname.go:7-13 | names that differ only in the size of ASCII letters have the same normal form, and names not ending in ".exe" only then |
| ProcessNames.NormalizeStableIff | internal/procname/procname.go:7-13 | a second normalisation changes nothing if and only if the trimmed, lower-cased name ends neither in ".exe.exe" nor in a space and ".exe" |
| Config.TwiceDiffersFromOnce | internal/procname/procname.go:9-11 | a doubled suffix: the second normalisation changes the name again |
| FlowTable.ScanMeaning | internal/exclude/matcher.go:128-163 | read off the four probes: a flow is mapped if and only if some row of its network shows its unmapped address and port, established if TCP, to the PID of the last such row; the PIDs are those of all such rows |
| FlowTable.TableMeaning | internal/exclude/matcher.go:158-162 | the last contributing row decides a flow's PID, and the PID set is that of all contributing rows |
| FlowTable.MappedPidsAreListed | internal/exclude/matcher.go:159-161 | every mapped PID is in the scan's PID set |
| FlowTable.MappedAndPlainRowsAgree | internal/exclude/matcher.go:142-155 | a socket listed with an IPv4-mapped address gets the key of the plain address |
| FlowTable.BuildTable | internal/exclude/matcher.go:128-163 | the nested loops build the table that `ScanMeaning` reads off the probes, skipping failed ones |
| MatcherProtocol.StepKeepsInv | internal/exclude/matcher.go:66-207 | every lock acquisition, connection probe and question for a process name, in any order, keeps snapshots and readers consistent |
| MatcherProtocol.OneScanBehindBothMaps | internal/exclude/matcher.go:124-171 | under every interleaving both maps come from one scan: flows and PIDs are those of its four probes, names only for its non-zero PIDs; `lastScan` is the time of the newest publication, the latest of all |
| MatcherProtocol.PublishedOnlyGrows | internal/exclude/matcher.go:167-171 | between any two moments of a run publications stay as they were and `lastScan` never decreases |
| MatcherProtocol.NamesComeFromTheOs | internal/exclude/matcher.go:174-195 | every cached name is a normalised answer about that PID; without overlapping scans the PID was listed by every scan since |
| MatcherProtocol.AnswerMeaning | internal/exclude/matcher.go:66-91 | `ShouldSkip` evaluates a PID of one snapshot with the names of the same or a later one, and the snapshot directly if nothing was published in between |
| MatcherProtocol.SkippedProcessIsATarget | internal/exclude/matcher.go:85-90 | a flow is only skipped for a PID whose name from the operating system normalises twice to a target |
| MatcherProtocol.StepKeepsRate | internal/exclude/matcher.go:112-122 | every step keeps the spacing between publications and later staleness checks |
| MatcherProtocol.OnMissScansSpaced | internal/exclude/matcher.go:112-122 | an on-miss scan that checks after another published starts more than one second after the other started |
| MatcherProtocol.WindowIsOverlap | internal/exclude/matcher.go:75-80 | on-miss scans starting within one second are all in flight at one step, each for a different call |
| Matcher.New | internal/exclude/matcher.go:33-55 | no matcher for an empty list; targets are the non-empty normalised names |
| Matcher.Matcher.ResolveProcessNames | internal/exclude/matcher.go:174-195 | cached name, else normalised answer, else nothing, in whatever order PIDs are visited |
| Matcher.Matcher.ScanOnce | internal/exclude/matcher.go:124-172 | both maps are replaced together by the scan's result |
| Matcher.Matcher.RefreshOnMiss | internal/exclude/matcher.go:112-122 | scans if and only if the last scan is more than a second old |
| Matcher.Matcher.ShouldSkip | internal/exclude/matcher.go:66-91 | undisturbed, the answer is the direct evaluation of the resulting maps, and nothing changes unless the flow is unknown and the cache stale |
| MatcherRun.ScanIsARun | internal/exclude/matcher.go:124-172 | a scan by one thread, step by step, leaves the cache that `ScanOnce` leaves |
| MatcherRun.CallIsARun | internal/exclude/matcher.go:66-91 | from every reachable state an undisturbed `ShouldSkip` is a continuation of the run by one thread, with the cache and the verdict of the object's contract |
| Routes.TriesKeepInv | internal/autoroute/autoroute_linux.go:52-94 | after any pattern of failing adds the table is the initial one plus what the undo stack holds |
| Routes.PopsLeave | internal/autoroute/autoroute_linux.go:36-40 | at every moment of a revert and whatever undo commands fail, the table is the initial one, what is still stacked and what the failed commands left, if nothing looks like an item whose command worked |
| Routes.StackIff | internal/autoroute/autoroute_linux.go:54-67 | the undo stack holds exactly the planned routes whose command works and whose slot is free in the initial table (or that are only ensured) |
| Routes.TriesAddNothingIff | internal/autoroute/autoroute_darwin.go:46-65 | adds change nothing if and only if every route whose command works is there already |
| Routes.RevertRestoresIff | internal/autoroute/autoroute_linux.go:36-40 | for every platform, table, plan, pattern of failing adds and set of failing undo commands: a full revert restores the table if and only if each planned route that stacks was there before, if its undo fails, and is unlike every initial route, if it works |
| Routes.RevertLeavesStuck | internal/autoroute/autoroute_linux.go:62-66 | whatever undo commands fail, the table ends as the initial one plus exactly the routes that were added and whose undo failed |
| Routes.PopsTable | internal/autoroute/autoroute_windows.go:28-35 | Darwin and Windows, without any condition: the exact table at every moment of a revert |
| Routes.RevertTable | internal/autoroute/autoroute_windows.go:28-35 | the exact table after it, from the inputs: the initial routes that no working undo names, and the added ones whose undo failed |
| Routes.AddedRouteWinsIff | internal/autoroute/autoroute_windows.go:75-80 | an address that nothing longer covers goes the way of the added route if and only if the initial table has no rival for it |
| AutoRoute.LinuxErrorRestoresIff | internal/autoroute/autoroute_linux.go:52-73 | an error return leaves every initial table as it was, duplicates among the proxy addresses included, if and only if no undo of an added route fails |
| AutoRoute.LinuxSuccessRestoresIff | internal/autoroute/autoroute_linux.go:52-94 | success followed by revert restores the table if and only if no undo of an added route fails and the IPv6 default was not added beside a tunnel default of lower metric |
| AutoRoute.LoopFree | internal/autoroute/autoroute_linux.go:36-78 | every platform, after every command of apply and revert, whatever undo commands other than the tunnel route's fail: while the tunnel route for a bypassed proxy address is in the table so is its host route, and the address goes to the original gateway (on Windows if and only if there is no rival) |
| AutoRoute.Routing | internal/autoroute/autoroute_linux.go:36-78 | Linux and Darwin, after every command and whatever fails: every IPv4 address goes to the original gateway while its host route is in, else to the tunnel while the tunnel route is in and nothing longer was there before, else where it went before the run |
| AutoRoute.RoutingAfterRevert | internal/autoroute/autoroute_linux.go:36-40 | the same after the revert, from the inputs: only added routes whose undo failed matter |
| AutoRoute.LoopsIff | internal/autoroute/autoroute_linux.go:62-78 | after the revert a bypassed proxy address is routed into the tunnel if and only if its own undo worked and either the tunnel route's failed, with nothing longer there before, or it went there before the run |
| AutoRoute.DarwinRevertRestoresIff | internal/autoroute/autoroute_darwin.go:46-100 | undoing any part of the plan restores every initial table if and only if no undo of an added route fails |
| AutoRoute.WindowsRevertRestoresIff | internal/autoroute/autoroute_windows.go:28-100 | undoing restores the table if and only if for each planned route that stacks: it was there before, if its removal fails; else no initial route has the destination and next hop of a host or loopback route |
| AutoRoute.WindowsLosesLoopback | internal/autoroute/autoroute_windows.go:63-73 | a loopback route that existed before is not in the table after the revert, once the script and its removal ran |
| AutoRoute.FirstHalfFailureRestoresIff | internal/autoroute/autoroute_darwin.go:62-65 | a failing first half-space route leaves the initial table if and only if every earlier command that works finds its slot taken in it |
| AutoRoute.BypassWinsIff | internal/autoroute/autoroute_linux.go:36-66 | every platform, at every moment of a run: while the host route of an address is in, the address goes to the original gateway if and only if there is no rival (on Linux and Darwin always) |
| AutoRoute.TunnelTakesTheRestIff | internal/autoroute/autoroute_linux.go:36-78 | the same for the tunnel route of an address that nothing longer covers |
| AutoRoute.TunnelAfterApplyIff | internal/autoroute/autoroute_windows.go:75-100 | with its tunnel route in and nothing longer covering it, an address goes to the tunnel if and only if the initial table has no rival for that route (on Linux and Darwin always), and every initial route is still there |
| AutoRoute.Tunnel6AfterApplyIff | internal/autoroute/autoroute_darwin.go:81-100 | the same for every IPv6 address and the IPv6 gateway, on every platform |
| AutoRoute.Tunnel6TakesTheRestIff | internal/autoroute/autoroute_windows.go:102-120 | on Darwin and Windows also at every moment of a run |
| AutoRoute.Routing6 | internal/autoroute/autoroute_darwin.go:81-100 | Linux and Darwin, after every command and whatever fails: every IPv6 address goes to the tunnel while its tunnel route is in, nothing longer was there before and nothing of lower metric, else where it went before (on Linux if no lower tunnel default can be deleted instead) |
| AutoRoute.RoutingAfterRevert6 | internal/autoroute/autoroute_linux.go:86-94 | the same after the revert, from the inputs |
| AutoRoute.LinuxTable6 | internal/autoroute/autoroute_linux.go:86-94 | Linux without that condition: the exact IPv6 table at every moment of a run |
| AutoRoute.HalvesHoldAll | internal/autoroute/autoroute_darwin.go:62-92 | in each family every address lies in exactly one of the two halves |
| AutoRoute.LinuxCommands | internal/autoroute/autoroute_linux.go:54-86 | the routes the commands name, with destinations, gateways and interfaces written out |
| AutoRoute.DarwinCommands | internal/autoroute/autoroute_darwin.go:46-92 | the same on Darwin |
| AutoRoute.WindowsCommands | internal/autoroute/autoroute_windows.go:48-116 | the same on Windows, with the metric |
| AutoRoute.ForeignHalfWins | internal/autoroute/autoroute_windows.go:75-83 | on Windows with a foreign half of metric 0 an address of that half does not go to the tunnel although the commands work |
| AutoRoute.BypassAfterApplyIff | internal/autoroute/autoroute_windows.go:47-61 | a bypassed address goes to the original gateway if and only if there is no rival host route (on Linux and Darwin always) |
| DnsRedirect.IptablesInstalls | internal/autoroute/autoroute_linux.go:263-283 | which rules stand where after the insertions, for every pattern of failures |
| DnsRedirect.IptablesRestoresIff | internal/autoroute/autoroute_linux.go:263-302 | any partial or full run with its cleanup gives both chains back, order included, if and only if each deletion that works is of a rule inserted or absent before, and each that fails of a rule not inserted |
| DnsRedirect.NftRestoresIff | internal/autoroute/autoroute_linux.go:215-259 | any number of commands with the cleanup restores the state if and only if each own table was absent before, or its deletion fails and the commands did not change it |
| DnsRedirect.BackendsAgree | internal/autoroute/autoroute_linux.go:215-283 | both backends rewrite every packet alike in both families: UDP and TCP to port 53 without mark 0x6e74 go to the gateway, and nothing is rewritten twice |
| DnsRedirect.Netfilter.ApplyNft | internal/autoroute/autoroute_linux.go:239-246 | all commands, or those before the first failure and a cleanup |
| DnsRedirect.Netfilter.DeleteNftTables | internal/autoroute/autoroute_linux.go:248-259 | both own tables are gone unless their deletion fails, every other table and both chains are as they were, and there is no error if and only if both were there and could be deleted |
| DnsRedirect.Netfilter.ApplyIPTables | internal/autoroute/autoroute_linux.go:271-283 | IPv4 rules or a cleanup, then best-effort IPv6 rules |
| DnsRedirect.Netfilter.DeleteIPTablesRules | internal/autoroute/autoroute_linux.go:285-302 | four first-match deletions in order, each of which may fail |
| AutoRouteApply.Transaction.Add | internal/autoroute/autoroute_linux.go:56-66 | an undo action is stacked exactly when the command succeeds |
| AutoRouteApply.Transaction.Revert | internal/autoroute/autoroute_linux.go:36-40 | undo actions run from last to first, through the states of the transaction, those that fail without effect |
| AutoRouteApply.ResolveProxyHost | internal/autoroute/autoroute_linux.go:194-205 | the loop keeps the IPv4 addresses of the answer in order |
| AutoRouteApply.Ipv4OfMeaning | internal/autoroute/autoroute_linux.go:199-205 | the list holds exactly the addresses that are IPv4, plain or mapped |
| AutoRouteApply.Ipv4OfInOrder | internal/autoroute/autoroute_linux.go:199-205 | in the order of the answer |
| AutoRouteApply.VisitedIsSafe | internal/autoroute/autoroute_linux.go:36-94 | every state a run goes through is free of loops and, on Linux and Darwin, routes every address as `Routing` and `Routing6` say |
| AutoRouteApply.InstallLinuxRoutes | internal/autoroute/autoroute_linux.go:52-94 | fails if and only if the IPv4 default's command fails or its slot is taken in the initial table, and goes only through states of the transaction |
| AutoRouteApply.AddMismatched6 | internal/autoroute/autoroute_linux.go:81-85 | the unrecorded IPv6 host routes change nothing: /128 of an IPv4 address is no prefix, and `ip` is assumed to reject what is none |
| AutoRouteApply.ApplyLinux | internal/autoroute/autoroute_linux.go:34-127 | fails if and only if no gateway is found or the IPv4 default cannot be added; then the rules are as they were, and the routes if and only if every undo worked; success leaves the planned transaction and the DNS rules of the tool chosen |
| AutoRouteApply.RedirectDns | internal/autoroute/autoroute_linux.go:96-122 | nftables if present, else iptables, and what each leaves behind |
| AutoRouteApply.RevertLinux | internal/autoroute/autoroute_linux.go:36-40 | DNS rules first, then the routes in reverse, through the states of the transaction |
| AutoRouteApply.ApplyThenRevertLinux | internal/stack/gvisor/driver.go:63-69 | a whole run: the routes are back if and only if none leaves a trace, the netfilter state likewise, both judged before the run, and every state in between is free of loops and routes every IPv4 address as it should |
| AutoRouteApply.ApplySplit | internal/autoroute/autoroute_darwin.go:46-100 | which of three ways apply ends on Darwin and Windows, judged by the initial table, and the table each leaves for the routes of `DarwinCommands` and `WindowsCommands` |
| AutoRouteApply.ApplyThenRevertSplit | internal/stack/gvisor/driver.go:63-69 | a whole run on Darwin or Windows gives back the table if and only if no command leaves a trace, judged before the run, and every state in between is free of loops |
| PowerShell.LiteralsOfQuoted | internal/autoroute/powershell.go:9-11 | a quoted value reads back as itself wherever it stands in a script |
| PowerShell.ScriptNamesItsValues | internal/autoroute/powershell.go:9-32 | a script of quote-free texts and quoted values names exactly those values, whatever characters they hold |
| PowerShell.UnicodeWords | internal/autoroute/powershell.go:5-7 | every script is run with both encodings set to Unicode |
| PowerShell.HostWords | internal/autoroute/powershell.go:13-22 | the fixed texts of the host-route script, word by word |
| PowerShell.LocalhostWords | internal/autoroute/powershell.go:24-32 | the fixed texts of the loopback script |
| PowerShell.RemovalWords | internal/autoroute/autoroute_windows.go:253-280 | the fixed texts of the removal scripts |
| PowerShell.HostScriptNamesItsValues | internal/autoroute/powershell.go:13-22 | the host-route script, as it is run, names the default prefix, the next hop, the message, the address with its length and the next hop, for every address and next hop |
| PowerShell.LocalhostScriptNamesItsValues | internal/autoroute/powershell.go:24-32 | the loopback script, as it is run, names its five values, whatever they are |
| PowerShell.RemovalScriptNamesItsValues | internal/autoroute/autoroute_windows.go:253-280 | both removal scripts, as they are run, name the prefix and the next hop, whatever they are |
| Addresses.MaskedContainsSame | internal/config/config.go:238-242 | masking a prefix changes no membership |
| Addresses.MaskedIsFirst | internal/config/config.go:238-242 | masking leaves the first address of the block |
| Addresses.MappedIff | internal/exclude/matcher.go:150 | exactly ::ffff:0:0 to ::ffff:ffff:ffff are unmapped, each to its last four bytes |
| Reserved.CheckReserved | internal/netaddr/reserved.go:40-57 | the early-return scan decides `IsReserved` |
| Reserved.ReservedIsIntervals | internal/netaddr/reserved.go:9-57 | for every address the decision is membership in thirteen IPv4 or eight IPv6 intervals; the broadcast and IPv4-mapped entries change no answer |
| Reserved.IntervalsDisjoint | internal/netaddr/reserved.go:10-27 | those intervals are disjoint |
| Reserved.DocumentationPrefixNotReserved | internal/netaddr/reserved.go:25 | 2001:db8::1 is not reserved, against the comment |
| FlowPolicy.ParsePrefixList | internal/config/config.go:216-245 | fails if and only if a line is bad; otherwise matches exactly what the lines ask for, a bare address matching only itself |
| FlowPolicy.BareLineMatchesIff | internal/config/config.go:232-236 | a bare line matches an unmapped destination if and only if it is that address and not IPv4-mapped |
| FlowPolicy.MappedBytesUnmap | internal/gateway/handler.go:121-128 | the sixteen-byte mapped form and the four-byte form give the same address |
| FlowPolicy.AddressOfBytes | internal/gateway/handler.go:121-128 | four bytes are an IPv4 address, sixteen an IPv6 one, first byte first, anything else none |
| FlowPolicy.GatewayBytes | internal/netaddr/well_known.go:13-31 | the two gateway addresses, byte by byte |
| FlowPolicy.DecisionTable | internal/proxychain/chain.go:47-99 | the outcome of handler and chain for every flow, with the gateway addresses and the dropped ports written out |
| FlowPolicy.GatewayNeverUpstream | internal/gateway/handler.go:81-117 | no flow to a gateway address reaches the proxy on any port or protocol |
| FlowPolicy.MappedSameDecision | internal/gateway/handler.go:119-128 | plain and IPv4-mapped destinations get the same decision |
| DnsRelay.FrameBytes | internal/gateway/dns.go:114-117 | the length, high byte first, and then the message |
| DnsRelay.FirstFrameIff | internal/gateway/dns.go:85-103 | exactly when a stream starts with a message, and which: a length from 1 to 4096, high byte first, and that many bytes |
| DnsRelay.FirstFrameOfFrame | internal/gateway/dns.go:114-117 | decoding undoes encoding, whatever follows |
| DnsRelay.FrameOfFirstFrame | internal/gateway/dns.go:85-103 | a decoded message stands encoded at the front of the stream |
| DnsRelay.Conn.ReadFull | internal/gateway/dns.go:88-103 | the result depends on the bytes only, not on how they are chunked |
| DnsRelay.ReadMessage | internal/gateway/dns.go:85-103 | yields the first frame of the stream, if complete and 1 to 4096 long |
| DnsRelay.WriteMessage | internal/gateway/dns.go:114-121 | writes the frame of the message |
| DnsRelay.HandleTCP | internal/gateway/dns.go:82-148 | upstream gets nothing or the client's first frame, the client nothing or the upstream's first frame, and the client connection is always closed |
| Config.MutableConfig.Merge | internal/config/config.go:98-135 | the receiver becomes the merge of both layers |
| Config.MergeAssociative | internal/config/config.go:98-135 | layers merge in any grouping |
| Config.SecondMergeIsIdle | internal/config/config.go:138-140 | the merge inside `Finalize` changes nothing in the program's pipeline |
| Config.LastLayerWins | cmd/nanotun/main.go:54-99 | per field the last layer that sets it decides; auto-route is the OR of the layers |
| Config.FinalizeMeaning | internal/config/config.go:138-214 | for every file and command line: the first failing check in order, or every field of the result from the last layer that sets it, with the resolver's port and defaults written out |
| Config.FallbacksNeverApply | internal/config/config.go:169-174 | both timeouts are set before the zero-timeout fallbacks are reached |
| Config.NormalizeProcessList | internal/config/config.go:247-266 | the cleaned list is strictly sorted and holds exactly the non-empty normalised names |
| Config.LexLessIff | internal/config/config.go:264 | the order of the list: the first difference decides, a beginning comes before the whole |
| Config.TargetsAreTwiceNormalised | internal/exclude/matcher.go:44-50 | the matcher's targets are the twice-normalised configured names |
| Config.SkippedIffConfigured | internal/exclude/matcher.go:85-90 | under every interleaving a resolved flow is skipped if and only if its twice-normalised name equals a twice-normalised configured name |
| Config.SpellingDoesNotMatter | internal/procname/procname.go:7-13 | blanks around a name and the size of its letters never decide whether it meets the configured one |

## Left out

- gVisor and simple stacks, TUN devices, drivers and shutdown: wiring around libraries.
- The UDP relay path and deadlines as times: a deadline is the end of a stream.
- Parsing of address, prefix, URL, YAML and command-line text, log levels and the default-gateway scanners:
  parsed values are inputs.
- Unicode: text is ASCII, and PowerShell's typographic quotes are not modelled.
- Time zones with changing offset: clock readings carry a date and the time since midnight.
- `size` is an unbounded integer; the sequence counter wraps like the 64-bit `int` it is.
- DNS server settings on macOS and Windows, which the program saves and restores only in part.
- Whether direct dials and marked sockets avoid the tunnel physically.
- Creating the log directory, and other processes writing into it.
- AddMismatched6: that `ip` rejects a text that is no prefix is assumed in `Add6`, not derived.
- nftables chains: a table is the list of its rules, so an own table that exists without its chain counts as unchanged by
  the command that adds the chain.
- A question for a process name is one step, although the program opens the process and then reads its name.
