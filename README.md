# pyltc traffic-control compiler, modelled in Dafny

pyltc turns a network-simulation policy into the `tc` commands that set it up on Linux:
- one traffic-control chain per (device, direction) pair;
- per-protocol classes, filters and `netem` qdiscs for each port branch;
- a redirect of the device's ingress to an `ifb` device whose egress chain is shaped like the upload side.

This project models the part of pyltc that decides which lines it emits and which identifiers they carry. It
then proves what the code promises about those lines and identifiers.

One Dafny module per source file:

| module | file | flavour in the model |
|---|---|---|
| `Counters` | pyltc/util/counter.py | the `Counter` class: `next()` advances a field through a skip loop |
| `LtcNodes` | pyltc/core/ltcnode.py | an `Allocator` class for the run-wide qdisc-major and filter-handle counters; an `LtcNode` class with per-node minor and priority counters; `Filter` as a value |
| `Targets` | pyltc/core/target.py | the `TcTarget` class with an append-only `commands: seq<string>` log; `as_subcommand` as a function with insertion sort by key; file and command marshalling as decisions over that log |
| `Facade` | pyltc/core/facade.py | the `TrafficControl` class with its interface map |
| `Branches` | pyltc/plugins/simnet_util.py, pyltc/plugins/util.py | hand-written matchers for the branch grammar; `BranchParser` as a class holding the parsed branch |
| `SimNet` | pyltc/plugins/simnet/core.py | the tree compiler as methods that drive `TcTarget`s, each proved equal to a pure recipe of lines |
| `Rates` | pyltc/util/rates.py | the unit table, `split_rate` and `convert2bps` |
| `CmdLine` | pyltc/util/cmdline.py | the quote-aware tokenizer, the failure message, and `execute`'s raise-or-return decision |
| `ConfParser` | pyltc/util/confparser.py | profile text to per-section argument lists, in a `ConfigParser` class |
| `NetDevices` | pyltc/core/netdevice.py | name splitting and numbering over a device list given as a parameter; `NetDevice` objects with two chains; a memo registry |

Two helper modules support these. `Wrappers` holds `Option` and `Result`. `Text` holds decimal and hex
rendering and parsing, whitespace and separator splitting, joining and substring search.

Identifiers are unbounded naturals. The source's integers are Python integers, so no width applies.

Strings are `seq<char>`. The matchers treat `\d` as the ASCII digits, and `$` also accepts one trailing `"\n"`,
as Python's `re` does. Whitespace, for `str.split()`, `str.rstrip()` and the section tokens of the profile
parser, is the set Python's `str.isspace()` accepts, Unicode separators included.

Several behaviours of the code are modelled as written, where they may surprise a reader:
- `Counter(skip=0)` skips nothing, because the initializer tests the argument's truthiness.
- A `StopIteration` from `next()` leaves the count advanced to `end`.
- `as_subcommand` with parameters that are all `None` leaves a trailing space after the name.
- A `TcFileTarget` leaves its file name unset after construction. Its initializer resets the name after `configure()` has set it, so `marshal()` writes nothing until `configure()` is called again.
- `configure()` sets `verbose` before it asserts that no other key was given.
- `add_qdisc` with a qdisc as parent takes a major before it fails.
- A filter without a priority takes the parent's next priority before an uninitialised handle counter fails.
- Parsing empty profile text fails with `IndexError`.
- A single unnumbered device of a module makes `maximal_existing_name` return `<module>None`.
- A memo entry under a resolved device name is replaced by a new object when the bare module name is looked up.

## Model

| member | source | states |
|---|---|---|
| Counters.SkipValues | pyltc/util/counter.py:11-18 | an int skips exactly itself; a sequence or set skips exactly its members |
| Counters.InitialSkip | pyltc/util/counter.py:43-49 | a missing or falsy skip argument (`0`, an empty sequence) starts with nothing skipped; a truthy one starts with its values |
| Counters.Render | pyltc/util/counter.py:65-70 | the bare count is returned exactly when no non-empty format was given, and it is the count itself |
| Counters.RenderDecimalRecoversCount | pyltc/util/counter.py:67-69 | a `{}` format gives prefix, the decimal count and suffix, and the middle parses back to the count |
| Counters.RenderHexRecoversCount | pyltc/util/counter.py:67-69 | a `{:x}` format gives prefix, the lowercase hex count and suffix, and the middle parses back to the count |
| Counters.FirstFree | pyltc/util/counter.py:78-79 | the skip loop ends on a value outside the skip set |
| Counters.FirstFreeIsFirst | pyltc/util/counter.py:78-79 | that value is the first of c, c+incr, c+2·incr, ... outside the skip set; every earlier one is skipped |
| Counters.FirstFreeOfEmpty | pyltc/util/counter.py:78-79 | with nothing to skip the loop does not move |
| Counters.NextTick | pyltc/util/counter.py:72-80 | one step stops exactly when current+incr equals `end`; a yielded value is never skipped; the step loops forever exactly when incr is 0, current is not `end` and current is skipped |
| Counters.Run | pyltc/util/counter.py:72-80 | n calls of `next()` give at most n results, and exactly n when there is no end and nothing to skip |
| Counters.RunCountsFromStart | pyltc/util/counter.py:30-80 | a counter with no end and no skip yields start, start+incr, start+2·incr, ... (0, 1, 2, ... by default) |
| Counters.RunStopsAtEnd | pyltc/util/counter.py:72-77 | counting by 1 towards `end` yields every value before `end` and then stops at `end` (`end=4` gives 0..3, then StopIteration) |
| Counters.Counter.constructor | pyltc/util/counter.py:30-50 | stores start, incr, end and format, takes the initial skip set, and sets current to start − incr |
| Counters.Counter.Skip | pyltc/util/counter.py:52-63 | str, bytes or float raise TypeError and leave the skip set unchanged; an int or sequence is added to the set; the count does not move |
| Counters.Counter.Value | pyltc/util/counter.py:65-70 | reads the current count, rendered by the format, and changes nothing |
| Counters.Counter.Next | pyltc/util/counter.py:72-80 | advances current as one `NextTick` step; raises StopIteration at `end`, otherwise returns the rendered new current, which is never a skipped value |
| LtcNodes.IdText | pyltc/core/ltcnode.py:52-54 | the `major:minor` node id text contains the colon |
| LtcNodes.IdTextRoundTrip | pyltc/core/ltcnode.py:52-54 | the node id text parses back to its (major, minor) |
| LtcNodes.IdTextInjective | pyltc/core/ltcnode.py:52-54 | two nodes with the same id text have the same (major, minor) |
| LtcNodes.ExplicitOrNext | pyltc/core/ltcnode.py:132-133 | a truthy explicit prio or handle is used and the counter is left alone; `None` or 0 takes the counter's next value and advances it |
| LtcNodes.Allocator.constructor | pyltc/core/ltcnode.py:60-64 | before any `init()` neither run-wide counter exists |
| LtcNodes.Allocator.InitQdisc | pyltc/core/ltcnode.py:62-64 | `Qdisc.init()` restarts the major counter, so the next major is 1, and leaves the handle counter alone |
| LtcNodes.Allocator.InitFilter | pyltc/core/ltcnode.py:115-117 | `Filter.init()` restarts the handle counter, so the next handle is 1, and leaves the major counter alone |
| LtcNodes.Allocator.NextMajor | pyltc/core/ltcnode.py:60-71 | fails before `Qdisc.init()`; otherwise the n-th major since init is n, and all majors since init are distinct |
| LtcNodes.Allocator.NextHandle | pyltc/core/ltcnode.py:113-133 | fails before `Filter.init()`; otherwise the n-th handle since init is n, and all handles since init are distinct |
| LtcNodes.LtcNode.constructor | pyltc/core/ltcnode.py:22-34 | a node keeps its name, parent, params and (major, minor), with its own priority and minor counters not yet used |
| LtcNodes.LtcNode.FilterPrio | pyltc/core/ltcnode.py:34-38 | reading `filter_prio` gives 1, 2, 3, ... per node and advances only that node's priority counter |
| LtcNodes.LtcNode.NewClassId | pyltc/core/ltcnode.py:73-81 | a qdisc's k-th class id is (its major, k), counted separately per qdisc |
| LtcNodes.NewQdisc | pyltc/core/ltcnode.py:66-88 | fails before `Qdisc.init()`; otherwise the n-th qdisc since init gets id (n, 0) whatever its parent, with fresh minor and priority counters |
| LtcNodes.NewClass | pyltc/core/ltcnode.py:95-100 | a class under a qdisc gets (qdisc major, next minor); a class as parent has no `new_class_id` and fails with nothing changed |
| LtcNodes.Filter.HandleText | pyltc/core/ltcnode.py:155-157 | the handle text starts with `0x` |
| LtcNodes.HandleTextRoundTrip | pyltc/core/ltcnode.py:155-157 | the hex digits after `0x` read back as the handle |
| LtcNodes.NewFilter | pyltc/core/ltcnode.py:119-153 | prio is the explicit truthy one or the parent's next priority; handle is the explicit truthy one or the next run-wide handle, which fails before `Filter.init()` after the priority was already taken; `flowid` is the flow node's id |
| Targets.SortByKey | pyltc/core/target.py:24 | the parameters after sorting are a permutation of the given ones |
| Targets.SortByKeySorted | pyltc/core/target.py:24 | and they are in key order |
| Targets.KeyValues | pyltc/core/target.py:25 | at most one `key value` text per parameter |
| Targets.KeyValuesMembers | pyltc/core/target.py:25 | the texts are exactly those of the parameters whose value is not `None` |
| Targets.KeyValuesOfNone | pyltc/core/target.py:25 | parameters whose values are all `None` contribute nothing |
| Targets.AsSubcommandTokens | pyltc/core/target.py:15-26 | `as_subcommand` splits into the node name followed by key and value of every non-`None` parameter, in key order |
| Targets.AsSubcommandAllNone | pyltc/core/target.py:22-26 | non-empty parameters that are all `None` leave the name followed by one space |
| Targets.ClearLineTokens | pyltc/core/target.py:37-39 | the clear line is `tc qdisc del dev <iface> <chain>` |
| Targets.QdiscLineTokens | pyltc/core/target.py:53 | the qdisc line is `tc qdisc add dev <iface> <parent> handle <handle> <subcommand>` |
| Targets.ClassLineTokens | pyltc/core/target.py:68 | the class line is `tc class add dev <iface> parent <qdisc> classid <class> <subcommand>` |
| Targets.FilterLineTokens | pyltc/core/target.py:94-95 | the filter line is `tc filter add dev <iface> parent <id> protocol ip prio <prio> <name> match <cond> flowid <flowid>` |
| Targets.RedirectLinesTokens | pyltc/core/target.py:100-102 | the two redirect lines: the `ffff:0 ingress` qdisc, then the u32 mirred redirect to the ifb device |
| Targets.TcTarget.constructor | pyltc/core/target.py:28-35 | the chain is `ingress` for the ingress direction and `root` otherwise; the log is empty; verbose is False; the file name is unset |
| Targets.TcTarget.Configure | pyltc/core/target.py:41-43 | `verbose` defaults to False; the file target takes a truthy `filename` or `<iface>-<direction>.tc`; any other key fails the assertion after verbose is set; the log is unchanged |
| Targets.TcTarget.Clear | pyltc/core/target.py:37-39 | appends exactly the clear line for this chain |
| Targets.TcTarget.AddQdisc | pyltc/core/target.py:45-55 | fails before `Qdisc.init()`; a qdisc as parent has no `classid` and fails after the major was taken; otherwise appends one qdisc line with `parent <classid>` or the chain name and handle `M:0`, M being the next major |
| Targets.TcTarget.SetRootQdisc | pyltc/core/target.py:57-58 | `add_qdisc` with no parent: one line on the chain name with the next major |
| Targets.TcTarget.AddClass | pyltc/core/target.py:60-70 | appends one class line with the parent's handle and classid (parent major, next minor); a class as parent fails with nothing changed |
| Targets.TcTarget.AddFilter | pyltc/core/target.py:72-97 | appends one filter line with the explicit or next priority, the parent's id and the flow node's id; the handle taken does not appear in the line |
| Targets.TcTarget.SetRedirect | pyltc/core/target.py:99-108 | appends exactly the two redirect lines, in order |
| Targets.TcTarget.MarshalPrint | pyltc/core/target.py:110-112 | prints the log, line by line, in order |
| Targets.TcTarget.MarshalCommands | pyltc/core/target.py:147-156 | runs the log in order, as `ExecuteLines` states |
| Targets.FileMarshal | pyltc/core/target.py:131-137 | echoes exactly when verbose is truthy; writes exactly when the file name is truthy, to that file |
| Targets.FileMarshalLines | pyltc/core/target.py:131-137 | the written text ends in a newline, and splitting the rest on newlines gives back the log |
| Targets.FileMarshalUnconfigured | pyltc/core/target.py:119-137 | with the file name left unset, nothing is written |
| Targets.LineResult | pyltc/core/target.py:148-150 | a line whose quotes do not balance is refused by the tokenizer; otherwise its argv is the tokenized line, and it reports a failure exactly when the return code is nonzero and errors are not ignored |
| Targets.ExecuteLine | pyltc/core/target.py:148-150 | one loop step computes that line's result |
| Targets.LineResults | pyltc/core/target.py:148 | one result per line of the log |
| Targets.LineResultsAt | pyltc/core/target.py:148-150 | the i-th result is that of line i with its index |
| Targets.RunStepsPass | pyltc/core/target.py:148-150 | a line that succeeds is started and the loop goes on |
| Targets.RunStepsStop | pyltc/core/target.py:148-156 | the loop ends after the last line, at a refused line (the error propagates) or at a failing line (its message is printed) |
| Targets.ExecuteLines | pyltc/core/target.py:147-156 | the marshal loop starts the argv of each line in order until the first refusal or failure |
| Targets.RunStepsArgv | pyltc/core/target.py:148-150 | the started argument vectors are the argv of consecutive lines from the first |
| Targets.RunStepsAllRan | pyltc/core/target.py:152-156 | every line runs exactly when every line succeeds, and then one argv per line is started |
| Targets.RunStepsReported | pyltc/core/target.py:153-156 | a printed failure comes from the last started line, and every line before it succeeded |
| Targets.RunStepsPropagated | pyltc/core/target.py:153-156 | a propagated error comes from the line after the started ones, and every line before it succeeded |
| Targets.FirstDeleteIgnored | pyltc/core/target.py:149 | a first line containing ` del` never fails, whatever its return code |
| Targets.LaterFailureReported | pyltc/core/target.py:149-150 | any later line with a nonzero return code fails with the `CommandFailed` message |
| Facade.TrafficControl.constructor | pyltc/core/facade.py:10-13 | before `init()` there is no interface map |
| Facade.TrafficControl.Init | pyltc/core/facade.py:15-18 | the interface map is empty and both run-wide counters restart, so the next qdisc is `1:0` and the next filter handle 1 |
| Facade.TrafficControl.GetIface | pyltc/core/facade.py:20-26 | fails before `init()`; a known name returns its object with the map unchanged; a new name adds exactly one entry, a new device of that name |
| Facade.GetIfaceTwice | pyltc/core/facade.py:20-26 | two lookups of one name return the same object; only the name is added, and every earlier entry is unchanged |
| Branches.MatchTail | pyltc/plugins/simnet_util.py:11 | the optional `:rate` (digits, then three or four lowercase letters) and `:loss` (one to three digits, then `%`) groups are exactly the remaining fields |
| Branches.MatchFields | pyltc/plugins/simnet_util.py:11 | a match is a branch in the grammar whose fields are exactly the given `:`-separated fields |
| Branches.MatchBranch | pyltc/plugins/simnet_util.py:11 | a match is a branch in the grammar whose text is the input, without at most one trailing newline |
| Branches.MatchFieldsOfFields | pyltc/plugins/simnet_util.py:11 | the fields of every branch in the grammar match back to that branch |
| Branches.MatchBranchOfRender | pyltc/plugins/simnet_util.py:11 | the text of every branch in the grammar, with or without one trailing newline, matches back to that branch |
| Branches.Checked | pyltc/plugins/util.py:15-20 | a match is kept exactly when it has a porttype or the range `all`, and a rate or a loss |
| Branches.ParseBranch | pyltc/plugins/util.py:12-28 | a parsed branch has only `sport`/`dport` as porttype, passes both checks, and its text is the input; the only errors are the three ParsingErrors |
| Branches.ParseBranchOfRender | pyltc/plugins/util.py:12-28 | every acceptable branch parses back from its text, with its fields verbatim (`tcp:all:14%` gives no porttype, range `all`, no rate, loss `14%`) |
| Branches.ParseBranchErrors | pyltc/plugins/util.py:17-20 | a missing porttype with a range other than `all` fails as such; otherwise a missing rate and loss fails as such |
| Branches.DeducePortType | pyltc/plugins/simnet_util.py:41-61 | no porttype stays none; every alias resolves to `sport` or `dport` |
| Branches.DeducePortTypeAliases | pyltc/plugins/simnet_util.py:41-58 | `lport` is `sport` on upload and `dport` otherwise; `rport` is always the other one; `sport` and `dport` pass through |
| Branches.ParseAliased | pyltc/plugins/simnet_util.py:25-39 | a parsed branch passes both checks with a resolved porttype; the only errors are the three ParsingErrors |
| Branches.ParseAliasedOfRender | pyltc/plugins/simnet_util.py:25-58 | every acceptable branch written with aliases parses back with its porttype resolved for the direction |
| Branches.ParseAliasedAgrees | pyltc/plugins/simnet_util.py:25-39 | without `lport`/`rport`, `BranchParser` and `parse_branch` give the same result |
| Branches.DictOf | pyltc/plugins/simnet_util.py:33-39 | the record has exactly the keys protocol, porttype, range, rate and loss |
| Branches.DictOfInjective | pyltc/plugins/simnet_util.py:33-39 | the record determines the branch |
| Branches.ParseOne | pyltc/plugins/simnet_util.py:16-23 | unless `dontcare`, anything but exactly one of download and upload being True is a TypeError; otherwise the parse resolves aliases as for upload exactly when upload is True |
| Branches.BranchParser.constructor | pyltc/plugins/simnet_util.py:20-22 | a parser starts with no branch and keeps its direction flags |
| Branches.BranchParser.DoParse | pyltc/plugins/simnet_util.py:25-39 | on success the stored branch is the parsed one; on failure it is left as it was |
| Branches.BranchParser.AsDict | pyltc/plugins/simnet_util.py:63-67 | the record holds the stored branch's five fields |
| Branches.NewBranchParser | pyltc/plugins/simnet_util.py:16-23 | construction fails with the direction or parse error, or yields a new parser holding the parsed branch |
| SimNet.HtbRateSubcommand | pyltc/plugins/simnet/core.py:29-30 | an htb with one rate renders as `htb rate <rate>` |
| SimNet.MapUntilError | pyltc/plugins/simnet/core.py:45-50 | success holds one result per string, in order; failure is the error of the first string that fails |
| SimNet.ParseListAcceptable | pyltc/plugins/simnet/core.py:45-50 | every branch of a parsed list passes both checks and has a resolved porttype |
| SimNet.ParseBranchList | pyltc/plugins/simnet/core.py:45-50 | the loop parses the list as `ParseList` does |
| SimNet.AddClassSplit | pyltc/plugins/simnet/core.py:25-30 | appends the root htb `M:0` on the chain, then the tcp class `M:1` and the udp class `M:2` with their rates, M being the next major |
| SimNet.AddProtocolFilters | pyltc/plugins/simnet/core.py:32-33 | appends the u32 `ip protocol 6 0xff` filter at priority 1 to the tcp class, then `ip protocol 17 0xff` at priority 2 to the udp class; takes two handles |
| SimNet.AddHooks | pyltc/plugins/simnet/core.py:35-36 | appends the htb `M+1:0` under the tcp class and `M+2:0` under the udp class, and returns them |
| SimNet.BuildBasics | pyltc/plugins/simnet/core.py:24-38 | appends exactly those seven lines in that order, a falsy all-rate becoming `15gbit`; takes three majors and two handles; returns the two hook qdiscs |
| SimNet.RangeKinds | pyltc/plugins/simnet/core.py:78-81 | a range without `-` is a single port; one with `-` is a start-end span |
| SimNet.PortFilter | pyltc/plugins/simnet/core.py:78-84 | the filter is `u32` exactly for a single port and `basic` exactly for a span |
| SimNet.PortFilterSpan | pyltc/plugins/simnet/core.py:59-84 | `S-E` gives the quoted basic condition at offset 0 for `sport` and 2 for `dport`, with bounds `gt S-1` and `lt E+1` |
| SimNet.NetemSubcommand | pyltc/plugins/simnet/core.py:87-88 | a loss qdisc renders as `netem limit 1000000000 loss <loss>` |
| SimNet.TreeShapesBranches | pyltc/plugins/simnet/core.py:55-57 | every shaped branch is a branch of the list, and none has the range `all` |
| SimNet.TreeShapesCounters | pyltc/plugins/simnet/core.py:53-88 | the tree takes one filter handle per shaped branch and one major per loss qdisc |
| SimNet.TreeShapesAllOnly | pyltc/plugins/simnet/core.py:56-57 | a list of `all` branches emits nothing and takes no identifier |
| SimNet.BuildSinglePortFilter | pyltc/plugins/simnet/core.py:41-42 | appends one u32 filter `ip <porttype> <port> 0xffff` at the parent's next priority |
| SimNet.AddPortFilter | pyltc/plugins/simnet/core.py:78-84 | appends one filter line on the hook, u32 for a port or basic for a span, pointing to the branch's class |
| SimNet.ShapeBranch | pyltc/plugins/simnet/core.py:73-88 | appends, in order, the htb class (rate or `15gbit`) under the hook, the port filter to it, and the netem qdisc under it only when a loss is given |
| SimNet.EmitBranch | pyltc/plugins/simnet/core.py:55-88 | one branch emits its `BranchShape` lines on the hook of its protocol, or nothing for range `all` |
| SimNet.EmitBranches | pyltc/plugins/simnet/core.py:55-88 | the loop emits the lines of `TreeShapes` over the branches |
| SimNet.BuildTree | pyltc/plugins/simnet/core.py:53-88 | a list that does not parse fails with nothing appended; otherwise the tree of the parsed branches is appended |
| SimNet.Scan | pyltc/plugins/simnet/core.py:91-109 | the scan fails only on a malformed branch or a second `all` of one protocol |
| SimNet.ScanBadBranch | pyltc/plugins/simnet/core.py:99 | a malformed-branch error is the parse error of one of the strings, parsed without a direction |
| SimNet.ScanString | pyltc/plugins/simnet/core.py:99-108 | one loop step is one `ScanStep` |
| SimNet.DetermineAllRates | pyltc/plugins/simnet/core.py:91-109 | the loop scans the upload list, then the download list, skipping a missing list, as `AllRatesOf` states |
| SimNet.ScanSnoc | pyltc/plugins/simnet/core.py:94-108 | scanning one more string is one more step after the scan so far |
| SimNet.LastAllRaised | pyltc/plugins/simnet/core.py:100-108 | a protocol's last `all` has a truthy rate exactly when some `all` of that protocol has one |
| SimNet.OneRatedAllSnoc | pyltc/plugins/simnet/core.py:100-108 | a new `all` is allowed exactly when no earlier `all` of its protocol had a truthy rate |
| SimNet.FlagStepReference | pyltc/plugins/simnet/core.py:100-108 | one flag step succeeds exactly when the reference rule holds, and then records each protocol's last `all` |
| SimNet.ScanReference | pyltc/plugins/simnet/core.py:91-109 | the scan succeeds exactly when no `all` follows an `all` with a truthy rate for the same protocol; it returns each protocol's last `all` rate (False when there is none, None when it has no rate) |
| SimNet.RecipeCounters | pyltc/plugins/simnet/core.py:244-246 | a direction's recipe opens with the root htb on the next major; it takes three majors plus one per loss qdisc, and two handles plus one per shaped branch |
| SimNet.BuildChain | pyltc/plugins/simnet/core.py:243-246 | the all-rates scan, `build_basics` and `build_tree` on one chain append `ChainWork`'s lines and advance the counters as it says |
| SimNet.Present | pyltc/plugins/simnet/core.py:219 | keeps at most the given fields |
| SimNet.PresentMembers | pyltc/plugins/simnet/core.py:219 | keeps every given field and nothing else |
| SimNet.SetupTokenRender | pyltc/plugins/simnet/core.py:219-220 | the token `setup` joins from a branch's fields is that branch's text |
| SimNet.SetupParsesBack | pyltc/plugins/simnet/core.py:199-222 | a token added by `setup` parses back to its branch, with aliases resolved for the direction |
| SimNet.EgressMajors | pyltc/plugins/simnet/core.py:238-246 | the egress half with a non-empty upload list takes three majors plus one per loss qdisc of the upload tree |
| SimNet.IfbRootNext | pyltc/plugins/simnet/core.py:251-261 | the ifb chain's first line after the optional clear is the root htb on the next major |
| SimNet.IfbRootAfterEgress | pyltc/plugins/simnet/core.py:238-261 | the ifb root takes the major after the last one of the egress tree, since the counters are shared (after a five-qdisc egress tree it is `6:0`) |
| SimNet.MarshalEgress | pyltc/plugins/simnet/core.py:238-249 | the interface's egress chain gets the optional clear and the upload recipe, and is handed its whole log |
| SimNet.MarshalIngress | pyltc/plugins/simnet/core.py:251-266 | the ingress chain gets the optional clear and the redirect, the ifb chain the optional clear and the download recipe; they are handed their logs in that order |
| SimNet.MarshalDevices | pyltc/plugins/simnet/core.py:238-266 | the egress half, then the ingress half, as `MarshalOutcome` states, with the ifb numbers following the egress ones |
| SimNet.ResolveDevices | pyltc/plugins/simnet/core.py:228-235 | the interface is the memoized object or a new one; the ifb name defaults to `ifb` when there is a download list and no ifb name; no ifb name gives the null device |
| SimNet.SimNetPlugin.constructor | pyltc/plugins/simnet/core.py:168-184 | the defaults: no clear, not verbose, interface `lo`, no ifb device, two empty lists |
| SimNet.SimNetPlugin.FromArgs | pyltc/plugins/simnet/core.py:168-174 | parsed arguments are kept as given |
| SimNet.SimNetPlugin.Configure | pyltc/plugins/simnet/core.py:186-197 | each given option replaces the old one; an omitted option keeps it |
| SimNet.SimNetPlugin.Setup | pyltc/plugins/simnet/core.py:199-222 | anything but exactly one direction fails the assertion; otherwise the non-`None` fields joined by `:` are appended to that direction's list, and nothing else changes |
| SimNet.SimNetPlugin.Marshal | pyltc/plugins/simnet/core.py:224-266 | before `init()` the interface lookup fails; otherwise the chains are marshalled egress first, then ingress, then ifb, handed `MarshalOutcome`'s lines, and the shared counters advance accordingly; each chain's work starts from the log it had on entry, or from an empty log on a device created by this call (for the ifb chain, when the ifb device is not the interface) |
| Rates.MatchRate | pyltc/util/rates.py:69-70 | a match is digits followed by lowercase letters, with at most one trailing newline |
| Rates.MatchRateOf | pyltc/util/rates.py:69-70 | every such text matches, split at the first letter |
| Rates.SplitRate | pyltc/util/rates.py:65-77 | the only error is `ValueError`; the units are lowercase, and are in the table when validating |
| Rates.SplitRateOfText | pyltc/util/rates.py:65-77 | `n` followed by lowercase units splits into (n, units), unless validation refuses units outside the table |
| Rates.SplitRateMalformed | pyltc/util/rates.py:70-72 | text that does not match is a `ValueError` |
| Rates.Convert2Bps | pyltc/util/rates.py:80-84 | with validation, every failure is a `ValueError` |
| Rates.Convert2BpsOfText | pyltc/util/rates.py:80-84 | `n` followed by a unit of the table is n times that unit's factor |
| Rates.Convert2BpsUnknownUnits | pyltc/util/rates.py:75-84 | an unknown unit is a `ValueError` with validation and a failed table lookup without |
| Rates.KoeffBase | pyltc/util/rates.py:44-45 | `bit` is 1 and `bps` is 8 |
| Rates.KoeffSI | pyltc/util/rates.py:46-61 | `kbit`, `mbit`, `gbit`, `tbit` are 1000 to the powers 1 to 4, and each `*bps` is 8 times its `*bit` |
| Rates.KoeffIEC | pyltc/util/rates.py:46-61 | `kibit`, `mibit`, `gibit`, `tibit` are 1024 to the powers 1 to 4, and each `*bps` is 8 times its `*bit` |
| CmdLine.SplitQuoted | pyltc/util/cmdline.py:88 | the text is left, quote, middle, quote, right; left and middle hold no quote; right holds two quotes fewer |
| CmdLine.SplitQuotedOf | pyltc/util/cmdline.py:88 | splitting text put together that way gives its three parts back |
| CmdLine.ConstructCmdList | pyltc/util/cmdline.py:78-90 | fails exactly when the number of `"` is odd; without quotes it is the whitespace split |
| CmdLine.ConstructQuoted | pyltc/util/cmdline.py:88-90 | a quoted segment becomes one element, after the whitespace-split text before it and before the tokens of the rest |
| CmdLine.ConstructCommandText | pyltc/util/cmdline.py:78-90 | any sequence of bare words and quoted phrases, written with single spaces, tokenizes back to the words and the unquoted phrases |
| CmdLine.Repr | pyltc/util/cmdline.py:54 | `{!r}` of a string is enclosed in one kind of quote |
| CmdLine.ReprPlain | pyltc/util/cmdline.py:54 | printable ASCII text with no single quote and no backslash is enclosed in single quotes, unchanged |
| CmdLine.UnescapeChar | pyltc/util/cmdline.py:54 | each character's escape, `\xhh` ones included, reads back as that character whatever follows it |
| CmdLine.UnescapeEscape | pyltc/util/cmdline.py:54 | inside either quote, the escaped text reads back to the original text |
| CmdLine.ReprReadsBack | pyltc/util/cmdline.py:54 | the quotes are double exactly when the text holds a single quote and no double quote, and what lies between them reads back to the text |
| CmdLine.FailureMessage | pyltc/util/cmdline.py:48-55 | the message of a nonzero return code ends in ` (rc=N)` |
| CmdLine.CodeAtEnd | pyltc/util/cmdline.py:55 | the return code reads back from the end of the message |
| CmdLine.FailureMessageBlankOutput | pyltc/util/cmdline.py:51-55 | blank output gives `Command failed: <repr of the command> (rc=N)` |
| CmdLine.FailureMessageStderr | pyltc/util/cmdline.py:51-55 | with no stdout, non-blank stderr gives stderr right-stripped, then ` (rc=N)` |
| CmdLine.FailureMessageOfFalse | pyltc/util/cmdline.py:51-55 | example: `/bin/false` with return code 1 and no output gives `Command failed: '/bin/false' (rc=1)` |
| CmdLine.CommandLine.constructor | pyltc/util/cmdline.py:67-72 | keeps the command and `ignore_errors`, with no result yet |
| CmdLine.CommandLine.Execute | pyltc/util/cmdline.py:92-106 | unbalanced quotes raise before anything runs; otherwise the argv is the tokenized command, the results are stored, and `CommandFailed` with the failure message is raised exactly when the return code is nonzero and errors are not ignored |
| ConfParser.SourceOf | pyltc/util/confparser.py:43-54 | a str is a file name, an object with `write` a stream, anything else a TypeError |
| ConfParser.DropDashes | pyltc/util/confparser.py:71 | no bare `--` token remains |
| ConfParser.NonEmpty | pyltc/util/confparser.py:67 | no empty piece remains |
| ConfParser.ConfigParser.constructor | pyltc/util/confparser.py:43-48 | keeps the input with no sections yet |
| ConfParser.ConfigParser.Opened | pyltc/util/confparser.py:56-65 | a non-empty file name gives the file's text; a stream gives its text unless an earlier parse closed it; no input is IllegalState |
| ConfParser.ConfigParser.Parse | pyltc/util/confparser.py:63-74 | the sections become what `ParseContent` makes of the text; on failure they are left as they were; a stream is closed after reading |
| ConfParser.ConfigParser.Section | pyltc/util/confparser.py:76-79 | IllegalState before a successful parse or when no section was found; KeyError for an unknown name; otherwise that section's arguments |
| ConfParser.NewConfigParser | pyltc/util/confparser.py:43-54 | fails exactly for an input that is neither a str nor writable |
| ConfParser.ParseEmpty | pyltc/util/confparser.py:66-72 | empty content has one section without tokens, and fails with IndexError |
| ConfParser.FillSectionsLast | pyltc/util/confparser.py:70-72 | a later section with the same key overwrites the earlier one |
| ConfParser.FillSectionsFails | pyltc/util/confparser.py:70-72 | the loop fails exactly when some raw section holds no token |
| ConfParser.LineArgsOption | pyltc/util/confparser.py:68-72 | a line starting with a token gives `--token`, then the rest of its tokens |
| ConfParser.LineArgsContinuation | pyltc/util/confparser.py:68-72 | a blank line or one starting with whitespace gives its tokens with no prefix |
| ConfParser.HeaderKey | pyltc/util/confparser.py:72 | the header `name]` gives the key `name` |
| ConfParser.RawSectionsOfProfile | pyltc/util/confparser.py:66-67 | a profile of non-empty sections splits back into those sections |
| ConfParser.SectionTokensOfLines | pyltc/util/confparser.py:68-71 | a section's tokens are its header's, then each line's arguments in order |
| ConfParser.ParseSingle | pyltc/util/confparser.py:63-74 | a one-section profile parses to that one key |
| ConfParser.HeaderLine | pyltc/util/confparser.py:68-72 | a `[name]` section's key is `name` and its arguments are those of its lines |
| ConfParser.ParseOneSection | pyltc/util/confparser.py:63-74 | `[name]` followed by lines parses to the single section `name` holding the lines' arguments |
| NetDevices.SplitName | pyltc/core/netdevice.py:43-47 | the module part is the name with its trailing digits stripped; the number is absent exactly when there were none |
| NetDevices.SplitNameOf | pyltc/core/netdevice.py:43-47 | a module not ending in a digit, followed by a number, splits back into both |
| NetDevices.SplitNameBare | pyltc/core/netdevice.py:43-47 | a name without trailing digits has no number |
| NetDevices.SplitNameCanonical | pyltc/core/netdevice.py:43-47 | re-writing the module and number of a numbered name splits the same way |
| NetDevices.SplitNameExamples | pyltc/core/netdevice.py:43-47 | example: `dummy0`, `ifb883` and `dummy` split into (`dummy`, 0), (`ifb`, 883) and (`dummy`, none) |
| NetDevices.AllIfaceNames | pyltc/core/netdevice.py:20-22 | the selected names are exactly the existing names that contain the filter |
| NetDevices.AllIfaceNamesUnfiltered | pyltc/core/netdevice.py:20-22 | an empty filter keeps every name |
| NetDevices.MaxNumber | pyltc/core/netdevice.py:60-61 | the highest number among numbered names, and one of them has it |
| NetDevices.LastSortedNumber | pyltc/core/netdevice.py:60-61 | the last number after sorting by number: the highest one; sorting fails when two or more names include an unnumbered one; a single unnumbered name gives none |
| NetDevices.MinimalNonexistingName | pyltc/core/netdevice.py:49-62 | the only failure is an unorderable sort |
| NetDevices.MaximalExistingName | pyltc/core/netdevice.py:64-77 | the only failure is an unorderable sort |
| NetDevices.MinimalNonexistingFresh | pyltc/core/netdevice.py:49-62 | the name chosen does not exist yet |
| NetDevices.SelectionNoMatch | pyltc/core/netdevice.py:49-77 | with no matching device, both choose `<module>0` |
| NetDevices.SelectionNumbered | pyltc/core/netdevice.py:49-77 | with numbered matches, the minimal name is one past the highest number and the maximal name has the highest number |
| NetDevices.SelectionUnorderable | pyltc/core/netdevice.py:60-75 | two or more matches including an unnumbered one make both fail |
| NetDevices.SelectionSingleBare | pyltc/core/netdevice.py:60-77 | a single unnumbered match makes the minimal name fail and the maximal name `<module>None` |
| NetDevices.MaximalExistingExists | pyltc/core/netdevice.py:64-77 | when every match is the module followed by a number, the maximal name is an existing device |
| NetDevices.NetDevice.constructor | pyltc/core/netdevice.py:173-180 | a device gets two new empty chains for its name: egress on `root`, ingress on `ingress` |
| NetDevices.Resolve | pyltc/core/netdevice.py:149-165 | a device to create is of a loadable module (`ifb`, `dummy`) and does not exist; a refused name does not exist |
| NetDevices.ResolveNumbered | pyltc/core/netdevice.py:156-164 | a missing loadable-module name with a number is created under that name |
| NetDevices.ResolveModule | pyltc/core/netdevice.py:161-162 | a bare missing loadable-module name is created under its maximal existing name |
| NetDevices.ResolveForeign | pyltc/core/netdevice.py:156-159 | a missing name of any other module is NetDeviceNotFound |
| NetDevices.TwoDevicesMaximal | pyltc/core/netdevice.py:64-77 | example: among `ifb0`, `eth0`, `ifb1` the maximal ifb name is `ifb1` |
| NetDevices.ResolveModuleTwoDevices | pyltc/core/netdevice.py:156-171 | example: `ifb` then resolves to `ifb1` |
| NetDevices.NoDeviceMaximal | pyltc/core/netdevice.py:72-74 | example: with no ifb device the maximal ifb name is `ifb0` |
| NetDevices.ResolveModuleNoDevice | pyltc/core/netdevice.py:161-162 | example: `ifb` then resolves to `ifb0` |
| NetDevices.DeviceRegistry.constructor | pyltc/core/netdevice.py:127 | before `init()` there is no memo |
| NetDevices.DeviceRegistry.Init | pyltc/core/netdevice.py:129-131 | `init()` empties the memo |
| NetDevices.DeviceRegistry.GetDevice | pyltc/core/netdevice.py:133-171 | no name gives the null device; a memoized name its object; an existing device is wrapped under its name; a missing one is refused or created under the resolved name; each new object is memoized under the name it was given, and nothing else changes |

## Left out

- Processes, files, the console and the kernel are not modelled. This covers `Popen`, `print`, `open`, `os.listdir`, `modprobe`, `ip link` and the sysfs reads.
  - The return code, stdout and stderr of each command are parameters.
  - The file text a `ConfigParser` reads is a parameter.
  - The existing device names are a parameter.
  - What gets printed or written is returned as a value.
- `ifbdev.up()` in `marshal` and the device creation it relies on (`load_module`, `ensure_device`) are not modelled; `Resolve` only names the device to create.
- The null device that `get_device(None)` returns (a `MagicMock`) is the value `NullDevice`; the calls `marshal` makes on it are not modelled.
- `TrafficControl.get_iface` calls `NetDevice.new_instance`, which `pyltc/core/netdevice.py` does not define. The model creates a `NetDevice` in its place.
- `Targets.LineResult`: `TcCommandTarget._marshal` passes `verbose=` to `CommandLine`, whose initializer takes no such argument. The model keeps only the `ignore_errors` decision, as if the call succeeded.
- `CmdLine.CommandLine.Execute`: the `unicode_escape` decoding of the output, the timeout and the verbose echo are not modelled; the outputs are taken as text.
- `Counters.Counter.Next`: with increment 0 and the current value skipped, the source loops forever; the model returns `Diverges` instead.
- `Counters.Counter.constructor`: a str, bytes or float skip argument fails the initializer's assertion in the source; the model requires an accepted skip kind. Type assertions on `start`, `incr` and `fmt` are expressed by the parameter types.
- `Counters.Render`: only `{}`/`{:d}` and `{:x}` format fields are modelled, not the rest of Python's format language.
- Flags are `bool` (or `Option<bool>` where `None` is meaningful). Other truthy or falsy objects passed as `upload`, `download`, `clear` or `verbose` are not modelled.
- `BranchParser.__getattr__` is not modelled. `AsDict` returns a value, so the shared `lru_cache` copy that repeated `as_dict()` calls return, and its aliasing, are not captured.
- `SimNet.SimNetPlugin.Marshal`: requires the device registry and both run-wide counters to be initialised. Before `Qdisc.init()`/`Filter.init()` the source fails inside `build_basics`; that path is not modelled.
- `SimNet.SimNetPlugin.Marshal`: on failure, it states no contents for the chain logs; only the error is stated.
- `SimNet.MarshalDevices`: when the ifb device is the interface itself, the ifb log at the start of its work is not pinned to an earlier state.
- `SimNet.SimNetPlugin.Marshal`: when the ifb device is the interface itself, the ifb log at the start of its work is not pinned to an earlier state either.
- `SimNet.MarshalEgress`: states only that the chain's `verbose` is either unchanged or the plugin's flag.
- `SimNetPlugin.add_subparser`, `post_parse_process`, the argparse plumbing, the plugin registry and the profile plugin's file lookup are not modelled. `FromArgs` takes the already parsed options.
- `clearonly_mode` is set by the initializer and read nowhere. `FromArgs` leaves it false.
- `pyltc/dev.py`, the earlier snapshots of the same algorithms (`src/pyltc.py`, `pyltc/struct.py`, `pyltc/target.py`, `pyltc/device.py`, `pyltc/facade.py`, `pyltc/plugins/simnet.py`, `pyltc/plugins/thehunmonkgroup.py`), `pyltc/core/tfactory.py` and the test harnesses are not part of this model.
- `\d` in the regular expressions is read as the ASCII digits only; Python's `re` also accepts other Unicode digits.
- `CmdLine.Repr`: characters from U+0100 upward are kept as they are. Python's `repr()` writes the ones the Unicode database calls non-printable as `\u`/`\U` escapes; that database is not modelled. Below U+0100 the `\xhh` escapes are modelled.
