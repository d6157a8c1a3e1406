/** The network simulation plugin: the protocol split every recipe starts
    with, the per-branch shaping tree, the detection of `all` branches, and the
    plugin's own setup and marshalling. */
module SimNet {
  import opened Wrappers
  import opened Text
  import opened LtcNodes
  import opened Targets
  import opened NetDevices
  import opened Branches

  /** netem's queue limit, raised far above its default of 1000 packets. */
  const NETEM_LIMIT: nat := 1000000000

  /** The rate of a class whose branch gives no rate. */
  const DEFAULT_RATE: string := "15gbit"

  /** Why a recipe cannot be built: a branch that does not parse (or a parser
      built without exactly one direction), a second `all` branch for one
      protocol, a device that cannot be resolved, `setup` called without exactly
      one direction, or `setup` on a direction whose list is `None`. */
  datatype SimError =
    | BadBranch(e: BranchError)
    | DuplicateAll(protocol: string)
    | BadDevice(d: DevError)
    | NotOneDirection
    | NoList

  /** A rate in Python truthiness: present and not empty. */
  predicate RateGiven(rate: Option<string>) {
    rate.Some? && rate.value != ""
  }

  /** `rate if rate else '15gbit'`. */
  function RateOr(rate: Option<string>): string {
    if RateGiven(rate) then rate.value else DEFAULT_RATE
  }

  /** The `rate=` parameter list of an htb class. */
  function RateParams(rate: string): Params {
    [("rate", PStr(rate))]
  }

  /** The sub-command of an htb class at `rate`. */
  function HtbRate(rate: string): string {
    "htb rate " + rate
  }

  /** An htb class with only a rate renders as `htb rate RATE`. */
  lemma HtbRateSubcommand(rate: string)
    ensures AsSubcommand("htb", RateParams(rate)) == HtbRate(rate)
  {
    var ps := RateParams(rate);
    assert ps[1..] == [];
    assert SortByKey(ps) == ps;
    assert "rate" + " " == "rate ";
    assert KeyValues(ps[1..]) == [];
    assert KeyValues(ps) == [ps[0].0 + " " + ParamText(ps[0].1)] + KeyValues(ps[1..]);
    assert KeyValues(ps) == ["rate " + rate];
    assert "htb" + " " == "htb " && "htb " + "rate " == "htb rate ";
    Associative("htb", " ", "rate " + rate);
    Associative("htb ", "rate ", rate);
  }

  // ---------------------------------------------------------------- parse_branch_list

  /** `parse` applied to each string in order: every result, or the error of
      the first string that fails, all the earlier ones having succeeded. */
  function MapUntilError<R(==), E(==)>(strs: seq<string>, parse: string -> Result<R, E>): (r: Result<seq<R>, E>)
    ensures r.Success? ==> (|r.value| == |strs|
      && forall i :: 0 <= i < |strs| ==> parse(strs[i]) == Success(r.value[i]))
    ensures r.Failure? ==> exists i :: (0 <= i < |strs| && parse(strs[i]) == Failure(r.error)
      && forall j :: 0 <= j < i ==> parse(strs[j]).Success?)
  {
    if strs == [] then Success([])
    else
      match parse(strs[0])
      case Failure(e) => Failure(e)
      case Success(b) =>
        match MapUntilError(strs[1..], parse)
        case Failure(e) =>
          ghost var i :| 0 <= i < |strs[1..]| && parse(strs[1..][i]) == Failure(e)
            && forall j :: 0 <= j < i ==> parse(strs[1..][j]).Success?;
          assert parse(strs[i + 1]) == Failure(e);
          assert forall j :: 0 <= j < i + 1 ==> parse(strs[j]).Success? by {
            forall j | 0 <= j < i + 1
              ensures parse(strs[j]).Success?
            {
              if j > 0 {
                assert strs[j] == strs[1..][j - 1];
              }
            }
          }
          Failure(e)
        case Success(bs) =>
          assert forall i :: 1 <= i < |strs| ==> strs[i] == strs[1..][i - 1];
          Success([b] + bs)
  }

  /** The branches of a list of branch strings, each parsed for the given
      direction. */
  function ParseList(strs: seq<string>, upload: Option<bool>, download: Option<bool>): Result<seq<Branch>, BranchError> {
    MapUntilError(strs, s => ParseOne(s, download, upload, false))
  }

  /** Every branch of a parsed list is acceptable to the plain grammar: its port
      type, when present, is `sport` or `dport`. */
  lemma ParseListAcceptable(strs: seq<string>, upload: Option<bool>, download: Option<bool>)
    requires ParseList(strs, upload, download).Success?
    ensures var bs := ParseList(strs, upload, download).value;
      forall i :: 0 <= i < |bs| ==> Acceptable(bs[i], PORT_TYPES)
  {
    var bs := ParseList(strs, upload, download).value;
    forall i | 0 <= i < |bs|
      ensures Acceptable(bs[i], PORT_TYPES)
    {
      assert ParseOne(strs[i], download, upload, false) == Success(bs[i]);
    }
  }

  /** `r` followed by the branches already collected. */
  function Prefixed(done: seq<Branch>, r: Result<seq<Branch>, BranchError>): Result<seq<Branch>, BranchError> {
    match r
    case Failure(e) => Failure(e)
    case Success(rest) => Success(done + rest)
  }

  /** One step of the list: the first string's branch, then the rest. */
  lemma ParseListStep(strs: seq<string>, i: nat, upload: Option<bool>, download: Option<bool>)
    requires i < |strs|
    ensures ParseList(strs[i..], upload, download) ==
      match ParseOne(strs[i], download, upload, false)
      case Failure(e) => Failure(e)
      case Success(b) => Prefixed([b], ParseList(strs[i + 1..], upload, download))
  {
    assert strs[i..][0] == strs[i] && strs[i..][1..] == strs[i + 1..];
  }

  lemma PrefixedNothing(r: Result<seq<Branch>, BranchError>)
    ensures Prefixed([], r) == r
  {
    if r.Success? {
      assert [] + r.value == r.value;
    }
  }

  lemma PrefixedAppend(done: seq<Branch>, b: Branch, r: Result<seq<Branch>, BranchError>)
    ensures Prefixed(done, Prefixed([b], r)) == Prefixed(done + [b], r)
  {
    if r.Success? {
      assert done + ([b] + r.value) == done + [b] + r.value;
    }
  }

  /** `parse_branch_list(args_list, upload, download)`: one parser per string,
      in order; the first one that raises ends the call. */
  method ParseBranchList(argsList: seq<string>, upload: Option<bool>, download: Option<bool>)
    returns (r: Result<seq<Branch>, BranchError>)
    ensures r == ParseList(argsList, upload, download)
  {
    var branches: seq<Branch> := [];
    var i := 0;
    assert argsList[0..] == argsList;
    PrefixedNothing(ParseList(argsList, upload, download));
    while i < |argsList|
      invariant 0 <= i <= |argsList|
      invariant ParseList(argsList, upload, download) == Prefixed(branches, ParseList(argsList[i..], upload, download))
    {
      ParseListStep(argsList, i, upload, download);
      var parser := NewBranchParser(argsList[i], download, upload, false);
      if parser.Failure? {
        return Failure(parser.error);
      }
      PrefixedAppend(branches, parser.value.branch.value, ParseList(argsList[i + 1..], upload, download));
      branches := branches + [parser.value.branch.value];
      i := i + 1;
    }
    assert argsList[i..] == [];
    assert branches + [] == branches;
    r := Success(branches);
  }

  // ---------------------------------------------------------------- build_basics

  /** The first three lines of the protocol split when the next free major is
      `m + 1`: the root htb `m+1:0`, then the tcp class `m+1:1` and the udp
      class `m+1:2` under it, with their rates. */
  function ClassSplitLines(iface: string, chain: string, m: nat, tcpRate: string, udpRate: string): seq<string> {
    var root := IdText(NodeId(m + 1, 0));
    [ QdiscLine(iface, chain, root, "htb"),
      ClassLine(iface, root, IdText(NodeId(m + 1, 1)), AsSubcommand("htb", RateParams(tcpRate))),
      ClassLine(iface, root, IdText(NodeId(m + 1, 2)), AsSubcommand("htb", RateParams(udpRate))) ]
  }

  /** The u32 protocol filters on the root `m+1:0`: at priority 1 protocol 6
      (tcp) goes to the tcp class `m+1:1`, at priority 2 protocol 17 (udp) to
      the udp class `m+1:2`. */
  function ProtocolFilterLines(iface: string, m: nat): seq<string> {
    var root := IdText(NodeId(m + 1, 0));
    [ FilterLine(iface, root, "1", "u32", "ip protocol 6 0xff", IdText(NodeId(m + 1, 1))),
      FilterLine(iface, root, "2", "u32", "ip protocol 17 0xff", IdText(NodeId(m + 1, 2))) ]
  }

  /** The htb `m+2:0` under the tcp class and the htb `m+3:0` under the udp
      class: the hooks every other branch hangs from. */
  function HookLines(iface: string, m: nat): seq<string> {
    [ QdiscLine(iface, "parent " + IdText(NodeId(m + 1, 1)), IdText(NodeId(m + 2, 0)), "htb"),
      QdiscLine(iface, "parent " + IdText(NodeId(m + 1, 2)), IdText(NodeId(m + 3, 0)), "htb") ]
  }

  /** The seven lines of the protocol split. */
  function BasicsLines(iface: string, chain: string, m: nat, tcpRate: string, udpRate: string): seq<string> {
    ClassSplitLines(iface, chain, m, tcpRate, udpRate) + ProtocolFilterLines(iface, m) + HookLines(iface, m)
  }

  /** The first three steps of `build_basics`: the root htb and its two
      protocol classes. */
  method AddClassSplit(target: TcTarget, alloc: Allocator, tcpRate: string, udpRate: string)
    returns (root: LtcNode, tcpClass: LtcNode, udpClass: LtcNode)
    requires alloc.Valid() && alloc.majors.Some?
    modifies target, alloc
    ensures alloc.Valid() && alloc.majors == Some(old(alloc.majors.value) + 1) && alloc.handles == old(alloc.handles)
    ensures target.commands == old(target.commands)
      + ClassSplitLines(target.iface, target.chainName, old(alloc.majors.value), tcpRate, udpRate)
    ensures fresh(root) && fresh(tcpClass) && fresh(udpClass)
    ensures root.kind == QdiscNode && tcpClass.kind == ClassNode && udpClass.kind == ClassNode
    ensures root.Id() == NodeId(old(alloc.majors.value) + 1, 0) && root.priosIssued == 0
    ensures tcpClass.Id() == NodeId(old(alloc.majors.value) + 1, 1) && udpClass.Id() == NodeId(old(alloc.majors.value) + 1, 2)
    ensures target.verbose == old(target.verbose) && target.filename == old(target.filename)
  {
    var r := target.SetRootQdisc(alloc, "htb", []);
    root := r.value;
    var c := target.AddClass("htb", root, RateParams(tcpRate));
    tcpClass := c.value;
    c := target.AddClass("htb", root, RateParams(udpRate));
    udpClass := c.value;
  }

  /** The next two steps of `build_basics`: the protocol filters on a fresh
      root, whose priorities are then 1 and 2; each takes the next filter handle. */
  method AddProtocolFilters(target: TcTarget, alloc: Allocator, root: LtcNode, tcpClass: LtcNode, udpClass: LtcNode,
                            ghost m: nat)
    requires alloc.Valid() && alloc.handles.Some?
    requires root.Id() == NodeId(m + 1, 0) && root.priosIssued == 0
    requires tcpClass.Id() == NodeId(m + 1, 1) && udpClass.Id() == NodeId(m + 1, 2)
    modifies target, alloc, root
    ensures alloc.Valid() && alloc.majors == old(alloc.majors) && alloc.handles == Some(old(alloc.handles.value) + 2)
    ensures target.commands == old(target.commands) + ProtocolFilterLines(target.iface, m)
    ensures target.verbose == old(target.verbose) && target.filename == old(target.filename)
  {
    var f := target.AddFilter(alloc, "u32", root, "ip protocol 6 0xff", tcpClass, None, None);
    assert IntToString(1) == "1";
    f := target.AddFilter(alloc, "u32", root, "ip protocol 17 0xff", udpClass, None, None);
    assert IntToString(2) == "2";
  }

  /** The last two steps of `build_basics`: an htb under each protocol class. */
  method AddHooks(target: TcTarget, alloc: Allocator, tcpClass: LtcNode, udpClass: LtcNode, ghost m: nat)
    returns (tcpHook: LtcNode, udpHook: LtcNode)
    requires alloc.Valid() && alloc.majors == Some(m + 1)
    requires tcpClass.kind == ClassNode && udpClass.kind == ClassNode
    requires tcpClass.Id() == NodeId(m + 1, 1) && udpClass.Id() == NodeId(m + 1, 2)
    modifies target, alloc
    ensures alloc.Valid() && alloc.majors == Some(m + 3) && alloc.handles == old(alloc.handles)
    ensures target.commands == old(target.commands) + HookLines(target.iface, m)
    ensures fresh(tcpHook) && fresh(udpHook) && tcpHook != udpHook
    ensures tcpHook.kind == QdiscNode && udpHook.kind == QdiscNode
    ensures tcpHook.Id() == NodeId(m + 2, 0) && udpHook.Id() == NodeId(m + 3, 0)
    ensures tcpHook.minorsIssued == 0 && tcpHook.priosIssued == 0
    ensures udpHook.minorsIssued == 0 && udpHook.priosIssued == 0
    ensures target.verbose == old(target.verbose) && target.filename == old(target.filename)
  {
    var q := target.AddQdisc(alloc, "htb", tcpClass, []);
    tcpHook := q.value;
    q := target.AddQdisc(alloc, "htb", udpClass, []);
    udpHook := q.value;
  }

  /** `build_basics(target, tcp_all_rate, udp_all_rate)`: appends the protocol
      split, taking three majors and two filter handles, and returns the htb
      qdiscs under the tcp and the udp class, which have handed out nothing yet. */
  method BuildBasics(target: TcTarget, alloc: Allocator, tcpAllRate: Option<string>, udpAllRate: Option<string>)
    returns (tcpHook: LtcNode, udpHook: LtcNode)
    requires alloc.Valid() && alloc.majors.Some? && alloc.handles.Some?
    modifies target, alloc
    ensures alloc.Valid()
    ensures target.commands == old(target.commands)
      + BasicsLines(target.iface, target.chainName, old(alloc.majors.value), RateOr(tcpAllRate), RateOr(udpAllRate))
    ensures alloc.majors == Some(old(alloc.majors.value) + 3) && alloc.handles == Some(old(alloc.handles.value) + 2)
    ensures fresh(tcpHook) && fresh(udpHook) && tcpHook != udpHook
    ensures tcpHook.kind == QdiscNode && udpHook.kind == QdiscNode
    ensures tcpHook.Id() == NodeId(old(alloc.majors.value) + 2, 0) && udpHook.Id() == NodeId(old(alloc.majors.value) + 3, 0)
    ensures tcpHook.minorsIssued == 0 && tcpHook.priosIssued == 0
    ensures udpHook.minorsIssued == 0 && udpHook.priosIssued == 0
    ensures target.verbose == old(target.verbose) && target.filename == old(target.filename)
  {
    ghost var m, h, c0 := alloc.majors.value, alloc.handles.value, target.commands;
    ghost var split := ClassSplitLines(target.iface, target.chainName, m, RateOr(tcpAllRate), RateOr(udpAllRate));
    var root, tcpClass, udpClass := AddClassSplit(target, alloc, RateOr(tcpAllRate), RateOr(udpAllRate));
    assert alloc.handles == Some(h) && target.commands == c0 + split;
    AddProtocolFilters(target, alloc, root, tcpClass, udpClass, m);
    assert alloc.handles == Some(h + 2);
    tcpHook, udpHook := AddHooks(target, alloc, tcpClass, udpClass, m);
    assert c0 + split + ProtocolFilterLines(target.iface, m) + HookLines(target.iface, m)
      == c0 + (split + ProtocolFilterLines(target.iface, m) + HookLines(target.iface, m));
  }

  // ---------------------------------------------------------------- build_tree

  /** A branch that shapes traffic: every range but `all`. */
  predicate Shapes(b: Branch) {
    b.range != "all"
  }

  /** What the loop body relies on for a branch that shapes traffic: a port
      type of the two names and a range other than `all`. */
  predicate Shaped(b: Branch) {
    b.porttype.Some? && b.porttype.value in PORT_TYPES && IsRange(b.range) && b.range != "all"
  }

  /** A loss in Python truthiness. */
  predicate LossGiven(b: Branch) {
    b.loss.Some? && b.loss.value != ""
  }

  /** Where the port sits in the transport header: the source port at byte 0,
      the destination port at byte 2. */
  function PortOffset(porttype: string): nat {
    if porttype == "sport" then 0 else 2
  }

  /** The quoted `basic` match of a port range: the 16-bit word at `offset` is
      greater than `start - 1` and less than `end + 1`. */
  function RangeCond(offset: nat, start: nat, end: nat): string {
    "\"cmp(u16 at " + NatToString(offset) + " layer transport gt " + IntToString(start - 1)
      + ") and cmp(u16 at " + NatToString(offset) + " layer transport lt " + IntToString(end + 1) + ")\""
  }

  /** The u32 match of a single port. */
  function SinglePortCond(portDir: string, port: string): string {
    "ip " + portDir + " " + port + " 0xffff"
  }

  /** A range other than `all` holds a dash exactly when it is a span. */
  lemma RangeKinds(range: string)
    requires IsRange(range) && range != "all"
    ensures Lacks(range, '-') <==> IsPortNum(range)
    ensures !Lacks(range, '-') ==> IsPortSpan(range)
  {
    if Lacks(range, '-') && !IsPortNum(range) {
      SplitSepNoSep(range, '-');
    }
  }

  /** The classifier and the match of a branch's filter: u32 on the one port, or
      basic on the span's bounds. */
  function PortFilter(porttype: string, range: string): (f: (string, string))
    requires porttype in PORT_TYPES && IsRange(range) && range != "all"
    ensures f.0 == "u32" <==> IsPortNum(range)
    ensures f.0 == "basic" <==> IsPortSpan(range) && !IsPortNum(range)
  {
    RangeKinds(range);
    if Lacks(range, '-') then ("u32", SinglePortCond(porttype, range))
    else
      var parts := SplitSep(range, "-");
      ("basic", RangeCond(PortOffset(porttype), ParseNat(parts[0]), ParseNat(parts[1])))
  }

  /** A span written `S-E` gives the basic match on exactly `S` and `E`: the
      numbers read back from the text are the ones written. */
  lemma PortFilterSpan(porttype: string, start: nat, end: nat)
    requires porttype in PORT_TYPES
    requires IsPortNum(NatToString(start)) && IsPortNum(NatToString(end))
    ensures IsRange(NatToString(start) + "-" + NatToString(end)) && NatToString(start) + "-" + NatToString(end) != "all"
    ensures PortFilter(porttype, NatToString(start) + "-" + NatToString(end))
      == ("basic", RangeCond(PortOffset(porttype), start, end))
  {
    var range := NatToString(start) + "-" + NatToString(end);
    var parts := [NatToString(start), NatToString(end)];
    assert Join("-", parts) == range;
    SplitSepOfJoin(parts, '-');
    assert !Lacks(range, '-') by {
      assert range[|NatToString(start)|] == '-';
    }
    ParseNatToString(start);
    ParseNatToString(end);
  }

  /** The `netem` parameters of a lossy branch, in the order they are passed. */
  function NetemParams(loss: string): Params {
    [("loss", PStr(loss)), ("limit", PInt(NETEM_LIMIT))]
  }

  /** The sub-command of a lossy branch's netem qdisc. */
  function NetemLoss(loss: string): string {
    "netem limit 1000000000 loss " + loss
  }

  /** The netem parameters come out sorted by key, `limit` before `loss`,
      whatever order they are passed in. */
  lemma NetemSubcommand(loss: string)
    ensures AsSubcommand("netem", NetemParams(loss)) == NetemLoss(loss)
  {
    var limitText, lossText := "limit 1000000000", "loss " + loss;
    calc {
      AsSubcommand("netem", NetemParams(loss));
      { NetemSorted(loss); NetemKeyValues(loss); }
      "netem" + " " + Join(" ", [limitText, lossText]);
      { assert [limitText, lossText][1..] == [lossText]; assert Join(" ", [lossText]) == lossText; }
      ("netem" + " ") + ((limitText + " ") + lossText);
      { Associative("netem" + " ", limitText + " ", lossText); }
      (("netem" + " ") + (limitText + " ")) + lossText;
      { Associative("netem" + " ", limitText, " "); NetemWords(); }
      "netem limit 1000000000 " + ("loss " + loss);
      { Associative("netem limit 1000000000 ", "loss ", loss); }
      NetemLoss(loss);
    }
  }

  lemma NetemWords()
    ensures "netem" + " " + "limit 1000000000" + " " == "netem limit 1000000000 "
    ensures "netem limit 1000000000 " + "loss " == "netem limit 1000000000 loss "
  {
  }

  /** Sorting the netem parameters by key puts `limit` first. */
  lemma NetemSorted(loss: string)
    ensures SortByKey(NetemParams(loss)) == [("limit", PInt(NETEM_LIMIT)), ("loss", PStr(loss))]
  {
    var ps := NetemParams(loss);
    var limit, lossEntry := ("limit", PInt(NETEM_LIMIT)), ("loss", PStr(loss));
    assert ps[1..] == [limit] && ps[1..][1..] == [];
    assert SortByKey([limit]) == [limit];
    assert StrLess("limit", "loss") by {
      assert "limit"[1..] == "imit" && "loss"[1..] == "oss";
    }
    StrLessAsymmetric("limit", "loss");
    assert Insert(lossEntry, [limit]) == [limit] + Insert(lossEntry, []);
  }

  /** The netem limit in decimal. */
  lemma LimitText()
    ensures IntToString(NETEM_LIMIT) == "1000000000"
  {
  }

  lemma NetemKeyValues(loss: string)
    ensures KeyValues([("limit", PInt(NETEM_LIMIT)), ("loss", PStr(loss))]) == ["limit 1000000000", "loss " + loss]
  {
    var sorted := [("limit", PInt(NETEM_LIMIT)), ("loss", PStr(loss))];
    LimitText();
    assert "limit" + " " + "1000000000" == "limit 1000000000";
    assert "loss" + " " == "loss ";
    assert sorted[1..][1..] == [];
    assert KeyValues(sorted[1..]) == ["loss " + loss];
  }

  /** What the counters of one tree have handed out: the class minors and filter
      priorities of each hook, and the run-wide major and filter handle. */
  datatype Issued = Issued(tcpMinors: nat, tcpPrios: nat, udpMinors: nat, udpPrios: nat, majors: nat, handles: nat)

  /** A branch that shapes traffic, placed in the tree: the hook it hangs from,
      the class minor and filter priority it takes there, and the last major
      handed out before it. */
  datatype Shape = Shape(hook: NodeId, minor: nat, prio: nat, major: nat, b: Branch)

  /** The lines of a placed branch: an htb class `hook.major:minor` at the
      branch's rate or 15gbit, then a filter on the hook at priority `prio`
      sending the branch's ports to that class, then, when the branch has a
      loss, a netem qdisc `major+1:0` under the class. */
  function ShapeLines(iface: string, s: Shape): seq<string>
    requires Shaped(s.b)
  {
    var cls := NodeId(s.hook.major, s.minor);
    var filter := PortFilter(s.b.porttype.value, s.b.range);
    [ ClassLine(iface, IdText(s.hook), IdText(cls), HtbRate(RateOr(s.b.rate))),
      FilterLine(iface, IdText(s.hook), IntToString(s.prio), filter.0, filter.1, IdText(cls)) ]
    + if LossGiven(s.b) then [QdiscLine(iface, "parent " + IdText(cls), IdText(NodeId(s.major + 1, 0)),
                                        NetemLoss(s.b.loss.value))]
      else []
  }

  predicate AllShaped(ss: seq<Shape>) {
    forall i :: 0 <= i < |ss| ==> Shaped(ss[i].b)
  }

  /** The lines of placed branches, in order. */
  function ShapesLines(iface: string, ss: seq<Shape>): seq<string>
    requires AllShaped(ss)
  {
    if ss == [] then [] else ShapeLines(iface, ss[0]) + ShapesLines(iface, ss[1..])
  }

  lemma Associative<T>(a: seq<T>, b: seq<T>, c: seq<T>)
    ensures a + b + c == a + (b + c)
  {
  }

  lemma {:induction false} ShapesLinesAppend(iface: string, xs: seq<Shape>, ys: seq<Shape>)
    requires AllShaped(xs) && AllShaped(ys)
    ensures AllShaped(xs + ys)
    ensures ShapesLines(iface, xs + ys) == ShapesLines(iface, xs) + ShapesLines(iface, ys)
  {
    if xs == [] {
      assert xs + ys == ys;
    } else {
      assert (xs + ys)[0] == xs[0] && (xs + ys)[1..] == xs[1..] + ys;
      ShapesLinesAppend(iface, xs[1..], ys);
      Associative(ShapeLines(iface, xs[0]), ShapesLines(iface, xs[1..]), ShapesLines(iface, ys));
    }
  }

  /** A branch the loop can handle: one that shapes traffic has what that needs. */
  predicate Ready(b: Branch) {
    Shapes(b) ==> Shaped(b)
  }

  predicate AllReady(bs: seq<Branch>) {
    forall i :: 0 <= i < |bs| ==> Ready(bs[i])
  }

  /** Where one branch goes under hooks with majors `tcpMajor` and `udpMajor`,
      and the counters after it. A branch with range `all` is not placed. Any
      other takes its protocol's hook's next minor and next priority, the next
      filter handle and, when it has a loss, the next major. */
  function BranchShape(tcpMajor: nat, udpMajor: nat, b: Branch, c: Issued): (seq<Shape>, Issued) {
    if !Shapes(b) then ([], c)
    else
      var tcp := b.protocol == "tcp";
      var hook := NodeId(if tcp then tcpMajor else udpMajor, 0);
      var minor := (if tcp then c.tcpMinors else c.udpMinors) + 1;
      var prio := (if tcp then c.tcpPrios else c.udpPrios) + 1;
      var next := if tcp then c.(tcpMinors := minor, tcpPrios := prio) else c.(udpMinors := minor, udpPrios := prio);
      ([Shape(hook, minor, prio, c.majors, b)],
       next.(handles := c.handles + 1, majors := c.majors + if LossGiven(b) then 1 else 0))
  }

  /** Where a list of branches goes, in order, and the counters after it. */
  function TreeShapes(tcpMajor: nat, udpMajor: nat, bs: seq<Branch>, c: Issued): (seq<Shape>, Issued)
    decreases |bs|
  {
    if bs == [] then ([], c)
    else
      var first := BranchShape(tcpMajor, udpMajor, bs[0], c);
      var rest := TreeShapes(tcpMajor, udpMajor, bs[1..], first.1);
      (first.0 + rest.0, rest.1)
  }

  /** Only branches that shape traffic are placed, each as it is. */
  lemma {:induction false} TreeShapesBranches(tcpMajor: nat, udpMajor: nat, bs: seq<Branch>, c: Issued)
    ensures forall s :: s in TreeShapes(tcpMajor, udpMajor, bs, c).0 ==> s.b in bs && Shapes(s.b)
    decreases |bs|
  {
    if bs != [] {
      var first := BranchShape(tcpMajor, udpMajor, bs[0], c);
      TreeShapesBranches(tcpMajor, udpMajor, bs[1..], first.1);
      assert forall b :: b in bs[1..] ==> b in bs;
    }
  }

  lemma TreeShapesShaped(tcpMajor: nat, udpMajor: nat, bs: seq<Branch>, c: Issued)
    requires AllReady(bs)
    ensures AllShaped(TreeShapes(tcpMajor, udpMajor, bs, c).0)
  {
    TreeShapesBranches(tcpMajor, udpMajor, bs, c);
    var ss := TreeShapes(tcpMajor, udpMajor, bs, c).0;
    forall i | 0 <= i < |ss|
      ensures Shaped(ss[i].b)
    {
      assert ss[i] in ss;
      var j :| 0 <= j < |bs| && bs[j] == ss[i].b;
    }
  }

  /** How many placed branches carry a loss: the netem qdiscs they add. */
  function NetemCount(ss: seq<Shape>): nat {
    if ss == [] then 0 else (if LossGiven(ss[0].b) then 1 else 0) + NetemCount(ss[1..])
  }

  lemma {:induction false} NetemCountAppend(xs: seq<Shape>, ys: seq<Shape>)
    ensures NetemCount(xs + ys) == NetemCount(xs) + NetemCount(ys)
  {
    if xs == [] {
      assert xs + ys == ys;
    } else {
      assert (xs + ys)[0] == xs[0] && (xs + ys)[1..] == xs[1..] + ys;
      NetemCountAppend(xs[1..], ys);
    }
  }

  /** The tree takes one filter handle per placed branch and one major per
      netem qdisc. */
  lemma {:induction false} TreeShapesCounters(tcpMajor: nat, udpMajor: nat, bs: seq<Branch>, c: Issued)
    ensures var t := TreeShapes(tcpMajor, udpMajor, bs, c);
      t.1.handles == c.handles + |t.0| && t.1.majors == c.majors + NetemCount(t.0)
    decreases |bs|
  {
    if bs != [] {
      var first := BranchShape(tcpMajor, udpMajor, bs[0], c);
      var rest := TreeShapes(tcpMajor, udpMajor, bs[1..], first.1);
      TreeShapesCounters(tcpMajor, udpMajor, bs[1..], first.1);
      NetemCountAppend(first.0, rest.0);
      if first.0 != [] {
        assert first.0[1..] == [];
      }
    }
  }

  /** A list whose branches all have range `all` places nothing and takes no
      identifier. */
  lemma {:induction false} TreeShapesAllOnly(tcpMajor: nat, udpMajor: nat, bs: seq<Branch>, c: Issued)
    requires forall i :: 0 <= i < |bs| ==> !Shapes(bs[i])
    ensures TreeShapes(tcpMajor, udpMajor, bs, c) == ([], c)
    decreases |bs|
  {
    if bs != [] {
      assert BranchShape(tcpMajor, udpMajor, bs[0], c) == ([], c);
      assert forall i :: 0 <= i < |bs[1..]| ==> bs[1..][i] == bs[i + 1];
      TreeShapesAllOnly(tcpMajor, udpMajor, bs[1..], c);
      var t: seq<Shape> := [];
      assert t + t == t;
    }
  }

  /** The lines of a list of branches, in order, and the counters after them. */
  function TreeLines(iface: string, tcpMajor: nat, udpMajor: nat, bs: seq<Branch>, c: Issued): (seq<string>, Issued)
    requires AllReady(bs)
  {
    TreeShapesShaped(tcpMajor, udpMajor, bs, c);
    var t := TreeShapes(tcpMajor, udpMajor, bs, c);
    (ShapesLines(iface, t.0), t.1)
  }

  /** The counters of the two hooks and the run-wide ones. */
  function IssuedBy(tcpHook: LtcNode, udpHook: LtcNode, alloc: Allocator): Issued
    reads tcpHook, udpHook, alloc
    requires alloc.majors.Some? && alloc.handles.Some?
  {
    Issued(tcpHook.minorsIssued, tcpHook.priosIssued, udpHook.minorsIssued, udpHook.priosIssued,
           alloc.majors.value, alloc.handles.value)
  }

  /** `build_single_port_filter(target, parent, flownode, port, port_dir)`: a
      u32 filter on `parent` matching the one port, sent to `flownode`. */
  method BuildSinglePortFilter(target: TcTarget, alloc: Allocator, parent: LtcNode, flownode: LtcNode,
                               port: string, portDir: string)
    requires alloc.Valid() && alloc.handles.Some?
    modifies target, alloc, parent
    ensures alloc.Valid() && alloc.majors == old(alloc.majors) && alloc.handles == Some(old(alloc.handles.value) + 1)
    ensures parent.priosIssued == old(parent.priosIssued) + 1 && parent.minorsIssued == old(parent.minorsIssued)
    ensures target.commands == old(target.commands) + [FilterLine(target.iface, IdText(parent.Id()),
      IntToString(old(parent.priosIssued) + 1), "u32", SinglePortCond(portDir, port), IdText(flownode.Id()))]
    ensures target.verbose == old(target.verbose) && target.filename == old(target.filename)
  {
    var f := target.AddFilter(alloc, "u32", parent, SinglePortCond(portDir, port), flownode, None, None);
  }

  /** The filter step of `build_tree`'s loop: a single port goes through
      `build_single_port_filter`, a span gets a basic filter on its bounds. */
  method AddPortFilter(target: TcTarget, alloc: Allocator, hook: LtcNode, htbClass: LtcNode, b: Branch)
    requires alloc.Valid() && alloc.handles.Some?
    requires Shaped(b)
    modifies target, alloc, hook
    ensures alloc.Valid() && alloc.majors == old(alloc.majors) && alloc.handles == Some(old(alloc.handles.value) + 1)
    ensures hook.priosIssued == old(hook.priosIssued) + 1 && hook.minorsIssued == old(hook.minorsIssued)
    ensures var filter := PortFilter(b.porttype.value, b.range);
      target.commands == old(target.commands) + [FilterLine(target.iface, IdText(hook.Id()),
        IntToString(old(hook.priosIssued) + 1), filter.0, filter.1, IdText(htbClass.Id()))]
    ensures target.verbose == old(target.verbose) && target.filename == old(target.filename)
  {
    var porttype := b.porttype.value;
    var offset := if porttype == "sport" then 0 else 2;
    assert offset == PortOffset(porttype);
    RangeKinds(b.range);
    if Lacks(b.range, '-') {
      assert PortFilter(porttype, b.range) == ("u32", SinglePortCond(porttype, b.range));
      BuildSinglePortFilter(target, alloc, hook, htbClass, b.range, porttype);
    } else {
      var parts := SplitSep(b.range, "-");
      var start, end := ParseNat(parts[0]), ParseNat(parts[1]);
      assert PortFilter(porttype, b.range) == ("basic", RangeCond(offset, start, end));
      var f := target.AddFilter(alloc, "basic", hook, RangeCond(offset, start, end), htbClass, None, None);
    }
  }

  /** The body of `build_tree`'s loop for a branch that shapes traffic, once
      its hook is chosen. */
  method ShapeBranch(target: TcTarget, alloc: Allocator, hook: LtcNode, b: Branch)
    requires alloc.Valid() && alloc.majors.Some? && alloc.handles.Some?
    requires hook.kind == QdiscNode && Shaped(b)
    modifies target, alloc, hook
    ensures alloc.Valid()
    ensures alloc.majors == Some(old(alloc.majors.value) + if LossGiven(b) then 1 else 0)
    ensures alloc.handles == Some(old(alloc.handles.value) + 1)
    ensures hook.minorsIssued == old(hook.minorsIssued) + 1 && hook.priosIssued == old(hook.priosIssued) + 1
    ensures target.commands == old(target.commands) + ShapeLines(target.iface,
      Shape(hook.Id(), old(hook.minorsIssued) + 1, old(hook.priosIssued) + 1, old(alloc.majors.value), b))
    ensures target.verbose == old(target.verbose) && target.filename == old(target.filename)
  {
    ghost var c0 := target.commands;
    ghost var lines := ShapeLines(target.iface, Shape(hook.Id(), hook.minorsIssued + 1, hook.priosIssued + 1, alloc.majors.value, b));
    HtbRateSubcommand(RateOr(b.rate));
    var made := target.AddClass("htb", hook, RateParams(RateOr(b.rate)));
    var htbClass := made.value;
    assert target.commands == c0 + lines[..1];
    AddPortFilter(target, alloc, hook, htbClass, b);
    assert target.commands == c0 + lines[..2];
    if LossGiven(b) {
      NetemSubcommand(b.loss.value);
      var netem := target.AddQdisc(alloc, "netem", htbClass, NetemParams(b.loss.value));
      assert target.commands == c0 + lines;
    } else {
      assert lines[..2] == lines;
    }
  }

  /** The body of `build_tree`'s loop: nothing for an `all` branch, otherwise
      the branch shaped under the hook of its protocol. */
  method EmitBranch(target: TcTarget, alloc: Allocator, tcpHook: LtcNode, udpHook: LtcNode, b: Branch)
    requires alloc.Valid() && alloc.majors.Some? && alloc.handles.Some?
    requires tcpHook != udpHook && tcpHook.kind == QdiscNode && udpHook.kind == QdiscNode
    requires tcpHook.minor == 0 && udpHook.minor == 0 && Ready(b)
    modifies target, alloc, tcpHook, udpHook
    ensures alloc.Valid() && alloc.majors.Some? && alloc.handles.Some?
    ensures var placed := BranchShape(tcpHook.major, udpHook.major, b, old(IssuedBy(tcpHook, udpHook, alloc)));
      AllShaped(placed.0) && target.commands == old(target.commands) + ShapesLines(target.iface, placed.0)
      && IssuedBy(tcpHook, udpHook, alloc) == placed.1
    ensures target.verbose == old(target.verbose) && target.filename == old(target.filename)
  {
    if !Shapes(b) {
      assert target.commands + [] == target.commands;
      return;
    }
    var tcp := b.protocol == "tcp";
    var hook := if tcp then tcpHook else udpHook;
    ghost var s := Shape(hook.Id(), hook.minorsIssued + 1, hook.priosIssued + 1, alloc.majors.value, b);
    assert BranchShape(tcpHook.major, udpHook.major, b, IssuedBy(tcpHook, udpHook, alloc)).0 == [s];
    assert ShapesLines(target.iface, [s]) == ShapeLines(target.iface, s) by {
      assert [s][1..] == [];
    }
    ShapeBranch(target, alloc, hook, b);
  }

  /** Every branch of a parsed list is one the loop can handle. */
  lemma ParseListReady(strs: seq<string>, upload: Option<bool>, download: Option<bool>)
    requires ParseList(strs, upload, download).Success?
    ensures AllReady(ParseList(strs, upload, download).value)
  {
    ParseListAcceptable(strs, upload, download);
  }

  /** The placement from position `i` on: that of branch `i`, then the rest. */
  lemma TreeShapesStep(tcpMajor: nat, udpMajor: nat, bs: seq<Branch>, i: nat, c: Issued)
    requires i < |bs|
    ensures var first := BranchShape(tcpMajor, udpMajor, bs[i], c);
      var rest := TreeShapes(tcpMajor, udpMajor, bs[i + 1..], first.1);
      TreeShapes(tcpMajor, udpMajor, bs[i..], c) == (first.0 + rest.0, rest.1)
  {
    assert bs[i..][0] == bs[i] && bs[i..][1..] == bs[i + 1..];
  }

  /** `build_tree`'s loop over the parsed branches, in order. */
  method EmitBranches(target: TcTarget, alloc: Allocator, tcpHook: LtcNode, udpHook: LtcNode, bs: seq<Branch>)
    requires alloc.Valid() && alloc.majors.Some? && alloc.handles.Some?
    requires tcpHook != udpHook && tcpHook.kind == QdiscNode && udpHook.kind == QdiscNode
    requires tcpHook.minor == 0 && udpHook.minor == 0 && AllReady(bs)
    modifies target, alloc, tcpHook, udpHook
    ensures alloc.Valid() && alloc.majors.Some? && alloc.handles.Some?
    ensures var placed := TreeShapes(tcpHook.major, udpHook.major, bs, old(IssuedBy(tcpHook, udpHook, alloc)));
      AllShaped(placed.0) && target.commands == old(target.commands) + ShapesLines(target.iface, placed.0)
      && IssuedBy(tcpHook, udpHook, alloc) == placed.1
    ensures target.verbose == old(target.verbose) && target.filename == old(target.filename)
  {
    ghost var c0 := target.commands;
    ghost var total := TreeShapes(tcpHook.major, udpHook.major, bs, IssuedBy(tcpHook, udpHook, alloc));
    ghost var done: seq<Shape> := [];
    assert bs[0..] == bs;
    assert c0 == c0 + ShapesLines(target.iface, done);
    var i := 0;
    while i < |bs|
      invariant 0 <= i <= |bs|
      invariant alloc.Valid() && alloc.majors.Some? && alloc.handles.Some?
      invariant target.verbose == old(target.verbose) && target.filename == old(target.filename)
      invariant AllShaped(done) && target.commands == c0 + ShapesLines(target.iface, done)
      invariant var rest := TreeShapes(tcpHook.major, udpHook.major, bs[i..], IssuedBy(tcpHook, udpHook, alloc));
        done + rest.0 == total.0 && rest.1 == total.1
    {
      ghost var cur := IssuedBy(tcpHook, udpHook, alloc);
      ghost var first := BranchShape(tcpHook.major, udpHook.major, bs[i], cur);
      ghost var rest := TreeShapes(tcpHook.major, udpHook.major, bs[i + 1..], first.1);
      TreeShapesStep(tcpHook.major, udpHook.major, bs, i, cur);
      EmitBranch(target, alloc, tcpHook, udpHook, bs[i]);
      ShapesLinesAppend(target.iface, done, first.0);
      Associative(c0, ShapesLines(target.iface, done), ShapesLines(target.iface, first.0));
      Associative(done, first.0, rest.0);
      done := done + first.0;
      i := i + 1;
    }
    assert bs[i..] == [] && done + [] == done;
  }

  /** `build_tree(target, tcphook, udphook, args_list, upload, download)`: the
      strings are parsed first, so a bad one adds no line; then each branch
      in turn adds its lines under the hook of its protocol. */
  method BuildTree(target: TcTarget, alloc: Allocator, tcpHook: LtcNode, udpHook: LtcNode,
                   argsList: seq<string>, upload: Option<bool>, download: Option<bool>)
    returns (r: Result<(), BranchError>)
    requires alloc.Valid() && alloc.majors.Some? && alloc.handles.Some?
    requires tcpHook != udpHook && tcpHook.kind == QdiscNode && udpHook.kind == QdiscNode
    requires tcpHook.minor == 0 && udpHook.minor == 0
    modifies target, alloc, tcpHook, udpHook
    ensures alloc.Valid() && alloc.majors.Some? && alloc.handles.Some?
    ensures ParseList(argsList, upload, download).Failure? ==>
      r == Failure(ParseList(argsList, upload, download).error)
      && target.commands == old(target.commands)
      && IssuedBy(tcpHook, udpHook, alloc) == old(IssuedBy(tcpHook, udpHook, alloc))
    ensures ParseList(argsList, upload, download).Success? ==>
      var bs := ParseList(argsList, upload, download).value;
      r.Success? && AllReady(bs)
      && target.commands
        == old(target.commands) + TreeLines(target.iface, tcpHook.major, udpHook.major, bs, old(IssuedBy(tcpHook, udpHook, alloc))).0
      && IssuedBy(tcpHook, udpHook, alloc)
        == TreeLines(target.iface, tcpHook.major, udpHook.major, bs, old(IssuedBy(tcpHook, udpHook, alloc))).1
    ensures target.verbose == old(target.verbose) && target.filename == old(target.filename)
  {
    var parsed := ParseBranchList(argsList, upload, download);
    if parsed.Failure? {
      return Failure(parsed.error);
    }
    ParseListReady(argsList, upload, download);
    EmitBranches(target, alloc, tcpHook, udpHook, parsed.value);
    r := Success(());
  }
  // ---------------------------------------------------------------- determine_all_rates

  /** One protocol's `all` flag: `False` until an `all` branch of that
      protocol is seen, then the rate of the latest one (Python's `None` when
      it had no rate). */
  datatype AllRate = NoAll | AllWith(rate: Option<string>)

  datatype AllRates = AllRates(tcp: AllRate, udp: AllRate)

  const NO_ALL_RATES: AllRates := AllRates(NoAll, NoAll)

  /** The flag in Python truthiness: an `all` branch with a non-empty rate. */
  predicate Raised(a: AllRate) {
    a.AllWith? && RateGiven(a.rate)
  }

  /** The value `build_basics` receives for a flag. */
  function FlagRate(a: AllRate): Option<string> {
    if a.AllWith? then a.rate else None
  }

  predicate IsAll(b: Branch, protocol: string) {
    b.range == "all" && b.protocol == protocol
  }

  /** One string of the scan: parsed with `dontcare` (so the aliases resolve
      as for download); an `all` branch then sets its protocol's flag, unless
      the flag is already raised. */
  function ScanStep(s: string, f: AllRates): Result<AllRates, SimError> {
    match ParseOne(s, None, None, true)
    case Failure(e) => Failure(BadBranch(e))
    case Success(b) => FlagStep(b, f)
  }

  /** What a parsed branch does to the flags. */
  function FlagStep(b: Branch, f: AllRates): Result<AllRates, SimError> {
    if IsAll(b, "tcp") then
      if Raised(f.tcp) then Failure(DuplicateAll("tcp")) else Success(f.(tcp := AllWith(b.rate)))
    else if IsAll(b, "udp") then
      if Raised(f.udp) then Failure(DuplicateAll("udp")) else Success(f.(udp := AllWith(b.rate)))
    else Success(f)
  }

  /** The strings scanned in order from the flags `f`; the first failure ends
      the scan, and only a parse or a duplicate `all` can fail it. */
  function Scan(strs: seq<string>, f: AllRates): (r: Result<AllRates, SimError>)
    ensures r.Failure? ==> r.error.BadBranch? || r.error == DuplicateAll("tcp") || r.error == DuplicateAll("udp")
    decreases |strs|
  {
    if strs == [] then Success(f)
    else
      match ScanStep(strs[0], f)
      case Failure(e) => Failure(e)
      case Success(g) => Scan(strs[1..], g)
  }

  /** A scan that fails to parse fails with the error of one of its strings. */
  lemma {:induction false} ScanBadBranch(strs: seq<string>, f: AllRates)
    requires Scan(strs, f).Failure? && Scan(strs, f).error.BadBranch?
    ensures exists i :: 0 <= i < |strs| && ParseAliased(strs[i], false) == Failure(Scan(strs, f).error.e)
    decreases |strs|
  {
    var parsed := ParseOne(strs[0], None, None, true);
    assert parsed == ParseAliased(strs[0], false);
    if parsed.Success? && FlagStep(parsed.value, f).Success? {
      var g := FlagStep(parsed.value, f).value;
      ScanBadBranch(strs[1..], g);
      var i :| 0 <= i < |strs[1..]| && ParseAliased(strs[1..][i], false) == Failure(Scan(strs, f).error.e);
      assert strs[i + 1] == strs[1..][i];
    }
  }

  lemma DropFirst<T>(xs: seq<T>, i: nat, ys: seq<T>)
    requires i < |xs|
    ensures (xs[i..] + ys)[0] == xs[i] && (xs[i..] + ys)[1..] == xs[i + 1..] + ys
  {
    assert xs[i..] == [xs[i]] + xs[i + 1..];
  }

  /** The lists' strings in order, a missing list counting as empty. */
  function Flatten(lists: seq<Option<seq<string>>>): seq<string> {
    if lists == [] then []
    else (if lists[0].Some? then lists[0].value else []) + Flatten(lists[1..])
  }

  /** What `determine_all_rates(upload, download)` returns or raises. */
  function AllRatesOf(upload: Option<seq<string>>, download: Option<seq<string>>): Result<AllRates, SimError> {
    Scan(Flatten([upload, download]), NO_ALL_RATES)
  }

  /** The body of the inner loop of `determine_all_rates`: one string parsed
      and, for an `all` branch, checked against its protocol's flag. */
  method ScanString(s: string, flags: AllRates) returns (r: Result<AllRates, SimError>)
    ensures r == ScanStep(s, flags)
  {
    var parser := NewBranchParser(s, None, None, true);
    if parser.Failure? {
      return Failure(BadBranch(parser.error));
    }
    var parsed := parser.value.AsDict();
    r := Success(flags);
    if parsed["range"] == Some("all") && parsed["protocol"] == Some("tcp") {
      if Raised(flags.tcp) {
        return Failure(DuplicateAll("tcp"));
      }
      r := Success(flags.(tcp := AllWith(parsed["rate"])));
    } else if parsed["range"] == Some("all") && parsed["protocol"] == Some("udp") {
      if Raised(flags.udp) {
        return Failure(DuplicateAll("udp"));
      }
      r := Success(flags.(udp := AllWith(parsed["rate"])));
    }
  }

  /** `determine_all_rates(upload, download)`: both lists in turn, a missing
      or empty one skipped, each string parsed without a direction. */
  method DetermineAllRates(upload: Option<seq<string>>, download: Option<seq<string>>)
    returns (r: Result<AllRates, SimError>)
    ensures r == AllRatesOf(upload, download)
  {
    var lists := [upload, download];
    var flags := NO_ALL_RATES;
    for k := 0 to |lists|
      invariant AllRatesOf(upload, download) == Scan(Flatten(lists[k..]), flags)
    {
      assert lists[k..][0] == lists[k] && lists[k..][1..] == lists[k + 1..];
      ghost var rest := Flatten(lists[k + 1..]);
      if lists[k].None? || lists[k].value == [] {
        assert Flatten(lists[k..]) == rest;
        continue;
      }
      var groups := lists[k].value;
      assert groups[0..] + rest == Flatten(lists[k..]);
      var i := 0;
      while i < |groups|
        invariant 0 <= i <= |groups|
        invariant AllRatesOf(upload, download) == Scan(groups[i..] + rest, flags)
      {
        DropFirst(groups, i, rest);
        var step := ScanString(groups[i], flags);
        if step.Failure? {
          return Failure(step.error);
        }
        flags := step.value;
        i := i + 1;
      }
      assert groups[i..] + rest == rest;
    }
    assert Flatten(lists[|lists|..]) == [];
    r := Success(flags);
  }

  // ---------------------------------------------------------------- the scan, by its outcome

  /** Only the last `all` branch of a protocol may carry a rate. */
  predicate OneRatedAll(bs: seq<Branch>) {
    forall i, j :: 0 <= i < j < |bs| && bs[i].range == "all" && IsAll(bs[j], bs[i].protocol) ==> !RateGiven(bs[i].rate)
  }

  /** The flag a protocol ends with: the rate of its last `all` branch. */
  function LastAll(bs: seq<Branch>, protocol: string): AllRate {
    if bs == [] then NoAll
    else if IsAll(bs[|bs| - 1], protocol) then AllWith(bs[|bs| - 1].rate)
    else LastAll(bs[..|bs| - 1], protocol)
  }

  /** Scanning one more string: the scan so far, then that string's step. */
  lemma {:induction false} ScanSnoc(strs: seq<string>, s: string, f: AllRates)
    ensures Scan(strs + [s], f) == match Scan(strs, f)
      case Failure(e) => Failure(e)
      case Success(g) => ScanStep(s, g)
    decreases |strs|
  {
    if strs == [] {
      assert [] + [s] == [s] && [s][1..] == [];
    } else {
      assert (strs + [s])[0] == strs[0] && (strs + [s])[1..] == strs[1..] + [s];
      match ScanStep(strs[0], f)
      case Failure(e) =>
      case Success(g) => ScanSnoc(strs[1..], s, g);
    }
  }

  /** Under `OneRatedAll`, a protocol's flag is raised exactly when one of its
      `all` branches carries a rate. */
  lemma {:induction false} LastAllRaised(bs: seq<Branch>, protocol: string)
    requires OneRatedAll(bs)
    ensures Raised(LastAll(bs, protocol)) <==>
      exists i :: 0 <= i < |bs| && IsAll(bs[i], protocol) && RateGiven(bs[i].rate)
    decreases |bs|
  {
    if bs != [] {
      var n := |bs| - 1;
      var front := bs[..n];
      assert forall i :: 0 <= i < n ==> front[i] == bs[i];
      if IsAll(bs[n], protocol) {
        forall i | 0 <= i < n && IsAll(bs[i], protocol)
          ensures !RateGiven(bs[i].rate)
        {
          assert IsAll(bs[n], bs[i].protocol);
        }
      } else {
        assert OneRatedAll(front);
        LastAllRaised(front, protocol);
        if exists i :: 0 <= i < |bs| && IsAll(bs[i], protocol) && RateGiven(bs[i].rate) {
          var i :| 0 <= i < |bs| && IsAll(bs[i], protocol) && RateGiven(bs[i].rate);
          assert i < n && IsAll(front[i], protocol);
        }
      }
    }
  }

  /** One more branch keeps `OneRatedAll` exactly when the earlier `all`
      branches of its protocol (if it is one) carry no rate. */
  lemma OneRatedAllSnoc(bs: seq<Branch>, b: Branch)
    ensures OneRatedAll(bs + [b]) <==>
      (OneRatedAll(bs)
       && (b.range == "all" ==> forall i :: 0 <= i < |bs| && IsAll(bs[i], b.protocol) ==> !RateGiven(bs[i].rate)))
  {
    var all := bs + [b];
    assert forall i :: 0 <= i < |bs| ==> all[i] == bs[i];
    assert all[|bs|] == b;
    if OneRatedAll(all) && b.range == "all" {
      forall i | 0 <= i < |bs| && IsAll(bs[i], b.protocol)
        ensures !RateGiven(bs[i].rate)
      {
        assert IsAll(all[i], b.protocol) && IsAll(all[|bs|], b.protocol);
      }
    }
  }

  /** The flags of a list of branches. */
  function LastAlls(bs: seq<Branch>): AllRates {
    AllRates(LastAll(bs, "tcp"), LastAll(bs, "udp"))
  }

  lemma Snoc<T>(xs: seq<T>)
    requires xs != []
    ensures xs[..|xs| - 1] + [xs[|xs| - 1]] == xs
  {
  }

  /** One branch more, under the reference: the step fails exactly when the
      branch breaks `OneRatedAll`, and otherwise gives the new last rates. */
  lemma FlagStepReference(front: seq<Branch>, b: Branch)
    requires OneRatedAll(front) && b.protocol in PROTOCOLS
    ensures FlagStep(b, LastAlls(front)).Success? <==> OneRatedAll(front + [b])
    ensures FlagStep(b, LastAlls(front)).Success? ==> FlagStep(b, LastAlls(front)).value == LastAlls(front + [b])
  {
    var bs := front + [b];
    assert bs[..|bs| - 1] == front && bs[|bs| - 1] == b;
    OneRatedAllSnoc(front, b);
    LastAllRaised(front, b.protocol);
  }

  /** Reference for the scan of strings that all parse: it succeeds exactly
      when only the last `all` branch of each protocol carries a rate, and then
      each protocol's flag is the rate of its last `all` branch. */
  lemma {:induction false} ScanReference(strs: seq<string>, bs: seq<Branch>)
    requires |bs| == |strs|
    requires forall i :: 0 <= i < |strs| ==> ParseAliased(strs[i], false) == Success(bs[i])
    ensures Scan(strs, NO_ALL_RATES).Success? <==> OneRatedAll(bs)
    ensures OneRatedAll(bs) ==> Scan(strs, NO_ALL_RATES).value == LastAlls(bs)
    decreases |strs|
  {
    if strs == [] {
      return;
    }
    var n := |strs| - 1;
    var front, b := bs[..n], bs[n];
    Snoc(strs);
    Snoc(bs);
    ScanReference(strs[..n], front);
    ScanSnoc(strs[..n], strs[n], NO_ALL_RATES);
    OneRatedAllSnoc(front, b);
    if OneRatedAll(front) {
      assert ParseOne(strs[n], None, None, true) == Success(b);
      assert b.protocol in PROTOCOLS;
      FlagStepReference(front, b);
    }
  }
  // ---------------------------------------------------------------- one chain's recipe

  /** The lines `build_basics` and then `build_tree` add to a chain whose next
      major is `m` and next filter handle `h`, and those two counters after
      them: the protocol split takes three majors and two handles, and the
      tree hangs from the two hooks `m+2:0` and `m+3:0`. */
  function RecipeLines(iface: string, chain: string, rates: AllRates, bs: seq<Branch>, m: nat, h: nat): (seq<string>, nat, nat)
    requires AllReady(bs)
  {
    var tree := TreeLines(iface, m + 2, m + 3, bs, Issued(0, 0, 0, 0, m + 3, h + 2));
    (BasicsLines(iface, chain, m, RateOr(FlagRate(rates.tcp)), RateOr(FlagRate(rates.udp))) + tree.0,
     tree.1.majors, tree.1.handles)
  }

  /** A recipe opens with the root htb on the next major, and takes three
      majors and two filter handles for the protocol split, then one handle per
      placed branch and one major per netem qdisc. */
  lemma RecipeCounters(iface: string, chain: string, rates: AllRates, bs: seq<Branch>, m: nat, h: nat)
    requires AllReady(bs)
    ensures var r := RecipeLines(iface, chain, rates, bs, m, h);
      var t := TreeShapes(m + 2, m + 3, bs, Issued(0, 0, 0, 0, m + 3, h + 2));
      && r.0 != [] && r.0[0] == QdiscLine(iface, chain, IdText(NodeId(m + 1, 0)), "htb")
      && r.1 == m + 3 + NetemCount(t.0) && r.2 == h + 2 + |t.0|
  {
    TreeShapesCounters(m + 2, m + 3, bs, Issued(0, 0, 0, 0, m + 3, h + 2));
  }

  /** What one direction's recipe adds to a chain: nothing for an empty list;
      otherwise the all-rates of both lists, then the protocol split and the
      tree of `strs` parsed for the direction. */
  function ChainWork(iface: string, chain: string, strs: seq<string>, upload: Option<seq<string>>,
                     download: Option<seq<string>>, up: bool, m: nat, h: nat): Result<(seq<string>, nat, nat), SimError>
  {
    if strs == [] then Success(([], m, h))
    else
      match AllRatesOf(upload, download)
      case Failure(e) => Failure(e)
      case Success(rates) =>
        match ParseList(strs, if up then Some(true) else None, if up then None else Some(true))
        case Failure(e) => Failure(BadBranch(e))
        case Success(bs) =>
          ParseListReady(strs, if up then Some(true) else None, if up then None else Some(true));
          Success(RecipeLines(iface, chain, rates, bs, m, h))
  }

  /** The body of `marshal`'s `if self._args.upload:` (or `download`) block on
      one chain: `determine_all_rates`, `build_basics`, `build_tree`. */
  method BuildChain(target: TcTarget, alloc: Allocator, strs: seq<string>, upload: Option<seq<string>>,
                    download: Option<seq<string>>, up: bool)
    returns (r: Result<(), SimError>)
    requires alloc.Valid() && alloc.majors.Some? && alloc.handles.Some?
    modifies target, alloc
    ensures alloc.Valid() && alloc.majors.Some? && alloc.handles.Some?
    ensures var w := ChainWork(target.iface, target.chainName, strs, upload, download, up,
                               old(alloc.majors.value), old(alloc.handles.value));
      && (w.Failure? ==> r == Failure(w.error))
      && (w.Success? ==> r.Success? && target.commands == old(target.commands) + w.value.0
                         && alloc.majors == Some(w.value.1) && alloc.handles == Some(w.value.2))
    ensures target.verbose == old(target.verbose) && target.filename == old(target.filename)
  {
    if strs == [] {
      assert target.commands == target.commands + [];
      return Success(());
    }
    var rates := DetermineAllRates(upload, download);
    if rates.Failure? {
      return Failure(rates.error);
    }
    ghost var m, h, c0 := alloc.majors.value, alloc.handles.value, target.commands;
    var tcpHook, udpHook := BuildBasics(target, alloc, FlagRate(rates.value.tcp), FlagRate(rates.value.udp));
    ghost var c1 := target.commands;
    assert IssuedBy(tcpHook, udpHook, alloc) == Issued(0, 0, 0, 0, m + 3, h + 2);
    var built := BuildTree(target, alloc, tcpHook, udpHook, strs,
                           if up then Some(true) else None, if up then None else Some(true));
    if built.Failure? {
      return Failure(BadBranch(built.error));
    }
    ghost var w := ChainWork(target.iface, target.chainName, strs, upload, download, up, m, h);
    ghost var basics := BasicsLines(target.iface, target.chainName, m, RateOr(FlagRate(rates.value.tcp)), RateOr(FlagRate(rates.value.udp)));
    Associative(c0, basics, target.commands[|c1|..]);
    r := Success(());
  }
  // ---------------------------------------------------------------- setup

  /** The given fields, in order. */
  function Present(fields: seq<Option<string>>): (r: seq<string>)
    ensures |r| <= |fields|
  {
    if fields == [] then []
    else (if fields[0].Some? then [fields[0].value] else []) + Present(fields[1..])
  }

  /** `Present` keeps exactly the given values: each given field is kept, and
      everything kept was given. */
  lemma {:induction false} PresentMembers(fields: seq<Option<string>>)
    ensures forall j :: 0 <= j < |fields| && fields[j].Some? ==> fields[j].value in Present(fields)
    ensures forall x :: x in Present(fields) ==> Some(x) in fields
  {
    if fields != [] {
      var rest := fields[1..];
      PresentMembers(rest);
      forall j | 0 <= j < |fields| && fields[j].Some?
        ensures fields[j].value in Present(fields)
      {
        if j > 0 {
          assert fields[j] == rest[j - 1];
        }
      }
    }
  }

  /** The token `setup` appends: the given fields joined with `:`. */
  function SetupToken(protocol: Option<string>, porttype: Option<string>, range: Option<string>,
                      rate: Option<string>, jitter: Option<string>): string {
    Join(":", Present([protocol, porttype, range, rate, jitter]))
  }

  /** A branch given field by field to `setup` yields its own text. */
  lemma SetupTokenRender(b: Branch)
    ensures SetupToken(Some(b.protocol), b.porttype, Some(b.range), b.rate, b.loss) == Render(b)
  {
    var fs := [Some(b.protocol), b.porttype, Some(b.range), b.rate, b.loss];
    var p, t, g, a, l := [b.protocol], OptField(b.porttype), [b.range], OptField(b.rate), OptField(b.loss);
    var f1, f2, f3, f4 := fs[1..], fs[2..], fs[3..], fs[4..];
    assert f4[1..] == [] && f3[1..] == f4 && f2[1..] == f3 && f1[1..] == f2 && fs[1..] == f1;
    assert Present(f4) == l + [] == l;
    assert Present(f3) == a + l;
    assert Present(f2) == g + (a + l);
    assert Present(f1) == t + (g + (a + l));
    calc {
      Present(fs);
      p + (t + (g + (a + l)));
      { Associative(g, a, l); }
      p + (t + ((g + a) + l));
      { Associative(t, g + a, l); Associative(t, g, a); }
      p + (((t + g) + a) + l);
      { Associative(p, (t + g) + a, l); Associative(p, t + g, a); Associative(p, t, g); }
      (((p + t) + g) + a) + l;
      Fields(b);
    }
  }

  /** Round trip: the token `setup` stores for an acceptable branch parses back
      to that branch, its port type resolved for the direction. */
  lemma SetupParsesBack(b: Branch, up: bool)
    requires Acceptable(b, ALIASED_PORT_TYPES)
    ensures ParseAliased(SetupToken(Some(b.protocol), b.porttype, Some(b.range), b.rate, b.loss), up)
      == Success(b.(porttype := DeducePortType(b.porttype, up)))
  {
    SetupTokenRender(b);
    ParseAliasedOfRender(b, up, false);
    assert Render(b) + "" == Render(b);
  }

  // ---------------------------------------------------------------- marshal

  /** `not ifbdevice` with a download list: the ifb module's name, so that the
      next free ifb device is used. */
  function DefaultIfb(ifbdevice: Option<string>, download: Option<seq<string>>): Option<string> {
    if download.Some? && (ifbdevice.None? || ifbdevice.value == "") then Some("ifb") else ifbdevice
  }

  /** The egress half of `marshal` on the interface's egress chain, from the
      next major `m` and handle `h`: the optional clear line, then the upload
      recipe; and the counters after it. Nothing without an upload list. */
  function EgressWork(iface: string, clear: bool, upload: Option<seq<string>>, download: Option<seq<string>>,
                      m: nat, h: nat): Result<(seq<string>, nat, nat), SimError>
  {
    if upload.None? then Success(([], m, h))
    else
      match ChainWork(iface, "root", upload.value, upload, download, true, m, h)
      case Failure(e) => Failure(e)
      case Success(w) => Success(((if clear then [ClearLine(iface, "root")] else []) + w.0, w.1, w.2))
  }

  /** The ingress half: for the interface's ingress chain the optional clear
      line and, with a non-empty download list, the redirect to `ifb`; for the
      ifb device's egress chain the optional clear line and the download
      recipe; and the counters after it. Nothing without a download list. */
  function IngressWork(iface: string, ifb: string, clear: bool, upload: Option<seq<string>>,
                       download: Option<seq<string>>, m: nat, h: nat): Result<(seq<string>, seq<string>, nat, nat), SimError>
  {
    if download.None? then Success(([], [], m, h))
    else
      var redirect := if download.value != [] then [RedirectQdiscLine(iface), RedirectFilterLine(iface, ifb)] else [];
      var ingress := (if clear then [ClearLine(iface, "ingress")] else []) + redirect;
      match ChainWork(ifb, "root", download.value, upload, download, false, m, h)
      case Failure(e) => Failure(e)
      case Success(w) => Success((ingress, (if clear then [ClearLine(ifb, "root")] else []) + w.0, w.1, w.2))
  }

  /** What `marshal` hands to the chains' `marshal()` calls, in call order, and
      the counters after it; `eg`, `ing` and `ifbLog` are the logs the
      interface's egress and ingress chains and the ifb chain hold when their
      work starts. Egress comes first; the ifb recipe takes its numbers after
      the egress recipe's. */
  function MarshalOutcome(iface: string, ifb: string, clear: bool, upload: Option<seq<string>>,
                          download: Option<seq<string>>, eg: seq<string>, ing: seq<string>, ifbLog: seq<string>,
                          m: nat, h: nat): Result<(seq<string>, nat, nat), SimError>
  {
    match EgressWork(iface, clear, upload, download, m, h)
    case Failure(e) => Failure(e)
    case Success(egress) =>
      match IngressWork(iface, ifb, clear, upload, download, egress.1, egress.2)
      case Failure(e) => Failure(e)
      case Success(ingress) =>
        Success(((if upload.Some? then eg + egress.0 else [])
                 + (if download.Some? then ing + ingress.0 + ifbLog + ingress.1 else []),
                 ingress.2, ingress.3))
  }

  /** The egress half with a non-empty upload list takes three majors plus one
      per netem qdisc of the upload tree. */
  lemma EgressMajors(iface: string, clear: bool, upload: seq<string>, download: seq<string>,
                     bs: seq<Branch>, m: nat, h: nat)
    requires upload != []
    requires AllRatesOf(Some(upload), Some(download)).Success?
    requires ParseList(upload, Some(true), None) == Success(bs)
    ensures EgressWork(iface, clear, Some(upload), Some(download), m, h).Success?
    ensures EgressWork(iface, clear, Some(upload), Some(download), m, h).value.1
        == m + 3 + NetemCount(TreeShapes(m + 2, m + 3, bs, Issued(0, 0, 0, 0, m + 3, h + 2)).0)
  {
    ParseListReady(upload, Some(true), None);
    RecipeCounters(iface, "root", AllRatesOf(Some(upload), Some(download)).value, bs, m, h);
  }

  /** With a non-empty download list, the ifb chain's recipe opens (after the
      optional clear) with its root htb on the major after `m`, the last one
      handed out before it. */
  lemma IfbRootNext(iface: string, ifb: string, clear: bool, upload: Option<seq<string>>, download: seq<string>,
                    m: nat, h: nat)
    requires download != []
    requires IngressWork(iface, ifb, clear, upload, Some(download), m, h).Success?
    ensures var i := IngressWork(iface, ifb, clear, upload, Some(download), m, h).value;
      var k := if clear then 1 else 0;
      k < |i.1| && i.1[k] == QdiscLine(ifb, "root", IdText(NodeId(m + 1, 0)), "htb")
  {
    var ds := ParseList(download, None, Some(true)).value;
    ParseListReady(download, None, Some(true));
    RecipeCounters(ifb, "root", AllRatesOf(upload, Some(download)).value, ds, m, h);
  }

  /** The counters are shared by all chains of a run: with both lists given
      and not empty, the ifb chain's recipe opens with its root htb on the
      major right after the egress recipe's last one (after a five-qdisc egress
      tree from a fresh run, `6:0`). */
  lemma IfbRootAfterEgress(iface: string, ifb: string, clear: bool, upload: seq<string>, download: seq<string>,
                           m: nat, h: nat)
    requires upload != [] && download != []
    requires MarshalOutcome(iface, ifb, clear, Some(upload), Some(download), [], [], [], m, h).Success?
    ensures var e := EgressWork(iface, clear, Some(upload), Some(download), m, h);
      var i := IngressWork(iface, ifb, clear, Some(upload), Some(download), e.value.1, e.value.2);
      var k := if clear then 1 else 0;
      && e.Success? && i.Success?
      && k < |i.value.1| && i.value.1[k] == QdiscLine(ifb, "root", IdText(NodeId(e.value.1 + 1, 0)), "htb")
  {
    var e := EgressWork(iface, clear, Some(upload), Some(download), m, h);
    IfbRootNext(iface, ifb, clear, Some(upload), download, e.value.1, e.value.2);
  }

  /** The egress half of `marshal` for an upload list: the optional clear,
      the recipe, `configure(verbose=...)`, and the log handed to `marshal()`. */
  method MarshalEgress(dev: NetDevice, alloc: Allocator, clear: bool, verbose: bool,
                       upload: seq<string>, download: Option<seq<string>>)
    returns (r: Result<(), SimError>, handed: seq<string>)
    requires dev.Valid() && alloc.Valid() && alloc.majors.Some? && alloc.handles.Some?
    modifies dev.egress, alloc
    ensures alloc.Valid() && alloc.majors.Some? && alloc.handles.Some?
    ensures var w := EgressWork(dev.name, clear, Some(upload), download, old(alloc.majors.value), old(alloc.handles.value));
      && (w.Failure? ==> r == Failure(w.error))
      && (w.Success? ==> r.Success? && handed == old(dev.egress.commands) + w.value.0
                         && alloc.majors == Some(w.value.1) && alloc.handles == Some(w.value.2))
    ensures dev.egress.verbose == old(dev.egress.verbose) || dev.egress.verbose == PBool(verbose)
  {
    handed := [];
    ghost var c0 := dev.egress.commands;
    ghost var m, h := alloc.majors.value, alloc.handles.value;
    ghost var clearEg := if clear then [ClearLine(dev.name, "root")] else [];
    if clear {
      dev.egress.Clear();
    }
    assert dev.egress.commands == c0 + clearEg;
    ghost var w := ChainWork(dev.name, "root", upload, Some(upload), download, true, m, h);
    r := BuildChain(dev.egress, alloc, upload, Some(upload), download, true);
    if r.Failure? {
      return;
    }
    var ok := dev.egress.Configure(map["verbose" := PBool(verbose)]);
    Associative(c0, clearEg, w.value.0);
    handed := dev.egress.commands;
  }

  /** The ingress half of `marshal` for a download list: the optional clears of
      the interface's ingress chain and the ifb device's egress chain, the
      redirect when the list is not empty, the recipe on the ifb chain, then
      `configure(verbose=...)` and the logs handed to `marshal()`, ingress
      first. */
  method MarshalIngress(dev: NetDevice, ifb: NetDevice, alloc: Allocator, clear: bool, verbose: bool,
                        upload: Option<seq<string>>, download: seq<string>)
    returns (r: Result<(), SimError>, handed: seq<string>)
    requires dev.Valid() && ifb.Valid() && dev.ingress != ifb.egress
    requires alloc.Valid() && alloc.majors.Some? && alloc.handles.Some?
    modifies dev.ingress, ifb.egress, alloc
    ensures alloc.Valid() && alloc.majors.Some? && alloc.handles.Some?
    ensures var w := IngressWork(dev.name, ifb.name, clear, upload, Some(download), old(alloc.majors.value), old(alloc.handles.value));
      && (w.Failure? ==> r == Failure(w.error))
      && (w.Success? ==> r.Success? && handed == old(dev.ingress.commands) + w.value.0 + old(ifb.egress.commands) + w.value.1
                         && alloc.majors == Some(w.value.2) && alloc.handles == Some(w.value.3))
  {
    handed := [];
    ghost var i0, e0 := dev.ingress.commands, ifb.egress.commands;
    ghost var m, h := alloc.majors.value, alloc.handles.value;
    ghost var clearIng := if clear then [ClearLine(dev.name, "ingress")] else [];
    ghost var clearIfb := if clear then [ClearLine(ifb.name, "root")] else [];
    ghost var redirect := if download != [] then [RedirectQdiscLine(dev.name), RedirectFilterLine(dev.name, ifb.name)] else [];
    if clear {
      dev.ingress.Clear();
      ifb.egress.Clear();
    }
    if download != [] {
      dev.ingress.SetRedirect(dev.name, ifb.name);
    }
    Associative(i0, clearIng, redirect);
    assert dev.ingress.commands == i0 + (clearIng + redirect);
    assert ifb.egress.commands == e0 + clearIfb;
    ghost var w := ChainWork(ifb.name, "root", download, upload, Some(download), false, m, h);
    r := BuildChain(ifb.egress, alloc, download, upload, Some(download), false);
    if r.Failure? {
      return;
    }
    var ok := dev.ingress.Configure(map["verbose" := PBool(verbose)]);
    handed := dev.ingress.commands;
    ok := ifb.egress.Configure(map["verbose" := PBool(verbose)]);
    Associative(e0, clearIfb, w.value.0);
    assert ifb.egress.commands == e0 + (clearIfb + w.value.0);
    Associative(handed, e0, clearIfb + w.value.0);
    handed := handed + ifb.egress.commands;
  }

  /** The work of `marshal` once both devices are known: the egress half when
      there is an upload list, then the ingress half when there is a download
      list. `ifbLog` is the ifb chain's log when the ingress half starts: the
      one it had on entry when the ifb device is another device. */
  method MarshalDevices(dev: NetDevice, ifb: DeviceRef, alloc: Allocator, clear: bool, verbose: bool,
                        upload: Option<seq<string>>, download: Option<seq<string>>)
    returns (r: Result<(), SimError>, marshalled: seq<string>, ghost ifbLog: seq<string>)
    requires dev.Valid()
    requires download.Some? ==> ifb.Device? && ifb.dev.Valid() && Apart(dev, ifb.dev)
    requires alloc.Valid() && alloc.majors.Some? && alloc.handles.Some?
    modifies dev.egress, dev.ingress, alloc, if ifb.Device? then {ifb.dev.egress} else {}
    ensures alloc.Valid()
    ensures ifb.Device? && ifb.dev != dev ==> ifbLog == old(ifb.dev.egress.commands)
    ensures var o := MarshalOutcome(dev.name, if ifb.Device? then ifb.dev.name else "", clear, upload, download,
                                    old(dev.egress.commands), old(dev.ingress.commands), ifbLog,
                                    old(alloc.majors.value), old(alloc.handles.value));
      && (o.Failure? ==> r == Failure(o.error))
      && (o.Success? ==> r.Success? && marshalled == o.value.0
                         && alloc.majors == Some(o.value.1) && alloc.handles == Some(o.value.2))
  {
    ghost var m0, h0 := alloc.majors.value, alloc.handles.value;
    ghost var ifbName := if ifb.Device? then ifb.dev.name else "";
    ghost var eg := EgressWork(dev.name, clear, upload, download, m0, h0);
    marshalled, ifbLog := [], if ifb.Device? then ifb.dev.egress.commands else [];
    r := Success(());
    if upload.Some? {
      r, marshalled := MarshalEgress(dev, alloc, clear, verbose, upload.value, download);
      if r.Failure? {
        return;
      }
    }
    assert eg.Success? && alloc.majors == Some(eg.value.1) && alloc.handles == Some(eg.value.2);
    if download.Some? {
      var ifbDev := ifb.dev;
      ifbLog := ifbDev.egress.commands;
      var handed;
      r, handed := MarshalIngress(dev, ifbDev, alloc, clear, verbose, upload, download.value);
      if r.Failure? {
        return;
      }
      marshalled := marshalled + handed;
    }
  }

  /** The two lookups of `marshal`: the interface first; then, once it is
      found, the ifb device option gets its default for a download list
      (`ifbName`) and is looked up in turn. */
  method ResolveDevices(registry: DeviceRegistry, interface: string, ifbdevice: Option<string>,
                        download: Option<seq<string>>, existing: seq<string>, sink: Sink)
    returns (r: Result<(NetDevice, DeviceRef), DevError>, ifbName: Option<string>)
    requires registry.Valid()
    modifies registry
    ensures registry.Valid()
    ensures ifbName == ifbdevice || ifbName == DefaultIfb(ifbdevice, download)
    ensures old(registry.ifaceMap).None? ==> r == Failure(Uninitialised) && ifbName == ifbdevice
    ensures r.Success? ==>
      var (dev, ifb) := r.value;
      && ifbName == DefaultIfb(ifbdevice, download)
      && old(registry.ifaceMap).Some?
      && (interface in old(registry.ifaceMap).value ==> dev == old(registry.ifaceMap).value[interface])
      && (interface !in old(registry.ifaceMap).value ==> fresh(dev))
      && dev.Valid()
      && (fresh(dev) ==> fresh(dev.egress) && fresh(dev.ingress)
                         && dev.egress.commands == [] && dev.ingress.commands == [])
      && (!fresh(dev) ==> dev in old(registry.ifaceMap).value.Values
                          && dev.egress in old(registry.Chains()) && dev.ingress in old(registry.Chains()))
      && (ifbName.None? ==> ifb == NullDevice)
      && (ifbName.Some? ==> ifb.Device? && ifb.dev.Valid() && Apart(dev, ifb.dev))
      && (ifb.Device? && fresh(ifb.dev) ==> fresh(ifb.dev.egress) && ifb.dev.egress.commands == [])
      && (ifb.Device? && !fresh(ifb.dev) ==> ifb.dev in old(registry.ifaceMap).value.Values
                                             && ifb.dev.egress in old(registry.Chains()))
  {
    ifbName := ifbdevice;
    ghost var memo := registry.ifaceMap;
    var found := registry.GetDevice(Some(interface), existing, sink);
    if found.Failure? {
      return Failure(found.error), ifbName;
    }
    var dev := found.value.dev;
    assert registry.ifaceMap.value.Values <= memo.value.Values + {dev};
    if download.Some? && (ifbdevice.None? || ifbdevice.value == "") {
      ifbName := Some("ifb");
    }
    var ifbFound := registry.GetDevice(ifbName, existing, sink);
    if ifbFound.Failure? {
      return Failure(ifbFound.error), ifbName;
    }
    r := Success((dev, ifbFound.value));
  }

  // ---------------------------------------------------------------- SimNetPlugin

  /** The plugin and its options (`self._args`). A missing `--upload` or
      `--download` list is `None`. */
  class SimNetPlugin {
    var clear: bool
    var verbose: bool
    var interface: string
    var ifbdevice: Option<string>
    var upload: Option<seq<string>>
    var download: Option<seq<string>>
    /** Set by the initializer and read nowhere. */
    var clearonlyMode: bool

    /** `SimNetPlugin()` without arguments: the command line's defaults and
        two empty lists. */
    constructor ()
      ensures !clear && !verbose && interface == "lo" && ifbdevice.None?
      ensures upload == Some([]) && download == Some([]) && !clearonlyMode
    {
      clear, verbose, interface, ifbdevice := false, false, "lo", None;
      upload, download := Some([]), Some([]);
      clearonlyMode := false;
    }

    /** `SimNetPlugin(args)`: the options as the command line parsed them. */
    constructor FromArgs(clear: bool, verbose: bool, interface: string, ifbdevice: Option<string>,
                         upload: Option<seq<string>>, download: Option<seq<string>>)
      ensures this.clear == clear && this.verbose == verbose && this.interface == interface
      ensures this.ifbdevice == ifbdevice && this.upload == upload && this.download == download
      ensures !clearonlyMode
    {
      this.clear, this.verbose, this.interface, this.ifbdevice := clear, verbose, interface, ifbdevice;
      this.upload, this.download := upload, download;
      clearonlyMode := false;
    }

    /** `configure(clear, verbose, interface, ifbdevice)`: each option given
        (`None` stands for `Undef`) replaces the stored one. */
    method Configure(clear: Option<bool>, verbose: Option<bool>, interface: Option<string>,
                     ifbdevice: Option<Option<string>>)
      modifies this
      ensures this.clear == (if clear.Some? then clear.value else old(this.clear))
      ensures this.verbose == (if verbose.Some? then verbose.value else old(this.verbose))
      ensures this.interface == (if interface.Some? then interface.value else old(this.interface))
      ensures this.ifbdevice == (if ifbdevice.Some? then ifbdevice.value else old(this.ifbdevice))
      ensures upload == old(upload) && download == old(download) && clearonlyMode == old(clearonlyMode)
    {
      if clear.Some? { this.clear := clear.value; }
      if verbose.Some? { this.verbose := verbose.value; }
      if interface.Some? { this.interface := interface.value; }
      if ifbdevice.Some? { this.ifbdevice := ifbdevice.value; }
    }

    /** `setup(upload, download, protocol, porttype, range, rate, jitter)`:
        exactly one direction must be set; the given fields, joined with `:`,
        are appended to that direction's list (which must exist). */
    method Setup(upload: bool, download: bool, protocol: Option<string>, porttype: Option<string>,
                 range: Option<string>, rate: Option<string>, jitter: Option<string>)
      returns (r: Result<(), SimError>)
      modifies this
      ensures var token := SetupToken(protocol, porttype, range, rate, jitter);
        && (upload == download ==> r == Failure(NotOneDirection) && this.upload == old(this.upload) && this.download == old(this.download))
        && (upload && !download ==>
              if old(this.upload).None? then r == Failure(NoList) && this.upload == old(this.upload) && this.download == old(this.download)
              else r.Success? && this.upload == Some(old(this.upload).value + [token]) && this.download == old(this.download))
        && (download && !upload ==>
              if old(this.download).None? then r == Failure(NoList) && this.upload == old(this.upload) && this.download == old(this.download)
              else r.Success? && this.download == Some(old(this.download).value + [token]) && this.upload == old(this.upload))
      ensures clear == old(clear) && verbose == old(verbose) && interface == old(interface)
      ensures ifbdevice == old(ifbdevice) && clearonlyMode == old(clearonlyMode)
    {
      if upload == download {
        return Failure(NotOneDirection);
      }
      var token := SetupToken(protocol, porttype, range, rate, jitter);
      var list := if upload then this.upload else this.download;
      if list.None? {
        return Failure(NoList);
      }
      if upload {
        this.upload := Some(list.value + [token]);
      } else {
        this.download := Some(list.value + [token]);
      }
      r := Success(());
    }

    /** `marshal()`, with the devices resolved through `registry` over the
        existing device names `existing`. The interface is looked up, the ifb
        device defaults to the ifb module when there is a download list, and is
        looked up in turn. With an upload list the interface's egress chain gets
        its work and is marshalled; with a download list the interface's ingress
        chain and then the ifb device's egress chain get theirs, and are
        marshalled in that order. `marshalled` is what those `marshal()` calls
        are handed, in order; `devices` are the two devices, unless a lookup
        failed; `starts` are the logs of the three chains when their work starts. */
    method Marshal(registry: DeviceRegistry, alloc: Allocator, existing: seq<string>, sink: Sink)
      returns (r: Result<(), SimError>, marshalled: seq<string>,
               ghost devices: Option<(NetDevice, DeviceRef)>, ghost starts: (seq<string>, seq<string>, seq<string>))
      requires registry.Valid() && alloc.Valid() && alloc.majors.Some? && alloc.handles.Some?
      modifies this, registry, alloc, registry.Chains()
      ensures registry.Valid() && alloc.Valid()
      ensures clear == old(clear) && verbose == old(verbose) && interface == old(interface)
      ensures upload == old(upload) && download == old(download) && clearonlyMode == old(clearonlyMode)
      ensures ifbdevice == old(ifbdevice) || ifbdevice == DefaultIfb(old(ifbdevice), download)
      ensures devices.None? ==> r.Failure? && r.error.BadDevice? && marshalled == []
      ensures old(registry.ifaceMap).None? ==> r == Failure(BadDevice(Uninitialised)) && devices.None?
      ensures devices.Some? ==>
        var dev := devices.value.0;
        var ifb := devices.value.1;
        && ifbdevice == DefaultIfb(old(ifbdevice), download)
        && old(registry.ifaceMap).Some?
        && (interface in old(registry.ifaceMap).value ==> dev == old(registry.ifaceMap).value[interface])
        && (interface !in old(registry.ifaceMap).value ==> fresh(dev))
        && (ifbdevice.None? ==> ifb == NullDevice)
        && (download.Some? ==> ifb.Device?)
        && (fresh(dev) ==> starts.0 == [] && starts.1 == [])
        && (!fresh(dev) ==> starts.0 == old(dev.egress.commands) && starts.1 == old(dev.ingress.commands))
        && (ifb.Device? && ifb.dev != dev && fresh(ifb.dev) ==> starts.2 == [])
        && (ifb.Device? && ifb.dev != dev && !fresh(ifb.dev) ==> starts.2 == old(ifb.dev.egress.commands))
        && var o := MarshalOutcome(dev.name, if ifb.Device? then ifb.dev.name else "", clear, upload, download,
                                   starts.0, starts.1, starts.2, old(alloc.majors.value), old(alloc.handles.value));
        && (o.Failure? ==> r == Failure(o.error))
        && (o.Success? ==> r.Success? && marshalled == o.value.0
                           && alloc.majors == Some(o.value.1) && alloc.handles == Some(o.value.2))
    {
      marshalled, devices, starts := [], None, ([], [], []);
      var found, ifbName := ResolveDevices(registry, interface, ifbdevice, download, existing, sink);
      ifbdevice := ifbName;
      if found.Failure? {
        return Failure(BadDevice(found.error)), marshalled, devices, starts;
      }
      var (iface, ifbdev) := found.value;
      devices := Some((iface, ifbdev));
      ghost var ifbLog;
      starts := (iface.egress.commands, iface.ingress.commands, []);
      ghost var m0, h0 := alloc.majors.value, alloc.handles.value;
      r, marshalled, ifbLog := MarshalDevices(iface, ifbdev, alloc, clear, verbose, upload, download);
      starts := (starts.0, starts.1, ifbLog);
      assert m0 == old(alloc.majors.value) && h0 == old(alloc.handles.value);
    }
  }
}
