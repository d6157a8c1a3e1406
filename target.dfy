/** The `tc` chain builder of pyltc/core/target.py: one `TcTarget` per (device,
    direction) pair keeps an append-only log of `tc` command lines, one line per
    graph operation. The three ways of marshalling the log (print it, write it to a
    file, run it) are modelled by what they decide and produce; the printing, the
    file and the processes themselves are not. */
module Targets {
  import opened Wrappers
  import opened Text
  import opened LtcNodes
  import opened CmdLine

  const DIR_EGRESS: string := "egress"
  const DIR_INGRESS: string := "ingress"

  /** The keyword arguments of a node, in the order they were given. */
  type Params = seq<(string, Param)>

  // ---------------------------------------------------------------- as_subcommand

  /** `a <= b` in Python's string order. */
  predicate StrLeq(a: string, b: string) { !StrLess(b, a) }

  lemma StrLeqTransitive(a: string, b: string, c: string)
    requires StrLeq(a, b) && StrLeq(b, c)
    ensures StrLeq(a, c)
  {
    if StrLess(c, a) {
      StrLessTotal(a, b);
      if a != b {
        StrLessTransitive(c, a, b);
      }
    }
  }

  /** Keys in non-decreasing order. */
  predicate KeysSorted(ps: Params) {
    forall i, j :: 0 <= i < j < |ps| ==> StrLeq(ps[i].0, ps[j].0)
  }

  /** Inserts `x` in front of the first entry whose key is not smaller, so that
      among equal keys the earlier entry stays first. */
  function Insert(x: (string, Param), ps: Params): (r: Params)
    ensures multiset(r) == multiset(ps) + multiset{x}
  {
    if ps == [] || StrLeq(x.0, ps[0].0) then [x] + ps
    else
      assert ps == [ps[0]] + ps[1..];
      [ps[0]] + Insert(x, ps[1..])
  }

  lemma {:induction false} InsertSorted(x: (string, Param), ps: Params)
    requires KeysSorted(ps)
    ensures KeysSorted(Insert(x, ps))
  {
    if ps == [] || StrLeq(x.0, ps[0].0) {
      forall j | 0 <= j < |ps|
        ensures StrLeq(x.0, ps[j].0)
      {
        if j > 0 {
          StrLeqTransitive(x.0, ps[0].0, ps[j].0);
        }
      }
    } else {
      var rest := Insert(x, ps[1..]);
      InsertSorted(x, ps[1..]);
      assert ps == [ps[0]] + ps[1..];
      assert StrLeq(ps[0].0, x.0) by {
        StrLessAsymmetric(ps[0].0, x.0);
      }
      forall j | 0 <= j < |rest|
        ensures StrLeq(ps[0].0, rest[j].0)
      {
        var e := rest[j];
        assert e in multiset(rest);
        if e != x {
          assert e in multiset(ps[1..]);
          var i :| 0 <= i < |ps[1..]| && ps[1..][i] == e;
          assert ps[i + 1] == e;
        }
      }
      assert Insert(x, ps) == [ps[0]] + rest;
    }
  }

  /** `sorted(params.items(), key=lambda v: v[0])`: a stable sort by key. */
  function SortByKey(ps: Params): (r: Params)
    ensures multiset(r) == multiset(ps)
  {
    if ps == [] then []
    else
      assert ps == [ps[0]] + ps[1..];
      Insert(ps[0], SortByKey(ps[1..]))
  }

  /** The sorted entries are in key order. */
  lemma {:induction false} SortByKeySorted(ps: Params)
    ensures KeysSorted(SortByKey(ps))
  {
    if ps != [] {
      SortByKeySorted(ps[1..]);
      InsertSorted(ps[0], SortByKey(ps[1..]));
    }
  }

  /** `str(value)` of a parameter value. */
  function ParamText(p: Param): string {
    match p
    case PNone => "None"
    case PStr(s) => s
    case PInt(i) => IntToString(i)
    case PBool(b) => if b then "True" else "False"
  }

  /** `'{} {}'.format(key, value)` for every entry whose value is not None, in order. */
  function KeyValues(ps: Params): (r: seq<string>)
    ensures |r| <= |ps|
  {
    if ps == [] then []
    else (if ps[0].1 == PNone then [] else [ps[0].0 + " " + ParamText(ps[0].1)]) + KeyValues(ps[1..])
  }

  /** The `key value` texts are those of the parameters whose value is not
      `None`: each such parameter has its text, and every text has its parameter. */
  lemma {:induction false} KeyValuesMembers(ps: Params)
    ensures forall j :: 0 <= j < |ps| && ps[j].1 != PNone ==> ps[j].0 + " " + ParamText(ps[j].1) in KeyValues(ps)
    ensures forall x :: x in KeyValues(ps) ==>
      exists j :: 0 <= j < |ps| && ps[j].1 != PNone && x == ps[j].0 + " " + ParamText(ps[j].1)
  {
    if ps != [] {
      var rest := ps[1..];
      KeyValuesMembers(rest);
      forall j | 0 <= j < |ps| && ps[j].1 != PNone
        ensures ps[j].0 + " " + ParamText(ps[j].1) in KeyValues(ps)
      {
        if j > 0 {
          assert ps[j] == rest[j - 1];
        }
      }
      forall x | x in KeyValues(ps)
        ensures exists j :: 0 <= j < |ps| && ps[j].1 != PNone && x == ps[j].0 + " " + ParamText(ps[j].1)
      {
        if x !in KeyValues(rest) {
          assert ps[0].1 != PNone && x == ps[0].0 + " " + ParamText(ps[0].1);
        } else {
          var k :| 0 <= k < |rest| && rest[k].1 != PNone && x == rest[k].0 + " " + ParamText(rest[k].1);
          assert ps[k + 1] == rest[k];
        }
      }
    }
  }

  /** `as_subcommand`: the node's name alone when it has no parameters, otherwise
      the name, a space, and the `key value` pairs sorted by key with the None
      values left out. */
  function AsSubcommand(name: string, params: Params): string {
    if params == [] then name
    else name + " " + Join(" ", KeyValues(SortByKey(params)))
  }

  /** The key and value tokens of the entries whose value is not None. */
  function KeyValueTokens(ps: Params): seq<string> {
    if ps == [] then []
    else (if ps[0].1 == PNone then [] else [ps[0].0, ParamText(ps[0].1)]) + KeyValueTokens(ps[1..])
  }

  /** Keys, and the texts of the values that are rendered, are single tokens. */
  predicate WordParams(ps: Params) {
    forall k :: 0 <= k < |ps| ==> IsWord(ps[k].0) && (ps[k].1 != PNone ==> IsWord(ParamText(ps[k].1)))
  }

  lemma WordParamsOfPermutation(ps: Params, qs: Params)
    requires WordParams(ps) && multiset(qs) == multiset(ps)
    ensures WordParams(qs)
  {
    forall k | 0 <= k < |qs|
      ensures IsWord(qs[k].0) && (qs[k].1 != PNone ==> IsWord(ParamText(qs[k].1)))
    {
      assert qs[k] in multiset(qs);
      var j :| 0 <= j < |ps| && ps[j] == qs[k];
    }
  }

  lemma {:induction false} SplitWsOfKeyValues(ps: Params)
    requires WordParams(ps)
    ensures SplitWsAll(KeyValues(ps)) == KeyValueTokens(ps)
  {
    if ps != [] {
      assert WordParams(ps[1..]) by {
        forall k | 0 <= k < |ps[1..]|
          ensures IsWord(ps[1..][k].0) && (ps[1..][k].1 != PNone ==> IsWord(ParamText(ps[1..][k].1)))
        {
          assert ps[1..][k] == ps[k + 1];
        }
      }
      SplitWsOfKeyValues(ps[1..]);
      var head := if ps[0].1 == PNone then [] else [ps[0].0 + " " + ParamText(ps[0].1)];
      SplitWsAllAppend(head, KeyValues(ps[1..]));
      if ps[0].1 != PNone {
        SplitWsSpace(ps[0].0, ParamText(ps[0].1));
        SplitWsOfWord(ps[0].0);
        SplitWsOfWord(ParamText(ps[0].1));
        assert SplitWsAll(head) == SplitWs(head[0]) + SplitWsAll([]);
      }
    }
  }

  /** What `tc` sees in a sub-command: the name, then each key followed by its
      value, keys in sorted order, None values dropped. */
  lemma AsSubcommandTokens(name: string, params: Params)
    requires IsWord(name) && WordParams(params)
    ensures KeysSorted(SortByKey(params)) && multiset(SortByKey(params)) == multiset(params)
    ensures SplitWs(AsSubcommand(name, params)) == [name] + KeyValueTokens(SortByKey(params))
  {
    SortByKeySorted(params);
    SplitWsOfWord(name);
    if params != [] {
      var sorted := SortByKey(params);
      WordParamsOfPermutation(params, sorted);
      SplitWsSpace(name, Join(" ", KeyValues(sorted)));
      SplitWsOfJoinSpace(KeyValues(sorted));
      SplitWsOfKeyValues(sorted);
    }
  }

  /** When every value is None the name is followed by a lone space, as the
      source's format string leaves it. */
  lemma AsSubcommandAllNone(name: string, params: Params)
    requires params != []
    requires forall k :: 0 <= k < |params| ==> params[k].1 == PNone
    ensures AsSubcommand(name, params) == name + " "
  {
    var sorted := SortByKey(params);
    assert forall k :: 0 <= k < |sorted| ==> sorted[k].1 == PNone by {
      forall k | 0 <= k < |sorted|
        ensures sorted[k].1 == PNone
      {
        assert sorted[k] in multiset(params);
      }
    }
    KeyValuesOfNone(sorted);
  }

  lemma {:induction false} KeyValuesOfNone(ps: Params)
    requires forall k :: 0 <= k < |ps| ==> ps[k].1 == PNone
    ensures KeyValues(ps) == []
  {
    if ps != [] {
      assert forall k :: 0 <= k < |ps[1..]| ==> ps[1..][k] == ps[k + 1];
      KeyValuesOfNone(ps[1..]);
    }
  }

  // ---------------------------------------------------------------- command lines

  /** `tc qdisc del dev IF CHAIN`. */
  function ClearLine(iface: string, chain: string): string {
    Join(" ", ["tc", "qdisc", "del", "dev", iface, chain])
  }

  /** `tc qdisc add dev IF PARENT handle H SUB`, where PARENT is `parent C` or the
      chain name. */
  function QdiscLine(iface: string, parent: string, handle: string, sub: string): string {
    Join(" ", ["tc", "qdisc", "add", "dev", iface, parent, "handle", handle, sub])
  }

  /** `tc class add dev IF parent P classid C SUB`. */
  function ClassLine(iface: string, parentId: string, classId: string, sub: string): string {
    Join(" ", ["tc", "class", "add", "dev", iface, "parent", parentId, "classid", classId, sub])
  }

  /** `tc filter add dev IF parent P protocol ip prio N NAME match COND flowid F`. */
  function FilterLine(iface: string, parentId: string, prio: string, name: string, cond: string, flowid: string): string {
    Join(" ", ["tc", "filter", "add", "dev", iface, "parent", parentId, "protocol", "ip", "prio", prio,
               name, "match", cond, "flowid", flowid])
  }

  /** The ingress qdisc on the primary device. */
  function RedirectQdiscLine(pridev: string): string {
    Join(" ", ["tc", "qdisc", "add", "dev", pridev, "handle", "ffff:0", "ingress"])
  }

  /** The filter mirroring all ingress traffic of the primary device to the ifb
      device. */
  function RedirectFilterLine(pridev: string, ifbdev: string): string {
    Join(" ", ["tc", "filter", "add", "dev", pridev, "parent", "ffff:0", "protocol", "ip", "u32",
               "match", "u32", "0", "0", "action", "mirred", "egress", "redirect", "dev", ifbdev])
  }

  lemma {:induction false} SplitWsAllOfWordsAppend(a: seq<string>, mid: string, b: seq<string>)
    requires forall k :: 0 <= k < |a| ==> IsWord(a[k])
    requires forall k :: 0 <= k < |b| ==> IsWord(b[k])
    ensures SplitWs(Join(" ", a + [mid] + b)) == a + SplitWs(mid) + b
  {
    SplitWsOfJoinSpace(a + [mid] + b);
    SplitWsAllAppend(a + [mid], b);
    SplitWsAllAppend(a, [mid]);
    SplitWsAllOfWords(a);
    SplitWsAllOfWords(b);
    assert SplitWsAll([mid]) == SplitWs(mid) + SplitWsAll([]);
  }

  /** A clear line reads as the words `tc qdisc del dev IF CHAIN`. */
  lemma ClearLineTokens(iface: string, chain: string)
    requires IsWord(iface) && IsWord(chain)
    ensures SplitWs(ClearLine(iface, chain)) == ["tc", "qdisc", "del", "dev", iface, chain]
  {
    SplitWsOfJoin(["tc", "qdisc", "del", "dev", iface, chain]);
  }

  lemma {:induction false} SplitWsAllTwoMids(a: seq<string>, m1: string, b: seq<string>, m2: string)
    requires forall k :: 0 <= k < |a| ==> IsWord(a[k])
    requires forall k :: 0 <= k < |b| ==> IsWord(b[k])
    ensures SplitWs(Join(" ", a + [m1] + b + [m2])) == a + SplitWs(m1) + b + SplitWs(m2)
  {
    assert SplitWsAll([m1]) == SplitWs(m1) + SplitWsAll([]);
    assert SplitWsAll([m2]) == SplitWs(m2) + SplitWsAll([]);
    calc {
      SplitWs(Join(" ", a + [m1] + b + [m2]));
      { SplitWsOfJoinSpace(a + [m1] + b + [m2]); }
      SplitWsAll(a + [m1] + b + [m2]);
      { SplitWsAllAppend(a + [m1] + b, [m2]); }
      SplitWsAll(a + [m1] + b) + SplitWs(m2);
      { SplitWsAllAppend(a + [m1], b); SplitWsAllOfWords(b); }
      SplitWsAll(a + [m1]) + b + SplitWs(m2);
      { SplitWsAllAppend(a, [m1]); SplitWsAllOfWords(a); }
      a + SplitWs(m1) + b + SplitWs(m2);
    }
  }

  /** A qdisc line: the fixed words, the parent clause, the handle, then the
      tokens of the sub-command. */
  lemma QdiscLineTokens(iface: string, parent: string, handle: string, sub: string)
    requires IsWord(iface) && IsWord(handle)
    ensures SplitWs(QdiscLine(iface, parent, handle, sub))
         == ["tc", "qdisc", "add", "dev", iface] + SplitWs(parent) + ["handle", handle] + SplitWs(sub)
  {
    var a := ["tc", "qdisc", "add", "dev", iface];
    var b := ["handle", handle];
    assert a + [parent] + b + [sub] == ["tc", "qdisc", "add", "dev", iface, parent, "handle", handle, sub];
    SplitWsAllTwoMids(a, parent, b, sub);
  }

  /** A class line: the fixed words and identifiers, then the sub-command's tokens. */
  lemma ClassLineTokens(iface: string, parentId: string, classId: string, sub: string)
    requires IsWord(iface) && IsWord(parentId) && IsWord(classId)
    ensures SplitWs(ClassLine(iface, parentId, classId, sub))
         == ["tc", "class", "add", "dev", iface, "parent", parentId, "classid", classId] + SplitWs(sub)
  {
    var a := ["tc", "class", "add", "dev", iface, "parent", parentId, "classid", classId];
    assert a + [sub] + [] == ["tc", "class", "add", "dev", iface, "parent", parentId, "classid", classId, sub];
    SplitWsAllOfWordsAppend(a, sub, []);
  }

  /** A filter line: everything but the condition is one token each; the
      condition contributes its own tokens in place. */
  lemma FilterLineTokens(iface: string, parentId: string, prio: string, name: string, cond: string, flowid: string)
    requires IsWord(iface) && IsWord(parentId) && IsWord(prio) && IsWord(name) && IsWord(flowid)
    ensures SplitWs(FilterLine(iface, parentId, prio, name, cond, flowid))
         == ["tc", "filter", "add", "dev", iface, "parent", parentId, "protocol", "ip", "prio", prio, name, "match"]
            + SplitWs(cond) + ["flowid", flowid]
  {
    var a := ["tc", "filter", "add", "dev", iface, "parent", parentId, "protocol", "ip", "prio", prio, name, "match"];
    var b := ["flowid", flowid];
    assert a + [cond] + b == ["tc", "filter", "add", "dev", iface, "parent", parentId, "protocol", "ip", "prio", prio,
                              name, "match", cond, "flowid", flowid];
    SplitWsAllOfWordsAppend(a, cond, b);
  }

  /** The two redirect lines read as their fixed words around the device names. */
  lemma RedirectLinesTokens(pridev: string, ifbdev: string)
    requires IsWord(pridev) && IsWord(ifbdev)
    ensures SplitWs(RedirectQdiscLine(pridev)) == ["tc", "qdisc", "add", "dev", pridev, "handle", "ffff:0", "ingress"]
    ensures SplitWs(RedirectFilterLine(pridev, ifbdev))
         == ["tc", "filter", "add", "dev", pridev, "parent", "ffff:0", "protocol", "ip", "u32",
             "match", "u32", "0", "0", "action", "mirred", "egress", "redirect", "dev", ifbdev]
  {
    SplitWsOfJoin(["tc", "qdisc", "add", "dev", pridev, "handle", "ffff:0", "ingress"]);
    SplitWsOfJoin(["tc", "filter", "add", "dev", pridev, "parent", "ffff:0", "protocol", "ip", "u32",
                   "match", "u32", "0", "0", "action", "mirred", "egress", "redirect", "dev", ifbdev]);
  }

  // ---------------------------------------------------------------- the target

  /** Which `TcTarget` class: the base one that prints, `TcFileTarget` or
      `TcCommandTarget`. */
  datatype Sink = PrintSink | FileSink | CommandSink

  /** Why a graph operation raised: a missing run-wide counter (`next(None)`), a
      qdisc given where a class is needed (no `classid`), a class given where a
      qdisc is needed (no `new_class_id`). */
  datatype TargetError = MissingCounter | NoClassId | NoNewClassId

  /** `"{iface}-{direction}.tc"`, the file name `TcFileTarget` falls back to. */
  function DefaultFilename(iface: string, direction: string): string {
    iface + "-" + direction + ".tc"
  }

  class TcTarget {
    /** The device's name. */
    const iface: string
    const direction: string
    const chainName: string
    const sink: Sink
    /** The log of command lines, oldest first. */
    var commands: seq<string>
    var verbose: Param
    /** The output file of a `FileSink` target (unused by the others). */
    var filename: Param

    /** `__init__`: an empty log on the `ingress` chain for the ingress direction and
        on `root` otherwise, then `configure()` with no arguments. A file target then
        drops the file name that call chose. */
    constructor (iface: string, direction: string, sink: Sink)
      ensures this.iface == iface && this.direction == direction && this.sink == sink
      ensures chainName == (if direction == DIR_INGRESS then "ingress" else "root")
      ensures commands == [] && verbose == PBool(false) && filename == PNone
    {
      this.iface := iface;
      this.direction := direction;
      this.sink := sink;
      chainName := if direction == DIR_INGRESS then "ingress" else "root";
      commands := [];
      verbose := PNone;
      filename := PNone;
      new;
      var ok := Configure(map[]);
      filename := PNone;
    }

    /** `configure(**kw)`. A file target first takes `filename` out of the
        arguments, falling back to the default name when it is missing or falsy.
        Then `verbose` is taken (default False) and stored, and only then does the
        assertion reject any argument left over (`ok` false). */
    method Configure(kw: map<string, Param>) returns (ok: bool)
      modifies this
      ensures sink == FileSink ==>
        filename == (if "filename" in kw && Truthy(kw["filename"]) then kw["filename"]
                     else PStr(DefaultFilename(iface, direction)))
      ensures sink != FileSink ==> filename == old(filename)
      ensures var rest := if sink == FileSink then kw - {"filename"} else kw;
        verbose == (if "verbose" in rest then rest["verbose"] else PBool(false))
        && (ok <==> rest.Keys <= {"verbose"})
      ensures commands == old(commands)
    {
      var rest := kw;
      if sink == FileSink {
        var name := if "filename" in rest then rest["filename"] else PNone;
        rest := rest - {"filename"};
        if !Truthy(name) {
          name := PStr(DefaultFilename(iface, direction));
        }
        filename := name;
      }
      verbose := if "verbose" in rest then rest["verbose"] else PBool(false);
      var left := rest - {"verbose"};
      assert left.Keys == rest.Keys - {"verbose"};
      assert left == map[] <==> left.Keys == {};
      ok := left == map[];
    }

    /** `clear()`: appends the chain's delete line. */
    method Clear()
      modifies this
      ensures commands == old(commands) + [ClearLine(iface, chainName)]
      ensures verbose == old(verbose) && filename == old(filename)
    {
      commands := commands + [ClearLine(iface, chainName)];
    }

    /** `add_qdisc(name, parent, **params)`: creates the qdisc (taking the next
        run-wide major) and appends its line, whose parent clause is `parent
        <classid>` or, without a parent, the chain name. A qdisc given as parent has
        no classid: the call fails after the major was taken. */
    method AddQdisc(alloc: Allocator, name: string, parent: LtcNode?, params: Params)
      returns (r: Result<LtcNode, TargetError>)
      requires alloc.Valid()
      modifies this, alloc
      ensures alloc.Valid()
      ensures old(alloc.majors).None? ==> r == Failure(MissingCounter) && alloc.majors == old(alloc.majors)
      ensures old(alloc.majors).Some? ==> (
        alloc.majors == Some(old(alloc.majors).value + 1)
        && alloc.majorLog == old(alloc.majorLog) + [old(alloc.majors).value + 1])
      ensures old(alloc.majors).Some? && parent != null && parent.kind == QdiscNode ==> r == Failure(NoClassId)
      ensures r.Success? <==> old(alloc.majors).Some? && (parent == null || parent.kind == ClassNode)
      ensures r.Failure? ==> commands == old(commands)
      ensures r.Success? ==> (fresh(r.value) && r.value.kind == QdiscNode
        && r.value.Id() == NodeId(old(alloc.majors).value + 1, 0)
        && r.value.priosIssued == 0 && r.value.minorsIssued == 0
        && r.value.name == name && r.value.parent == parent && r.value.params == params
        && commands == old(commands) + [QdiscLine(iface,
             if parent == null then chainName else "parent " + IdText(parent.Id()),
             IdText(r.value.Id()), AsSubcommand(name, params))])
      ensures alloc.handles == old(alloc.handles) && alloc.handleLog == old(alloc.handleLog)
      ensures verbose == old(verbose) && filename == old(filename)
    {
      var q := NewQdisc(alloc, name, parent, params);
      if q.None? {
        return Failure(MissingCounter);
      }
      if parent != null && parent.kind == QdiscNode {
        return Failure(NoClassId);
      }
      var parentClause := if parent == null then chainName else "parent " + IdText(parent.Id());
      commands := commands + [QdiscLine(iface, parentClause, IdText(q.value.Id()), AsSubcommand(name, params))];
      r := Success(q.value);
    }

    /** `set_root_qdisc(name, **params)`: `add_qdisc` without a parent. */
    method SetRootQdisc(alloc: Allocator, name: string, params: Params) returns (r: Result<LtcNode, TargetError>)
      requires alloc.Valid()
      modifies this, alloc
      ensures alloc.Valid()
      ensures r.Success? <==> old(alloc.majors).Some?
      ensures r.Failure? ==> r.error == MissingCounter && commands == old(commands) && alloc.majors == old(alloc.majors)
      ensures r.Success? ==> (fresh(r.value) && r.value.kind == QdiscNode
        && r.value.Id() == NodeId(old(alloc.majors).value + 1, 0) && r.value.parent == null
        && r.value.priosIssued == 0 && r.value.minorsIssued == 0
        && alloc.majors == Some(old(alloc.majors).value + 1)
        && alloc.majorLog == old(alloc.majorLog) + [old(alloc.majors).value + 1]
        && commands == old(commands) + [QdiscLine(iface, chainName, IdText(r.value.Id()), AsSubcommand(name, params))])
      ensures alloc.handles == old(alloc.handles) && alloc.handleLog == old(alloc.handleLog)
      ensures verbose == old(verbose) && filename == old(filename)
    {
      r := AddQdisc(alloc, name, null, params);
    }

    /** `add_class(name, parent, **params)`: the class takes the parent qdisc's
        major and next minor; its line names the parent's handle and the new
        classid. A class given as parent fails with nothing changed. */
    method AddClass(name: string, parent: LtcNode, params: Params) returns (r: Result<LtcNode, TargetError>)
      modifies this, parent
      ensures r.Failure? <==> parent.kind == ClassNode
      ensures r.Failure? ==>
        r.error == NoNewClassId && commands == old(commands) && parent.minorsIssued == old(parent.minorsIssued)
      ensures r.Success? ==> (fresh(r.value) && r.value.kind == ClassNode
        && r.value.Id() == NodeId(parent.major, old(parent.minorsIssued) + 1)
        && r.value.name == name && r.value.parent == parent && r.value.params == params
        && parent.minorsIssued == old(parent.minorsIssued) + 1
        && commands == old(commands) + [ClassLine(iface, IdText(parent.Id()), IdText(r.value.Id()), AsSubcommand(name, params))])
      ensures parent.priosIssued == old(parent.priosIssued)
      ensures verbose == old(verbose) && filename == old(filename)
    {
      var c := NewClass(name, parent, params);
      if c.None? {
        return Failure(NoNewClassId);
      }
      commands := commands + [ClassLine(iface, IdText(parent.Id()), IdText(c.value.Id()), AsSubcommand(name, params))];
      r := Success(c.value);
    }

    /** `add_filter(name, parent, cond, flownode, prio, handle)`: the line carries
        the filter's priority (explicit, or the parent's next one), the parent's id
        and the flow node's id; the filter's handle is allocated but not printed. */
    method AddFilter(alloc: Allocator, name: string, parent: LtcNode, cond: string, flownode: LtcNode,
                     prio: Option<int>, handle: Option<int>) returns (r: Result<Filter, TargetError>)
      requires alloc.Valid()
      modifies this, alloc, parent
      ensures alloc.Valid()
      ensures parent.priosIssued == ExplicitOrNext(prio, old(parent.priosIssued)).1
      ensures parent.minorsIssued == old(parent.minorsIssued)
      ensures r.Failure? <==> (handle.None? || handle.value == 0) && old(alloc.handles).None?
      ensures r.Failure? ==> r.error == MissingCounter && commands == old(commands)
      ensures r.Success? ==> (r.value.parentId == parent.Id() && r.value.flowid == flownode.Id()
        && r.value.prio == ExplicitOrNext(prio, old(parent.priosIssued)).0
        && (handle.Some? && handle.value != 0 ==> r.value.handle == handle.value)
        && (handle.None? || handle.value == 0 ==>
              r.value.handle == old(alloc.handles).value + 1 && alloc.handles == Some(r.value.handle))
        && (handle.Some? && handle.value != 0 ==> alloc.handles == old(alloc.handles))
        && commands == old(commands) + [FilterLine(iface, IdText(parent.Id()), IntToString(r.value.prio),
                                                  name, cond, IdText(flownode.Id()))])
      ensures alloc.majors == old(alloc.majors) && alloc.majorLog == old(alloc.majorLog)
      ensures verbose == old(verbose) && filename == old(filename)
    {
      var f := NewFilter(alloc, name, parent, cond, flownode, prio, handle);
      if f.None? {
        return Failure(MissingCounter);
      }
      var line := FilterLine(iface, IdText(f.value.parentId), IntToString(f.value.prio), name, cond, IdText(f.value.flowid));
      commands := commands + [line];
      r := Success(f.value);
    }

    /** `set_redirect(pridev, ifbdev)`: the ingress qdisc line, then the mirred
        redirect line. */
    method SetRedirect(pridev: string, ifbdev: string)
      modifies this
      ensures commands == old(commands) + [RedirectQdiscLine(pridev), RedirectFilterLine(pridev, ifbdev)]
      ensures verbose == old(verbose) && filename == old(filename)
    {
      commands := commands + [RedirectQdiscLine(pridev)];
      commands := commands + [RedirectFilterLine(pridev, ifbdev)];
    }

    /** `TcTarget.marshal()`: prints every line of the log, in order. */
    method MarshalPrint() returns (printed: seq<string>)
      requires sink == PrintSink
      ensures printed == commands
    {
      printed := [];
      for i := 0 to |commands|
        invariant printed == commands[..i]
      {
        printed := printed + [commands[i]];
      }
    }

    /** `TcCommandTarget.marshal()`, given what each process would give back
        (`runs[i]` is the return code, stdout and stderr of the i-th line): the
        argument vectors started and how the loop ended. */
    method MarshalCommands(runs: seq<(int, string, string)>) returns (started: seq<seq<string>>, end: MarshalEnd)
      requires sink == CommandSink
      requires |runs| == |commands|
      ensures (started, end) == RunSteps(LineResults(commands, runs), 0)
    {
      started, end := ExecuteLines(commands, runs, LineResults(commands, runs));
    }
  }

  // ---------------------------------------------------------------- file marshalling

  /** What `TcFileTarget.marshal()` does: the text it prints, if any, and the file
      and content it writes, if any. */
  datatype FileEffect = FileEffect(echoed: Option<string>, written: Option<(Param, string)>)

  /** The log joined by newlines is printed when `verbose` is truthy and written,
      with a final newline, when the file name is truthy. */
  function FileMarshal(commands: seq<string>, verbose: Param, filename: Param): (e: FileEffect)
    ensures e.echoed.Some? <==> Truthy(verbose)
    ensures e.written.Some? <==> Truthy(filename)
    ensures e.written.Some? ==> e.written.value.0 == filename
  {
    var text := Join("\n", commands);
    FileEffect(if Truthy(verbose) then Some(text) else None,
               if Truthy(filename) then Some((filename, text + "\n")) else None)
  }

  /** The written file holds the log, one line per command, each ended by a newline:
      cutting the final newline and splitting on newlines gives the log back. */
  lemma FileMarshalLines(commands: seq<string>, verbose: Param, filename: Param)
    requires commands != [] && Truthy(filename)
    requires forall k :: 0 <= k < |commands| ==> Lacks(commands[k], '\n')
    ensures var w := FileMarshal(commands, verbose, filename).written.value.1;
      w != [] && w[|w| - 1] == '\n' && SplitSep(w[..|w| - 1], "\n") == commands
  {
    var text := Join("\n", commands);
    var w := text + "\n";
    assert w[..|w| - 1] == text;
    SplitSepOfJoin(commands, '\n');
  }

  /** A target built with the file sink writes nothing until it is configured:
      its file name is None. */
  lemma FileMarshalUnconfigured(commands: seq<string>, verbose: Param)
    ensures FileMarshal(commands, verbose, PNone).written.None?
  {
  }

  // ---------------------------------------------------------------- command marshalling

  /** How `TcCommandTarget.marshal()` ends: every line ran; a `CommandFailed` was
      caught and its message printed, and no later line ran; or the tokenizer's
      error escaped. */
  datatype MarshalEnd = AllRan | Reported(message: string) | Propagated(error: CmdError)

  /** Errors of the first line are ignored when it deletes something. */
  predicate IgnoreErrors(idx: nat, cmd: string) { idx == 0 && Contains(cmd, " del") }

  /** What one line of the log does when executed: the tokenizer refuses it, or its
      process starts with an argument vector and either returns or makes `execute`
      raise with a message. */
  datatype LineStep = Refused(error: CmdError) | Started(argv: seq<string>, failure: Option<string>)

  /** The step of line `idx`, `cmd`, whose process gives back `run`. */
  function LineResult(idx: nat, cmd: string, run: (int, string, string)): (r: LineStep)
    ensures r.Refused? <==> ConstructCmdList(cmd).Failure?
    ensures r.Started? ==>
      r.argv == ConstructCmdList(cmd).value && (r.failure.Some? <==> Raises(run.0, IgnoreErrors(idx, cmd)))
  {
    var list := ConstructCmdList(cmd);
    if list.Failure? then Refused(list.error)
    else if Raises(run.0, IgnoreErrors(idx, cmd)) then Started(list.value, Some(FailureMessage(cmd, run.1, run.2, run.0)))
    else Started(list.value, None)
  }

  /** One iteration of the loop: a `CommandLine` for the line, with errors ignored
      as `IgnoreErrors` says, executed against the process result `run`. */
  method ExecuteLine(idx: nat, cmd: string, run: (int, string, string)) returns (step: LineStep)
    ensures step == LineResult(idx, cmd, run)
  {
    var cl := new CommandLine(cmd, IgnoreErrors(idx, cmd));
    var argv, outcome := cl.Execute(run.0, run.1, run.2);
    match outcome
    case Unbalanced(e) =>
      step := Refused(e);
    case Raised(message) =>
      step := Started(argv.value, Some(message));
    case Returned =>
      step := Started(argv.value, None);
  }

  /** `ExecuteLine` on line `idx` of the log, seen as the `idx`-th of its steps. */
  method ExecuteLineOf(cmds: seq<string>, runs: seq<(int, string, string)>, idx: nat, ghost steps: seq<LineStep>) returns (step: LineStep)
    requires |runs| == |cmds| && idx < |cmds|
    requires steps == LineResults(cmds, runs)
    ensures step == steps[idx]
  {
    step := ExecuteLine(idx, cmds[idx], runs[idx]);
    LineResultsAt(cmds, runs, idx);
  }

  /** The steps of every line of the log, in order. */
  function LineResults(cmds: seq<string>, runs: seq<(int, string, string)>): (r: seq<LineStep>)
    requires |runs| == |cmds|
    ensures |r| == |cmds|
  {
    if cmds == [] then []
    else
      var n := |cmds| - 1;
      LineResults(cmds[..n], runs[..n]) + [LineResult(n, cmds[n], runs[n])]
  }

  /** The `i`-th step is that of the `i`-th line and its process result. */
  lemma {:induction false} LineResultsAt(cmds: seq<string>, runs: seq<(int, string, string)>, i: nat)
    requires |runs| == |cmds| && i < |cmds|
    ensures LineResults(cmds, runs)[i] == LineResult(i, cmds[i], runs[i])
    decreases |cmds|
  {
    var n := |cmds| - 1;
    if i < n {
      LineResultsAt(cmds[..n], runs[..n], i);
    }
  }

  /** The line neither is refused nor raises. */
  predicate Passes(step: LineStep) { step.Started? && step.failure.None? }

  /** The loop from line `idx` on: the argument vectors started and how it ended. */
  function RunSteps(steps: seq<LineStep>, idx: nat): (seq<seq<string>>, MarshalEnd)
    requires idx <= |steps|
    decreases |steps| - idx
  {
    if idx == |steps| then ([], AllRan)
    else
      match steps[idx]
      case Refused(e) => ([], Propagated(e))
      case Started(argv, failure) =>
        if failure.Some? then ([argv], Reported(failure.value))
        else
          var rest := RunSteps(steps, idx + 1);
          ([argv] + rest.0, rest.1)
  }

  /** One more line that passes adds its vector in front of the rest of the loop. */
  lemma RunStepsPass(steps: seq<LineStep>, idx: nat)
    requires idx < |steps| && Passes(steps[idx])
    ensures RunSteps(steps, idx) == ([steps[idx].argv] + RunSteps(steps, idx + 1).0, RunSteps(steps, idx + 1).1)
  {
  }

  /** The loop stops at the end of the log and at a line that does not pass. */
  lemma RunStepsStop(steps: seq<LineStep>, idx: nat)
    requires idx <= |steps|
    ensures idx == |steps| ==> RunSteps(steps, idx) == ([], AllRan)
    ensures idx < |steps| && steps[idx].Refused? ==> RunSteps(steps, idx) == ([], Propagated(steps[idx].error))
    ensures idx < |steps| && steps[idx].Started? && steps[idx].failure.Some? ==>
      RunSteps(steps, idx) == ([steps[idx].argv], Reported(steps[idx].failure.value))
  {
  }

  /** The loop of `TcCommandTarget.marshal()` over the lines `cmds`, each given back
      `runs[i]` by its process. */
  method ExecuteLines(cmds: seq<string>, runs: seq<(int, string, string)>, ghost steps: seq<LineStep>) returns (started: seq<seq<string>>, end: MarshalEnd)
    requires |runs| == |cmds|
    requires steps == LineResults(cmds, runs)
    ensures (started, end) == RunSteps(steps, 0)
  {
    started := [];
    var idx := 0;
    assert [] + RunSteps(steps, 0).0 == RunSteps(steps, 0).0;
    while idx < |cmds|
      invariant 0 <= idx <= |cmds| == |steps|
      invariant RunSteps(steps, 0) == (started + RunSteps(steps, idx).0, RunSteps(steps, idx).1)
      decreases |cmds| - idx
    {
      var step := ExecuteLineOf(cmds, runs, idx, steps);
      if step.Refused? {
        assert RunSteps(steps, idx) == ([], Propagated(step.error)) by { RunStepsStop(steps, idx); }
        assert started + [] == started;
        return started, Propagated(step.error);
      }
      if step.failure.Some? {
        assert RunSteps(steps, idx) == ([step.argv], Reported(step.failure.value)) by { RunStepsStop(steps, idx); }
        return started + [step.argv], Reported(step.failure.value);
      }
      ghost var rest := RunSteps(steps, idx + 1);
      assert RunSteps(steps, idx) == ([step.argv] + rest.0, rest.1) by { RunStepsPass(steps, idx); }
      assert started + ([step.argv] + rest.0) == (started + [step.argv]) + rest.0;
      started := started + [step.argv];
      idx := idx + 1;
    }
    assert RunSteps(steps, idx) == ([], AllRan) by { RunStepsStop(steps, idx); }
    assert started + [] == started;
    end := AllRan;
  }

  /** The started vectors are those of consecutive lines from `idx` on. */
  lemma {:induction false} RunStepsArgv(steps: seq<LineStep>, idx: nat)
    requires idx <= |steps|
    ensures var st := RunSteps(steps, idx).0;
      idx + |st| <= |steps|
      && forall j :: idx <= j < idx + |st| ==> steps[j].Started? && steps[j].argv == st[j - idx]
    decreases |steps| - idx
  {
    if idx < |steps| && Passes(steps[idx]) {
      RunStepsArgv(steps, idx + 1);
      var st := RunSteps(steps, idx).0;
      var rest := RunSteps(steps, idx + 1).0;
      assert st == [steps[idx].argv] + rest;
      forall j | idx < j < idx + |st|
        ensures steps[j].Started? && steps[j].argv == st[j - idx]
      {
        assert st[j - idx] == rest[j - (idx + 1)];
      }
    } else if idx < |steps| && steps[idx].Started? {
      assert RunSteps(steps, idx).0 == [steps[idx].argv];
    }
  }

  /** Every line runs exactly when every line passes. */
  lemma {:induction false} RunStepsAllRan(steps: seq<LineStep>, idx: nat)
    requires idx <= |steps|
    ensures RunSteps(steps, idx).1 == AllRan <==> forall j :: idx <= j < |steps| ==> Passes(steps[j])
    ensures RunSteps(steps, idx).1 == AllRan ==> |RunSteps(steps, idx).0| == |steps| - idx
    decreases |steps| - idx
  {
    if idx < |steps| && Passes(steps[idx]) {
      RunStepsAllRan(steps, idx + 1);
    }
  }

  /** A reported failure comes from the last line started, and every earlier line
      passed. */
  lemma {:induction false} RunStepsReported(steps: seq<LineStep>, idx: nat)
    requires idx <= |steps|
    requires RunSteps(steps, idx).1.Reported?
    ensures var k := idx + |RunSteps(steps, idx).0| - 1;
      idx <= k < |steps| && steps[k].Started? && steps[k].failure == Some(RunSteps(steps, idx).1.message)
      && forall j :: idx <= j < k ==> Passes(steps[j])
    decreases |steps| - idx
  {
    if Passes(steps[idx]) {
      RunStepsReported(steps, idx + 1);
    }
  }

  /** A tokenizer error comes from the line right after the last one started, and
      every line before it passed. */
  lemma {:induction false} RunStepsPropagated(steps: seq<LineStep>, idx: nat)
    requires idx <= |steps|
    requires RunSteps(steps, idx).1.Propagated?
    ensures var k := idx + |RunSteps(steps, idx).0|;
      idx <= k < |steps| && steps[k] == Refused(RunSteps(steps, idx).1.error)
      && forall j :: idx <= j < k ==> Passes(steps[j])
    decreases |steps| - idx
  {
    if Passes(steps[idx]) {
      RunStepsPropagated(steps, idx + 1);
    }
  }

  /** A first line that deletes something never stops the loop, whatever its
      return code, as long as it tokenizes. */
  lemma FirstDeleteIgnored(cmds: seq<string>, runs: seq<(int, string, string)>)
    requires |runs| == |cmds| && |cmds| >= 1
    requires Contains(cmds[0], " del") && ConstructCmdList(cmds[0]).Success?
    ensures LineResults(cmds, runs)[0] == Started(ConstructCmdList(cmds[0]).value, None)
  {
    LineResultsAt(cmds, runs, 0);
  }

  /** Any later line with a nonzero return code is reported, even a delete. */
  lemma LaterFailureReported(cmds: seq<string>, runs: seq<(int, string, string)>, i: nat)
    requires |runs| == |cmds| && 0 < i < |cmds|
    requires ConstructCmdList(cmds[i]).Success? && runs[i].0 != 0
    ensures LineResults(cmds, runs)[i]
      == Started(ConstructCmdList(cmds[i]).value, Some(FailureMessage(cmds[i], runs[i].1, runs[i].2, runs[i].0)))
  {
    LineResultsAt(cmds, runs, i);
  }
}
