/** The nodes of a traffic-control tree (pyltc/core/ltcnode.py): qdiscs, classes and
    filters, and the counters that hand out their identifiers. The two run-wide
    counters of the source (the qdisc major counter and the filter handle counter,
    both class-level attributes there) live in one `Allocator` object; the
    per-node counters (class minors of a qdisc, filter priorities of a parent) are
    fields of the node. */
module LtcNodes {
  import opened Wrappers
  import opened Text

  /** A keyword-argument value of a node: `None`, a string, an int or a bool. */
  datatype Param = PNone | PStr(s: string) | PInt(i: int) | PBool(b: bool)

  /** Python truthiness of a parameter value. */
  predicate Truthy(p: Param) {
    match p
    case PNone => false
    case PStr(s) => s != ""
    case PInt(i) => i != 0
    case PBool(b) => b
  }

  /** A node identifier, `major:minor`. */
  datatype NodeId = NodeId(major: nat, minor: nat)

  /** The identifier as the source renders it, `"{major}:{minor}"`. */
  function IdText(id: NodeId): (s: string)
    ensures |s| >= 3 && ':' in s
  {
    NatToString(id.major) + ":" + NatToString(id.minor)
  }

  /** Reads `"M:m"` back; anything else is refused. */
  function ParseId(s: string): Option<NodeId> {
    var parts := SplitSep(s, ":");
    if |parts| == 2 && parts[0] != [] && parts[1] != [] && AllDigits(parts[0]) && AllDigits(parts[1])
    then Some(NodeId(ParseNat(parts[0]), ParseNat(parts[1])))
    else None
  }

  /** Rendering an identifier loses nothing: it reads back as the same pair. */
  lemma IdTextRoundTrip(id: NodeId)
    ensures ParseId(IdText(id)) == Some(id)
  {
    var a := NatToString(id.major);
    var b := NatToString(id.minor);
    assert Lacks(a, ':') && Lacks(b, ':');
    assert IdText(id) == Join([':'], [a, b]);
    SplitSepOfJoin([a, b], ':');
    ParseNatToString(id.major);
    ParseNatToString(id.minor);
  }

  /** Distinct identifiers render to distinct strings. */
  lemma IdTextInjective(x: NodeId, y: NodeId)
    requires IdText(x) == IdText(y)
    ensures x == y
  {
    IdTextRoundTrip(x);
    IdTextRoundTrip(y);
  }

  /** The next value of a counter that starts at 1 and has handed out `issued`
      values, used when the explicit value is falsy (`None` or `0`): returns the
      value to use and the counter afterwards. */
  function ExplicitOrNext(explicit: Option<int>, issued: nat): (r: (int, nat))
    ensures explicit.Some? && explicit.value != 0 ==> r == (explicit.value, issued)
    ensures explicit.None? || explicit.value == 0 ==> r.0 == r.1 == issued + 1
  {
    if explicit.Some? && explicit.value != 0 then (explicit.value, issued) else (issued + 1, issued + 1)
  }

  /** `issued` values handed out by a counter from 1: exactly 1, 2, ..., issued. */
  predicate Dense(log: seq<nat>) {
    forall i :: 0 <= i < |log| ==> log[i] == i + 1
  }

  /** A dense log never repeats a value, so the identifiers it records are unique. */
  lemma DenseDistinct(log: seq<nat>, i: int, j: int)
    requires Dense(log)
    requires 0 <= i < |log| && 0 <= j < |log| && i != j
    ensures log[i] != log[j]
  {
  }

  /** The run-wide counters: qdisc majors and filter handles. `None` stands for a
      counter not yet created by `init()`. `majorLog` and `handleLog` record what
      each counter handed out since its last `init()`. */
  class Allocator {
    var majors: Option<nat>
    var handles: Option<nat>
    ghost var majorLog: seq<nat>
    ghost var handleLog: seq<nat>

    ghost predicate Valid()
      reads this
    {
      (majors.Some? ==> |majorLog| == majors.value && Dense(majorLog))
      && (handles.Some? ==> |handleLog| == handles.value && Dense(handleLog))
    }

    /** Before any `init()` both counters are missing. */
    constructor ()
      ensures Valid()
      ensures majors.None? && handles.None?
    {
      majors := None;
      handles := None;
      majorLog := [];
      handleLog := [];
    }

    /** `Qdisc.init()`: a fresh major counter, the next major is 1. */
    method InitQdisc()
      requires Valid()
      modifies this
      ensures Valid()
      ensures majors == Some(0) && majorLog == []
      ensures handles == old(handles) && handleLog == old(handleLog)
    {
      majors := Some(0);
      majorLog := [];
    }

    /** `Filter.init()`: a fresh handle counter, the next handle is 1. */
    method InitFilter()
      requires Valid()
      modifies this
      ensures Valid()
      ensures handles == Some(0) && handleLog == []
      ensures majors == old(majors) && majorLog == old(majorLog)
    {
      handles := Some(0);
      handleLog := [];
    }

    /** `next(Qdisc._major_counter)`: fails while the counter is missing. */
    method NextMajor() returns (m: Option<nat>)
      requires Valid()
      modifies this
      ensures Valid()
      ensures old(majors).None? ==> m.None? && majors.None?
      ensures old(majors).Some? ==> m == Some(old(majors).value + 1) && majors == m
      ensures old(majors).Some? ==> majorLog == old(majorLog) + [m.value]
      ensures handles == old(handles) && handleLog == old(handleLog)
    {
      if majors.None? {
        return None;
      }
      m := Some(majors.value + 1);
      majors := m;
      majorLog := majorLog + [m.value];
    }

    /** `next(Filter._handle_counter)`: fails while the counter is missing. */
    method NextHandle() returns (h: Option<nat>)
      requires Valid()
      modifies this
      ensures Valid()
      ensures old(handles).None? ==> h.None? && handles.None?
      ensures old(handles).Some? ==> h == Some(old(handles).value + 1) && handles == h
      ensures old(handles).Some? ==> handleLog == old(handleLog) + [h.value]
      ensures majors == old(majors) && majorLog == old(majorLog)
    {
      if handles.None? {
        return None;
      }
      h := Some(handles.value + 1);
      handles := h;
      handleLog := handleLog + [h.value];
    }
  }

  datatype NodeKind = QdiscNode | ClassNode

  /** A qdisc or a class. Its identifier never changes; its counters do. */
  class LtcNode {
    const name: string
    const kind: NodeKind
    const parent: LtcNode?
    const params: seq<(string, Param)>
    const major: nat
    const minor: nat
    /** Filter priorities handed out for filters attached to this node. */
    var priosIssued: nat
    /** Class minors handed out by this qdisc (unused on a class). */
    var minorsIssued: nat

    constructor (name: string, kind: NodeKind, parent: LtcNode?, params: seq<(string, Param)>, major: nat, minor: nat)
      ensures this.name == name && this.kind == kind && this.parent == parent && this.params == params
      ensures this.major == major && this.minor == minor
      ensures priosIssued == 0 && minorsIssued == 0
    {
      this.name := name;
      this.kind := kind;
      this.parent := parent;
      this.params := params;
      this.major := major;
      this.minor := minor;
      priosIssued := 0;
      minorsIssued := 0;
    }

    /** `nodeid`: the node's `major:minor` pair; a qdisc's `handle` and a class's
        `classid` are this identifier too. */
    function Id(): NodeId {
      NodeId(major, minor)
    }

    /** Reading `filter_prio` advances the node's priority counter from 1. */
    method FilterPrio() returns (p: nat)
      modifies this
      ensures p == old(priosIssued) + 1 && priosIssued == p
      ensures minorsIssued == old(minorsIssued)
    {
      priosIssued := priosIssued + 1;
      p := priosIssued;
    }

    /** `new_class_id()` of a qdisc: its own major and the next minor from 1. */
    method NewClassId() returns (id: NodeId)
      requires kind == QdiscNode
      modifies this
      ensures id == NodeId(major, old(minorsIssued) + 1) && minorsIssued == id.minor
      ensures priosIssued == old(priosIssued)
    {
      minorsIssued := minorsIssued + 1;
      id := NodeId(major, minorsIssued);
    }
  }

  /** `Qdisc(name, parent, **params)`: takes the next run-wide major, minor 0.
      Fails, handing out nothing, before `Qdisc.init()`. */
  method NewQdisc(alloc: Allocator, name: string, parent: LtcNode?, params: seq<(string, Param)>)
    returns (r: Option<LtcNode>)
    requires alloc.Valid()
    modifies alloc
    ensures alloc.Valid()
    ensures r.None? <==> old(alloc.majors).None?
    ensures r.None? ==> alloc.majors == old(alloc.majors)
    ensures r.Some? ==> (fresh(r.value)
      && r.value.kind == QdiscNode && r.value.name == name && r.value.parent == parent && r.value.params == params
      && r.value.major == old(alloc.majors).value + 1 && r.value.minor == 0
      && r.value.priosIssued == 0 && r.value.minorsIssued == 0
      && alloc.majors == Some(r.value.major) && alloc.majorLog == old(alloc.majorLog) + [r.value.major])
    ensures alloc.handles == old(alloc.handles) && alloc.handleLog == old(alloc.handleLog)
  {
    var m := alloc.NextMajor();
    if m.None? {
      return None;
    }
    var q := new LtcNode(name, QdiscNode, parent, params, m.value, 0);
    r := Some(q);
  }

  /** `QdiscClass(name, parent, **params)`: the parent qdisc's major and its next
      minor. A parent that is itself a class has no `new_class_id` and fails with
      nothing changed. */
  method NewClass(name: string, parent: LtcNode, params: seq<(string, Param)>) returns (r: Option<LtcNode>)
    modifies parent
    ensures r.None? <==> parent.kind == ClassNode
    ensures r.None? ==> parent.minorsIssued == old(parent.minorsIssued)
    ensures r.Some? ==> (fresh(r.value)
      && r.value.kind == ClassNode && r.value.name == name && r.value.parent == parent && r.value.params == params
      && r.value.major == parent.major && r.value.minor == old(parent.minorsIssued) + 1
      && parent.minorsIssued == r.value.minor)
    ensures parent.priosIssued == old(parent.priosIssued)
  {
    if parent.kind == ClassNode {
      return None;
    }
    var id := parent.NewClassId();
    var c := new LtcNode(name, ClassNode, parent, params, id.major, id.minor);
    r := Some(c);
  }

  /** A filter: its type name, the node it hangs on, its match condition, the
      node it sends matching traffic to (`flowid`), its priority and its handle. */
  datatype Filter = Filter(name: string, parentId: NodeId, cond: string, flowid: NodeId, prio: int, handle: int) {
    /** `nodeid` of a filter is its bare integer handle. */
    function NodeIdValue(): int { handle }

    /** `handle` as text: `0x`, then lowercase hex digits. */
    function HandleText(): (s: string)
      ensures |s| >= 3 && s[..2] == "0x"
    {
      "0x" + HexString(handle)
    }
  }

  /** The handle text reads back as the handle for every handle the counter gives. */
  lemma HandleTextRoundTrip(f: Filter)
    requires f.handle >= 0
    ensures ParseHex(f.HandleText()[2..]) == f.handle
  {
    assert f.HandleText()[2..] == HexDigits(f.handle);
    ParseHexDigits(f.handle);
  }

  /** `Filter(name, parent, cond, flownode, prio, handle)`: a falsy prio takes the
      parent's next priority, then a falsy handle takes the next run-wide handle.
      Before `Filter.init()` that second step fails, after the priority has already
      been consumed. */
  method NewFilter(alloc: Allocator, name: string, parent: LtcNode, cond: string, flownode: LtcNode,
                   prio: Option<int>, handle: Option<int>) returns (r: Option<Filter>)
    requires alloc.Valid()
    modifies alloc, parent
    ensures alloc.Valid()
    ensures parent.priosIssued == ExplicitOrNext(prio, old(parent.priosIssued)).1
    ensures parent.minorsIssued == old(parent.minorsIssued)
    ensures var explicitHandle := handle.Some? && handle.value != 0;
      r.None? <==> !explicitHandle && old(alloc.handles).None?
    ensures r.Some? ==> (r.value.name == name && r.value.cond == cond
      && r.value.parentId == parent.Id() && r.value.flowid == flownode.Id()
      && r.value.prio == ExplicitOrNext(prio, old(parent.priosIssued)).0)
    ensures r.Some? && handle.Some? && handle.value != 0 ==>
      (r.value.handle == handle.value && alloc.handles == old(alloc.handles) && alloc.handleLog == old(alloc.handleLog))
    ensures r.Some? && (handle.None? || handle.value == 0) ==>
      (r.value.handle == old(alloc.handles).value + 1 && alloc.handles == Some(r.value.handle)
       && alloc.handleLog == old(alloc.handleLog) + [r.value.handle])
    ensures r.None? ==> alloc.handles == old(alloc.handles)
    ensures alloc.majors == old(alloc.majors) && alloc.majorLog == old(alloc.majorLog)
  {
    var p: int;
    if prio.Some? && prio.value != 0 {
      p := prio.value;
    } else {
      p := parent.FilterPrio();
    }
    var h: int;
    if handle.Some? && handle.value != 0 {
      h := handle.value;
    } else {
      var next := alloc.NextHandle();
      if next.None? {
        return None;
      }
      h := next.value;
    }
    r := Some(Filter(name, parent.Id(), cond, flownode.Id(), p, h));
  }
}
