/** Network devices: splitting a device name into its module and number,
    choosing device names for a module over the list of existing devices,
    and the memo of device objects that `get_device` keeps. The list of
    existing devices (the entries of `/sys/class/net`) is a parameter. */
module NetDevices {
  import opened Wrappers
  import opened Text
  import opened Targets

  /** The characters `rstrip("0123456789")` removes. */
  const DIGIT_CHARS: set<char> := {'0', '1', '2', '3', '4', '5', '6', '7', '8', '9'}

  /** The modules `get_device` may load to create a missing device. */
  const LOADABLE_DEV_MODULES: seq<string> := ["ifb", "dummy"]

  /** `NetDeviceNotFound`, and the two `TypeError`s the code can raise:
      ordering device numbers against a missing one (or adding 1 to it), and
      looking a name up in the memo before `init()`. */
  datatype DevError = NotFound(name: string) | Unorderable | Uninitialised

  lemma DigitCharsAreDigits()
    ensures forall c :: c in DIGIT_CHARS <==> IsDigit(c)
  {
    forall c | IsDigit(c)
      ensures c in DIGIT_CHARS
    {
      var d := DigitValue(c);
      assert c == DigitChar(d);
    }
  }

  /** `split_name(name)`: the name without its trailing digits, and those
      digits as a number (`None` when there are none). */
  function SplitName(name: string): (r: (string, Option<nat>))
    ensures |r.0| <= |name| && r.0 == name[..|r.0|]
    ensures r.0 == [] || !IsDigit(r.0[|r.0| - 1])
    ensures AllDigits(name[|r.0|..])
    ensures r.1.None? <==> r.0 == name
  {
    DigitCharsAreDigits();
    var kmod := RStrip(name, DIGIT_CHARS);
    var num := name[|kmod|..];
    (kmod, if num == [] then None else Some(ParseNat(num)))
  }

  /** A module name followed by `str(n)` splits back into the two. */
  lemma SplitNameOf(kmod: string, n: nat)
    requires kmod == [] || !IsDigit(kmod[|kmod| - 1])
    ensures SplitName(kmod + NatToString(n)) == (kmod, Some(n))
  {
    var name := kmod + NatToString(n);
    assert name[|kmod|..] == NatToString(n);
    ParseNatToString(n);
  }

  /** A module name on its own has no number. */
  lemma SplitNameBare(kmod: string)
    requires kmod == [] || !IsDigit(kmod[|kmod| - 1])
    ensures SplitName(kmod) == (kmod, None)
  {
  }

  /** Re-rendering a split name with `str(num)` and splitting it again gives
      the same split (the rendering itself may differ: leading zeros go). */
  lemma SplitNameCanonical(name: string)
    requires SplitName(name).1.Some?
    ensures var (kmod, num) := SplitName(name);
      SplitName(kmod + NatToString(num.value)) == (kmod, num)
  {
    var (kmod, num) := SplitName(name);
    SplitNameOf(kmod, num.value);
  }

  /** The three splits the documentation gives. */
  lemma SplitNameExamples()
    ensures SplitName("dummy0") == ("dummy", Some(0))
    ensures SplitName("ifb883") == ("ifb", Some(883))
    ensures SplitName("dummy") == ("dummy", None)
  {
    SplitNameOf("dummy", 0);
    assert "dummy" + NatToString(0) == "dummy0";
    SplitNameOf("ifb", 883);
    assert NatToString(883) == "883";
    assert "ifb" + NatToString(883) == "ifb883";
  }

  /** The test `not filter or filter in dev`: an empty filter (or none) keeps
      every device. */
  predicate Selected(dev: string, filter: string) {
    filter == [] || Contains(dev, filter)
  }

  /** `all_iface_names(filter)` over the device list `existing`. */
  function AllIfaceNames(existing: seq<string>, filter: string): (r: seq<string>)
    ensures forall d :: d in r <==> d in existing && Selected(d, filter)
    ensures |r| <= |existing|
  {
    if existing == [] then []
    else (if Selected(existing[0], filter) then [existing[0]] else []) + AllIfaceNames(existing[1..], filter)
  }

  /** Without a filter, every device is listed, in order. */
  lemma {:induction false} AllIfaceNamesUnfiltered(existing: seq<string>)
    ensures AllIfaceNames(existing, "") == existing
  {
    if existing != [] {
      AllIfaceNamesUnfiltered(existing[1..]);
    }
  }

  function Number(name: string): Option<nat> { SplitName(name).1 }

  predicate AllNumbered(names: seq<string>) {
    forall k :: 0 <= k < |names| ==> Number(names[k]).Some?
  }

  /** The highest device number among `names`. */
  function MaxNumber(names: seq<string>): (m: nat)
    requires names != [] && AllNumbered(names)
    ensures forall k :: 0 <= k < |names| ==> Number(names[k]).value <= m
    ensures exists k :: 0 <= k < |names| && Number(names[k]) == Some(m)
  {
    var n := Number(names[0]).value;
    if |names| == 1 then n
    else
      var tail := names[1..];
      assert forall k :: 0 <= k < |tail| ==> tail[k] == names[k + 1];
      var m := MaxNumber(tail);
      if n < m then m else n
  }

  /** `sorted(map(split_name, names), key=num)[-1][1]`: the number of the
      last name once sorted. A single name needs no comparison, so its number
      may be `None`; with two or more, a missing number cannot be ordered. */
  function LastSortedNumber(names: seq<string>): (r: Result<Option<nat>, DevError>)
    requires names != []
    ensures r.Failure? <==> |names| >= 2 && !AllNumbered(names)
    ensures r.Failure? ==> r.error == Unorderable
    ensures AllNumbered(names) ==> r == Success(Some(MaxNumber(names)))
    ensures r.Success? && r.value.None? <==> |names| == 1 && Number(names[0]).None?
    ensures r.Success? && r.value.Some? ==>
      (forall k :: 0 <= k < |names| ==> Number(names[k]).Some? && Number(names[k]).value <= r.value.value)
      && (exists k :: 0 <= k < |names| && Number(names[k]) == r.value)
  {
    if |names| == 1 then Success(Number(names[0]))
    else if AllNumbered(names) then Success(Some(MaxNumber(names)))
    else Failure(Unorderable)
  }

  /** `minimal_nonexisting_name(kmod)`: `module0` when no device name
      contains `kmod`, otherwise `kmod` and one more than the highest
      number among those that do. */
  function MinimalNonexistingName(existing: seq<string>, kmod: string): (r: Result<string, DevError>)
    ensures r.Failure? ==> r.error == Unorderable
  {
    MinimalOf(AllIfaceNames(existing, kmod), kmod)
  }

  function MinimalOf(names: seq<string>, kmod: string): (r: Result<string, DevError>)
    ensures r.Failure? ==> r.error == Unorderable
  {
    if names == [] then Success(kmod + "0")
    else
      match LastSortedNumber(names)
      case Failure(e) => Failure(e)
      case Success(None) => Failure(Unorderable)
      case Success(Some(n)) => Success(kmod + NatToString(n + 1))
  }

  /** `maximal_existing_name(kmod)`: `module0` when no device name contains
      `kmod`, otherwise `kmod` and the highest number among those that do;
      a single such name without a number gives `kmod + "None"`. */
  function MaximalExistingName(existing: seq<string>, kmod: string): (r: Result<string, DevError>)
    ensures r.Failure? ==> r.error == Unorderable
  {
    MaximalOf(AllIfaceNames(existing, kmod), kmod)
  }

  function MaximalOf(names: seq<string>, kmod: string): (r: Result<string, DevError>)
    ensures r.Failure? ==> r.error == Unorderable
  {
    if names == [] then Success(kmod + "0")
    else
      match LastSortedNumber(names)
      case Failure(e) => Failure(e)
      case Success(None) => Success(kmod + "None")
      case Success(Some(n)) => Success(kmod + NatToString(n))
  }

  lemma ContainsPrefix(p: string, x: string)
    ensures Contains(p + x, p)
  {
    assert (p + x)[..|p|] == p;
  }

  /** A name lacking the first character of `p` does not contain `p`. */
  lemma {:induction false} LacksFirst(s: string, p: string)
    requires p != [] && Lacks(s, p[0])
    ensures !Contains(s, p)
    decreases |s|
  {
    if s != [] {
      assert s[1..] == s[1..] && Lacks(s[1..], p[0]) by {
        assert forall i :: 0 <= i < |s[1..]| ==> s[1..][i] == s[i + 1];
      }
      LacksFirst(s[1..], p);
    }
  }

  /** A name whose module part is `kmod` and whose number is above those of
      every device matching `kmod` is not an existing device. */
  /** The name `MinimalOf` picks contains `kmod` and is none of `names`. */
  lemma MinimalOfFresh(names: seq<string>, kmod: string)
    requires kmod == [] || !IsDigit(kmod[|kmod| - 1])
    requires MinimalOf(names, kmod).Success?
    ensures Selected(MinimalOf(names, kmod).value, kmod)
    ensures MinimalOf(names, kmod).value !in names
  {
    if names == [] {
      ContainsPrefix(kmod, "0");
    } else {
      var n := LastSortedNumber(names).value.value;
      assert MinimalOf(names, kmod).value == kmod + NatToString(n + 1);
      SplitNameOf(kmod, n + 1);
      ContainsPrefix(kmod, NatToString(n + 1));
      assert forall k :: 0 <= k < |names| ==> Number(names[k]).value < n + 1;
    }
  }

  /** The name `minimal_nonexisting_name` picks is free: no existing device
      has it. */
  lemma MinimalNonexistingFresh(existing: seq<string>, kmod: string)
    requires kmod == [] || !IsDigit(kmod[|kmod| - 1])
    requires MinimalNonexistingName(existing, kmod).Success?
    ensures MinimalNonexistingName(existing, kmod).value !in existing
  {
    MinimalOfFresh(AllIfaceNames(existing, kmod), kmod);
  }

  /** No device name contains `kmod`: both selections give `kmod0`. */
  lemma SelectionNoMatch(existing: seq<string>, kmod: string)
    requires AllIfaceNames(existing, kmod) == []
    ensures MinimalNonexistingName(existing, kmod) == Success(kmod + "0")
    ensures MaximalExistingName(existing, kmod) == Success(kmod + "0")
  {
  }

  /** Every matching device has a number: the highest one plus one, and the
      highest one. */
  lemma SelectionNumbered(existing: seq<string>, kmod: string)
    requires AllIfaceNames(existing, kmod) != [] && AllNumbered(AllIfaceNames(existing, kmod))
    ensures MinimalNonexistingName(existing, kmod)
      == Success(kmod + NatToString(MaxNumber(AllIfaceNames(existing, kmod)) + 1))
    ensures MaximalExistingName(existing, kmod)
      == Success(kmod + NatToString(MaxNumber(AllIfaceNames(existing, kmod))))
  {
    var names := AllIfaceNames(existing, kmod);
    var m := MaxNumber(names);
    assert MinimalOf(names, kmod) == Success(kmod + NatToString(m + 1)) by {
      assert LastSortedNumber(names) == Success(Some(m));
    }
    assert MaximalOf(names, kmod) == Success(kmod + NatToString(m)) by {
      assert LastSortedNumber(names) == Success(Some(m));
    }
  }

  /** Two or more matching devices, one of them without a number: the
      numbers cannot be sorted. */
  lemma SelectionUnorderable(existing: seq<string>, kmod: string)
    requires |AllIfaceNames(existing, kmod)| >= 2 && !AllNumbered(AllIfaceNames(existing, kmod))
    ensures MinimalNonexistingName(existing, kmod) == Failure(Unorderable)
    ensures MaximalExistingName(existing, kmod) == Failure(Unorderable)
  {
  }

  /** A single matching device without a number: `None + 1` fails, and the
      maximal name is `kmod` followed by the text `None`. */
  lemma SelectionSingleBare(existing: seq<string>, kmod: string)
    requires |AllIfaceNames(existing, kmod)| == 1 && Number(AllIfaceNames(existing, kmod)[0]).None?
    ensures MinimalNonexistingName(existing, kmod) == Failure(Unorderable)
    ensures MaximalExistingName(existing, kmod) == Success(kmod + "None")
  {
  }

  /** When every device whose name contains `kmod` is named `kmod` and
      `str(number)`, the name `maximal_existing_name` picks is one of them. */
  lemma MaximalExistingExists(existing: seq<string>, kmod: string)
    requires kmod == [] || !IsDigit(kmod[|kmod| - 1])
    requires forall d :: d in existing && Selected(d, kmod) ==>
      Number(d).Some? && d == kmod + NatToString(Number(d).value)
    requires AllIfaceNames(existing, kmod) != []
    ensures MaximalExistingName(existing, kmod).Success?
    ensures MaximalExistingName(existing, kmod).value in existing
  {
    var names := AllIfaceNames(existing, kmod);
    assert forall k :: 0 <= k < |names| ==> names[k] in names;
    assert AllNumbered(names);
    SelectionNumbered(existing, kmod);
    var m := MaxNumber(names);
    var j :| 0 <= j < |names| && Number(names[j]) == Some(m);
    assert names[j] in names;
  }

  /** A device object: its name and the egress and ingress targets the
      target factory builds for it. */
  class NetDevice {
    const name: string
    const egress: TcTarget
    const ingress: TcTarget

    /** `__init__(name, target_factory)`: one fresh target per direction, both
        writing to `sink`. */
    constructor (name: string, sink: Sink)
      ensures this.name == name
      ensures fresh(egress) && fresh(ingress) && egress != ingress
      ensures egress.iface == name && egress.direction == DIR_EGRESS && egress.sink == sink
      ensures ingress.iface == name && ingress.direction == DIR_INGRESS && ingress.sink == sink
      ensures egress.commands == [] && ingress.commands == []
      ensures Valid()
    {
      this.name := name;
      egress := new TcTarget(name, DIR_EGRESS, sink);
      ingress := new TcTarget(name, DIR_INGRESS, sink);
    }

    /** The two chain builders are this device's own: egress on `root`,
        ingress on `ingress`. */
    predicate Valid() {
      && egress != ingress
      && egress.iface == name && egress.chainName == "root"
      && ingress.iface == name && ingress.chainName == "ingress"
    }
  }

  /** How `get_device` treats a name it has not memoized. */
  datatype Resolution =
    | Wrap                                 // the device exists: wrap it under its own name
    | Create(kmod: string, name: string) // load `kmod`, ensure device `name`, wrap it
    | Refuse(error: DevError)

  function Resolve(name: string, existing: seq<string>): (r: Resolution)
    ensures r.Create? ==> r.kmod in LOADABLE_DEV_MODULES && name !in existing
    ensures r.Refuse? ==> name !in existing
  {
    if name in existing then Wrap
    else
      var (kmod, num) := SplitName(name);
      if kmod !in LOADABLE_DEV_MODULES then Refuse(NotFound(name))
      else
        match num
        case Some(n) => Create(kmod, kmod + NatToString(n))
        case None =>
          match MaximalExistingName(existing, kmod)
          case Failure(e) => Refuse(e)
          case Success(newName) => Create(kmod, newName)
  }

  /** A missing device named after a loadable kmod and a number is created
      under that name. */
  lemma ResolveNumbered(kmod: string, n: nat, existing: seq<string>)
    requires kmod in LOADABLE_DEV_MODULES
    requires kmod + NatToString(n) !in existing
    ensures Resolve(kmod + NatToString(n), existing) == Create(kmod, kmod + NatToString(n))
  {
    assert kmod == "ifb" || kmod == "dummy";
    SplitNameOf(kmod, n);
  }

  /** A bare loadable kmod name (not itself a device) resolves to the
      device `maximal_existing_name` picks. */
  lemma ResolveModule(kmod: string, existing: seq<string>)
    requires kmod in LOADABLE_DEV_MODULES && kmod !in existing
    ensures var m := MaximalExistingName(existing, kmod);
      Resolve(kmod, existing) == if m.Success? then Create(kmod, m.value) else Refuse(m.error)
  {
    assert kmod == "ifb" || kmod == "dummy";
    SplitNameBare(kmod);
  }

  /** A missing device whose kmod cannot be loaded is not found. */
  lemma ResolveForeign(name: string, existing: seq<string>)
    requires name !in existing && SplitName(name).0 !in LOADABLE_DEV_MODULES
    ensures Resolve(name, existing) == Refuse(NotFound(name))
  {
  }

  lemma TwoDevicesSelected()
    ensures AllIfaceNames(["ifb0", "eth0", "ifb1"], "ifb") == ["ifb0", "ifb1"]
  {
    var existing := ["ifb0", "eth0", "ifb1"];
    ContainsPrefix("ifb", "0");
    ContainsPrefix("ifb", "1");
    LacksFirst("eth0", "ifb");
    assert AllIfaceNames(existing[2..], "ifb") == ["ifb1"];
  }

  lemma IfbNumbers()
    ensures Number("ifb0") == Some(0) && Number("ifb1") == Some(1)
  {
    SplitNameOf("ifb", 0);
    SplitNameOf("ifb", 1);
  }

  lemma TwoNumbersMaximal()
    ensures MaximalOf(["ifb0", "ifb1"], "ifb") == Success("ifb1")
  {
    var names := ["ifb0", "ifb1"];
    IfbNumbers();
    assert LastSortedNumber(names) == Success(Some(1)) by {
      assert names[0] == "ifb0" && names[1] == "ifb1";
      assert AllNumbered(names) && MaxNumber(names) == 1;
    }
    assert "ifb" + NatToString(1) == "ifb1";
  }

  lemma TwoDevicesMaximal()
    ensures MaximalExistingName(["ifb0", "eth0", "ifb1"], "ifb") == Success("ifb1")
  {
    TwoDevicesSelected();
    TwoNumbersMaximal();
  }

  /** With devices `ifb0`, `eth0`, `ifb1`, asking for `ifb` gives `ifb1`. */
  lemma ResolveModuleTwoDevices()
    ensures Resolve("ifb", ["ifb0", "eth0", "ifb1"]) == Create("ifb", "ifb1")
  {
    TwoDevicesMaximal();
    ResolveModule("ifb", ["ifb0", "eth0", "ifb1"]);
  }

  lemma NoDeviceMaximal()
    ensures MaximalExistingName(["eth0"], "ifb") == Success("ifb0")
  {
    LacksFirst("eth0", "ifb");
    assert AllIfaceNames(["eth0"], "ifb") == [];
    assert "ifb" + "0" == "ifb0";
  }

  /** With only `eth0`, asking for `ifb` gives `ifb0`. */
  lemma ResolveModuleNoDevice()
    ensures Resolve("ifb", ["eth0"]) == Create("ifb", "ifb0")
  {
    NoDeviceMaximal();
    ResolveModule("ifb", ["eth0"]);
  }

  /** What `get_device` hands back: the null object for no name, or a device. */
  datatype DeviceRef = NullDevice | Device(dev: NetDevice)

  /** Two device objects are one, or share no chain builder. */
  predicate Apart(d: NetDevice, e: NetDevice) {
    d == e || (d.egress != e.egress && d.egress != e.ingress && d.ingress != e.egress && d.ingress != e.ingress)
  }

  /** The class-level memo of `NetDevice`: `None` until `init()`. */
  class DeviceRegistry {
    var ifaceMap: Option<map<string, NetDevice>>

    constructor ()
      ensures ifaceMap.None? && Valid()
    {
      ifaceMap := None;
    }

    /** Every memoized device has two chain builders of its own. */
    ghost predicate Valid()
      reads this
    {
      ifaceMap.Some? ==>
        && (forall d :: d in ifaceMap.value.Values ==> d.Valid())
        && (forall d, e :: d in ifaceMap.value.Values && e in ifaceMap.value.Values ==> Apart(d, e))
    }

    /** The chain builders of the memoized devices. */
    ghost function Chains(): set<TcTarget>
      reads this
    {
      if ifaceMap.None? then {}
      else (set d | d in ifaceMap.value.Values :: d.egress) + (set d | d in ifaceMap.value.Values :: d.ingress)
    }

    /** `init()`: an empty memo. */
    method Init()
      modifies this
      ensures ifaceMap == Some(map[]) && Valid()
    {
      ifaceMap := Some(map[]);
    }

    /** `get_device(name_or_module)`: the null object for `None`; the
        memoized object for a known name; otherwise a new object for the
        resolved name, memoized under that name (replacing any entry it had). */
    method GetDevice(nameOrModule: Option<string>, existing: seq<string>, sink: Sink)
      returns (r: Result<DeviceRef, DevError>)
      requires Valid()
      modifies this
      ensures Valid()
      ensures r.Success? && r.value.Device? ==>
        r.value.dev.Valid() && ifaceMap.Some? && r.value.dev in ifaceMap.value.Values
      ensures r.Success? && r.value.Device? && !fresh(r.value.dev) ==>
        old(ifaceMap).Some? && r.value.dev in old(ifaceMap).value.Values
      ensures r.Success? && r.value.Device? && fresh(r.value.dev) ==>
        fresh(r.value.dev.egress) && fresh(r.value.dev.ingress)
        && r.value.dev.egress.commands == [] && r.value.dev.ingress.commands == []
      ensures nameOrModule.None? ==> r == Success(NullDevice) && ifaceMap == old(ifaceMap)
      ensures nameOrModule.Some? && old(ifaceMap).None? ==> r == Failure(Uninitialised) && ifaceMap == old(ifaceMap)
      ensures nameOrModule.Some? && old(ifaceMap).Some? && nameOrModule.value in old(ifaceMap).value ==>
        r == Success(Device(old(ifaceMap).value[nameOrModule.value])) && ifaceMap == old(ifaceMap)
      ensures nameOrModule.Some? && old(ifaceMap).Some? && nameOrModule.value !in old(ifaceMap).value ==>
        match Resolve(nameOrModule.value, existing)
        case Refuse(e) => r == Failure(e) && ifaceMap == old(ifaceMap)
        case Wrap =>
          r.Success? && r.value.Device? && fresh(r.value.dev) && r.value.dev.name == nameOrModule.value
          && ifaceMap == Some(old(ifaceMap).value[nameOrModule.value := r.value.dev])
        case Create(_, newName) =>
          r.Success? && r.value.Device? && fresh(r.value.dev) && r.value.dev.name == newName
          && ifaceMap == Some(old(ifaceMap).value[newName := r.value.dev])
    {
      if nameOrModule.None? {
        return Success(NullDevice);
      }
      var name := nameOrModule.value;
      if ifaceMap.None? {
        return Failure(Uninitialised);
      }
      var memo := ifaceMap.value;
      if name in memo {
        assert memo[name] in memo.Values;
        return Success(Device(memo[name]));
      }
      match Resolve(name, existing)
      case Refuse(e) =>
        r := Failure(e);
      case Wrap =>
        var dev := new NetDevice(name, sink);
        ifaceMap := Some(memo[name := dev]);
        assert ifaceMap.value[name] in ifaceMap.value.Values;
        r := Success(Device(dev));
      case Create(_, newName) =>
        var dev := new NetDevice(newName, sink);
        ifaceMap := Some(memo[newName := dev]);
        assert ifaceMap.value[newName] in ifaceMap.value.Values;
        r := Success(Device(dev));
    }
  }
}
