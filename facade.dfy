/** The facade: one run-wide map from interface names to device objects,
    and the reset that starts a run. */
module Facade {
  import opened Wrappers
  import opened LtcNodes
  import opened Targets
  import opened NetDevices

  /** `TrafficControl`'s class-level state: the interface map, `None` until
      `init()`. */
  class TrafficControl {
    var ifaceMap: Option<map<string, NetDevice>>

    constructor ()
      ensures ifaceMap.None?
    {
      ifaceMap := None;
    }

    /** `init()`: an empty interface map, and both run-wide counters reset,
        so that the next qdisc gets major 1 and the next filter handle 1. */
    method Init(alloc: Allocator)
      requires alloc.Valid()
      modifies this, alloc
      ensures ifaceMap == Some(map[])
      ensures alloc.Valid()
      ensures alloc.majors == Some(0) && alloc.majorLog == []
      ensures alloc.handles == Some(0) && alloc.handleLog == []
    {
      ifaceMap := Some(map[]);
      alloc.InitQdisc();
      alloc.InitFilter();
    }

    /** `get_iface(ifname)`: the mapped object when there is one; otherwise a
        new device object for `ifname`, added as the map's only new entry.
        Before `init()` the map is `None` and the lookup fails with a
        `TypeError`, which the `KeyError` handler does not catch. */
    method GetIface(ifname: string, sink: Sink) returns (r: Result<NetDevice, DevError>)
      modifies this
      ensures old(ifaceMap).None? ==> r == Failure(Uninitialised) && ifaceMap == old(ifaceMap)
      ensures old(ifaceMap).Some? && ifname in old(ifaceMap).value ==>
        r == Success(old(ifaceMap).value[ifname]) && ifaceMap == old(ifaceMap)
      ensures old(ifaceMap).Some? && ifname !in old(ifaceMap).value ==>
        r.Success? && fresh(r.value) && r.value.name == ifname
        && ifaceMap == Some(old(ifaceMap).value[ifname := r.value])
    {
      if ifaceMap.None? {
        return Failure(Uninitialised);
      }
      var known := ifaceMap.value;
      if ifname in known {
        return Success(known[ifname]);
      }
      var iface := new NetDevice(ifname, sink);
      ifaceMap := Some(known[ifname := iface]);
      r := Success(iface);
    }
  }

  /** Two lookups of one name after `init()` give the same object, and only
      the first can add an entry. */
  method GetIfaceTwice(tc: TrafficControl, ifname: string, sink: Sink)
    returns (first: Result<NetDevice, DevError>, second: Result<NetDevice, DevError>)
    requires tc.ifaceMap.Some?
    modifies tc
    ensures first.Success? && second == first
    ensures tc.ifaceMap.Some? && tc.ifaceMap.value.Keys == old(tc.ifaceMap).value.Keys + {ifname}
    ensures forall n :: n in old(tc.ifaceMap).value ==> tc.ifaceMap.value[n] == old(tc.ifaceMap).value[n]
  {
    first := tc.GetIface(ifname, sink);
    second := tc.GetIface(ifname, sink);
  }
}
