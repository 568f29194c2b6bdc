/**
 The PCI device plugin: its device list, its IOMMU map and the health messages that goroutines
 hold until the kubelet stream takes them, in any order.
 */
module DevicePlugin {

  datatype Health = Healthy | Unhealthy
  datatype Device = Device(id: string, health: Health)
  datatype Message = Message(id: string, health: Health)
  datatype PciDev = PciDev(address: string, group: string)

  /** `pending` holds the messages that have been sent and not yet received. */
  datatype Plugin = Plugin(devs: seq<Device>, groups: map<string, string>, pending: multiset<Message>)

  function Constructed(pds: seq<PciDev>): seq<Device>
  {
    seq(|pds|, i requires 0 <= i < |pds| => Device(pds[i].address, Unhealthy))
  }

  function WithGroups(groups: map<string, string>, pds: seq<PciDev>): map<string, string>
  {
    if pds == [] then groups
    else WithGroups(groups, pds[..|pds| - 1])[pds[|pds| - 1].address := pds[|pds| - 1].group]
  }

  function Created(pds: seq<PciDev>, initial: string): Plugin
  {
    Plugin(Constructed(pds), WithGroups(map[], pds), multiset{Message(initial, Healthy)})
  }

  /** Adding a device that the IOMMU map already holds is a no-op. */
  function Added(p: Plugin, pd: PciDev, claimAddress: string): Plugin
  {
    if pd.address in p.groups then p
    else Plugin(p.devs + [Device(pd.address, Unhealthy)], p.groups[pd.address := pd.group],
                p.pending + multiset{Message(claimAddress, Healthy)})
  }

  function Removed(p: Plugin, claimAddress: string): Plugin
  {
    p.(pending := p.pending + multiset{Message(claimAddress, Unhealthy)})
  }

  function Marked(devs: seq<Device>, m: Message): seq<Device>
  {
    seq(|devs|, i requires 0 <= i < |devs| => if devs[i].id == m.id then devs[i].(health := m.health) else devs[i])
  }

  function Delivered(p: Plugin, m: Message): Plugin
  {
    p.(devs := Marked(p.devs, m), pending := p.pending - multiset{m})
  }

  /** The devices after the stream has taken the messages in this order. */
  function Taken(devs: seq<Device>, order: seq<Message>): seq<Device>
  {
    if order == [] then devs else Marked(Taken(devs, order[..|order| - 1]), order[|order| - 1])
  }

  function Ids(devs: seq<Device>): set<string>
  {
    set i | 0 <= i < |devs| :: devs[i].id
  }

  function HealthyIds(devs: seq<Device>): set<string>
  {
    set i | 0 <= i < |devs| && devs[i].health == Healthy :: devs[i].id
  }

  predicate DistinctIds(devs: seq<Device>)
  {
    forall i, j :: 0 <= i < j < |devs| ==> devs[i].id != devs[j].id
  }

  function HealthyCount(devs: seq<Device>): nat
  {
    if devs == [] then 0
    else HealthyCount(devs[..|devs| - 1]) + if devs[|devs| - 1].health == Healthy then 1 else 0
  }

  // ----- runs -----

  datatype Event =
    | Add(pd: PciDev, claimAddress: string)
    | Remove(claimAddress: string)
    | Deliver(message: Message)

  function Step(p: Plugin, e: Event): Plugin
  {
    match e
    case Add(pd, a) => Added(p, pd, a)
    case Remove(a) => Removed(p, a)
    case Deliver(m) => if m in p.pending then Delivered(p, m) else p
  }

  function Run(p: Plugin, events: seq<Event>): Plugin
  {
    if events == [] then p else Step(Run(p, events[..|events| - 1]), events[|events| - 1])
  }

  /** Device IDs are distinct and are exactly the keys of the IOMMU map. */
  ghost predicate Consistent(p: Plugin)
  {
    DistinctIds(p.devs) && Ids(p.devs) == p.groups.Keys
  }

  lemma MarkedKeepsIds(devs: seq<Device>, m: Message)
    ensures Ids(Marked(devs, m)) == Ids(devs)
    ensures DistinctIds(devs) ==> DistinctIds(Marked(devs, m))
  {
    var marked := Marked(devs, m);
    assert forall i :: 0 <= i < |devs| ==> marked[i].id == devs[i].id;
  }

  lemma IdsAppend(devs: seq<Device>, d: Device)
    ensures Ids(devs + [d]) == Ids(devs) + {d.id}
    ensures d.health == Unhealthy ==> HealthyIds(devs + [d]) == HealthyIds(devs)
  {
    var all := devs + [d];
    assert all[|devs|] == d;
    assert forall i :: 0 <= i < |devs| ==> all[i] == devs[i];
  }

  lemma {:induction false} CreatedConsistent(pds: seq<PciDev>, initial: string)
    requires forall i, j :: 0 <= i < j < |pds| ==> pds[i].address != pds[j].address
    ensures Consistent(Created(pds, initial)) && HealthyIds(Constructed(pds)) == {}
  {
    if pds != [] {
      var init, pd := pds[..|pds| - 1], pds[|pds| - 1];
      CreatedConsistent(init, initial);
      assert Constructed(pds) == Constructed(init) + [Device(pd.address, Unhealthy)];
      IdsAppend(Constructed(init), Device(pd.address, Unhealthy));
    }
  }

  lemma StepConsistent(p: Plugin, e: Event)
    requires Consistent(p)
    ensures Consistent(Step(p, e))
  {
    match e
    case Add(pd, a) =>
      if pd.address !in p.groups {
        IdsAppend(p.devs, Device(pd.address, Unhealthy));
        assert forall i :: 0 <= i < |p.devs| ==> p.devs[i].id in Ids(p.devs);
      }
    case Remove(a) =>
    case Deliver(m) => MarkedKeepsIds(p.devs, m);
  }

  /** In every run, with messages delivered in any order and at any time, the plugin stays consistent. */
  lemma {:induction false} RunConsistent(p: Plugin, events: seq<Event>)
    requires Consistent(p)
    ensures Consistent(Run(p, events))
  {
    if events != [] {
      RunConsistent(p, events[..|events| - 1]);
      StepConsistent(Run(p, events[..|events| - 1]), events[|events| - 1]);
    }
  }

  // ----- groups -----

  /** A new plugin maps every device to its own group. */
  lemma {:induction false} CreatedGroups(pds: seq<PciDev>, initial: string, i: nat)
    requires i < |pds| && forall j, k :: 0 <= j < k < |pds| ==> pds[j].address != pds[k].address
    ensures pds[i].address in Created(pds, initial).groups
    ensures Created(pds, initial).groups[pds[i].address] == pds[i].group
  {
    if i < |pds| - 1 {
      CreatedGroups(pds[..|pds| - 1], initial, i);
    }
  }

  /** The i-th event adds the device, and none before it does. */
  ghost predicate AddsFirst(events: seq<Event>, i: nat, address: string)
  {
    && i < |events| && events[i].Add? && events[i].pd.address == address
    && !AddedIn(events[..i], address)
  }

  ghost predicate AddedIn(events: seq<Event>, address: string)
  {
    exists j :: 0 <= j < |events| && events[j].Add? && events[j].pd.address == address
  }

  lemma AddedInNext(events: seq<Event>, address: string)
    requires events != []
    ensures var init, e := events[..|events| - 1], events[|events| - 1];
      AddedIn(events, address) <==> AddedIn(init, address) || (e.Add? && e.pd.address == address)
  {
    var init := events[..|events| - 1];
    assert forall j :: 0 <= j < |init| ==> init[j] == events[j];
    if AddedIn(init, address) {
      var j :| 0 <= j < |init| && init[j].Add? && init[j].pd.address == address;
      assert events[j].Add?;
    }
  }

  /** A device's group is in the map from its creation or first add on. */
  lemma {:induction false} GroupsHold(p: Plugin, events: seq<Event>, address: string)
    ensures address in Run(p, events).groups <==> address in p.groups || AddedIn(events, address)
    ensures address in p.groups ==> Run(p, events).groups[address] == p.groups[address]
  {
    if events != [] {
      GroupsHold(p, events[..|events| - 1], address);
      AddedInNext(events, address);
    }
  }

  /** In every run a device that was not there at first has the group it was first added with. */
  lemma {:induction false} GroupIsFirstGiven(p: Plugin, events: seq<Event>, address: string, i: nat)
    requires address !in p.groups && AddsFirst(events, i, address)
    ensures address in Run(p, events).groups && Run(p, events).groups[address] == events[i].pd.group
  {
    var init := events[..|events| - 1];
    if i == |events| - 1 {
      GroupsHold(p, init, address);
    } else {
      assert init[..i] == events[..i] && init[i] == events[i];
      GroupIsFirstGiven(p, init, address, i);
    }
  }

  // ----- what a message does -----

  lemma MarkedHealth(devs: seq<Device>, m: Message)
    ensures HealthyIds(Marked(devs, m)) ==
      if m.health == Healthy then HealthyIds(devs) + (Ids(devs) * {m.id}) else HealthyIds(devs) - {m.id}
  {
    var marked := Marked(devs, m);
    forall id | id in HealthyIds(devs) && (id != m.id || m.health == Healthy) ensures id in HealthyIds(marked) {
      var i :| 0 <= i < |devs| && devs[i].health == Healthy && devs[i].id == id;
      assert marked[i].health == Healthy && marked[i].id == id;
    }
    forall id | id in Ids(devs) && id == m.id && m.health == Healthy ensures id in HealthyIds(marked) {
      var i :| 0 <= i < |devs| && devs[i].id == id;
      assert marked[i].health == Healthy && marked[i].id == id;
    }
    forall id | id in HealthyIds(marked)
      ensures id in Ids(devs)
      ensures if id == m.id then m.health == Healthy else id in HealthyIds(devs)
    {
      var i :| 0 <= i < |devs| && marked[i].health == Healthy && marked[i].id == id;
      assert devs[i].id == id;
    }
  }

  // ----- counting -----

  lemma {:induction false} CountIsHealthyDevices(devs: seq<Device>)
    requires DistinctIds(devs)
    ensures HealthyCount(devs) == |HealthyIds(devs)|
  {
    if devs != [] {
      CountIsHealthyDevices(devs[..|devs| - 1]);
      HealthyLast(devs);
    }
  }

  lemma HealthyLast(devs: seq<Device>)
    requires devs != []
    ensures var init, d := devs[..|devs| - 1], devs[|devs| - 1];
      && HealthyIds(devs) == HealthyIds(init) + (if d.health == Healthy then {d.id} else {})
      && (DistinctIds(devs) ==> d.id !in HealthyIds(init))
  {
    var init := devs[..|devs| - 1];
    assert forall i :: 0 <= i < |init| ==> init[i] == devs[i];
  }

  // ----- the objects -----

  class PCIDevicePlugin {
    var devs: seq<Device>
    var groups: map<string, string>
    var pending: multiset<Message>

    ghost function State(): Plugin
      reads this
    {
      Plugin(devs, groups, pending)
    }

    constructor Create(pciAddressInitial: string, pds: seq<PciDev>)
      ensures State() == Created(pds, pciAddressInitial)
    {
      var built, map_ := ConstructDPIdevices(pds, map[]);
      devs, groups := built, map_;
      pending := multiset{Message(pciAddressInitial, Healthy)};
    }

    method AddDevice(pd: PciDev, claimAddress: string)
      modifies this
      ensures State() == Added(old(State()), pd, claimAddress)
    {
      if pd.address !in groups {
        var built, map_ := ConstructDPIdevices([pd], groups);
        assert [pd][..0] == [];
        assert WithGroups(groups, []) == groups;
        groups := map_;
        devs := devs + built;
        pending := pending + multiset{Message(claimAddress, Healthy)};
      }
    }

    method RemoveDevice(claimAddress: string)
      modifies this`pending
      ensures State() == Removed(old(State()), claimAddress)
    {
      pending := pending + multiset{Message(claimAddress, Unhealthy)};
    }

    /** The stream takes one message and marks the devices it names. */
    method ReceiveHealth(m: Message)
      requires m in pending
      modifies this`devs, this`pending
      ensures State() == Delivered(old(State()), m)
    {
      pending := pending - multiset{m};
      var before := devs;
      for k := 0 to |before|
        invariant |devs| == |before| && pending == old(pending) - multiset{m}
        invariant forall i :: 0 <= i < k ==> devs[i] == Marked(before, m)[i]
        invariant forall i :: k <= i < |before| ==> devs[i] == before[i]
      {
        if m.id == devs[k].id {
          devs := devs[k := devs[k].(health := m.health)];
        }
      }
      assert devs == Marked(before, m);
    }

    method GetCount() returns (count: nat)
      ensures count == HealthyCount(devs)
    {
      count := 0;
      for k := 0 to |devs|
        invariant count == HealthyCount(devs[..k])
      {
        assert devs[..k + 1][..k] == devs[..k];
        if devs[k].health == Healthy {
          count := count + 1;
        }
      }
      assert devs[..|devs|] == devs;
    }
  }

  method ConstructDPIdevices(pds: seq<PciDev>, groups: map<string, string>)
    returns (devs: seq<Device>, groups': map<string, string>)
    ensures devs == Constructed(pds) && groups' == WithGroups(groups, pds)
  {
    devs, groups' := [], groups;
    for k := 0 to |pds|
      invariant devs == Constructed(pds[..k]) && groups' == WithGroups(groups, pds[..k])
    {
      assert pds[..k + 1][..k] == pds[..k];
      groups' := groups'[pds[k].address := pds[k].group];
      devs := devs + [Device(pds[k].address, Unhealthy)];
    }
    assert pds[..|pds|] == pds;
  }

  /** The claim controller's plugin table. */
  class Handler {
    var plugins: map<string, PCIDevicePlugin>

    constructor ()
      ensures plugins == map[]
    {
      plugins := map[];
    }

    /**
     The end of a claim: mark the device unhealthy, wait a while, and drop the plugin if the count
     finds no healthy device. By then the stream may have taken any of the messages, in any order.
     */
    method OnRemove(resourceName: string, claimAddress: string) returns (ghost taken: seq<Message>)
      modifies this, if resourceName in plugins then {plugins[resourceName]} else {}
      ensures resourceName !in old(plugins) ==> plugins == old(plugins)
      ensures resourceName in old(plugins) ==>
        var dp := old(plugins)[resourceName];
        var p := Removed(old(Plugin(dp.devs, dp.groups, dp.pending)), claimAddress);
        && multiset(taken) <= p.pending
        && Plugin(dp.devs, dp.groups, dp.pending) == Plugin(Taken(p.devs, taken), p.groups, p.pending - multiset(taken))
        && plugins == (if HealthyIds(dp.devs) == {} then old(plugins) - {resourceName} else old(plugins))
    {
      taken := [];
      if resourceName in plugins {
        var dp := plugins[resourceName];
        dp.RemoveDevice(claimAddress);
        taken := WaitForStream(dp);
        var count := dp.GetCount();
        CountZero(dp.devs);
        if count == 0 {
          plugins := plugins - {resourceName};
        }
      }
    }

    /** The stream takes some of the messages, in some order. */
    method WaitForStream(dp: PCIDevicePlugin) returns (ghost taken: seq<Message>)
      modifies dp`devs, dp`pending
      ensures multiset(taken) <= old(dp.pending) && dp.pending == old(dp.pending) - multiset(taken)
      ensures dp.devs == Taken(old(dp.devs), taken)
    {
      taken := [];
      while dp.pending != multiset{}
        invariant multiset(taken) <= old(dp.pending) && dp.pending == old(dp.pending) - multiset(taken)
        invariant dp.devs == Taken(old(dp.devs), taken)
        decreases |dp.pending|
      {
        if * {
          break;
        }
        var m :| m in dp.pending;
        dp.ReceiveHealth(m);
        TakeOneMore(old(dp.devs), old(dp.pending), taken, m);
        taken := taken + [m];
      }
    }
  }

  lemma TakeOneMore(devs: seq<Device>, pending: multiset<Message>, taken: seq<Message>, m: Message)
    requires multiset(taken) <= pending && m in pending - multiset(taken)
    ensures multiset(taken + [m]) <= pending
    ensures pending - multiset(taken + [m]) == pending - multiset(taken) - multiset{m}
    ensures Taken(devs, taken + [m]) == Marked(Taken(devs, taken), m)
  {
    assert (taken + [m])[..|taken|] == taken;
  }

  lemma {:induction false} CountZero(devs: seq<Device>)
    ensures HealthyCount(devs) == 0 <==> HealthyIds(devs) == {}
  {
    if devs != [] {
      CountZero(devs[..|devs| - 1]);
      HealthyLast(devs);
    }
  }
}
