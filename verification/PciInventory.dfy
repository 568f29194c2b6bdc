/**
 The periodic PCI inventory: one pass over the host's devices that creates and updates objects,
 then deletes this node's objects that match the label map the pass ended with.
 */
module PciInventory {
  import opened Text
  import Names

  /** What the hardware says about a device; `resourceName` is the generated one. */
  datatype Details = Details(vendorId: string, deviceId: string, classId: string, resourceName: string,
                             description: string)

  datatype HostDevice = HostDevice(address: string, driver: string, details: Details)

  datatype Object = Object(
    labels: map<string, string>,
    annotations: map<string, string>,
    address: string,
    nodeName: string,
    details: Details,
    iommuGroup: string,
    driver: string)

  type Store = map<string, Object>

  const NODE_LABEL := "nodename"
  const PARENT_LABEL := "harvesterhci.io/parent-sriov-network-device"
  const DRIVER_ANNOTATION := "harvesterhci.io/pcideviceDriver"
  const OVERRIDE_ANNOTATION := "pcidevice.harvesterhci.io/override-resource-name"

  /** How an address and a host make an object name. */
  type Naming = (string, string) -> string

  /** The shared label map after asking for the owner of a new object: a VF widens it. */
  function Widened(labels: map<string, string>, parent: Option<string>): map<string, string>
  {
    if parent.None? then labels else labels[PARENT_LABEL := parent.value]
  }

  /**
   Status.Update: the annotation, if it is not empty, overrides the generated resource name, and the
   IOMMU group is kept if the host lists none.
   */
  function Updated(o: Object, d: HostDevice, h: Host): Object
  {
    var name := if OVERRIDE_ANNOTATION in o.annotations then o.annotations[OVERRIDE_ANNOTATION] else "";
    o.(address := d.address, nodeName := h.node, driver := d.driver,
       details := if name != "" then d.details.(resourceName := name) else d.details,
       iommuGroup := if d.address in h.groups then h.groups[d.address] else o.iommuGroup)
  }

  /** A new object before its first status update. */
  function NewObject(labels: map<string, string>, d: HostDevice, h: Host): Object
  {
    Object(labels, map[DRIVER_ANNOTATION := d.driver], d.address, h.node, d.details, "", d.driver)
  }

  datatype Progress = Progress(store: Store, labels: map<string, string>, addresses: set<string>)

  /**
   `vfParent` tells the SR-IOV device that a VF's object belongs to; `naming` is
   Names.PCIDeviceNameForHostname in the running controller (see SourceNamingIsGood).
   */
  datatype Host = Host(node: string, devices: seq<HostDevice>, skip: set<string>,
                       groups: map<string, string>, vfParent: string -> Option<string>, naming: Naming)
  {
    function NameOf(d: HostDevice): string { naming(d.address, node) }
  }

  function Visit(p: Progress, h: Host, d: HostDevice): Progress
  {
    if d.address in h.skip then p
    else
      var name := h.NameOf(d);
      var labels := if name in p.store then p.labels else Widened(p.labels, h.vfParent(name));
      var o := if name in p.store then p.store[name] else NewObject(labels, d, h);
      Progress(p.store[name := Updated(o, d, h)], labels, p.addresses + {d.address})
  }

  function VisitAll(store: Store, h: Host, devices: seq<HostDevice>): Progress
  {
    if devices == [] then Progress(store, map[NODE_LABEL := h.node], {})
    else Visit(VisitAll(store, h, devices[..|devices| - 1]), h, devices[|devices| - 1])
  }

  predicate Selected(o: Object, labels: map<string, string>)
  {
    forall k :: k in labels ==> k in o.labels && o.labels[k] == labels[k]
  }

  /** The objects that the final cleanup deletes. */
  function Doomed(p: Progress): set<string>
  {
    set n | n in p.store && Selected(p.store[n], p.labels) && p.store[n].address !in p.addresses
  }

  function Pass(store: Store, h: Host): Store
  {
    var p := VisitAll(store, h, h.devices);
    p.store - Doomed(p)
  }

  /** The store after an object has been created and its first status update has failed. */
  function HalfVisited(store: Store, labels: map<string, string>, h: Host, d: HostDevice): Store
  {
    var name := h.NameOf(d);
    if name in store then store else store[name := NewObject(Widened(labels, h.vfParent(name)), d, h)]
  }

  /** What a failing pass can leave: some visits, perhaps half of one, or all of them and some deletions. */
  ghost predicate CutShort(store: Store, h: Host, store': Store)
  {
    || (exists k: nat :: k <= |h.devices| && store' == VisitAll(store, h, h.devices[..k]).store)
    || (exists k: nat :: k < |h.devices| && StoppedAt(store, h, k, store'))
    || (exists gone :: var p := VisitAll(store, h, h.devices); gone <= Doomed(p) && store' == p.store - gone)
  }

  ghost predicate StoppedAt(store: Store, h: Host, k: nat, store': Store)
    requires k < |h.devices|
  {
    var p := VisitAll(store, h, h.devices[..k]);
    h.devices[k].address !in h.skip && store' == HalfVisited(p.store, p.labels, h, h.devices[k])
  }

  // ----- the controller -----

  class Handler {
    var store: Store

    constructor (store: Store)
      ensures this.store == store
    {
      this.store := store;
    }

    /** Every call to the API server may fail, which ends the pass with what it has done so far. */
    method ReconcilePCIDevices(h: Host) returns (ok: bool)
      modifies this
      ensures ok ==> store == Pass(old(store), h)
      ensures !ok ==> CutShort(old(store), h, store)
    {
      var commonLabels := map[NODE_LABEL := h.node];
      var realAddresses: set<string> := {};
      for k := 0 to |h.devices|
        invariant Progress(store, commonLabels, realAddresses) == VisitAll(old(store), h, h.devices[..k])
      {
        assert h.devices[..k + 1][..k] == h.devices[..k];
        var dev := h.devices[k];
        if dev.address !in h.skip {
          realAddresses := realAddresses + {dev.address};
          ok, commonLabels := CreateOrUpdate(h, dev, commonLabels);
          if !ok {
            assert store == VisitAll(old(store), h, h.devices[..k]).store || StoppedAt(old(store), h, k, store);
            return;
          }
        }
      }
      assert h.devices[..|h.devices|] == h.devices;
      ok := RemoveUnlisted(commonLabels, realAddresses);
    }

    /** Get or create the device's object and update its status; the shared map may come back widened. */
    method CreateOrUpdate(h: Host, dev: HostDevice, commonLabels: map<string, string>)
      returns (ok: bool, labels: map<string, string>)
      requires dev.address !in h.skip
      modifies this
      ensures ok ==> Progress(store, labels, {dev.address}) == Visit(Progress(old(store), commonLabels, {}), h, dev)
      ensures !ok ==> store == old(store) || store == HalfVisited(old(store), commonLabels, h, dev)
    {
      labels := commonLabels;
      ok := ApiCall();
      if !ok {
        return;
      }
      var name := h.NameOf(dev);
      if name !in store {
        labels := Widened(labels, h.vfParent(name));
        ok := ApiCall();
        if !ok {
          return;
        }
        store := store[name := NewObject(labels, dev, h)];
      }
      ok := ApiCall();
      if ok {
        store := store[name := Updated(store[name], dev, h)];
      }
    }

    /** Whether the API server answers a call. */
    method ApiCall() returns (ok: bool)
    {
      ok :| true;
    }

    /** List by label, pick those without a real address, then delete them one by one. */
    method RemoveUnlisted(labels: map<string, string>, addresses: set<string>) returns (ok: bool)
      modifies this
      ensures var doomed := Doomed(Progress(old(store), labels, addresses));
        if ok then store == old(store) - doomed else exists gone :: gone <= doomed && store == old(store) - gone
    {
      ghost var doomed := Doomed(Progress(store, labels, addresses));
      assert store == store - {};
      ok := ApiCall();
      if !ok {
        return;
      }
      var todo := set n | n in store && Selected(store[n], labels) && store[n].address !in addresses;
      while todo != {}
        invariant ok && todo <= doomed && store == old(store) - (doomed - todo)
        decreases |todo|
      {
        ok := ApiCall();
        if !ok {
          return;
        }
        var n :| n in todo;
        store := store - {n};
        todo := todo - {n};
      }
    }
  }

  // ----- names and owners -----

  ghost predicate GoodAddress(s: string)
  {
    exists a: Names.PciAddress :: a.WellFormed() && a.Text() == s
  }

  /** Object names determine host and address. */
  ghost predicate GoodNaming(naming: Naming)
  {
    forall a1, h1, a2, h2 :: GoodAddress(a1) && GoodAddress(a2) && naming(a1, h1) == naming(a2, h2) ==>
      a1 == a2 && h1 == h2
  }

  lemma SourceNamingIsGood()
    ensures GoodNaming((a: string, h: string) => Names.PCIDeviceNameForHostname(a, h))
  {
    forall a1, h1, a2, h2 | GoodAddress(a1) && GoodAddress(a2)
      && Names.PCIDeviceNameForHostname(a1, h1) == Names.PCIDeviceNameForHostname(a2, h2)
      ensures a1 == a2 && h1 == h2
    {
      var x: Names.PciAddress :| x.WellFormed() && x.Text() == a1;
      var y: Names.PciAddress :| y.WellFormed() && y.Text() == a2;
      Names.PciNameInjective(h1, x, h2, y);
    }
  }

  /** An object carries its node's label and the name of its node and address. */
  ghost predicate WellNamed(naming: Naming, n: string, o: Object)
  {
    && GoodAddress(o.address)
    && n == naming(o.address, o.nodeName)
    && NODE_LABEL in o.labels && o.labels[NODE_LABEL] == o.nodeName
  }

  ghost predicate ValidStore(naming: Naming, store: Store)
  {
    forall n :: n in store ==> WellNamed(naming, n, store[n])
  }

  ghost predicate ValidHost(devices: seq<HostDevice>)
  {
    forall i :: 0 <= i < |devices| ==> GoodAddress(devices[i].address)
  }

  function Present(devices: seq<HostDevice>, skip: set<string>): set<string>
  {
    set i | 0 <= i < |devices| && devices[i].address !in skip :: devices[i].address
  }

  /** The names that should be stored for the node: present and not skipped. */
  function Target(h: Host, devices: seq<HostDevice>): set<string>
  {
    set i | 0 <= i < |devices| && devices[i].address !in h.skip :: h.NameOf(devices[i])
  }

  function NodeNames(store: Store, node: string): set<string>
  {
    set n | n in store && store[n].nodeName == node
  }

  // ----- the first loop -----

  /** What the loop keeps: old objects it does not visit, the labels of every old object, this node's label. */
  ghost predicate Progressed(store: Store, h: Host, target: set<string>, present: set<string>, p: Progress)
  {
    && p.addresses == present
    && NODE_LABEL in p.labels && p.labels[NODE_LABEL] == h.node
    && p.store.Keys == store.Keys + target
    && forall n :: n in p.store ==> ObjectProgressed(store, h, target, present, n, p.store[n])
  }

  ghost predicate ObjectProgressed(store: Store, h: Host, target: set<string>, present: set<string>, n: string,
                                   o: Object)
  {
    && WellNamed(h.naming, n, o)
    && (n in store ==> o.labels == store[n].labels && o.nodeName == store[n].nodeName)
    && (if n in target then o.nodeName == h.node && o.address in present else n in store && o == store[n])
  }

  lemma ProgressedIsValid(store: Store, h: Host, target: set<string>, present: set<string>, p: Progress)
    requires Progressed(store, h, target, present, p)
    ensures ValidStore(h.naming, p.store)
  {
    forall n | n in p.store ensures WellNamed(h.naming, n, p.store[n]) {
      assert ObjectProgressed(store, h, target, present, n, p.store[n]);
    }
  }

  lemma TargetStep(h: Host, devices: seq<HostDevice>)
    requires devices != []
    ensures var init, d := devices[..|devices| - 1], devices[|devices| - 1];
      && Target(h, devices) == (if d.address in h.skip then Target(h, init) else Target(h, init) + {h.NameOf(d)})
      && Present(devices, h.skip) ==
        (if d.address in h.skip then Present(init, h.skip) else Present(init, h.skip) + {d.address})
  {
    var init := devices[..|devices| - 1];
    assert forall i :: 0 <= i < |init| ==> init[i] == devices[i];
  }

  lemma LabelKeysDiffer()
    ensures PARENT_LABEL != NODE_LABEL
  {
    assert |PARENT_LABEL| != |NODE_LABEL|;
  }

  /** One visit changes one object, keeps its labels if it existed, and keeps this node's label. */
  lemma VisitEffect(p: Progress, h: Host, d: HostDevice)
    requires GoodNaming(h.naming) && ValidStore(h.naming, p.store) && GoodAddress(d.address) && d.address !in h.skip
    requires NODE_LABEL in p.labels && p.labels[NODE_LABEL] == h.node
    ensures var q, name := Visit(p, h, d), h.NameOf(d);
      && ValidStore(h.naming, q.store) && q.store == p.store[name := q.store[name]]
      && q.store[name].nodeName == h.node && q.store[name].address == d.address
      && (name in p.store ==> q.store[name].labels == p.store[name].labels && p.store[name].nodeName == h.node)
      && NODE_LABEL in q.labels && q.labels[NODE_LABEL] == h.node
  {
    LabelKeysDiffer();
    var q, name := Visit(p, h, d), h.NameOf(d);
    if name in p.store {
      assert WellNamed(h.naming, name, p.store[name]);
      assert p.store[name].address == d.address;
    }
    assert WellNamed(h.naming, name, q.store[name]);
  }

  lemma ProgressExtends(store: Store, h: Host, target: set<string>, present: set<string>, p: Progress,
                        name: string, o: Object, labels: map<string, string>)
    requires Progressed(store, h, target, present, p)
    requires WellNamed(h.naming, name, o) && o.nodeName == h.node
    requires name in p.store ==> o.labels == p.store[name].labels && p.store[name].nodeName == h.node
    requires NODE_LABEL in labels && labels[NODE_LABEL] == h.node
    ensures Progressed(store, h, target + {name}, present + {o.address},
                       Progress(p.store[name := o], labels, p.addresses + {o.address}))
  {
    var s := p.store[name := o];
    forall n | n in s ensures ObjectProgressed(store, h, target + {name}, present + {o.address}, n, s[n]) {
      if n in p.store {
        assert ObjectProgressed(store, h, target, present, n, p.store[n]);
      }
    }
  }

  lemma VisitProgress(store: Store, h: Host, d: HostDevice, target: set<string>, present: set<string>, p: Progress)
    requires GoodNaming(h.naming) && GoodAddress(d.address) && d.address !in h.skip
    requires Progressed(store, h, target, present, p)
    ensures Progressed(store, h, target + {h.NameOf(d)}, present + {d.address}, Visit(p, h, d))
  {
    ProgressedIsValid(store, h, target, present, p);
    VisitEffect(p, h, d);
    var q, name := Visit(p, h, d), h.NameOf(d);
    ProgressExtends(store, h, target, present, p, name, q.store[name], q.labels);
  }

  lemma StepVisited(store: Store, h: Host, devices: seq<HostDevice>, p: Progress)
    requires GoodNaming(h.naming) && ValidHost(devices) && devices != []
    requires var init := devices[..|devices| - 1];
      Progressed(store, h, Target(h, init), Present(init, h.skip), p)
    ensures Progressed(store, h, Target(h, devices), Present(devices, h.skip), Visit(p, h, devices[|devices| - 1]))
  {
    var init, d := devices[..|devices| - 1], devices[|devices| - 1];
    TargetStep(h, devices);
    if d.address !in h.skip {
      VisitProgress(store, h, d, Target(h, init), Present(init, h.skip), p);
    }
  }

  lemma NothingVisited(store: Store, h: Host)
    requires ValidStore(h.naming, store)
    ensures Progressed(store, h, {}, {}, Progress(store, map[NODE_LABEL := h.node], {}))
  {
    forall n | n in store ensures ObjectProgressed(store, h, {}, {}, n, store[n]) {
      assert WellNamed(h.naming, n, store[n]);
    }
  }

  lemma {:induction false} AllVisited(store: Store, h: Host, devices: seq<HostDevice>)
    requires GoodNaming(h.naming) && ValidStore(h.naming, store) && ValidHost(devices)
    ensures Progressed(store, h, Target(h, devices), Present(devices, h.skip), VisitAll(store, h, devices))
  {
    if devices == [] {
      NothingVisited(store, h);
      assert Target(h, devices) == {} && Present(devices, h.skip) == {};
    } else {
      var init, d := devices[..|devices| - 1], devices[|devices| - 1];
      AllVisited(store, h, init);
      StepVisited(store, h, devices, VisitAll(store, h, init));
    }
  }

  // ----- what a pass does -----

  /** A pass keeps the store valid and never deletes a present device's object or another node's. */
  lemma PassDeletesOnlyStale(store: Store, h: Host, n: string)
    requires GoodNaming(h.naming) && ValidStore(h.naming, store) && ValidHost(h.devices) && n in store
    requires store[n].nodeName != h.node || n in Target(h, h.devices)
    ensures ValidStore(h.naming, Pass(store, h)) && n in Pass(store, h)
    ensures store[n].nodeName != h.node ==> Pass(store, h)[n] == store[n]
  {
    AllVisited(store, h, h.devices);
    var p := VisitAll(store, h, h.devices);
    assert WellNamed(h.naming, n, p.store[n]);
  }

  lemma PartialVisitKeeps(store: Store, h: Host, k: nat, n: string)
    requires GoodNaming(h.naming) && ValidStore(h.naming, store) && ValidHost(h.devices) && k <= |h.devices|
    ensures var p := VisitAll(store, h, h.devices[..k]);
      && ValidStore(h.naming, p.store) && NODE_LABEL in p.labels && p.labels[NODE_LABEL] == h.node
      && (n in store ==> n in p.store)
      && (n in store && store[n].nodeName != h.node ==> p.store[n] == store[n])
  {
    var devices := h.devices[..k];
    AllVisited(store, h, devices);
    var p := VisitAll(store, h, devices);
    ProgressedIsValid(store, h, Target(h, devices), Present(devices, h.skip), p);
    if n in store {
      assert ObjectProgressed(store, h, Target(h, devices), Present(devices, h.skip), n, p.store[n]);
    }
  }

  lemma HalfVisitKeeps(store: Store, labels: map<string, string>, h: Host, d: HostDevice)
    requires ValidStore(h.naming, store) && GoodAddress(d.address)
    requires NODE_LABEL in labels && labels[NODE_LABEL] == h.node
    ensures ValidStore(h.naming, HalfVisited(store, labels, h, d))
    ensures forall n :: n in store ==>
      n in HalfVisited(store, labels, h, d) && HalfVisited(store, labels, h, d)[n] == store[n]
  {
    LabelKeysDiffer();
    var after, name := HalfVisited(store, labels, h, d), h.NameOf(d);
    forall n | n in after ensures WellNamed(h.naming, n, after[n]) {
      if n in store {
        assert WellNamed(h.naming, n, store[n]);
      }
    }
  }

  lemma SomeDeletedKeeps(store: Store, h: Host, gone: set<string>, n: string)
    requires GoodNaming(h.naming) && ValidStore(h.naming, store) && ValidHost(h.devices)
    requires gone <= Doomed(VisitAll(store, h, h.devices))
    ensures var after := VisitAll(store, h, h.devices).store - gone;
      && ValidStore(h.naming, after)
      && (n in store && (store[n].nodeName != h.node || n in Target(h, h.devices)) ==> n in after)
      && (n in store && store[n].nodeName != h.node ==> after[n] == store[n])
  {
    assert h.devices[..|h.devices|] == h.devices;
    PartialVisitKeeps(store, h, |h.devices|, n);
    if n in store && (store[n].nodeName != h.node || n in Target(h, h.devices)) {
      PassDeletesOnlyStale(store, h, n);
    }
  }

  /** Wherever a pass fails, it has deleted no present device's object and touched no other node's. */
  lemma CutShortDeletesOnlyStale(store: Store, h: Host, store': Store, n: string)
    requires GoodNaming(h.naming) && ValidStore(h.naming, store) && ValidHost(h.devices) && CutShort(store, h, store')
    ensures ValidStore(h.naming, store')
    ensures n in store && (store[n].nodeName != h.node || n in Target(h, h.devices)) ==> n in store'
    ensures n in store && store[n].nodeName != h.node ==> store'[n] == store[n]
  {
    if k: nat :| k <= |h.devices| && store' == VisitAll(store, h, h.devices[..k]).store {
      PartialVisitKeeps(store, h, k, n);
    } else if k: nat :| k < |h.devices| && StoppedAt(store, h, k, store') {
      PartialVisitKeeps(store, h, k, n);
      var p := VisitAll(store, h, h.devices[..k]);
      HalfVisitKeeps(p.store, p.labels, h, h.devices[k]);
    } else {
      var gone :| var p := VisitAll(store, h, h.devices); gone <= Doomed(p) && store' == p.store - gone;
      SomeDeletedKeeps(store, h, gone, n);
    }
  }

  /** The node's objects without a present device. */
  ghost predicate Stale(store: Store, h: Host, n: string)
  {
    n in store && store[n].nodeName == h.node && n !in Target(h, h.devices)
  }

  lemma StaleIsUnlisted(store: Store, h: Host, n: string)
    requires GoodNaming(h.naming) && ValidStore(h.naming, store) && ValidHost(h.devices) && Stale(store, h, n)
    ensures store[n].address !in Present(h.devices, h.skip)
  {
    assert WellNamed(h.naming, n, store[n]);
    assert forall i :: 0 <= i < |h.devices| && h.devices[i].address !in h.skip ==>
      h.NameOf(h.devices[i]) in Target(h, h.devices);
  }

  lemma TargetSurvives(store: Store, h: Host, n: string)
    requires GoodNaming(h.naming) && ValidStore(h.naming, store) && ValidHost(h.devices) && n in Target(h, h.devices)
    ensures n in NodeNames(Pass(store, h), h.node)
  {
    AllVisited(store, h, h.devices);
    var p := VisitAll(store, h, h.devices);
    assert n in p.store && p.store[n].address in p.addresses;
  }

  lemma StaleSurvives(store: Store, h: Host, n: string)
    requires GoodNaming(h.naming) && ValidStore(h.naming, store) && ValidHost(h.devices) && Stale(store, h, n)
    ensures n in NodeNames(Pass(store, h), h.node) <==> !Selected(store[n], VisitAll(store, h, h.devices).labels)
  {
    AllVisited(store, h, h.devices);
    StaleIsUnlisted(store, h, n);
    var p := VisitAll(store, h, h.devices);
    assert n in p.store && p.store[n] == store[n];
  }

  /** What is stored for the node after a pass: the target, and the stale objects that the final labels miss. */
  lemma NodeNamesAfterPass(store: Store, h: Host, n: string)
    requires GoodNaming(h.naming) && ValidStore(h.naming, store) && ValidHost(h.devices)
    ensures n in NodeNames(Pass(store, h), h.node) <==>
      n in Target(h, h.devices) || (Stale(store, h, n) && !Selected(store[n], VisitAll(store, h, h.devices).labels))
  {
    if n in Target(h, h.devices) {
      TargetSurvives(store, h, n);
    } else if Stale(store, h, n) {
      StaleSurvives(store, h, n);
    } else {
      AllVisited(store, h, h.devices);
    }
  }

  /** The parent of the last VF for which the pass creates an object. */
  function LastParent(store: Store, h: Host, devices: seq<HostDevice>): Option<string>
  {
    if devices == [] then None
    else
      var init, d := devices[..|devices| - 1], devices[|devices| - 1];
      var name := h.NameOf(d);
      if d.address !in h.skip && name !in store && name !in Target(h, init) && h.vfParent(name).Some?
      then h.vfParent(name) else LastParent(store, h, init)
  }

  /** The shared map ends as this node's label, widened by the parent of the last created VF. */
  lemma {:induction false} FinalLabels(store: Store, h: Host, devices: seq<HostDevice>)
    requires GoodNaming(h.naming) && ValidStore(h.naming, store) && ValidHost(devices)
    ensures VisitAll(store, h, devices).labels == Widened(map[NODE_LABEL := h.node], LastParent(store, h, devices))
  {
    if devices != [] {
      var init := devices[..|devices| - 1];
      FinalLabels(store, h, init);
      AllVisited(store, h, init);
      WidenedTwice(map[NODE_LABEL := h.node], LastParent(store, h, init), h.vfParent(h.NameOf(devices[|devices| - 1])));
    }
  }

  lemma WidenedTwice(labels: map<string, string>, first: Option<string>, second: Option<string>)
    ensures Widened(Widened(labels, first), second) == Widened(labels, if second.Some? then second else first)
  {
  }

  /** The pass creates an object for the i-th device. */
  ghost predicate Creates(store: Store, h: Host, devices: seq<HostDevice>, i: nat)
    requires i < |devices|
  {
    var name := h.NameOf(devices[i]);
    devices[i].address !in h.skip && name !in store && name !in Target(h, devices[..i])
  }

  lemma VisitKeepsLabels(p: Progress, h: Host, d: HostDevice, n: string)
    requires n in p.store
    ensures n in Visit(p, h, d).store && Visit(p, h, d).store[n].labels == p.store[n].labels
  {
  }

  /** A new object is labelled with the map of its moment, so with the parent of the last VF created until then. */
  lemma {:induction false} CreatedLabels(store: Store, h: Host, devices: seq<HostDevice>, i: nat)
    requires GoodNaming(h.naming) && ValidStore(h.naming, store) && ValidHost(devices)
    requires i < |devices| && Creates(store, h, devices, i)
    ensures var p, name := VisitAll(store, h, devices), h.NameOf(devices[i]);
      name in p.store &&
      p.store[name].labels == Widened(map[NODE_LABEL := h.node], LastParent(store, h, devices[..i + 1]))
  {
    var init := devices[..|devices| - 1];
    if i == |devices| - 1 {
      assert devices[..i + 1] == devices;
      AllVisited(store, h, init);
      FinalLabels(store, h, devices);
    } else {
      assert init[..i] == devices[..i] && init[..i + 1] == devices[..i + 1];
      CreatedLabels(store, h, init, i);
      VisitKeepsLabels(VisitAll(store, h, init), h, devices[|devices| - 1], h.NameOf(devices[i]));
    }
  }

  /**
   A new object that is no VF carries a parent's label if and only if a VF was created before it in
   the same pass.
   */
  lemma MislabelledExactly(store: Store, h: Host, devices: seq<HostDevice>, i: nat)
    requires GoodNaming(h.naming) && ValidStore(h.naming, store) && ValidHost(devices)
    requires i < |devices| && Creates(store, h, devices, i) && h.vfParent(h.NameOf(devices[i])).None?
    ensures h.NameOf(devices[i]) in VisitAll(store, h, devices).store
    ensures PARENT_LABEL in VisitAll(store, h, devices).store[h.NameOf(devices[i])].labels <==>
      LastParent(store, h, devices[..i]).Some?
  {
    CreatedLabels(store, h, devices, i);
    LabelKeysDiffer();
    assert devices[..i + 1][..i] == devices[..i];
  }

  /** An object carries the label of the given SR-IOV parent. */
  predicate BelongsTo(o: Object, parent: string)
  {
    PARENT_LABEL in o.labels && o.labels[PARENT_LABEL] == parent
  }

  lemma StaleSelected(store: Store, h: Host, n: string)
    requires GoodNaming(h.naming) && ValidStore(h.naming, store) && ValidHost(h.devices) && Stale(store, h, n)
    ensures var parent := LastParent(store, h, h.devices);
      Selected(store[n], VisitAll(store, h, h.devices).labels) <==> parent.None? || BelongsTo(store[n], parent.value)
  {
    FinalLabels(store, h, h.devices);
    LabelKeysDiffer();
    assert WellNamed(h.naming, n, store[n]);
  }

  /**
   One pass brings the node's stored set to the target if and only if it creates no VF or every
   stale object carries the label of the last created VF's parent.
   */
  lemma OnePassExact(store: Store, h: Host)
    requires GoodNaming(h.naming) && ValidStore(h.naming, store) && ValidHost(h.devices)
    ensures var parent := LastParent(store, h, h.devices);
      NodeNames(Pass(store, h), h.node) == Target(h, h.devices) <==>
      parent.None? || forall n :: Stale(store, h, n) ==> BelongsTo(store[n], parent.value)
  {
    var parent := LastParent(store, h, h.devices);
    forall n ensures n in NodeNames(Pass(store, h), h.node) <==>
      n in Target(h, h.devices) || (Stale(store, h, n) && parent.Some? && !BelongsTo(store[n], parent.value))
    {
      NodeNamesAfterPass(store, h, n);
      if Stale(store, h, n) {
        StaleSelected(store, h, n);
      }
    }
  }

  /** The pass creates no object for a VF. */
  ghost predicate CreatesNoVF(store: Store, h: Host, devices: seq<HostDevice>)
  {
    forall i :: 0 <= i < |devices| && devices[i].address !in h.skip && h.NameOf(devices[i]) !in store ==>
      h.vfParent(h.NameOf(devices[i])).None?
  }

  lemma {:induction false} NoVFNoParent(store: Store, h: Host, devices: seq<HostDevice>)
    requires CreatesNoVF(store, h, devices)
    ensures LastParent(store, h, devices).None?
  {
    if devices != [] {
      var init := devices[..|devices| - 1];
      assert forall i :: 0 <= i < |init| ==> init[i] == devices[i];
      NoVFNoParent(store, h, init);
    }
  }

  /** Without a new VF one pass is enough. */
  lemma OnePassWithoutVF(store: Store, h: Host)
    requires GoodNaming(h.naming) && ValidStore(h.naming, store) && ValidHost(h.devices)
    requires CreatesNoVF(store, h, h.devices)
    ensures NodeNames(Pass(store, h), h.node) == Target(h, h.devices)
  {
    NoVFNoParent(store, h, h.devices);
    OnePassExact(store, h);
  }

  /** Two consecutive passes over the same host are always enough. */
  lemma TwoPassesConverge(store: Store, h: Host)
    requires GoodNaming(h.naming) && ValidStore(h.naming, store) && ValidHost(h.devices)
    ensures ValidStore(h.naming, Pass(store, h))
    ensures NodeNames(Pass(Pass(store, h), h), h.node) == Target(h, h.devices)
  {
    AllVisited(store, h, h.devices);
    var once := Pass(store, h);
    forall i | 0 <= i < |h.devices| && h.devices[i].address !in h.skip ensures h.NameOf(h.devices[i]) in once {
      NodeNamesAfterPass(store, h, h.NameOf(h.devices[i]));
    }
    OnePassWithoutVF(once, h);
  }

  /** So after a failed pass two more that succeed are enough as well. */
  lemma TwoPassesRecover(store: Store, h: Host, store': Store)
    requires GoodNaming(h.naming) && ValidStore(h.naming, store) && ValidHost(h.devices) && CutShort(store, h, store')
    ensures NodeNames(Pass(Pass(store', h), h), h.node) == Target(h, h.devices)
  {
    CutShortDeletesOnlyStale(store, h, store', "");
    TwoPassesConverge(store', h);
  }

  /** One pass that creates a VF can leave a stale object behind. */
  lemma NewVFHidesStaleObject(h: Host, vf: HostDevice, parent: string, n: string, stale: Object)
    requires GoodNaming(h.naming) && h.devices == [vf] && h.skip == {} && GoodAddress(vf.address)
    requires WellNamed(h.naming, n, stale) && stale.nodeName == h.node && stale.address != vf.address
    requires stale.labels == map[NODE_LABEL := h.node]
    requires h.vfParent(h.NameOf(vf)) == Some(parent)
    ensures n in Pass(map[n := stale], h) && n !in Target(h, h.devices)
  {
    var store := map[n := stale];
    var name := h.NameOf(vf);
    assert n != name;
    assert h.devices[..0] == [];
    assert VisitAll(store, h, []) == Progress(store, map[NODE_LABEL := h.node], {});
    var p := VisitAll(store, h, h.devices);
    assert p.labels == map[NODE_LABEL := h.node][PARENT_LABEL := parent];
    LabelKeysDiffer();
    assert PARENT_LABEL in p.labels && PARENT_LABEL !in stale.labels;
    assert p.store[n] == stale;
  }
}
