/**
 What the objects of present devices hold after a pass, field by field.
 */
module PciFields {
  import opened PciInventory

  /** The annotation that overrides the resource name, if it is there and not empty. */
  predicate Overrides(annotations: map<string, string>, name: string)
  {
    name != "" && OVERRIDE_ANNOTATION in annotations && annotations[OVERRIDE_ANNOTATION] == name
  }

  /** What the hardware says is in the object; the generated resource name counts unless it is overridden. */
  ghost predicate ShowsDevice(o: Object, d: HostDevice, node: string)
  {
    && o.address == d.address && o.nodeName == node && o.driver == d.driver
    && o.details.vendorId == d.details.vendorId && o.details.deviceId == d.details.deviceId
    && o.details.classId == d.details.classId && o.details.description == d.details.description
    && (forall name :: Overrides(o.annotations, name) ==> o.details.resourceName == name)
    && ((forall name :: !Overrides(o.annotations, name)) ==> o.details.resourceName == d.details.resourceName)
  }

  /** The IOMMU group is the one the host lists, or else the one before. */
  ghost predicate ShowsGroup(o: Object, d: HostDevice, groups: map<string, string>, before: string)
  {
    && (d.address in groups ==> o.iommuGroup == groups[d.address])
    && (d.address !in groups ==> o.iommuGroup == before)
  }

  lemma VisitShows(p: Progress, h: Host, d: HostDevice)
    requires d.address !in h.skip
    ensures var q, name := Visit(p, h, d), h.NameOf(d);
      && name in q.store && ShowsDevice(q.store[name], d, h.node)
      && (name in p.store ==>
        && q.store[name].labels == p.store[name].labels && q.store[name].annotations == p.store[name].annotations
        && ShowsGroup(q.store[name], d, h.groups, p.store[name].iommuGroup))
      && (name !in p.store ==>
        q.store[name].annotations == map[DRIVER_ANNOTATION := d.driver] && ShowsGroup(q.store[name], d, h.groups, ""))
  {
    assert |OVERRIDE_ANNOTATION| != |DRIVER_ANNOTATION|;
    var annotations := Visit(p, h, d).store[h.NameOf(d)].annotations;
    if OVERRIDE_ANNOTATION in annotations && annotations[OVERRIDE_ANNOTATION] != "" {
      assert Overrides(annotations, annotations[OVERRIDE_ANNOTATION]);
    }
  }

  lemma OtherVisit(p: Progress, h: Host, d: HostDevice, n: string)
    requires d.address !in h.skip ==> n != h.NameOf(d)
    ensures n in Visit(p, h, d).store <==> n in p.store
    ensures n in p.store ==> Visit(p, h, d).store[n] == p.store[n]
  {
  }

  /** No other device of the list has the name of the i-th. */
  ghost predicate OnlyOne(h: Host, devices: seq<HostDevice>, i: nat)
    requires i < |devices|
  {
    forall j :: 0 <= j < |devices| && j != i && devices[j].address !in h.skip ==>
      h.NameOf(devices[j]) != h.NameOf(devices[i])
  }

  lemma {:induction false} UntouchedBefore(store: Store, h: Host, devices: seq<HostDevice>, n: string)
    requires forall j :: 0 <= j < |devices| && devices[j].address !in h.skip ==> h.NameOf(devices[j]) != n
    ensures n in VisitAll(store, h, devices).store <==> n in store
    ensures n in store ==> VisitAll(store, h, devices).store[n] == store[n]
  {
    if devices != [] {
      var init := devices[..|devices| - 1];
      assert forall j :: 0 <= j < |init| ==> init[j] == devices[j];
      UntouchedBefore(store, h, init, n);
      OtherVisit(VisitAll(store, h, init), h, devices[|devices| - 1], n);
    }
  }

  /** What the object of the i-th device is after the visits. */
  lemma {:induction false} VisitedShows(store: Store, h: Host, devices: seq<HostDevice>, i: nat)
    requires i < |devices| && devices[i].address !in h.skip && OnlyOne(h, devices, i)
    ensures var p, name := VisitAll(store, h, devices), h.NameOf(devices[i]);
      name in p.store && Shows(store, h, devices[i], p.store[name])
  {
    var init, name := devices[..|devices| - 1], h.NameOf(devices[i]);
    if i == |devices| - 1 {
      assert forall j :: 0 <= j < |init| ==> init[j] == devices[j];
      UntouchedBefore(store, h, init, name);
      VisitShows(VisitAll(store, h, init), h, devices[i]);
    } else {
      assert forall j :: 0 <= j < |init| ==> init[j] == devices[j];
      VisitedShows(store, h, init, i);
      OtherVisit(VisitAll(store, h, init), h, devices[|devices| - 1], name);
    }
  }

  /** All fields of an object but its labels if it is new. */
  ghost predicate Shows(store: Store, h: Host, d: HostDevice, o: Object)
  {
    var name := h.NameOf(d);
    && ShowsDevice(o, d, h.node)
    && (name in store ==>
      && o.labels == store[name].labels && o.annotations == store[name].annotations
      && ShowsGroup(o, d, h.groups, store[name].iommuGroup))
    && (name !in store ==>
      o.annotations == map[DRIVER_ANNOTATION := d.driver] && ShowsGroup(o, d, h.groups, ""))
  }

  ghost predicate DistinctAddresses(devices: seq<HostDevice>)
  {
    forall i, j :: 0 <= i < j < |devices| ==> devices[i].address != devices[j].address
  }

  /**
   After a pass the object of every present, unskipped device shows the device: driver, IDs and
   description of the host, the overriding or else the generated resource name, the host's or else
   the old IOMMU group. An old object keeps its labels and annotations; a new one has the driver as
   its only annotation.
   */
  lemma PassShowsDevices(store: Store, h: Host, i: nat)
    requires GoodNaming(h.naming) && ValidStore(h.naming, store) && ValidHost(h.devices)
    requires DistinctAddresses(h.devices) && i < |h.devices| && h.devices[i].address !in h.skip
    ensures var name := h.NameOf(h.devices[i]);
      name in Pass(store, h) && Shows(store, h, h.devices[i], Pass(store, h)[name])
  {
    var name := h.NameOf(h.devices[i]);
    forall j | 0 <= j < |h.devices| && j != i ensures h.NameOf(h.devices[j]) != name {
      assert GoodAddress(h.devices[j].address) && GoodAddress(h.devices[i].address);
      assert h.devices[j].address != h.devices[i].address;
      assert h.NameOf(h.devices[j]) == h.naming(h.devices[j].address, h.node);
    }
    VisitedShows(store, h, h.devices, i);
    assert name in Target(h, h.devices);
    TargetSurvives(store, h, name);
  }

  /** If its first status update fails, a new object shows the device as well, with no group yet. */
  lemma HalfVisitedShows(store: Store, labels: map<string, string>, h: Host, d: HostDevice)
    requires h.NameOf(d) !in store
    ensures var after, name := HalfVisited(store, labels, h, d), h.NameOf(d);
      && name in after && ShowsDevice(after[name], d, h.node)
      && after[name].annotations == map[DRIVER_ANNOTATION := d.driver] && after[name].iommuGroup == ""
      && (forall k :: k in labels && k != PARENT_LABEL ==>
        k in after[name].labels && after[name].labels[k] == labels[k])
      && (forall n :: n in store ==> n in after && after[n] == store[n])
  {
    assert |OVERRIDE_ANNOTATION| != |DRIVER_ANNOTATION|;
  }
}
