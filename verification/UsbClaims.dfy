/**
 What a USB reconcile does to the parts of an object that it does not compare, and to the claims.
 */
module UsbClaims {
  import opened UsbInventory
  import opened UsbInventoryTheorems

  // ----- the whole status -----

  /** Everything the host says about the device is in the object's status. */
  ghost predicate Describes(f: Format, node: string, o: Object, l: Local)
  {
    && o.status.vendorId == f.hex(l.vendor) && o.status.productId == f.hex(l.product)
    && o.status.resourceName == f.resource(f.naming(node, l.vendor, l.product, l.devicePath))
    && o.status.nodeName == node && o.status.devicePath == l.devicePath
    && o.status.description == f.describe(l)
    && o.status.pciAddress == l.pciAddress && o.status.classType == l.classType
  }

  /**
   After a reconcile an object describes its device if and only if it is new, differed in a compared
   field, or did so before: a PCI address or resource name alone is never brought up to date.
   */
  lemma DescribesExactly(f: Format, c: Cluster, node: string, local: seq<Local>, listed: seq<string>, u: UsageList,
                         n: string, l: Local)
    requires GoodFormat(f) && ValidStore(f, c.store) && ValidLocal(local) && Lists(listed, c.store, node)
    requires IsUsage(u, f, node, local, StoredByPath(c.store, listed))
    requires n in After(c.store, u) && After(c.store, u)[n].nodeLabel == node
    requires l in local && After(c.store, u)[n].status.devicePath == l.devicePath
    ensures Describes(f, node, After(c.store, u)[n], l) <==>
      n !in c.store || !SameFields(f, c.store[n], l) || Describes(f, node, c.store[n], l)
  {
    var stored := StoredByPath(c.store, listed);
    ListedByPath(f, c.store, listed, node);
    var origin := FindOrigin(f, c.store, node, local, stored, u, n);
    match origin
    case New(l') =>
      assert l' == l;
    case Changed(l') =>
      assert StoredAt(stored[l'.devicePath], l'.devicePath, c.store, node);
      assert l' == l;
    case Kept =>
      var l' := NodeObject(f, c.store, node, local, stored, u, n);
      assert l' == l;
  }

  /** A new or updated object starts over: neither enabled nor orphaned. */
  lemma WrittenStartsOver(f: Format, c: Cluster, node: string, local: seq<Local>, listed: seq<string>, u: UsageList,
                          n: string)
    requires GoodFormat(f) && ValidStore(f, c.store) && ValidLocal(local) && Lists(listed, c.store, node)
    requires IsUsage(u, f, node, local, StoredByPath(c.store, listed))
    requires n in After(c.store, u) && (n !in c.store || After(c.store, u)[n] != c.store[n])
    ensures !After(c.store, u)[n].status.enabled && !After(c.store, u)[n].status.orphaned
  {
    var stored := StoredByPath(c.store, listed);
    ListedByPath(f, c.store, listed, node);
    var origin := FindOrigin(f, c.store, node, local, stored, u, n);
  }

  // ----- when lists can be applied -----

  /** Creates succeed if and only if no name is taken and none is created twice. */
  lemma {:induction false} CreateExactly(store: Store, os: seq<Object>)
    ensures CreateAll(store, os).Some? <==> DistinctNames(os) && NamesOf(os) !! store.Keys
    ensures CreateAll(store, os).Some? ==> CreateAll(store, os).value.Keys == store.Keys + NamesOf(os)
  {
    if os != [] {
      CreateExactly(store, os[..|os| - 1]);
      NamesLast(os);
    }
  }

  lemma NamesLast(os: seq<Object>)
    requires os != []
    ensures var init, o := os[..|os| - 1], os[|os| - 1];
      && NamesOf(os) == NamesOf(init) + {o.name}
      && (DistinctNames(os) <==> DistinctNames(init) && o.name !in NamesOf(init))
  {
    var init, o := os[..|os| - 1], os[|os| - 1];
    NamesOfStep(os, |os| - 1);
    assert os[..|os|] == os;
    assert forall i :: 0 <= i < |init| ==> init[i] == os[i] && (DistinctNames(os) ==> os[i].name != o.name);
  }

  /** Updates succeed if and only if every object exists. */
  lemma {:induction false} UpdateExactly(store: Store, os: seq<Object>)
    ensures UpdateAll(store, os).Some? <==> NamesOf(os) <= store.Keys
    ensures UpdateAll(store, os).Some? ==> UpdateAll(store, os).value.Keys == store.Keys
  {
    if os != [] {
      UpdateExactly(store, os[..|os| - 1]);
      NamesLast(os);
    }
  }

  /** Four lists are applied if and only if the created names are new and distinct and every updated object exists. */
  lemma HandledExactly(c: Cluster, u: UsageList)
    ensures Handled(c, u).Some? <==>
      && DistinctNames(u.create) && NamesOf(u.create) !! c.store.Keys
      && NamesOf(u.update) <= c.store.Keys + NamesOf(u.create)
  {
    CreateExactly(c.store, u.create);
    if CreateAll(c.store, u.create).Some? {
      UpdateExactly(CreateAll(c.store, u.create).value, u.update);
    }
  }

  /** The claim of an orphan goes; an orphan without one is marked instead, if its object exists. */
  lemma {:induction false} OrphanedExactly(c: Cluster, os: seq<Object>, i: nat)
    requires DistinctNames(os) && i < |os|
    ensures var r, o := OrphanAll(c, os), os[i];
      && o.name !in r.claims
      && (o.name in c.claims ==>
        (o.name in r.store <==> o.name in c.store) && (o.name in c.store ==> r.store[o.name] == c.store[o.name]))
      && (o.name !in c.claims && o.name in c.store ==>
        o.name in r.store && r.store[o.name] == o.(status := o.status.(orphaned := true)))
  {
    var init, last := os[..|os| - 1], os[|os| - 1];
    OrphanClaims(c, init);
    OrphanClaims(c, os);
    NamesLast(os);
    OrphansOnlyTouchThemselves(c, init);
    if i < |init| {
      OrphanedExactly(c, init, i);
      assert os[i].name != last.name;
    }
    assert os[i].name in NamesOf(os);
  }

  // ----- claims -----

  /** The enabled devices are exactly the claimed ones. */
  ghost predicate Claimed(c: Cluster)
  {
    && c.claims <= c.store.Keys
    && (forall n :: n in c.store ==> (c.store[n].status.enabled <==> n in c.claims))
  }

  /** No device that is in use is updated. */
  ghost predicate SparesEnabled(c: Cluster, u: UsageList)
  {
    forall n :: n in NamesOf(u.update) && n in c.store ==> !c.store[n].status.enabled
  }

  lemma {:induction false} OrphanClaims(c: Cluster, os: seq<Object>)
    ensures OrphanAll(c, os).claims == c.claims - NamesOf(os)
  {
    if os != [] {
      OrphanClaims(c, os[..|os| - 1]);
      NamesOfStep(os, |os| - 1);
      assert os[..|os|] == os;
    }
  }

  /** The orphans are the deleted objects that were enabled. */
  lemma OrphanedNames(f: Format, store: Store, node: string, local: seq<Local>, stored: map<string, Object>,
                      u: UsageList, n: string)
    requires Reconciling(f, store, node, local, stored, u)
    ensures n in NamesOf(u.orphaned) <==> n in NamesOf(u.delete) && n in store && store[n].status.enabled
  {
    DeletedAreStored(f, store, node, local, stored, u);
    EnabledMembers(u.delete);
    if n in NamesOf(u.orphaned) {
      var i :| 0 <= i < |u.orphaned| && u.orphaned[i].name == n;
      assert u.orphaned[i] in u.orphaned;
      MembersNamed(u.delete);
    }
    if n in NamesOf(u.delete) && n in store && store[n].status.enabled {
      var i :| 0 <= i < |u.delete| && u.delete[i].name == n;
      assert u.delete[i] in u.delete && u.delete[i] in u.orphaned;
      MembersNamed(u.orphaned);
    }
  }

  lemma DeletedAreStored(f: Format, store: Store, node: string, local: seq<Local>, stored: map<string, Object>,
                         u: UsageList)
    requires Reconciling(f, store, node, local, stored, u)
    ensures forall o :: o in u.delete ==> o.name in store && store[o.name] == o
  {
    var rest := Sorted(f, node, local, stored).rest;
    forall q | q in rest ensures StoredAt(rest[q], q, store, node) {
      ListsAreRight(f, node, local, stored);
      assert StoredAt(stored[q], q, store, node);
    }
    ValuesAreStored(u.delete, rest, store, node);
  }

  lemma ValuesAreStored(os: seq<Object>, m: map<string, Object>, store: Store, node: string)
    requires Values(os, m) && forall q :: q in m ==> StoredAt(m[q], q, store, node)
    ensures forall o :: o in os ==> o.name in store && store[o.name] == o
  {
    var keys :| ValuesBy(os, m, keys);
    forall o | o in os ensures o.name in store && store[o.name] == o {
      var i :| 0 <= i < |os| && os[i] == o;
      assert keys[i] in m && os[i] == m[keys[i]];
    }
  }

  /** Whether an object of the new store is enabled: as before, unless it is new or was updated. */
  lemma EnabledAfter(f: Format, store: Store, node: string, local: seq<Local>, stored: map<string, Object>,
                     u: UsageList, n: string)
    requires Reconciling(f, store, node, local, stored, u) && n in After(store, u)
    ensures After(store, u)[n].status.enabled <==> n in store && n !in NamesOf(u.update) && store[n].status.enabled
  {
    NoCreateCollides(f, store, node, local, stored, u);
    UpdatesAreStored(f, store, node, local, stored, u);
    var origin := FindOrigin(f, store, node, local, stored, u, n);
    if origin.Changed? {
      ListsAreRight(f, node, local, stored);
      MembersNamed(u.update);
      assert After(store, u)[n] in u.update;
    }
  }

  /** "Enabled if and only if claimed" survives a reconcile if and only if no device in use is updated. */
  lemma ClaimedExactly(f: Format, c: Cluster, node: string, local: seq<Local>, listed: seq<string>, u: UsageList)
    requires GoodFormat(f) && ValidStore(f, c.store) && ValidLocal(local) && Lists(listed, c.store, node)
    requires IsUsage(u, f, node, local, StoredByPath(c.store, listed)) && Claimed(c)
    ensures Handled(c, u).Some? && (Claimed(Handled(c, u).value) <==> SparesEnabled(c, u))
  {
    var stored := StoredByPath(c.store, listed);
    ListedByPath(f, c.store, listed, node);
    ReconcileAgrees(f, c, node, local, listed, u);
    NoCreateCollides(f, c.store, node, local, stored, u);
    UpdatesAreStored(f, c.store, node, local, stored, u);
    OrphansAreDeleted(u);
    HandledStore(c, u);
    HandledClaims(c, u);
    AfterKeys(f, c.store, node, local, stored, u);
    var c' := Handled(c, u).value;
    forall n
      ensures n in NamesOf(u.orphaned) <==> n in NamesOf(u.delete) && n in c.store && c.store[n].status.enabled
      ensures n in c'.store ==>
        (c'.store[n].status.enabled <==> n in c.store && n !in NamesOf(u.update) && c.store[n].status.enabled)
    {
      OrphanedNames(f, c.store, node, local, stored, u, n);
      if n in c'.store {
        EnabledAfter(f, c.store, node, local, stored, u, n);
      }
    }
    UpdatedSurvives(f, c.store, node, local, stored, u);
    ClaimsCompared(c, u, c');
  }

  lemma HandledClaims(c: Cluster, u: UsageList)
    requires Handled(c, u).Some?
    ensures Handled(c, u).value.claims == c.claims - NamesOf(u.orphaned)
  {
    var updated := UpdateAll(CreateAll(c.store, u.create).value, u.update).value;
    OrphanClaims(Cluster(updated, c.claims), u.orphaned);
  }

  lemma UpdatedSurvives(f: Format, store: Store, node: string, local: seq<Local>, stored: map<string, Object>,
                        u: UsageList)
    requires Reconciling(f, store, node, local, stored, u)
    ensures NamesOf(u.update) <= After(store, u).Keys
  {
    AfterKeys(f, store, node, local, stored, u);
    UpdatesAreStored(f, store, node, local, stored, u);
    forall i | 0 <= i < |u.update| ensures u.update[i].name !in NamesOf(u.delete) {
      UpdatedIsKept(f, store, node, local, stored, u, i);
    }
  }

  lemma UpdatedIsKept(f: Format, store: Store, node: string, local: seq<Local>, stored: map<string, Object>,
                      u: UsageList, i: nat)
    requires Reconciling(f, store, node, local, stored, u) && i < |u.update|
    ensures u.update[i].name !in NamesOf(u.delete)
  {
    var o := u.update[i];
    assert o in u.update;
    var l := ChangedDevice(f, node, local, stored, u, o);
    var j :| 0 <= j < |local| && local[j] == l;
    assert StoredAt(stored[l.devicePath], l.devicePath, store, node);
    DeletedNames(f, store, node, local, stored, u, o.name);
  }

  lemma ChangedDevice(f: Format, node: string, local: seq<Local>, stored: map<string, Object>, u: UsageList, o: Object)
    returns (l: Local)
    requires ValidLocal(local) && IsUsage(u, f, node, local, stored) && o in u.update
    ensures l in local && IsChanged(o, f, node, l, stored)
  {
    ListsAreRight(f, node, local, stored);
    l :| l in local && IsChanged(o, f, node, l, stored);
  }

  lemma ClaimsCompared(c: Cluster, u: UsageList, c': Cluster)
    requires Claimed(c) && c'.claims == c.claims - NamesOf(u.orphaned)
    requires c'.store.Keys == c.store.Keys + NamesOf(u.create) - NamesOf(u.delete)
    requires NamesOf(u.update) <= c'.store.Keys && NamesOf(u.update) <= c.store.Keys
    requires forall n :: n in NamesOf(u.orphaned) <==>
      n in NamesOf(u.delete) && n in c.store && c.store[n].status.enabled
    requires forall n :: n in c'.store ==>
      (c'.store[n].status.enabled <==> n in c.store && n !in NamesOf(u.update) && c.store[n].status.enabled)
    ensures Claimed(c') <==> SparesEnabled(c, u)
  {
    forall n | n in c'.store ensures n in c'.claims <==> n in c.store && c.store[n].status.enabled {
    }
    if !SparesEnabled(c, u) {
      var n :| n in NamesOf(u.update) && n in c.store && c.store[n].status.enabled;
      assert n in c'.store && n in c'.claims && !c'.store[n].status.enabled;
    }
  }

  // ----- runs -----

  /** No reconcile of the run updates a device in use. */
  ghost predicate Considerate(c: Cluster, events: seq<Event>)
  {
    forall i :: 0 <= i < |events| && events[i].Reconcile? ==> SparesEnabled(Run(c, events[..i]), events[i].usage)
  }

  lemma StepClaimed(f: Format, c: Cluster, e: Event)
    requires GoodFormat(f) && ValidStore(f, c.store) && Possible(f, c, e) && Claimed(c)
    ensures Claimed(Step(c, e)) <==> e.Switch? || SparesEnabled(c, e.usage)
  {
    match e
    case Reconcile(node, local, listed, u) => ClaimedExactly(f, c, node, local, listed, u);
    case Switch(n, enabled) =>
  }

  /** In every run that is considerate, devices are enabled if and only if they are claimed. */
  lemma {:induction false} RunClaimed(f: Format, c: Cluster, events: seq<Event>, k: nat)
    requires GoodFormat(f) && ValidStore(f, c.store) && PossibleRun(f, c, events) && Claimed(c)
    requires Considerate(c, events) && k <= |events|
    ensures Claimed(Run(c, events[..k]))
  {
    if k > 0 {
      RunClaimed(f, c, events, k - 1);
      PrefixValid(f, c, events, k - 1);
      StepClaimed(f, Run(c, events[..k - 1]), events[k - 1]);
      RunNext(c, events, k - 1);
    }
  }
}
