/**
 Agreement between the host and the stored USB devices, over every run of every node.
 */
module UsbInventoryTheorems {
  import opened Text
  import opened UsbInventory
  import Names

  // ----- valid hosts and stores -----

  ghost predicate ValidLocal(local: seq<Local>)
  {
    && (forall i :: 0 <= i < |local| ==> ValidDevice(local[i]))
    && (forall i, j :: 0 <= i < j < |local| ==> local[i].devicePath != local[j].devicePath)
  }

  ghost predicate ValidDevice(l: Local)
  {
    l.vendor < 0x10000 && l.product < 0x10000 && Names.CanonicalPath(l.devicePath)
  }

  /** The name encodes the node and the path, whatever vendor and product it was made with. */
  ghost predicate Encodes(f: Format, n: string, node: string, path: string)
  {
    Names.CanonicalPath(path) && exists v: nat, p: nat :: v < 0x10000 && p < 0x10000 && n == f.naming(node, v, p, path)
  }

  /** Names determine node and path. */
  ghost predicate GoodFormat(f: Format)
  {
    forall n, node1, path1, node2, path2 ::
      Encodes(f, n, node1, path1) && Encodes(f, n, node2, path2) ==> node1 == node2 && path1 == path2
  }

  /** The object names that the controller builds are good. */
  lemma SourceFormatIsGood(f: Format)
    requires forall node, v, p, path ::
      f.naming(node, v, p, path) == Names.UsbDeviceName(node, Names.UsbDevice(v, p, path))
    ensures GoodFormat(f)
  {
    forall n, node1, path1, node2, path2 | Encodes(f, n, node1, path1) && Encodes(f, n, node2, path2)
      ensures node1 == node2 && path1 == path2
    {
      var v1: nat, p1: nat :| v1 < 0x10000 && p1 < 0x10000 && n == f.naming(node1, v1, p1, path1);
      var v2: nat, p2: nat :| v2 < 0x10000 && p2 < 0x10000 && n == f.naming(node2, v2, p2, path2);
      Names.UsbNameInjective(node1, Names.UsbDevice(v1, p1, path1), node2, Names.UsbDevice(v2, p2, path2));
    }
  }

  ghost predicate ValidObject(f: Format, n: string, o: Object)
  {
    o.name == n && o.status.nodeName == o.nodeLabel && Encodes(f, n, o.nodeLabel, o.status.devicePath)
  }

  ghost predicate ValidStore(f: Format, store: Store)
  {
    && (forall n :: n in store ==> ValidObject(f, n, store[n]))
    && (forall m, n :: m in store && n in store && SamePlace(store[m], store[n]) ==> m == n)
  }

  predicate SamePlace(a: Object, b: Object)
  {
    a.nodeLabel == b.nodeLabel && a.status.devicePath == b.status.devicePath
  }

  ghost predicate Lists(listed: seq<string>, store: Store, node: string)
  {
    forall n :: n in listed <==> n in store && store[n].nodeLabel == node
  }

  /** `o` is the node's stored object at path `q`. */
  predicate StoredAt(o: Object, q: string, store: Store, node: string)
  {
    o.name in store && store[o.name] == o && o.nodeLabel == node && o.status.devicePath == q
  }

  /** `stored` is the node's part of the store, by path. */
  ghost predicate ByPath(stored: map<string, Object>, store: Store, node: string)
  {
    && (forall q :: q in stored ==> StoredAt(stored[q], q, store, node))
    && (forall n :: n in store && store[n].nodeLabel == node ==> store[n].status.devicePath in stored)
  }

  lemma {:induction false} StoredByPathPrefix(f: Format, store: Store, listed: seq<string>, node: string)
    requires ValidStore(f, store)
    requires forall n :: n in listed ==> n in store && store[n].nodeLabel == node
    ensures var stored := StoredByPath(store, listed);
      && (forall q :: q in stored ==> StoredAt(stored[q], q, store, node))
      && (forall n :: n in listed ==> store[n].status.devicePath in stored)
  {
    if listed != [] {
      var init, n := listed[..|listed| - 1], listed[|listed| - 1];
      assert listed == init + [n];
      StoredByPathPrefix(f, store, init, node);
      assert ValidObject(f, n, store[n]);
    }
  }

  lemma ListedByPath(f: Format, store: Store, listed: seq<string>, node: string)
    requires ValidStore(f, store) && Lists(listed, store, node)
    ensures ByPath(StoredByPath(store, listed), store, node)
  {
    StoredByPathPrefix(f, store, listed, node);
  }

  // ----- the four lists -----

  function Paths(local: seq<Local>): set<string>
  {
    set i | 0 <= i < |local| :: local[i].devicePath
  }

  /** `o` is the new object of a device whose path is not stored. */
  ghost predicate IsNew(o: Object, f: Format, node: string, l: Local, stored: map<string, Object>)
  {
    l.devicePath !in stored && o == Object(f.NameOf(node, l), node, f.StatusOf(node, l))
  }

  /** `o` is the stored object of a device whose status has changed, with the new status. */
  ghost predicate IsChanged(o: Object, f: Format, node: string, l: Local, stored: map<string, Object>)
  {
    && l.devicePath in stored && f.Changed(stored[l.devicePath], l)
    && o == stored[l.devicePath].(status := f.StatusOf(node, l))
  }

  /** The four fields that are compared say the same as the device. */
  predicate SameFields(f: Format, o: Object, l: Local)
  {
    && o.status.vendorId == f.hex(l.vendor) && o.status.productId == f.hex(l.product)
    && o.status.description == f.describe(l) && o.status.classType == l.classType
  }

  lemma ChangedExactly(f: Format, o: Object, l: Local)
    ensures f.Changed(o, l) <==> !SameFields(f, o, l)
  {
  }

  predicate DistinctPaths(os: seq<Object>)
  {
    forall i, j :: 0 <= i < j < |os| ==> os[i].status.devicePath != os[j].status.devicePath
  }

  ghost predicate SortedWell(s: Sorting, f: Format, node: string, local: seq<Local>, stored: map<string, Object>)
  {
    && s.rest == stored - Paths(local)
    && DistinctPaths(s.create) && DistinctPaths(s.update)
    && (forall o :: o in s.create ==> o.status.devicePath in Paths(local))
    && (forall o :: o in s.update ==> o.status.devicePath in Paths(local))
    && (forall o :: o in s.create ==> exists l :: l in local && IsNew(o, f, node, l, stored))
    && (forall o :: o in s.update ==> exists l :: l in local && IsChanged(o, f, node, l, stored))
    && (forall l :: l in local && l.devicePath !in stored ==>
      Object(f.NameOf(node, l), node, f.StatusOf(node, l)) in s.create)
    && (forall l :: l in local && l.devicePath in stored && f.Changed(stored[l.devicePath], l) ==>
        stored[l.devicePath].(status := f.StatusOf(node, l)) in s.update)
  }

  lemma PathsAppend(local: seq<Local>, l: Local)
    ensures Paths(local + [l]) == Paths(local) + {l.devicePath}
    ensures forall x :: x in local + [l] <==> x in local || x == l
  {
    var next := local + [l];
    assert next[|local|] == l;
    assert forall i :: 0 <= i < |local| ==> next[i] == local[i];
  }

  lemma SortNew(s: Sorting, f: Format, node: string, local: seq<Local>, l: Local, stored: map<string, Object>)
    requires SortedWell(s, f, node, local, stored) && l.devicePath !in Paths(local) && l.devicePath !in stored
    ensures SortedWell(SortOne(s, f, node, l), f, node, local + [l], stored)
  {
    PathsAppend(local, l);
    var made := Object(f.NameOf(node, l), node, f.StatusOf(node, l));
    assert IsNew(made, f, node, l, stored);
    assert forall o :: o in s.create + [made] <==> o in s.create || o == made;
  }

  lemma SortStored(s: Sorting, f: Format, node: string, local: seq<Local>, l: Local, stored: map<string, Object>)
    requires SortedWell(s, f, node, local, stored) && l.devicePath !in Paths(local) && l.devicePath in stored
    ensures SortedWell(SortOne(s, f, node, l), f, node, local + [l], stored)
  {
    PathsAppend(local, l);
    if f.Changed(stored[l.devicePath], l) {
      var o' := stored[l.devicePath].(status := f.StatusOf(node, l));
      assert IsChanged(o', f, node, l, stored);
      assert forall o :: o in s.update + [o'] <==> o in s.update || o == o';
    }
  }

  /** With unique paths the lists are what their names say. */
  lemma {:induction false} ListsAreRight(f: Format, node: string, local: seq<Local>, stored: map<string, Object>)
    requires forall i, j :: 0 <= i < j < |local| ==> local[i].devicePath != local[j].devicePath
    ensures SortedWell(Sorted(f, node, local, stored), f, node, local, stored)
  {
    if local == [] {
      assert Paths(local) == {};
    } else {
      var init, l := local[..|local| - 1], local[|local| - 1];
      ListsAreRight(f, node, init, stored);
      assert local == init + [l];
      if l.devicePath in stored {
        SortStored(Sorted(f, node, init, stored), f, node, init, l, stored);
      } else {
        SortNew(Sorted(f, node, init, stored), f, node, init, l, stored);
      }
    }
  }

  lemma CreatePaths(s: Sorting, f: Format, node: string, local: seq<Local>, stored: map<string, Object>, q: string)
    requires SortedWell(s, f, node, local, stored)
    ensures ListedPath(s.create, q) <==> q in Paths(local) && q !in stored
  {
    if q in Paths(local) && q !in stored {
      var i :| 0 <= i < |local| && local[i].devicePath == q;
      assert local[i] in local;
      assert Object(f.NameOf(node, local[i]), node, f.StatusOf(node, local[i])) in s.create;
    }
  }

  lemma ValuePaths(os: seq<Object>, m: map<string, Object>, q: string)
    requires Values(os, m) && forall k :: k in m ==> m[k].status.devicePath == k
    ensures ListedPath(os, q) <==> q in m
    ensures q in m ==> m[q] in os
    ensures forall o :: o in os ==> o.status.devicePath in m && o == m[o.status.devicePath]
  {
    var keys :| ValuesBy(os, m, keys);
    if q in m {
      var i :| 0 <= i < |keys| && keys[i] == q;
      assert os[i] in os;
    }
  }

  /**
   The lists are disjoint and cover the difference: created paths are exactly those on the host
   and not stored, updated ones are stored and on the host, deleted ones are exactly those stored
   and not on the host, and the orphans are the enabled ones among the deleted.
   */
  lemma ListsCoverDifference(f: Format, node: string, local: seq<Local>, stored: map<string, Object>, u: UsageList,
                             q: string)
    requires forall i, j :: 0 <= i < j < |local| ==> local[i].devicePath != local[j].devicePath
    requires forall k :: k in stored ==> stored[k].status.devicePath == k
    requires IsUsage(u, f, node, local, stored)
    ensures ListedPath(u.create, q) <==> q in Paths(local) && q !in stored
    ensures ListedPath(u.update, q) ==> q in Paths(local) && q in stored
    ensures ListedPath(u.delete, q) <==> q in stored && q !in Paths(local)
    ensures forall o :: o in u.orphaned <==> o in u.delete && o.status.enabled
  {
    ListsAreRight(f, node, local, stored);
    var s := Sorted(f, node, local, stored);
    CreatePaths(s, f, node, local, stored, q);
    ValuePaths(u.delete, s.rest, q);
    EnabledMembers(u.delete);
  }

  predicate ListedPath(os: seq<Object>, q: string)
  {
    exists o :: o in os && o.status.devicePath == q
  }

  lemma {:induction false} EnabledMembers(os: seq<Object>)
    ensures forall o :: o in EnabledOf(os) <==> o in os && o.status.enabled
  {
    if os != [] {
      EnabledMembers(os[..|os| - 1]);
      assert os == os[..|os| - 1] + [os[|os| - 1]];
    }
  }

  // ----- applying the lists -----

  predicate DistinctNames(os: seq<Object>)
  {
    forall i, j :: 0 <= i < j < |os| ==> os[i].name != os[j].name
  }

  /** The store with the given objects written over it. */
  function Written(store: Store, os: seq<Object>): Store
  {
    if os == [] then store else Written(store, os[..|os| - 1])[os[|os| - 1].name := os[|os| - 1]]
  }

  lemma {:induction false} WrittenEffect(store: Store, os: seq<Object>)
    requires DistinctNames(os)
    ensures Written(store, os).Keys == store.Keys + NamesOf(os)
    ensures forall i :: 0 <= i < |os| ==> os[i].name in Written(store, os) && Written(store, os)[os[i].name] == os[i]
    ensures forall n :: n in store && n !in NamesOf(os) ==> Written(store, os)[n] == store[n]
  {
    if os != [] {
      var init, o := os[..|os| - 1], os[|os| - 1];
      WrittenEffect(store, init);
      assert NamesOf(os) == NamesOf(init) + {o.name} by {
        NamesOfStep(os, |os| - 1);
        assert os[..|os|] == os;
      }
      var s := Written(store, init);
      assert Written(store, os) == s[o.name := o];
      forall i | 0 <= i < |os| ensures os[i].name in s[o.name := o] && s[o.name := o][os[i].name] == os[i] {
        assert i < |init| ==> os[i] == init[i] && os[i].name != o.name;
      }
    }
  }

  lemma {:induction false} CreateSucceeds(store: Store, os: seq<Object>)
    requires DistinctNames(os) && NamesOf(os) !! store.Keys
    ensures CreateAll(store, os) == Some(Written(store, os))
  {
    if os != [] {
      var init := os[..|os| - 1];
      NamesOfStep(os, |os| - 1);
      assert os[..|os|] == os;
      CreateSucceeds(store, init);
      WrittenEffect(store, init);
      assert forall i :: 0 <= i < |init| ==> init[i] == os[i] && os[i].name != os[|os| - 1].name;
    }
  }

  lemma {:induction false} UpdateSucceeds(store: Store, os: seq<Object>)
    requires DistinctNames(os) && NamesOf(os) <= store.Keys
    ensures UpdateAll(store, os) == Some(Written(store, os))
  {
    if os != [] {
      var init := os[..|os| - 1];
      NamesOfStep(os, |os| - 1);
      assert os[..|os|] == os;
      UpdateSucceeds(store, init);
      WrittenEffect(store, init);
    }
  }

  lemma {:induction false} OrphansOnlyTouchThemselves(c: Cluster, os: seq<Object>)
    ensures OrphanAll(c, os).store.Keys == c.store.Keys
    ensures forall n :: n in c.store && n !in NamesOf(os) ==> OrphanAll(c, os).store[n] == c.store[n]
  {
    if os != [] {
      OrphansOnlyTouchThemselves(c, os[..|os| - 1]);
      NamesOfStep(os, |os| - 1);
      assert os[..|os|] == os;
    }
  }

  /** What the four lists do to the store when nothing collides. */
  lemma HandledStore(c: Cluster, u: UsageList)
    requires DistinctNames(u.create) && NamesOf(u.create) !! c.store.Keys
    requires DistinctNames(u.update) && NamesOf(u.update) <= c.store.Keys
    requires NamesOf(u.orphaned) <= NamesOf(u.delete)
    ensures Handled(c, u).Some?
    ensures Handled(c, u).value.store == Written(Written(c.store, u.create), u.update) - NamesOf(u.delete)
  {
    CreateSucceeds(c.store, u.create);
    var created := Written(c.store, u.create);
    WrittenEffect(c.store, u.create);
    UpdateSucceeds(created, u.update);
    var updated := Written(created, u.update);
    OrphansOnlyTouchThemselves(Cluster(updated, c.claims), u.orphaned);
  }

  // ----- a reconcile -----

  /** The setting of one reconcile of `node`. */
  ghost predicate Reconciling(f: Format, store: Store, node: string, local: seq<Local>,
                              stored: map<string, Object>, u: UsageList)
  {
    && GoodFormat(f) && ValidStore(f, store) && ValidLocal(local)
    && ByPath(stored, store, node) && IsUsage(u, f, node, local, stored)
  }

  lemma NewObjectIsValid(f: Format, node: string, l: Local)
    requires ValidDevice(l)
    ensures ValidObject(f, f.NameOf(node, l), Object(f.NameOf(node, l), node, f.StatusOf(node, l)))
  {
    assert f.NameOf(node, l) == f.naming(node, l.vendor, l.product, l.devicePath);
  }

  /** No created name is taken, and no two created objects share a name. */
  lemma NoCreateCollides(f: Format, store: Store, node: string, local: seq<Local>, stored: map<string, Object>,
                         u: UsageList)
    requires Reconciling(f, store, node, local, stored, u)
    ensures NamesOf(u.create) !! store.Keys && DistinctNames(u.create)
  {
    ListsAreRight(f, node, local, stored);
    forall i | 0 <= i < |u.create|
      ensures u.create[i].name !in store
      ensures Encodes(f, u.create[i].name, node, u.create[i].status.devicePath)
    {
      var o := u.create[i];
      assert o in u.create;
      var l :| l in local && IsNew(o, f, node, l, stored);
      NewObjectIsValid(f, node, l);
      assert o.name in store ==> ValidObject(f, o.name, store[o.name]);
    }
  }

  /** Every updated object is stored, and no two share a name. */
  lemma UpdatesAreStored(f: Format, store: Store, node: string, local: seq<Local>, stored: map<string, Object>,
                         u: UsageList)
    requires Reconciling(f, store, node, local, stored, u)
    ensures NamesOf(u.update) <= store.Keys && DistinctNames(u.update)
  {
    ListsAreRight(f, node, local, stored);
    forall i | 0 <= i < |u.update|
      ensures u.update[i].name in store && store[u.update[i].name].status.devicePath == u.update[i].status.devicePath
    {
      var o := u.update[i];
      assert o in u.update;
      var l :| l in local && IsChanged(o, f, node, l, stored);
      assert StoredAt(stored[l.devicePath], l.devicePath, store, node);
    }
  }

  lemma OrphansAreDeleted(u: UsageList)
    requires u.orphaned == EnabledOf(u.delete)
    ensures NamesOf(u.orphaned) <= NamesOf(u.delete)
  {
    EnabledMembers(u.delete);
    forall m | m in NamesOf(u.orphaned) ensures m in NamesOf(u.delete) {
      var i :| 0 <= i < |u.orphaned| && u.orphaned[i].name == m;
      assert u.orphaned[i] in u.orphaned;
      var j :| 0 <= j < |u.delete| && u.delete[j] == u.orphaned[i];
    }
  }

  /** The node's stored object at the place of `n` is `n` itself. */
  lemma PlaceIsName(f: Format, store: Store, node: string, stored: map<string, Object>, n: string)
    requires ValidStore(f, store) && ByPath(stored, store, node) && n in store && store[n].nodeLabel == node
    ensures store[n].status.devicePath in stored && stored[store[n].status.devicePath] == store[n] && store[n].name == n
  {
    var q := store[n].status.devicePath;
    assert ValidObject(f, n, store[n]);
    assert StoredAt(stored[q], q, store, node);
    assert SamePlace(store[n], store[stored[q].name]);
  }

  /** The deleted names are those of stored objects whose path is gone from the host. */
  lemma DeletedNames(f: Format, store: Store, node: string, local: seq<Local>, stored: map<string, Object>,
                     u: UsageList, n: string)
    requires Reconciling(f, store, node, local, stored, u)
    ensures n in NamesOf(u.delete) <==>
      n in store && store[n].nodeLabel == node && store[n].status.devicePath !in Paths(local)
  {
    ListsAreRight(f, node, local, stored);
    var rest := Sorted(f, node, local, stored).rest;
    assert forall k :: k in rest ==> k in stored && rest[k] == stored[k] && StoredAt(stored[k], k, store, node);
    if n in NamesOf(u.delete) {
      var i :| 0 <= i < |u.delete| && u.delete[i].name == n;
      assert u.delete[i] in u.delete;
      ValuePaths(u.delete, rest, u.delete[i].status.devicePath);
    } else if n in store && store[n].nodeLabel == node {
      PlaceIsName(f, store, node, stored, n);
      ValuePaths(u.delete, rest, store[n].status.devicePath);
      assert forall i :: 0 <= i < |u.delete| ==> u.delete[i].name in NamesOf(u.delete);
    }
  }

  /** The store after a reconcile. */
  function After(store: Store, u: UsageList): Store
  {
    Written(Written(store, u.create), u.update) - NamesOf(u.delete)
  }

  /** Where an object of the new store comes from. */
  datatype Origin = New(l: Local) | Changed(l: Local) | Kept

  ghost predicate HasOrigin(origin: Origin, f: Format, store: Store, node: string, local: seq<Local>,
                            stored: map<string, Object>, u: UsageList, n: string, o: Object)
  {
    match origin
    case New(l) => l in local && IsNew(o, f, node, l, stored) && n == f.NameOf(node, l) && n !in store
    case Changed(l) => l in local && IsChanged(o, f, node, l, stored) && n == stored[l.devicePath].name
    case Kept => n in store && o == store[n] && n !in NamesOf(u.update)
  }

  lemma AfterKeys(f: Format, store: Store, node: string, local: seq<Local>, stored: map<string, Object>, u: UsageList)
    requires Reconciling(f, store, node, local, stored, u)
    ensures After(store, u).Keys == store.Keys + NamesOf(u.create) - NamesOf(u.delete)
  {
    NoCreateCollides(f, store, node, local, stored, u);
    UpdatesAreStored(f, store, node, local, stored, u);
    WrittenEffect(store, u.create);
    WrittenEffect(Written(store, u.create), u.update);
  }

  lemma FindOrigin(f: Format, store: Store, node: string, local: seq<Local>, stored: map<string, Object>,
                   u: UsageList, n: string)
    returns (origin: Origin)
    requires Reconciling(f, store, node, local, stored, u) && n in After(store, u)
    ensures HasOrigin(origin, f, store, node, local, stored, u, n, After(store, u)[n])
  {
    NoCreateCollides(f, store, node, local, stored, u);
    UpdatesAreStored(f, store, node, local, stored, u);
    ListsAreRight(f, node, local, stored);
    var s1 := Written(store, u.create);
    WrittenEffect(store, u.create);
    WrittenEffect(s1, u.update);
    if n in NamesOf(u.update) {
      var i :| 0 <= i < |u.update| && u.update[i].name == n;
      assert u.update[i] in u.update;
      var l :| l in local && IsChanged(u.update[i], f, node, l, stored);
      origin := Changed(l);
    } else if n in NamesOf(u.create) {
      var i :| 0 <= i < |u.create| && u.create[i].name == n;
      assert u.create[i] in u.create;
      var l :| l in local && IsNew(u.create[i], f, node, l, stored);
      origin := New(l);
    } else {
      origin := Kept;
    }
  }

  /** An object of the node is in step with the device at its path, and its name is settled by the path. */
  ghost predicate InStep(f: Format, node: string, local: seq<Local>, stored: map<string, Object>, n: string,
                         o: Object, l: Local)
  {
    && l in local && o.status.devicePath == l.devicePath && !f.Changed(o, l)
    && n == (if l.devicePath in stored then stored[l.devicePath].name else f.NameOf(node, l))
  }

  lemma KeptInStep(f: Format, store: Store, node: string, local: seq<Local>, stored: map<string, Object>,
                   u: UsageList, n: string)
    returns (l: Local)
    requires Reconciling(f, store, node, local, stored, u) && n in store && store[n].nodeLabel == node
    requires n !in NamesOf(u.update) && n !in NamesOf(u.delete)
    ensures InStep(f, node, local, stored, n, store[n], l)
  {
    DeletedNames(f, store, node, local, stored, u, n);
    PlaceIsName(f, store, node, stored, n);
    ListsAreRight(f, node, local, stored);
    var i :| 0 <= i < |local| && local[i].devicePath == store[n].status.devicePath;
    l := local[i];
    assert l in local;
    MembersNamed(u.update);
    assert stored[l.devicePath].(status := f.StatusOf(node, l)).name == n;
  }

  lemma MembersNamed(os: seq<Object>)
    ensures forall o :: o in os ==> o.name in NamesOf(os)
  {
    forall o | o in os ensures o.name in NamesOf(os) {
      var i :| 0 <= i < |os| && os[i] == o;
    }
  }

  /** Every object of the node after a reconcile is valid and in step with a device of the host. */
  lemma NodeObject(f: Format, store: Store, node: string, local: seq<Local>, stored: map<string, Object>,
                   u: UsageList, n: string)
    returns (l: Local)
    requires Reconciling(f, store, node, local, stored, u)
    requires n in After(store, u) && After(store, u)[n].nodeLabel == node
    ensures ValidObject(f, n, After(store, u)[n]) && InStep(f, node, local, stored, n, After(store, u)[n], l)
  {
    var origin := FindOrigin(f, store, node, local, stored, u, n);
    match origin
    case New(l') =>
      l := l';
      NewObjectIsValid(f, node, l);
    case Changed(l') =>
      l := l';
      assert StoredAt(stored[l.devicePath], l.devicePath, store, node);
      assert ValidObject(f, n, store[n]);
    case Kept =>
      l := KeptInStep(f, store, node, local, stored, u, n);
  }

  /** A changed or new object belongs to the node. */
  lemma WrittenIsOwn(f: Format, store: Store, node: string, local: seq<Local>, stored: map<string, Object>,
                     u: UsageList, n: string, o: Object, origin: Origin)
    requires ByPath(stored, store, node) && HasOrigin(origin, f, store, node, local, stored, u, n, o)
    ensures !origin.Kept? ==> o.nodeLabel == node
    ensures origin.Changed? ==> n in store && store[n].nodeLabel == node
  {
    if origin.Changed? {
      assert StoredAt(stored[origin.l.devicePath], origin.l.devicePath, store, node);
    }
  }

  /** Objects of other nodes stay exactly as they are. */
  lemma OtherNodesUntouched(f: Format, store: Store, node: string, local: seq<Local>, stored: map<string, Object>,
                            u: UsageList, n: string)
    requires Reconciling(f, store, node, local, stored, u)
    requires n in store && store[n].nodeLabel != node
    ensures n in After(store, u) && After(store, u)[n] == store[n]
  {
    DeletedNames(f, store, node, local, stored, u, n);
    AfterKeys(f, store, node, local, stored, u);
    var origin := FindOrigin(f, store, node, local, stored, u, n);
    WrittenIsOwn(f, store, node, local, stored, u, n, After(store, u)[n], origin);
  }

  /** No object of another node appears. */
  lemma OtherNodesOld(f: Format, store: Store, node: string, local: seq<Local>, stored: map<string, Object>,
                      u: UsageList, n: string)
    requires Reconciling(f, store, node, local, stored, u)
    requires n in After(store, u) && After(store, u)[n].nodeLabel != node
    ensures n in store && After(store, u)[n] == store[n]
  {
    var origin := FindOrigin(f, store, node, local, stored, u, n);
    WrittenIsOwn(f, store, node, local, stored, u, n, After(store, u)[n], origin);
  }

  /** A stored device of the host keeps its object. */
  lemma StoredHasObject(f: Format, store: Store, node: string, local: seq<Local>, stored: map<string, Object>,
                        u: UsageList, l: Local)
    requires Reconciling(f, store, node, local, stored, u) && l in local && l.devicePath in stored
    ensures var n := stored[l.devicePath].name;
      n in After(store, u) && After(store, u)[n].nodeLabel == node
      && After(store, u)[n].status.devicePath == l.devicePath
  {
    var n := stored[l.devicePath].name;
    assert StoredAt(stored[l.devicePath], l.devicePath, store, node);
    var i :| 0 <= i < |local| && local[i] == l;
    DeletedNames(f, store, node, local, stored, u, n);
    AfterKeys(f, store, node, local, stored, u);
    var origin := FindOrigin(f, store, node, local, stored, u, n);
    if origin.Changed? {
      assert StoredAt(stored[origin.l.devicePath], origin.l.devicePath, store, node);
    }
  }

  /** A new device of the host gets an object. */
  lemma NewHasObject(f: Format, store: Store, node: string, local: seq<Local>, stored: map<string, Object>,
                     u: UsageList, l: Local)
    requires Reconciling(f, store, node, local, stored, u) && l in local && l.devicePath !in stored
    ensures var n := f.NameOf(node, l);
      n in After(store, u) && After(store, u)[n].nodeLabel == node
      && After(store, u)[n].status.devicePath == l.devicePath
  {
    var n := f.NameOf(node, l);
    var o := Object(n, node, f.StatusOf(node, l));
    ListsAreRight(f, node, local, stored);
    assert o in u.create;
    MembersNamed(u.create);
    NoCreateCollides(f, store, node, local, stored, u);
    DeletedNames(f, store, node, local, stored, u, n);
    AfterKeys(f, store, node, local, stored, u);
    var origin := FindOrigin(f, store, node, local, stored, u, n);
    WrittenIsOwn(f, store, node, local, stored, u, n, After(store, u)[n], origin);
    var l' := origin.l;
    NewObjectIsValid(f, node, l);
    NewObjectIsValid(f, node, l');
  }

  // ----- the theorems -----

  function NodePaths(store: Store, node: string): set<string>
  {
    set n | n in store && store[n].nodeLabel == node :: store[n].status.devicePath
  }

  /** The node's objects are exactly the host's devices, and none differs in the fields that are compared. */
  ghost predicate Agrees(f: Format, store: Store, node: string, local: seq<Local>)
  {
    && NodePaths(store, node) == Paths(local)
    && forall n, l ::
      n in store && store[n].nodeLabel == node && l in local && store[n].status.devicePath == l.devicePath ==>
      SameFields(f, store[n], l)
  }

  lemma AfterIsValid(f: Format, store: Store, node: string, local: seq<Local>, stored: map<string, Object>,
                     u: UsageList)
    requires Reconciling(f, store, node, local, stored, u)
    ensures ValidStore(f, After(store, u))
  {
    var s := After(store, u);
    forall n | n in s ensures ValidObject(f, n, s[n]) {
      if s[n].nodeLabel == node {
        var _ := NodeObject(f, store, node, local, stored, u, n);
      } else {
        OtherNodesOld(f, store, node, local, stored, u, n);
      }
    }
    forall m, n | m in s && n in s && SamePlace(s[m], s[n]) ensures m == n {
      if s[n].nodeLabel == node {
        var l1 := NodeObject(f, store, node, local, stored, u, m);
        var l2 := NodeObject(f, store, node, local, stored, u, n);
        assert l1 == l2;
      } else {
        OtherNodesOld(f, store, node, local, stored, u, m);
        OtherNodesOld(f, store, node, local, stored, u, n);
      }
    }
  }

  lemma AfterAgrees(f: Format, store: Store, node: string, local: seq<Local>, stored: map<string, Object>, u: UsageList)
    requires Reconciling(f, store, node, local, stored, u)
    ensures Agrees(f, After(store, u), node, local)
  {
    var s := After(store, u);
    forall q | q in Paths(local) ensures q in NodePaths(s, node) {
      var i :| 0 <= i < |local| && local[i].devicePath == q;
      if q in stored {
        StoredHasObject(f, store, node, local, stored, u, local[i]);
      } else {
        NewHasObject(f, store, node, local, stored, u, local[i]);
      }
    }
    forall q | q in NodePaths(s, node) ensures q in Paths(local) {
      var n :| n in s && s[n].nodeLabel == node && s[n].status.devicePath == q;
      var l := NodeObject(f, store, node, local, stored, u, n);
      var i :| 0 <= i < |local| && local[i] == l;
    }
    forall n, l | n in s && s[n].nodeLabel == node && l in local && s[n].status.devicePath == l.devicePath
      ensures SameFields(f, s[n], l)
    {
      var l' := NodeObject(f, store, node, local, stored, u, n);
      assert l == l';
    }
  }

  /**
   One reconcile succeeds without a name collision, leaves other nodes alone, keeps the store
   valid and makes the node's objects agree with the host in the fields that are compared.
   */
  lemma ReconcileAgrees(f: Format, c: Cluster, node: string, local: seq<Local>, listed: seq<string>, u: UsageList)
    requires GoodFormat(f) && ValidStore(f, c.store) && ValidLocal(local) && Lists(listed, c.store, node)
    requires IsUsage(u, f, node, local, StoredByPath(c.store, listed))
    ensures Handled(c, u).Some?
    ensures var s := Handled(c, u).value.store;
      && ValidStore(f, s) && Agrees(f, s, node, local)
      && (forall n :: n in c.store && c.store[n].nodeLabel != node ==> n in s && s[n] == c.store[n])
  {
    var stored := StoredByPath(c.store, listed);
    ListedByPath(f, c.store, listed, node);
    assert Reconciling(f, c.store, node, local, stored, u);
    NoCreateCollides(f, c.store, node, local, stored, u);
    UpdatesAreStored(f, c.store, node, local, stored, u);
    OrphansAreDeleted(u);
    HandledStore(c, u);
    AfterIsValid(f, c.store, node, local, stored, u);
    AfterAgrees(f, c.store, node, local, stored, u);
    forall n | n in c.store && c.store[n].nodeLabel != node
      ensures n in After(c.store, u) && After(c.store, u)[n] == c.store[n]
    {
      OtherNodesUntouched(f, c.store, node, local, stored, u, n);
    }
  }

  /** Once the node agrees with the host, another reconcile finds nothing to do. */
  lemma SecondReconcileIsEmpty(f: Format, store: Store, node: string, local: seq<Local>, listed: seq<string>,
                               u: UsageList)
    requires ValidStore(f, store) && ValidLocal(local) && Lists(listed, store, node) && Agrees(f, store, node, local)
    requires IsUsage(u, f, node, local, StoredByPath(store, listed))
    ensures u == UsageList([], [], [], [])
  {
    var stored := StoredByPath(store, listed);
    ListedByPath(f, store, listed, node);
    forall l | l in local ensures l.devicePath in stored && !f.Changed(stored[l.devicePath], l) {
      var i :| 0 <= i < |local| && local[i] == l;
      assert l.devicePath in NodePaths(store, node);
      var n :| n in store && store[n].nodeLabel == node && store[n].status.devicePath == l.devicePath;
      PlaceIsName(f, store, node, stored, n);
    }
    forall q | q in stored ensures q in Paths(local) {
      assert StoredAt(stored[q], q, store, node);
      assert q in NodePaths(store, node);
    }
    NothingToSort(f, node, local, stored);
    assert stored - Paths(local) == map[];
    if u.delete != [] {
      ValuesNonEmpty(u.delete, stored - Paths(local));
    }
  }

  lemma ValuesNonEmpty(os: seq<Object>, m: map<string, Object>)
    requires Values(os, m) && os != []
    ensures m != map[]
  {
    var keys :| ValuesBy(os, m, keys);
    assert keys[0] in m;
  }

  lemma {:induction false} NothingToSort(f: Format, node: string, local: seq<Local>, stored: map<string, Object>)
    requires forall i, j :: 0 <= i < j < |local| ==> local[i].devicePath != local[j].devicePath
    requires forall l :: l in local ==> l.devicePath in stored && !f.Changed(stored[l.devicePath], l)
    ensures Sorted(f, node, local, stored) == Sorting([], [], stored - Paths(local))
  {
    if local == [] {
      assert Paths(local) == {};
    } else {
      var init, l := local[..|local| - 1], local[|local| - 1];
      assert forall x :: x in init ==> x in local;
      NothingToSort(f, node, init, stored);
      LastPath(local);
      assert l in local;
      assert stored - Paths(local) == (stored - Paths(init)) - {l.devicePath};
    }
  }

  lemma LastPath(local: seq<Local>)
    requires local != [] && forall i, j :: 0 <= i < j < |local| ==> local[i].devicePath != local[j].devicePath
    ensures var init, l := local[..|local| - 1], local[|local| - 1];
      l.devicePath !in Paths(init) && Paths(local) == Paths(init) + {l.devicePath}
  {
    var init := local[..|local| - 1];
    assert forall i :: 0 <= i < |init| ==> init[i] == local[i];
  }

  // ----- runs -----

  /** A reconcile of some node over the host it sees, or a claim switching a device on or off. */
  datatype Event =
    | Reconcile(node: string, local: seq<Local>, listed: seq<string>, usage: UsageList)
    | Switch(name: string, enabled: bool)

  function Step(c: Cluster, e: Event): Cluster
  {
    match e
    case Reconcile(_, _, _, u) =>
      var r := Handled(c, u);
      if r.Some? then r.value else c
    case Switch(n, enabled) =>
      if n !in c.store then c
      else c.(store := c.store[n := c.store[n].(status := c.store[n].status.(enabled := enabled))],
              claims := if enabled then c.claims + {n} else c.claims - {n})
  }

  function Run(c: Cluster, events: seq<Event>): Cluster
  {
    if events == [] then c else Step(Run(c, events[..|events| - 1]), events[|events| - 1])
  }

  ghost predicate Possible(f: Format, c: Cluster, e: Event)
  {
    e.Reconcile? ==>
      && ValidLocal(e.local) && Lists(e.listed, c.store, e.node)
      && IsUsage(e.usage, f, e.node, e.local, StoredByPath(c.store, e.listed))
  }

  ghost predicate PossibleRun(f: Format, c: Cluster, events: seq<Event>)
  {
    forall i :: 0 <= i < |events| ==> Possible(f, Run(c, events[..i]), events[i])
  }

  lemma RunNext(c: Cluster, events: seq<Event>, k: nat)
    requires k < |events|
    ensures Run(c, events[..k + 1]) == Step(Run(c, events[..k]), events[k])
  {
    assert events[..k + 1][..k] == events[..k];
  }

  lemma StepValid(f: Format, c: Cluster, e: Event)
    requires GoodFormat(f) && ValidStore(f, c.store) && Possible(f, c, e)
    ensures ValidStore(f, Step(c, e).store)
    ensures e.Reconcile? ==> Handled(c, e.usage).Some? && Agrees(f, Step(c, e).store, e.node, e.local)
  {
    match e
    case Reconcile(node, local, listed, u) =>
      ReconcileAgrees(f, c, node, local, listed, u);
    case Switch(n, enabled) =>
      if n in c.store {
        var s := Step(c, e).store;
        assert forall m :: m in s ==> ValidObject(f, m, c.store[m]) && SamePlace(s[m], c.store[m]);
      }
  }

  lemma {:induction false} PrefixValid(f: Format, c: Cluster, events: seq<Event>, k: nat)
    requires GoodFormat(f) && ValidStore(f, c.store) && PossibleRun(f, c, events) && k <= |events|
    ensures ValidStore(f, Run(c, events[..k]).store)
  {
    if k > 0 {
      PrefixValid(f, c, events, k - 1);
      StepValid(f, Run(c, events[..k - 1]), events[k - 1]);
      RunNext(c, events, k - 1);
    }
  }

  /** In every run, over all nodes and however the hosts change, each object's name encodes its node and path. */
  lemma RunValid(f: Format, c: Cluster, events: seq<Event>)
    requires GoodFormat(f) && ValidStore(f, c.store) && PossibleRun(f, c, events)
    ensures ValidStore(f, Run(c, events).store)
  {
    PrefixValid(f, c, events, |events|);
    assert events[..|events|] == events;
  }

  /** So in every run no create ever collides, and each reconcile ends in agreement with the host it saw. */
  lemma RunReconciles(f: Format, c: Cluster, events: seq<Event>, i: nat)
    requires GoodFormat(f) && ValidStore(f, c.store) && PossibleRun(f, c, events)
    requires i < |events| && events[i].Reconcile?
    ensures Handled(Run(c, events[..i]), events[i].usage).Some?
    ensures Agrees(f, Step(Run(c, events[..i]), events[i]).store, events[i].node, events[i].local)
  {
    PrefixValid(f, c, events, i);
    StepValid(f, Run(c, events[..i]), events[i]);
  }
}
