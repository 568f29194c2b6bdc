/**
 The USB inventory: compare the devices on the host with the stored objects of the node, then
 create, update, orphan and delete until the two agree.
 */
module UsbInventory {
  import opened Text

  /** A device found on the host. */
  datatype Local = Local(vendor: nat, product: nat, devicePath: string, productName: string, pciAddress: string,
                         classType: string)

  datatype Status = Status(vendorId: string, productId: string, resourceName: string, nodeName: string,
                           devicePath: string, description: string, pciAddress: string, classType: string,
                           enabled: bool, orphaned: bool)

  datatype Object = Object(name: string, nodeLabel: string, status: Status)

  /** The texts made from a device: hexadecimal IDs, description, object name and resource name. */
  datatype Format = Format(hex: nat -> string, describe: Local -> string,
                           naming: (string, nat, nat, string) -> string, resource: string -> string)
  {
    function NameOf(node: string, l: Local): string { naming(node, l.vendor, l.product, l.devicePath) }

    function StatusOf(node: string, l: Local): Status
    {
      Status(hex(l.vendor), hex(l.product), resource(NameOf(node, l)), node, l.devicePath, describe(l), l.pciAddress,
             l.classType, false, false)
    }

    predicate Changed(o: Object, l: Local)
    {
      || o.status.vendorId != hex(l.vendor) || o.status.productId != hex(l.product)
      || o.status.description != describe(l) || o.status.classType != l.classType
    }
  }

  type Store = map<string, Object>

  /** The stored USB devices of all nodes, and the names of the device claims. */
  datatype Cluster = Cluster(store: Store, claims: set<string>)

  datatype UsageList = UsageList(create: seq<Object>, update: seq<Object>, delete: seq<Object>, orphaned: seq<Object>)

  // ----- getList -----

  datatype Sorting = Sorting(create: seq<Object>, update: seq<Object>, rest: map<string, Object>)

  function SortOne(s: Sorting, f: Format, node: string, l: Local): Sorting
  {
    if l.devicePath !in s.rest then
      s.(create := s.create + [Object(f.NameOf(node, l), node, f.StatusOf(node, l))])
    else
      var o := s.rest[l.devicePath];
      Sorting(s.create, if f.Changed(o, l) then s.update + [o.(status := f.StatusOf(node, l))] else s.update,
              s.rest - {l.devicePath})
  }

  function Sorted(f: Format, node: string, local: seq<Local>, stored: map<string, Object>): Sorting
  {
    if local == [] then Sorting([], [], stored)
    else SortOne(Sorted(f, node, local[..|local| - 1], stored), f, node, local[|local| - 1])
  }

  function EnabledOf(os: seq<Object>): seq<Object>
  {
    if os == [] then []
    else
      var o := os[|os| - 1];
      EnabledOf(os[..|os| - 1]) + if o.status.enabled then [o] else []
  }

  /** `os` lists the values of `m`, each key once, in some order. */
  ghost predicate Values(os: seq<Object>, m: map<string, Object>)
  {
    exists keys: seq<string> :: ValuesBy(os, m, keys)
  }

  ghost predicate ValuesBy(os: seq<Object>, m: map<string, Object>, keys: seq<string>)
  {
    && |keys| == |os|
    && (forall i, j :: 0 <= i < j < |keys| ==> keys[i] != keys[j])
    && (forall k :: k in m <==> k in keys)
    && (forall i :: 0 <= i < |keys| ==> keys[i] in m && os[i] == m[keys[i]])
  }

  /** The four lists for a host and the node's objects by path. */
  ghost predicate IsUsage(u: UsageList, f: Format, node: string, local: seq<Local>, stored: map<string, Object>)
  {
    var s := Sorted(f, node, local, stored);
    && u.create == s.create && u.update == s.update
    && Values(u.delete, s.rest) && u.orphaned == EnabledOf(u.delete)
  }

  /** The listed objects by device path; of two with one path the later counts. */
  function StoredByPath(store: Store, listed: seq<string>): map<string, Object>
  {
    if listed == [] then map[]
    else
      var before := StoredByPath(store, listed[..|listed| - 1]);
      var n := listed[|listed| - 1];
      if n in store then before[store[n].status.devicePath := store[n]] else before
  }

  method GetList(f: Format, node: string, local: seq<Local>, stored: map<string, Object>) returns (u: UsageList)
    ensures IsUsage(u, f, node, local, stored)
  {
    var create: seq<Object>, update: seq<Object>, rest := [], [], stored;
    for k := 0 to |local|
      invariant Sorting(create, update, rest) == Sorted(f, node, local[..k], stored)
    {
      assert local[..k + 1][..k] == local[..k];
      var l := local[k];
      if l.devicePath !in rest {
        create := create + [Object(f.NameOf(node, l), node, f.StatusOf(node, l))];
      } else {
        var existed := rest[l.devicePath];
        if f.Changed(existed, l) {
          update := update + [existed.(status := f.StatusOf(node, l))];
        }
        rest := rest - {l.devicePath};
      }
    }
    assert local[..|local|] == local;
    var delete, orphaned := ListRemaining(rest);
    u := UsageList(create, update, delete, orphaned);
  }

  method ListRemaining(rest: map<string, Object>) returns (delete: seq<Object>, orphaned: seq<Object>)
    ensures Values(delete, rest) && orphaned == EnabledOf(delete)
  {
    delete, orphaned := [], [];
    var todo := rest.Keys;
    ghost var keys: seq<string> := [];
    while todo != {}
      invariant todo <= rest.Keys && |keys| == |delete|
      invariant forall i, j :: 0 <= i < j < |keys| ==> keys[i] != keys[j]
      invariant forall k :: k in keys <==> k in rest && k !in todo
      invariant forall i :: 0 <= i < |keys| ==> keys[i] in rest && delete[i] == rest[keys[i]]
      invariant orphaned == EnabledOf(delete)
      decreases |todo|
    {
      var k :| k in todo;
      var o := rest[k];
      if o.status.enabled {
        orphaned := orphaned + [o];
      }
      assert (delete + [o])[..|delete|] == delete;
      assert forall x :: x in keys + [k] <==> x in keys || x == k;
      delete, keys, todo := delete + [o], keys + [k], todo - {k};
    }
    assert ValuesBy(delete, rest, keys);
  }

  // ----- handleList -----

  /** Creating an object whose name is taken fails. */
  function CreateAll(store: Store, os: seq<Object>): Option<Store>
  {
    if os == [] then Some(store)
    else
      var before := CreateAll(store, os[..|os| - 1]);
      var o := os[|os| - 1];
      if before.None? || o.name in before.value then None else Some(before.value[o.name := o])
  }

  /** Updating needs the object to exist. */
  function UpdateAll(store: Store, os: seq<Object>): Option<Store>
  {
    if os == [] then Some(store)
    else
      var before := UpdateAll(store, os[..|os| - 1]);
      var o := os[|os| - 1];
      if before.None? || o.name !in before.value then None else Some(before.value[o.name := o])
  }

  /** The claim of an orphan is deleted; without one the object is marked instead. */
  function OrphanAll(c: Cluster, os: seq<Object>): Cluster
  {
    if os == [] then c
    else
      var before := OrphanAll(c, os[..|os| - 1]);
      var o := os[|os| - 1];
      if o.name in before.claims then before.(claims := before.claims - {o.name})
      else if o.name in before.store then
        before.(store := before.store[o.name := o.(status := o.status.(orphaned := true))])
      else before
  }

  function NamesOf(os: seq<Object>): set<string>
  {
    set i | 0 <= i < |os| :: os[i].name
  }

  function Handled(c: Cluster, u: UsageList): Option<Cluster>
  {
    var created := CreateAll(c.store, u.create);
    if created.None? then None
    else
      var updated := UpdateAll(created.value, u.update);
      if updated.None? then None
      else
        var marked := OrphanAll(Cluster(updated.value, c.claims), u.orphaned);
        Some(marked.(store := marked.store - NamesOf(u.delete)))
  }

  class Handler {
    const format: Format
    const node: string
    var store: Store
    var claims: set<string>

    constructor (format: Format, node: string, store: Store, claims: set<string>)
      ensures this.format == format && this.node == node && this.store == store && this.claims == claims
    {
      this.format, this.node, this.store, this.claims := format, node, store, claims;
    }

    /** One reconcile; `listed` is the order in which the node's objects are listed. */
    method Reconcile(local: seq<Local>, listed: seq<string>) returns (ok: bool, ghost u: UsageList)
      modifies this
      ensures IsUsage(u, format, node, local, StoredByPath(old(store), listed))
      ensures ok == Handled(old(Cluster(store, claims)), u).Some?
      ensures ok ==> Cluster(store, claims) == Handled(old(Cluster(store, claims)), u).value
    {
      var stored: map<string, Object> := map[];
      for k := 0 to |listed|
        invariant stored == StoredByPath(store, listed[..k])
        invariant Cluster(store, claims) == old(Cluster(store, claims))
      {
        assert listed[..k + 1][..k] == listed[..k];
        if listed[k] in store {
          stored := stored[store[listed[k]].status.devicePath := store[listed[k]]];
        }
      }
      assert listed[..|listed|] == listed;
      var lists := GetList(format, node, local, stored);
      u := lists;
      ok := HandleList(lists);
    }

    method HandleList(u: UsageList) returns (ok: bool)
      modifies this
      ensures ok == Handled(old(Cluster(store, claims)), u).Some?
      ensures ok ==> Cluster(store, claims) == Handled(old(Cluster(store, claims)), u).value
    {
      for k := 0 to |u.create|
        invariant claims == old(claims) && CreateAll(old(store), u.create[..k]) == Some(store)
      {
        assert u.create[..k + 1][..k] == u.create[..k];
        if u.create[k].name in store {
          CreateStops(old(store), u.create, k + 1);
          return false;
        }
        store := store[u.create[k].name := u.create[k]];
      }
      assert u.create[..|u.create|] == u.create;
      ghost var created := store;
      for k := 0 to |u.update|
        invariant claims == old(claims) && UpdateAll(created, u.update[..k]) == Some(store)
      {
        assert u.update[..k + 1][..k] == u.update[..k];
        if u.update[k].name !in store {
          UpdateStops(created, u.update, k + 1);
          return false;
        }
        store := store[u.update[k].name := u.update[k]];
      }
      assert u.update[..|u.update|] == u.update;
      DropOrphans(u.orphaned);
      DeleteObjects(u.delete);
      return true;
    }

    method DropOrphans(os: seq<Object>)
      modifies this
      ensures Cluster(store, claims) == OrphanAll(old(Cluster(store, claims)), os)
    {
      for k := 0 to |os|
        invariant Cluster(store, claims) == OrphanAll(old(Cluster(store, claims)), os[..k])
      {
        assert os[..k + 1][..k] == os[..k];
        if os[k].name in claims {
          claims := claims - {os[k].name};
        } else if os[k].name in store {
          store := store[os[k].name := os[k].(status := os[k].status.(orphaned := true))];
        }
      }
      assert os[..|os|] == os;
    }

    method DeleteObjects(os: seq<Object>)
      modifies this`store
      ensures store == old(store) - NamesOf(os)
    {
      for k := 0 to |os|
        invariant store == old(store) - NamesOf(os[..k])
      {
        NamesOfStep(os, k);
        store := store - {os[k].name};
      }
      assert os[..|os|] == os;
    }
  }

  lemma NamesOfStep(os: seq<Object>, k: nat)
    requires k < |os|
    ensures NamesOf(os[..k + 1]) == NamesOf(os[..k]) + {os[k].name}
  {
    assert os[..k + 1][k] == os[k];
    assert forall i :: 0 <= i < k ==> os[..k + 1][i] == os[..k][i];
  }

  lemma {:induction false} CreateStops(store: Store, os: seq<Object>, k: nat)
    requires k <= |os| && CreateAll(store, os[..k]).None?
    ensures CreateAll(store, os).None?
  {
    if k < |os| {
      assert os[..|os| - 1][..k] == os[..k];
      CreateStops(store, os[..|os| - 1], k);
    } else {
      assert os[..k] == os;
    }
  }

  lemma {:induction false} UpdateStops(store: Store, os: seq<Object>, k: nat)
    requires k <= |os| && UpdateAll(store, os[..k]).None?
    ensures UpdateAll(store, os).None?
  {
    if k < |os| {
      assert os[..|os| - 1][..k] == os[..k];
      UpdateStops(store, os[..|os| - 1], k);
    } else {
      assert os[..k] == os;
    }
  }
}
