/**
 The entries and claims that completing a machine adds, field by field.
 */
module IommuPatch {
  import opened Text
  import opened Machine
  import opened IommuClosure
  import Names

  // ----- entries -----

  /**
   The machine's own entries come first, unchanged; every appended entry asks for the resource that
   the cache holds for the device of its name.
   */
  lemma AppendedEntriesExactly(vm: seq<Entry>, devices: map<string, PciDevice>, claims: map<string, string>,
                               index: string -> seq<PciDevice>, j: nat)
    requires AllKnown(vm, devices, claims) && ValidIndex(devices, index)
    requires j < |PatchedVM(vm, devices, claims, index)|
    ensures var e := PatchedVM(vm, devices, claims, index)[j];
      if j < |vm| then e == vm[j] else e.name in devices && e.deviceName == devices[e.name].resourceName
  {
    if j >= |vm| {
      var reqs := Requirements(vm, devices, claims, index);
      var needed := Missing(EntryNames(vm), reqs);
      var r := needed[j - |vm|];
      assert r in needed;
      MissingMembers(EntryNames(vm), reqs);
      RequirementsSound(vm, devices, claims, index, r);
    }
  }

  // ----- owners -----

  /** The owner of the first requirement for a device. */
  function FirstOwner(needed: seq<Needed>, n: string): Option<string>
  {
    if needed == [] then None
    else
      var before, r := FirstOwner(needed[..|needed| - 1], n), needed[|needed| - 1];
      if before.None? && r.device.name == n then Some(r.owner) else before
  }

  lemma {:induction false} ClaimedByFirst(claims: map<string, string>, needed: seq<Needed>, n: string)
    requires n !in claims
    ensures var after := ClaimsAfter(claims, needed);
      FirstOwner(needed, n) == if n in after then Some(after[n]) else None
  {
    if needed != [] {
      ClaimedByFirst(claims, needed[..|needed| - 1], n);
    }
  }

  lemma {:induction false} MissingKeepsFirst(names: seq<string>, reqs: seq<Needed>, n: string)
    requires n !in names
    ensures FirstOwner(Missing(names, reqs), n) == FirstOwner(reqs, n)
  {
    if reqs != [] {
      var init, r := reqs[..|reqs| - 1], reqs[|reqs| - 1];
      MissingKeepsFirst(names, init, n);
      if r.device.name !in names {
        assert Missing(names, reqs)[..|Missing(names, reqs)| - 1] == Missing(names, init);
      } else {
        assert Missing(names, reqs) == Missing(names, init);
      }
    }
  }

  lemma {:induction false} FirstOwnerAppend(a: seq<Needed>, b: seq<Needed>, n: string)
    ensures FirstOwner(a + b, n) == if FirstOwner(a, n).Some? then FirstOwner(a, n) else FirstOwner(b, n)
  {
    if b == [] {
      assert a + b == a;
    } else {
      FirstOwnerAppend(a, b[..|b| - 1], n);
      assert (a + b)[..|a + b| - 1] == a + b[..|b| - 1];
    }
  }

  lemma {:induction false} FirstOwnerInBlock(found: seq<PciDevice>, owner: string, n: string)
    ensures FirstOwner(WithOwner(found, owner), n) == if Finds(found, n) then Some(owner) else None
  {
    if found != [] {
      var init := found[..|found| - 1];
      FirstOwnerInBlock(init, owner, n);
      assert WithOwner(found, owner)[..|found| - 1] == WithOwner(init, owner);
      assert forall i :: 0 <= i < |init| ==> init[i] == found[i];
      if Finds(init, n) {
        var i :| 0 <= i < |init| && init[i].name == n;
        assert found[i].name == n;
      }
    }
  }

  /** The i-th entry is the machine's first in the group of a device. */
  ghost predicate FirstSharing(vm: seq<Entry>, devices: map<string, PciDevice>, n: string, i: nat)
    requires n in devices
  {
    && i < |vm| && vm[i].name in devices && Key(devices[vm[i].name]) == Key(devices[n])
    && forall k :: 0 <= k < i && vm[k].name in devices ==> Key(devices[vm[k].name]) != Key(devices[n])
  }

  /** The owner of the claim of the machine's first entry in the group of a device. */
  ghost predicate FirstOwns(vm: seq<Entry>, devices: map<string, PciDevice>, claims: map<string, string>, n: string,
                            owner: string)
    requires n in devices
  {
    exists i: nat :: FirstSharing(vm, devices, n, i) && vm[i].name in claims && claims[vm[i].name] == owner
  }

  lemma {:induction false} FirstRequired(vm: seq<Entry>, devices: map<string, PciDevice>, claims: map<string, string>,
                                         index: string -> seq<PciDevice>, n: string)
    requires AllKnown(vm, devices, claims) && ValidIndex(devices, index) && ValidCache(devices) && n in devices
    ensures var first := FirstOwner(Requirements(vm, devices, claims, index), n);
      if first.Some? then FirstOwns(vm, devices, claims, n, first.value) else !Touches(vm, devices, Key(devices[n]))
  {
    if vm != [] {
      var init, e := vm[..|vm| - 1], vm[|vm| - 1];
      FirstRequired(init, devices, claims, index, n);
      var key := Key(devices[e.name]);
      assert IndexList(devices, index(key), key);
      FindsByKey(devices, index(key), key, n);
      FirstOwnerInBlock(index(key), claims[e.name], n);
      FirstOwnerAppend(Requirements(init, devices, claims, index), WithOwner(index(key), claims[e.name]), n);
      var before := FirstOwner(Requirements(init, devices, claims, index), n);
      if before.Some? {
        FirstOwnsLonger(vm, devices, claims, n, before.value);
      } else {
        LastTouches(vm, devices, claims, n);
      }
    }
  }

  lemma FirstOwnsLonger(vm: seq<Entry>, devices: map<string, PciDevice>, claims: map<string, string>, n: string,
                        owner: string)
    requires vm != [] && n in devices && FirstOwns(vm[..|vm| - 1], devices, claims, n, owner)
    ensures FirstOwns(vm, devices, claims, n, owner)
  {
    var init := vm[..|vm| - 1];
    var i: nat :| FirstSharing(init, devices, n, i) && init[i].name in claims && claims[init[i].name] == owner;
    assert forall k :: 0 <= k < |init| ==> init[k] == vm[k];
    assert FirstSharing(vm, devices, n, i);
  }

  lemma LastTouches(vm: seq<Entry>, devices: map<string, PciDevice>, claims: map<string, string>, n: string)
    requires vm != [] && n in devices && !Touches(vm[..|vm| - 1], devices, Key(devices[n]))
    requires vm[|vm| - 1].name in devices && vm[|vm| - 1].name in claims
    ensures var e := vm[|vm| - 1];
      if Key(devices[e.name]) == Key(devices[n]) then FirstOwns(vm, devices, claims, n, claims[e.name])
      else !Touches(vm, devices, Key(devices[n]))
  {
    var init, e := vm[..|vm| - 1], vm[|vm| - 1];
    forall k | 0 <= k < |init| && vm[k].name in devices ensures Key(devices[vm[k].name]) != Key(devices[n]) {
      assert init[k] == vm[k];
    }
    if Key(devices[e.name]) == Key(devices[n]) {
      assert FirstSharing(vm, devices, n, |vm| - 1);
    }
  }

  /** Every new claim belongs to the owner of the claim of the machine's first entry in the device's group. */
  lemma NewClaimsExactly(vm: seq<Entry>, devices: map<string, PciDevice>, claims: map<string, string>,
                         index: string -> seq<PciDevice>, n: string)
    requires AllKnown(vm, devices, claims) && ValidIndex(devices, index) && ValidCache(devices)
    requires n !in claims && n in NewClaims(vm, devices, claims, index)
    ensures n in devices && FirstOwns(vm, devices, claims, n, NewClaims(vm, devices, claims, index)[n])
  {
    var reqs := Requirements(vm, devices, claims, index);
    var needed := Missing(EntryNames(vm), reqs);
    NewIsRequired(claims, EntryNames(vm), reqs, n);
    var r :| r in reqs && r.device.name == n && n !in EntryNames(vm);
    RequirementsSound(vm, devices, claims, index, r);
    ClaimedByFirst(claims, needed, n);
    MissingKeepsFirst(EntryNames(vm), reqs, n);
    FirstRequired(vm, devices, claims, index, n);
  }

  lemma NewIsRequired(claims: map<string, string>, names: seq<string>, reqs: seq<Needed>, n: string)
    requires n !in claims && n in ClaimsAfter(claims, Missing(names, reqs))
    ensures exists r :: r in reqs && r.device.name == n && n !in names
  {
    ClaimsAfterKeys(claims, Missing(names, reqs));
    MissingMembers(names, reqs);
  }

  /** The first entry that shares a key shares node and group. */
  lemma SharingIsSameGroup(vm: seq<Entry>, devices: map<string, PciDevice>, n: string, i: nat)
    requires ValidCache(devices) && n in devices && FirstSharing(vm, devices, n, i)
    ensures SameGroup(devices[vm[i].name], devices[n])
  {
    var d, e := devices[vm[i].name], devices[n];
    Names.NodeKeyInjective(d.node, d.group, e.node, e.group);
  }

  /** A call that fails has made some of these claims and no others. */
  lemma {:induction false} FailedClaimsArePart(claims: map<string, string>, needed: seq<Needed>, view: View, n: string)
    requires n in ClaimAll(claims, needed, view).0
    ensures n in ClaimsAfter(claims, needed) && ClaimAll(claims, needed, view).0[n] == ClaimsAfter(claims, needed)[n]
  {
    if needed != [] {
      var init, r := needed[..|needed| - 1], needed[|needed| - 1];
      if n in ClaimAll(claims, init, view).0 {
        FailedClaimsArePart(claims, init, view, n);
      } else {
        ClaimAllSucceeds(claims, init, view);
      }
    }
  }
}
