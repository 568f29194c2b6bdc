/**
 The admission webhook that completes a new virtual machine's host devices to whole IOMMU groups
 and makes sure that every added device is claimed.
 */
module IommuClosure {
  import opened Machine
  import Names

  datatype PciDevice = PciDevice(name: string, node: string, group: string, resourceName: string)

  /** A device that some entry's group asks for, with the owner of that entry's claim. */
  datatype Needed = Needed(device: PciDevice, owner: string)

  function Key(d: PciDevice): string { Names.NodeKey(d.node, d.group) }

  predicate SameGroup(a: PciDevice, b: PciDevice) { a.node == b.node && a.group == b.group }

  /** The device cache: objects under their own names, with hyphen-free group numbers. */
  ghost predicate ValidCache(devices: map<string, PciDevice>)
  {
    forall n :: n in devices ==> devices[n].name == n && '-' !in devices[n].group
  }

  /** The cache index: under each key, every device with that key once, in some order. */
  ghost predicate ValidIndex(devices: map<string, PciDevice>, index: string -> seq<PciDevice>)
  {
    forall k :: IndexList(devices, index(k), k)
  }

  ghost predicate IndexList(devices: map<string, PciDevice>, found: seq<PciDevice>, key: string)
  {
    && (forall i, j :: 0 <= i < j < |found| ==> found[i].name != found[j].name)
    && (forall d :: d in found <==> d.name in devices && devices[d.name] == d && Key(d) == key)
  }

  predicate Known(e: Entry, devices: map<string, PciDevice>, claims: map<string, string>)
  {
    e.name in devices && e.name in claims
  }

  predicate AllKnown(vm: seq<Entry>, devices: map<string, PciDevice>, claims: map<string, string>)
  {
    forall i :: 0 <= i < |vm| ==> Known(vm[i], devices, claims)
  }

  function WithOwner(found: seq<PciDevice>, owner: string): seq<Needed>
  {
    seq(|found|, i requires 0 <= i < |found| => Needed(found[i], owner))
  }

  /** Every member of every entry's group, once per entry. */
  function Requirements(vm: seq<Entry>, devices: map<string, PciDevice>, claims: map<string, string>,
                        index: string -> seq<PciDevice>): seq<Needed>
    requires AllKnown(vm, devices, claims)
  {
    if vm == [] then []
    else
      var e := vm[|vm| - 1];
      Requirements(vm[..|vm| - 1], devices, claims, index) + WithOwner(index(Key(devices[e.name])), claims[e.name])
  }

  /** The requirements that the machine does not have yet. */
  function Missing(names: seq<string>, reqs: seq<Needed>): seq<Needed>
  {
    if reqs == [] then []
    else
      var r := reqs[|reqs| - 1];
      Missing(names, reqs[..|reqs| - 1]) + if r.device.name in names then [] else [r]
  }

  /** The entries the patch appends, in order. */
  function PatchEntries(needed: seq<Needed>): seq<Entry>
  {
    seq(|needed|, i requires 0 <= i < |needed| => Entry(needed[i].device.name, needed[i].device.resourceName))
  }

  /** A claim is created for each needed device that has none. */
  function ClaimsAfter(claims: map<string, string>, needed: seq<Needed>): map<string, string>
  {
    if needed == [] then claims
    else
      var before := ClaimsAfter(claims, needed[..|needed| - 1]);
      var n := needed[|needed| - 1];
      if n.device.name in before then before else before[n.device.name := n.owner]
  }

  /** Whether the claim cache shows, at the k-th lookup, a claim created earlier in the same call. */
  type View = (nat, string) -> bool

  /** The claims after the loop and its success: a claim the cache does not show is created again, which fails. */
  function ClaimAll(claims: map<string, string>, needed: seq<Needed>, view: View): (map<string, string>, bool)
  {
    if needed == [] then (claims, true)
    else
      var (before, ok) := ClaimAll(claims, needed[..|needed| - 1], view);
      var n := needed[|needed| - 1];
      if !ok || n.device.name in claims then (before, ok)
      else if n.device.name in before then (before, view(|needed| - 1, n.device.name))
      else (before[n.device.name := n.owner], true)
  }

  class Mutator {
    const devices: map<string, PciDevice>
    const index: string -> seq<PciDevice>
    var claims: map<string, string>

    constructor (devices: map<string, PciDevice>, index: string -> seq<PciDevice>, claims: map<string, string>)
      ensures this.devices == devices && this.index == index && this.claims == claims
    {
      this.devices, this.index, this.claims := devices, index, claims;
    }

    /**
     An unknown device or a missing claim means no patch at all and no new claim; a claim that
     cannot be created means an error, and the claims created before it stay.
     */
    method GenerateHostDevicesPatch(vm: seq<Entry>, view: View) returns (ok: bool, patch: seq<Entry>)
      modifies this
      ensures !AllKnown(vm, devices, old(claims)) ==> ok && patch == [] && claims == old(claims)
      ensures AllKnown(vm, devices, old(claims)) ==>
        var needed := Missing(EntryNames(vm), Requirements(vm, devices, old(claims), index));
        (claims, ok) == ClaimAll(old(claims), needed, view) && patch == if ok then PatchEntries(needed) else []
    {
      var known, inVM, possible := CollectRequirements(vm);
      if !known {
        return true, [];
      }
      var needed := IdentifyAdditionalPCIDevices(inVM, possible);
      if |needed| == 0 {
        return true, [];
      }
      ok := ClaimNeeded(needed, view);
      patch := if ok then PatchEntries(needed) else [];
    }

    method CollectRequirements(vm: seq<Entry>) returns (known: bool, inVM: seq<string>, possible: seq<Needed>)
      ensures known == AllKnown(vm, devices, claims)
      ensures known ==> inVM == EntryNames(vm) && possible == Requirements(vm, devices, claims, index)
    {
      inVM, possible := [], [];
      for k := 0 to |vm|
        invariant AllKnown(vm[..k], devices, claims)
        invariant inVM == EntryNames(vm[..k])
        invariant possible == Requirements(vm[..k], devices, claims, index)
      {
        assert vm[..k + 1][..k] == vm[..k];
        if !Known(vm[k], devices, claims) {
          return false, inVM, possible;
        }
        var found := index(Key(devices[vm[k].name]));
        inVM := inVM + [vm[k].name];
        possible := possible + WithOwner(found, claims[vm[k].name]);
      }
      assert vm[..|vm|] == vm;
      known := true;
    }

    method ClaimNeeded(needed: seq<Needed>, view: View) returns (ok: bool)
      modifies this
      ensures (claims, ok) == ClaimAll(old(claims), needed, view)
    {
      var start := claims;
      for k := 0 to |needed|
        invariant (claims, true) == ClaimAll(start, needed[..k], view)
      {
        assert needed[..k + 1][..k] == needed[..k];
        var name := needed[k].device.name;
        ok := FindAndCreateClaim(needed[k].device, needed[k].owner, name in start || (name in claims && view(k, name)));
        if !ok {
          FailureStays(start, needed, view, k + 1);
          return;
        }
      }
      assert needed[..|needed|] == needed;
      ok := true;
    }

    /** `cached` tells whether the cache shows a claim for the device; the API server refuses a second one. */
    method FindAndCreateClaim(dev: PciDevice, owner: string, cached: bool) returns (ok: bool)
      modifies this
      ensures ok == (cached || dev.name !in old(claims))
      ensures claims == if cached || !ok then old(claims) else old(claims)[dev.name := owner]
    {
      if cached {
        return true;
      }
      ok := dev.name !in claims;
      if ok {
        claims := claims[dev.name := owner];
      }
    }
  }

  lemma {:induction false} FailureStays(claims: map<string, string>, needed: seq<Needed>, view: View, k: nat)
    requires k <= |needed| && !ClaimAll(claims, needed[..k], view).1
    ensures ClaimAll(claims, needed, view) == ClaimAll(claims, needed[..k], view)
  {
    if k == |needed| {
      assert needed[..k] == needed;
    } else {
      assert needed[..|needed| - 1][..k] == needed[..k];
      FailureStays(claims, needed[..|needed| - 1], view, k);
    }
  }

  method IdentifyAdditionalPCIDevices(inVM: seq<string>, possible: seq<Needed>) returns (needed: seq<Needed>)
    ensures needed == Missing(inVM, possible)
  {
    needed := [];
    for k := 0 to |possible|
      invariant needed == Missing(inVM, possible[..k])
    {
      assert possible[..k + 1][..k] == possible[..k];
      if possible[k].device.name !in inVM {
        needed := needed + [possible[k]];
      }
    }
    assert possible[..|possible|] == possible;
  }

  // ----- what the patched machine looks like -----

  /** Some entry of the machine is in the group with this key. */
  predicate Touches(vm: seq<Entry>, devices: map<string, PciDevice>, key: string)
  {
    exists i :: 0 <= i < |vm| && vm[i].name in devices && Key(devices[vm[i].name]) == key
  }

  lemma {:induction false} RequirementsSound(vm: seq<Entry>, devices: map<string, PciDevice>,
                                             claims: map<string, string>, index: string -> seq<PciDevice>, r: Needed)
    requires AllKnown(vm, devices, claims) && ValidIndex(devices, index)
    requires r in Requirements(vm, devices, claims, index)
    ensures r.device.name in devices && devices[r.device.name] == r.device && Touches(vm, devices, Key(r.device))
  {
    var init, e := vm[..|vm| - 1], vm[|vm| - 1];
    var key := Key(devices[e.name]);
    var found := index(key);
    assert IndexList(devices, found, key);
    if r in Requirements(init, devices, claims, index) {
      RequirementsSound(init, devices, claims, index, r);
      var i :| 0 <= i < |init| && init[i].name in devices && Key(devices[init[i].name]) == Key(r.device);
      assert vm[i] == init[i];
    } else {
      assert r in WithOwner(found, claims[e.name]);
      assert r.device in found;
    }
  }

  lemma {:induction false} RequirementsComplete(vm: seq<Entry>, devices: map<string, PciDevice>,
                                                claims: map<string, string>, index: string -> seq<PciDevice>, n: string)
    requires AllKnown(vm, devices, claims) && ValidIndex(devices, index) && ValidCache(devices)
    requires n in devices && Touches(vm, devices, Key(devices[n]))
    ensures exists r :: r in Requirements(vm, devices, claims, index) && r.device == devices[n]
  {
    var init, e := vm[..|vm| - 1], vm[|vm| - 1];
    var all := Requirements(vm, devices, claims, index);
    if Key(devices[e.name]) == Key(devices[n]) {
      var key := Key(devices[e.name]);
      var found := index(key);
      assert IndexList(devices, found, key);
      assert devices[n] in found;
      var j :| 0 <= j < |found| && found[j] == devices[n];
      var block := WithOwner(found, claims[e.name]);
      assert block[j] in all && block[j].device == devices[n];
    } else {
      var i :| 0 <= i < |vm| && vm[i].name in devices && Key(devices[vm[i].name]) == Key(devices[n]);
      assert init[i] == vm[i];
      RequirementsComplete(init, devices, claims, index, n);
      var r :| r in Requirements(init, devices, claims, index) && r.device == devices[n];
      assert r in all;
    }
  }

  lemma {:induction false} MissingMembers(names: seq<string>, reqs: seq<Needed>)
    ensures forall r :: r in Missing(names, reqs) <==> r in reqs && r.device.name !in names
  {
    if reqs != [] {
      MissingMembers(names, reqs[..|reqs| - 1]);
      assert reqs == reqs[..|reqs| - 1] + [reqs[|reqs| - 1]];
    }
  }

  lemma {:induction false} ClaimsAfterKeys(claims: map<string, string>, needed: seq<Needed>)
    ensures forall n :: n in ClaimsAfter(claims, needed) <==>
      n in claims || exists r :: r in needed && r.device.name == n
    ensures forall n :: n in claims ==> n in ClaimsAfter(claims, needed) && ClaimsAfter(claims, needed)[n] == claims[n]
  {
    if needed != [] {
      ClaimsAfterKeys(claims, needed[..|needed| - 1]);
      assert needed == needed[..|needed| - 1] + [needed[|needed| - 1]];
    }
  }

  /** The host devices after the patch. */
  function PatchedVM(vm: seq<Entry>, devices: map<string, PciDevice>, claims: map<string, string>,
                     index: string -> seq<PciDevice>): seq<Entry>
    requires AllKnown(vm, devices, claims)
  {
    vm + PatchEntries(Missing(EntryNames(vm), Requirements(vm, devices, claims, index)))
  }

  function NewClaims(vm: seq<Entry>, devices: map<string, PciDevice>, claims: map<string, string>,
                     index: string -> seq<PciDevice>): map<string, string>
    requires AllKnown(vm, devices, claims)
  {
    ClaimsAfter(claims, Missing(EntryNames(vm), Requirements(vm, devices, claims, index)))
  }

  predicate Has(vm: seq<Entry>, name: string)
  {
    exists i :: 0 <= i < |vm| && vm[i].name == name
  }

  lemma EntryNamesMembers(vm: seq<Entry>)
    ensures forall n :: n in EntryNames(vm) <==> Has(vm, n)
  {
    var names := EntryNames(vm);
    forall n | Has(vm, n) ensures n in names {
      var i :| 0 <= i < |vm| && vm[i].name == n;
      assert names[i] == n;
    }
    forall n | n in names ensures Has(vm, n) {
      var i :| 0 <= i < |names| && names[i] == n;
      assert vm[i].name == n;
    }
  }

  /** An appended entry names a device of a group the machine touches. */
  lemma AppendedIsNeeded(vm: seq<Entry>, devices: map<string, PciDevice>, claims: map<string, string>,
                         index: string -> seq<PciDevice>, j: nat)
    requires AllKnown(vm, devices, claims) && ValidIndex(devices, index)
    requires |vm| <= j < |PatchedVM(vm, devices, claims, index)|
    ensures var n := PatchedVM(vm, devices, claims, index)[j].name;
      n in devices && Touches(vm, devices, Key(devices[n])) && n in NewClaims(vm, devices, claims, index)
  {
    var reqs := Requirements(vm, devices, claims, index);
    var needed := Missing(EntryNames(vm), reqs);
    var r := needed[j - |vm|];
    assert r in needed;
    assert r in reqs by {
      MissingMembers(EntryNames(vm), reqs);
    }
    RequirementsSound(vm, devices, claims, index, r);
    assert r.device.name in ClaimsAfter(claims, needed) by {
      ClaimsAfterKeys(claims, needed);
    }
  }

  /** Every device of a group the machine touches is in the patched machine. */
  lemma TouchedIsPresent(vm: seq<Entry>, devices: map<string, PciDevice>, claims: map<string, string>,
                         index: string -> seq<PciDevice>, n: string)
    requires AllKnown(vm, devices, claims) && ValidIndex(devices, index) && ValidCache(devices)
    requires n in devices && Touches(vm, devices, Key(devices[n]))
    ensures Has(PatchedVM(vm, devices, claims, index), n)
  {
    var after := PatchedVM(vm, devices, claims, index);
    EntryNamesMembers(vm);
    if Has(vm, n) {
      var i :| 0 <= i < |vm| && vm[i].name == n;
      assert after[i].name == n;
    } else {
      var reqs := Requirements(vm, devices, claims, index);
      var needed := Missing(EntryNames(vm), reqs);
      RequirementsComplete(vm, devices, claims, index, n);
      MissingMembers(EntryNames(vm), reqs);
      var r :| r in reqs && r.device == devices[n];
      assert r in needed;
      var j :| 0 <= j < |needed| && needed[j] == r;
      assert after[|vm| + j].name == n;
    }
  }

  /** The patched machine touches no group that the machine did not touch. */
  lemma NoNewGroups(vm: seq<Entry>, devices: map<string, PciDevice>, claims: map<string, string>,
                    index: string -> seq<PciDevice>, key: string)
    requires AllKnown(vm, devices, claims) && ValidIndex(devices, index)
    requires Touches(PatchedVM(vm, devices, claims, index), devices, key)
    ensures Touches(vm, devices, key)
  {
    var after := PatchedVM(vm, devices, claims, index);
    var j :| 0 <= j < |after| && after[j].name in devices && Key(devices[after[j].name]) == key;
    if j >= |vm| {
      AppendedIsNeeded(vm, devices, claims, index, j);
    } else {
      assert vm[j] == after[j];
    }
  }

  /** The patched machine is closed under "same node and IOMMU group". */
  lemma PatchedVMIsClosed(vm: seq<Entry>, devices: map<string, PciDevice>, claims: map<string, string>,
                          index: string -> seq<PciDevice>, a: string, b: string)
    requires AllKnown(vm, devices, claims) && ValidIndex(devices, index) && ValidCache(devices)
    requires Has(PatchedVM(vm, devices, claims, index), a) && a in devices && b in devices
    requires SameGroup(devices[a], devices[b])
    ensures Has(PatchedVM(vm, devices, claims, index), b)
  {
    var after := PatchedVM(vm, devices, claims, index);
    var i :| 0 <= i < |after| && after[i].name == a;
    assert Touches(after, devices, Key(devices[b]));
    NoNewGroups(vm, devices, claims, index, Key(devices[b]));
    TouchedIsPresent(vm, devices, claims, index, b);
  }

  /** Nothing is added that is not in the group of a device the machine had. */
  lemma PatchedVMIsMinimal(vm: seq<Entry>, devices: map<string, PciDevice>, claims: map<string, string>,
                           index: string -> seq<PciDevice>, n: string)
    requires AllKnown(vm, devices, claims) && ValidIndex(devices, index) && ValidCache(devices)
    requires Has(PatchedVM(vm, devices, claims, index), n) && !Has(vm, n)
    ensures n in devices && exists i :: 0 <= i < |vm| && SameGroup(devices[vm[i].name], devices[n])
  {
    var after := PatchedVM(vm, devices, claims, index);
    var j :| 0 <= j < |after| && after[j].name == n;
    assert forall k :: 0 <= k < |vm| ==> after[k] == vm[k];
    AppendedIsNeeded(vm, devices, claims, index, j);
    var i :| 0 <= i < |vm| && vm[i].name in devices && Key(devices[vm[i].name]) == Key(devices[n]);
    var d, e := devices[vm[i].name], devices[n];
    Names.NodeKeyInjective(d.node, d.group, e.node, e.group);
  }

  /** Every device of the patched machine exists and has a claim; existing claims are kept. */
  lemma PatchedVMIsClaimed(vm: seq<Entry>, devices: map<string, PciDevice>, claims: map<string, string>,
                           index: string -> seq<PciDevice>)
    requires AllKnown(vm, devices, claims) && ValidIndex(devices, index)
    ensures AllKnown(PatchedVM(vm, devices, claims, index), devices, NewClaims(vm, devices, claims, index))
    ensures forall n :: n in claims ==>
      n in NewClaims(vm, devices, claims, index) && NewClaims(vm, devices, claims, index)[n] == claims[n]
  {
    var after := PatchedVM(vm, devices, claims, index);
    ClaimsAfterKeys(claims, Missing(EntryNames(vm), Requirements(vm, devices, claims, index)));
    forall i | 0 <= i < |after| ensures Known(after[i], devices, NewClaims(vm, devices, claims, index)) {
      if i < |vm| {
        assert after[i] == vm[i];
        assert Known(vm[i], devices, claims);
      } else {
        AppendedIsNeeded(vm, devices, claims, index, i);
      }
    }
  }

  /** Running the webhook on its own result appends nothing. */
  lemma PatchIsIdempotent(vm: seq<Entry>, devices: map<string, PciDevice>, claims: map<string, string>,
                          index: string -> seq<PciDevice>)
    requires AllKnown(vm, devices, claims) && ValidIndex(devices, index) && ValidCache(devices)
    ensures var after := PatchedVM(vm, devices, claims, index);
      var claims' := NewClaims(vm, devices, claims, index);
      AllKnown(after, devices, claims') && PatchedVM(after, devices, claims', index) == after
  {
    PatchedVMIsClaimed(vm, devices, claims, index);
    var after := PatchedVM(vm, devices, claims, index);
    var claims' := NewClaims(vm, devices, claims, index);
    var reqs := Requirements(after, devices, claims', index);
    EntryNamesMembers(after);
    forall r | r in reqs ensures r.device.name in EntryNames(after) {
      RequirementsSound(after, devices, claims', index, r);
      NoNewGroups(vm, devices, claims, index, Key(r.device));
      TouchedIsPresent(vm, devices, claims, index, r.device.name);
    }
    NothingMissing(EntryNames(after), reqs);
    assert PatchEntries([]) == [];
  }

  lemma {:induction false} NothingMissing(names: seq<string>, reqs: seq<Needed>)
    requires forall r :: r in reqs ==> r.device.name in names
    ensures Missing(names, reqs) == []
  {
    if reqs != [] {
      assert reqs[|reqs| - 1] in reqs;
      NothingMissing(names, reqs[..|reqs| - 1]);
    }
  }

  // ----- how often a device is appended -----

  function Occurrences(needed: seq<Needed>, name: string): nat
  {
    if needed == [] then 0
    else Occurrences(needed[..|needed| - 1], name) + if needed[|needed| - 1].device.name == name then 1 else 0
  }

  /** How many entries of the machine are in the group with this key. */
  function Sharing(vm: seq<Entry>, devices: map<string, PciDevice>, key: string): nat
  {
    if vm == [] then 0
    else
      var e := vm[|vm| - 1];
      Sharing(vm[..|vm| - 1], devices, key) + if e.name in devices && Key(devices[e.name]) == key then 1 else 0
  }

  lemma {:induction false} OccurrencesAppend(a: seq<Needed>, b: seq<Needed>, name: string)
    ensures Occurrences(a + b, name) == Occurrences(a, name) + Occurrences(b, name)
  {
    if b == [] {
      assert a + b == a;
    } else {
      OccurrencesAppend(a, b[..|b| - 1], name);
      assert (a + b)[..|a + b| - 1] == a + b[..|b| - 1];
    }
  }

  lemma {:induction false} OccurrencesInBlock(found: seq<PciDevice>, owner: string, name: string)
    requires forall i, j :: 0 <= i < j < |found| ==> found[i].name != found[j].name
    ensures Occurrences(WithOwner(found, owner), name) == if Finds(found, name) then 1 else 0
  {
    if found != [] {
      var init := found[..|found| - 1];
      OccurrencesInBlock(init, owner, name);
      assert WithOwner(found, owner)[..|found| - 1] == WithOwner(init, owner);
      FindsLast(found, name);
    }
  }

  predicate Finds(found: seq<PciDevice>, name: string)
  {
    exists i :: 0 <= i < |found| && found[i].name == name
  }

  lemma FindsLast(found: seq<PciDevice>, name: string)
    requires found != [] && forall i, j :: 0 <= i < j < |found| ==> found[i].name != found[j].name
    ensures var init, d := found[..|found| - 1], found[|found| - 1];
      (Finds(found, name) <==> Finds(init, name) || d.name == name) && (d.name == name ==> !Finds(init, name))
  {
    var init := found[..|found| - 1];
    assert forall i :: 0 <= i < |init| ==> init[i] == found[i];
    if Finds(init, name) {
      var i :| 0 <= i < |init| && init[i].name == name;
      assert found[i].name == name;
    }
  }

  lemma FindsByKey(devices: map<string, PciDevice>, found: seq<PciDevice>, key: string, n: string)
    requires ValidCache(devices) && IndexList(devices, found, key) && n in devices
    ensures Finds(found, n) <==> Key(devices[n]) == key
  {
    if Key(devices[n]) == key {
      assert devices[n] in found;
      var i :| 0 <= i < |found| && found[i] == devices[n];
      assert found[i].name == n;
    }
    if Finds(found, n) {
      var i :| 0 <= i < |found| && found[i].name == n;
      assert found[i] in found;
    }
  }

  lemma {:induction false} OccurrencesInRequirements(vm: seq<Entry>, devices: map<string, PciDevice>,
                                                     claims: map<string, string>, index: string -> seq<PciDevice>,
                                                     n: string)
    requires AllKnown(vm, devices, claims) && ValidIndex(devices, index) && ValidCache(devices) && n in devices
    ensures Occurrences(Requirements(vm, devices, claims, index), n) == Sharing(vm, devices, Key(devices[n]))
  {
    if vm != [] {
      var init, e := vm[..|vm| - 1], vm[|vm| - 1];
      OccurrencesInRequirements(init, devices, claims, index, n);
      var key := Key(devices[e.name]);
      var found := index(key);
      assert IndexList(devices, found, key);
      OccurrencesInBlock(found, claims[e.name], n);
      OccurrencesAppend(Requirements(init, devices, claims, index), WithOwner(found, claims[e.name]), n);
      FindsByKey(devices, found, key, n);
    }
  }

  lemma {:induction false} MissingKeepsOccurrences(names: seq<string>, reqs: seq<Needed>, n: string)
    ensures Occurrences(Missing(names, reqs), n) == if n in names then 0 else Occurrences(reqs, n)
  {
    if reqs != [] {
      var init, r := reqs[..|reqs| - 1], reqs[|reqs| - 1];
      MissingKeepsOccurrences(names, init, n);
      if r.device.name !in names {
        assert Missing(names, reqs)[..|Missing(names, reqs)| - 1] == Missing(names, init);
      } else {
        assert Missing(names, reqs) == Missing(names, init);
      }
    }
  }

  /** A device that the machine lacks is appended once for every entry in its group, so possibly several times. */
  lemma AppendedOncePerSharingEntry(vm: seq<Entry>, devices: map<string, PciDevice>, claims: map<string, string>,
                                    index: string -> seq<PciDevice>, n: string)
    requires AllKnown(vm, devices, claims) && ValidIndex(devices, index) && ValidCache(devices) && n in devices
    ensures Occurrences(Missing(EntryNames(vm), Requirements(vm, devices, claims, index)), n)
         == if Has(vm, n) then 0 else Sharing(vm, devices, Key(devices[n]))
  {
    EntryNamesMembers(vm);
    MissingKeepsOccurrences(EntryNames(vm), Requirements(vm, devices, claims, index), n);
    OccurrencesInRequirements(vm, devices, claims, index, n);
  }

  // ----- when the claims can be created -----

  /** If the loop succeeds, every needed device has one claim, whatever the cache showed. */
  lemma {:induction false} ClaimAllSucceeds(claims: map<string, string>, needed: seq<Needed>, view: View)
    requires ClaimAll(claims, needed, view).1
    ensures ClaimAll(claims, needed, view).0 == ClaimsAfter(claims, needed)
  {
    if needed != [] {
      var init := needed[..|needed| - 1];
      ClaimAllSucceeds(claims, init, view);
      ClaimsAfterKeys(claims, init);
    }
  }

  /** No device without a claim is needed twice. */
  ghost predicate NeededOnce(claims: map<string, string>, needed: seq<Needed>)
  {
    forall n :: n !in claims ==> Occurrences(needed, n) <= 1
  }

  lemma {:induction false} OccursInNeeded(needed: seq<Needed>, n: string)
    ensures Occurrences(needed, n) > 0 <==> exists r :: r in needed && r.device.name == n
  {
    if needed != [] {
      OccursInNeeded(needed[..|needed| - 1], n);
      assert needed == needed[..|needed| - 1] + [needed[|needed| - 1]];
    }
  }

  /** With a cache that shows no new claim the loop succeeds exactly if no device is needed twice. */
  lemma {:induction false} StaleCacheExact(claims: map<string, string>, needed: seq<Needed>, view: View)
    requires forall k, n :: !view(k, n)
    ensures ClaimAll(claims, needed, view).1 <==> NeededOnce(claims, needed)
  {
    if needed != [] {
      var init, r := needed[..|needed| - 1], needed[|needed| - 1];
      StaleCacheExact(claims, init, view);
      OneMore(claims, needed);
      if ClaimAll(claims, init, view).1 {
        ClaimAllSucceeds(claims, init, view);
        ClaimsAfterKeys(claims, init);
        OccursInNeeded(init, r.device.name);
      }
    }
  }

  lemma OneMore(claims: map<string, string>, needed: seq<Needed>)
    requires needed != []
    ensures var init, name := needed[..|needed| - 1], needed[|needed| - 1].device.name;
      NeededOnce(claims, needed) <==> NeededOnce(claims, init) && (name in claims || Occurrences(init, name) == 0)
  {
    var init, name := needed[..|needed| - 1], needed[|needed| - 1].device.name;
    assert forall n :: Occurrences(needed, n) == Occurrences(init, n) + if name == n then 1 else 0;
  }

  /** A cache that shows more never does worse. */
  lemma {:induction false} StaleIsWorst(claims: map<string, string>, needed: seq<Needed>, stale: View, view: View)
    requires forall k, n :: !stale(k, n)
    requires ClaimAll(claims, needed, stale).1
    ensures ClaimAll(claims, needed, view) == ClaimAll(claims, needed, stale)
  {
    if needed != [] {
      StaleIsWorst(claims, needed[..|needed| - 1], stale, view);
    }
  }

  lemma AnyCacheExact(claims: map<string, string>, needed: seq<Needed>)
    ensures (forall view: View :: ClaimAll(claims, needed, view).1) <==> NeededOnce(claims, needed)
  {
    var stale: View := (k, n) => false;
    StaleCacheExact(claims, needed, stale);
    if ClaimAll(claims, needed, stale).1 {
      forall view: View ensures ClaimAll(claims, needed, view).1 {
        StaleIsWorst(claims, needed, stale, view);
      }
    }
  }

  /**
   The webhook succeeds however the cache lags if and only if no unclaimed device that the machine
   lacks shares its group with more than one of the machine's entries.
   */
  lemma AlwaysSucceedsExactly(vm: seq<Entry>, devices: map<string, PciDevice>, claims: map<string, string>,
                              index: string -> seq<PciDevice>)
    requires AllKnown(vm, devices, claims) && ValidIndex(devices, index) && ValidCache(devices)
    ensures var needed := Missing(EntryNames(vm), Requirements(vm, devices, claims, index));
      (forall view: View :: ClaimAll(claims, needed, view).1)
      <==> (forall n :: n in devices && n !in claims && !Has(vm, n) ==> Sharing(vm, devices, Key(devices[n])) <= 1)
  {
    AnyCacheExact(claims, Missing(EntryNames(vm), Requirements(vm, devices, claims, index)));
    NeededOnceExactly(vm, devices, claims, index);
  }

  lemma NeededOnceExactly(vm: seq<Entry>, devices: map<string, PciDevice>, claims: map<string, string>,
                          index: string -> seq<PciDevice>)
    requires AllKnown(vm, devices, claims) && ValidIndex(devices, index) && ValidCache(devices)
    ensures NeededOnce(claims, Missing(EntryNames(vm), Requirements(vm, devices, claims, index)))
      <==> (forall n :: n in devices && n !in claims && !Has(vm, n) ==> Sharing(vm, devices, Key(devices[n])) <= 1)
  {
    var needed := Missing(EntryNames(vm), Requirements(vm, devices, claims, index));
    forall n ensures Occurrences(needed, n) ==
      if n !in devices || Has(vm, n) then 0 else Sharing(vm, devices, Key(devices[n]))
    {
      if n in devices {
        AppendedOncePerSharingEntry(vm, devices, claims, index, n);
      } else {
        UnknownIsNotNeeded(vm, devices, claims, index, n);
      }
    }
  }

  lemma UnknownIsNotNeeded(vm: seq<Entry>, devices: map<string, PciDevice>, claims: map<string, string>,
                           index: string -> seq<PciDevice>, n: string)
    requires AllKnown(vm, devices, claims) && ValidIndex(devices, index) && n !in devices
    ensures Occurrences(Missing(EntryNames(vm), Requirements(vm, devices, claims, index)), n) == 0
  {
    var reqs := Requirements(vm, devices, claims, index);
    var needed := Missing(EntryNames(vm), reqs);
    OccursInNeeded(needed, n);
    MissingMembers(EntryNames(vm), reqs);
    forall r | r in needed ensures r.device.name != n {
      RequirementsSound(vm, devices, claims, index, r);
    }
  }
}
