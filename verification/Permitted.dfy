/**
 KubeVirt's list of permitted PCI devices, edited in place over a shared backing array.
 */
module Permitted {
  import opened Text

  datatype Entry = Entry(selector: string, resourceName: string, external_: bool)

  predicate UniqueNames(list: seq<Entry>)
  {
    forall i, j :: 0 <= i < j < |list| ==> list[i].resourceName != list[j].resourceName
  }

  /** Position of the first entry with the resource name, or the length. */
  function Position(list: seq<Entry>, name: string): (i: nat)
    ensures i <= |list|
    ensures i < |list| ==> list[i].resourceName == name
    ensures forall j :: 0 <= j < i ==> list[j].resourceName != name
  {
    if list == [] || list[0].resourceName == name then 0 else 1 + Position(list[1..], name)
  }

  /** The list the edit leaves in the copied object. */
  function Reconciled(list: seq<Entry>, device: Entry): seq<Entry>
  {
    var i := Position(list, device.resourceName);
    if i == |list| then list + [device] else Replaced(list, i, device)
  }

  function Replaced(list: seq<Entry>, i: nat, device: Entry): seq<Entry>
    requires i < |list|
  {
    list[..i] + list[i + 1..] + [if list[i].external_ then list[|list| - 1] else device]
  }

  /**
   reconcileKubevirtCR. The copy's slice and the loop's slice share the array `kv` until `append`
   needs more room; a null array stands for absent permitted devices. The input is left alone.
   */
  method ReconcileKubevirtCR(permitted: array?<Entry>, vendorId: string, deviceId: string, resourceName: string)
    returns (result: array<Entry>)
    ensures fresh(result)
    ensures result[..] == Reconciled(if permitted == null then [] else permitted[..],
                                     Entry(vendorId + ":" + deviceId, resourceName, true))
  {
    var list: seq<Entry> := if permitted == null then [] else permitted[..];
    var device := Entry(vendorId + ":" + deviceId, resourceName, true);
    var kv := CopyOf(list);
    var i := FindPermitted(kv, resourceName);
    if i == kv.Length {
      result := AppendBeyond(kv, device);
    } else {
      Replace(kv, i, device);
      result := kv;
    }
  }

  method CopyOf(list: seq<Entry>) returns (kv: array<Entry>)
    ensures fresh(kv) && kv[..] == list
  {
    kv := new Entry[|list|](i requires 0 <= i < |list| => list[i]);
  }

  /** The found entry is cut out, and the device appended only if the entry was not external. */
  method Replace(kv: array<Entry>, i: nat, device: Entry)
    requires i < kv.Length
    modifies kv
    ensures kv[..] == Replaced(old(kv[..]), i, device)
  {
    var devPermitted := kv[i].external_;
    ShiftLeft(kv, i);
    if !devPermitted {
      AppendWithin(kv, device);
    }
    assert kv[..] == kv[..kv.Length - 1] + [kv[kv.Length - 1]];
  }

  /** `append` below capacity: the last cell of the shared array is overwritten. */
  method AppendWithin(kv: array<Entry>, device: Entry)
    requires kv.Length > 0
    modifies kv
    ensures kv[..kv.Length - 1] == old(kv[..kv.Length - 1]) && kv[kv.Length - 1] == device
  {
    kv[kv.Length - 1] := device;
  }

  method FindPermitted(kv: array<Entry>, resourceName: string) returns (i: nat)
    ensures i == Position(kv[..], resourceName)
  {
    i := 0;
    while i < kv.Length
      invariant i <= kv.Length
      invariant forall j :: 0 <= j < i ==> kv[j].resourceName != resourceName
    {
      if kv[i].resourceName == resourceName {
        break;
      }
      i := i + 1;
    }
    ghost var p := Position(kv[..], resourceName);
    assert p < kv.Length ==> kv[p].resourceName == resourceName;
  }

  /** `append` at full capacity: a new array. */
  method AppendBeyond(kv: array<Entry>, device: Entry) returns (result: array<Entry>)
    ensures fresh(result) && result[..] == kv[..] + [device]
  {
    var list := kv[..];
    result := new Entry[|list| + 1](j requires 0 <= j <= |list| => if j < |list| then list[j] else device);
  }

  /** `append(s[:i], s[i+1:]...)` within capacity: the tail moves down and the last cell keeps its value. */
  method ShiftLeft(a: array<Entry>, i: nat)
    requires i < a.Length
    modifies a
    ensures a[..a.Length - 1] == old(a[..i]) + old(a[i + 1..])
    ensures a[a.Length - 1] == old(a[a.Length - 1])
  {
    ghost var before := a[..];
    for j := i to a.Length - 1
      invariant forall k :: 0 <= k < i ==> a[k] == before[k]
      invariant forall k :: i <= k < j ==> a[k] == before[k + 1]
      invariant forall k :: j <= k < a.Length ==> a[k] == before[k]
    {
      a[j] := a[j + 1];
    }
  }

  // ----- what the edit achieves -----

  /** The entries for other resources, in order. */
  function Others(list: seq<Entry>, name: string): seq<Entry>
  {
    if list == [] then []
    else (if list[0].resourceName == name then [] else [list[0]]) + Others(list[1..], name)
  }

  /** The entries for the resource, in order. */
  function Own(list: seq<Entry>, name: string): seq<Entry>
  {
    if list == [] then []
    else (if list[0].resourceName == name then [list[0]] else []) + Own(list[1..], name)
  }

  lemma {:induction false} OthersAppend(a: seq<Entry>, b: seq<Entry>, name: string)
    ensures Others(a + b, name) == Others(a, name) + Others(b, name)
  {
    if a == [] {
      assert a + b == b;
    } else {
      OthersAppend(a[1..], b, name);
      assert (a + b)[0] == a[0] && (a + b)[1..] == a[1..] + b;
      var head := if a[0].resourceName == name then [] else [a[0]];
      Assoc(head, Others(a[1..], name), Others(b, name));
    }
  }

  lemma {:induction false} OwnAppend(a: seq<Entry>, b: seq<Entry>, name: string)
    ensures Own(a + b, name) == Own(a, name) + Own(b, name)
  {
    if a == [] {
      assert a + b == b;
    } else {
      OwnAppend(a[1..], b, name);
      assert (a + b)[0] == a[0] && (a + b)[1..] == a[1..] + b;
      var head := if a[0].resourceName == name then [a[0]] else [];
      Assoc(head, Own(a[1..], name), Own(b, name));
    }
  }

  predicate Absent(list: seq<Entry>, name: string)
  {
    forall j :: 0 <= j < |list| ==> list[j].resourceName != name
  }

  lemma {:induction false} OthersOnly(list: seq<Entry>, name: string)
    requires Absent(list, name)
    ensures Others(list, name) == list && Own(list, name) == []
  {
    if list != [] {
      OthersOnly(list[1..], name);
      assert list == [list[0]] + list[1..];
    }
  }

  lemma OthersAround(a: seq<Entry>, e: Entry, b: seq<Entry>)
    requires Absent(a, e.resourceName) && Absent(b, e.resourceName)
    ensures Others(a + [e] + b, e.resourceName) == a + b
  {
    var name := e.resourceName;
    OthersOnly(a, name);
    OthersOnly(b, name);
    OthersAppend(a + [e], b, name);
    OthersAppend(a, [e], name);
    assert Others([e], name) == [];
  }

  lemma OwnAround(a: seq<Entry>, e: Entry, b: seq<Entry>)
    requires Absent(a, e.resourceName) && Absent(b, e.resourceName)
    ensures Own(a + [e] + b, e.resourceName) == [e]
  {
    var name := e.resourceName;
    OthersOnly(a, name);
    OthersOnly(b, name);
    OwnAppend(a + [e], b, name);
    OwnAppend(a, [e], name);
    assert Own([e], name) == [e];
  }

  /** A list with unique names around the device's entry. */
  lemma SplitAtDevice(list: seq<Entry>, name: string)
    requires UniqueNames(list)
    ensures var i := Position(list, name);
      if i == |list| then Absent(list, name) && Others(list, name) == list
      else
        var kept := list[..i] + list[i + 1..];
        Absent(kept, name) && Others(list, name) == kept && Own(list, name) == [list[i]]
  {
    var i := Position(list, name);
    if i < |list| {
      assert list == list[..i] + [list[i]] + list[i + 1..];
      OthersAround(list[..i], list[i], list[i + 1..]);
      OwnAround(list[..i], list[i], list[i + 1..]);
    } else {
      OthersOnly(list, name);
    }
  }

  /** The device is listed as external, but not as the last entry. */
  predicate Misplaced(list: seq<Entry>, name: string)
  {
    var i := Position(list, name);
    i < |list| - 1 && list[i].external_
  }

  /**
   The edit does what it is for, keeping all other entries in order and leaving exactly one
   external entry for the device, if and only if the device was not external in front of others.
   */
  lemma ReconciledCorrectly(list: seq<Entry>, device: Entry)
    requires UniqueNames(list) && device.external_
    ensures var r := Reconciled(list, device); var name := device.resourceName;
      (Others(r, name) == Others(list, name) && |Own(r, name)| == 1 && Own(r, name)[0].external_)
      <==> !Misplaced(list, name)
  {
    var name := device.resourceName;
    var i := Position(list, name);
    SplitAtDevice(list, name);
    if Misplaced(list, name) {
      MisplacedLoses(list, device);
    } else if i < |list| && list[i].external_ {
      LastStays(list, i);
    } else {
      var kept := if i < |list| then list[..i] + list[i + 1..] else list;
      OthersAround(kept, device, []);
      OwnAround(kept, device, []);
      assert Reconciled(list, device) == kept + [device] + [];
    }
  }

  lemma LastStays(list: seq<Entry>, i: nat)
    requires i == |list| - 1
    ensures list[..i] + list[i + 1..] + [list[i]] == list
  {
  }

  lemma MisplacedShape(list: seq<Entry>, device: Entry)
    requires UniqueNames(list) && Misplaced(list, device.resourceName)
    ensures var i := Position(list, device.resourceName); var kept := list[..i] + list[i + 1..];
      && Reconciled(list, device) == kept + [list[|list| - 1]]
      && |kept| == |list| - 1 && kept[|kept| - 1] == list[|list| - 1]
  {
  }

  /** Otherwise the entry is lost: same length, no entry for the device, and the last entry doubled. */
  lemma MisplacedLoses(list: seq<Entry>, device: Entry)
    requires UniqueNames(list) && Misplaced(list, device.resourceName)
    ensures var r := Reconciled(list, device);
      && |r| == |list| >= 2
      && Own(r, device.resourceName) == []
      && r == Others(list, device.resourceName) + [list[|list| - 1]]
      && r[|r| - 1] == r[|r| - 2] == list[|list| - 1]
  {
    SplitAtDevice(list, device.resourceName);
    MisplacedShape(list, device);
    OthersOnly(Reconciled(list, device), device.resourceName);
  }

  /** Repeating the edit after a loss brings the entry back but keeps the doubled one. */
  lemma LossRepairedWithDuplicate(list: seq<Entry>, device: Entry)
    requires UniqueNames(list) && Misplaced(list, device.resourceName)
    ensures Reconciled(Reconciled(list, device), device) ==
      Others(list, device.resourceName) + [list[|list| - 1], device]
  {
    var r := Reconciled(list, device);
    MisplacedLoses(list, device);
    OwnEmptyMeansAbsent(r, device.resourceName);
    assert Reconciled(r, device) == r + [device];
    var others, last := Others(list, device.resourceName), list[|list| - 1];
    assert others + [last] + [device] == others + [last, device];
  }

  lemma {:induction false} OwnEmptyMeansAbsent(list: seq<Entry>, name: string)
    requires Own(list, name) == []
    ensures Position(list, name) == |list|
  {
    if list != [] {
      OwnEmptyMeansAbsent(list[1..], name);
    }
  }

  // ----- several claims -----

  /** A list that the edit for a device leaves alone ends in an entry for that device. */
  lemma FixedPointEnds(list: seq<Entry>, device: Entry)
    requires Reconciled(list, device) == list
    ensures list != [] && list[|list| - 1].resourceName == device.resourceName
  {
    var i := Position(list, device.resourceName);
    assert |list + [device]| != |list|;
    if list[i].external_ {
      TailIsConstant(list, i);
    } else {
      assert Reconciled(list, device)[|list| - 1] == device;
    }
  }

  lemma TailIsConstant(list: seq<Entry>, i: nat)
    requires i < |list| && list[..i] + list[i + 1..] + [list[|list| - 1]] == list
    ensures list[i] == list[|list| - 1]
  {
    var shifted := list[..i] + list[i + 1..] + [list[|list| - 1]];
    var k := i;
    while k < |list| - 1
      invariant i <= k < |list| && list[k] == list[i]
    {
      assert shifted[k] == list[k + 1];
      k := k + 1;
    }
  }

  /** With two claims for different resources the list never settles: one of the two edits changes it. */
  lemma NoCommonFixedPoint(list: seq<Entry>, d1: Entry, d2: Entry)
    requires d1.resourceName != d2.resourceName
    ensures Reconciled(list, d1) != list || Reconciled(list, d2) != list
  {
    if Reconciled(list, d1) == list && Reconciled(list, d2) == list {
      FixedPointEnds(list, d1);
      FixedPointEnds(list, d2);
      assert false;
    }
  }

  /** With unique names the edit changes nothing if and only if the device is external at the end of the list. */
  lemma FixedPointExactly(list: seq<Entry>, device: Entry)
    requires UniqueNames(list) && device.external_
    ensures Reconciled(list, device) == list <==>
      list != [] && list[|list| - 1].resourceName == device.resourceName && list[|list| - 1].external_
  {
    var i := Position(list, device.resourceName);
    if Reconciled(list, device) == list {
      FixedPointEnds(list, device);
      assert i == |list| - 1;
      assert Reconciled(list, device)[|list| - 1] == list[|list| - 1];
    } else if list != [] && list[|list| - 1].resourceName == device.resourceName && list[|list| - 1].external_ {
      assert i == |list| - 1;
      LastStays(list, i);
      assert false;
    }
  }
}
