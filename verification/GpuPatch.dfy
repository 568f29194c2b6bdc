/**
 The JSON Patch (RFC 6902) that is meant to move GPUs into the host device list.
 */
module GpuPatch {
  import opened Text
  import opened Machine

  /** The part of the virtual machine the patch touches; an absent list is None. */
  datatype Devices = Devices(hostDevices: Option<seq<Entry>>, gpus: Option<seq<Entry>>)

  datatype Operation =
    | AddEmptyHostDevices            // add "[]" at .../hostDevices
    | AppendHostDevice(entry: Entry) // add at .../hostDevices/-
    | RemoveGpu(index: nat)          // remove at .../gpus/<index>

  /**
   Section 4: `add` to a member creates or replaces it, `add` at `-` needs the list to exist, and
   `remove` needs its target to exist.
   */
  function Apply(d: Devices, op: Operation): Option<Devices>
  {
    match op
    case AddEmptyHostDevices => Some(d.(hostDevices := Some([])))
    case AppendHostDevice(e) =>
      if d.hostDevices.None? then None else Some(d.(hostDevices := Some(d.hostDevices.value + [e])))
    case RemoveGpu(i) =>
      if d.gpus.None? || i >= |d.gpus.value| then None
      else Some(d.(gpus := Some(d.gpus.value[..i] + d.gpus.value[i + 1..])))
  }

  /** Section 5: operations apply in order and the first failure fails the patch. */
  function ApplyAll(d: Devices, ops: seq<Operation>): Option<Devices>
  {
    if ops == [] then Some(d)
    else
      var before := ApplyAll(d, ops[..|ops| - 1]);
      if before.None? then None else Apply(before.value, ops[|ops| - 1])
  }

  /** Two operations per GPU: remove it at its original index, append it to the host devices. */
  function MoveOps(gpus: seq<Entry>): seq<Operation>
  {
    if gpus == [] then []
    else
      var k := |gpus| - 1;
      MoveOps(gpus[..k]) + [RemoveGpu(k), AppendHostDevice(gpus[k])]
  }

  function ConversionPatch(hostDevices: seq<Entry>, gpus: seq<Entry>): seq<Operation>
  {
    (if hostDevices == [] then [AddEmptyHostDevices] else []) + MoveOps(gpus)
  }

  method ConvertGPUsToHostDevices(hostDevices: seq<Entry>, gpus: seq<Entry>) returns (patch: seq<Operation>)
    ensures patch == ConversionPatch(hostDevices, gpus)
  {
    patch := [];
    if |hostDevices| == 0 {
      patch := patch + [AddEmptyHostDevices];
    }
    ghost var start := patch;
    for i := 0 to |gpus|
      invariant patch == start + MoveOps(gpus[..i])
    {
      assert gpus[..i + 1][..i] == gpus[..i];
      patch := patch + [RemoveGpu(i)];
      patch := patch + [AppendHostDevice(gpus[i])];
    }
    assert gpus[..|gpus|] == gpus;
  }

  // ----- what the patch does -----

  lemma {:induction false} ApplyAllAppend(d: Devices, a: seq<Operation>, b: seq<Operation>)
    ensures ApplyAll(d, a + b) == if ApplyAll(d, a).None? then None else ApplyAll(ApplyAll(d, a).value, b)
  {
    if b == [] {
      assert a + b == a;
    } else {
      ApplyAllAppend(d, a, b[..|b| - 1]);
      assert (a + b)[..|a + b| - 1] == a + b[..|b| - 1];
    }
  }

  /** The GPUs left after the first `k` removals: every second one is skipped over. */
  function Leftover(gpus: seq<Entry>, k: nat): seq<Entry>
    requires 2 * k <= |gpus| + 1
  {
    if k == 0 then gpus
    else
      var rest := Leftover(gpus, k - 1);
      if k - 1 < |rest| then rest[..k - 1] + rest[k..] else rest
  }

  lemma {:induction false} LeftoverLength(gpus: seq<Entry>, k: nat)
    requires 2 * k <= |gpus| + 1
    ensures |Leftover(gpus, k)| == |gpus| - k
  {
    if k > 0 {
      LeftoverLength(gpus, k - 1);
    }
  }

  lemma MovePair(d: Devices, k: nat, e: Entry)
    requires d.hostDevices.Some? && d.gpus.Some?
    ensures ApplyAll(d, [RemoveGpu(k), AppendHostDevice(e)]) ==
      if k >= |d.gpus.value| then None
      else Some(Devices(Some(d.hostDevices.value + [e]), Some(d.gpus.value[..k] + d.gpus.value[k + 1..])))
  {
    var ops := [RemoveGpu(k), AppendHostDevice(e)];
    assert ops[..1] == [RemoveGpu(k)] && [RemoveGpu(k)][..0] == [];
    assert ApplyAll(d, []) == Some(d);
    assert ApplyAll(d, [RemoveGpu(k)]) == Apply(d, RemoveGpu(k));
  }

  /** As long as removals hit, `k` of them leave `Leftover` and append the first `k` GPUs. */
  lemma {:induction false} MovePrefix(host: seq<Entry>, gpus: seq<Entry>, k: nat)
    requires 2 * k <= |gpus| + 1
    ensures ApplyAll(Devices(Some(host), Some(gpus)), MoveOps(gpus[..k])) ==
      Some(Devices(Some(host + gpus[..k]), Some(Leftover(gpus, k))))
  {
    var d := Devices(Some(host), Some(gpus));
    if k == 0 {
      assert gpus[..0] == [];
      assert host + gpus[..0] == host;
    } else {
      MovePrefix(host, gpus, k - 1);
      MoveOpsNext(gpus, k);
      ApplyAllAppend(d, MoveOps(gpus[..k - 1]), [RemoveGpu(k - 1), AppendHostDevice(gpus[k - 1])]);
      MoveNext(host, gpus, k);
    }
  }

  lemma MoveOpsNext(gpus: seq<Entry>, k: nat)
    requires 0 < k <= |gpus|
    ensures MoveOps(gpus[..k]) == MoveOps(gpus[..k - 1]) + [RemoveGpu(k - 1), AppendHostDevice(gpus[k - 1])]
  {
    assert gpus[..k][..k - 1] == gpus[..k - 1];
  }

  lemma MoveNext(host: seq<Entry>, gpus: seq<Entry>, k: nat)
    requires 0 < k && 2 * k <= |gpus| + 1
    ensures ApplyAll(Devices(Some(host + gpus[..k - 1]), Some(Leftover(gpus, k - 1))),
                     [RemoveGpu(k - 1), AppendHostDevice(gpus[k - 1])])
         == Some(Devices(Some(host + gpus[..k]), Some(Leftover(gpus, k))))
  {
    LeftoverLength(gpus, k - 1);
    MovePair(Devices(Some(host + gpus[..k - 1]), Some(Leftover(gpus, k - 1))), k - 1, gpus[k - 1]);
    assert host + gpus[..k - 1] + [gpus[k - 1]] == host + gpus[..k];
  }

  lemma {:induction false} MoveOpsPrefix(gpus: seq<Entry>, k: nat)
    requires k <= |gpus|
    ensures |MoveOps(gpus)| == 2 * |gpus|
    ensures MoveOps(gpus)[..2 * k] == MoveOps(gpus[..k])
    ensures k < |gpus| ==> MoveOps(gpus)[2 * k] == RemoveGpu(k)
  {
    if k < |gpus| {
      var init := gpus[..|gpus| - 1];
      MoveOpsPrefix(init, k);
      assert init[..k] == gpus[..k];
      var ops := MoveOps(gpus);
      assert ops[..2 * |init|] == MoveOps(init);
      assert ops[..2 * k] == MoveOps(init)[..2 * k];
    } else {
      assert gpus[..k] == gpus;
      MoveOpsLength(gpus);
    }
  }

  lemma {:induction false} MoveOpsLength(gpus: seq<Entry>)
    ensures |MoveOps(gpus)| == 2 * |gpus|
  {
    if gpus != [] {
      MoveOpsLength(gpus[..|gpus| - 1]);
    }
  }

  lemma {:induction false} FailureStays(d: Devices, ops: seq<Operation>, k: nat)
    requires k <= |ops| && ApplyAll(d, ops[..k]).None?
    ensures ApplyAll(d, ops).None?
  {
    if k < |ops| {
      assert ops[..|ops| - 1][..k] == ops[..k];
      FailureStays(d, ops[..|ops| - 1], k);
    } else {
      assert ops[..k] == ops;
    }
  }

  /** The n-th operation is the first that does not apply. */
  ghost predicate FailsAt(d: Devices, ops: seq<Operation>, n: nat)
  {
    n < |ops| && ApplyAll(d, ops[..n]).Some? && Apply(ApplyAll(d, ops[..n]).value, ops[n]).None?
  }

  lemma FailsAtFails(d: Devices, ops: seq<Operation>, n: nat)
    requires FailsAt(d, ops, n)
    ensures ApplyAll(d, ops).None?
  {
    assert ops[..n + 1][..n] == ops[..n];
    FailureStays(d, ops, n + 1);
  }

  lemma RemovalMisses(host: seq<Entry>, gpus: seq<Entry>, k: nat)
    requires |gpus| >= 2 && (2 * k == |gpus| || 2 * k == |gpus| + 1)
    ensures var ops := MoveOps(gpus);
      2 * k < |ops| && ops[2 * k] == RemoveGpu(k) && FailsAt(Devices(Some(host), Some(gpus)), ops, 2 * k)
  {
    MoveOpsPrefix(gpus, k);
    MovePrefix(host, gpus, k);
    LeftoverLength(gpus, k);
  }

  /** The first removal that misses is at half the number of GPUs, rounded up: all before it applies, and it fails. */
  lemma FirstMissingRemoval(host: seq<Entry>, gpus: seq<Entry>)
    requires |gpus| >= 2
    ensures var k := (|gpus| + 1) / 2; var d := Devices(Some(host), Some(gpus)); var ops := MoveOps(gpus);
      && 2 * k < |ops| && ops[2 * k] == RemoveGpu(k)
      && FailsAt(d, ops, 2 * k) && ApplyAll(d, ops).None?
  {
    var k := (|gpus| + 1) / 2;
    RemovalMisses(host, gpus, k);
    FailsAtFails(Devices(Some(host), Some(gpus)), MoveOps(gpus), 2 * k);
  }

  /** The document as admitted: an empty host device list may also be absent. */
  ghost predicate Represents(d: Devices, host: seq<Entry>, gpus: seq<Entry>)
  {
    d.gpus == Some(gpus) && (d.hostDevices == Some(host) || (host == [] && d.hostDevices == None))
  }

  lemma InitialAdd(d: Devices, host: seq<Entry>, gpus: seq<Entry>, ops: seq<Operation>)
    requires Represents(d, host, gpus)
    ensures ApplyAll(d, (if host == [] then [AddEmptyHostDevices] else []) + ops)
         == ApplyAll(Devices(Some(host), Some(gpus)), ops)
  {
    if host == [] {
      ApplyAllAppend(d, [AddEmptyHostDevices], ops);
      assert [AddEmptyHostDevices][..0] == [];
      assert ApplyAll(d, []) == Some(d);
    } else {
      assert [] + ops == ops;
    }
  }

  /**
   The whole patch moves every GPU, in order, to the end of the host devices exactly when there is
   at most one GPU; with two or more it does not apply.
   */
  lemma PatchAppliesForAtMostOneGpu(d: Devices, host: seq<Entry>, gpus: seq<Entry>)
    requires Represents(d, host, gpus)
    ensures ApplyAll(d, ConversionPatch(host, gpus)) ==
      if |gpus| <= 1 then Some(Devices(Some(host + gpus), Some([]))) else None
  {
    InitialAdd(d, host, gpus, MoveOps(gpus));
    if |gpus| >= 2 {
      FirstMissingRemoval(host, gpus);
    } else {
      MovePrefix(host, gpus, |gpus|);
      LeftoverLength(gpus, |gpus|);
      assert gpus[..|gpus|] == gpus;
      assert Leftover(gpus, |gpus|) == [];
    }
  }
}
