/**
 Writing the allocated device names into a stopped virtual machine's specification: the entries
 are changed in place and every name is taken off its list when it is used.
 */
module SpecPatch {
  import opened Machine

  /** How many entries ask for resource `r`. */
  function Demand(entries: seq<Entry>, r: string): nat
  {
    if entries == [] then 0
    else Demand(entries[..|entries| - 1], r) + if entries[|entries| - 1].deviceName == r then 1 else 0
  }

  /** No mapped resource is asked for more often than it has names. */
  ghost predicate Covered(entries: seq<Entry>, info: map<string, seq<string>>)
  {
    forall r :: r in info ==> Demand(entries, r) <= |info[r]|
  }

  /** The k-th entry of a mapped resource gets the k-th name of its list; other entries are unchanged. */
  ghost predicate Patched(before: seq<Entry>, after: seq<Entry>, info: map<string, seq<string>>)
  {
    |after| == |before| && forall i :: 0 <= i < |before| ==> PatchedAt(before, after, info, i)
  }

  predicate PatchedAt(before: seq<Entry>, after: seq<Entry>, info: map<string, seq<string>>, i: nat)
    requires i < |before| && i < |after|
  {
    var r := before[i].deviceName;
    if r in info then
      Demand(before[..i], r) < |info[r]| && after[i] == Entry(info[r][Demand(before[..i], r)], r)
    else after[i] == before[i]
  }

  lemma {:induction false} DemandPrefix(entries: seq<Entry>, k: nat, r: string)
    requires k <= |entries|
    ensures Demand(entries[..k], r) <= Demand(entries, r)
  {
    if k < |entries| {
      DemandPrefix(entries[..|entries| - 1], k, r);
      assert entries[..|entries| - 1][..k] == entries[..k];
    } else {
      assert entries[..k] == entries;
    }
  }

  lemma DemandStep(entries: seq<Entry>, k: nat, r: string)
    requires k < |entries|
    ensures Demand(entries[..k + 1], r) == Demand(entries[..k], r) + if entries[k].deviceName == r then 1 else 0
  {
    assert entries[..k + 1][..k] == entries[..k];
  }

  /** The map keeps what the entries have not used of each list. */
  ghost predicate Unused(entries: seq<Entry>, info: map<string, seq<string>>, rest: map<string, seq<string>>)
  {
    && rest.Keys == info.Keys
    && forall r :: r in info ==> Demand(entries, r) <= |info[r]| && rest[r] == info[r][Demand(entries, r)..]
  }

  /**
   patchHostDevices and patchGPUDevices. `ok` is false when a name is taken from an empty list,
   which stops the program; `rest` is the map as the loop leaves it.
   */
  method PatchDevices(entries: array<Entry>, info: map<string, seq<string>>)
    returns (ok: bool, rest: map<string, seq<string>>)
    modifies entries
    ensures ok <==> Covered(old(entries[..]), info)
    ensures ok ==> Patched(old(entries[..]), entries[..], info)
    ensures ok ==> Unused(old(entries[..]), info, rest)
  {
    ghost var before, done := entries[..], [];
    rest := info;
    for i := 0 to entries.Length
      invariant |done| == i && entries[..] == done + before[i..]
      invariant Reached(before, done, info, rest)
    {
      assert entries[..][i] == before[i];
      if Exhausted(entries[i], rest) {
        Stuck(before, done, info, rest);
        return false, rest;
      }
      ghost var was := rest;
      rest := PatchDevice(entries, i, rest);
      Advance(before, done, info, was, entries[i], rest);
      ReplaceHead(done, before, entries[i]);
      done := done + [entries[i]];
    }
    Finished(before, done, info, rest);
    assert entries[..] == done;
    ok := true;
  }

  /** The entry asks for a mapped resource with no name left. */
  predicate Exhausted(e: Entry, info: map<string, seq<string>>)
  {
    e.deviceName in info && info[e.deviceName] == []
  }

  /** A mapped resource gives the entry the first name of its list. */
  predicate Takes(e: Entry, info: map<string, seq<string>>, e': Entry, rest: map<string, seq<string>>)
  {
    if e.deviceName !in info then e' == e && rest == info
    else
      var names := info[e.deviceName];
      names != [] && e' == Entry(names[0], e.deviceName) && rest == info[e.deviceName := names[1..]]
  }

  method PatchDevice(entries: array<Entry>, i: nat, info: map<string, seq<string>>)
    returns (rest: map<string, seq<string>>)
    requires i < entries.Length && !Exhausted(entries[i], info)
    modifies entries
    ensures entries[..] == old(entries[..])[i := entries[i]]
    ensures Takes(old(entries[i]), info, entries[i], rest)
  {
    rest := info;
    var device := entries[i];
    if device.deviceName in rest {
      var names := rest[device.deviceName];
      entries[i] := device.(name := names[0]);
      rest := rest[device.deviceName := names[1..]];
    }
  }

  /** What the loop has achieved after as many entries as are done. */
  ghost predicate Reached(before: seq<Entry>, done: seq<Entry>, info: map<string, seq<string>>,
                          rest: map<string, seq<string>>)
  {
    |done| <= |before| && Unused(before[..|done|], info, rest) && Patched(before[..|done|], done, info)
  }

  lemma Stuck(before: seq<Entry>, done: seq<Entry>, info: map<string, seq<string>>, rest: map<string, seq<string>>)
    requires Reached(before, done, info, rest) && |done| < |before| && Exhausted(before[|done|], rest)
    ensures !Covered(before, info)
  {
    DemandStep(before, |done|, before[|done|].deviceName);
    DemandPrefix(before, |done| + 1, before[|done|].deviceName);
  }

  lemma Advance(before: seq<Entry>, done: seq<Entry>, info: map<string, seq<string>>, rest: map<string, seq<string>>,
                e: Entry, rest': map<string, seq<string>>)
    requires Reached(before, done, info, rest) && |done| < |before| && Takes(before[|done|], rest, e, rest')
    ensures Reached(before, done + [e], info, rest')
  {
    UnusedStep(before, |done|, info, rest, e, rest');
    PatchedStep(before, done, e, info);
  }

  lemma UnusedStep(before: seq<Entry>, i: nat, info: map<string, seq<string>>, rest: map<string, seq<string>>,
                   e: Entry, rest': map<string, seq<string>>)
    requires i < |before| && Unused(before[..i], info, rest) && Takes(before[i], rest, e, rest')
    ensures Unused(before[..i + 1], info, rest')
  {
    forall r ensures Demand(before[..i + 1], r) == Demand(before[..i], r) + if before[i].deviceName == r then 1 else 0 {
      DemandStep(before, i, r);
    }
  }

  lemma Finished(before: seq<Entry>, done: seq<Entry>, info: map<string, seq<string>>, rest: map<string, seq<string>>)
    requires Reached(before, done, info, rest) && |done| == |before|
    ensures Covered(before, info) && Patched(before, done, info) && Unused(before, info, rest)
  {
    assert before[..|done|] == before;
  }

  lemma ReplaceHead(done: seq<Entry>, before: seq<Entry>, e: Entry)
    requires |done| < |before|
    ensures (done + before[|done|..])[|done| := e] == done + [e] + before[|done| + 1..]
  {
  }

  lemma PatchedStep(before: seq<Entry>, done: seq<Entry>, e: Entry, info: map<string, seq<string>>)
    requires |done| < |before| && Patched(before[..|done|], done, info)
    requires PatchedAt(before, done + [e], info, |done|)
    ensures Patched(before[..|done| + 1], done + [e], info)
  {
    var i := |done|;
    var b := before[..i + 1];
    forall j | 0 <= j <= i ensures PatchedAt(b, done + [e], info, j) {
      assert b[..j] == before[..j];
      if j < i {
        assert before[..i][..j] == before[..j];
        assert PatchedAt(before[..i], done, info, j);
      }
    }
  }

  /** All names in the map are different, within a list and between lists. */
  ghost predicate DistinctNames(info: map<string, seq<string>>)
  {
    forall r, s, i, j ::
      r in info && s in info && 0 <= i < |info[r]| && 0 <= j < |info[s]| && info[r][i] == info[s][j] ==>
      r == s && i == j
  }

  /** Distinct names in the map give distinct names to the entries of mapped resources. */
  lemma DistinctNamesOut(before: seq<Entry>, after: seq<Entry>, info: map<string, seq<string>>, i: nat, j: nat)
    requires Patched(before, after, info) && DistinctNames(info)
    requires i < j < |before| && before[i].deviceName in info && before[j].deviceName in info
    ensures after[i].name != after[j].name
  {
    var r, s := before[i].deviceName, before[j].deviceName;
    assert PatchedAt(before, after, info, i) && PatchedAt(before, after, info, j);
    if r == s {
      DemandStep(before, i, r);
      DemandPrefix(before[..j], i + 1, r);
      assert before[..j][..i + 1] == before[..i + 1];
      assert Demand(before[..i], r) != Demand(before[..j], s);
    }
  }

  /** Patching never changes which resource an entry asks for. */
  lemma DemandKept(before: seq<Entry>, after: seq<Entry>, info: map<string, seq<string>>, r: string)
    requires Patched(before, after, info)
    ensures Demand(after, r) == Demand(before, r)
  {
    var k := |before|;
    DemandKeptPrefix(before, after, info, r, k);
    assert before[..k] == before && after[..k] == after;
  }

  lemma {:induction false} DemandKeptPrefix(before: seq<Entry>, after: seq<Entry>, info: map<string, seq<string>>,
                                            r: string, k: nat)
    requires Patched(before, after, info) && k <= |before|
    ensures Demand(after[..k], r) == Demand(before[..k], r)
  {
    if k > 0 {
      DemandKeptPrefix(before, after, info, r, k - 1);
      assert PatchedAt(before, after, info, k - 1);
      DemandStep(before, k - 1, r);
      DemandStep(after, k - 1, r);
    }
  }
}
