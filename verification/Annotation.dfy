/**
 The device allocation annotation of a stopped virtual machine: rebuilding it from the
 specification with a JSON Patch, and the index that reads it.
 */
module Annotation {
  import opened Text
  import opened JsonPointer
  import opened Machine

  datatype Details = Details(hostDevices: map<string, seq<string>>, gpus: map<string, seq<string>>)

  datatype VM = VM(annotations: map<string, string>, hostDevices: seq<Entry>)

  /** JSON encoding of the details. */
  datatype Codec = Codec(marshal: Details -> string, unmarshal: string -> Option<Details>)
  {
    ghost predicate Lossless() { forall d :: unmarshal(marshal(d)) == Some(d) }
  }

  /** The tokens in front of an annotation key. */
  const ANNOTATIONS := ["", "metadata", "annotations"]

  datatype Operation = Remove(path: string) | Replace(path: string, value: string)

  // ----- the patch -----

  /** The names of the entries that ask for resource `r`, in order. */
  function NamesFor(entries: seq<Entry>, r: string): seq<string>
  {
    if entries == [] then []
    else
      var e := entries[|entries| - 1];
      NamesFor(entries[..|entries| - 1], r) + if e.deviceName == r then [e.name] else []
  }

  function Resources(entries: seq<Entry>): set<string>
  {
    set i | 0 <= i < |entries| :: entries[i].deviceName
  }

  /** The host devices of the specification, grouped by resource. */
  function Grouped(entries: seq<Entry>): map<string, seq<string>>
  {
    map r | r in Resources(entries) :: NamesFor(entries, r)
  }

  method GroupHostDevices(entries: seq<Entry>) returns (m: map<string, seq<string>>)
    ensures m == Grouped(entries)
  {
    m := map[];
    for k := 0 to |entries|
      invariant m == Grouped(entries[..k])
    {
      var e := entries[k];
      assert entries[..k + 1] == entries[..k] + [e];
      GroupedStep(entries[..k], e);
      m := m[e.deviceName := (if e.deviceName in m then m[e.deviceName] else []) + [e.name]];
    }
    assert entries[..|entries|] == entries;
  }

  lemma GroupedStep(entries: seq<Entry>, e: Entry)
    ensures var m := Grouped(entries);
      Grouped(entries + [e]) == m[e.deviceName := (if e.deviceName in m then m[e.deviceName] else []) + [e.name]]
  {
    var next := entries + [e];
    assert next[..|entries|] == entries && next[|entries|] == e;
    assert Resources(next) == Resources(entries) + {e.deviceName} by {
      assert forall i :: 0 <= i < |entries| ==> next[i] == entries[i];
    }
    forall r ensures NamesFor(next, r) == NamesFor(entries, r) + if e.deviceName == r then [e.name] else [] {
    }
    var m := Grouped(entries);
    if e.deviceName !in m {
      AbsentHasNoNames(entries, e.deviceName);
    }
    assert NamesFor(next, e.deviceName) == (if e.deviceName in m then m[e.deviceName] else []) + [e.name];
    assert forall r :: r in m && r != e.deviceName ==> NamesFor(next, r) == m[r];
  }

  lemma {:induction false} AbsentHasNoNames(entries: seq<Entry>, r: string)
    requires r !in Resources(entries)
    ensures NamesFor(entries, r) == []
  {
    if entries != [] {
      assert entries[|entries| - 1].deviceName in Resources(entries);
      assert forall i :: 0 <= i < |entries| - 1 ==> entries[..|entries| - 1][i] == entries[i];
      AbsentHasNoNames(entries[..|entries| - 1], r);
    }
  }

  /** The path "/metadata/annotations/<escaped key>". */
  function AnnotationPath(key: string): string
  {
    Join(ANNOTATIONS + [EscapeJSONPointer(key)], '/')
  }

  function NewValue(vm: VM, codec: Codec): string
  {
    codec.marshal(Details(Grouped(vm.hostDevices), map[]))
  }

  function AnnotationPatch(vm: VM, key: string, running: bool, codec: Codec): seq<Operation>
  {
    if key !in vm.annotations || running then []
    else if vm.hostDevices == [] then [Remove(AnnotationPath(key))]
    else if NewValue(vm, codec) == vm.annotations[key] then []
    else [Replace(AnnotationPath(key), NewValue(vm, codec))]
  }

  method ReconcileDeviceAllocationAnnotation(vm: VM, key: string, running: bool, codec: Codec)
    returns (ops: seq<Operation>)
    ensures ops == AnnotationPatch(vm, key, running, codec)
  {
    if key !in vm.annotations {
      return [];
    }
    if running {
      return [];
    }
    var newHostDevices := GroupHostDevices(vm.hostDevices);
    assert vm.hostDevices != [] ==> vm.hostDevices[0].deviceName in newHostDevices;
    if |newHostDevices| == 0 {
      return [Remove(AnnotationPath(key))];
    }
    var newVal := codec.marshal(Details(newHostDevices, map[]));
    if newVal == vm.annotations[key] {
      return [];
    }
    return [Replace(AnnotationPath(key), newVal)];
  }

  // ----- applying it (RFC 6902, with paths as in RFC 6901) -----

  /** The annotation key that a pointer addresses. */
  function AddressedKey(path: string): Option<string>
  {
    var tokens := SplitOn(path, '/');
    if |tokens| == 4 && tokens[..3] == ANNOTATIONS then Some(Unescape(tokens[3])) else None
  }

  /** `remove` and `replace` need their target to exist. */
  function Apply(annotations: map<string, string>, op: Operation): Option<map<string, string>>
  {
    var key := AddressedKey(op.path);
    if key.None? || key.value !in annotations then None
    else if op.Remove? then Some(annotations - {key.value})
    else Some(annotations[key.value := op.value])
  }

  function ApplyAll(annotations: map<string, string>, ops: seq<Operation>): Option<map<string, string>>
  {
    if ops == [] then Some(annotations)
    else
      var first := Apply(annotations, ops[0]);
      if first.None? then None else ApplyAll(first.value, ops[1..])
  }

  /** The path as it is written. */
  lemma PathExactly(key: string)
    ensures AnnotationPath(key) == "/metadata/annotations/" + EscapeJSONPointer(key)
  {
    JoinFour("", "metadata", "annotations", EscapeJSONPointer(key));
    assert ANNOTATIONS + [EscapeJSONPointer(key)] == ["", "metadata", "annotations", EscapeJSONPointer(key)];
  }

  lemma JoinFour(a: string, b: string, c: string, d: string)
    ensures Join([a, b, c, d], '/') == a + "/" + b + "/" + c + "/" + d
  {
    JoinCons(c, [d], '/');
    JoinCons(b, [c, d], '/');
    JoinCons(a, [b, c, d], '/');
    assert [c, d] == [c] + [d] && [b, c, d] == [b] + [c, d] && [a, b, c, d] == [a] + [b, c, d];
  }

  /** For every annotation key, the escaped path addresses exactly that key. */
  lemma PathAddressesKey(key: string)
    ensures AddressedKey(AnnotationPath(key)) == Some(key)
  {
    var token := EscapeJSONPointer(key);
    EscapedIsToken(key);
    TokenHasNoSlash(token);
    UnescapeEscape(key);
    var parts := ANNOTATIONS + [token];
    SplitOnJoin(parts, '/');
    assert parts[..3] == ANNOTATIONS;
  }

  // ----- the index -----

  function Concatenated(m: map<string, seq<string>>, order: seq<string>): seq<string>
  {
    if order == [] then []
    else
      var r := order[|order| - 1];
      Concatenated(m, order[..|order| - 1]) + if r in m then m[r] else []
  }

  /** All device names of an allocation, in the order in which the map happens to be visited. */
  method GenerateDeviceInfo(devices: map<string, seq<string>>) returns (all: seq<string>)
    ensures exists order :: Enumerates(order, devices.Keys) && all == Concatenated(devices, order)
  {
    all := [];
    ghost var order: seq<string> := [];
    var todo := devices.Keys;
    while todo != {}
      invariant todo <= devices.Keys
      invariant forall i, j :: 0 <= i < j < |order| ==> order[i] != order[j]
      invariant forall k :: k in order <==> k in devices.Keys - todo
      invariant all == Concatenated(devices, order)
      decreases |todo|
    {
      var r :| r in todo;
      assert r !in order && (order + [r])[..|order|] == order;
      assert forall k :: k in order + [r] <==> k in order || k == r;
      all, order, todo := all + devices[r], order + [r], todo - {r};
    }
  }

  /** The indexed names of a machine, or None if the annotation cannot be decoded. */
  function IndexedNames(vm: VM, key: string, codec: Codec, order: seq<string>): Option<seq<string>>
  {
    if key !in vm.annotations then Some([])
    else
      var details := codec.unmarshal(vm.annotations[key]);
      if details.None? then None else Some(Concatenated(details.value.hostDevices, order))
  }

  // ----- agreement -----

  /** The names of the entries whose resource is in `rs`, in order. */
  function NamesAmong(entries: seq<Entry>, rs: set<string>): seq<string>
  {
    if entries == [] then []
    else
      var e := entries[|entries| - 1];
      NamesAmong(entries[..|entries| - 1], rs) + if e.deviceName in rs then [e.name] else []
  }

  lemma {:induction false} NamesAmongStep(entries: seq<Entry>, rs: set<string>, r: string)
    requires r !in rs
    ensures multiset(NamesAmong(entries, rs + {r}))
      == multiset(NamesAmong(entries, rs)) + multiset(NamesFor(entries, r))
  {
    if entries != [] {
      NamesAmongStep(entries[..|entries| - 1], rs, r);
    }
  }

  lemma {:induction false} NamesAmongAll(entries: seq<Entry>, rs: set<string>)
    requires Resources(entries) <= rs
    ensures NamesAmong(entries, rs) == EntryNames(entries)
  {
    if entries != [] {
      var init := entries[..|entries| - 1];
      assert forall i :: 0 <= i < |init| ==> init[i] == entries[i] && entries[i].deviceName in Resources(entries);
      assert entries[|entries| - 1].deviceName in Resources(entries);
      NamesAmongAll(init, rs);
      assert EntryNames(entries) == EntryNames(init) + [entries[|entries| - 1].name];
    }
  }

  lemma NamesAmongNone(entries: seq<Entry>)
    ensures NamesAmong(entries, {}) == []
  {
    if entries != [] {
      NamesAmongNone(entries[..|entries| - 1]);
    }
  }

  lemma ConcatenatedStep(entries: seq<Entry>, init: seq<string>, r: string)
    requires r in Resources(entries)
    ensures multiset(Concatenated(Grouped(entries), init + [r]))
         == multiset(Concatenated(Grouped(entries), init)) + multiset(NamesFor(entries, r))
  {
    assert (init + [r])[..|init|] == init;
  }

  function Members(order: seq<string>): set<string>
  {
    set k | k in order
  }

  lemma LastMember(order: seq<string>)
    requires order != [] && forall i, j :: 0 <= i < j < |order| ==> order[i] != order[j]
    ensures var init, r := order[..|order| - 1], order[|order| - 1];
      order == init + [r] && r !in Members(init) && Members(order) == Members(init) + {r}
  {
    var init := order[..|order| - 1];
    assert order == init + [order[|order| - 1]];
  }

  /** Visiting the groups in any order yields each entry's name exactly once. */
  lemma {:induction false} ConcatenatedNames(entries: seq<Entry>, order: seq<string>)
    requires forall i, j :: 0 <= i < j < |order| ==> order[i] != order[j]
    requires Members(order) <= Resources(entries)
    ensures multiset(Concatenated(Grouped(entries), order)) == multiset(NamesAmong(entries, Members(order)))
  {
    if order == [] {
      NamesAmongNone(entries);
      assert Members(order) == {};
    } else {
      var init, r := order[..|order| - 1], order[|order| - 1];
      LastMember(order);
      ConcatenatedNames(entries, init);
      NamesAmongStep(entries, Members(init), r);
      ConcatenatedStep(entries, init, r);
    }
  }

  lemma GroupedAgrees(entries: seq<Entry>, order: seq<string>)
    requires Enumerates(order, Grouped(entries).Keys)
    ensures multiset(Concatenated(Grouped(entries), order)) == multiset(EntryNames(entries))
  {
    assert Grouped(entries).Keys == Resources(entries);
    ConcatenatedNames(entries, order);
    NamesAmongAll(entries, Members(order));
  }

  lemma ApplySingle(annotations: map<string, string>, op: Operation)
    ensures ApplyAll(annotations, [op]) == Apply(annotations, op)
  {
    assert [op][1..] == [];
  }

  /** What the patch leaves of the annotations: those of a running machine stay as they are. */
  lemma PatchedAnnotations(vm: VM, key: string, running: bool, codec: Codec)
    ensures ApplyAll(vm.annotations, AnnotationPatch(vm, key, running, codec)) ==
      Some(if key !in vm.annotations || running then vm.annotations
           else if vm.hostDevices == [] then vm.annotations - {key}
           else vm.annotations[key := NewValue(vm, codec)])
  {
    PathAddressesKey(key);
    ApplySingle(vm.annotations, Remove(AnnotationPath(key)));
    ApplySingle(vm.annotations, Replace(AnnotationPath(key), NewValue(vm, codec)));
    if key in vm.annotations && NewValue(vm, codec) == vm.annotations[key] {
      assert vm.annotations[key := NewValue(vm, codec)] == vm.annotations;
    }
  }

  /**
   After the patch, the names indexed from the annotation are, as a multiset, the host device
   names of the specification, whether the annotation was removed, replaced or left alone; no
   other annotation changes.
   */
  lemma AnnotationAgreesWithSpec(vm: VM, key: string, codec: Codec, order: seq<string>)
    requires codec.Lossless() && key in vm.annotations
    requires Enumerates(order, Resources(vm.hostDevices))
    ensures var patched := ApplyAll(vm.annotations, AnnotationPatch(vm, key, false, codec));
      && patched.Some? && patched.value - {key} == vm.annotations - {key}
      && var names := IndexedNames(VM(patched.value, vm.hostDevices), key, codec, order);
      && names.Some? && multiset(names.value) == multiset(EntryNames(vm.hostDevices))
  {
    PatchedAnnotations(vm, key, false, codec);
    if vm.hostDevices != [] {
      GroupedAgrees(vm.hostDevices, order);
    }
  }

  /**
   There is nothing to patch if and only if the machine has no such annotation, is running, or asks
   for devices that the annotation already shows.
   */
  lemma NoPatchExactly(vm: VM, key: string, running: bool, codec: Codec)
    ensures AnnotationPatch(vm, key, running, codec) == [] <==>
      || key !in vm.annotations || running
      || (vm.hostDevices != [] && vm.annotations[key] == codec.marshal(Details(Grouped(vm.hostDevices), map[])))
  {
  }
}
