/**
 What the controller records for an allocation: when a name is empty, when one is recorded twice,
 and when the names are enough for the machine's entries.
 */
module Recording {
  import opened Text
  import opened Machine
  import opened Allocation
  import SpecPatch

  /** The names recorded for a container's request. */
  function Recorded(groups: map<string, string>, r: Request, table: map<string, string>): seq<string>
  {
    Compact(PciNames(ValueOf(groups, r), table))
  }

  /** They are what is read from the pod's environment, whatever else that contains. */
  lemma RecordedFromPod(groups: map<string, string>, r: Request, table: map<string, string>,
                        before: seq<string>, key: string, after: seq<string>)
    requires Possible(groups, r) && CleanAddresses(groups) && '=' !in key && OneLine(key)
    requires forall i :: 0 <= i < |before| ==> OneLine(before[i])
    requires forall i :: 0 <= i < |after| ==> OneLine(after[i]) && EnvEntry(after[i]).0 != key
    ensures RecordedNames(FileText(before + [key + "=" + ValueOf(groups, r)] + after), key, table)
         == Recorded(groups, r, table)
  {
    if Names(groups, r) {
      ValueReadBack(groups, r.ids, r.orders, table);
    } else {
      NothingAllocated(groups, r.ids, r.orders);
    }
    EnvRoundTrip(before, key, ValueOf(groups, r), after);
  }

  // ----- empty names -----

  /** The table has no name for the address. */
  predicate Nameless(table: map<string, string>, a: string) { a !in table || table[a] == "" }

  /**
   An empty name is recorded if and only if the table has no name for some address of the closure,
   or no requested ID is known and it has none for the empty address.
   */
  lemma EmptyNameExactly(groups: map<string, string>, r: Request, table: map<string, string>)
    requires Possible(groups, r) && CleanAddresses(groups)
    ensures "" in Recorded(groups, r, table) <==>
      if Names(groups, r) then exists a :: InClosure(a, groups, r.ids) && Nameless(table, a) else Nameless(table, "")
  {
    if Names(groups, r) {
      ValueReadBack(groups, r.ids, r.orders, table);
      NamesOfClosure(groups, r.ids, r.orders, table);
      assert forall a :: Nameless(table, a) <==> Lookup(table, a) == "";
    } else {
      NothingAllocated(groups, r.ids, r.orders);
      SplitOnNone("", ',');
      assert Recorded(groups, r, table) == [Lookup(table, "")];
    }
  }

  // ----- duplicates -----

  predicate NoDuplicates(s: seq<string>)
  {
    forall i, j :: 0 <= i < j < |s| ==> s[i] != s[j]
  }

  /** The requested devices are alone in their groups. */
  ghost predicate Alone(groups: map<string, string>, ids: seq<string>)
  {
    forall i, a :: 0 <= i < |ids| && ids[i] in groups && a in groups && groups[a] == groups[ids[i]] ==> a == ids[i]
  }

  /** The table tells the devices of the closure apart. */
  ghost predicate TellsApart(table: map<string, string>, groups: map<string, string>, ids: seq<string>)
  {
    && (forall a :: InClosure(a, groups, ids) ==> a in table)
    && (forall a, b :: InClosure(a, groups, ids) && InClosure(b, groups, ids) && table[a] == table[b] ==> a == b)
  }

  lemma Enumeration(keys: set<string>) returns (order: seq<string>)
    ensures Enumerates(order, keys)
    decreases |keys|
  {
    if keys == {} {
      order := [];
    } else {
      var k :| k in keys;
      var rest := Enumeration(keys - {k});
      order := [k] + rest;
    }
  }

  /** An order that visits `a` first and `b` second. */
  lemma EnumerationFrom(a: string, b: string, keys: set<string>) returns (rest: seq<string>)
    requires a in keys && b in keys && a != b
    ensures Enumerates([a, b] + rest, keys)
  {
    rest := Enumeration(keys - {a, b});
  }

  lemma {:induction false} CompactHead(s: seq<string>)
    requires s != []
    ensures Compact(s) != [] && Compact(s)[0] == s[0]
  {
    if |s| >= 2 && s[0] == s[1] {
      CompactHead(s[1..]);
    }
  }

  lemma CompactCons(x: string, s: seq<string>)
    requires s != []
    ensures Compact([x] + s) == if x == s[0] then Compact(s) else [x] + Compact(s)
  {
    assert ([x] + s)[1..] == s;
  }

  lemma CompactTripleHead(x: string, y: string, b: seq<string>)
    requires x != y
    ensures var c := Compact([x, y, x] + b); 2 < |c| && c[0] == x && c[1] == y && c[2] == x
  {
    var one := [x] + b;
    var two := [y] + one;
    assert [x, y, x] + b == [x] + two;
    CompactHead(one);
    CompactCons(y, one);
    CompactCons(x, two);
  }

  /** Neighbours that differ stay neighbours. */
  lemma {:induction false} CompactTriple(a: seq<string>, x: string, y: string, b: seq<string>) returns (k: nat)
    requires x != y
    ensures var c := Compact(a + ([x, y, x] + b));
      k + 2 < |c| && c[k] == x && c[k + 1] == y && c[k + 2] == x
  {
    var triple := [x, y, x] + b;
    if a == [] {
      CompactTripleHead(x, y, b);
      assert a + triple == triple;
      k := 0;
    } else {
      var rest := a[1..] + triple;
      var j := CompactTriple(a[1..], x, y, b);
      CompactCons(a[0], rest);
      assert a + triple == [a[0]] + rest;
      k := if a[0] == rest[0] then j else j + 1;
    }
  }

  lemma {:induction false} AllocatedConcat(groups: map<string, string>, ids: seq<string>, orders: seq<seq<string>>,
                                           ids': seq<string>, orders': seq<seq<string>>)
    requires |orders| == |ids| && |orders'| == |ids'|
    ensures Allocated(groups, ids + ids', orders + orders')
      == Allocated(groups, ids, orders) + Allocated(groups, ids', orders')
    decreases |ids|
  {
    if ids == [] {
      assert ids + ids' == ids' && orders + orders' == orders';
    } else {
      var head := AllocatedFor(groups, ids[0], orders[0]);
      assert (ids + ids')[1..] == ids[1..] + ids' && (orders + orders')[1..] == orders[1..] + orders';
      AllocatedConcat(groups, ids[1..], orders[1..], ids', orders');
      Assoc(head, Allocated(groups, ids[1..], orders[1..]), Allocated(groups, ids', orders'));
    }
  }

  lemma PairAllocated(groups: map<string, string>, id: string, a: string, rest: seq<string>) returns (tail: seq<string>)
    requires id in groups && a in groups && groups[a] == groups[id]
    ensures AllocatedFor(groups, id, [a, id] + rest) == [id, a, id] + tail
  {
    tail := GroupMembers(rest, groups, groups[id]);
    var pair := [id] + rest;
    assert [a, id] + rest == [a] + pair;
    MemberFirst(groups, a, pair);
    MemberFirst(groups, id, rest);
    var members := GroupMembers(pair, groups, groups[id]);
    assert [id] + ([a] + members) == [id, a, id] + tail;
  }

  lemma MemberFirst(groups: map<string, string>, a: string, rest: seq<string>)
    requires a in groups
    ensures GroupMembers([a] + rest, groups, groups[a]) == [a] + GroupMembers(rest, groups, groups[a])
  {
    assert ([a] + rest)[1..] == rest;
  }

  /** A group of two shows: there is an order that lists the requested device, the other one and it again. */
  lemma SharedGroupTriple(groups: map<string, string>, ids: seq<string>, i: nat, a: string)
    returns (orders: seq<seq<string>>, left: seq<string>, right: seq<string>)
    requires i < |ids| && ids[i] in groups && a in groups && a != ids[i] && groups[a] == groups[ids[i]]
    ensures |orders| == |ids| && forall j :: 0 <= j < |orders| ==> Enumerates(orders[j], groups.Keys)
    ensures Allocated(groups, ids, orders) == left + ([ids[i], a, ids[i]] + right)
  {
    var id := ids[i];
    var any := Enumeration(groups.Keys);
    var rest := EnumerationFrom(a, id, groups.Keys);
    var first := [a, id] + rest;
    var tail := PairAllocated(groups, id, a, rest);
    var before, after := seq(i, _ => any), seq(|ids| - i - 1, _ => any);
    orders := before + ([first] + after);
    assert forall j :: 0 <= j < |orders| ==> orders[j] == if j == i then first else any;
    AllocatedAround(groups, ids, i, before, first, after);
    left, right := Allocated(groups, ids[..i], before), tail + Allocated(groups, ids[i + 1..], after);
    Assoc([id, a, id], tail, Allocated(groups, ids[i + 1..], after));
  }

  lemma AllocatedAround(groups: map<string, string>, ids: seq<string>, i: nat, before: seq<seq<string>>,
                        first: seq<string>, after: seq<seq<string>>)
    requires i < |ids| && |before| == i && |after| == |ids| - i - 1
    ensures Allocated(groups, ids, before + ([first] + after)) == Allocated(groups, ids[..i], before)
      + (AllocatedFor(groups, ids[i], first) + Allocated(groups, ids[i + 1..], after))
  {
    var left, right := ids[..i], ids[i + 1..];
    var whole := left + ([ids[i]] + right);
    AllocatedMiddle(groups, left, before, ids[i], first, right, after);
    var orders := before + ([first] + after);
    assert Allocated(groups, ids, orders) == Allocated(groups, whole, orders) by {
      SplitAt(ids, i);
    }
  }

  lemma SplitAt(s: seq<string>, i: nat)
    requires i < |s|
    ensures s == s[..i] + ([s[i]] + s[i + 1..])
  {
  }

  lemma AllocatedMiddle(groups: map<string, string>, ids: seq<string>, orders: seq<seq<string>>, id: string,
                        order: seq<string>, ids': seq<string>, orders': seq<seq<string>>)
    requires |orders| == |ids| && |orders'| == |ids'|
    ensures Allocated(groups, ids + ([id] + ids'), orders + ([order] + orders'))
      == Allocated(groups, ids, orders) + (AllocatedFor(groups, id, order) + Allocated(groups, ids', orders'))
  {
    AllocatedConcat(groups, ids, orders, [id] + ids', [order] + orders');
    assert ([id] + ids')[1..] == ids' && ([order] + orders')[1..] == orders';
  }

  lemma LookupTriple(table: map<string, string>, s: seq<string>, k: nat)
    requires k + 2 < |s|
    ensures LookupAll(table, s) == LookupAll(table, s[..k])
      + ([Lookup(table, s[k]), Lookup(table, s[k + 1]), Lookup(table, s[k + 2])] + LookupAll(table, s[k + 3..]))
  {
  }

  /** Then a name is recorded twice. */
  lemma TripleIsDuplicate(table: map<string, string>, left: seq<string>, x: string, y: string, right: seq<string>)
    requires Lookup(table, x) != Lookup(table, y)
    ensures !NoDuplicates(Compact(LookupAll(table, Compact(left + ([x, y, x] + right)))))
  {
    var l := Compact(left + ([x, y, x] + right));
    var k := CompactTriple(left, x, y, right);
    LookupTriple(table, l, k);
    var j := CompactTriple(LookupAll(table, l[..k]), Lookup(table, x), Lookup(table, y), LookupAll(table, l[k + 3..]));
    var c := Compact(LookupAll(table, l));
    assert c[j] == c[j + 2];
  }

  lemma AloneHasNoDuplicates(groups: map<string, string>, r: Request, table: map<string, string>)
    requires Possible(groups, r) && CleanAddresses(groups) && r.ids != []
    requires NoDuplicates(r.ids) && forall i :: 0 <= i < |r.ids| ==> r.ids[i] in groups
    requires Alone(groups, r.ids) && TellsApart(table, groups, r.ids)
    ensures NoDuplicates(Recorded(groups, r, table))
  {
    var ids := r.ids;
    assert ids[0] in groups;
    ValueReadBack(groups, ids, r.orders, table);
    AllocatedSingletons(groups, ids, r.orders);
    TableOnIds(table, groups, ids);
    NamesOfDoubled(ids, table);
  }

  lemma TableOnIds(table: map<string, string>, groups: map<string, string>, ids: seq<string>)
    requires NoDuplicates(ids) && (forall i :: 0 <= i < |ids| ==> ids[i] in groups) && TellsApart(table, groups, ids)
    ensures forall i :: 0 <= i < |ids| ==> ids[i] in table
    ensures forall i, j :: 0 <= i < j < |ids| ==> table[ids[i]] != table[ids[j]]
  {
    assert forall i :: 0 <= i < |ids| ==> InClosure(ids[i], groups, ids);
  }

  /**
   The recorded names are free of duplicates for every order of visiting the plugin's map if and
   only if the requested devices are alone in their groups.
   */
  lemma NoDuplicatesExactly(groups: map<string, string>, ids: seq<string>, table: map<string, string>)
    requires CleanAddresses(groups) && ids != [] && NoDuplicates(ids)
    requires (forall i :: 0 <= i < |ids| ==> ids[i] in groups) && TellsApart(table, groups, ids)
    ensures (forall orders :: |orders| == |ids| && Possible(groups, ContainerRequest(ids, orders)) ==>
        NoDuplicates(Recorded(groups, ContainerRequest(ids, orders), table)))
      <==> Alone(groups, ids)
  {
    if Alone(groups, ids) {
      forall orders | |orders| == |ids| && Possible(groups, ContainerRequest(ids, orders))
        ensures NoDuplicates(Recorded(groups, ContainerRequest(ids, orders), table))
      {
        AloneHasNoDuplicates(groups, ContainerRequest(ids, orders), table);
      }
    } else {
      var i, a :| 0 <= i < |ids| && a in groups && groups[a] == groups[ids[i]] && a != ids[i];
      var orders, left, right := SharedGroupTriple(groups, ids, i, a);
      var r: Request := ContainerRequest(ids, orders);
      assert Names(groups, r);
      ValueReadBack(groups, ids, orders, table);
      assert InClosure(ids[i], groups, ids) && InClosure(a, groups, ids);
      TripleIsDuplicate(table, left, ids[i], a, right);
      assert !NoDuplicates(Recorded(groups, r, table));
    }
  }

  // ----- enough names -----

  /** No two neighbours are equal. */
  predicate Steady(s: seq<string>)
  {
    forall i :: 0 <= i < |s| - 1 ==> s[i] != s[i + 1]
  }

  lemma SteadyCons(s: seq<string>)
    requires |s| >= 2
    ensures Steady(s) <==> s[0] != s[1] && Steady(s[1..])
  {
    var t := s[1..];
    assert forall i :: 0 <= i < |t| ==> t[i] == s[i + 1];
    if s[0] != s[1] && Steady(t) {
      forall i | 0 <= i < |s| - 1 ensures s[i] != s[i + 1] {
        if i > 0 {
          assert t[i - 1] != t[i];
        }
      }
    }
  }

  lemma {:induction false} CompactLength(s: seq<string>)
    ensures |Compact(s)| <= |s|
    ensures |Compact(s)| == |s| <==> Steady(s)
  {
    if |s| >= 2 {
      CompactLength(s[1..]);
      SteadyCons(s);
    }
  }

  /** No two requested devices in a row are missing from the table. */
  ghost predicate NoGap(table: map<string, string>, ids: seq<string>)
  {
    forall i :: 0 <= i < |ids| - 1 ==> ids[i] in table || ids[i + 1] in table
  }

  /** Names are not empty and tell the requested devices apart. */
  ghost predicate ProperNames(table: map<string, string>, ids: seq<string>)
  {
    && (forall i :: 0 <= i < |ids| && ids[i] in table ==> table[ids[i]] != "")
    && (forall i, j :: 0 <= i < j < |ids| && ids[i] in table && ids[j] in table ==> table[ids[i]] != table[ids[j]])
  }

  lemma NamesSteady(table: map<string, string>, ids: seq<string>)
    requires ProperNames(table, ids)
    ensures Steady(LookupAll(table, ids)) <==> NoGap(table, ids)
  {
    var names := LookupAll(table, ids);
    forall i | 0 <= i < |ids| - 1 ensures names[i] != names[i + 1] <==> ids[i] in table || ids[i + 1] in table {
      assert names[i] == Lookup(table, ids[i]) && names[i + 1] == Lookup(table, ids[i + 1]);
    }
  }

  /**
   For devices alone in their groups, a machine whose entries ask for the resource once per
   requested device can be patched with the recorded names if and only if no two requested devices
   in a row are missing from the table.
   */
  lemma EnoughNamesExactly(groups: map<string, string>, r: Request, table: map<string, string>,
                           entries: seq<Entry>, resource: string)
    requires Possible(groups, r) && CleanAddresses(groups) && r.ids != []
    requires NoDuplicates(r.ids) && forall i :: 0 <= i < |r.ids| ==> r.ids[i] in groups
    requires Alone(groups, r.ids) && ProperNames(table, r.ids)
    requires SpecPatch.Demand(entries, resource) == |r.ids|
    ensures SpecPatch.Covered(entries, map[resource := Recorded(groups, r, table)]) <==> NoGap(table, r.ids)
  {
    var ids := r.ids;
    assert ids[0] in groups;
    ValueReadBack(groups, ids, r.orders, table);
    AllocatedSingletons(groups, ids, r.orders);
    CompactDoubled(ids);
    assert Recorded(groups, r, table) == Compact(LookupAll(table, ids));
    CompactLength(LookupAll(table, ids));
    NamesSteady(table, ids);
  }

  /** Two devices missing from the table share one empty name, which a second entry finds used up. */
  lemma MissingPairExhaustsNames(groups: map<string, string>, r: Request, table: map<string, string>,
                                 a: Entry, b: Entry)
    requires Possible(groups, r) && CleanAddresses(groups) && |r.ids| == 2 && Alone(groups, r.ids)
    requires r.ids[0] in groups && r.ids[1] in groups && r.ids[0] != r.ids[1]
    requires r.ids[0] !in table && r.ids[1] !in table && a.deviceName == b.deviceName
    ensures !SpecPatch.Covered([a, b], map[a.deviceName := Recorded(groups, r, table)])
  {
    var x := a.deviceName;
    assert [a, b][..1] == [a] && [a][..0] == [];
    assert SpecPatch.Demand([], x) == 0 && SpecPatch.Demand([a], x) == 1 && SpecPatch.Demand([a, b], x) == 2;
    EnoughNamesExactly(groups, r, table, [a, b], x);
  }
}
