/**
 The order of the create commands: exactly when the larger profiles, which have the smaller IDs,
 come first.
 */
module MigOrder {
  import opened MigModel
  import opened MigTheorems

  predicate Ascending(s: seq<int>)
  {
    forall i, j :: 0 <= i < j < |s| ==> s[i] <= s[j]
  }

  predicate Below(x: int, s: seq<int>)
  {
    forall i :: 0 <= i < |s| ==> x <= s[i]
  }

  lemma AscendingCons(x: int, n: nat, rest: seq<int>)
    requires n > 0
    ensures Ascending(Repeat(x, n) + rest) <==> Below(x, rest) && Ascending(rest)
  {
    var all := Repeat(x, n) + rest;
    if Ascending(all) {
      forall i | 0 <= i < |rest| ensures x <= rest[i] {
        assert all[0] == x && all[n + i] == rest[i];
      }
      forall i, j | 0 <= i < j < |rest| ensures rest[i] <= rest[j] {
        assert all[n + i] == rest[i] && all[n + j] == rest[j];
      }
    }
  }

  /** Every profile of the list has a positive request in the map. */
  predicate AllAsked(a: seq<int>, m: map<int, int>)
  {
    forall i :: 0 <= i < |a| ==> a[i] in m && m[a[i]] > 0
  }

  lemma {:induction false} BelowCommands(x: int, a: seq<int>, m: map<int, int>)
    requires AllAsked(a, m)
    ensures Below(x, CommandsFor(a, m)) <==> Below(x, a)
  {
    if a != [] {
      BelowCommands(x, a[1..], m);
      var rest := CommandsFor(a[1..], m);
      var all := Repeat(a[0], m[a[0]]) + rest;
      assert all[0] == a[0] && all[m[a[0]]..] == rest;
      assert Below(x, all) <==> x <= a[0] && Below(x, rest) by {
        assert forall i :: 0 <= i < |rest| ==> all[m[a[0]] + i] == rest[i];
      }
      assert a == [a[0]] + a[1..];
    }
  }

  lemma {:induction false} AscendingCommands(a: seq<int>, m: map<int, int>)
    requires AllAsked(a, m)
    ensures Ascending(CommandsFor(a, m)) <==> Ascending(a)
  {
    if a != [] {
      AscendingCommands(a[1..], m);
      BelowCommands(a[0], a[1..], m);
      AscendingCons(a[0], m[a[0]], CommandsFor(a[1..], m));
      AscendingCons(a[0], 1, a[1..]);
      assert a == Repeat(a[0], 1) + a[1..];
    }
  }

  /**
   The commands come in ascending order of the profile IDs if and only if the specification lists
   the profiles with positive requests in that order: nothing is sorted on the way.
   */
  lemma SortedExactly(spec: seq<ProfileRequest>)
    ensures Ascending(Commands(spec)) <==> Ascending(Impacted(spec))
  {
    forall i | 0 <= i < |Impacted(spec)| ensures Impacted(spec)[i] in RequestMap(spec) {
      RequestMapKeys(spec, Impacted(spec)[i]);
    }
    AscendingCommands(Impacted(spec), RequestMap(spec));
  }

  /** A small profile listed before a large one is created first. */
  lemma SmallProfileComesFirst()
    ensures var spec := [ProfileRequest(19, "1g", 1), ProfileRequest(9, "3g", 1)];
      Commands(spec) == [19, 9] && !Ascending(Commands(spec))
  {
    var a, b := ProfileRequest(19, "1g", 1), ProfileRequest(9, "3g", 1);
    assert [a, b][..1] == [a] && [a][..0] == [];
    assert Plan([a]) == Plan([]) + [19];
    assert Plan([a, b]) == [19] + [9];
    CommandsArePlan([a, b]);
    assert [19, 9][0] > [19, 9][1];
  }
}
