/**
 Exactly when the bound of seven MIG instances is kept.
 */
module MigBound {
  import opened MigModel
  import opened MigTheorems

  /** A GPU that accepts every profile a specification asks for, behind an executor that answers. */
  ghost predicate Accepts(g: Gpu, place: Placement, spec: seq<ProfileRequest>)
  {
    (forall p :: p in Commands(spec) ==> g.Knows(p)) && (forall xs, p :: place(xs, p).Some?)
  }

  /**
   An error-free reconcile of an enabled configuration on an empty GPU makes as many instances as
   the specification really asks for, so the bound is kept exactly when that is at most seven; with
   unique IDs it is the sum of the positive requests.
   */
  lemma ReconcileMakesLoad(node: string, c: Config, g: Gpu, place: Placement)
    requires Responsible(node, c) && c.enabled && g.Listed() && g.instances == []
    requires !Reconcile(node, c, g, place).failed
    ensures var made := |Reconcile(node, c, g, place).gpu.instances|;
      && made == Load(c.spec)
      && (UniqueIds(c.spec) ==> made == Positive(c.spec))
  {
    CountSeesEveryInstance(g);
    DiscoverEffect(g);
    EnableEffect(c, Discover(g).0, place);
    CommandsLength(c.spec);
    if UniqueIds(c.spec) {
      UniqueLoad(c.spec);
    }
  }

  /** A configuration as the controller creates it. */
  function Fresh(node: string, g: Gpu): System
  {
    System(Config(node, false, false, InitialSpec(g.rows), Status([], Unset, "")), g)
  }

  /** Enable a new configuration, edit its requests, and let the controller reconcile it. */
  function Scenario(node: string, g: Gpu, spec: seq<ProfileRequest>, place: Placement): seq<Event>
  {
    var on := Fresh(node, g).config.(enabled := true);
    [Edit(on, false), Edit(on.(spec := spec), false), Change(Never, place)]
  }

  lemma RunThree(node: string, s: System, e0: Event, e1: Event, e2: Event)
    ensures Run(node, s, [e0, e1, e2]) == Step(node, Step(node, Step(node, s, e0), e1), e2)
  {
    assert [e0, e1, e2][..2] == [e0, e1] && [e0, e1][..1] == [e0] && [e0][..0] == [];
    assert Run(node, s, []) == s;
    assert Run(node, s, [e0]) == Step(node, s, e0);
    assert Run(node, s, [e0, e1]) == Step(node, Step(node, s, e0), e1);
  }

  /** Both edits of the scenario: enabling is admitted, and so is every specification with a small enough sum. */
  lemma ScenarioEdits(node: string, g: Gpu, spec: seq<ProfileRequest>)
    ensures var s := Fresh(node, g); var on := s.config.(enabled := true);
      var s1 := Step(node, s, Edit(on, false));
      && s1 == System(on, g)
      && Step(node, s1, Edit(on.(spec := spec), false))
         == System(if Requested(spec) <= MAX_INSTANCES then on.(spec := spec) else on, g)
  {
    RequestedNothing(g.rows);
    var s := Fresh(node, g);
    var on := s.config.(enabled := true);
    assert forall i :: 0 <= i < |on.spec| ==> on.spec[i].requested == 0;
    assert WithinAvailable(on);
  }

  lemma {:induction false} RequestedNothing(rows: seq<ProfileRow>)
    ensures Requested(InitialSpec(rows)) == 0
  {
    if rows != [] {
      RequestedNothing(rows[..|rows| - 1]);
      assert InitialSpec(rows)[..|rows| - 1] == InitialSpec(rows[..|rows| - 1]);
    }
  }

  /** How many instances the scenario ends with. */
  lemma ScenarioCount(node: string, g: Gpu, spec: seq<ProfileRequest>, place: Placement)
    requires g.instances == [] && Accepts(g, place, spec)
    ensures |Run(node, Fresh(node, g), Scenario(node, g, spec, place)).gpu.instances|
         == if Requested(spec) <= MAX_INSTANCES then Load(spec) else 0
  {
    var s := Fresh(node, g);
    var on := s.config.(enabled := true);
    ScenarioEdits(node, g, spec);
    RunThree(node, s, Edit(on, false), Edit(on.(spec := spec), false), Change(Never, place));
    var c := if Requested(spec) <= MAX_INSTANCES then on.(spec := spec) else on;
    var g' := g.(outage := Never);
    NothingRequested(g.rows);
    CommandsLength(InitialSpec(g.rows));
    assert forall p :: g.Knows(p) ==> g'.Knows(p);
    EnabledSucceeds(node, c, g', place);
    ReconcileMakesLoad(node, c, g', place);
  }

  /**
   The condition on edits under which every run is safe is exact: for every specification, the run
   that enables a new configuration, edits it and reconciles it once stays within seven instances
   if and only if the specification is bounded.
   */
  lemma BoundIsExact(node: string, g: Gpu, spec: seq<ProfileRequest>, place: Placement)
    requires g.instances == [] && Accepts(g, place, spec)
    ensures |Run(node, Fresh(node, g), Scenario(node, g, spec, place)).gpu.instances| <= MAX_INSTANCES
      <==> Bounded(spec)
  {
    ScenarioCount(node, g, spec, place);
  }

  /** Requests of 8 and -1 are admitted and end in eight instances. */
  lemma NegativeRequestDefeatsBound(node: string, g: Gpu, place: Placement)
    requires g.instances == [] && g.Knows(19) && forall xs, p :: place(xs, p).Some?
    ensures var spec := [ProfileRequest(19, "1g", 8), ProfileRequest(20, "2g", -1)];
      UniqueIds(spec) && |Run(node, Fresh(node, g), Scenario(node, g, spec, place)).gpu.instances| == 8
  {
    var a, b := ProfileRequest(19, "1g", 8), ProfileRequest(20, "2g", -1);
    var m := map[19 := 8];
    assert [a, b][..1] == [a] && [a][..0] == [];
    assert Requested([]) == 0 && Impacted([]) == [] && RequestMap([]) == map[];
    assert Requested([a]) == 8 && Impacted([a]) == [19] && RequestMap([a]) == m;
    assert Impacted([a, b]) == [19] && RequestMap([a, b]) == m;
    assert CommandsFor([], m) == [] && CommandsFor([19], m) == Repeat(19, 8) + CommandsFor([], m);
    CommandsLength([a, b]);
    ScenarioCount(node, g, [a, b], place);
  }

  /** Requests of 1 and 6 for the same ID are admitted and end in twelve instances. */
  lemma RepeatedIdDefeatsBound(node: string, g: Gpu, place: Placement)
    requires g.instances == [] && g.Knows(19) && forall xs, p :: place(xs, p).Some?
    ensures var spec := [ProfileRequest(19, "1g", 1), ProfileRequest(19, "1g", 6)];
      NonNegative(spec) && |Run(node, Fresh(node, g), Scenario(node, g, spec, place)).gpu.instances| == 12
  {
    var a, b := ProfileRequest(19, "1g", 1), ProfileRequest(19, "1g", 6);
    var m := map[19 := 6];
    assert [a, b][..1] == [a] && [a][..0] == [];
    assert Requested([]) == 0 && Impacted([]) == [] && RequestMap([]) == map[];
    assert Requested([a]) == 1 && Impacted([a]) == [19] && RequestMap([a]) == map[19 := 1];
    assert Impacted([a, b]) == [19, 19] && RequestMap([a, b]) == m;
    assert CommandsFor([], m) == [] && CommandsFor([19], m) == Repeat(19, 6) + CommandsFor([], m);
    assert [19, 19][1..] == [19];
    assert CommandsFor([19, 19], m) == Repeat(19, 6) + CommandsFor([19], m);
    CommandsLength([a, b]);
    ScenarioCount(node, g, [a, b], place);
  }
}
