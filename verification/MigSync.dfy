/**
 What "synced" means: exactly when a configuration reported as synced has the instances its
 specification asks for, for one reconcile and over every run.
 */
module MigSync {
  import opened MigModel
  import opened MigTheorems

  /** The GPU gives a new instance an identifier that is not in use. */
  ghost predicate UnusedIds(place: Placement)
  {
    forall xs, p :: place(xs, p).Some? ==> !HasId(xs, place(xs, p).value)
  }

  predicate DistinctIds(xs: seq<Instance>)
  {
    forall i, j :: 0 <= i < j < |xs| ==> xs[i].id != xs[j].id
  }

  /** Every instance is listed, and their identifiers differ. */
  ghost predicate Tidy(g: Gpu) { g.Listed() && DistinctIds(g.instances) }

  /** The GPU holds as many instances of each profile as the specification asks for. */
  ghost predicate Meets(g: Gpu, spec: seq<ProfileRequest>)
  {
    multiset(Profiles(g.instances)) == multiset(Commands(spec))
  }

  // ----- what a report tells -----

  lemma {:induction false} IdsOfFrom(xs: seq<Instance>, p: int, id: string)
    requires id in IdsOf(xs, p)
    ensures HasId(xs, id)
  {
    var init, x := xs[..|xs| - 1], xs[|xs| - 1];
    if id in IdsOf(init, p) {
      IdsOfFrom(init, p, id);
      var i :| 0 <= i < |init| && init[i].id == id;
      assert xs[i].id == id;
    } else {
      assert x.id == id;
    }
  }

  /** With distinct identifiers a profile has one identifier per instance. */
  lemma {:induction false} CountIsIds(xs: seq<Instance>, p: int)
    requires DistinctIds(xs)
    ensures |IdsOf(xs, p)| == multiset(Profiles(xs))[p]
  {
    if xs != [] {
      var init, x := xs[..|xs| - 1], xs[|xs| - 1];
      CountIsIds(init, p);
      assert Profiles(xs) == Profiles(init) + [x.profile];
      if x.id in IdsOf(init, p) {
        IdsOfFrom(init, p, x.id);
        assert false;
      }
    }
  }

  lemma UnlistedProfile(g: Gpu, p: int)
    requires g.Listed() && !g.Knows(p)
    ensures p !in Profiles(g.instances)
  {
    assert forall i :: 0 <= i < |g.instances| ==> g.Knows(g.instances[i].profile);
  }

  /** Equal reports mean equal numbers of instances of each profile. */
  lemma SameReport(g: Gpu, g': Gpu)
    requires Tidy(g) && Tidy(g') && g'.rows == g.rows && Report(g) == Report(g')
    ensures multiset(Profiles(g.instances)) == multiset(Profiles(g'.instances))
  {
    forall p ensures multiset(Profiles(g.instances))[p] == multiset(Profiles(g'.instances))[p] {
      if g.Knows(p) {
        var i :| 0 <= i < |g.rows| && g.rows[i].id == p;
        assert Report(g)[i] == Report(g')[i];
        CountIsIds(g.instances, p);
        CountIsIds(g'.instances, p);
      } else {
        UnlistedProfile(g, p);
        UnlistedProfile(g', p);
      }
    }
  }

  /** The record lists as many identifiers for each profile as the specification asks for. */
  ghost predicate RecordMeets(ps: seq<ProfileStatus>, spec: seq<ProfileRequest>)
  {
    && (forall i :: 0 <= i < |ps| ==> |ps[i].vgpuIds| == multiset(Commands(spec))[ps[i].id])
    && (forall p :: p in Commands(spec) ==> HasRow(ps, p))
  }

  ghost predicate HasRow(ps: seq<ProfileStatus>, p: int) { exists i :: 0 <= i < |ps| && ps[i].id == p }

  /** What a report tells about one profile. */
  lemma ReportCounts(g: Gpu, p: int)
    requires Tidy(g)
    ensures !HasRow(Report(g), p) ==> multiset(Profiles(g.instances))[p] == 0
    ensures forall i :: 0 <= i < |Report(g)| && Report(g)[i].id == p ==>
      |Report(g)[i].vgpuIds| == multiset(Profiles(g.instances))[p]
  {
    CountIsIds(g.instances, p);
    if g.Knows(p) {
      var i :| 0 <= i < |g.rows| && g.rows[i].id == p;
      assert Report(g)[i].id == p;
    } else {
      UnlistedProfile(g, p);
    }
  }

  lemma ReportMeets(g: Gpu, spec: seq<ProfileRequest>)
    requires Tidy(g)
    ensures RecordMeets(Report(g), spec) <==> Meets(g, spec)
  {
    var ps, held, asked := Report(g), multiset(Profiles(g.instances)), multiset(Commands(spec));
    forall p
      ensures !HasRow(ps, p) ==> held[p] == 0
      ensures forall i :: 0 <= i < |ps| && ps[i].id == p ==> |ps[i].vgpuIds| == held[p]
    {
      ReportCounts(g, p);
    }
    if RecordMeets(ps, spec) {
      forall p ensures held[p] == asked[p] {
        if HasRow(ps, p) {
          var i :| 0 <= i < |ps| && ps[i].id == p;
        } else {
          assert p !in Commands(spec);
        }
      }
    } else if held == asked {
      forall p | p in Commands(spec) ensures HasRow(ps, p) {
        assert held[p] > 0;
      }
      assert false;
    }
  }

  // ----- one reconcile -----

  /** A reconcile of an enabled configuration that ends "synced". */
  ghost predicate EndsSynced(node: string, c: Config, g: Gpu, place: Placement)
  {
    && Responsible(node, c) && c.enabled
    && !Reconcile(node, c, g, place).failed && Reconcile(node, c, g, place).config.status.state == Synced
  }

  lemma SyncedCompared(node: string, c: Config, g: Gpu, place: Placement)
    requires g.Listed() && EndsSynced(node, c, g, place)
    ensures g.instances != [] && c.status.profiles == Report(g) && SameButLuck(g, Reconcile(node, c, g, place).gpu)
  {
    DiscoverEffect(g);
    CountSeesEveryInstance(g);
    if g.instances == [] {
      EnableEffect(c, Discover(g).0, place);
    }
  }

  /** A reconcile that ends "synced" means that the specification is met if and only if the record already shows it. */
  lemma SyncedExactly(node: string, c: Config, g: Gpu, place: Placement)
    requires Tidy(g) && EndsSynced(node, c, g, place)
    ensures Meets(Reconcile(node, c, g, place).gpu, c.spec) <==> RecordMeets(c.status.profiles, c.spec)
  {
    SyncedCompared(node, c, g, place);
    ReportMeets(g, c.spec);
  }

  // ----- identifiers stay distinct -----

  lemma CreateOneDistinct(g: Gpu, place: Placement, profile: int)
    requires UnusedIds(place) && DistinctIds(g.instances)
    ensures DistinctIds(CreateOne(g, place, profile).0.instances)
  {
    var id := place(g.instances, profile);
    if id.Some? {
      assert !HasId(g.instances, id.value);
      assert forall i :: 0 <= i < |g.instances| ==> g.instances[i].id != id.value;
    }
  }

  lemma {:induction false} CreateAllDistinct(g: Gpu, place: Placement, profiles: seq<int>)
    requires UnusedIds(place) && DistinctIds(g.instances)
    ensures DistinctIds(CreateAll(g, place, profiles).0.instances)
    decreases |profiles|
  {
    if profiles != [] {
      CreateOneDistinct(g, place, profiles[0]);
      CreateAllDistinct(CreateOne(g, place, profiles[0]).0, place, profiles[1..]);
    }
  }

  lemma {:induction false} WithoutIdDistinct(xs: seq<Instance>, id: string)
    requires DistinctIds(xs)
    ensures DistinctIds(WithoutId(xs, id))
  {
    if xs != [] {
      WithoutIdDistinct(xs[1..], id);
      WithoutIdEffect(xs[1..], id);
      var rest := WithoutId(xs[1..], id);
      forall i | 0 <= i < |rest| ensures rest[i].id != xs[0].id {
        assert rest[i] in xs[1..];
      }
    }
  }

  lemma {:induction false} DeleteAllDistinct(g: Gpu, ids: seq<string>)
    requires DistinctIds(g.instances)
    ensures DistinctIds(DeleteAll(g, ids).0.instances)
    decreases |ids|
  {
    if ids != [] {
      WithoutIdDistinct(g.instances, ids[0]);
      DeleteAllDistinct(DeleteOne(g, ids[0]).0, ids[1..]);
    }
  }

  lemma {:induction false} VanishedDistinct(xs: seq<Instance>, ids: seq<string>)
    requires DistinctIds(xs)
    ensures DistinctIds(Vanished(xs, ids))
    decreases |ids|
  {
    if ids != [] {
      WithoutIdDistinct(xs, ids[0]);
      VanishedDistinct(WithoutId(xs, ids[0]), ids[1..]);
    }
  }

  // ----- where the record comes from -----

  /** The record was last written by enabling a specification, or by a disabling that left these profiles. */
  datatype Origin = AtEnabling(spec: seq<ProfileRequest>) | AtDisabling(left: seq<int>)

  /** What the GPU held then. */
  function Held(o: Origin): multiset<int>
  {
    match o
    case AtEnabling(spec) => multiset(Commands(spec))
    case AtDisabling(left) => multiset(left)
  }

  ghost function NextOrigin(node: string, s: System, e: Event, o: Origin): Origin
  {
    if !e.Change? || !Responsible(node, s.config) then o
    else
      var r := Reconcile(node, s.config, s.gpu.(outage := e.outage), e.place);
      if r.failed then o
      else if s.config.enabled && s.gpu.instances == [] then AtEnabling(s.config.spec)
      else if !s.config.enabled && s.gpu.instances != [] then AtDisabling(Profiles(r.gpu.instances))
      else o
  }

  ghost function LastOrigin(node: string, s: System, events: seq<Event>, o: Origin): Origin
  {
    if events == [] then o
    else
      var init := events[..|events| - 1];
      NextOrigin(node, Run(node, s, init), events[|events| - 1], LastOrigin(node, s, init, o))
  }

  /** A GPU that would give the recorded report holds what was held when the record was written. */
  ghost predicate Remembers(s: System, o: Origin)
  {
    forall xs: seq<Instance> :: Recorded(s, xs) ==> multiset(Profiles(xs)) == Held(o)
  }

  ghost predicate Recorded(s: System, xs: seq<Instance>)
  {
    var g := s.gpu.(instances := xs);
    Tidy(g) && Report(g) == s.config.status.profiles
  }

  lemma JustWritten(s: System, o: Origin)
    requires Tidy(s.gpu) && s.config.status.profiles == Report(s.gpu) && multiset(Profiles(s.gpu.instances)) == Held(o)
    ensures Remembers(s, o)
  {
    forall xs: seq<Instance> | Recorded(s, xs) ensures multiset(Profiles(xs)) == Held(o) {
      SameReport(s.gpu, s.gpu.(instances := xs));
    }
  }

  /** Nothing that matters to the record has changed. */
  lemma StillRemembers(s: System, s': System, o: Origin)
    requires Remembers(s, o) && SameDevice(s.gpu, s'.gpu) && s'.config.status.profiles == s.config.status.profiles
    ensures Remembers(s', o)
  {
    forall xs: seq<Instance> | Recorded(s', xs) ensures multiset(Profiles(xs)) == Held(o) {
      var g, g' := s.gpu.(instances := xs), s'.gpu.(instances := xs);
      assert forall i :: 0 <= i < |g.rows| ==> RowStatus(g, g.rows[i]) == RowStatus(g', g.rows[i]);
      assert Report(g) == Report(g');
      assert forall p :: g.Knows(p) <==> g'.Knows(p);
      assert Recorded(s, xs);
    }
  }

  /** A configuration that has never been reconciled remembers an empty GPU. */
  lemma NewRemembers(c: Config, g: Gpu)
    requires c.status.profiles == []
    ensures Remembers(System(c, g), AtDisabling([]))
  {
    forall xs: seq<Instance> | Recorded(System(c, g), xs) ensures multiset(Profiles(xs)) == Held(AtDisabling([])) {
      var g' := g.(instances := xs);
      assert |Report(g')| == 0;
      assert xs == [] || g'.Knows(xs[0].profile);
    }
  }

  // ----- every run -----

  ghost predicate GoodEvent(e: Event) { e.Change? ==> UnusedIds(e.place) }

  ghost predicate Good(s: System, o: Origin) { Tidy(s.gpu) && Remembers(s, o) }

  lemma EnableGood(c: Config, g: Gpu, place: Placement, o: Origin)
    requires Good(System(c, g), o) && UnusedIds(place) && g.instances == []
    ensures var r := Enable(c, g, place);
      Good(System(r.config, r.gpu), if r.failed then o else AtEnabling(c.spec))
  {
    EnableEffect(c, g, place);
    CreateAllDistinct(g, place, Commands(c.spec));
    DiscoverEffect(CreateAll(g, place, Commands(c.spec)).0);
    var r := Enable(c, g, place);
    if r.failed {
      StillRemembers(System(c, g), System(r.config, r.gpu), o);
    } else {
      assert Profiles(r.gpu.instances) == Commands(c.spec);
      JustWritten(System(r.config, r.gpu), AtEnabling(c.spec));
    }
  }

  lemma DisableGood(c: Config, g: Gpu, o: Origin)
    requires Good(System(c, g), o)
    ensures var r := Disable(c, g);
      Good(System(r.config, r.gpu), if r.failed then o else AtDisabling(Profiles(r.gpu.instances)))
  {
    DisableEffect(c, g);
    DeleteAllDistinct(g, RecordedIds(c.status.profiles));
    DiscoverEffect(DeleteAll(g, RecordedIds(c.status.profiles)).0);
    var r := Disable(c, g);
    if r.failed {
      StillRemembers(System(c, g), System(r.config, r.gpu), o);
    } else {
      JustWritten(System(r.config, r.gpu), AtDisabling(Profiles(r.gpu.instances)));
    }
  }

  lemma ReconcileGood(node: string, s: System, outage: Outage, place: Placement, o: Origin)
    requires Good(s, o) && UnusedIds(place)
    ensures Good(Step(node, s, Change(outage, place)), NextOrigin(node, s, Change(outage, place), o))
  {
    var c, g := s.config, s.gpu.(outage := outage);
    StillRemembers(s, System(c, g), o);
    DiscoverEffect(g);
    CountSeesEveryInstance(g);
    var (g1, found) := Discover(g);
    StillRemembers(System(c, g), System(c, g1), o);
    if Responsible(node, c) && found.Some? {
      if c.enabled && g.instances == [] {
        EnableGood(c, g1, place, o);
      } else if !c.enabled && g.instances != [] {
        DisableGood(c, g1, o);
      } else {
        var r := Reconcile(node, c, g, place);
        StillRemembers(System(c, g1), System(r.config, r.gpu), o);
      }
    }
  }

  lemma StepGood(node: string, s: System, e: Event, o: Origin)
    requires Good(s, o) && GoodEvent(e)
    ensures Good(Step(node, s, e), NextOrigin(node, s, e, o))
  {
    match e
    case Edit(_, _) => StillRemembers(s, Step(node, s, e), o);
    case Change(outage, place) => ReconcileGood(node, s, outage, place, o);
    case Vanish(ids) =>
      VanishedEffect(s.gpu, ids);
      VanishedDistinct(s.gpu.instances, ids);
      StillRemembers(s, Step(node, s, e), o);
  }

  lemma {:induction false} RunGood(node: string, s: System, events: seq<Event>, o: Origin)
    requires Good(s, o) && forall i :: 0 <= i < |events| ==> GoodEvent(events[i])
    ensures Good(Run(node, s, events), LastOrigin(node, s, events, o))
  {
    if events != [] {
      var init := events[..|events| - 1];
      RunGood(node, s, init, o);
      StepGood(node, Run(node, s, init), events[|events| - 1], LastOrigin(node, s, init, o));
    }
  }

  /**
   In every run, a reconcile that ends "synced" has found what was held when the record was last
   written, so the specification is met if and only if its commands are, profile by profile, what
   was held then: after an enabling, the commands of the specification enabled.
   */
  lemma RunSynced(node: string, s: System, events: seq<Event>, o: Origin, outage: Outage, place: Placement)
    requires Good(s, o) && forall i :: 0 <= i < |events| ==> GoodEvent(events[i])
    requires var t := Run(node, s, events); EndsSynced(node, t.config, t.gpu.(outage := outage), place)
    ensures var t := Run(node, s, events);
      var r := Reconcile(node, t.config, t.gpu.(outage := outage), place);
      var held := Held(LastOrigin(node, s, events, o));
      && multiset(Profiles(r.gpu.instances)) == held
      && (Meets(r.gpu, t.config.spec) <==> multiset(Commands(t.config.spec)) == held)
  {
    RunGood(node, s, events, o);
    var t := Run(node, s, events);
    var g := t.gpu.(outage := outage);
    ReportIgnoresLuck(t.gpu, g);
    SyncedCompared(node, t.config, g, place);
    assert t.gpu.(instances := t.gpu.instances) == t.gpu;
    assert Recorded(t, t.gpu.instances);
  }

  /** A start for every run: a configuration as the controller creates it, on an empty GPU. */
  lemma NewIsGood(c: Config, g: Gpu)
    requires c.status.profiles == [] && g.instances == []
    ensures Good(System(c, g), AtDisabling([]))
  {
    NewRemembers(c, g);
  }
}
