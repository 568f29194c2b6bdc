/**
 Safety over every run of the MIG protocol, and convergence of the reconcile step.
 */
module MigTheorems {
  import opened Text
  import opened MigModel

  // ----- the plan and the commands -----

  lemma {:induction false} PlanLength(spec: seq<ProfileRequest>)
    ensures |Plan(spec)| == Positive(spec)
  {
    if spec != [] {
      PlanLength(spec[..|spec| - 1]);
    }
  }

  lemma {:induction false} LastRequestIsMapped(spec: seq<ProfileRequest>, id: int)
    ensures LastRequest(spec, id) == if id in RequestMap(spec) then RequestMap(spec)[id] else 0
  {
    if spec != [] {
      LastRequestIsMapped(spec[..|spec| - 1], id);
    }
  }

  lemma {:induction false} CommandsLengthOver(entries: seq<ProfileRequest>, spec: seq<ProfileRequest>)
    ensures |CommandsFor(Impacted(entries), RequestMap(spec))| == LoadOver(entries, spec)
  {
    if entries != [] {
      var init, r := entries[..|entries| - 1], entries[|entries| - 1];
      CommandsLengthOver(init, spec);
      var m := RequestMap(spec);
      if r.requested > 0 {
        LastRequestIsMapped(spec, r.id);
        CommandsForAppend(Impacted(init), [r.id], m);
        assert CommandsFor([r.id], m) == Repeat(r.id, LastRequest(spec, r.id)) + CommandsFor([], m);
      } else {
        assert Impacted(entries) == Impacted(init);
      }
    }
  }

  /** The number of create commands, for every specification. */
  lemma CommandsLength(spec: seq<ProfileRequest>)
    ensures |Commands(spec)| == Load(spec)
  {
    CommandsLengthOver(spec, spec);
  }

  /** With unique IDs that number is the sum of the positive requests. */
  lemma UniqueLoad(spec: seq<ProfileRequest>)
    requires UniqueIds(spec)
    ensures Load(spec) == Positive(spec)
  {
    CommandsLength(spec);
    CommandsArePlan(spec);
    PlanLength(spec);
  }

  lemma {:induction false} NonNegativeSum(spec: seq<ProfileRequest>)
    requires NonNegative(spec)
    ensures Positive(spec) == Requested(spec)
  {
    if spec != [] {
      NonNegativeSum(spec[..|spec| - 1]);
    }
  }

  /** Non-negative requests with unique IDs are bounded by the admission rule. */
  lemma OrdinarySpecIsBounded(spec: seq<ProfileRequest>)
    requires NonNegative(spec) && UniqueIds(spec)
    ensures Bounded(spec)
  {
    UniqueLoad(spec);
    NonNegativeSum(spec);
  }

  lemma {:induction false} RequestMapKeys(spec: seq<ProfileRequest>, id: int)
    ensures id in RequestMap(spec) ==> exists i :: 0 <= i < |spec| && spec[i].id == id
    ensures id in Impacted(spec) ==> id in RequestMap(spec)
  {
    if spec != [] {
      RequestMapKeys(spec[..|spec| - 1], id);
    }
  }

  lemma {:induction false} CommandsForAppend(a: seq<int>, b: seq<int>, m: map<int, int>)
    ensures CommandsFor(a + b, m) == CommandsFor(a, m) + CommandsFor(b, m)
  {
    if a == [] {
      assert a + b == b;
    } else {
      CommandsForAppend(a[1..], b, m);
      assert (a + b)[0] == a[0] && (a + b)[1..] == a[1..] + b;
      var n := if a[0] in m && m[a[0]] > 0 then m[a[0]] else 0;
      var head := Repeat(a[0], n);
      Assoc(head, CommandsFor(a[1..], m), CommandsFor(b, m));
    }
  }

  lemma {:induction false} CommandsForUnrelated(a: seq<int>, m: map<int, int>, id: int, n: int)
    requires id !in a
    ensures CommandsFor(a, m[id := n]) == CommandsFor(a, m)
  {
    if a != [] {
      CommandsForUnrelated(a[1..], m, id, n);
    }
  }

  /** With unique profile IDs the request map loses nothing: the commands are the plan, in specification order. */
  lemma {:induction false} CommandsArePlan(spec: seq<ProfileRequest>)
    requires UniqueIds(spec)
    ensures Commands(spec) == Plan(spec)
  {
    if spec != [] {
      var init, r := spec[..|spec| - 1], spec[|spec| - 1];
      CommandsArePlan(init);
      if r.requested > 0 {
        RequestMapKeys(init, r.id);
        var m := RequestMap(init);
        CommandsForUnrelated(Impacted(init), m, r.id, r.requested);
        CommandsForAppend(Impacted(init), [r.id], m[r.id := r.requested]);
        assert CommandsFor([r.id], m[r.id := r.requested])
          == Repeat(r.id, r.requested) + CommandsFor([], m[r.id := r.requested]);
      } else {
        assert Impacted(spec) == Impacted(init) && Plan(spec) == Plan(init);
      }
    }
  }

  // ----- what the listings show -----

  lemma {:induction false} IdsOfMembers(xs: seq<Instance>, profile: int)
    ensures forall i :: 0 <= i < |xs| && xs[i].profile == profile ==> xs[i].id in IdsOf(xs, profile)
  {
    if xs != [] {
      IdsOfMembers(xs[..|xs| - 1], profile);
    }
  }

  lemma {:induction false} CountIdsZero(ps: seq<ProfileStatus>)
    ensures CountIds(ps) == 0 <==> forall i :: 0 <= i < |ps| ==> ps[i].vgpuIds == []
  {
    if ps != [] {
      CountIdsZero(ps[..|ps| - 1]);
      assert forall i :: 0 <= i < |ps| - 1 ==> ps[..|ps| - 1][i] == ps[i];
    }
  }

  /** The discovered count is zero exactly when the GPU holds no instance. */
  lemma CountSeesEveryInstance(g: Gpu)
    requires g.Listed()
    ensures CountIds(Report(g)) == 0 <==> g.instances == []
  {
    CountIdsZero(Report(g));
    if g.instances != [] {
      var x := g.instances[0];
      var i :| 0 <= i < |g.rows| && g.rows[i].id == x.profile;
      IdsOfMembers(g.instances, x.profile);
      assert Report(g)[i].vgpuIds != [];
    } else {
      assert forall i :: 0 <= i < |g.rows| ==> Report(g)[i].vgpuIds == [];
    }
  }

  lemma {:induction false} RecordedIdsMembers(ps: seq<ProfileStatus>, i: nat)
    requires i < |ps|
    ensures forall id :: id in ps[i].vgpuIds ==> id in RecordedIds(ps)
  {
    if i > 0 {
      RecordedIdsMembers(ps[1..], i - 1);
    }
  }

  lemma ReportRecordsEveryInstance(g: Gpu)
    requires g.Listed()
    ensures forall k :: 0 <= k < |g.instances| ==> g.instances[k].id in RecordedIds(Report(g))
  {
    forall k | 0 <= k < |g.instances| ensures g.instances[k].id in RecordedIds(Report(g)) {
      var x := g.instances[k];
      var i :| 0 <= i < |g.rows| && g.rows[i].id == x.profile;
      IdsOfMembers(g.instances, x.profile);
      RecordedIdsMembers(Report(g), i);
    }
  }

  // ----- what the command loops keep -----

  ghost predicate SameDevice(g: Gpu, g': Gpu)
  {
    g'.rows == g.rows && g'.available == g.available
  }

  lemma CreateOneEffect(g: Gpu, place: Placement, profile: int)
    requires g.Listed()
    ensures var (g', ok) := CreateOne(g, place, profile);
      && SameDevice(g, g') && g'.Listed() && g'.created == g.created + [profile]
      && |g'.instances| == |g.instances| + (if ok then 1 else 0)
  {
    var (g', ok) := CreateOne(g, place, profile);
    if ok {
      assert forall i :: 0 <= i < |g'.instances| - 1 ==>
        g'.instances[i] == g.instances[i] && g.Knows(g.instances[i].profile);
      assert g'.Knows(profile);
    }
  }

  /** A run of create commands issues a prefix of what it was given, all of it if none failed. */
  lemma {:induction false} CreateAllEffect(g: Gpu, place: Placement, profiles: seq<int>)
    requires g.Listed()
    ensures var (g', ok) := CreateAll(g, place, profiles);
      && SameDevice(g, g') && g'.Listed()
      && |g.created| <= |g'.created| && g'.created[..|g.created|] == g.created
      && g'.created[|g.created|..] <= profiles
      && |g.instances| <= |g'.instances| <= |g.instances| + |profiles|
      && (ok ==> g'.created == g.created + profiles && |g'.instances| == |g.instances| + |profiles|)
    decreases |profiles|
  {
    if profiles != [] {
      CreateOneEffect(g, place, profiles[0]);
      var (g1, ok1) := CreateOne(g, place, profiles[0]);
      if ok1 {
        CreateAllEffect(g1, place, profiles[1..]);
        var (g2, ok2) := CreateAll(g1, place, profiles[1..]);
        assert g2.created[..|g.created|] == g2.created[..|g1.created|][..|g.created|] == g.created;
        assert g2.created[|g.created|..] == [profiles[0]] + g2.created[|g1.created|..];
        assert profiles == [profiles[0]] + profiles[1..];
      }
    }
  }

  /** If none failed, the instances made have the commanded profiles, in order. */
  lemma {:induction false} CreatedProfiles(g: Gpu, place: Placement, profiles: seq<int>)
    requires CreateAll(g, place, profiles).1
    ensures Profiles(CreateAll(g, place, profiles).0.instances) == Profiles(g.instances) + profiles
    decreases |profiles|
  {
    if profiles != [] {
      var g1 := CreateOne(g, place, profiles[0]).0;
      CreatedProfiles(g1, place, profiles[1..]);
      assert Profiles(g1.instances) == Profiles(g.instances) + [profiles[0]];
      Assoc(Profiles(g.instances), [profiles[0]], profiles[1..]);
      assert profiles == [profiles[0]] + profiles[1..];
    }
  }

  lemma {:induction false} WithoutIdEffect(xs: seq<Instance>, id: string)
    ensures |WithoutId(xs, id)| <= |xs|
    ensures forall x :: x in WithoutId(xs, id) <==> x in xs && x.id != id
  {
    if xs != [] {
      WithoutIdEffect(xs[1..], id);
      assert xs == [xs[0]] + xs[1..];
    }
  }

  lemma ListedSubset(g: Gpu, g': Gpu)
    requires g.Listed() && g'.rows == g.rows
    requires forall x :: x in g'.instances ==> x in g.instances
    ensures g'.Listed()
  {
    forall i | 0 <= i < |g'.instances| ensures g'.Knows(g'.instances[i].profile) {
      assert g'.instances[i] in g.instances;
      assert g.Knows(g'.instances[i].profile);
    }
  }

  /** Deleting one identifier removes at most its instances, and removes them unless a command failed. */
  lemma DeleteOneEffect(g: Gpu, id: string)
    ensures var (g', ok) := DeleteOne(g, id);
      && SameDevice(g, g') && g'.created == g.created
      && |g'.instances| <= |g.instances|
      && (forall x :: x in g'.instances ==> x in g.instances)
      && (ok ==> forall x :: x in g'.instances ==> x.id != id)
  {
    DeleteComputeEffect(g, id);
    DeleteGpuInstanceEffect(DeleteCompute(g, id).0, id);
  }

  lemma DeleteComputeEffect(g: Gpu, id: string)
    ensures var (g', ok) := DeleteCompute(g, id);
      && SameDevice(g, g') && g'.created == g.created && g'.instances == g.instances
      && (ok ==> id !in g'.compute)
  {
  }

  lemma DeleteGpuInstanceEffect(g: Gpu, id: string)
    ensures var (g', ok) := DeleteGpuInstance(g, id);
      && SameDevice(g, g') && g'.created == g.created && |g'.instances| <= |g.instances|
      && (forall x :: x in g'.instances ==> x in g.instances)
      && (ok ==> forall x :: x in g'.instances ==> x.id != id)
  {
    WithoutIdEffect(g.instances, id);
    if !HasId(g.instances, id) {
      forall x | x in g.instances ensures x.id != id {
        var i :| 0 <= i < |g.instances| && g.instances[i] == x;
      }
    }
  }

  /** A run of delete commands only removes instances; if none failed, none of the given identifiers is left. */
  lemma {:induction false} DeleteAllEffect(g: Gpu, ids: seq<string>)
    ensures var (g', ok) := DeleteAll(g, ids);
      && SameDevice(g, g') && g'.created == g.created
      && |g'.instances| <= |g.instances|
      && (forall x :: x in g'.instances ==> x in g.instances)
      && (ok ==> forall x :: x in g'.instances ==> x.id !in ids)
    decreases |ids|
  {
    if ids != [] {
      DeleteOneEffect(g, ids[0]);
      var (g1, ok1) := DeleteOne(g, ids[0]);
      if ok1 {
        DeleteAllEffect(g1, ids[1..]);
        assert ids == [ids[0]] + ids[1..];
      }
    }
  }

  lemma {:induction false} VanishedEffect(g: Gpu, ids: seq<string>)
    requires g.Listed()
    ensures |Vanished(g.instances, ids)| <= |g.instances|
    ensures g.(instances := Vanished(g.instances, ids)).Listed()
    decreases |ids|
  {
    if ids != [] {
      WithoutIdEffect(g.instances, ids[0]);
      var g1 := g.(instances := WithoutId(g.instances, ids[0]));
      assert forall i :: 0 <= i < |g1.instances| ==> g1.instances[i] in g.instances;
      VanishedEffect(g1, ids[1..]);
    }
  }

  // ----- safety over runs -----

  /** Edits are such that the count check, if they pass it, bounds what they ask for. */
  ghost predicate WellFormedEvent(e: Event)
  {
    e.Edit? ==> Bounded(e.after.spec)
  }

  ghost predicate Safe(s: System)
  {
    Load(s.config.spec) <= MAX_INSTANCES && s.gpu.Listed() && |s.gpu.instances| <= MAX_INSTANCES
  }

  /**
   The create commands issued by a step form a prefix of the specification's commands, with unique
   IDs of its plan, and there are some only on an empty GPU.
   */
  ghost predicate Disciplined(s: System, s': System)
  {
    && |s.gpu.created| <= |s'.gpu.created|
    && s'.gpu.created[..|s.gpu.created|] == s.gpu.created
    && var issued := s'.gpu.created[|s.gpu.created|..];
    && issued <= Commands(s.config.spec)
    && (UniqueIds(s.config.spec) ==> issued <= Plan(s.config.spec))
    && (issued != [] ==> s.gpu.instances == [] && s.config.enabled)
  }

  /** The GPU is as before except for the executor's luck. */
  ghost predicate SameButLuck(g: Gpu, g': Gpu)
  {
    g' == g.(outage := g'.outage)
  }

  lemma DiscoverEffect(g: Gpu)
    ensures var (g', found) := Discover(g);
      && SameButLuck(g, g') && (found.Some? ==> found.value == Report(g))
  {
  }

  lemma ReportIgnoresLuck(g: Gpu, g': Gpu)
    requires SameButLuck(g, g')
    ensures Report(g) == Report(g')
  {
    assert forall i :: 0 <= i < |g.rows| ==> RowStatus(g, g.rows[i]) == RowStatus(g', g.rows[i]);
  }

  lemma EnableEffect(c: Config, g: Gpu, place: Placement)
    requires g.Listed()
    ensures var r := Enable(c, g, place);
      && r.config == c.(status := r.config.status)
      && SameDevice(g, r.gpu) && r.gpu.Listed()
      && |g.created| <= |r.gpu.created| && r.gpu.created[..|g.created|] == g.created
      && r.gpu.created[|g.created|..] <= Commands(c.spec)
      && |r.gpu.instances| <= |g.instances| + |Commands(c.spec)|
      && (!r.failed ==>
        && r.config.status == Status(Report(r.gpu), Unset, "")
        && r.gpu.created == g.created + Commands(c.spec)
        && Profiles(r.gpu.instances) == Profiles(g.instances) + Commands(c.spec))
  {
    CreateAllEffect(g, place, Commands(c.spec));
    if CreateAll(g, place, Commands(c.spec)).1 {
      CreatedProfiles(g, place, Commands(c.spec));
    }
    var g1 := CreateAll(g, place, Commands(c.spec)).0;
    DiscoverEffect(g1);
    ReportIgnoresLuck(g1, Discover(g1).0);
  }

  lemma DisableEffect(c: Config, g: Gpu)
    requires g.Listed()
    ensures var r := Disable(c, g);
      && r.config == c.(status := r.config.status)
      && SameDevice(g, r.gpu) && r.gpu.Listed() && r.gpu.created == g.created
      && |r.gpu.instances| <= |g.instances|
      && (forall x :: x in r.gpu.instances ==> x in g.instances)
      && (!r.failed ==>
        && r.config.status == Status(Report(r.gpu), Disabled, "")
        && forall x :: x in r.gpu.instances ==> x.id !in RecordedIds(c.status.profiles))
  {
    DeleteAllEffect(g, RecordedIds(c.status.profiles));
    var g1 := DeleteAll(g, RecordedIds(c.status.profiles)).0;
    ListedSubset(g, g1);
    DiscoverEffect(g1);
    ReportIgnoresLuck(g1, Discover(g1).0);
  }

  lemma ReconcileSafe(node: string, s: System, place: Placement)
    requires Safe(s)
    ensures var r := Reconcile(node, s.config, s.gpu, place);
      Safe(System(r.config, r.gpu)) && Disciplined(s, System(r.config, r.gpu))
  {
    var c, g := s.config, s.gpu;
    DiscoverEffect(g);
    var (g1, found) := Discover(g);
    if !c.deleting && c.nodeName == node && found.Some? {
      CountSeesEveryInstance(g);
      if c.enabled && CountIds(found.value) == 0 {
        CommandsLength(c.spec);
        if UniqueIds(c.spec) {
          CommandsArePlan(c.spec);
        }
        EnableEffect(c, g1, place);
      } else if !c.enabled && CountIds(found.value) != 0 {
        DisableEffect(c, g1);
      }
    }
  }

  lemma {:induction false} NothingRequested(rows: seq<ProfileRow>)
    ensures Impacted(InitialSpec(rows)) == []
  {
    if rows != [] {
      NothingRequested(rows[..|rows| - 1]);
      assert InitialSpec(rows)[..|rows| - 1] == InitialSpec(rows[..|rows| - 1]);
    }
  }

  /** A configuration as it is first created for a GPU without instances is a safe start. */
  lemma InitialIsSafe(g: Gpu, nodeName: string, status: Status)
    requires g.instances == []
    ensures Safe(System(Config(nodeName, false, false, InitialSpec(g.rows), status), g))
  {
    NothingRequested(g.rows);
    CommandsLength(InitialSpec(g.rows));
  }

  lemma StepSafe(node: string, s: System, e: Event)
    requires Safe(s) && WellFormedEvent(e)
    ensures Safe(Step(node, s, e)) && Disciplined(s, Step(node, s, e))
  {
    match e
    case Edit(_, _) =>
    case Change(outage, place) => ReconcileSafe(node, s.(gpu := s.gpu.(outage := outage)), place);
    case Vanish(ids) => VanishedEffect(s.gpu, ids);
  }

  /**
   In every run, whatever edits users try, wherever commands fail and whatever vanishes from the GPU:
   at most seven instances exist, instances are created only when there is none, and each reconcile
   issues a prefix of the plan of the specification it saw.
   */
  lemma {:induction false} RunSafe(node: string, s: System, events: seq<Event>)
    requires Safe(s)
    requires forall i :: 0 <= i < |events| ==> WellFormedEvent(events[i])
    ensures Safe(Run(node, s, events))
    ensures forall i :: 0 <= i < |events| ==>
      Disciplined(Run(node, s, events[..i]), Run(node, s, events[..i + 1]))
  {
    if events != [] {
      var init := events[..|events| - 1];
      RunSafe(node, s, init);
      StepSafe(node, Run(node, s, init), events[|events| - 1]);
      assert events[..|events|] == events;
      forall i | 0 <= i < |events|
        ensures Disciplined(Run(node, s, events[..i]), Run(node, s, events[..i + 1]))
      {
        if i < |init| {
          assert init[..i] == events[..i] && init[..i + 1] == events[..i + 1];
        } else {
          assert events[..i] == init && events[..i + 1] == events;
        }
      }
    }
  }

  // ----- convergence -----

  ghost predicate Responsible(node: string, c: Config)
  {
    !c.deleting && c.nodeName == node
  }

  /** Reconciling the outcome of a reconcile, with new luck. */
  function Again(node: string, r: Outcome, outage: Outage, place: Placement): Outcome
  {
    Reconcile(node, r.config, r.gpu.(outage := outage), place)
  }

  lemma DisabledReconcile(node: string, c: Config, g: Gpu, place: Placement)
    requires Responsible(node, c) && !c.enabled && g.Listed()
    ensures var r := Reconcile(node, c, g, place);
      && r.gpu.Listed() && r.gpu.created == g.created && r.config == c.(status := r.config.status)
      && (g.instances == [] ==> r.config == c && r.gpu.instances == [])
      && (!r.failed && g.instances != [] ==>
        && r.config.status.profiles == Report(r.gpu)
        && (c.status.profiles == Report(g) ==> r.gpu.instances == []))
  {
    DiscoverEffect(g);
    CountSeesEveryInstance(g);
    var (g1, found) := Discover(g);
    if found.Some? && g.instances != [] {
      DisableEffect(c, g1);
      if c.status.profiles == Report(g) {
        ReportRecordsEveryInstance(g);
        var left := Disable(c, g1).gpu.instances;
        assert left == [] || left[0] in left;
      }
    }
  }

  /**
   A disabled configuration reaches zero instances within two error-free reconciles, from any
   disagreement between the recorded status and the GPU; after that nothing changes any more.
   */
  lemma DisabledConverges(node: string, c: Config, g: Gpu, place1: Placement, outage2: Outage, place2: Placement,
                          outage3: Outage, place3: Placement)
    requires Responsible(node, c) && !c.enabled && g.Listed()
    requires !Reconcile(node, c, g, place1).failed
    requires !Again(node, Reconcile(node, c, g, place1), outage2, place2).failed
    ensures var r2 := Again(node, Reconcile(node, c, g, place1), outage2, place2);
      var r3 := Again(node, r2, outage3, place3);
      && r2.gpu.instances == []
      && r3.config == r2.config && r3.gpu.instances == [] && r3.gpu.created == g.created
  {
    DisabledReconcile(node, c, g, place1);
    var r1 := Reconcile(node, c, g, place1);
    var g1 := r1.gpu.(outage := outage2);
    ReportIgnoresLuck(r1.gpu, g1);
    DisabledReconcile(node, r1.config, g1, place2);
    var r2 := Reconcile(node, r1.config, g1, place2);
    DisabledReconcile(node, r2.config, r2.gpu.(outage := outage3), place3);
  }

  lemma {:induction false} PositivePlan(spec: seq<ProfileRequest>)
    requires exists i :: 0 <= i < |spec| && spec[i].requested > 0
    ensures Commands(spec) != []
  {
    ImpactedNonEmpty(spec);
    var p := Impacted(spec)[0];
    RequestMapKeys(spec, p);
    assert RequestMap(spec)[p] > 0;
    assert |Repeat(p, RequestMap(spec)[p])| > 0;
  }

  lemma {:induction false} ImpactedNonEmpty(spec: seq<ProfileRequest>)
    requires exists i :: 0 <= i < |spec| && spec[i].requested > 0
    ensures Impacted(spec) != []
  {
    var i :| 0 <= i < |spec| && spec[i].requested > 0;
    if i < |spec| - 1 {
      assert spec[..|spec| - 1][i].requested > 0;
      ImpactedNonEmpty(spec[..|spec| - 1]);
    }
  }

  /** A synced configuration whose record matches the GPU is a fixed point of every reconcile, failing or not. */
  lemma SyncedIsFixed(node: string, c: Config, g: Gpu, place: Placement)
    requires c.enabled && g.Listed() && g.instances != []
    requires c.status.state == Synced && c.status.profiles == Report(g)
    ensures var r := Reconcile(node, c, g, place);
      r.config == c && SameButLuck(g, r.gpu)
  {
    DiscoverEffect(g);
    CountSeesEveryInstance(g);
  }

  lemma FirstSync(node: string, c: Config, g: Gpu, place: Placement)
    requires Responsible(node, c) && c.enabled && g.Listed() && g.instances != []
    requires c.status.profiles == Report(g)
    requires !Reconcile(node, c, g, place).failed
    ensures var r := Reconcile(node, c, g, place);
      SameButLuck(g, r.gpu) && r.config == c.(status := c.status.(state := Synced))
  {
    DiscoverEffect(g);
    CountSeesEveryInstance(g);
  }

  /**
   An enabled configuration with a positive request, starting from an empty GPU, is "synced" after
   two error-free reconciles, holds exactly the commanded instances, and then stays as it is.
   */
  lemma EnabledConverges(node: string, c: Config, g: Gpu, place1: Placement, outage2: Outage, place2: Placement,
                         outage3: Outage, place3: Placement)
    requires Responsible(node, c) && c.enabled && g.Listed() && g.instances == []
    requires exists i :: 0 <= i < |c.spec| && c.spec[i].requested > 0
    requires !Reconcile(node, c, g, place1).failed
    requires !Again(node, Reconcile(node, c, g, place1), outage2, place2).failed
    ensures var r2 := Again(node, Reconcile(node, c, g, place1), outage2, place2);
      var r3 := Again(node, r2, outage3, place3);
      && r2.config == c.(status := Status(Report(r2.gpu), Synced, ""))
      && r2.gpu.created == g.created + Commands(c.spec)
      && Profiles(r2.gpu.instances) == Commands(c.spec)
      && r3.config == r2.config && SameButLuck(r2.gpu, r3.gpu)
  {
    CountSeesEveryInstance(g);
    DiscoverEffect(g);
    PositivePlan(c.spec);
    EnableEffect(c, Discover(g).0, place1);
    var r1 := Reconcile(node, c, g, place1);
    var g1 := r1.gpu.(outage := outage2);
    ReportIgnoresLuck(r1.gpu, g1);
    FirstSync(node, r1.config, g1, place2);
    var r2 := Reconcile(node, r1.config, g1, place2);
    var g2 := r2.gpu.(outage := outage3);
    ReportIgnoresLuck(g1, r2.gpu);
    ReportIgnoresLuck(r2.gpu, g2);
    SyncedIsFixed(node, r2.config, g2, place3);
  }

  /**
   "Synced" compares the record with the GPU, not with the specification: an edit of the requests
   after the first reconcile and before the second is admitted whenever it asks for at most seven,
   and is then reported as synced although the GPU holds what the old specification asked for. That
   is what the new one asks for if and only if both lead to the same commands.
   */
  lemma EarlyEditIsReportedSynced(node: string, c: Config, g: Gpu, place1: Placement, spec: seq<ProfileRequest>,
                                  vgpuInUse: bool, outage2: Outage, place2: Placement)
    requires Responsible(node, c) && c.enabled && g.Listed() && g.instances == []
    requires exists i :: 0 <= i < |c.spec| && c.spec[i].requested > 0
    requires !Reconcile(node, c, g, place1).failed
    ensures var r1 := Reconcile(node, c, g, place1);
      var edited := r1.config.(spec := spec);
      && (Admits(r1.config, edited, vgpuInUse) <==> Requested(spec) <= MAX_INSTANCES)
      && var r2 := Reconcile(node, edited, r1.gpu.(outage := outage2), place2);
      !r2.failed ==>
        && r2.config.status.state == Synced && r2.config.spec == spec
        && r2.gpu.created == g.created + Commands(c.spec)
        && Profiles(r2.gpu.instances) == Commands(c.spec)
        && (Profiles(r2.gpu.instances) == Commands(spec) <==> Commands(spec) == Commands(c.spec))
  {
    CountSeesEveryInstance(g);
    DiscoverEffect(g);
    PositivePlan(c.spec);
    EnableEffect(c, Discover(g).0, place1);
    var r1 := Reconcile(node, c, g, place1);
    var g1 := r1.gpu.(outage := outage2);
    ReportIgnoresLuck(r1.gpu, g1);
    var edited := r1.config.(spec := spec);
    if !Reconcile(node, edited, g1, place2).failed {
      FirstSync(node, edited, g1, place2);
    }
  }

  // ----- when commands do succeed -----

  lemma {:induction false} DeletionsSucceed(g: Gpu, ids: seq<string>)
    requires g.outage == Never
    ensures DeleteAll(g, ids).1 && DeleteAll(g, ids).0.outage == Never
    decreases |ids|
  {
    if ids != [] {
      DeletionsSucceed(DeleteOne(g, ids[0]).0, ids[1..]);
    }
  }

  /**
   With an executor that answers, deleting never fails: the compute instance is gone before its
   GPU instance is deleted, and what no longer exists is not deleted again.
   */
  lemma DisabledSucceeds(node: string, c: Config, g: Gpu, place: Placement)
    requires !c.enabled && g.outage == Never
    ensures !Reconcile(node, c, g, place).failed
  {
    DeletionsSucceed(Discover(g).0, RecordedIds(c.status.profiles));
  }

  /** So two reconciles empty the GPU of a disabled configuration, whatever its record said. */
  lemma TwoReconcilesEmptyTheGpu(node: string, c: Config, g: Gpu, place1: Placement, place2: Placement)
    requires Responsible(node, c) && !c.enabled && g.Listed() && g.outage == Never
    ensures Again(node, Reconcile(node, c, g, place1), Never, place2).gpu.instances == []
  {
    DisabledSucceeds(node, c, g, place1);
    DisabledReconcile(node, c, g, place1);
    var r1 := Reconcile(node, c, g, place1);
    DisabledSucceeds(node, r1.config, r1.gpu.(outage := Never), place2);
    DisabledConverges(node, c, g, place1, Never, place2, Never, place2);
  }

  lemma {:induction false} CreationsSucceed(g: Gpu, place: Placement, profiles: seq<int>)
    requires g.outage == Never && forall p :: p in profiles ==> g.Knows(p)
    requires forall xs, p :: place(xs, p).Some?
    ensures CreateAll(g, place, profiles).1 && CreateAll(g, place, profiles).0.outage == Never
    decreases |profiles|
  {
    if profiles != [] {
      var g1 := CreateOne(g, place, profiles[0]).0;
      assert profiles[0] in profiles && forall p :: p in profiles[1..] ==> p in profiles;
      assert forall p :: g.Knows(p) ==> g1.Knows(p);
      CreationsSucceed(g1, place, profiles[1..]);
    }
  }

  /** With an executor that answers and a GPU that has room, enabling does not fail. */
  lemma EnabledSucceeds(node: string, c: Config, g: Gpu, place: Placement)
    requires c.enabled && g.outage == Never && forall p :: p in Commands(c.spec) ==> g.Knows(p)
    requires forall xs, p :: place(xs, p).Some?
    ensures !Reconcile(node, c, g, place).failed
  {
    CreationsSucceed(Discover(g).0, place, Commands(c.spec));
  }
}
