/**
 What admission and reconcile do to a configuration, case by case: which edits take effect, what is
 reported when, and how long a specification stays locked.
 */
module MigLaws {
  import opened MigModel
  import opened MigTheorems

  // ----- what a reconcile reports -----

  /** The executor answers at least `n` more commands. */
  predicate Answering(g: Gpu, n: nat) { g.outage.Never? || g.outage.commands >= n }

  /** Another node's configuration, or one that is being deleted, is left alone. */
  lemma OthersLeftAlone(node: string, c: Config, g: Gpu, place: Placement)
    requires c.deleting || c.nodeName != node
    ensures Reconcile(node, c, g, place) == Outcome(c, g, false)
  {
  }

  /** Without an answer to both listings the reconcile fails and changes nothing. */
  lemma UnansweredChangesNothing(node: string, c: Config, g: Gpu, place: Placement)
    requires Responsible(node, c) && !Answering(g, 2)
    ensures var r := Reconcile(node, c, g, place); r.failed && r.config == c && SameButLuck(g, r.gpu)
  {
  }

  /**
   With instances on the GPU, an enabled configuration becomes synced if and only if its record
   equals the report, out of sync if and only if it differs, and nothing else changes.
   */
  lemma CompareExactly(node: string, c: Config, g: Gpu, place: Placement)
    requires Responsible(node, c) && c.enabled && g.Listed() && g.instances != [] && Answering(g, 2)
    ensures var r := Reconcile(node, c, g, place);
      && !r.failed && SameButLuck(g, r.gpu)
      && (r.config.status.state == Synced <==> c.status.profiles == Report(g))
      && (r.config.status.state == OutOfSync <==> c.status.profiles != Report(g))
      && r.config == c.(status := c.status.(state := r.config.status.state))
  {
    DiscoverEffect(g);
    CountSeesEveryInstance(g);
  }

  lemma {:induction false} FailedCreatesFewer(g: Gpu, place: Placement, profiles: seq<int>)
    requires !CreateAll(g, place, profiles).1
    ensures |CreateAll(g, place, profiles).0.instances| < |g.instances| + |profiles|
    decreases |profiles|
  {
    var (g1, ok) := CreateOne(g, place, profiles[0]);
    if ok {
      FailedCreatesFewer(g1, place, profiles[1..]);
    }
  }

  /**
   An enabling that fails leaves the record and the state alone; it leaves a message if and only if
   a create failed, so that fewer instances than commanded exist.
   */
  lemma FailedEnablingExactly(node: string, c: Config, g: Gpu, place: Placement)
    requires Responsible(node, c) && c.enabled && g.Listed() && g.instances == [] && Answering(g, 2)
    requires Reconcile(node, c, g, place).failed
    ensures var r := Reconcile(node, c, g, place);
      r.config ==
        if |r.gpu.instances| < |Commands(c.spec)| then c.(status := c.status.(message := CREATE_FAILED)) else c
  {
    DiscoverEffect(g);
    CountSeesEveryInstance(g);
    var g1 := Discover(g).0;
    CreateAllEffect(g1, place, Commands(c.spec));
    if CreateAll(g1, place, Commands(c.spec)).1 {
      DiscoverEffect(CreateAll(g1, place, Commands(c.spec)).0);
    } else {
      FailedCreatesFewer(g1, place, Commands(c.spec));
    }
  }

  /** An enabling that succeeds records the report, clears the message and leaves the state empty. */
  lemma EnablingRecords(node: string, c: Config, g: Gpu, place: Placement)
    requires Responsible(node, c) && c.enabled && g.Listed() && g.instances == []
    requires !Reconcile(node, c, g, place).failed
    ensures var r := Reconcile(node, c, g, place); r.config == c.(status := Status(Report(r.gpu), Unset, ""))
  {
    DiscoverEffect(g);
    CountSeesEveryInstance(g);
    EnableEffect(c, Discover(g).0, place);
  }

  /** A disabled configuration is recorded as disabled once its deletions succeed, and otherwise left alone. */
  lemma DisablingRecords(node: string, c: Config, g: Gpu, place: Placement)
    requires Responsible(node, c) && !c.enabled && g.Listed()
    ensures var r := Reconcile(node, c, g, place);
      r.config == if r.failed || g.instances == [] then c else c.(status := Status(Report(r.gpu), Disabled, ""))
  {
    DiscoverEffect(g);
    CountSeesEveryInstance(g);
    var g1 := Discover(g).0;
    if Discover(g).1.Some? && g.instances != [] {
      DisableEffect(c, g1);
      DiscoverEffect(DeleteAll(g1, RecordedIds(c.status.profiles)).0);
    }
  }

  // ----- which edits take effect -----

  /** No edit disables a configuration that has an enabled vGPU. */
  lemma InUseStaysEnabled(node: string, s: System, after: Config)
    requires s.config.enabled
    ensures Step(node, s, Edit(after, true)).config.enabled
  {
  }

  predicate Locked(c: Config) { c.status.state == Synced || c.status.state == OutOfSync }

  /** While synced or out of sync no edit changes the specification, and no edit ever touches the status or the GPU. */
  lemma EditKeeps(node: string, s: System, after: Config, inUse: bool)
    ensures var t := Step(node, s, Edit(after, inUse));
      && (Locked(s.config) ==> t.config.spec == s.config.spec)
      && t.config.status == s.config.status && t.gpu == s.gpu
  {
  }

  /** No row after the j-th has its ID. */
  predicate LastRow(ps: seq<ProfileStatus>, j: nat)
    requires j < |ps|
  {
    forall k :: j < k < |ps| ==> ps[k].id != ps[j].id
  }

  /** The request is within what the last row with its ID offers, or asks for nothing if there is no such row. */
  predicate Offered(ps: seq<ProfileStatus>, r: ProfileRequest)
  {
    || (exists j :: 0 <= j < |ps| && ps[j].id == r.id && LastRow(ps, j) && r.requested <= ps[j].available)
    || ((forall j :: 0 <= j < |ps| ==> ps[j].id != r.id) && r.requested <= 0)
  }

  lemma {:induction false} OfferedExactly(ps: seq<ProfileStatus>, r: ProfileRequest)
    ensures Offered(ps, r) <==> r.requested <= Availability(ps, r.id)
  {
    if ps != [] {
      var init, last := ps[..|ps| - 1], ps[|ps| - 1];
      if last.id == r.id {
        assert LastRow(ps, |ps| - 1);
      } else {
        OfferedExactly(init, r);
        assert forall j :: 0 <= j < |init| ==>
          init[j] == ps[j] && (LastRow(init, j) && ps[j].id == r.id ==> LastRow(ps, j));
        assert forall j :: 0 <= j < |init| ==> (LastRow(ps, j) ==> LastRow(init, j));
      }
    }
  }

  /** Whatever an edit enables is offered by the recorded status. */
  lemma EnabledIsOffered(node: string, s: System, after: Config, inUse: bool)
    requires !s.config.enabled && Step(node, s, Edit(after, inUse)).config.enabled
    ensures forall i :: 0 <= i < |after.spec| ==> Offered(s.config.status.profiles, after.spec[i])
  {
    forall i | 0 <= i < |after.spec| ensures Offered(s.config.status.profiles, after.spec[i]) {
      OfferedExactly(s.config.status.profiles, after.spec[i]);
    }
  }

  /** No edit makes a specification ask for more than seven in sum. */
  lemma EditAsksForSeven(node: string, s: System, after: Config, inUse: bool)
    ensures var t := Step(node, s, Edit(after, inUse));
      t.config != s.config ==> Requested(t.config.spec) <= 7
  {
  }

  /** These are the only reasons to refuse: an edit that respects them takes effect. */
  lemma EditTakesEffect(node: string, s: System, after: Config, inUse: bool)
    requires Requested(after.spec) <= 7
    requires Locked(s.config) ==> after.spec == s.config.spec
    requires s.config.enabled && !after.enabled ==> !inUse
    requires !s.config.enabled && after.enabled ==>
      forall i :: 0 <= i < |after.spec| ==> Offered(s.config.status.profiles, after.spec[i])
    ensures Step(node, s, Edit(after, inUse)).config == after.(status := s.config.status)
  {
    forall i | 0 <= i < |after.spec| && Offered(s.config.status.profiles, after.spec[i])
      ensures after.spec[i].requested <= Availability(s.config.status.profiles, after.spec[i].id)
    {
      OfferedExactly(s.config.status.profiles, after.spec[i]);
    }
  }

  // ----- how long a specification stays locked -----

  /**
   A locked specification is unlocked by one thing only: a reconcile of this node that succeeds and
   finds the configuration disabled with instances to delete, or enabled with none left.
   */
  lemma UnlockedExactly(node: string, s: System, e: Event)
    requires s.gpu.Listed() && Locked(s.config)
    ensures !Locked(Step(node, s, e).config) <==>
      && e.Change? && Responsible(node, s.config)
      && (s.config.enabled <==> s.gpu.instances == [])
      && !Reconcile(node, s.config, s.gpu.(outage := e.outage), e.place).failed
  {
    if e.Change? && Responsible(node, s.config) {
      var g := s.gpu.(outage := e.outage);
      DiscoverEffect(g);
      CountSeesEveryInstance(g);
      if Discover(g).1.Some? {
        if s.config.enabled && g.instances == [] {
          EnableEffect(s.config, Discover(g).0, e.place);
        } else if !s.config.enabled {
          DisablingRecords(node, s.config, g, e.place);
        }
      }
    }
  }

  /** The specification only ever changes by an edit of an unlocked configuration. */
  lemma SpecChangesByEdit(node: string, s: System, e: Event)
    requires Step(node, s, e).config.spec != s.config.spec
    ensures e.Edit? && !Locked(s.config)
  {
  }

  lemma RunNext(node: string, s: System, events: seq<Event>, k: nat)
    requires k < |events|
    ensures Run(node, s, events[..k + 1]) == Step(node, Run(node, s, events[..k]), events[k])
  {
    assert events[..k + 1][..k] == events[..k];
  }

  /** In every run a specification stays the same as long as it is locked. */
  lemma {:induction false} LockedKeepsSpec(node: string, s: System, events: seq<Event>, k: nat)
    requires k <= |events| && forall i :: 0 <= i < k ==> Locked(Run(node, s, events[..i]).config)
    ensures Run(node, s, events[..k]).config.spec == s.config.spec
  {
    if k == 0 {
      assert events[..0] == [];
    } else {
      LockedKeepsSpec(node, s, events, k - 1);
      RunNext(node, s, events, k - 1);
      if Run(node, s, events[..k]).config.spec != Run(node, s, events[..k - 1]).config.spec {
        SpecChangesByEdit(node, Run(node, s, events[..k - 1]), events[k - 1]);
      }
    }
  }

  /** An enabled configuration with instances on the GPU. */
  ghost predicate Running(s: System) { s.config.enabled && s.gpu.instances != [] }

  lemma RunningStep(node: string, s: System, e: Event)
    requires s.gpu.Listed() && Locked(s.config) && Running(s)
    ensures Step(node, s, e).gpu.Listed() && Locked(Step(node, s, e).config)
    ensures Step(node, s, e).config.spec == s.config.spec
  {
    UnlockedExactly(node, s, e);
    match e
    case Edit(_, _) =>
    case Change(outage, _) =>
      DiscoverEffect(s.gpu.(outage := outage));
      CountSeesEveryInstance(s.gpu.(outage := outage));
    case Vanish(ids) => VanishedEffect(s.gpu, ids);
  }

  /** So a synced or out-of-sync specification stays until it is disabled or its last instance vanishes. */
  lemma {:induction false} RunningKeepsSpec(node: string, s: System, events: seq<Event>, k: nat)
    requires s.gpu.Listed() && Locked(s.config) && k <= |events|
    requires forall i :: 0 <= i < k ==> Running(Run(node, s, events[..i]))
    ensures var t := Run(node, s, events[..k]);
      t.gpu.Listed() && Locked(t.config) && t.config.spec == s.config.spec
  {
    if k == 0 {
      assert events[..0] == [];
    } else {
      RunningKeepsSpec(node, s, events, k - 1);
      RunNext(node, s, events, k - 1);
      RunningStep(node, Run(node, s, events[..k - 1]), events[k - 1]);
    }
  }
}
