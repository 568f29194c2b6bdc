/**
 How many executor commands each operation on the GPU issues, and what it leaves behind when one of
 them is not answered.
 */
module MigCommands {
  import opened MigModel
  import opened MigTheorems
  import opened MigLaws

  /** The outage after `n` answered commands. */
  function Later(o: Outage, n: nat): Outage
    requires o.After? ==> o.commands >= n
  {
    if o.After? then After(o.commands - n) else o
  }

  /** A create is one command; it makes an instance if and only if it is answered and the GPU accepts it. */
  lemma CreateOneExactly(g: Gpu, place: Placement, profile: int)
    ensures var (g', ok) := CreateOne(g, place, profile); var id := place(g.instances, profile);
      && (ok <==> Answering(g, 1) && g.Knows(profile) && id.Some?)
      && g'.created == g.created + [profile]
      && g'.instances == (if ok then g.instances + [Instance(profile, id.value)] else g.instances)
      && g'.compute == (if ok then g.compute + {id.value} else g.compute)
      && g'.outage == (if Answering(g, 1) then Later(g.outage, 1) else g.outage)
  {
  }

  /** The commands of one deletion: two listings, and a deletion for what they show. */
  function DeleteCommands(g: Gpu, id: string): nat
  {
    2 + (if id in g.compute then 1 else 0) + (if HasId(g.instances, id) then 1 else 0)
  }

  lemma {:induction false} WithoutNothing(xs: seq<Instance>, id: string)
    requires !HasId(xs, id)
    ensures WithoutId(xs, id) == xs
  {
    if xs != [] {
      assert xs[0].id != id;
      forall i | 0 <= i < |xs| - 1 ensures xs[1..][i].id != id {
        assert xs[i + 1].id != id;
      }
      WithoutNothing(xs[1..], id);
    }
  }

  lemma ComputeStep(g: Gpu, id: string)
    ensures var (g', ok) := DeleteCompute(g, id); var n := if id in g.compute then 2 else 1;
      && (ok <==> Answering(g, n)) && g'.instances == g.instances
      && g'.compute == (if Answering(g, 2) then g.compute - {id} else g.compute)
      && (ok ==> id !in g'.compute)
      && g'.outage == if ok then Later(g.outage, n) else After(0)
  {
    assert id !in g.compute ==> g.compute - {id} == g.compute;
  }

  lemma GpuStep(g: Gpu, id: string)
    requires id !in g.compute
    ensures var (g', ok) := DeleteGpuInstance(g, id); var n := if HasId(g.instances, id) then 2 else 1;
      && (ok <==> Answering(g, n)) && g'.compute == g.compute
      && g'.instances == (if ok then WithoutId(g.instances, id) else g.instances)
      && g'.outage == if ok then Later(g.outage, n) else After(0)
  {
    if !HasId(g.instances, id) {
      WithoutNothing(g.instances, id);
    }
  }

  /**
   A deletion succeeds if and only if all its commands are answered. Then exactly that identifier is
   gone; otherwise no GPU instance is, and the compute instance is gone only if its own deletion,
   the second command, was answered.
   */
  lemma DeleteOneExactly(g: Gpu, id: string)
    ensures var (g', ok) := DeleteOne(g, id);
      && (ok <==> Answering(g, DeleteCommands(g, id)))
      && g'.instances == (if ok then WithoutId(g.instances, id) else g.instances)
      && g'.compute == (if Answering(g, 2) then g.compute - {id} else g.compute)
      && g'.outage == if ok then Later(g.outage, DeleteCommands(g, id)) else After(0)
  {
    ComputeStep(g, id);
    var (g1, ok) := DeleteCompute(g, id);
    if ok {
      GpuStep(g1, id);
      assert id !in g.compute ==> g.compute - {id} == g.compute;
    }
  }

  /** The order matters: the GPU refuses to delete an instance before its compute instance. */
  lemma GpuInstanceFirstFails(g: Gpu, id: string)
    requires id in g.compute && HasId(g.instances, id)
    ensures var (g', ok) := DeleteGpuInstance(g, id); !ok && g'.instances == g.instances && g'.compute == g.compute
  {
  }

  /** A run of creates succeeds if and only if every command is answered, if the GPU accepts them all. */
  lemma {:induction false} CreateAllExactly(g: Gpu, place: Placement, profiles: seq<int>)
    requires (forall p :: p in profiles ==> g.Knows(p)) && (forall xs, p :: place(xs, p).Some?)
    ensures var (g', ok) := CreateAll(g, place, profiles);
      && (ok <==> Answering(g, |profiles|))
      && (ok ==> g'.outage == Later(g.outage, |profiles|))
      && (!ok ==> |g'.instances| == |g.instances| + g.outage.commands)
    decreases |profiles|
  {
    if profiles != [] {
      assert profiles[0] in profiles;
      CreateOneExactly(g, place, profiles[0]);
      var (g1, ok) := CreateOne(g, place, profiles[0]);
      if ok {
        assert forall p :: p in profiles[1..] ==> p in profiles && g.Knows(p);
        assert forall p :: g.Knows(p) ==> g1.Knows(p);
        CreateAllExactly(g1, place, profiles[1..]);
      }
    }
  }

  /**
   Enabling takes two listings before and two after the creates: on a GPU that accepts the profiles
   it fails if and only if one of these commands is not answered.
   */
  lemma EnablingSucceedsExactly(node: string, c: Config, g: Gpu, place: Placement)
    requires Responsible(node, c) && c.enabled && g.Listed() && g.instances == []
    requires (forall p :: p in Commands(c.spec) ==> g.Knows(p)) && (forall xs, p :: place(xs, p).Some?)
    ensures Reconcile(node, c, g, place).failed <==> !Answering(g, |Commands(c.spec)| + 4)
  {
    CountSeesEveryInstance(g);
    DiscoverEffect(g);
    if Answering(g, 2) {
      var g1 := Discover(g).0;
      assert forall p :: g.Knows(p) ==> g1.Knows(p);
      CreateAllExactly(g1, place, Commands(c.spec));
    }
  }

  /** The commands of a run of deletions, each on what the ones before it have left. */
  function DeleteAllCommands(g: Gpu, ids: seq<string>): nat
    decreases |ids|
  {
    if ids == [] then 0 else DeleteCommands(g, ids[0]) + DeleteAllCommands(Without(g, ids[0]), ids[1..])
  }

  /** The GPU without an identifier. */
  function Without(g: Gpu, id: string): Gpu
  {
    g.(instances := WithoutId(g.instances, id), compute := g.compute - {id}, outage := Never)
  }

  lemma DeletedIsWithout(g: Gpu, id: string)
    requires DeleteOne(g, id).1
    ensures DeleteOne(g, id).0.(outage := Never) == Without(g, id)
  {
    DeleteOneExactly(g, id);
  }

  lemma {:induction false} CommandsIgnoreLuck(g: Gpu, g': Gpu, ids: seq<string>)
    requires g'.instances == g.instances && g'.compute == g.compute
    ensures DeleteAllCommands(g, ids) == DeleteAllCommands(g', ids)
    decreases |ids|
  {
    if ids != [] {
      CommandsIgnoreLuck(Without(g, ids[0]), Without(g', ids[0]), ids[1..]);
    }
  }

  /** A run of deletions succeeds if and only if all its commands are answered. */
  lemma {:induction false} DeleteAllExactly(g: Gpu, ids: seq<string>)
    ensures var (g', ok) := DeleteAll(g, ids);
      && (ok <==> Answering(g, DeleteAllCommands(g, ids)))
      && (ok ==> g'.outage == Later(g.outage, DeleteAllCommands(g, ids)))
    decreases |ids|
  {
    if ids != [] {
      DeleteOneExactly(g, ids[0]);
      var (g1, ok) := DeleteOne(g, ids[0]);
      if ok {
        DeletedIsWithout(g, ids[0]);
        CommandsIgnoreLuck(g1, Without(g, ids[0]), ids[1..]);
        DeleteAllExactly(g1, ids[1..]);
      }
    }
  }

  /** Disabling takes two listings before and two after the deletions, and fails exactly if one is not answered. */
  lemma DisablingSucceedsExactly(node: string, c: Config, g: Gpu, place: Placement)
    requires Responsible(node, c) && !c.enabled && g.Listed() && g.instances != []
    ensures Reconcile(node, c, g, place).failed <==>
      !Answering(g, DeleteAllCommands(g, RecordedIds(c.status.profiles)) + 4)
  {
    CountSeesEveryInstance(g);
    DiscoverEffect(g);
    if Answering(g, 2) {
      var g1 := Discover(g).0;
      CommandsIgnoreLuck(g, g1, RecordedIds(c.status.profiles));
      DisableExactly(c, g1);
    }
  }

  lemma DisableExactly(c: Config, g: Gpu)
    ensures Disable(c, g).failed <==> !Answering(g, DeleteAllCommands(g, RecordedIds(c.status.profiles)) + 2)
  {
    DeleteAllExactly(g, RecordedIds(c.status.profiles));
    DiscoverExactly(DeleteAll(g, RecordedIds(c.status.profiles)).0);
  }

  lemma DiscoverExactly(g: Gpu)
    ensures Discover(g).1.Some? <==> Answering(g, 2)
    ensures Answering(g, 2) ==> Discover(g).0 == g.(outage := Later(g.outage, 2))
  {
  }
}
