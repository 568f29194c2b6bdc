/**
 The MIG controller as it runs: a GPU that commands change in place, the command loops, and
 OnMIGChange on the stored object, each proved against the state machine of MigModel.
 */
module MigController {
  import opened Text
  import M = MigModel

  /** The GPU behind the executor. */
  class Device {
    const rows: seq<M.ProfileRow>
    const available: (seq<M.Instance>, int) -> int
    var instances: seq<M.Instance>
    var compute: set<string>
    var created: seq<int>
    var outage: M.Outage

    constructor (rows: seq<M.ProfileRow>, available: (seq<M.Instance>, int) -> int, outage: M.Outage)
      ensures State() == M.Gpu(rows, available, [], {}, [], outage)
    {
      this.rows, this.available := rows, available;
      instances, compute, created, this.outage := [], {}, [], outage;
    }

    ghost function State(): M.Gpu
      reads this
    {
      M.Gpu(rows, available, instances, compute, created, outage)
    }

    /** One command: whether the executor answers it. */
    method Answer() returns (ok: bool)
      modifies this`outage
      ensures ok == old(State()).Answers()
      ensures State() == old(State()).Tick()
    {
      ok := outage != M.After(0);
      if outage.After? && outage.commands > 0 {
        outage := M.After(outage.commands - 1);
      }
    }

    method CreateMIGInstance(place: M.Placement, profile: int) returns (ok: bool)
      modifies this
      ensures (State(), ok) == M.CreateOne(old(State()), place, profile)
    {
      created := created + [profile];
      var answered := Answer();
      var id := place(instances, profile);
      if !answered {
        return false;
      }
      if !(exists i :: 0 <= i < |rows| && rows[i].id == profile) || id.None? {
        return false;
      }
      instances := instances + [M.Instance(profile, id.value)];
      compute := compute + {id.value};
      return true;
    }

    /** Check that the compute and the GPU instance still exist before deleting them, in that order. */
    method DeleteMIGInstance(id: string) returns (ok: bool)
      modifies this
      ensures (State(), ok) == M.DeleteOne(old(State()), id)
    {
      ok := Answer();
      if !ok {
        return;
      }
      if id in compute {
        ok := Answer();
        if !ok {
          return;
        }
        compute := compute - {id};
      }
      assert (State(), true) == M.DeleteCompute(old(State()), id);
      ok := Answer();
      if !ok {
        return;
      }
      if exists i :: 0 <= i < |instances| && instances[i].id == id {
        ok := Answer();
        if !ok {
          return;
        }
        instances := M.WithoutId(instances, id);
      }
    }

    /** Group the instance rows by profile, keeping each identifier once. */
    method ProfileInstanceMap() returns (ids: map<int, seq<string>>)
      ensures forall p :: M.IdsOf(instances, p) == if p in ids then ids[p] else []
    {
      ids := map[];
      for k := 0 to |instances|
        invariant forall p :: M.IdsOf(instances[..k], p) == if p in ids then ids[p] else []
      {
        var x := instances[k];
        assert instances[..k + 1][..k] == instances[..k];
        var known := if x.profile in ids then ids[x.profile] else [];
        if x.id !in known {
          known := known + [x.id];
        }
        ids := ids[x.profile := known];
      }
      assert instances[..|instances|] == instances;
    }

    /** The profile rows, without instance identifiers. */
    method ListProfiles() returns (statuses: seq<M.ProfileStatus>)
      ensures |statuses| == |rows|
      ensures forall i :: 0 <= i < |rows| ==> statuses[i] == M.RowStatus(State(), rows[i]).(vgpuIds := [])
    {
      statuses := [];
      for k := 0 to |rows|
        invariant |statuses| == k
        invariant forall i :: 0 <= i < k ==> statuses[i] == M.RowStatus(State(), rows[i]).(vgpuIds := [])
      {
        var row := rows[k];
        statuses := statuses + [M.ProfileStatus(row.id, row.name, available(instances, row.id), row.total, [])];
      }
    }

    method GenerateStatus() returns (found: Option<seq<M.ProfileStatus>>)
      modifies this`outage
      ensures (State(), found) == M.Discover(old(State()))
    {
      var ok := Answer();
      if !ok {
        return None;
      }
      var listed := ProfileInstanceMap();
      ok := Answer();
      if !ok {
        return None;
      }
      var statuses := ListProfiles();
      for k := 0 to |rows|
        invariant |statuses| == |rows|
        invariant forall i :: 0 <= i < k ==> statuses[i] == M.RowStatus(State(), rows[i])
        invariant forall i :: k <= i < |rows| ==> statuses[i] == M.RowStatus(State(), rows[i]).(vgpuIds := [])
      {
        if statuses[k].id in listed {
          statuses := statuses[k := statuses[k].(vgpuIds := listed[statuses[k].id])];
        }
      }
      assert forall i :: 0 <= i < |rows| ==> M.RowStatus(State(), rows[i]) == M.RowStatus(old(State()), rows[i]);
      assert statuses == M.Report(old(State()));
      return Some(statuses);
    }

    /** Collect the positive requests, then create them profile by profile until one fails. */
    method EnableMIGProfiles(place: M.Placement, spec: seq<M.ProfileRequest>) returns (ok: bool)
      modifies this
      ensures (State(), ok) == M.CreateAll(old(State()), place, M.Commands(spec))
    {
      var impacted, requests := ImpactedProfiles(spec);
      assert impacted[0..] == impacted;
      for k := 0 to |impacted|
        invariant M.CreateAll(old(State()), place, M.Commands(spec))
          == M.CreateAll(State(), place, M.CommandsFor(impacted[k..], requests))
      {
        var p := impacted[k];
        assert impacted[k..][1..] == impacted[k + 1..];
        M.CreateAllAppend(State(), place, M.Repeat(p, requests[p]), M.CommandsFor(impacted[k + 1..], requests));
        ok := CreateInstances(place, p, requests[p]);
        if !ok {
          return;
        }
      }
      return true;
    }

    method CreateInstances(place: M.Placement, profile: int, n: nat) returns (ok: bool)
      modifies this
      ensures (State(), ok) == M.CreateAll(old(State()), place, M.Repeat(profile, n))
    {
      for i := 0 to n
        invariant M.CreateAll(old(State()), place, M.Repeat(profile, n))
          == M.CreateAll(State(), place, M.Repeat(profile, n - i))
      {
        assert M.Repeat(profile, n - i)[1..] == M.Repeat(profile, n - i - 1);
        ok := CreateMIGInstance(place, profile);
        if !ok {
          return;
        }
      }
      return true;
    }

    method DeleteInstances(ids: seq<string>) returns (ok: bool)
      modifies this
      ensures (State(), ok) == M.DeleteAll(old(State()), ids)
    {
      assert ids[0..] == ids;
      for i := 0 to |ids|
        invariant M.DeleteAll(old(State()), ids) == M.DeleteAll(State(), ids[i..])
      {
        assert ids[i..][0] == ids[i] && ids[i..][1..] == ids[i + 1..];
        ok := DeleteMIGInstance(ids[i]);
        if !ok {
          return;
        }
      }
      return true;
    }

    /** Delete every instance that the recorded status names, until one deletion fails. */
    method DisableMIGProfiles(recorded: seq<M.ProfileStatus>) returns (ok: bool)
      modifies this
      ensures (State(), ok) == M.DeleteAll(old(State()), M.RecordedIds(recorded))
    {
      assert recorded[0..] == recorded;
      for k := 0 to |recorded|
        invariant M.DeleteAll(old(State()), M.RecordedIds(recorded))
          == M.DeleteAll(State(), M.RecordedIds(recorded[k..]))
      {
        assert recorded[k..][1..] == recorded[k + 1..];
        M.DeleteAllAppend(State(), recorded[k].vgpuIds, M.RecordedIds(recorded[k + 1..]));
        ok := DeleteInstances(recorded[k].vgpuIds);
        if !ok {
          return;
        }
      }
      return true;
    }
  }

  /** The positive requests of a specification: their profiles in order, and the number last asked for each. */
  method ImpactedProfiles(spec: seq<M.ProfileRequest>) returns (impacted: seq<int>, requests: map<int, int>)
    ensures impacted == M.Impacted(spec) && requests == M.RequestMap(spec)
    ensures forall p :: p in impacted ==> p in requests
  {
    impacted, requests := [], map[];
    for k := 0 to |spec|
      invariant impacted == M.Impacted(spec[..k])
      invariant requests == M.RequestMap(spec[..k])
      invariant forall p :: p in impacted ==> p in requests
    {
      assert spec[..k + 1][..k] == spec[..k];
      if spec[k].requested > 0 {
        impacted := impacted + [spec[k].id];
        requests := requests[spec[k].id := spec[k].requested];
      }
    }
    assert spec[..|spec|] == spec;
  }

  method InstanceCount(profiles: seq<M.ProfileStatus>) returns (n: nat)
    ensures n == M.CountIds(profiles)
  {
    n := 0;
    for k := 0 to |profiles|
      invariant n == M.CountIds(profiles[..k])
    {
      assert profiles[..k + 1][..k] == profiles[..k];
      n := n + |profiles[k].vgpuIds|;
    }
    assert profiles[..|profiles|] == profiles;
  }

  /** The reconcile handler of one node, with the stored object it updates. */
  class Handler {
    const nodeName: string
    const gpu: Device
    var stored: M.Config

    constructor (nodeName: string, gpu: Device, stored: M.Config)
      ensures this.nodeName == nodeName && this.gpu == gpu && this.stored == stored
    {
      this.nodeName, this.gpu, this.stored := nodeName, gpu, stored;
    }

    method OnMIGChange(place: M.Placement) returns (failed: bool)
      modifies this`stored, gpu
      ensures M.Outcome(stored, gpu.State(), failed) == M.Reconcile(nodeName, old(stored), old(gpu.State()), place)
    {
      var mig := stored;
      if mig.deleting || mig.nodeName != nodeName {
        return false;
      }
      var found := gpu.GenerateStatus();
      if found.None? {
        return true;
      }
      var count := InstanceCount(found.value);
      if mig.enabled && count == 0 {
        var ok := gpu.EnableMIGProfiles(place, mig.spec);
        if !ok {
          stored := mig.(status := mig.status.(message := M.CREATE_FAILED));
          return true;
        }
        found := gpu.GenerateStatus();
        if found.None? {
          return true;
        }
        stored := mig.(status := M.Status(found.value, M.Unset, ""));
        return false;
      }
      if mig.enabled {
        var state := if mig.status.profiles == found.value then M.Synced else M.OutOfSync;
        if mig.status.state != state {
          stored := mig.(status := mig.status.(state := state));
          return false;
        }
      }
      if !mig.enabled && count != 0 {
        var ok := gpu.DisableMIGProfiles(mig.status.profiles);
        if !ok {
          return true;
        }
        found := gpu.GenerateStatus();
        if found.None? {
          return true;
        }
        stored := mig.(status := M.Status(found.value, M.Disabled, ""));
        return false;
      }
      return false;
    }
  }

  /** The validator's decision on a user edit. */
  method Update(before: M.Config, after: M.Config, vgpus: seq<bool>) returns (admitted: bool)
    ensures admitted == M.Admits(before, after, true in vgpus)
  {
    var count := 0;
    for k := 0 to |after.spec|
      invariant count == M.Requested(after.spec[..k])
    {
      assert after.spec[..k + 1][..k] == after.spec[..k];
      count := count + after.spec[k].requested;
    }
    assert after.spec[..|after.spec|] == after.spec;
    if count > M.MAX_INSTANCES {
      return false;
    }
    if before.status.state == M.OutOfSync || before.status.state == M.Synced {
      if before.spec != after.spec {
        return false;
      }
    }
    if !before.enabled && after.enabled {
      admitted := ValidRequestedCount(after);
      return;
    }
    if before.enabled && !after.enabled {
      for k := 0 to |vgpus|
        invariant true !in vgpus[..k]
      {
        if vgpus[k] {
          return false;
        }
      }
      assert vgpus[..|vgpus|] == vgpus;
    }
    return true;
  }

  method ValidRequestedCount(c: M.Config) returns (ok: bool)
    ensures ok == M.WithinAvailable(c)
  {
    var available: map<int, int> := map[];
    var ps := c.status.profiles;
    for k := 0 to |ps|
      invariant forall id :: M.Availability(ps[..k], id) == if id in available then available[id] else 0
    {
      assert ps[..k + 1][..k] == ps[..k];
      available := available[ps[k].id := ps[k].available];
    }
    assert ps[..|ps|] == ps;
    for k := 0 to |c.spec|
      invariant forall i :: 0 <= i < k ==> c.spec[i].requested <= M.Availability(ps, c.spec[i].id)
    {
      var limit := if c.spec[k].id in available then available[c.spec[k].id] else 0;
      if c.spec[k].requested > limit {
        return false;
      }
    }
    return true;
  }
}
