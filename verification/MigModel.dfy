/**
 The MIG instance protocol as a state machine over values: the GPU and the commands it answers,
 the admission rule on user edits, and one reconcile step of the controller.
 */
module MigModel {
  import opened Text

  // ----- the MigConfiguration object -----

  datatype ProfileRequest = ProfileRequest(id: int, name: string, requested: int)

  datatype ProfileStatus = ProfileStatus(id: int, name: string, available: int, total: int, vgpuIds: seq<string>)

  /** The status string; `Unset` is the empty string. */
  datatype SyncState = Unset | Synced | OutOfSync | Disabled

  datatype Status = Status(profiles: seq<ProfileStatus>, state: SyncState, message: string)

  datatype Config = Config(nodeName: string, deleting: bool, enabled: bool, spec: seq<ProfileRequest>, status: Status)

  const MAX_INSTANCES := 7

  const CREATE_FAILED := "failed creation"

  // ----- the GPU -----

  /** One row of the profile listing. */
  datatype ProfileRow = ProfileRow(id: int, name: string, total: int)

  /** One row of the instance listing. */
  datatype Instance = Instance(profile: int, id: string)

  /** How many more commands the executor answers before one fails. */
  datatype Outage = Never | After(commands: nat)

  /** The identifier the GPU gives to a new instance of a profile, or None if it refuses. */
  type Placement = (seq<Instance>, int) -> Option<string>

  /**
   `available` is the GPU's own arithmetic for the number of further instances; `created` is the
   log of every create command issued, answered or not.
   */
  datatype Gpu = Gpu(
    rows: seq<ProfileRow>,
    available: (seq<Instance>, int) -> int,
    instances: seq<Instance>,
    compute: set<string>,
    created: seq<int>,
    outage: Outage)
  {
    predicate Answers() { outage != After(0) }

    /** The GPU after one executor command. */
    function Tick(): Gpu
    {
      if outage.After? && outage.commands > 0 then this.(outage := After(outage.commands - 1)) else this
    }

    predicate Knows(profile: int)
    {
      exists i :: 0 <= i < |rows| && rows[i].id == profile
    }

    /** Every instance has a profile that the profile listing shows. */
    predicate Listed()
    {
      forall i :: 0 <= i < |instances| ==> Knows(instances[i].profile)
    }
  }

  /** The profiles of the instances, in order. */
  function Profiles(xs: seq<Instance>): seq<int>
  {
    seq(|xs|, i requires 0 <= i < |xs| => xs[i].profile)
  }

  /** The distinct instance identifiers of a profile, in order of first appearance. */
  function IdsOf(xs: seq<Instance>, profile: int): seq<string>
  {
    if xs == [] then []
    else
      var ids := IdsOf(xs[..|xs| - 1], profile);
      var x := xs[|xs| - 1];
      if x.profile == profile && x.id !in ids then ids + [x.id] else ids
  }

  function RowStatus(g: Gpu, r: ProfileRow): ProfileStatus
  {
    ProfileStatus(r.id, r.name, g.available(g.instances, r.id), r.total, IdsOf(g.instances, r.id))
  }

  /** What the two listings say, as the status of the object. */
  function Report(g: Gpu): seq<ProfileStatus>
  {
    seq(|g.rows|, i requires 0 <= i < |g.rows| => RowStatus(g, g.rows[i]))
  }

  function CountIds(ps: seq<ProfileStatus>): nat
  {
    if ps == [] then 0 else CountIds(ps[..|ps| - 1]) + |ps[|ps| - 1].vgpuIds|
  }

  // ----- commands -----

  function CreateOne(g: Gpu, place: Placement, profile: int): (Gpu, bool)
  {
    var logged := g.(created := g.created + [profile]);
    var id := place(g.instances, profile);
    if !g.Answers() then (logged, false)
    else if !g.Knows(profile) || id.None? then (logged.Tick(), false)
    else
      var grown := g.instances + [Instance(profile, id.value)];
      (logged.Tick().(instances := grown, compute := g.compute + {id.value}), true)
  }

  function CreateAll(g: Gpu, place: Placement, profiles: seq<int>): (Gpu, bool)
    decreases |profiles|
  {
    if profiles == [] then (g, true)
    else
      var (g', ok) := CreateOne(g, place, profiles[0]);
      if ok then CreateAll(g', place, profiles[1..]) else (g', false)
  }

  function WithoutId(xs: seq<Instance>, id: string): seq<Instance>
  {
    if xs == [] then []
    else (if xs[0].id == id then [] else [xs[0]]) + WithoutId(xs[1..], id)
  }

  predicate HasId(xs: seq<Instance>, id: string)
  {
    exists i :: 0 <= i < |xs| && xs[i].id == id
  }

  /** Delete the compute instance `id` if it is listed. */
  function DeleteCompute(g: Gpu, id: string): (Gpu, bool)
  {
    if !g.Answers() then (g, false)
    else
      var g1 := g.Tick();
      if id !in g.compute then (g1, true)
      else if !g1.Answers() then (g1, false)
      else (g1.Tick().(compute := g.compute - {id}), true)
  }

  /** Delete the GPU instance `id` if it is listed; the GPU refuses while a compute instance uses it. */
  function DeleteGpuInstance(g: Gpu, id: string): (Gpu, bool)
  {
    if !g.Answers() then (g, false)
    else
      var g1 := g.Tick();
      if !HasId(g.instances, id) then (g1, true)
      else if !g1.Answers() then (g1, false)
      else if id in g.compute then (g1.Tick(), false)
      else (g1.Tick().(instances := WithoutId(g.instances, id)), true)
  }

  function DeleteOne(g: Gpu, id: string): (Gpu, bool)
  {
    var (g1, ok) := DeleteCompute(g, id);
    if ok then DeleteGpuInstance(g1, id) else (g1, false)
  }

  function DeleteAll(g: Gpu, ids: seq<string>): (Gpu, bool)
    decreases |ids|
  {
    if ids == [] then (g, true)
    else
      var (g', ok) := DeleteOne(g, ids[0]);
      if ok then DeleteAll(g', ids[1..]) else (g', false)
  }

  lemma {:induction false} DeleteAllAppend(g: Gpu, a: seq<string>, b: seq<string>)
    ensures DeleteAll(g, a + b) == var (g', ok) := DeleteAll(g, a); if ok then DeleteAll(g', b) else (g', false)
    decreases |a|
  {
    if a == [] {
      assert a + b == b;
    } else {
      assert (a + b)[0] == a[0] && (a + b)[1..] == a[1..] + b;
      DeleteAllAppend(DeleteOne(g, a[0]).0, a[1..], b);
    }
  }

  lemma {:induction false} CreateAllAppend(g: Gpu, place: Placement, a: seq<int>, b: seq<int>)
    ensures CreateAll(g, place, a + b)
      == var (g', ok) := CreateAll(g, place, a); if ok then CreateAll(g', place, b) else (g', false)
    decreases |a|
  {
    if a == [] {
      assert a + b == b;
    } else {
      assert (a + b)[0] == a[0] && (a + b)[1..] == a[1..] + b;
      CreateAllAppend(CreateOne(g, place, a[0]).0, place, a[1..], b);
    }
  }

  /** All identifiers recorded in a status, in order. */
  function RecordedIds(ps: seq<ProfileStatus>): seq<string>
  {
    if ps == [] then [] else ps[0].vgpuIds + RecordedIds(ps[1..])
  }

  // ----- what a specification asks for -----

  function Repeat(id: int, n: nat): seq<int>
  {
    seq(n, _ => id)
  }

  /** The requested instances in specification order: the plan a reader of the object expects. */
  function Plan(spec: seq<ProfileRequest>): seq<int>
  {
    if spec == [] then []
    else
      var r := spec[|spec| - 1];
      Plan(spec[..|spec| - 1]) + (if r.requested > 0 then Repeat(r.id, r.requested) else [])
  }

  /** The profiles with a positive request, as the controller collects them. */
  function Impacted(spec: seq<ProfileRequest>): seq<int>
  {
    if spec == [] then []
    else
      var r := spec[|spec| - 1];
      Impacted(spec[..|spec| - 1]) + (if r.requested > 0 then [r.id] else [])
  }

  /** The controller's request map: a later entry replaces an earlier one with the same ID. */
  function RequestMap(spec: seq<ProfileRequest>): (m: map<int, int>)
    ensures forall id :: id in m ==> m[id] > 0
  {
    if spec == [] then map[]
    else
      var r := spec[|spec| - 1];
      var m := RequestMap(spec[..|spec| - 1]);
      if r.requested > 0 then m[r.id := r.requested] else m
  }

  function CommandsFor(profiles: seq<int>, requests: map<int, int>): seq<int>
  {
    if profiles == [] then []
    else
      var n := if profiles[0] in requests && requests[profiles[0]] > 0 then requests[profiles[0]] else 0;
      Repeat(profiles[0], n) + CommandsFor(profiles[1..], requests)
  }

  /** The create commands of one successful EnableMIGProfiles. */
  function Commands(spec: seq<ProfileRequest>): seq<int>
  {
    CommandsFor(Impacted(spec), RequestMap(spec))
  }

  /** The specification of a new configuration: every listed profile, nothing requested. */
  function InitialSpec(rows: seq<ProfileRow>): seq<ProfileRequest>
  {
    seq(|rows|, i requires 0 <= i < |rows| => ProfileRequest(rows[i].id, rows[i].name, 0))
  }

  function Requested(spec: seq<ProfileRequest>): int
  {
    if spec == [] then 0 else Requested(spec[..|spec| - 1]) + spec[|spec| - 1].requested
  }

  /** The sum of the positive requests. */
  function Positive(spec: seq<ProfileRequest>): nat
  {
    if spec == [] then 0
    else
      var r := spec[|spec| - 1];
      Positive(spec[..|spec| - 1]) + if r.requested > 0 then r.requested else 0
  }

  /** The last positive request for a profile ID, 0 if there is none. */
  function LastRequest(spec: seq<ProfileRequest>, id: int): nat
  {
    if spec == [] then 0
    else
      var r := spec[|spec| - 1];
      if r.id == id && r.requested > 0 then r.requested else LastRequest(spec[..|spec| - 1], id)
  }

  /** Every positive entry counts with the last positive request for its ID. */
  function LoadOver(entries: seq<ProfileRequest>, spec: seq<ProfileRequest>): nat
  {
    if entries == [] then 0
    else
      var r := entries[|entries| - 1];
      LoadOver(entries[..|entries| - 1], spec) + if r.requested > 0 then LastRequest(spec, r.id) else 0
  }

  /** How many instances a specification really asks for. */
  function Load(spec: seq<ProfileRequest>): nat { LoadOver(spec, spec) }

  /** The admission rule's count check is enough for this specification. */
  predicate Bounded(spec: seq<ProfileRequest>)
  {
    Requested(spec) <= MAX_INSTANCES ==> Load(spec) <= MAX_INSTANCES
  }

  predicate NonNegative(spec: seq<ProfileRequest>)
  {
    forall i :: 0 <= i < |spec| ==> spec[i].requested >= 0
  }

  predicate UniqueIds(spec: seq<ProfileRequest>)
  {
    forall i, j :: 0 <= i < j < |spec| ==> spec[i].id != spec[j].id
  }

  // ----- admission of user edits -----

  /** Availability recorded in a status: the last row with the ID counts, 0 if there is none. */
  function Availability(ps: seq<ProfileStatus>, id: int): int
  {
    if ps == [] then 0
    else if ps[|ps| - 1].id == id then ps[|ps| - 1].available
    else Availability(ps[..|ps| - 1], id)
  }

  predicate WithinAvailable(c: Config)
  {
    forall i :: 0 <= i < |c.spec| ==> c.spec[i].requested <= Availability(c.status.profiles, c.spec[i].id)
  }

  /** Whether the webhook lets the edit through; `vgpuInUse` says that some child vGPU is enabled. */
  predicate Admits(before: Config, after: Config, vgpuInUse: bool)
  {
    && Requested(after.spec) <= MAX_INSTANCES
    && (before.status.state == OutOfSync || before.status.state == Synced ==> before.spec == after.spec)
    && (!before.enabled && after.enabled ==> WithinAvailable(after))
    && (before.enabled && !after.enabled ==> !vgpuInUse)
  }

  // ----- one reconcile -----

  datatype Outcome = Outcome(config: Config, gpu: Gpu, failed: bool)

  /** The two listings of GenerateMIGConfigurationStatus. */
  function Discover(g: Gpu): (Gpu, Option<seq<ProfileStatus>>)
  {
    if !g.Answers() then (g, None)
    else if !g.Tick().Answers() then (g.Tick(), None)
    else (g.Tick().Tick(), Some(Report(g)))
  }

  function Enable(c: Config, g: Gpu, place: Placement): Outcome
  {
    var (g1, ok) := CreateAll(g, place, Commands(c.spec));
    if !ok then Outcome(c.(status := c.status.(message := CREATE_FAILED)), g1, true)
    else
      var (g2, found) := Discover(g1);
      if found.None? then Outcome(c, g2, true) else Outcome(c.(status := Status(found.value, Unset, "")), g2, false)
  }

  function Disable(c: Config, g: Gpu): Outcome
  {
    var (g1, ok) := DeleteAll(g, RecordedIds(c.status.profiles));
    if !ok then Outcome(c, g1, true)
    else
      var (g2, found) := Discover(g1);
      if found.None? then Outcome(c, g2, true) else Outcome(c.(status := Status(found.value, Disabled, "")), g2, false)
  }

  /** OnMIGChange of the controller running on `node`, on the stored object and the GPU. */
  function Reconcile(node: string, c: Config, g: Gpu, place: Placement): Outcome
  {
    if c.deleting || c.nodeName != node then Outcome(c, g, false)
    else
      var (g1, found) := Discover(g);
      if found.None? then Outcome(c, g1, true)
      else if c.enabled && CountIds(found.value) == 0 then Enable(c, g1, place)
      else if c.enabled then
        var state := if c.status.profiles == found.value then Synced else OutOfSync;
        Outcome(c.(status := c.status.(state := state)), g1, false)
      else if CountIds(found.value) != 0 then Disable(c, g1)
      else Outcome(c, g1, false)
  }

  // ----- runs -----

  datatype System = System(config: Config, gpu: Gpu)

  datatype Event =
    | Edit(after: Config, vgpuInUse: bool)
    | Change(outage: Outage, place: Placement)
    | Vanish(ids: seq<string>)

  function Vanished(xs: seq<Instance>, ids: seq<string>): seq<Instance>
    decreases |ids|
  {
    if ids == [] then xs else Vanished(WithoutId(xs, ids[0]), ids[1..])
  }

  /**
   A user edit (which cannot touch the status), a reconcile during which some number of commands
   succeed, or instances disappearing from the GPU for reasons of their own.
   */
  function Step(node: string, s: System, e: Event): System
  {
    match e
    case Edit(after, inUse) =>
      var edited := after.(status := s.config.status);
      if Admits(s.config, edited, inUse) then s.(config := edited) else s
    case Change(outage, place) =>
      var r := Reconcile(node, s.config, s.gpu.(outage := outage), place);
      System(r.config, r.gpu)
    case Vanish(ids) =>
      s.(gpu := s.gpu.(instances := Vanished(s.gpu.instances, ids)))
  }

  function Run(node: string, s: System, events: seq<Event>): System
  {
    if events == [] then s else Step(node, Run(node, s, events[..|events| - 1]), events[|events| - 1])
  }
}
