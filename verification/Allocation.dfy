/**
 From a kubelet allocation to device names: the environment text the plugin returns, and the
 virtual machine controller that reads it back from the launcher pod.
 */
module Allocation {
  import opened Text
  import opened Machine

  // ----- Allocate -----

  function GroupMembers(order: seq<string>, groups: map<string, string>, group: string): seq<string>
  {
    if order == [] then []
    else
      (if order[0] in groups && groups[order[0]] == group then [order[0]] else [])
      + GroupMembers(order[1..], groups, group)
  }

  /** The addresses listed for one request: each known ID, then every member of its IOMMU group. */
  function Allocated(groups: map<string, string>, ids: seq<string>, orders: seq<seq<string>>): seq<string>
    requires |orders| == |ids|
    decreases |ids|
  {
    if ids == [] then [] else AllocatedFor(groups, ids[0], orders[0]) + Allocated(groups, ids[1..], orders[1..])
  }

  function AllocatedFor(groups: map<string, string>, id: string, order: seq<string>): seq<string>
  {
    if id in groups then [id] + GroupMembers(order, groups, groups[id]) else []
  }

  method AppendGroup(addresses: seq<string>, order: seq<string>, groups: map<string, string>, group: string)
    returns (r: seq<string>)
    ensures r == addresses + GroupMembers(order, groups, group)
  {
    r := addresses;
    assert order[0..] == order;
    for j := 0 to |order|
      invariant addresses + GroupMembers(order, groups, group) == r + GroupMembers(order[j..], groups, group)
    {
      assert order[j..][1..] == order[j + 1..];
      if order[j] in groups && groups[order[j]] == group {
        r := r + [order[j]];
      }
    }
  }

  /** A device node that a container gets, under the same path as on the host. */
  datatype DeviceSpec = DeviceSpec(path: string, permissions: string)

  const VFIO_PATH := "/dev/vfio/"
  const VFIO_MOUNT := "/dev/vfio/vfio"

  function VFIODeviceSpecs(group: string): seq<DeviceSpec>
  {
    [DeviceSpec(VFIO_MOUNT, "mrw"), DeviceSpec(VFIO_PATH + group, "mrw")]
  }

  /** The device nodes of one request: those of each known ID's group. */
  function Specs(groups: map<string, string>, ids: seq<string>): seq<DeviceSpec>
  {
    if ids == [] then []
    else
      var id := ids[|ids| - 1];
      Specs(groups, ids[..|ids| - 1]) + if id in groups then VFIODeviceSpecs(groups[id]) else []
  }

  /** One container's request; `orders[i]` is the map order met while handling `ids[i]`. */
  datatype ContainerRequest = ContainerRequest(ids: seq<string>, orders: seq<seq<string>>)

  type Request = r: ContainerRequest | |r.orders| == |r.ids| witness ContainerRequest([], [])

  /** The addresses of all requests, in order. */
  function Total(groups: map<string, string>, requests: seq<Request>): seq<string>
  {
    if requests == [] then []
    else
      var r := requests[|requests| - 1];
      Total(groups, requests[..|requests| - 1]) + Allocated(groups, r.ids, r.orders)
  }

  /** What a container is told. */
  datatype Answer = Answer(devices: seq<DeviceSpec>, envs: map<string, string>)

  class ContainerResponse {
    var devices: seq<DeviceSpec>
    var envs: map<string, string>

    constructor ()
      ensures Contents() == Answer([], map[])
    {
      devices, envs := [], map[];
    }

    ghost function Contents(): Answer
      reads this
    {
      Answer(devices, envs)
    }
  }

  /** The inner loop: the addresses so far grow, the device nodes start anew with every request. */
  method AllocateRequest(groups: map<string, string>, request: Request, before: seq<string>)
    returns (addresses: seq<string>, specs: seq<DeviceSpec>)
    ensures addresses == before + Allocated(groups, request.ids, request.orders)
    ensures specs == Specs(groups, request.ids)
  {
    var ids, orders := request.ids, request.orders;
    addresses, specs := before, [];
    for k := 0 to |ids|
      invariant addresses == before + Allocated(groups, ids[..k], orders[..k])
      invariant specs == Specs(groups, ids[..k])
    {
      AllocatedNext(groups, ids, orders, k);
      Assoc(before, Allocated(groups, ids[..k], orders[..k]), AllocatedFor(groups, ids[k], orders[k]));
      assert ids[..k + 1][..k] == ids[..k];
      if ids[k] in groups {
        Assoc(addresses, [ids[k]], GroupMembers(orders[k], groups, groups[ids[k]]));
        addresses := AppendGroup(addresses + [ids[k]], orders[k], groups, groups[ids[k]]);
        specs := specs + VFIODeviceSpecs(groups[ids[k]]);
      }
    }
    assert ids[..|ids|] == ids && orders[..|ids|] == orders;
  }

  lemma AllocatedNext(groups: map<string, string>, ids: seq<string>, orders: seq<seq<string>>, k: nat)
    requires |orders| == |ids| && k < |ids|
    ensures Allocated(groups, ids[..k + 1], orders[..k + 1]) == Allocated(groups, ids[..k], orders[..k])
      + AllocatedFor(groups, ids[k], orders[k])
  {
    AllocatedAppend(groups, ids[..k], orders[..k], ids[k], orders[k]);
    assert ids[..k + 1] == ids[..k] + [ids[k]] && orders[..k + 1] == orders[..k] + [orders[k]];
  }

  lemma {:induction false} AllocatedAppend(groups: map<string, string>, ids: seq<string>, orders: seq<seq<string>>,
                                           id: string, order: seq<string>)
    requires |orders| == |ids|
    ensures Allocated(groups, ids + [id], orders + [order]) == Allocated(groups, ids, orders)
      + AllocatedFor(groups, id, order)
    decreases |ids|
  {
    if ids != [] {
      AllocatedAppend(groups, ids[1..], orders[1..], id, order);
      assert (ids + [id])[1..] == ids[1..] + [id] && (orders + [order])[1..] == orders[1..] + [order];
    }
  }

  /** One response object is filled again for every request and listed every time. */
  method Allocate(groups: map<string, string>, envVar: string, requests: seq<Request>)
    returns (responses: seq<ContainerResponse>)
    ensures |responses| == |requests|
    ensures forall i :: 0 <= i < |responses| ==>
      fresh(responses[i]) && responses[i].Contents() == Answered(groups, envVar, requests)
  {
    var addresses: seq<string> := [];
    var response := new ContainerResponse();
    responses := [];
    for k := 0 to |requests|
      invariant |responses| == k && forall i :: 0 <= i < k ==> responses[i] == response
      invariant addresses == Total(groups, requests[..k])
      invariant k > 0 ==> response.Contents() == Answered(groups, envVar, requests[..k])
    {
      TotalNext(groups, envVar, requests, k);
      var specs;
      addresses, specs := AllocateRequest(groups, requests[k], addresses);
      response.devices := specs;
      response.envs := map[envVar := Join(addresses, ',')];
      responses := responses + [response];
    }
    assert requests[..|requests|] == requests;
  }

  lemma TotalNext(groups: map<string, string>, envVar: string, requests: seq<Request>, k: nat)
    requires k < |requests|
    ensures var r, all := requests[k], Total(groups, requests[..k + 1]);
      && all == Total(groups, requests[..k]) + Allocated(groups, r.ids, r.orders)
      && Answered(groups, envVar, requests[..k + 1]) == Answer(Specs(groups, r.ids), map[envVar := Join(all, ',')])
  {
    assert requests[..k + 1][..k] == requests[..k];
  }

  /** What every container is told: the addresses of all requests, the device nodes of the last one. */
  function Answered(groups: map<string, string>, envVar: string, requests: seq<Request>): Answer
  {
    Answer(if requests == [] then [] else Specs(groups, requests[|requests| - 1].ids),
           map[envVar := Join(Total(groups, requests), ',')])
  }

  // ----- device nodes -----

  /** The requested IDs that the plugin knows, in order. */
  function KnownIds(groups: map<string, string>, ids: seq<string>): seq<string>
  {
    if ids == [] then []
    else
      var id := ids[|ids| - 1];
      KnownIds(groups, ids[..|ids| - 1]) + if id in groups then [id] else []
  }

  /** Each known ID gives two nodes, readable, writable and creatable: the common one and its group's. */
  lemma {:induction false} SpecsExactly(groups: map<string, string>, ids: seq<string>, k: nat)
    requires k < |KnownIds(groups, ids)|
    ensures var specs, id := Specs(groups, ids), KnownIds(groups, ids)[k];
      && |specs| == 2 * |KnownIds(groups, ids)| && id in groups
      && specs[2 * k] == DeviceSpec("/dev/vfio/vfio", "mrw")
      && specs[2 * k + 1] == DeviceSpec("/dev/vfio/" + groups[id], "mrw")
  {
    var init := ids[..|ids| - 1];
    SpecsLength(groups, init);
    if k < |KnownIds(groups, init)| {
      SpecsExactly(groups, init, k);
    }
  }

  lemma {:induction false} SpecsLength(groups: map<string, string>, ids: seq<string>)
    ensures |Specs(groups, ids)| == 2 * |KnownIds(groups, ids)|
  {
    if ids != [] {
      SpecsLength(groups, ids[..|ids| - 1]);
    }
  }

  // ----- the pod environment -----

  function EnvEntry(line: string): (string, string)
  {
    var parts := SplitOn(line, '=');
    (parts[0], Join(parts[1..], '='))
  }

  function EnvMap(lines: seq<string>): map<string, string>
  {
    if lines == [] then map[]
    else
      var e := EnvEntry(lines[|lines| - 1]);
      EnvMap(lines[..|lines| - 1])[e.0 := e.1]
  }

  method ConvertEnvToMap(podEnv: string) returns (result: map<string, string>)
    ensures result == EnvMap(ContentLines(podEnv))
  {
    var contents := ReadLines(podEnv);
    result := map[];
    for k := 0 to |contents|
      invariant result == EnvMap(contents[..k])
    {
      assert contents[..k + 1][..k] == contents[..k];
      var parts := SplitOn(contents[k], '=');
      result := result[parts[0] := Join(parts[1..], '=')];
    }
    assert contents[..|contents|] == contents;
  }

  // ----- names -----

  /** `slices.Compact`: every run of equal elements becomes one. */
  function Compact(s: seq<string>): seq<string>
  {
    if |s| < 2 then s else if s[0] == s[1] then Compact(s[1..]) else [s[0]] + Compact(s[1..])
  }

  /** A Go map lookup: the empty string for a missing key. */
  function Lookup(table: map<string, string>, key: string): string
  {
    if key in table then table[key] else ""
  }

  function LookupAll(table: map<string, string>, keys: seq<string>): seq<string>
  {
    seq(|keys|, i requires 0 <= i < |keys| => Lookup(table, keys[i]))
  }

  /** PCI device names for the value of the plugin's environment variable. */
  function PciNames(value: string, table: map<string, string>): seq<string>
  {
    LookupAll(table, Compact(SplitOn(value, ',')))
  }

  /** vGPU names for the value of the plugin's environment variable. */
  function VgpuNames(value: string, table: map<string, string>): seq<string>
  {
    LookupAll(table, SplitOn(value, ','))
  }

  /** One entry per requested resource whose variable is set. */
  ghost predicate IsDetails(m: map<string, seq<string>>, requested: seq<string>, env: map<string, string>,
                            envVar: string -> string, names: string -> seq<string>)
  {
    && (forall r :: r in m <==> r in requested && envVar(r) in env)
    && (forall r :: r in m ==> m[r] == names(env[envVar(r)]))
  }

  method ReconcilePCIDeviceDetails(requested: seq<string>, env: map<string, string>,
                                   envVar: string -> string, table: map<string, string>)
    returns (m: map<string, seq<string>>)
    ensures IsDetails(m, requested, env, envVar, (value: string) => PciNames(value, table))
  {
    m := map[];
    for k := 0 to |requested|
      invariant forall r :: r in m <==> r in requested[..k] && envVar(r) in env
      invariant forall r :: r in m ==> m[r] == PciNames(env[envVar(r)], table)
    {
      var r := requested[k];
      if envVar(r) in env && r !in m {
        var devices := Compact(SplitOn(env[envVar(r)], ','));
        var names := CollectNames(devices, table);
        m := m[r := names];
      }
    }
    assert requested[..|requested|] == requested;
  }

  method ReconcileGPUDetails(requested: seq<string>, env: map<string, string>,
                             envVar: string -> string, table: map<string, string>)
    returns (m: map<string, seq<string>>)
    ensures IsDetails(m, requested, env, envVar, (value: string) => VgpuNames(value, table))
  {
    m := map[];
    for k := 0 to |requested|
      invariant forall r :: r in m <==> r in requested[..k] && envVar(r) in env
      invariant forall r :: r in m ==> m[r] == VgpuNames(env[envVar(r)], table)
    {
      var r := requested[k];
      if envVar(r) in env && r !in m {
        var names := CollectNames(SplitOn(env[envVar(r)], ','), table);
        m := m[r := names];
      }
    }
    assert requested[..|requested|] == requested;
  }

  method CollectNames(devices: seq<string>, table: map<string, string>) returns (names: seq<string>)
    ensures names == LookupAll(table, devices)
  {
    names := [];
    for k := 0 to |devices|
      invariant names == LookupAll(table, devices[..k])
    {
      names := names + [Lookup(table, devices[k])];
    }
    assert devices[..|devices|] == devices;
  }

  method DedupDevices(devices: map<string, seq<string>>) returns (m: map<string, seq<string>>)
    ensures m.Keys == devices.Keys && forall r :: r in m ==> m[r] == Compact(devices[r])
  {
    m := devices;
    var todo := devices.Keys;
    while todo != {}
      invariant todo <= devices.Keys && m.Keys == devices.Keys
      invariant forall r :: r in m ==> m[r] == if r in todo then devices[r] else Compact(devices[r])
      decreases |todo|
    {
      var r :| r in todo;
      m := m[r := Compact(m[r])];
      todo := todo - {r};
    }
  }

  // ----- the way there and back -----

  /** A value may contain `=`; only the first one separates. */
  lemma EntryOfAssignment(key: string, value: string)
    requires '=' !in key
    ensures EnvEntry(key + "=" + value) == (key, value)
  {
    assert key + "=" + value == key + ['='] + value;
    SplitOnFirst(key, '=', value);
    JoinSplitOn(value, '=');
    var parts := [key] + SplitOn(value, '=');
    assert parts[1..] == SplitOn(value, '=');
  }

  lemma {:induction false} EnvMapFinds(before: seq<string>, line: string, after: seq<string>)
    requires forall i :: 0 <= i < |after| ==> EnvEntry(after[i]).0 != EnvEntry(line).0
    ensures var env := EnvMap(before + [line] + after);
      EnvEntry(line).0 in env && env[EnvEntry(line).0] == EnvEntry(line).1
  {
    var all := before + [line] + after;
    if after == [] {
      assert all[|all| - 1] == line;
    } else {
      var init := after[..|after| - 1];
      EnvMapFinds(before, line, init);
      assert all[..|all| - 1] == before + [line] + init;
      assert all[|all| - 1] == after[|after| - 1];
    }
  }

  lemma AssignmentIsOneLine(key: string, value: string)
    requires OneLine(key) && OneLine(value)
    ensures OneLine(key + "=" + value)
  {
  }

  /** Whatever else the pod's environment holds, the controller reads the value the plugin returned. */
  lemma EnvRoundTrip(before: seq<string>, key: string, value: string, after: seq<string>)
    requires '=' !in key && OneLine(key) && OneLine(value)
    requires forall i :: 0 <= i < |before| ==> OneLine(before[i])
    requires forall i :: 0 <= i < |after| ==> OneLine(after[i]) && EnvEntry(after[i]).0 != key
    ensures var env := EnvMap(ContentLines(FileText(before + [key + "=" + value] + after)));
      key in env && env[key] == value
  {
    var line := key + "=" + value;
    EntryOfAssignment(key, value);
    AssignmentIsOneLine(key, value);
    FileTextFinds(before, line, after);
  }

  lemma AllOneLine(before: seq<string>, line: string, after: seq<string>)
    requires OneLine(line)
    requires forall i :: 0 <= i < |before| ==> OneLine(before[i])
    requires forall i :: 0 <= i < |after| ==> OneLine(after[i])
    ensures var all := before + [line] + after; forall i :: 0 <= i < |all| ==> OneLine(all[i])
  {
  }

  lemma FileTextFinds(before: seq<string>, line: string, after: seq<string>)
    requires OneLine(line)
    requires forall i :: 0 <= i < |before| ==> OneLine(before[i])
    requires forall i :: 0 <= i < |after| ==> OneLine(after[i]) && EnvEntry(after[i]).0 != EnvEntry(line).0
    ensures var env := EnvMap(ContentLines(FileText(before + [line] + after)));
      EnvEntry(line).0 in env && env[EnvEntry(line).0] == EnvEntry(line).1
  {
    var all := before + [line] + after;
    AllOneLine(before, line, after);
    ContentOfFileText(all);
    EnvMapFinds(before, line, after);
  }

  lemma {:induction false} CompactMembers(s: seq<string>)
    ensures forall x :: x in Compact(s) <==> x in s
    ensures s != [] ==> Compact(s) != [] && Compact(s)[0] == s[0]
  {
    if |s| >= 2 {
      CompactMembers(s[1..]);
      assert s == [s[0]] + s[1..];
    }
  }

  lemma {:induction false} CompactDistinct(s: seq<string>)
    requires forall i, j :: 0 <= i < j < |s| ==> s[i] != s[j]
    ensures Compact(s) == s
  {
    if |s| >= 2 {
      CompactDistinct(s[1..]);
      assert s == [s[0]] + s[1..];
    }
  }

  function Doubled(s: seq<string>): seq<string>
  {
    if s == [] then [] else [s[0], s[0]] + Doubled(s[1..])
  }

  lemma {:induction false} CompactDoubled(s: seq<string>)
    requires forall i, j :: 0 <= i < j < |s| ==> s[i] != s[j]
    ensures Compact(Doubled(s)) == s
  {
    if s != [] {
      var d, rest := Doubled(s), Doubled(s[1..]);
      CompactDoubled(s[1..]);
      assert d[1..] == [s[0]] + rest && d[1..][1..] == rest;
      assert rest != [] ==> rest[0] == s[1];
      assert Compact(d) == Compact(d[1..]);
      assert Compact(d[1..]) == [s[0]] + Compact(rest);
    }
  }

  lemma {:induction false} SingletonGroup(order: seq<string>, groups: map<string, string>, id: string)
    requires forall i, j :: 0 <= i < j < |order| ==> order[i] != order[j]
    requires id in groups && forall a :: a in groups && groups[a] == groups[id] ==> a == id
    ensures GroupMembers(order, groups, groups[id]) == if id in order then [id] else []
  {
    if order != [] {
      SingletonGroup(order[1..], groups, id);
    }
  }

  lemma {:induction false} AllocatedSingletons(groups: map<string, string>, ids: seq<string>, orders: seq<seq<string>>)
    requires |orders| == |ids|
    requires forall i :: 0 <= i < |ids| ==> ids[i] in groups && Enumerates(orders[i], groups.Keys)
    requires forall i, a :: 0 <= i < |ids| && a in groups && groups[a] == groups[ids[i]] ==> a == ids[i]
    ensures Allocated(groups, ids, orders) == Doubled(ids)
    decreases |ids|
  {
    if ids != [] {
      SingletonGroup(orders[0], groups, ids[0]);
      AllocatedSingletons(groups, ids[1..], orders[1..]);
    }
  }

  lemma {:induction false} GroupMembersSet(order: seq<string>, groups: map<string, string>, group: string)
    ensures forall a :: a in GroupMembers(order, groups, group) <==> a in order && a in groups && groups[a] == group
  {
    if order != [] {
      GroupMembersSet(order[1..], groups, group);
      assert order == [order[0]] + order[1..];
    }
  }

  /** The IOMMU-group closure of the requested IDs within the plugin. */
  ghost predicate InClosure(a: string, groups: map<string, string>, ids: seq<string>)
  {
    a in groups && exists i :: 0 <= i < |ids| && ids[i] in groups && groups[ids[i]] == groups[a]
  }

  lemma {:induction false} AllocatedSet(groups: map<string, string>, ids: seq<string>, orders: seq<seq<string>>)
    requires |orders| == |ids|
    requires forall i :: 0 <= i < |orders| ==> Enumerates(orders[i], groups.Keys)
    ensures forall a :: a in Allocated(groups, ids, orders) <==> InClosure(a, groups, ids)
    decreases |ids|
  {
    if ids != [] {
      AllocatedSet(groups, ids[1..], orders[1..]);
      var rest := Allocated(groups, ids[1..], orders[1..]);
      if ids[0] in groups {
        GroupMembersSet(orders[0], groups, groups[ids[0]]);
      }
      forall a ensures a in Allocated(groups, ids, orders) <==> InClosure(a, groups, ids) {
        assert InClosure(a, groups, ids[1..]) ==> InClosure(a, groups, ids) by {
          if InClosure(a, groups, ids[1..]) {
            var i :| 0 <= i < |ids[1..]| && ids[1..][i] in groups && groups[ids[1..][i]] == groups[a];
            assert ids[i + 1] in groups;
          }
        }
        if InClosure(a, groups, ids) {
          var i :| 0 <= i < |ids| && ids[i] in groups && groups[ids[i]] == groups[a];
          if i > 0 {
            assert ids[1..][i - 1] in groups;
          }
        }
      }
    }
  }

  predicate CleanAddresses(groups: map<string, string>)
  {
    forall a :: a in groups ==> ',' !in a && OneLine(a)
  }

  lemma {:induction false} JoinOneLine(parts: seq<string>)
    requires forall i :: 0 <= i < |parts| ==> OneLine(parts[i])
    ensures OneLine(Join(parts, ','))
  {
    if |parts| > 1 {
      JoinOneLine(parts[1..]);
    }
  }

  /** What the plugin's value means to the controller: one lookup per run of equal addresses. */
  lemma ValueReadBack(groups: map<string, string>, ids: seq<string>, orders: seq<seq<string>>,
                      table: map<string, string>)
    requires |orders| == |ids| && CleanAddresses(groups)
    requires forall i :: 0 <= i < |orders| ==> Enumerates(orders[i], groups.Keys)
    requires exists i :: 0 <= i < |ids| && ids[i] in groups
    ensures var value := Join(Allocated(groups, ids, orders), ',');
      OneLine(value) && PciNames(value, table) == LookupAll(table, Compact(Allocated(groups, ids, orders)))
  {
    var all := Allocated(groups, ids, orders);
    AllocatedSet(groups, ids, orders);
    var i :| 0 <= i < |ids| && ids[i] in groups;
    assert InClosure(ids[i], groups, ids);
    forall j | 0 <= j < |all| ensures ',' !in all[j] && OneLine(all[j]) {
      assert all[j] in all;
      assert InClosure(all[j], groups, ids);
    }
    SplitOnJoin(all, ',');
    JoinOneLine(all);
  }

  /** A joined list of vGPU identifiers gives one name for each, in order, with duplicates. */
  lemma VgpuNamesExactly(ids: seq<string>, table: map<string, string>)
    requires ids != [] && forall i :: 0 <= i < |ids| ==> ',' !in ids[i]
    ensures var names := VgpuNames(Join(ids, ','), table);
      |names| == |ids| && forall i :: 0 <= i < |ids| ==> names[i] == if ids[i] in table then table[ids[i]] else ""
  {
    SplitOnJoin(ids, ',');
  }

  /** The names the controller finally records for the environment of a pod. */
  function RecordedNames(podEnv: string, key: string, table: map<string, string>): seq<string>
  {
    Compact(PciNames(Lookup(EnvMap(ContentLines(podEnv)), key), table))
  }

  lemma CompactNames(ids: seq<string>, table: map<string, string>)
    requires forall i :: 0 <= i < |ids| ==> ids[i] in table
    requires forall i, j :: 0 <= i < j < |ids| ==> table[ids[i]] != table[ids[j]]
    ensures Compact(LookupAll(table, ids)) == seq(|ids|, i requires 0 <= i < |ids| => table[ids[i]])
  {
    var names := LookupAll(table, ids);
    assert forall i :: 0 <= i < |ids| ==> names[i] == table[ids[i]];
    CompactDistinct(names);
  }

  lemma NamesOfDoubled(ids: seq<string>, table: map<string, string>)
    requires forall i, j :: 0 <= i < j < |ids| ==> ids[i] != ids[j]
    requires forall i :: 0 <= i < |ids| ==> ids[i] in table
    requires forall i, j :: 0 <= i < j < |ids| ==> table[ids[i]] != table[ids[j]]
    ensures Compact(LookupAll(table, Compact(Doubled(ids)))) == seq(|ids|, i requires 0 <= i < |ids| => table[ids[i]])
  {
    CompactDoubled(ids);
    CompactNames(ids, table);
  }

  /**
   For distinct known IDs whose IOMMU groups are singletons in the plugin, the names recorded are
   those of the requested devices, in request order and without duplicates.
   */
  lemma RequestRoundTrip(groups: map<string, string>, ids: seq<string>, orders: seq<seq<string>>,
                         table: map<string, string>, before: seq<string>, key: string, after: seq<string>)
    requires |orders| == |ids| > 0 && CleanAddresses(groups)
    requires forall i :: 0 <= i < |ids| ==> ids[i] in groups && Enumerates(orders[i], groups.Keys)
    requires forall i, j :: 0 <= i < j < |ids| ==> ids[i] != ids[j]
    requires forall i, a :: 0 <= i < |ids| && a in groups && groups[a] == groups[ids[i]] ==> a == ids[i]
    requires forall i :: 0 <= i < |ids| ==> ids[i] in table
    requires forall i, j :: 0 <= i < j < |ids| ==> table[ids[i]] != table[ids[j]]
    requires '=' !in key && OneLine(key)
    requires forall i :: 0 <= i < |before| ==> OneLine(before[i])
    requires forall i :: 0 <= i < |after| ==> OneLine(after[i]) && EnvEntry(after[i]).0 != key
    ensures var value := Join(Allocated(groups, ids, orders), ',');
      RecordedNames(FileText(before + [key + "=" + value] + after), key, table)
        == seq(|ids|, i requires 0 <= i < |ids| => table[ids[i]])
  {
    var value := Join(Allocated(groups, ids, orders), ',');
    assert ids[0] in groups;
    ValueReadBack(groups, ids, orders, table);
    EnvRoundTrip(before, key, value, after);
    AllocatedSingletons(groups, ids, orders);
    NamesOfDoubled(ids, table);
  }

  /** For arbitrary groups the names recorded are, as a set, those of the IOMMU-group closure. */
  lemma ClosureRoundTrip(groups: map<string, string>, ids: seq<string>, orders: seq<seq<string>>,
                         table: map<string, string>, before: seq<string>, key: string, after: seq<string>)
    requires |orders| == |ids| && CleanAddresses(groups)
    requires forall i :: 0 <= i < |orders| ==> Enumerates(orders[i], groups.Keys)
    requires exists i :: 0 <= i < |ids| && ids[i] in groups
    requires '=' !in key && OneLine(key)
    requires forall i :: 0 <= i < |before| ==> OneLine(before[i])
    requires forall i :: 0 <= i < |after| ==> OneLine(after[i]) && EnvEntry(after[i]).0 != key
    ensures var value := Join(Allocated(groups, ids, orders), ',');
      var names := RecordedNames(FileText(before + [key + "=" + value] + after), key, table);
      forall n :: n in names <==> exists a :: InClosure(a, groups, ids) && Lookup(table, a) == n
  {
    var value := Join(Allocated(groups, ids, orders), ',');
    ValueReadBack(groups, ids, orders, table);
    EnvRoundTrip(before, key, value, after);
    NamesOfClosure(groups, ids, orders, table);
  }

  /** The names looked up for an allocation are those of the closure. */
  lemma NamesOfClosure(groups: map<string, string>, ids: seq<string>, orders: seq<seq<string>>,
                       table: map<string, string>)
    requires |orders| == |ids|
    requires forall i :: 0 <= i < |orders| ==> Enumerates(orders[i], groups.Keys)
    ensures forall n :: n in Compact(LookupAll(table, Compact(Allocated(groups, ids, orders)))) <==>
      exists a :: InClosure(a, groups, ids) && Lookup(table, a) == n
  {
    var all := Allocated(groups, ids, orders);
    AllocatedSet(groups, ids, orders);
    CompactMembers(all);
    CompactMembers(LookupAll(table, Compact(all)));
    LookupAllMembers(table, Compact(all));
  }

  lemma LookupAllMembers(table: map<string, string>, keys: seq<string>)
    ensures forall n :: n in LookupAll(table, keys) <==> exists a :: a in keys && Lookup(table, a) == n
  {
    var names := LookupAll(table, keys);
    forall a | a in keys ensures Lookup(table, a) in names {
      var i :| 0 <= i < |keys| && keys[i] == a;
      assert names[i] == Lookup(table, a);
    }
  }

  lemma {:induction false} NothingAllocated(groups: map<string, string>, ids: seq<string>, orders: seq<seq<string>>)
    requires |orders| == |ids| && forall i :: 0 <= i < |ids| ==> ids[i] !in groups
    ensures Allocated(groups, ids, orders) == []
    decreases |ids|
  {
    if ids != [] {
      NothingAllocated(groups, ids[1..], orders[1..]);
    }
  }

  /** A request without any known ID is recorded as one device with an empty name. */
  lemma UnknownRequestRecordsEmptyName(groups: map<string, string>, ids: seq<string>, orders: seq<seq<string>>,
                                       table: map<string, string>)
    requires |orders| == |ids| && "" !in table
    requires forall i :: 0 <= i < |ids| ==> ids[i] !in groups
    ensures Compact(PciNames(Join(Allocated(groups, ids, orders), ','), table)) == [""]
  {
    NothingAllocated(groups, ids, orders);
    SplitOnNone("", ',');
  }

  // ----- several containers -----

  lemma {:induction false} JoinGrows(a: seq<string>, b: seq<string>)
    ensures |Join(a + b, ',')| >= |Join(a, ',')| + |Join(b, ',')|
  {
    if a == [] {
      assert a + b == b;
    } else {
      assert (a + b)[1..] == a[1..] + b && (a + b)[0] == a[0];
      JoinGrows(a[1..], b);
    }
  }

  function ValueOf(groups: map<string, string>, r: Request): string
  {
    Join(Allocated(groups, r.ids, r.orders), ',')
  }

  lemma {:induction false} TotalCovers(groups: map<string, string>, requests: seq<Request>, i: nat)
    requires i < |requests|
    ensures |Join(Total(groups, requests), ',')| >= |ValueOf(groups, requests[i])|
  {
    var init, r := requests[..|requests| - 1], requests[|requests| - 1];
    JoinGrows(Total(groups, init), Allocated(groups, r.ids, r.orders));
    if i < |init| {
      TotalCovers(groups, init, i);
    }
  }

  lemma {:induction false} TotalCoversBoth(groups: map<string, string>, requests: seq<Request>, i: nat, j: nat)
    requires i < j < |requests|
    ensures |Join(Total(groups, requests), ',')| >= |ValueOf(groups, requests[i])| + |ValueOf(groups, requests[j])|
  {
    var init, r := requests[..|requests| - 1], requests[|requests| - 1];
    JoinGrows(Total(groups, init), Allocated(groups, r.ids, r.orders));
    if j < |init| {
      TotalCoversBoth(groups, init, i, j);
    } else {
      TotalCovers(groups, init, i);
    }
  }

  /** The request names a device of the plugin. */
  predicate Names(groups: map<string, string>, r: Request)
  {
    exists i :: 0 <= i < |r.ids| && r.ids[i] in groups
  }

  /** The orders met are iteration orders of the plugin's map. */
  ghost predicate Possible(groups: map<string, string>, r: Request)
  {
    forall i :: 0 <= i < |r.orders| ==> Enumerates(r.orders[i], groups.Keys)
  }

  lemma {:induction false} NamedHasValue(groups: map<string, string>, ids: seq<string>, orders: seq<seq<string>>)
    requires |orders| == |ids| && forall i :: 0 <= i < |orders| ==> Enumerates(orders[i], groups.Keys)
    requires exists i :: 0 <= i < |ids| && ids[i] in groups
    ensures |Allocated(groups, ids, orders)| >= 2
    decreases |ids|
  {
    if ids[0] in groups {
      GroupMembersSet(orders[0], groups, groups[ids[0]]);
      assert ids[0] in GroupMembers(orders[0], groups, groups[ids[0]]);
    } else {
      var i :| 0 <= i < |ids| && ids[i] in groups;
      assert ids[1..][i - 1] in groups;
      NamedHasValue(groups, ids[1..], orders[1..]);
    }
  }

  lemma {:induction false} UnnamedHasNothing(groups: map<string, string>, requests: seq<Request>)
    requires forall k :: 0 <= k < |requests| ==> !Names(groups, requests[k])
    ensures Total(groups, requests) == []
  {
    if requests != [] {
      var init, r := requests[..|requests| - 1], requests[|requests| - 1];
      UnnamedHasNothing(groups, init);
      assert !Names(groups, requests[|requests| - 1]);
      NothingAllocated(groups, r.ids, r.orders);
    }
  }

  lemma {:induction false} NoSpecs(groups: map<string, string>, ids: seq<string>)
    requires forall i :: 0 <= i < |ids| ==> ids[i] !in groups
    ensures Specs(groups, ids) == []
  {
    if ids != [] {
      NoSpecs(groups, ids[..|ids| - 1]);
    }
  }

  /** What the container would be told if its request were the only one. */
  function OwnAnswer(groups: map<string, string>, envVar: string, r: Request): Answer
  {
    Answer(Specs(groups, r.ids), map[envVar := ValueOf(groups, r)])
  }

  /**
   Every container is told its own devices if and only if there is at most one request or none of
   them names a device of the plugin.
   */
  lemma OwnDevicesExactly(groups: map<string, string>, envVar: string, requests: seq<Request>)
    requires forall k :: 0 <= k < |requests| ==> Possible(groups, requests[k])
    ensures (forall k :: 0 <= k < |requests| ==>
        Answered(groups, envVar, requests) == OwnAnswer(groups, envVar, requests[k]))
      <==> |requests| <= 1 || forall k :: 0 <= k < |requests| ==> !Names(groups, requests[k])
  {
    if |requests| == 1 {
      var r := requests[0];
      assert requests[..0] == [] && Total(groups, []) == [];
      assert Total(groups, requests) == Allocated(groups, r.ids, r.orders);
      assert Answered(groups, envVar, requests) == OwnAnswer(groups, envVar, r);
    } else if forall k :: 0 <= k < |requests| ==> !Names(groups, requests[k]) {
      UnnamedHasNothing(groups, requests);
      forall k | 0 <= k < |requests| ensures OwnAnswer(groups, envVar, requests[k]) == Answer([], map[envVar := ""]) {
        assert !Names(groups, requests[k]);
        NothingAllocated(groups, requests[k].ids, requests[k].orders);
        NoSpecs(groups, requests[k].ids);
      }
    } else if |requests| > 1 {
      var i: nat :| i < |requests| && Names(groups, requests[i]);
      MixedUp(groups, envVar, requests, i, if i == 0 then 1 else 0);
    }
  }

  /** With a second request, the one beside a request that names a device is told too much. */
  lemma MixedUp(groups: map<string, string>, envVar: string, requests: seq<Request>, i: nat, j: nat)
    requires forall k :: 0 <= k < |requests| ==> Possible(groups, requests[k])
    requires i < |requests| && j < |requests| && i != j && Names(groups, requests[i])
    ensures Answered(groups, envVar, requests) != OwnAnswer(groups, envVar, requests[j])
  {
    TotalCoversBoth(groups, requests, if i < j then i else j, if i < j then j else i);
    NamedHasValue(groups, requests[i].ids, requests[i].orders);
    assert |ValueOf(groups, requests[i])| > 0;
    assert Answered(groups, envVar, requests).envs[envVar] == Join(Total(groups, requests), ',');
    assert OwnAnswer(groups, envVar, requests[j]).envs[envVar] == ValueOf(groups, requests[j]);
  }
}
