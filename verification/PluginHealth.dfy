/**
 Which devices of a plugin are healthy, told from its history alone, and when that does not depend
 on the order in which the stream takes the messages.
 */
module PluginHealth {
  import opened DevicePlugin

  // ----- taking the pending messages -----

  /** The last word on a device, starting from health `h`. */
  function LastHealth(order: seq<Message>, id: string, h: Health): Health
  {
    if order == [] then h
    else if order[|order| - 1].id == id then order[|order| - 1].health
    else LastHealth(order[..|order| - 1], id, h)
  }

  lemma {:induction false} TakenPointwise(devs: seq<Device>, order: seq<Message>)
    ensures |Taken(devs, order)| == |devs|
    ensures forall i :: 0 <= i < |devs| ==>
      Taken(devs, order)[i] == Device(devs[i].id, LastHealth(order, devs[i].id, devs[i].health))
  {
    if order != [] {
      TakenPointwise(devs, order[..|order| - 1]);
    }
  }

  predicate Quiet(pending: multiset<Message>, id: string)
  {
    Message(id, Healthy) !in pending && Message(id, Unhealthy) !in pending
  }

  /** If all messages for a device say the same, that is the last word, whatever the order. */
  lemma {:induction false} OneVoice(order: seq<Message>, id: string, h: Health, word: Health)
    requires forall m :: m in order && m.id == id ==> m.health == word
    ensures LastHealth(order, id, h) == if Quiet(multiset(order), id) then h else word
  {
    if order != [] {
      var init, m := order[..|order| - 1], order[|order| - 1];
      assert order == init + [m];
      OneVoice(init, id, h, word);
    }
  }

  /** A known device has both a healthy and an unhealthy message on its way. */
  predicate Conflict(p: Plugin, id: string)
  {
    id in Ids(p.devs) && Message(id, Healthy) in p.pending && Message(id, Unhealthy) in p.pending
  }

  ghost predicate NoConflict(p: Plugin)
  {
    forall id :: id in Ids(p.devs) ==> !Conflict(p, id)
  }

  lemma Enumerate(ms: multiset<Message>) returns (order: seq<Message>)
    ensures multiset(order) == ms
    decreases |ms|
  {
    if ms == multiset{} {
      order := [];
    } else {
      var m :| m in ms;
      var rest := Enumerate(ms - multiset{m});
      order := rest + [m];
    }
  }

  lemma {:induction false} TakenKeepsIds(devs: seq<Device>, order: seq<Message>)
    ensures Ids(Taken(devs, order)) == Ids(devs)
  {
    if order != [] {
      TakenKeepsIds(devs, order[..|order| - 1]);
      MarkedKeepsIds(Taken(devs, order[..|order| - 1]), order[|order| - 1]);
    }
  }

  /** The message taken last decides. */
  lemma LastWord(devs: seq<Device>, init: seq<Message>, m: Message)
    requires m.id in Ids(devs)
    ensures m.id in HealthyIds(Taken(devs, init + [m])) <==> m.health == Healthy
  {
    TakenKeepsIds(devs, init);
    assert (init + [m])[..|init|] == init;
    MarkedHealth(Taken(devs, init), m);
  }

  lemma CompleteOrder(ms: multiset<Message>, rest: seq<Message>, a: Message, b: Message)
    requires a != b && a in ms && b in ms && multiset(rest) == ms - multiset{a} - multiset{b}
    ensures multiset(rest + [a] + [b]) == ms && multiset(rest + [b] + [a]) == ms
  {
    assert ms - multiset{a} - multiset{b} + multiset{a} + multiset{b} == ms;
    assert ms - multiset{a} - multiset{b} + multiset{b} + multiset{a} == ms;
  }

  /** With a conflict, one order ends with the device healthy and another with it unhealthy. */
  lemma ConflictSplits(p: Plugin, id: string) returns (on: seq<Message>, off: seq<Message>)
    requires Conflict(p, id)
    ensures multiset(on) == p.pending && multiset(off) == p.pending
    ensures id in HealthyIds(Taken(p.devs, on)) && id !in HealthyIds(Taken(p.devs, off))
  {
    var up, down := Message(id, Healthy), Message(id, Unhealthy);
    var rest := Enumerate(p.pending - multiset{up} - multiset{down});
    on, off := rest + [down] + [up], rest + [up] + [down];
    assert multiset(on) == p.pending && multiset(off) == p.pending by {
      CompleteOrder(p.pending, rest, up, down);
    }
    LastWord(p.devs, rest + [down], up);
    LastWord(p.devs, rest + [up], down);
  }

  /** All orders of taking the pending messages give the same devices. */
  ghost predicate Confluent(p: Plugin)
  {
    forall a, b :: multiset(a) == p.pending && multiset(b) == p.pending ==> Taken(p.devs, a) == Taken(p.devs, b)
  }

  lemma OrdersAgree(p: Plugin, a: seq<Message>, b: seq<Message>)
    requires NoConflict(p) && multiset(a) == p.pending && multiset(b) == p.pending
    ensures Taken(p.devs, a) == Taken(p.devs, b)
  {
    TakenPointwise(p.devs, a);
    TakenPointwise(p.devs, b);
    forall i | 0 <= i < |p.devs| ensures Taken(p.devs, a)[i] == Taken(p.devs, b)[i] {
      var id := p.devs[i].id;
      assert id in Ids(p.devs) && !Conflict(p, id);
      var word := if Message(id, Healthy) in p.pending then Healthy else Unhealthy;
      assert forall m :: m in a ==> m in multiset(a);
      assert forall m :: m in b ==> m in multiset(b);
      assert forall m: Message :: m.id == id ==> m == Message(id, m.health);
      OneVoice(a, id, p.devs[i].health, word);
      OneVoice(b, id, p.devs[i].health, word);
    }
  }

  /** For every plugin state, the order of the deliveries does not matter if and only if no device has a conflict. */
  lemma ConfluentExactly(p: Plugin)
    ensures Confluent(p) <==> NoConflict(p)
  {
    if NoConflict(p) {
      forall a, b | multiset(a) == p.pending && multiset(b) == p.pending ensures Taken(p.devs, a) == Taken(p.devs, b) {
        OrdersAgree(p, a, b);
      }
    } else {
      var id :| id in Ids(p.devs) && Conflict(p, id);
      var on, off := ConflictSplits(p, id);
    }
  }

  // ----- the active devices -----

  /** The addresses ever added to the plugin, starting from those it was created with. */
  function EverAdded(start: set<string>, events: seq<Event>): set<string>
  {
    if events == [] then start
    else
      var before := EverAdded(start, events[..|events| - 1]);
      var e := events[|events| - 1];
      if e.Add? then before + {e.pd.address} else before
  }

  /** The addresses added and not removed since they were first added; a repeated add counts for nothing. */
  function Active(start: set<string>, active: set<string>, events: seq<Event>): set<string>
  {
    if events == [] then active
    else
      var init := events[..|events| - 1];
      ActiveStep(EverAdded(start, init), Active(start, active, init), events[|events| - 1])
  }

  function ActiveStep(added: set<string>, active: set<string>, e: Event): set<string>
  {
    match e
    case Add(pd, _) => if pd.address in added then active else active + {pd.address}
    case Remove(a) => active - {a}
    case Deliver(_) => active
  }

  /** A claim carries the address of its device. */
  predicate ClaimMatches(e: Event) { e.Add? ==> e.claimAddress == e.pd.address }

  predicate ClaimsMatch(events: seq<Event>)
  {
    forall i :: 0 <= i < |events| ==> ClaimMatches(events[i])
  }

  /** Every message says what the history says, and so does every device without one. */
  ghost predicate Agreeing(p: Plugin, active: set<string>)
  {
    && active <= Ids(p.devs)
    && (forall m :: m in p.pending ==> (m.health == Healthy <==> m.id in active))
    && (forall id :: id in Ids(p.devs) && Quiet(p.pending, id) ==> (id in HealthyIds(p.devs) <==> id in active))
  }

  /** Then every order of taking the messages makes exactly the active devices healthy. */
  lemma AnyOrderReachesActive(p: Plugin, active: set<string>, order: seq<Message>)
    requires DistinctIds(p.devs) && Agreeing(p, active) && multiset(order) == p.pending
    ensures HealthyIds(Taken(p.devs, order)) == active
  {
    var after := Taken(p.devs, order);
    TakenPointwise(p.devs, order);
    forall i | 0 <= i < |p.devs|
      ensures after[i].id == p.devs[i].id && (after[i].health == Healthy <==> after[i].id in active)
    {
      var id := p.devs[i].id;
      assert forall m :: m in order ==> m in multiset(order);
      OneVoice(order, id, p.devs[i].health, if id in active then Healthy else Unhealthy);
      assert id in Ids(p.devs);
      HealthAt(p.devs, i);
    }
    forall id | id in active ensures id in HealthyIds(after) {
      var i :| 0 <= i < |p.devs| && p.devs[i].id == id;
      assert after[i].id == id;
    }
  }

  lemma HealthAt(devs: seq<Device>, i: nat)
    requires DistinctIds(devs) && i < |devs|
    ensures devs[i].id in HealthyIds(devs) <==> devs[i].health == Healthy
  {
  }

  lemma AddAgrees(p: Plugin, pd: PciDev, active: set<string>)
    requires Consistent(p) && Agreeing(p, active) && pd.address !in p.groups
    requires NoConflict(Added(p, pd, pd.address))
    ensures Agreeing(Added(p, pd, pd.address), active + {pd.address})
  {
    var q := Added(p, pd, pd.address);
    IdsAppend(p.devs, Device(pd.address, Unhealthy));
    assert !Conflict(q, pd.address);
    assert forall m: Message :: m.id == pd.address ==> m == Message(pd.address, m.health);
    forall m | m in q.pending ensures m.health == Healthy <==> m.id in active + {pd.address} {
      assert m == Message(pd.address, Healthy) || m in p.pending;
    }
    forall id | id in Ids(q.devs) && Quiet(q.pending, id)
      ensures id in HealthyIds(q.devs) <==> id in active + {pd.address}
    {
      assert Message(pd.address, Healthy) in q.pending;
      assert Quiet(p.pending, id);
    }
  }

  lemma RemoveAgrees(p: Plugin, address: string, active: set<string>)
    requires Agreeing(p, active) && NoConflict(Removed(p, address))
    ensures Agreeing(Removed(p, address), active - {address})
  {
    var q := Removed(p, address);
    assert Message(address, Unhealthy) in q.pending;
    assert address in Ids(q.devs) ==> !Conflict(q, address);
    assert forall m: Message :: m.id == address ==> m == Message(address, m.health);
    forall m | m in q.pending ensures m.health == Healthy <==> m.id in active - {address} {
      assert m == Message(address, Unhealthy) || m in p.pending;
    }
    forall id | id in Ids(q.devs) && Quiet(q.pending, id)
      ensures id in HealthyIds(q.devs) <==> id in active - {address}
    {
      assert Quiet(p.pending, id);
    }
  }

  lemma DeliverAgrees(p: Plugin, m: Message, active: set<string>)
    requires Agreeing(p, active) && m in p.pending
    ensures Agreeing(Delivered(p, m), active)
  {
    var q := Delivered(p, m);
    MarkedKeepsIds(p.devs, m);
    MarkedHealth(p.devs, m);
    assert forall x :: x in q.pending ==> x in p.pending;
    forall id | id in Ids(q.devs) && Quiet(q.pending, id) ensures id in HealthyIds(q.devs) <==> id in active {
      if id != m.id {
        assert Quiet(p.pending, id);
      }
    }
  }

  lemma StepAgrees(p: Plugin, e: Event, active: set<string>)
    requires Consistent(p) && Agreeing(p, active) && ClaimMatches(e) && NoConflict(Step(p, e))
    ensures Agreeing(Step(p, e), ActiveStep(p.groups.Keys, active, e))
  {
    match e
    case Add(pd, a) =>
      if pd.address !in p.groups {
        AddAgrees(p, pd, active);
      }
    case Remove(a) => RemoveAgrees(p, a, active);
    case Deliver(m) =>
      if m in p.pending {
        DeliverAgrees(p, m, active);
      }
  }

  /**
   The condition is exact: after the next operation every order of taking the messages ends with
   exactly the active devices healthy if and only if the operation caused no conflict.
   */
  lemma NextOperationExact(p: Plugin, e: Event, active: set<string>)
    requires Consistent(p) && Agreeing(p, active) && ClaimMatches(e)
    ensures (forall order :: multiset(order) == Step(p, e).pending ==>
        HealthyIds(Taken(Step(p, e).devs, order)) == ActiveStep(p.groups.Keys, active, e))
      <==> NoConflict(Step(p, e))
  {
    var q, active' := Step(p, e), ActiveStep(p.groups.Keys, active, e);
    StepConsistent(p, e);
    if NoConflict(q) {
      StepAgrees(p, e, active);
      forall order | multiset(order) == q.pending ensures HealthyIds(Taken(q.devs, order)) == active' {
        AnyOrderReachesActive(q, active', order);
      }
    } else {
      var id :| id in Ids(q.devs) && Conflict(q, id);
      var on, off := ConflictSplits(q, id);
    }
  }

  /**
   An add sends its message to the address of the claim: with nothing else on its way, the new
   device becomes healthy if and only if the claim is for it.
   */
  lemma AddedHealthyExactly(p: Plugin, pd: PciDev, claimAddress: string, order: seq<Message>)
    requires Consistent(p) && pd.address !in p.groups && p.pending == multiset{}
    requires multiset(order) == Step(p, Add(pd, claimAddress)).pending
    ensures pd.address in HealthyIds(Taken(Step(p, Add(pd, claimAddress)).devs, order)) <==> claimAddress == pd.address
  {
    var q := Step(p, Add(pd, claimAddress));
    var m := Message(claimAddress, Healthy);
    assert order == [m] by {
      assert |order| == |multiset(order)| == 1;
      assert order[0] in multiset(order);
    }
    StepConsistent(p, Add(pd, claimAddress));
    IdsAppend(p.devs, Device(pd.address, Unhealthy));
    assert pd.address !in HealthyIds(p.devs) by {
      assert forall i :: 0 <= i < |p.devs| ==> p.devs[i].id in Ids(p.devs);
    }
    assert [m][..0] == [] && Taken(q.devs, []) == q.devs;
    MarkedHealth(q.devs, m);
  }

  // ----- runs -----

  /** No operation of the run gives a known device two contradicting messages at once. */
  ghost predicate ConflictFree(p: Plugin, events: seq<Event>)
  {
    forall i :: 0 <= i < |events| ==> NoConflict(Step(Run(p, events[..i]), events[i]))
  }

  lemma ConflictFreePrefix(p: Plugin, events: seq<Event>)
    requires events != [] && ConflictFree(p, events)
    ensures ConflictFree(p, events[..|events| - 1])
    ensures NoConflict(Step(Run(p, events[..|events| - 1]), events[|events| - 1]))
  {
    var init := events[..|events| - 1];
    assert forall i :: 0 <= i < |init| ==> init[..i] == events[..i] && init[i] == events[i];
  }

  lemma {:induction false} KeysAreEverAdded(p: Plugin, events: seq<Event>)
    ensures Run(p, events).groups.Keys == EverAdded(p.groups.Keys, events)
  {
    if events != [] {
      KeysAreEverAdded(p, events[..|events| - 1]);
    }
  }

  lemma {:induction false} ConflictFreeAgrees(p: Plugin, active: set<string>, events: seq<Event>)
    requires Consistent(p) && Agreeing(p, active) && ClaimsMatch(events) && ConflictFree(p, events)
    ensures Agreeing(Run(p, events), Active(p.groups.Keys, active, events))
  {
    if events != [] {
      var init, e := events[..|events| - 1], events[|events| - 1];
      ConflictFreePrefix(p, events);
      ConflictFreeAgrees(p, active, init);
      RunConsistent(p, init);
      KeysAreEverAdded(p, init);
      StepAgrees(Run(p, init), e, Active(p.groups.Keys, active, init));
    }
  }

  /**
   In every conflict-free run, taking the messages that are still on their way, in any order, leaves
   exactly the active devices healthy; in particular they are the active ones when none is.
   */
  lemma ConflictFreeHealth(p: Plugin, active: set<string>, events: seq<Event>, order: seq<Message>)
    requires Consistent(p) && Agreeing(p, active) && ClaimsMatch(events) && ConflictFree(p, events)
    requires multiset(order) == Run(p, events).pending
    ensures HealthyIds(Taken(Run(p, events).devs, order)) == Active(p.groups.Keys, active, events)
    ensures Run(p, events).pending == multiset{} ==>
      HealthyIds(Run(p, events).devs) == Active(p.groups.Keys, active, events)
  {
    ConflictFreeAgrees(p, active, events);
    RunConsistent(p, events);
    AnyOrderReachesActive(Run(p, events), Active(p.groups.Keys, active, events), order);
    if Run(p, events).pending == multiset{} {
      AnyOrderReachesActive(Run(p, events), Active(p.groups.Keys, active, events), []);
    }
  }

  /** All messages are delivered before the next operation starts. */
  ghost predicate DrainedBetween(p: Plugin, events: seq<Event>)
  {
    forall i :: 0 <= i < |events| ==> !events[i].Deliver? ==> Run(p, events[..i]).pending == multiset{}
  }

  lemma ConflictNeedsTwo(p: Plugin, id: string)
    requires Conflict(p, id)
    ensures |p.pending| >= 2
  {
    var both := multiset{Message(id, Healthy), Message(id, Unhealthy)};
    assert both <= p.pending;
    assert |p.pending| == |p.pending - both| + |both|;
  }

  lemma FewMessagesNoConflict(p: Plugin)
    requires |p.pending| <= 1
    ensures NoConflict(p)
  {
    forall id | id in Ids(p.devs) ensures !Conflict(p, id) {
      if Conflict(p, id) {
        ConflictNeedsTwo(p, id);
      }
    }
  }

  lemma StepFew(p: Plugin, e: Event)
    requires |p.pending| <= 1 && (!e.Deliver? ==> p.pending == multiset{})
    ensures |Step(p, e).pending| <= 1
  {
  }

  lemma {:induction false} DrainedFew(p: Plugin, events: seq<Event>, k: nat)
    requires k <= |events| && |p.pending| <= 1 && DrainedBetween(p, events)
    ensures |Run(p, events[..k]).pending| <= 1
  {
    if k == 0 {
      assert events[..k] == [];
    } else {
      DrainedFew(p, events, k - 1);
      StepFew(Run(p, events[..k - 1]), events[k - 1]);
      assert events[..k][..k - 1] == events[..k - 1];
    }
  }

  /** Draining between operations is one way to be conflict-free. */
  lemma DrainedIsConflictFree(p: Plugin, events: seq<Event>)
    requires |p.pending| <= 1 && DrainedBetween(p, events)
    ensures ConflictFree(p, events)
  {
    forall i | 0 <= i < |events| ensures NoConflict(Step(Run(p, events[..i]), events[i])) {
      DrainedFew(p, events, i);
      StepFew(Run(p, events[..i]), events[i]);
      FewMessagesNoConflict(Step(Run(p, events[..i]), events[i]));
    }
  }

  /** A new plugin agrees with its initial device being the active one. */
  lemma CreatedAgrees(pds: seq<PciDev>, initial: string)
    requires forall i, j :: 0 <= i < j < |pds| ==> pds[i].address != pds[j].address
    requires exists i :: 0 <= i < |pds| && pds[i].address == initial
    ensures var p := Created(pds, initial);
      Consistent(p) && Agreeing(p, {initial}) && |p.pending| == 1
  {
    CreatedConsistent(pds, initial);
    var i :| 0 <= i < |pds| && pds[i].address == initial;
    assert Constructed(pds)[i].id == initial;
  }

  /** Without waiting, an add and a remove in quick succession can leave the removed device healthy for good. */
  lemma RaceKeepsRemovedDeviceHealthy(address: string, group: string)
    ensures var p := Removed(Added(Plugin([], map[], multiset{}), PciDev(address, group), address), address);
      var order := [Message(address, Unhealthy), Message(address, Healthy)];
      multiset(order) == p.pending && HealthyIds(Taken(p.devs, order)) == {address}
  {
    var p := Removed(Added(Plugin([], map[], multiset{}), PciDev(address, group), address), address);
    var order := [Message(address, Unhealthy), Message(address, Healthy)];
    assert p.devs == [Device(address, Unhealthy)];
    TakenPointwise(p.devs, order);
    assert Taken(p.devs, order)[0] == Device(address, Healthy);
  }

  // ----- the end of a claim -----

  /** An active device that is healthy stays so, whichever messages are taken. */
  lemma ActiveStaysHealthy(p: Plugin, active: set<string>, id: string, order: seq<Message>)
    requires Agreeing(p, active) && multiset(order) <= p.pending && id in active && id in HealthyIds(p.devs)
    ensures id in HealthyIds(Taken(p.devs, order))
  {
    var i :| 0 <= i < |p.devs| && p.devs[i].health == Healthy && p.devs[i].id == id;
    TakenPointwise(p.devs, order);
    assert forall m :: m in order ==> m in multiset(order);
    OneVoice(order, id, Healthy, Healthy);
    assert Taken(p.devs, order)[i] == Device(id, Healthy);
  }

  function OnlyUnhealthy(order: seq<Message>): (r: seq<Message>)
    ensures multiset(r) <= multiset(order)
    ensures forall m :: m in r <==> m in order && m.health == Unhealthy
  {
    if order == [] then []
    else
      var init, m := order[..|order| - 1], order[|order| - 1];
      assert order == init + [m];
      if m.health == Unhealthy then OnlyUnhealthy(init) + [m] else OnlyUnhealthy(init)
  }

  /** If no active device is healthy yet, the stream can have taken the messages that leave none healthy. */
  lemma NoneHealthyYet(p: Plugin, active: set<string>) returns (order: seq<Message>)
    requires Agreeing(p, active) && HealthyIds(p.devs) * active == {}
    requires forall id :: id in HealthyIds(p.devs) ==> Message(id, Unhealthy) in p.pending
    ensures multiset(order) <= p.pending && HealthyIds(Taken(p.devs, order)) == {}
  {
    var all := Enumerate(p.pending);
    order := OnlyUnhealthy(all);
    TakenPointwise(p.devs, order);
    forall i | 0 <= i < |p.devs| ensures Taken(p.devs, order)[i].health == Unhealthy {
      var d := p.devs[i];
      OneVoice(order, d.id, d.health, Unhealthy);
      if d.health == Healthy {
        assert d.id in HealthyIds(p.devs);
        assert Message(d.id, Unhealthy) in multiset(all);
        assert Message(d.id, Unhealthy) in order;
        assert Message(d.id, Unhealthy) in multiset(order);
      }
    }
  }

  lemma HealthyIsLeaving(p: Plugin, active: set<string>, address: string, id: string)
    requires Agreeing(p, active) && id in HealthyIds(p.devs) && id !in active - {address}
    ensures Message(id, Unhealthy) in Removed(p, address).pending
  {
    if id != address {
      var i :| 0 <= i < |p.devs| && p.devs[i].health == Healthy && p.devs[i].id == id;
      assert id in Ids(p.devs);
      assert Message(id, Healthy) in p.pending ==> id in active;
    }
  }

  /** Whichever messages the stream has taken, a count of zero means that no device is active. */
  ghost predicate Trustworthy(p: Plugin, active: set<string>)
  {
    forall order :: multiset(order) <= p.pending && HealthyIds(Taken(p.devs, order)) == {} ==> active == {}
  }

  /**
   After a removal, a count of zero means that no device is active any more, whichever messages the
   stream has taken by then, if and only if the removal leaves no active device or an active one is
   healthy already.
   */
  lemma CountTrustworthyExactly(p: Plugin, active: set<string>, address: string)
    requires Agreeing(p, active) && NoConflict(Removed(p, address))
    ensures var left := active - {address};
      Trustworthy(Removed(p, address), left) <==> left == {} || HealthyIds(p.devs) * left != {}
  {
    var q, left := Removed(p, address), active - {address};
    RemoveAgrees(p, address, active);
    if HealthyIds(p.devs) * left == {} {
      forall id | id in HealthyIds(q.devs) ensures Message(id, Unhealthy) in q.pending {
        HealthyIsLeaving(p, active, address, id);
      }
      var order := NoneHealthyYet(q, left);
    } else {
      var id :| id in HealthyIds(p.devs) * left;
      forall order | multiset(order) <= q.pending ensures id in HealthyIds(Taken(p.devs, order)) {
        ActiveStaysHealthy(q, left, id, order);
      }
    }
  }

  /**
   So in every conflict-free run that ends with a removal, the plugin is dropped only when no device
   is active any more if and only if none is, or an active one had already become healthy. Once the
   stream has taken all messages, the devices counted are the active ones.
   */
  lemma DroppedOnlyWhenInactive(p: Plugin, active: set<string>, events: seq<Event>, address: string)
    requires Consistent(p) && Agreeing(p, active) && ClaimsMatch(events) && ConflictFree(p, events + [Remove(address)])
    ensures var before, after := Run(p, events), Run(p, events + [Remove(address)]);
      var left := Active(p.groups.Keys, active, events + [Remove(address)]);
      && (Trustworthy(after, left) <==> left == {} || HealthyIds(before.devs) * left != {})
      && (forall order :: multiset(order) == after.pending ==> HealthyIds(Taken(after.devs, order)) == left)
  {
    var all := events + [Remove(address)];
    RemoveLast(p, active, events, address);
    ConflictFreePrefix(p, all);
    ConflictFreeAgrees(p, active, events);
    CountTrustworthyExactly(Run(p, events), Active(p.groups.Keys, active, events), address);
    forall order | multiset(order) == Run(p, all).pending
      ensures HealthyIds(Taken(Run(p, all).devs, order)) == Active(p.groups.Keys, active, all)
    {
      ConflictFreeHealth(p, active, all, order);
    }
  }

  lemma RemoveLast(p: Plugin, active: set<string>, events: seq<Event>, address: string)
    ensures var all := events + [Remove(address)];
      && all[..|all| - 1] == events && Run(p, all) == Removed(Run(p, events), address)
      && Active(p.groups.Keys, active, all) == Active(p.groups.Keys, active, events) - {address}
  {
    var all := events + [Remove(address)];
    assert all[..|events|] == events;
  }
}
