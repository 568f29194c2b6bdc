/**
 The life of a device's override resource name: claims that disable pooling set it, the periodic
 PCI reconcile honours it, and the end of the claim takes it away again.
 */
module Override {
  import opened Text

  /** `override_` is the claim's own resource name annotation, `skipBinding` its skip-vfio-binding one. */
  datatype Claim = Claim(disablePooling: bool, override_: Option<string>, skipBinding: bool)

  /** A device object: its name and the resource name generated from the hardware. */
  datatype Device = Device(name: string, generated: string)

  /** The object's annotation and status, its claim, and the plugins (by key) that hold the device. */
  datatype State = State(annotation: Option<string>, resourceName: string, claim: Option<Claim>, plugins: set<string>)

  /** The vendor part of a resource name with the device's own name behind it. */
  function Individual(resourceName: string, name: string): string
  {
    var i := IndexOf(resourceName, '/');
    if i < |resourceName| then resourceName[..i] + "/" + name else name
  }

  function Ensured(s: State, d: Device): State
  {
    var individual := Individual(s.resourceName, d.name);
    s.(annotation := Some(individual), resourceName := individual)
  }

  /** The plugin key when a claim is reconciled: the claim's annotation counts only without VFIO binding. */
  function CreationKey(s: State, c: Claim): string
  {
    if c.skipBinding && c.override_.Some? then c.override_.value else s.resourceName
  }

  /** The plugin key when a claim ends: the claim's annotation always counts. */
  function RemovalKey(s: State, c: Claim): string
  {
    if c.override_.Some? then c.override_.value else s.resourceName
  }

  function ClaimReconciled(s: State, d: Device, c: Claim): State
  {
    var s1 := if c.disablePooling then Ensured(s, d) else s;
    s1.(plugins := s1.plugins + {CreationKey(s1, c)})
  }

  function ClaimRemoved(s: State, c: Claim): State
  {
    State(if c.disablePooling then None else s.annotation, s.resourceName, None, s.plugins - {RemovalKey(s, c)})
  }

  /** The periodic reconcile: a non-empty annotation overrides the generated name. */
  function PeriodicallyUpdated(s: State, d: Device): State
  {
    s.(resourceName := if s.annotation.Some? && s.annotation.value != "" then s.annotation.value else d.generated)
  }

  datatype Event = NewClaim(claim: Claim) | ReconcileClaim | RemoveClaim | Periodic

  function Step(s: State, d: Device, e: Event): State
  {
    match e
    case NewClaim(c) => if s.claim.None? then s.(claim := Some(c)) else s
    case ReconcileClaim => if s.claim.None? then s else ClaimReconciled(s, d, s.claim.value)
    case RemoveClaim => if s.claim.None? then s else ClaimRemoved(s, s.claim.value)
    case Periodic => PeriodicallyUpdated(s, d)
  }

  function Run(s: State, d: Device, events: seq<Event>): State
  {
    if events == [] then s else Step(Run(s, d, events[..|events| - 1]), d, events[|events| - 1])
  }

  // ----- the handlers -----

  class Handler {
    const device: Device
    var annotation: Option<string>
    var resourceName: string
    var claim: Option<Claim>
    var plugins: set<string>

    ghost function Current(): State
      reads this
    {
      State(annotation, resourceName, claim, plugins)
    }

    constructor (device: Device)
      ensures this.device == device && Current() == State(None, device.generated, None, {})
    {
      this.device := device;
      annotation, resourceName, claim, plugins := None, device.generated, None, {};
    }

    method EnsureIndividualDeviceResourceName()
      modifies this`annotation, this`resourceName
      ensures Current() == Ensured(old(Current()), device)
    {
      var individual := device.name;
      var i := IndexOf(resourceName, '/');
      if i < |resourceName| {
        individual := resourceName[..i] + "/" + device.name;
      }
      annotation := Some(individual);
      resourceName := individual;
    }

    method ReconcilePCIDeviceClaim()
      modifies this
      ensures Current() == Step(old(Current()), device, ReconcileClaim)
    {
      if claim == None {
        return;
      }
      var pdc := claim.value;
      if pdc.disablePooling {
        EnsureIndividualDeviceResourceName();
      }
      var key := resourceName;
      if pdc.skipBinding && pdc.override_.Some? {
        key := pdc.override_.value;
      }
      plugins := plugins + {key};
    }

    method OnRemove()
      modifies this
      ensures Current() == Step(old(Current()), device, RemoveClaim)
    {
      if claim == None {
        return;
      }
      var pdc := claim.value;
      var key := resourceName;
      if pdc.override_.Some? {
        key := pdc.override_.value;
      }
      plugins := plugins - {key};
      if pdc.disablePooling && annotation.Some? {
        annotation := None;
      }
      claim := None;
    }

    method UpdateStatus()
      modifies this`resourceName
      ensures Current() == Step(old(Current()), device, Periodic)
    {
      resourceName := device.generated;
      if annotation.Some? && annotation.value != "" {
        resourceName := annotation.value;
      }
    }
  }

  // ----- setting the name again changes nothing -----

  /** Object names are not empty and contain no slash. */
  predicate ValidDevice(d: Device) { d.name != "" && '/' !in d.name }

  lemma IndividualIsStable(resourceName: string, name: string)
    requires name != "" && '/' !in name
    ensures Individual(resourceName, name) != ""
    ensures Individual(Individual(resourceName, name), name) == Individual(resourceName, name)
  {
    var i := IndexOf(resourceName, '/');
    if i < |resourceName| {
      var vendor := resourceName[..i];
      assert vendor + "/" + name == vendor + ['/'] + name;
      IndexOfAfter(vendor, '/', name);
      assert (vendor + "/" + name)[..i] == vendor;
    }
  }

  /** The individual name is the vendor, up to the first slash, with the device's name, or that alone. */
  lemma IndividualExactly(vendor: string, rest: string, name: string)
    requires '/' !in vendor
    ensures Individual(vendor + "/" + rest, name) == vendor + "/" + name
    ensures Individual(vendor, name) == name
  {
    assert vendor + "/" + rest == vendor + ['/'] + rest;
    IndexOfAfter(vendor, '/', rest);
    assert (vendor + "/" + rest)[..|vendor|] == vendor;
  }

  // ----- every interleaving -----

  function Own(d: Device): string { Individual(d.generated, d.name) }

  /** The annotation is absent or the device's own name, and it is set only under a claim that wants it. */
  ghost predicate Sound(s: State, d: Device)
  {
    && (s.resourceName == d.generated || s.resourceName == Own(d))
    && (s.annotation.Some? ==>
      && s.annotation.value == Own(d) && s.resourceName == Own(d)
      && s.claim.Some? && s.claim.value.disablePooling)
  }

  lemma StepSound(s: State, d: Device, e: Event)
    requires ValidDevice(d) && Sound(s, d)
    ensures Sound(Step(s, d, e), d)
  {
    IndividualIsStable(d.generated, d.name);
  }

  /** In every interleaving of claim reconciles, removals and periodic reconciles the state stays sound. */
  lemma {:induction false} RunSound(s: State, d: Device, events: seq<Event>)
    requires ValidDevice(d) && Sound(s, d)
    ensures Sound(Run(s, d, events), d)
  {
    if events != [] {
      RunSound(s, d, events[..|events| - 1]);
      StepSound(Run(s, d, events[..|events| - 1]), d, events[|events| - 1]);
    }
  }

  /** The events before the claim ends: none of them is a removal. */
  predicate WhileClaimed(events: seq<Event>)
  {
    forall i :: 0 <= i < |events| ==> !events[i].RemoveClaim?
  }

  /**
   Once a claim that disables pooling has been reconciled, the resource name stays vendor/device-name
   through every interleaving until the claim ends, and further reconciles change nothing but add
   the plugin again. The vendor is that of the resource name the device had.
   */
  lemma {:induction false} OverrideHolds(s: State, d: Device, c: Claim, events: seq<Event>)
    requires ValidDevice(d) && s.claim == Some(c) && c.disablePooling && WhileClaimed(events)
    ensures var t := Run(Step(s, d, ReconcileClaim), d, events);
      var own := Individual(s.resourceName, d.name);
      && t == Step(s, d, ReconcileClaim)
      && t.annotation == Some(own) && t.resourceName == own && t.claim == Some(c)
      && (Sound(s, d) ==> own == Own(d))
  {
    IndividualIsStable(d.generated, d.name);
    IndividualIsStable(s.resourceName, d.name);
    if events != [] {
      var init := events[..|events| - 1];
      OverrideHolds(s, d, c, init);
      var t := Step(s, d, ReconcileClaim);
      assert Step(t, d, events[|events| - 1]) == t;
    }
  }

  /** The key under which the device was added to a plugin is the key under which it will be removed. */
  ghost predicate KeysMatch(s: State, d: Device, c: Claim, events: seq<Event>)
  {
    var created := Step(s, d, ReconcileClaim);
    CreationKey(created, c) == RemovalKey(Run(created, d, events), c)
  }

  /** The claim carries no annotation of its own that only the removal looks at. */
  predicate SameKeys(s: State, d: Device, c: Claim)
  {
    c.override_.None? || c.skipBinding || c.override_.value == Individual(s.resourceName, d.name)
  }

  /** For a claim that disables pooling the two keys agree in every interleaving, exactly under that condition. */
  lemma UnpooledKeysMatch(s: State, d: Device, c: Claim, events: seq<Event>)
    requires ValidDevice(d) && s.claim == Some(c) && c.disablePooling && WhileClaimed(events)
    ensures KeysMatch(s, d, c, events) <==> SameKeys(s, d, c)
  {
    OverrideHolds(s, d, c, events);
  }

  /**
   After the claim ends the annotation is gone and one periodic reconcile later the generated name
   is back, for every such claim; the plugins let go of the device exactly when the keys agree.
   */
  lemma CleanupRestores(s: State, d: Device, c: Claim, events: seq<Event>)
    requires ValidDevice(d) && s.claim == Some(c) && c.disablePooling && WhileClaimed(events)
    requires s.plugins == {}
    ensures var t := Step(Run(Step(s, d, ReconcileClaim), d, events), d, RemoveClaim);
      && t.annotation == None && t.claim == None && Step(t, d, Periodic).resourceName == d.generated
      && (t.plugins == {} <==> SameKeys(s, d, c))
  {
    OverrideHolds(s, d, c, events);
    UnpooledKeysMatch(s, d, c, events);
    var key := CreationKey(Step(s, d, ReconcileClaim), c);
    assert Step(s, d, ReconcileClaim).plugins == {key};
    assert key in {key};
  }

  /** Ending a pooled claim leaves the device's annotation to whoever set it; ending any other takes it away. */
  lemma RemovalExactly(s: State, d: Device, c: Claim)
    requires s.claim == Some(c)
    ensures var t := Step(s, d, RemoveClaim);
      && t.claim == None && t.resourceName == s.resourceName
      && (c.disablePooling ==> t.annotation == None)
      && (!c.disablePooling ==> t.annotation == s.annotation)
  {
  }

  /** A periodic reconcile shows the annotation if it has a name in it, and else the generated name. */
  lemma PeriodicExactly(s: State, d: Device)
    ensures var t := Step(s, d, Periodic);
      && t == s.(resourceName := t.resourceName)
      && (forall name :: s.annotation == Some(name) && name != "" ==> t.resourceName == name)
      && (s.annotation == None || s.annotation == Some("") ==> t.resourceName == d.generated)
  {
  }

  /** Only the first claim for a device counts until it ends. */
  lemma FirstClaimHolds(s: State, d: Device, c: Claim)
    ensures Step(s, d, NewClaim(c)) == s.(claim := if s.claim.Some? then s.claim else Some(c))
  {
  }

  // ----- pooled claims -----

  lemma {:induction false} PooledRun(s: State, d: Device, c: Claim, events: seq<Event>)
    requires s.claim == Some(c) && !c.disablePooling && WhileClaimed(events)
    ensures var t := Run(s, d, events);
      && t.annotation == s.annotation && t.claim == Some(c)
      && t.resourceName == if Periodic in events then PeriodicallyUpdated(s, d).resourceName else s.resourceName
  {
    if events != [] {
      var init := events[..|events| - 1];
      PooledRun(s, d, c, init);
      assert events == init + [events[|events| - 1]];
    }
  }

  /**
   For a pooled claim without an annotation of its own the keys agree in every interleaving if the
   status already shows what a periodic reconcile would write, whoever set the device's annotation,
   and otherwise as long as none runs. With an annotation of its own they agree exactly when the
   reconcile reads it too, or when it is the name the status showed.
   */
  lemma PooledKeysMatch(s: State, d: Device, c: Claim, events: seq<Event>)
    requires s.claim == Some(c) && !c.disablePooling && WhileClaimed(events)
    ensures KeysMatch(s, d, c, events) <==>
      if c.override_.Some? then c.skipBinding || c.override_.value == s.resourceName
      else s.resourceName == PeriodicallyUpdated(s, d).resourceName || Periodic !in events
  {
    PooledRun(Step(s, d, ReconcileClaim), d, c, events);
  }
}
