/** The per-key dial gates of `connect`: a local dial holds its key's gate from before
    it looks for a live session until its own session is registered, while inbound
    sessions, relays and teardowns go on around it. */
module DialGate {
  import opened Types
  import opened Collections
  import opened SessionRegistry
  import opened RegistryRuns

  /** How far the holder of a gate has come. */
  datatype Holder = Acquired(task: nat) | Dialing(task: nat)

  datatype Device = Device(world: World, gates: map<SessionKey, Holder>)

  datatype GateEvent =
    | Acquire(key: SessionKey, task: nat)
    | Check(key: SessionKey)
    | Complete(key: SessionKey, s: Session)
    | Abandon(key: SessionKey)
    | Around(e: Event)

  const IDLE := Device(INITIAL, map[])

  /** A session this device dialled without a relay. */
  predicate OwnDirect(local: DeviceId, s: Session) {
    s.initiator == local && !s.relayed
  }

  /** Direct dials register only through their gate; a relayed dial does not take it. */
  ghost predicate Possible(local: DeviceId, d: Device, g: GateEvent) {
    match g
    case Acquire(key, _) => key !in d.gates
    case Check(key) => key in d.gates && d.gates[key].Acquired?
    case Complete(key, s) =>
      key in d.gates && d.gates[key].Dialing? && KeyOf(s) == key && OwnDirect(local, s) && Enabled(d.world, Register(s))
    case Abandon(key) => key in d.gates
    case Around(e) => Enabled(d.world, e) && (e.Register? ==> !OwnDirect(local, e.s))
  }

  function Proceed(d: Device, g: GateEvent): Device {
    match g
    case Acquire(key, task) => d.(gates := d.gates[key := Acquired(task)])
    case Check(key) =>
      var world := Apply(d.world, Active(key.peer, key.kind));
      if key in world.registry.sessions || key !in d.gates then Device(world, d.gates - {key})
      else Device(world, d.gates[key := Dialing(d.gates[key].task)])
    case Complete(key, s) => Device(Apply(d.world, Register(s)), d.gates - {key})
    case Abandon(key) => d.(gates := d.gates - {key})
    case Around(e) => d.(world := Apply(d.world, e))
  }

  function Reached(events: seq<GateEvent>): Device {
    if events == [] then IDLE else Proceed(Reached(Before(events)), Last(events))
  }

  ghost predicate ValidGateRun(local: DeviceId, events: seq<GateEvent>) {
    events == [] || (ValidGateRun(local, Before(events)) && Possible(local, Reached(Before(events)), Last(events)))
  }

  /** While a dial is under way, its key holds no live session that this device dialled directly. */
  ghost predicate GateOk(local: DeviceId, d: Device, key: SessionKey) {
    key in d.gates && d.gates[key].Dialing? && key in d.world.registry.sessions ==>
      !OwnDirect(local, d.world.registry.sessions[key].session)
        || !Live(d.world.registry, d.world.registry.sessions[key].session)
  }

  lemma GateStep(local: DeviceId, d: Device, g: GateEvent, key: SessionKey)
    requires Possible(local, d, g) && WellFormed(d.world.registry) && GateOk(local, d, key)
    ensures GateOk(local, Proceed(d, g), key) && WellFormed(Proceed(d, g).world.registry)
  {
    match g
    case Acquire(_, _) =>
    case Abandon(_) =>
    case Check(k) => RegistryStep(d.world, Active(k.peer, k.kind), key);
    case Complete(_, s) => RegistryStep(d.world, Register(s), key);
    case Around(e) => RegistryStep(d.world, e, key);
  }

  /** Connections do not reopen, and a key's entry changes only by a registration for it. */
  lemma RegistryStep(w: World, e: Event, key: SessionKey)
    requires WellFormed(w.registry)
    ensures WellFormed(Apply(w, e).registry)
    ensures key in Apply(w, e).registry.sessions ==>
              var s, after := Apply(w, e).registry.sessions[key].session, Apply(w, e).registry;
              && (Live(after, s) ==> Live(w.registry, s) || e == Register(s))
              && (e == Register(s) || (key in w.registry.sessions && w.registry.sessions[key].session == s))
  {
    ApplyKeepsWellFormed(w, e);
  }

  lemma {:induction false} GatesHold(local: DeviceId, events: seq<GateEvent>, key: SessionKey)
    requires ValidGateRun(local, events)
    ensures GateOk(local, Reached(events), key) && WellFormed(Reached(events).world.registry)
  {
    if events != [] {
      GatesHold(local, Before(events), key);
      GateStep(local, Reached(Before(events)), Last(events), key);
    }
  }

  /** What a gate run does to the registry, as a run of registry events. */
  function Underlying(events: seq<GateEvent>): seq<Event> {
    if events == [] then []
    else
      var earlier := Underlying(Before(events));
      match Last(events)
      case Acquire(_, _) => earlier
      case Check(key) => earlier + [Active(key.peer, key.kind)]
      case Complete(_, s) => earlier + [Register(s)]
      case Abandon(_) => earlier
      case Around(e) => earlier + [e]
  }

  lemma {:induction false} GateRunIsRun(local: DeviceId, events: seq<GateEvent>)
    requires ValidGateRun(local, events)
    ensures ValidRun(Underlying(events)) && Reached(events).world == Run(Underlying(events))
  {
    if events != [] {
      var earlier := Underlying(Before(events));
      GateRunIsRun(local, Before(events));
      match Last(events)
      case Acquire(_, _) =>
      case Check(key) => RunOfPush(earlier, Active(key.peer, key.kind));
      case Complete(_, s) => RunOfPush(earlier, Register(s));
      case Abandon(_) =>
      case Around(e) => RunOfPush(earlier, e);
    }
  }

  predicate Registers(g: GateEvent, s: Session) {
    g == Around(Register(s)) || (g.Complete? && g.s == s)
  }

  /** This device registers `s`, which it dialled itself, while the registry holds another
      live session for the same key that it also dialled itself. */
  ghost predicate Meets(local: DeviceId, events: seq<GateEvent>, g: GateEvent, s: Session, current: Session) {
    && ValidGateRun(local, events) && Possible(local, Reached(events), g) && Registers(g, s)
    && s.initiator == local && current.initiator == local && s != current && KeyOf(s) == KeyOf(current)
    && Holds(Reached(events).world.registry, current) && Live(Reached(events).world.registry, current)
  }

  predicate Closes(events: seq<GateEvent>, g: GateEvent, current: Session) {
    !Open(Proceed(Reached(events), g).world.registry, current)
  }

  lemma {:induction false} RelayedKind(local: DeviceId, events: seq<GateEvent>, s: Session)
    requires ValidGateRun(local, events) && s in Reached(events).world.authenticated && s.relayed
    ensures s.kind == RealtimeInput
  {
    GateRunIsRun(local, events);
    var at := HandshakeIndex(Underlying(events), s);
  }

  /** In every gate run, when two live sessions dialled by this device meet at one key, one
      of them is relayed and the key carries realtime input; the earlier one is then
      closed unless the peer process of the later one is retired. */
  lemma {:induction false} OwnDialsMeetOnlyThroughRelays(local: DeviceId, events: seq<GateEvent>, g: GateEvent,
                                                         s: Session, current: Session)
    requires Meets(local, events, g, s, current)
    ensures (s.relayed || current.relayed) && s.kind == RealtimeInput
    ensures Closes(events, g, current)
            <==> !(s.instance.Some? && s.instance.value in Reached(events).world.registry.sessions[KeyOf(s)].retired)
  {
    GatesHold(local, events, KeyOf(s));
    GateRunIsRun(local, events);
    HandlesAreAuthenticated(Underlying(events), current);
    if s.relayed {
      RelayedKind(local, events, s);
    } else {
      RelayedKind(local, events, current);
    }
  }

  /** No other kind is affected: a live session this device dialled is never displaced by
      another dial of its own. */
  lemma {:induction false} DialsDoNotDisplaceEachOther(local: DeviceId, events: seq<GateEvent>, g: GateEvent,
                                                       s: Session, current: Session)
    requires ValidGateRun(local, events) && Possible(local, Reached(events), g) && Registers(g, s)
    requires s.initiator == local && current.initiator == local && s != current
    requires Holds(Reached(events).world.registry, current) && Live(Reached(events).world.registry, current)
    requires s.kind != RealtimeInput || (!s.relayed && !current.relayed)
    ensures Holds(Proceed(Reached(events), g).world.registry, current)
    ensures Live(Proceed(Reached(events), g).world.registry, current)
  {
    GatesHold(local, events, KeyOf(s));
    if KeyOf(s) == KeyOf(current) {
      OwnDialsMeetOnlyThroughRelays(local, events, g, s, current);
      assert false;
    }
  }

  /** The dial gates prevent same-initiator duplicates exactly for direct dials: of two
      sessions this device dials to one process of a peer, there is a run in which the later
      one closes the live earlier one if and only if one of them is relayed. */
  lemma {:induction false} GatesPreventDuplicatesExactly(s: Session, current: Session)
    requires KeyOf(s) == KeyOf(current) && s.initiator == current.initiator && s.instance == current.instance
    requires s.connection != current.connection
    requires s.relayed || current.relayed ==> s.kind == RealtimeInput
    ensures (exists events, g :: Meets(s.initiator, events, g, s, current) && Closes(events, g, current))
            <==> s.relayed || current.relayed
  {
    if s.relayed || current.relayed {
      var events, g := RelayDisplaces(s, current);
      assert Meets(s.initiator, events, g, s, current) && Closes(events, g, current);
    }
    forall events, g | Meets(s.initiator, events, g, s, current) ensures s.relayed || current.relayed {
      OwnDialsMeetOnlyThroughRelays(s.initiator, events, g, s, current);
    }
  }

  lemma ReachedOfPush(local: DeviceId, events: seq<GateEvent>, g: GateEvent)
    ensures Reached(events + [g]) == Proceed(Reached(events), g)
    ensures ValidGateRun(local, events + [g]) <==> ValidGateRun(local, events) && Possible(local, Reached(events), g)
  {
    assert Before(events + [g]) == events;
  }

  /** A relayed dial looks for a live session without the gate, a gated dial does so after
      it, both find the key free, and both handshakes complete. */
  lemma GateOpen(s: Session, current: Session) returns (events: seq<GateEvent>)
    requires KeyOf(s) == KeyOf(current) && s.connection != current.connection
    requires s.relayed || current.relayed ==> s.kind == RealtimeInput
    ensures ValidGateRun(s.initiator, events)
    ensures Reached(events) == Device(INITIAL.(peers := {s.peer}, authenticated := {current, s}),
                                      map[KeyOf(s) := Dialing(0)])
  {
    var local := s.initiator;
    var checked := GateChecked(local, KeyOf(s));
    var one := checked + [Around(Authenticate(current))];
    ReachedOfPush(local, checked, Around(Authenticate(current)));
    assert Reached(one).world == INITIAL.(peers := {s.peer}, authenticated := {current});
    ReachedOfPush(local, one, Around(Authenticate(s)));
    assert {current} + {s} == {current, s};
    events := one + [Around(Authenticate(s))];
  }

  lemma GateChecked(local: DeviceId, key: SessionKey) returns (events: seq<GateEvent>)
    ensures ValidGateRun(local, events)
    ensures Reached(events) == Device(INITIAL.(peers := {key.peer}), map[key := Dialing(0)])
  {
    var one := [] + [Around(Pair(key.peer))];
    var two := one + [Around(Active(key.peer, key.kind))];
    var three := two + [Acquire(key, 0)];
    ReachedOfPush(local, [], Around(Pair(key.peer)));
    assert Reached(one) == Device(INITIAL.(peers := {key.peer}), map[]);
    ReachedOfPush(local, one, Around(Active(key.peer, key.kind)));
    assert Reached(two) == Reached(one);
    ReachedOfPush(local, two, Acquire(key, 0));
    ReachedOfPush(local, three, Check(key));
    events := three + [Check(key)];
  }

  /** A relayed dial takes no gate. With `current` direct, the relayed dial has looked for a
      live session before the direct one completed and then closes it. */
  lemma RelayDisplaces(s: Session, current: Session) returns (events: seq<GateEvent>, g: GateEvent)
    requires KeyOf(s) == KeyOf(current) && s.initiator == current.initiator && s.instance == current.instance
    requires s.connection != current.connection && s.kind == RealtimeInput && (s.relayed || current.relayed)
    ensures Meets(s.initiator, events, g, s, current) && Closes(events, g, current)
    ensures s.relayed && !current.relayed ==> Complete(KeyOf(s), current) in events
  {
    var open := GateOpen(s, current);
    var first := if current.relayed then Around(Register(current)) else Complete(KeyOf(s), current);
    ReachedOfPush(s.initiator, open, first);
    events := open + [first];
    g := if s.relayed then Around(Register(s)) else Complete(KeyOf(s), s);
  }
}
