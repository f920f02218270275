/** Every run of the registry: handshakes, registrations, lookups, pairings, teardowns and
    watcher firings in any order, interleaved with connection losses and handle drops. */
module RegistryRuns {
  import opened Types
  import opened Collections
  import opened SessionRegistry

  datatype Event =
    | Authenticate(s: Session)
    | Register(s: Session)
    | Active(peer: DeviceId, kind: SessionKind)
    | Disconnect(peer: DeviceId)
    | Pair(peer: DeviceId)
    | Remember(peer: DeviceId)
    | Forget(peer: DeviceId, peerStore: Result<(), ()>, endpointStore: Result<(), ()>, cascades: bool)
    | ForgetDropped(peer: DeviceId, endpointsGone: bool)
    | Grant(peer: DeviceId, capability: CapabilityId, saved: bool)
    | Revoke(peer: DeviceId, revoked: bool)
    | WatcherFires(s: Session)
    | TransportLost(s: Session)
    | HandleDropped(s: Session)

  /** The registry together with the watcher tasks that have not fired yet, every session
      that completed its handshake, the stored peer records and the devices with
      remembered endpoints. */
  datatype World = World(
    registry: Registry,
    watchers: set<Session>,
    authenticated: set<Session>,
    peers: set<DeviceId>,
    remembered: set<DeviceId>)

  const INITIAL := World(Registry(map[], {}, {}), {}, {}, {}, {})

  /** The kinds whose handshake asks for a stored peer record. */
  predicate NeedsPairing(kind: SessionKind) {
    kind != Pairing && kind != FileTransfer && kind != DiscoveryProbe
  }

  /** Something still refers to the connection of `s`: the session object, a registry
      entry or a watcher. Its stable id is not given to another connection meanwhile. */
  predicate Pinned(w: World, s: Session) {
    || (s in w.authenticated && Upgrades(w.registry, s))
    || Holds(w.registry, s)
    || s in w.watchers
  }

  /** A handshake asks for the peer record where the kind needs one, relays carry
      realtime input only, and a registering caller holds an authenticated session. A
      watcher wakes up only once its connection is closed. */
  ghost predicate Enabled(w: World, e: Event) {
    match e
    case Authenticate(s) =>
      && s !in w.authenticated
      && (NeedsPairing(s.kind) ==> s.peer in w.peers)
      && (s.relayed ==> s.kind == RealtimeInput)
      && (forall t :: Pinned(w, t) ==> t.connection != s.connection)
    case Register(s) => s in w.authenticated && Upgrades(w.registry, s)
    case WatcherFires(s) => s in w.watchers && !Open(w.registry, s)
    case TransportLost(s) => s in w.authenticated
    case HandleDropped(s) => s in w.authenticated
    case _ => true
  }

  function ForgetStored(w: World, peer: DeviceId, endpoints: bool): World {
    w.(peers := w.peers - {peer}, remembered := if endpoints then w.remembered - {peer} else w.remembered)
  }

  /** `ForgetDropped` is a `forget` that its caller drops after the record is gone and before
      the registry is reached; its endpoints may be gone too. `cascades` says whether the
      peer store deletes the endpoints with the record. */
  function Apply(w: World, e: Event): World {
    var r := w.registry;
    match e
    case Authenticate(s) => w.(authenticated := w.authenticated + {s})
    case Register(s) =>
      w.(registry := SessionRegistry.Register(r, s),
         watchers := if s.relayed && RegisterResult(r, s) == Ok(s) then w.watchers + {s} else w.watchers)
    case Active(peer, kind) => w.(registry := Prune(r, SessionKey(peer, kind)))
    case Disconnect(peer) => w.(registry := SessionRegistry.Disconnect(r, peer))
    case Pair(peer) => w.(peers := w.peers + {peer})
    case Remember(peer) => w.(remembered := w.remembered + {peer})
    case Forget(peer, peerStore, endpointStore, cascades) =>
      if peerStore.Err? then w
      else if endpointStore.Err? then ForgetStored(w, peer, cascades)
      else ForgetStored(w, peer, true).(registry := SessionRegistry.Disconnect(r, peer))
    case ForgetDropped(peer, endpointsGone) => ForgetStored(w, peer, endpointsGone)
    case Grant(peer, capability, saved) =>
      if saved then w.(registry := TearDown(r, KeysOfGrant(r, peer, capability))) else w
    case Revoke(peer, revoked) => if revoked then w.(registry := SessionRegistry.Disconnect(r, peer)) else w
    case WatcherFires(s) => w.(registry := CleanUpRelay(r, s), watchers := w.watchers - {s})
    case TransportLost(s) => w.(registry := CloseConnection(r, s))
    case HandleDropped(s) => w.(registry := DropHandle(r, s))
  }

  function Run(events: seq<Event>): World {
    if events == [] then INITIAL else Apply(Run(Before(events)), Last(events))
  }

  ghost predicate ValidRun(events: seq<Event>) {
    events == [] || (ValidRun(Before(events)) && Enabled(Run(Before(events)), Last(events)))
  }

  lemma RunOfPush(events: seq<Event>, e: Event)
    ensures Run(events + [e]) == Apply(Run(events), e)
    ensures ValidRun(events + [e]) <==> ValidRun(events) && Enabled(Run(events), e)
  {
    assert Before(events + [e]) == events;
  }

  /** Entries sit under their own key, and the retired list is a bounded,
      duplicate-free record that excludes the instance now registered. */
  ghost predicate WellFormed(r: Registry) {
    forall key :: key in r.sessions ==> KeyOf(r.sessions[key].session) == key && GoodEntry(r.sessions[key])
  }

  ghost predicate GoodEntry(entry: ActiveSession) {
    && |entry.retired| <= MAX_RETIRED_PEER_INSTANCES
    && NoDuplicates(entry.retired)
    && !IsRetired(entry, entry.session)
  }

  lemma InstallKeepsEntryGood(r: Registry, s: Session)
    requires WellFormed(r) && Judge(r, s) == Install
    ensures GoodEntry(ActiveSession(s, RetiredAfter(r, s)))
  {
    if KeyOf(s) in r.sessions {
      var entry := r.sessions[KeyOf(s)];
      assert GoodEntry(entry);
      if Restarted(entry.session, s) {
        var pushed := entry.retired + [entry.session.instance.value];
        assert NoDuplicates(pushed) && s.instance.value !in pushed;
      }
    }
  }

  lemma ApplyKeepsWellFormed(w: World, e: Event)
    requires WellFormed(w.registry)
    ensures WellFormed(Apply(w, e).registry)
  {
    if e.Register? && Judge(w.registry, e.s) == Install {
      InstallKeepsEntryGood(w.registry, e.s);
    }
  }

  /** In every reachable state entries are well formed. */
  lemma {:induction false} ReachableWellFormed(events: seq<Event>)
    ensures WellFormed(Run(events).registry)
  {
    if events != [] {
      ReachableWellFormed(Before(events));
      ApplyKeepsWellFormed(Run(Before(events)), Last(events));
    }
  }

  // ---- Stable ids ----

  ghost predicate UniqueIds(w: World) {
    forall s, t :: Pinned(w, s) && Pinned(w, t) && s.connection == t.connection ==> s == t
  }

  /** Only a handshake makes something refer to a connection for the first time. */
  lemma PinnedStep(w: World, e: Event, s: Session)
    requires WellFormed(w.registry) && Enabled(w, e) && Pinned(Apply(w, e), s)
    ensures Pinned(w, s) || e == Authenticate(s)
  {
  }

  /** In every run, connections that something refers to have distinct stable ids. */
  lemma {:induction false} StableIdsAreUnique(events: seq<Event>)
    requires ValidRun(events)
    ensures UniqueIds(Run(events))
  {
    if events != [] {
      var w, e := Run(Before(events)), Last(events);
      StableIdsAreUnique(Before(events));
      ReachableWellFormed(Before(events));
      forall s | Pinned(Run(events), s) ensures Pinned(w, s) || e == Authenticate(s) {
        PinnedStep(w, e, s);
      }
    }
  }

  // ---- What one registration does ----

  /** The session handed back is the one the registry now holds, with a handle that
      upgrades; if it is not the incoming one, it is open and the incoming one has been
      closed. An error leaves the entries alone, closes the incoming session, and
      means that the registry has no live session to offer instead. */
  lemma RegistrationAnswers(r: Registry, s: Session)
    requires WellFormed(r) && Upgrades(r, s)
    ensures var after := SessionRegistry.Register(r, s);
            match RegisterResult(r, s)
            case Ok(x) =>
              && Holds(after, x) && Upgrades(after, x)
              && (x == s ==> (Open(after, s) <==> Open(r, s)))
              && (x != s ==> Open(after, x) && !Open(after, s))
            case Err(_) =>
              && after.sessions == r.sessions && !Open(after, s)
              && KeyOf(s) in r.sessions && !Live(after, r.sessions[KeyOf(s)].session)
  {
  }

  /** Both sessions name the process of their peer, and the processes differ. */
  predicate OtherProcess(a: Session, b: Session) {
    match (a.instance, b.instance)
    case (Some(x), Some(y)) => x != y
    case _ => false
  }

  /** What a registration does to the retired processes of its key, by the process ids
      alone. A process that is not retired and differs from the registered one takes over
      whatever the ranks, paths and handles: the old connection is closed and the old process
      retired. A retired process changes no entry. Otherwise the retired list stays. */
  lemma RegistrationByProcess(r: Registry, s: Session)
    requires WellFormed(r) && KeyOf(s) in r.sessions
    ensures var entry, after := r.sessions[KeyOf(s)], SessionRegistry.Register(r, s);
            match (entry.session.instance, s.instance)
            case (Some(previous), Some(incoming)) =>
              if incoming in entry.retired then after.sessions == r.sessions && !Open(after, s)
              else if previous != incoming
              then && Holds(after, s) && !Open(after, entry.session)
                   && after.sessions[KeyOf(s)].retired == LastN(entry.retired + [previous], 32)
                   && previous in after.sessions[KeyOf(s)].retired
              else after.sessions[KeyOf(s)].retired == entry.retired
            case (None, Some(incoming)) =>
              if incoming in entry.retired then after.sessions == r.sessions && !Open(after, s)
              else after.sessions[KeyOf(s)].retired == entry.retired
            case (_, None) => after.sessions[KeyOf(s)].retired == entry.retired
  {
    var entry := r.sessions[KeyOf(s)];
    if entry.session.instance.Some? {
      var pushed := entry.retired + [entry.session.instance.value];
      assert Last(LastN(pushed, MAX_RETIRED_PEER_INSTANCES)) == entry.session.instance.value;
    }
  }

  /** Which session holds the key afterwards, within one peer process: the incoming one
      takes over exactly if the current one is gone or closed, has the same initiator, or
      loses by path and then by initiator. */
  lemma RegistrationWithinProcess(r: Registry, s: Session)
    requires WellFormed(r) && KeyOf(s) in r.sessions && !OtherProcess(r.sessions[KeyOf(s)].session, s)
    requires s.instance.Some? ==> s.instance.value !in r.sessions[KeyOf(s)].retired
    ensures var c, after := r.sessions[KeyOf(s)].session, SessionRegistry.Register(r, s);
            && (Holds(after, s) <==>
                  || s == c || !Upgrades(r, c) || !Open(r, c) || c.initiator == s.initiator
                  || (c.relayed && !s.relayed)
                  || (c.relayed == s.relayed && s.initiator < c.initiator))
            && (!Holds(after, s) ==> Holds(after, c) && !Open(after, s) && after.closed == r.closed + {s})
  {
  }

  /** A registration closes the connection it replaces exactly when the handle still
      upgrades, the process was replaced or the path was a relay: a dropped handle's
      direct connection is left to whatever else refers to it. */
  lemma ReplacedConnectionCloses(r: Registry, s: Session)
    requires WellFormed(r) && KeyOf(s) in r.sessions
    requires var current := r.sessions[KeyOf(s)].session;
             Open(r, current) && current != s && Holds(SessionRegistry.Register(r, s), s)
    ensures var current := r.sessions[KeyOf(s)].session;
            !Open(SessionRegistry.Register(r, s), current)
            <==> Upgrades(r, current) || OtherProcess(current, s) || current.relayed
  {
  }

  /** In every run a relayed session that neither a handle nor an entry refers to is closed. */
  lemma {:induction false} ReleasedRelayIsClosed(events: seq<Event>, s: Session)
    requires ValidRun(events) && s in Run(events).authenticated && s.relayed
    requires !Upgrades(Run(events).registry, s) && !Holds(Run(events).registry, s)
    ensures !Open(Run(events).registry, s)
  {
    var prefix := Before(events);
    ReachableWellFormed(prefix);
    if Upgrades(Run(prefix).registry, s) || Holds(Run(prefix).registry, s) {
      ReleaseCloses(Run(prefix), Last(events), s);
    } else {
      HandlesAreAuthenticated(prefix, s);
      ReleasedRelayIsClosed(prefix, s);
    }
  }

  lemma ReleaseCloses(w: World, e: Event, s: Session)
    requires WellFormed(w.registry) && s.relayed && (Upgrades(w.registry, s) || Holds(w.registry, s))
    requires !Upgrades(Apply(w, e).registry, s) && !Holds(Apply(w, e).registry, s)
    ensures !Open(Apply(w, e).registry, s)
  {
  }

  /** The incoming session is never checked for being open: a closed one displaces a
      live one, unless its process is retired or arbitration keeps the existing one. */
  lemma DeadSessionDisplacesLive(r: Registry, dead: Session)
    requires WellFormed(r) && KeyOf(dead) in r.sessions && !Open(r, dead)
    requires var entry := r.sessions[KeyOf(dead)]; Live(r, entry.session) && entry.session != dead
    ensures var entry, after := r.sessions[KeyOf(dead)], SessionRegistry.Register(r, dead);
            Holds(after, entry.session) && Live(after, entry.session)
            <==> || (dead.instance.Some? && dead.instance.value in entry.retired)
                 || (&& !OtherProcess(entry.session, dead) && entry.session.initiator != dead.initiator
                     && (|| (!entry.session.relayed && dead.relayed)
                         || (entry.session.relayed == dead.relayed && entry.session.initiator < dead.initiator)))
  {
  }

  /** For instance, a closed session of the same initiator and process. */
  lemma LateReconnectLosesLiveSession(live: Session, dead: Session)
    requires live.connection != dead.connection && KeyOf(live) == KeyOf(dead)
    requires live.initiator == dead.initiator && live.instance == dead.instance
    requires live.relayed || dead.relayed ==> live.kind == RealtimeInput
    ensures var events := [Pair(live.peer), Authenticate(live), Authenticate(dead), Register(live),
                           TransportLost(dead), Register(dead)];
            ValidRun(events) && Holds(Run(events).registry, dead)
            && !Open(Run(events).registry, live) && !Open(Run(events).registry, dead)
  {
    var start := TwoHandshakes(live, dead);
    var one := start + [Register(live)];
    var two := one + [TransportLost(dead)];
    RunOfPush(start, Register(live));
    assert Run(one).registry == Registry(map[KeyOf(live) := ActiveSession(live, [])], {}, {});
    RunOfPush(one, TransportLost(dead));
    assert Run(two).registry == Registry(map[KeyOf(live) := ActiveSession(live, [])], {dead}, {});
    RunOfPush(two, Register(dead));
    assert two + [Register(dead)]
        == [Pair(live.peer), Authenticate(live), Authenticate(dead), Register(live),
            TransportLost(dead), Register(dead)];
  }

  /** A device pairs and two of its sessions complete their handshakes. */
  lemma TwoHandshakes(one: Session, other: Session) returns (events: seq<Event>)
    requires one.connection != other.connection && KeyOf(one) == KeyOf(other)
    requires one.relayed || other.relayed ==> one.kind == RealtimeInput
    ensures events == [Pair(one.peer), Authenticate(one), Authenticate(other)] && ValidRun(events)
    ensures Run(events) == INITIAL.(peers := {one.peer}, authenticated := {one, other})
  {
    RunOfPush([], Pair(one.peer));
    RunOfPush([] + [Pair(one.peer)], Authenticate(one));
    RunOfPush([] + [Pair(one.peer)] + [Authenticate(one)], Authenticate(other));
    events := [Pair(one.peer), Authenticate(one), Authenticate(other)];
    assert events == [] + [Pair(one.peer)] + [Authenticate(one)] + [Authenticate(other)];
    assert {one} + {other} == {one, other};
  }

  // ---- Single live session ----

  predicate WasRegistered(events: seq<Event>, s: Session) {
    Register(s) in events
  }

  /** Neither closing nor dropping is undone. */
  lemma LiveWasLive(w: World, e: Event, s: Session)
    requires Live(Apply(w, e).registry, s)
    ensures Live(w.registry, s)
  {
  }

  /** A watcher that fires does not share the stable id of a live entry. */
  lemma WatcherSparesLive(w: World, fired: Session, s: Session)
    requires UniqueIds(w) && Enabled(w, WatcherFires(fired)) && Holds(w.registry, s) && Open(w.registry, s)
    ensures fired.connection != s.connection
  {
    assert Pinned(w, s) && Pinned(w, fired);
  }

  /** A session that stays live keeps its entry, and a live registered session gets it. */
  lemma LiveKeepsEntry(w: World, e: Event, s: Session)
    requires WellFormed(w.registry) && Enabled(w, e) && Live(Apply(w, e).registry, s)
    requires Holds(w.registry, s) || e == Register(s)
    requires e.WatcherFires? ==> e.s.connection != s.connection
    ensures Holds(Apply(w, e).registry, s)
  {
  }

  lemma {:induction false} LiveImpliesRegisteredEntry(events: seq<Event>, s: Session)
    requires ValidRun(events) && WasRegistered(events, s) && Live(Run(events).registry, s)
    ensures Holds(Run(events).registry, s)
  {
    var prefix, e := Before(events), Last(events);
    assert events == prefix + [e];
    ReachableWellFormed(prefix);
    LiveWasLive(Run(prefix), e, s);
    if WasRegistered(prefix, s) {
      LiveImpliesRegisteredEntry(prefix, s);
      if e.WatcherFires? {
        StableIdsAreUnique(prefix);
        WatcherSparesLive(Run(prefix), e.s, s);
      }
    }
    LiveKeepsEntry(Run(prefix), e, s);
  }

  /** Single live session: of all sessions that ever went through registration
      and are still held, at most one per (peer, kind) is open, and the registry
      holds exactly that one. */
  lemma {:induction false} SingleLiveSession(events: seq<Event>)
    requires ValidRun(events)
    ensures forall s :: WasRegistered(events, s) && Live(Run(events).registry, s) ==> Holds(Run(events).registry, s)
    ensures forall s, t :: (WasRegistered(events, s) && Live(Run(events).registry, s)
                            && WasRegistered(events, t) && Live(Run(events).registry, t)
                            && KeyOf(s) == KeyOf(t)) ==> s == t
  {
    forall s | WasRegistered(events, s) && Live(Run(events).registry, s)
      ensures Holds(Run(events).registry, s)
    {
      LiveImpliesRegisteredEntry(events, s);
    }
  }

  // ---- Retired instances ----

  /** The process instances displaced at `key` since its entry was last created,
      read off the entries a caller could observe, oldest first. */
  function Displaced(events: seq<Event>, key: SessionKey): seq<InstanceId> {
    if events == [] then []
    else
      var old', new' := Run(Before(events)).registry.sessions, Run(events).registry.sessions;
      if key !in old' || key !in new' then []
      else if OtherProcess(old'[key].session, new'[key].session)
      then Displaced(Before(events), key) + [old'[key].session.instance.value]
      else Displaced(Before(events), key)
  }

  lemma LastNOfPush<T>(items: seq<T>, x: T, n: nat)
    requires n > 0
    ensures LastN(LastN(items, n) + [x], n) == LastN(items + [x], n)
  {
  }

  /** One event changes a surviving entry's retired list only by recording the
      instance it displaces; a new entry starts with an empty list. */
  lemma RetiredStep(w: World, e: Event, key: SessionKey)
    requires WellFormed(w.registry) && key in Apply(w, e).registry.sessions
    ensures var before, after := w.registry.sessions, Apply(w, e).registry.sessions[key];
            if key !in before then after.retired == []
            else if OtherProcess(before[key].session, after.session)
            then after.retired == LastN(before[key].retired + [before[key].session.instance.value], 32)
            else after.retired == before[key].retired
  {
  }

  /** The retired list of an entry is exactly the last 32 instances displaced
      while the entry stayed in the map, without duplicates and never holding
      the instance now registered. */
  lemma {:induction false} RetiredRefinesHistory(events: seq<Event>, key: SessionKey)
    requires key in Run(events).registry.sessions
    ensures var entry := Run(events).registry.sessions[key];
            && entry.retired == LastN(Displaced(events, key), 32)
            && NoDuplicates(entry.retired)
            && (entry.session.instance.Some? ==> entry.session.instance.value !in entry.retired)
  {
    ReachableWellFormed(events);
    assert GoodEntry(Run(events).registry.sessions[key]);
    if events != [] {
      var prefix := Before(events);
      ReachableWellFormed(prefix);
      RetiredStep(Run(prefix), Last(events), key);
      var before := Run(prefix).registry.sessions;
      if key in before {
        RetiredRefinesHistory(prefix, key);
        if before[key].session.instance.Some? {
          LastNOfPush(Displaced(prefix, key), before[key].session.instance.value, MAX_RETIRED_PEER_INSTANCES);
        }
      }
    }
  }

  /** A displaced instance is refused by every registration until 32 further
      displacements have pushed it out: the entry stays and the late session is closed. */
  lemma {:induction false} DisplacedInstanceIsRefused(events: seq<Event>, key: SessionKey, n: nat, late: Session)
    requires key in Run(events).registry.sessions && KeyOf(late) == key
    requires n < |Displaced(events, key)| <= n + 32
    requires late.instance == Some(Displaced(events, key)[n])
    ensures var r := Run(events).registry;
            var after := SessionRegistry.Register(r, late);
            && after.sessions == r.sessions
            && after.closed == r.closed + {late}
            && RegisterResult(r, late) != Ok(late)
  {
    RetiredRefinesHistory(events, key);
    var history := Displaced(events, key);
    assert history[n] in LastN(history, MAX_RETIRED_PEER_INSTANCES) by {
      if |history| > MAX_RETIRED_PEER_INSTANCES {
        assert LastN(history, MAX_RETIRED_PEER_INSTANCES)[n - (|history| - MAX_RETIRED_PEER_INSTANCES)] == history[n];
      }
    }
  }

  // ---- Authorization epochs ----

  /** Completed changes of authorization that invalidate sessions at `key`. */
  predicate ChangesAuthorization(e: Event, key: SessionKey) {
    match e
    case Grant(peer, capability, saved) =>
      saved && peer == key.peer && (capability == CrossScreenInject ==> key.kind == RealtimeInput)
    case Revoke(peer, revoked) => revoked && peer == key.peer
    case Forget(peer, peerStore, endpointStore, _) => peerStore.Ok? && endpointStore.Ok? && peer == key.peer
    case _ => false
  }

  /** An entry that is new after an event was put there by that registration, and an
      entry that stays was not concerned by it. */
  lemma EntryStep(w: World, e: Event, key: SessionKey)
    requires WellFormed(w.registry) && key in Apply(w, e).registry.sessions
    ensures var before, after := w.registry.sessions, Apply(w, e).registry.sessions;
            if key in before && before[key].session == after[key].session
            then !ChangesAuthorization(e, key)
            else e == Register(after[key].session)
  {
  }

  /** The registry has held `s` without interruption since the event at `at`. */
  ghost predicate HeldSince(events: seq<Event>, at: nat, s: Session) {
    forall k :: at < k <= |events| ==> Holds(Run(events[..k]).registry, s)
  }

  lemma HeldOneMore(events: seq<Event>, at: nat, s: Session)
    requires events != [] && at < |events| && Holds(Run(events).registry, s)
    requires at < |events| - 1 ==> HeldSince(Before(events), at, s)
    ensures HeldSince(events, at, s)
  {
    forall k | at < k <= |events| ensures Holds(Run(events[..k]).registry, s) {
      if k == |events| {
        assert events[..k] == events;
      } else {
        assert events[..k] == Before(events)[..k];
      }
    }
  }

  /** Every registered session was registered after the last authorization change that
      concerns its peer and kind, and has been held ever since. */
  lemma {:induction false} AuthorizationEpoch(events: seq<Event>, key: SessionKey) returns (at: nat)
    requires key in Run(events).registry.sessions
    ensures at < |events| && events[at] == Register(Run(events).registry.sessions[key].session)
    ensures HeldSince(events, at, Run(events).registry.sessions[key].session)
    ensures forall later :: at < later < |events| ==> !ChangesAuthorization(events[later], key)
  {
    var prefix := Before(events);
    var before, s := Run(prefix).registry.sessions, Run(events).registry.sessions[key].session;
    ReachableWellFormed(prefix);
    ReachableWellFormed(events);
    EntryStep(Run(prefix), Last(events), key);
    if key in before && before[key].session == s {
      at := AuthorizationEpoch(prefix, key);
    } else {
      at := |events| - 1;
    }
    HeldOneMore(events, at, s);
  }

  /** A connection is closed only for a reason: it was lost, its registration was refused, it
      was replaced, it was torn down, or it was relayed and nothing holds its tunnel. */
  lemma ClosedForAReason(w: World, e: Event, s: Session)
    requires WellFormed(w.registry) && Enabled(w, e) && Open(w.registry, s) && !Open(Apply(w, e).registry, s)
    ensures var after := Apply(w, e).registry;
            || e == TransportLost(s)
            || (e == Register(s) && !Holds(after, s))
            || (e.Register? && e.s != s && KeyOf(e.s) == KeyOf(s) && Holds(w.registry, s) && Holds(after, e.s))
            || (Holds(w.registry, s) && (ChangesAuthorization(e, KeyOf(s)) || e == Disconnect(s.peer)))
            || (s.relayed && !Upgrades(after, s) && !Holds(after, s))
  {
  }

  /** A teardown removes exactly the entries it concerns, closes exactly their
      connections and leaves every other entry and connection as it was. */
  lemma {:induction false} TeardownIsConfined(events: seq<Event>, e: Event)
    requires e.Grant? || e.Revoke? || e.Forget? || e.ForgetDropped?
    ensures var before, after := Run(events).registry, Apply(Run(events), e).registry;
            && after.sessions == (map key | key in before.sessions && !ChangesAuthorization(e, key)
                                    :: before.sessions[key])
            && after.closed == before.closed + (set key | key in before.sessions && ChangesAuthorization(e, key)
                                                  :: before.sessions[key].session)
            && after.dropped == before.dropped
  {
    var before, after := Run(events).registry, Apply(Run(events), e).registry;
    forall key ensures key in after.sessions <==> key in before.sessions && !ChangesAuthorization(e, key) {
    }
  }

  /** After any run, a lookup leaves the entry of its key exactly if that session is open and
      held, and leaves every other entry. */
  lemma {:induction false} LookupLeavesLive(events: seq<Event>, peer: DeviceId, kind: SessionKind)
    ensures var before, after := Run(events).registry, Apply(Run(events), Active(peer, kind)).registry;
            after.sessions == map key | && key in before.sessions
                                        && (|| key != SessionKey(peer, kind)
                                            || Live(before, before.sessions[key].session))
                                :: before.sessions[key]
  {
  }

  /** After any run, disconnecting a peer removes and closes its entries and no other. */
  lemma {:induction false} DisconnectIsConfined(events: seq<Event>, peer: DeviceId)
    ensures var before, after := Run(events).registry, Apply(Run(events), Disconnect(peer)).registry;
            && after.sessions == (map key | key in before.sessions && key.peer != peer :: before.sessions[key])
            && after.closed == before.closed + (set key | key in before.sessions && key.peer == peer
                                                  :: before.sessions[key].session)
  {
  }

  // ---- Forgotten peers ----

  /** Once the record is removed, no session of the peer is left registered exactly when
      the endpoint store answered or there was none to begin with. */
  lemma ForgetLeavesNoSession(events: seq<Event>, peer: DeviceId, endpointStore: Result<(), ()>, cascades: bool)
    ensures var before, after := Run(events), Apply(Run(events), Forget(peer, Ok(()), endpointStore, cascades));
            && peer !in after.peers
            && (peer !in after.remembered <==> cascades || endpointStore.Ok? || peer !in before.remembered)
            && (KeysOfPeer(after.registry, peer) == {}
                <==> endpointStore.Ok? || KeysOfPeer(before.registry, peer) == {})
  {
  }

  predicate RemovesRecord(e: Event, peer: DeviceId) {
    (e.Forget? && e.peer == peer && e.peerStore.Ok?) || (e.ForgetDropped? && e.peer == peer)
  }

  /** The event removes the record and stops short of the registry: the endpoint store
      failed, or the caller dropped the call. */
  predicate StopsShort(e: Event, peer: DeviceId) {
    RemovesRecord(e, peer) && (e.Forget? ==> e.endpointStore.Err?)
  }

  /** The record was removed at `at` and the peer has not paired again. */
  ghost predicate RemovedForGood(events: seq<Event>, at: nat, peer: DeviceId) {
    && at < |events| && RemovesRecord(events[at], peer)
    && forall later :: at < later < |events| ==> events[later] != Pair(peer)
  }

  lemma {:induction false} RecordHistory(events: seq<Event>, since: nat, peer: DeviceId)
    requires since <= |events| && peer in Run(events[..since]).peers
    ensures peer !in Run(events).peers <==> exists at :: since <= at && RemovedForGood(events, at, peer)
  {
    if since == |events| {
      assert events[..since] == events;
    } else {
      var prefix, e := Before(events), Last(events);
      assert prefix[..since] == events[..since] && events == prefix + [e];
      RecordHistory(prefix, since, peer);
      if RemovesRecord(e, peer) {
        assert RemovedForGood(events, |prefix|, peer);
      } else if e != Pair(peer) {
        forall at | since <= at
          ensures RemovedForGood(events, at, peer) <==> RemovedForGood(prefix, at, peer)
        {
          assert forall k :: 0 <= k < |prefix| ==> prefix[k] == events[k];
        }
      }
    }
  }

  /** When a session's handshake completed. */
  lemma {:induction false} HandshakeIndex(events: seq<Event>, s: Session) returns (at: nat)
    requires ValidRun(events) && s in Run(events).authenticated
    ensures at < |events| && events[at] == Authenticate(s)
    ensures Enabled(Run(events[..at]), Authenticate(s))
  {
    var prefix := Before(events);
    if s in Run(prefix).authenticated {
      at := HandshakeIndex(prefix, s);
      assert prefix[..at] == events[..at];
    } else {
      at := |prefix|;
    }
  }

  /** Stale authority, exactly: a registered session of a kind that needs pairing has lost
      its peer record just when the record was removed for good after the handshake, and
      either before the session was registered or by a `forget` that stopped short of the
      registry, because the endpoint store failed or the caller dropped the call. */
  lemma {:induction false} StaleSessionsHaveThreeCauses(events: seq<Event>, key: SessionKey)
    returns (handshake: nat, registered: nat)
    requires ValidRun(events) && key in Run(events).registry.sessions
    requires key.kind == Control || key.kind == RealtimeInput || key.kind == Print
    ensures var s := Run(events).registry.sessions[key].session;
            && handshake < |events| && events[handshake] == Authenticate(s)
            && registered < |events| && events[registered] == Register(s) && HeldSince(events, registered, s)
    ensures forall later :: registered < later < |events| ==> !ChangesAuthorization(events[later], key)
    ensures key.peer !in Run(events).peers
            <==> exists at :: handshake < at && RemovedForGood(events, at, key.peer)
                              && (at < registered || StopsShort(events[at], key.peer))
  {
    ReachableWellFormed(events);
    var s := Run(events).registry.sessions[key].session;
    registered := AuthorizationEpoch(events, key);
    HandlesAreAuthenticated(events, s);
    handshake := HandshakeIndex(events, s);
    RecordSinceHandshake(events, handshake, s);
    LateRemovalStopsShort(events, registered, key);
  }

  /** A kind that needs pairing had its record when the handshake completed. */
  lemma RecordSinceHandshake(events: seq<Event>, handshake: nat, s: Session)
    requires ValidRun(events) && handshake < |events| && events[handshake] == Authenticate(s)
    requires Enabled(Run(events[..handshake]), Authenticate(s)) && NeedsPairing(s.kind)
    ensures s.peer !in Run(events).peers <==> exists at :: handshake < at && RemovedForGood(events, at, s.peer)
  {
    assert events[..handshake + 1] == events[..handshake] + [Authenticate(s)];
    RunOfPush(events[..handshake], Authenticate(s));
    RecordHistory(events, handshake + 1, s.peer);
  }

  lemma LateRemovalStopsShort(events: seq<Event>, registered: nat, key: SessionKey)
    requires registered < |events| && events[registered].Register?
    requires forall later :: registered < later < |events| ==> !ChangesAuthorization(events[later], key)
    ensures forall at: nat :: RemovedForGood(events, at, key.peer) ==>
              at < registered || StopsShort(events[at], key.peer)
  {
    forall at: nat | RemovedForGood(events, at, key.peer)
      ensures at < registered || StopsShort(events[at], key.peer)
    {
      if at > registered {
        assert !ChangesAuthorization(events[at], key);
      }
    }
  }

  /** The session is registered, watched, closed or dropped. */
  predicate Known(w: World, s: Session) {
    Holds(w.registry, s) || s in w.watchers || !Live(w.registry, s)
  }

  lemma KnownStep(w: World, e: Event, s: Session)
    requires WellFormed(w.registry) && Enabled(w, e) && Known(Apply(w, e), s) && !Known(w, s)
    ensures s in w.authenticated
  {
  }

  /** Whatever is registered, watched, closed or dropped was authenticated. */
  lemma {:induction false} HandlesAreAuthenticated(events: seq<Event>, s: Session)
    requires ValidRun(events) && Known(Run(events), s)
    ensures s in Run(events).authenticated
  {
    if events != [] {
      var prefix := Before(events);
      ReachableWellFormed(prefix);
      if Known(Run(prefix), s) {
        HandlesAreAuthenticated(prefix, s);
      } else {
        KnownStep(Run(prefix), Last(events), s);
      }
    }
  }

  /** A device without a record gets a session registered exactly for the kinds that serve
      nearby strangers. */
  lemma StrangersExactly(s: Session)
    requires !s.relayed
    ensures ValidRun([Authenticate(s), Register(s)]) <==>
              s.kind == Pairing || s.kind == FileTransfer || s.kind == DiscoveryProbe
  {
    RunOfPush([], Authenticate(s));
    RunOfPush([] + [Authenticate(s)], Register(s));
    assert [] + [Authenticate(s)] + [Register(s)] == [Authenticate(s), Register(s)];
  }

  /** The documented guarantee that no authority outlives a forgotten peer fails when the
      endpoint store errs: the record is gone and the session stays registered and live. */
  lemma ForgottenPeerKeepsSession(s: Session)
    requires s.relayed ==> s.kind == RealtimeInput
    ensures var events := [Pair(s.peer), Authenticate(s), Register(s), Forget(s.peer, Ok(()), Err(()), false)];
            && ValidRun(events) && s.peer !in Run(events).peers
            && Holds(Run(events).registry, s) && Live(Run(events).registry, s)
  {
    var one := [] + [Pair(s.peer)];
    var two := one + [Authenticate(s)];
    var three := two + [Register(s)];
    RunOfPush([], Pair(s.peer));
    RunOfPush(one, Authenticate(s));
    RunOfPush(two, Register(s));
    RunOfPush(three, Forget(s.peer, Ok(()), Err(()), false));
    assert three + [Forget(s.peer, Ok(()), Err(()), false)]
        == [Pair(s.peer), Authenticate(s), Register(s), Forget(s.peer, Ok(()), Err(()), false)];
  }

  /** It fails as well when the caller drops the call before the registry is reached. */
  lemma DroppedForgetKeepsSession(s: Session, endpointsGone: bool)
    requires s.relayed ==> s.kind == RealtimeInput
    ensures var events := [Pair(s.peer), Authenticate(s), Register(s), ForgetDropped(s.peer, endpointsGone)];
            && ValidRun(events) && s.peer !in Run(events).peers
            && Holds(Run(events).registry, s) && Live(Run(events).registry, s)
  {
    var one := [] + [Pair(s.peer)];
    var two := one + [Authenticate(s)];
    var three := two + [Register(s)];
    RunOfPush([], Pair(s.peer));
    RunOfPush(one, Authenticate(s));
    RunOfPush(two, Register(s));
    RunOfPush(three, ForgetDropped(s.peer, endpointsGone));
    assert three + [ForgetDropped(s.peer, endpointsGone)]
        == [Pair(s.peer), Authenticate(s), Register(s), ForgetDropped(s.peer, endpointsGone)];
  }

  /** It also fails, with both stores answering, for a session whose handshake is complete
      but which registers only after the teardown. */
  lemma ForgetMissesUnregisteredSession(s: Session)
    requires s.relayed ==> s.kind == RealtimeInput
    ensures var events := [Pair(s.peer), Authenticate(s), Forget(s.peer, Ok(()), Ok(()), false), Register(s)];
            && ValidRun(events) && s.peer !in Run(events).peers
            && Holds(Run(events).registry, s) && Live(Run(events).registry, s)
  {
    var one := [] + [Pair(s.peer)];
    var two := one + [Authenticate(s)];
    var three := two + [Forget(s.peer, Ok(()), Ok(()), false)];
    RunOfPush([], Pair(s.peer));
    RunOfPush(one, Authenticate(s));
    RunOfPush(two, Forget(s.peer, Ok(()), Ok(()), false));
    RunOfPush(three, Register(s));
    assert three + [Register(s)]
        == [Pair(s.peer), Authenticate(s), Forget(s.peer, Ok(()), Ok(()), false), Register(s)];
  }

  // ---- Relay watchers ----

  /** A watcher recognises its entry by a stable id only. Because the watcher itself keeps
      the id from being given away, firing removes the watcher's own entry, whose connection
      is closed, or nothing: never the entry of a successor. */
  lemma {:induction false} WatcherIsSafe(events: seq<Event>, s: Session)
    requires ValidRun(events) && Enabled(Run(events), WatcherFires(s))
    ensures var before, after := Run(events).registry, Apply(Run(events), WatcherFires(s)).registry;
            && after.sessions == (if Holds(before, s) then before.sessions - {KeyOf(s)} else before.sessions)
            && after.closed == before.closed
  {
    ReachableWellFormed(events);
    StableIdsAreUnique(events);
    var r := Run(events).registry;
    if KeyOf(s) in r.sessions {
      assert Pinned(Run(events), r.sessions[KeyOf(s)].session) && Pinned(Run(events), s);
    }
  }

  lemma WatchedStep(w: World, e: Event, key: SessionKey)
    requires WellFormed(w.registry) && key in Apply(w, e).registry.sessions
             && Apply(w, e).registry.sessions[key].session.relayed
    requires key in w.registry.sessions && w.registry.sessions[key].session.relayed ==>
               w.registry.sessions[key].session in w.watchers
    ensures Apply(w, e).registry.sessions[key].session in Apply(w, e).watchers
  {
  }

  lemma {:induction false} RelayedEntriesAreWatched(events: seq<Event>, key: SessionKey)
    requires key in Run(events).registry.sessions && Run(events).registry.sessions[key].session.relayed
    ensures Run(events).registry.sessions[key].session in Run(events).watchers
  {
    var prefix := Before(events);
    ReachableWellFormed(prefix);
    var before := Run(prefix).registry.sessions;
    if key in before && before[key].session.relayed {
      RelayedEntriesAreWatched(prefix, key);
    }
    WatchedStep(Run(prefix), Last(events), key);
  }

  /** Once no watcher is due, no relayed entry refers to a closed connection. */
  lemma {:induction false} QuiescentRelaysAreOpen(events: seq<Event>, key: SessionKey)
    requires ValidRun(events)
    requires forall s :: s in Run(events).watchers ==> !Enabled(Run(events), WatcherFires(s))
    requires key in Run(events).registry.sessions && Run(events).registry.sessions[key].session.relayed
    ensures Open(Run(events).registry, Run(events).registry.sessions[key].session)
  {
    RelayedEntriesAreWatched(events, key);
  }
}
