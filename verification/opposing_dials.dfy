/** Two devices that dial each other at the same time, each running its own
    registry over its own ends of the shared connections. */
module OpposingDials {
  import opened Types
  import opened Collections
  import opened SessionRegistry
  import opened RegistryRuns
  import opened Arbitration

  /** The device with the smaller id, and the one with the larger. */
  datatype Side = Low | High

  /** Two devices and one direct connection that the smaller-id device opened.
      Nothing restarts, so each side always sees one instance of its peer. */
  datatype Dial = Dial(
    low: DeviceId, high: DeviceId,
    kind: SessionKind,
    lowInstance: Option<InstanceId>, highInstance: Option<InstanceId>,
    connection: nat, nonce: nat)

  datatype Move = Move(side: Side, event: Event)

  function Other(side: Side): Side {
    if side == Low then High else Low
  }

  function PeerOf(d: Dial, side: Side): DeviceId {
    if side == Low then d.high else d.low
  }

  function PeerInstance(d: Dial, side: Side): Option<InstanceId> {
    if side == Low then d.highInstance else d.lowInstance
  }

  /** The session object each end holds for the smaller-id device's connection. */
  function Winner(d: Dial, side: Side): Session {
    Session(d.connection, PeerOf(d, side), d.kind, PeerInstance(d, side), d.low, d.nonce, false)
  }

  /** A session, direct or relayed, that the larger-id device opened. */
  predicate Opposing(d: Dial, side: Side, s: Session) {
    KeyOf(s) == KeyOf(Winner(d, side)) && s.initiator == d.high && s.instance == PeerInstance(d, side)
  }

  function Project(moves: seq<Move>, side: Side): seq<Event> {
    if moves == [] then []
    else if Last(moves).side == side then Project(Before(moves), side) + [Last(moves).event]
    else Project(Before(moves), side)
  }

  function WorldAt(moves: seq<Move>, side: Side): World {
    Run(Project(moves, side))
  }

  /** Any event of a registry may happen, except that the winner's transport is
      not lost, its handles stay held, the peer does not restart and the two
      devices do not tear each other down. */
  predicate Undisturbed(d: Dial, side: Side, e: Event) {
    var winner := Winner(d, side);
    match e
    case Register(s) => KeyOf(s) == KeyOf(winner) ==> s == winner || Opposing(d, side, s)
    case TransportLost(s) => s != winner
    case HandleDropped(s) => s != winner
    case Disconnect(peer) => peer != winner.peer
    case Forget(peer, _, _, _) => peer != winner.peer
    case Grant(peer, _, _) => peer != winner.peer
    case Revoke(peer, _) => peer != winner.peer
    case _ => true
  }

  /** A connection that one end closed may be seen closed by the other end. */
  ghost predicate Allowed(d: Dial, moves: seq<Move>, next: Move) {
    && Enabled(WorldAt(moves, next.side), next.event)
    && (|| Undisturbed(d, next.side, next.event)
        || (&& next.event == TransportLost(Winner(d, next.side))
            && !Open(WorldAt(moves, Other(next.side)).registry, Winner(d, Other(next.side)))))
  }

  ghost predicate ValidMoves(d: Dial, moves: seq<Move>) {
    moves == [] || (ValidMoves(d, Before(moves)) && Allowed(d, Before(moves), Last(moves)))
  }

  lemma {:induction false} ProjectionIsValidRun(d: Dial, moves: seq<Move>, side: Side)
    requires ValidMoves(d, moves)
    ensures ValidRun(Project(moves, side))
  {
    if moves != [] {
      ProjectionIsValidRun(d, Before(moves), side);
      if Last(moves).side == side {
        assert Before(Project(moves, side)) == Project(Before(moves), side);
      }
    }
  }

  /** What holds at one end: the winner is open and held, its key carries only the
      winner or an opposing session, and the winner once registered stays. */
  ghost predicate EndInvariant(d: Dial, w: World, side: Side, registered: bool) {
    var winner := Winner(d, side);
    && Live(w.registry, winner)
    && winner !in w.watchers
    && (KeyOf(winner) in w.registry.sessions ==>
          var entry := w.registry.sessions[KeyOf(winner)];
          entry.retired == [] && (entry.session == winner || Opposing(d, side, entry.session)))
    && (registered ==> Holds(w.registry, winner))
  }

  lemma RegisterKeepsEnd(d: Dial, w: World, side: Side, registered: bool, s: Session)
    requires d.low < d.high && EndInvariant(d, w, side, registered) && WellFormed(w.registry)
    requires Undisturbed(d, side, Register(s)) && Enabled(w, Register(s))
    ensures EndInvariant(d, Apply(w, Register(s)), side, registered || s == Winner(d, side))
  {
  }

  lemma OtherEventKeepsEnd(d: Dial, w: World, side: Side, registered: bool, e: Event)
    requires EndInvariant(d, w, side, registered) && WellFormed(w.registry) && UniqueIds(w)
    requires Undisturbed(d, side, e) && Enabled(w, e) && !e.Register?
    ensures EndInvariant(d, Apply(w, e), side, registered)
  {
  }

  lemma {:induction false} EndsAgree(d: Dial, moves: seq<Move>, side: Side)
    requires d.low < d.high && ValidMoves(d, moves)
    ensures EndInvariant(d, WorldAt(moves, side), side, WasRegistered(Project(moves, side), Winner(d, side)))
    decreases |moves|, side == High
  {
    if moves != [] {
      var prefix, next := Before(moves), Last(moves);
      EndsAgree(d, prefix, side);
      EndsAgree(d, prefix, Other(side));
      if next.side == side {
        var events := Project(prefix, side);
        assert Before(events + [next.event]) == events;
        ReachableWellFormed(events);
        ProjectionIsValidRun(d, prefix, side);
        StableIdsAreUnique(events);
        var registered := WasRegistered(events, Winner(d, side));
        if next.event.Register? {
          RegisterKeepsEnd(d, Run(events), side, registered, next.event.s);
        } else {
          OtherEventKeepsEnd(d, Run(events), side, registered, next.event);
        }
      }
    }
  }

  /** Opposing-dial convergence: in every interleaving neither end ever sees the
      smaller-id device's connection closed; each end that has registered it holds
      it from then on, and has closed every opposing session it registered whose
      handle is still held. */
  lemma {:induction false} OpposingDialsConverge(d: Dial, moves: seq<Move>, side: Side)
    requires d.low < d.high && ValidMoves(d, moves)
    ensures Open(WorldAt(moves, side).registry, Winner(d, side))
    ensures WasRegistered(Project(moves, side), Winner(d, side)) ==>
              && Holds(WorldAt(moves, side).registry, Winner(d, side))
              && forall s :: Opposing(d, side, s) && WasRegistered(Project(moves, side), s)
                             && Upgrades(WorldAt(moves, side).registry, s)
                             ==> !Open(WorldAt(moves, side).registry, s)
  {
    EndsAgree(d, moves, side);
    ProjectionIsValidRun(d, moves, side);
    SingleLiveSession(Project(moves, side));
  }

  /** Two connections of one initiator, seen from either end. */
  function Reconnect(d: Dial, side: Side, connection: nat): Session {
    Winner(d, side).(connection := connection)
  }

  /** Arbitration alone does not protect two connections of the same initiator:
      after each end has registered both, the ends hold the same connection, open
      at both ends, exactly when both registered them in the same order. In crossed
      order each end closes the connection the other one keeps. */
  lemma SameInitiatorConvergesIffSameOrder(d: Dial, first: nat, second: nat, crossed: bool)
    requires first != second
    ensures var a, b := Reconnect(d, Low, first), Reconnect(d, Low, second);
            var x, y := Reconnect(d, High, first), Reconnect(d, High, second);
            var low := RegisterAll(Registry(map[], {}, {}), [a, b]);
            var high := RegisterAll(Registry(map[], {}, {}), if crossed then [y, x] else [x, y]);
            && Holds(low, b) && !Open(low, a)
            && (!crossed <==> Holds(high, y) && Open(high, y))
            && (crossed <==> Holds(high, x) && !Open(high, y))
  {
    var empty := Registry(map[], {}, {});
    var a, b := Reconnect(d, Low, first), Reconnect(d, Low, second);
    var x, y := Reconnect(d, High, first), Reconnect(d, High, second);
    RegisterBoth(empty, a, b);
    RegisterBoth(empty, x, y);
    RegisterBoth(empty, y, x);
  }

  lemma RegisterBoth(r: Registry, a: Session, b: Session)
    requires r == Registry(map[], {}, {}) && a != b && KeyOf(a) == KeyOf(b)
    requires a.initiator == b.initiator && a.instance == b.instance
    ensures Holds(RegisterAll(r, [a, b]), b) && RegisterAll(r, [a, b]).closed == {a}
  {
    assert Before([a, b]) == [a] && Before([a]) == [];
    assert RegisterAll(r, [a]) == SessionRegistry.Register(r, a);
  }
}
