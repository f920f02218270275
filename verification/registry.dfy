/** The live-session registry of `NetworkRuntime`: one entry per (peer, kind). */
module SessionRegistry {
  import opened Types
  import opened Collections

  const MAX_RETIRED_PEER_INSTANCES := 32

  /** An authenticated session. Every session owns exactly one QUIC connection,
      so a session also stands for its connection. `connection` is that connection's
      stable id, which a later connection may be given again once nothing refers to
      the earlier one; the 32-byte nonce is read as a big-endian number, which orders
      nonces the way byte comparison does. */
  datatype Session = Session(
    connection: nat,
    peer: DeviceId,
    kind: SessionKind,
    instance: Option<InstanceId>,
    initiator: DeviceId,
    nonce: nat,
    relayed: bool)

  datatype SessionKey = SessionKey(peer: DeviceId, kind: SessionKind)

  /** A registry entry. The instance, rank and connection stored beside the weak
      handle are copies of the session's own immutable fields. */
  datatype ActiveSession = ActiveSession(session: Session, retired: seq<InstanceId>)

  /** The registry and what it observes of its surroundings: connections this
      device sees closed, and sessions whose last strong handle is gone. */
  datatype Registry = Registry(
    sessions: map<SessionKey, ActiveSession>,
    closed: set<Session>,
    dropped: set<Session>)

  function KeyOf(s: Session): SessionKey {
    SessionKey(s.peer, s.kind)
  }

  predicate Open(r: Registry, s: Session) {
    s !in r.closed
  }

  predicate Upgrades(r: Registry, s: Session) {
    s !in r.dropped
  }

  predicate Live(r: Registry, s: Session) {
    Open(r, s) && Upgrades(r, s)
  }

  predicate Holds(r: Registry, s: Session) {
    KeyOf(s) in r.sessions && r.sessions[KeyOf(s)].session == s
  }

  function CloseConnection(r: Registry, s: Session): Registry {
    r.(closed := r.closed + {s})
  }

  /** The derived order of `SessionRank`. */
  predicate RankAtMost(left: Session, right: Session) {
    left.initiator < right.initiator || (left.initiator == right.initiator && left.nonce <= right.nonce)
  }

  predicate KeepsExisting(current: Session, incoming: Session) {
    var sameInitiator := current.initiator == incoming.initiator;
    var keepDirect := !sameInitiator && !current.relayed && incoming.relayed;
    var preferDirect := current.relayed && !incoming.relayed;
    keepDirect || (!preferDirect && !sameInitiator && RankAtMost(current, incoming))
  }

  predicate Restarted(current: Session, incoming: Session) {
    current.instance.Some? && incoming.instance.Some? && current.instance != incoming.instance
  }

  predicate IsRetired(entry: ActiveSession, s: Session) {
    s.instance.Some? && s.instance.value in entry.retired
  }

  /** What a registration comes to. */
  datatype Verdict = Obsolete | Unchanged | Duplicate | Install

  function Judge(r: Registry, s: Session): Verdict {
    if KeyOf(s) !in r.sessions then Install
    else
      var entry := r.sessions[KeyOf(s)];
      if IsRetired(entry, s) then Obsolete
      else if Restarted(entry.session, s) || !Upgrades(r, entry.session) then Install
      else if entry.session == s then Unchanged
      else if Open(r, entry.session) && KeepsExisting(entry.session, s) then Duplicate
      else Install
  }

  function RetiredAfter(r: Registry, s: Session): seq<InstanceId> {
    if KeyOf(s) !in r.sessions then []
    else
      var entry := r.sessions[KeyOf(s)];
      if Restarted(entry.session, s)
      then LastN(entry.retired + [entry.session.instance.value], MAX_RETIRED_PEER_INSTANCES)
      else entry.retired
  }

  /** A relayed session and its entry share the tunnel. When neither is left the tunnel
      is dropped, which closes its private endpoint and so the session's connection. */
  function Untunnelled(r: Registry, key: SessionKey): set<Session> {
    if key in r.sessions && r.sessions[key].session.relayed && !Upgrades(r, r.sessions[key].session)
    then {r.sessions[key].session} else {}
  }

  /** The connection an installation closes: a replaced one whose handle still
      upgrades, one whose peer process is known to have been replaced, or one whose
      tunnel goes with the replaced entry. */
  function Superseded(r: Registry, s: Session): set<Session> {
    if KeyOf(s) in r.sessions
       && (Restarted(r.sessions[KeyOf(s)].session, s) || Upgrades(r, r.sessions[KeyOf(s)].session))
    then {r.sessions[KeyOf(s)].session} else Untunnelled(r, KeyOf(s))
  }

  function Register(r: Registry, s: Session): Registry {
    match Judge(r, s)
    case Obsolete => CloseConnection(r, s)
    case Duplicate => CloseConnection(r, s)
    case Unchanged => r
    case Install =>
      r.(sessions := r.sessions[KeyOf(s) := ActiveSession(s, RetiredAfter(r, s))],
         closed := r.closed + Superseded(r, s))
  }

  datatype RegisterError = ObsoleteInstance

  function RegisterResult(r: Registry, s: Session): Result<Session, RegisterError> {
    match Judge(r, s)
    case Install => Ok(s)
    case Unchanged => Ok(s)
    case Duplicate => Ok(r.sessions[KeyOf(s)].session)
    case Obsolete =>
      var current := r.sessions[KeyOf(s)].session;
      if Live(r, current) && current != s then Ok(current) else Err(ObsoleteInstance)
  }

  function Remove(r: Registry, key: SessionKey): Registry {
    r.(sessions := r.sessions - {key}, closed := r.closed + Untunnelled(r, key))
  }

  function Prune(r: Registry, key: SessionKey): Registry {
    if key in r.sessions && Live(r, r.sessions[key].session) then r else Remove(r, key)
  }

  /** The last strong handle of `s` goes away. */
  function DropHandle(r: Registry, s: Session): Registry {
    r.(dropped := r.dropped + {s}, closed := r.closed + if s.relayed && !Holds(r, s) then {s} else {})
  }

  /** The keys a peer-wide teardown removes. */
  function KeysOfPeer(r: Registry, peer: DeviceId): set<SessionKey> {
    set key | key in r.sessions && key.peer == peer
  }

  /** Removes the entries at `keys` and closes their connections. */
  function TearDown(r: Registry, keys: set<SessionKey>): Registry {
    r.(sessions := r.sessions - keys,
       closed := r.closed + (set key | key in keys && key in r.sessions :: r.sessions[key].session))
  }

  function Disconnect(r: Registry, peer: DeviceId): Registry {
    TearDown(r, KeysOfPeer(r, peer))
  }

  /** The keys whose sessions were admitted under an authorization that a new
      grant of `capability` replaces. */
  function KeysOfGrant(r: Registry, peer: DeviceId, capability: CapabilityId): set<SessionKey> {
    if capability == CrossScreenInject then {SessionKey(peer, RealtimeInput)} else KeysOfPeer(r, peer)
  }

  /** The close watcher of a relayed session: drops the entry at its key if that entry's
      connection has the stable id the watcher remembers. */
  function CleanUpRelay(r: Registry, s: Session): Registry {
    if KeyOf(s) in r.sessions && r.sessions[KeyOf(s)].session.connection == s.connection
    then Remove(r, KeyOf(s)) else r
  }

  /** How far `forget` got before one of its fallible steps gave up. */
  datatype ForgetError = PeerStoreFailed | EndpointStoreFailed

  /** The registry as the runtime mutates it. */
  class NetworkRuntime {
    var sessions: map<SessionKey, ActiveSession>
    var closed: set<Session>
    var dropped: set<Session>
    /** The devices with a stored peer record, and those with remembered endpoints. */
    var peers: set<DeviceId>
    var remembered: set<DeviceId>
    /** Whether deleting a peer record also deletes its endpoints, as one database does. */
    const cascades: bool

    constructor (storedPeers: set<DeviceId>, storedEndpoints: set<DeviceId>, oneDatabase: bool)
      ensures State() == Registry(map[], {}, {}) && peers == storedPeers && remembered == storedEndpoints
      ensures cascades == oneDatabase
    {
      sessions, closed, dropped := map[], {}, {};
      peers, remembered, cascades := storedPeers, storedEndpoints, oneDatabase;
    }

    function State(): Registry
      reads this
    {
      Registry(sessions, closed, dropped)
    }

    method RegisterSession(s: Session) returns (result: Result<Session, RegisterError>)
      modifies this`sessions, this`closed
      ensures State() == Register(old(State()), s)
      ensures result == RegisterResult(old(State()), s)
    {
      var key := KeyOf(s);
      var retired := [];
      if key in sessions {
        var current := sessions[key];
        retired := current.retired;
        if s.instance.Some? && s.instance.value in retired {
          closed := closed + {s};
          if current.session !in dropped && current.session !in closed {
            return Ok(current.session);
          }
          return Err(ObsoleteInstance);
        }
        if current.session.instance.Some? && s.instance.Some? {
          if current.session.instance != s.instance {
            retired := retired + [current.session.instance.value];
            ghost var pushed := retired;
            while |retired| > MAX_RETIRED_PEER_INSTANCES
              invariant LastN(retired, MAX_RETIRED_PEER_INSTANCES) == LastN(pushed, MAX_RETIRED_PEER_INSTANCES)
            {
              retired := retired[1..];
            }
            closed := closed + {current.session};
          }
        }
        if current.session !in dropped {
          if current.session == s {
            return Ok(current.session);
          }
          var sameInitiator := current.session.initiator == s.initiator;
          var keepDirect := !sameInitiator && !current.session.relayed && s.relayed;
          var preferDirect := current.session.relayed && !s.relayed;
          if current.session !in closed
             && (keepDirect || (!preferDirect && !sameInitiator && RankAtMost(current.session, s))) {
            closed := closed + {s};
            return Ok(current.session);
          }
          closed := closed + {current.session};
        }
        closed := closed + Untunnelled(State(), key);
      }
      sessions := sessions[key := ActiveSession(s, retired)];
      return Ok(s);
    }

    method Active(peer: DeviceId, kind: SessionKind) returns (session: Option<Session>)
      modifies this`sessions, this`closed
      ensures State() == Prune(old(State()), SessionKey(peer, kind))
      ensures session.Some? <==> SessionKey(peer, kind) in sessions
      ensures session.Some? ==>
                session.value == sessions[SessionKey(peer, kind)].session && Live(State(), session.value)
    {
      var key := SessionKey(peer, kind);
      session := None;
      if key in sessions && sessions[key].session !in dropped && sessions[key].session !in closed {
        session := Some(sessions[key].session);
      }
      if session.None? {
        closed, sessions := closed + Untunnelled(State(), key), sessions - {key};
      }
    }

    method DisconnectPeer(peer: DeviceId) returns (count: nat)
      modifies this`sessions, this`closed
      ensures State() == Disconnect(old(State()), peer)
      ensures count == |KeysOfPeer(old(State()), peer)|
    {
      var keys := set key | key in sessions && key.peer == peer;
      count := |keys|;
      RemoveAll(keys);
    }

    /** The removal loop shared by `disconnect` and `forget`. */
    method RemoveAll(keys: set<SessionKey>)
      modifies this`sessions, this`closed
      ensures State() == TearDown(old(State()), keys)
    {
      var todo := keys;
      while todo != {}
        invariant todo <= keys
        invariant State() == TearDown(old(State()), keys - todo)
        decreases todo
      {
        var key :| key in todo;
        if key in sessions {
          closed := closed + {sessions[key].session};
          sessions := sessions - {key};
        }
        todo := todo - {key};
        assert keys - todo == (keys - todo - {key}) + {key};
      }
      assert keys - todo == keys;
    }

    /** The two stores that `forget` asks, in this order, before it reaches the registry;
        `peerStore` and `endpointStore` are their answers. A call that its caller drops
        while it waits for the registry has come exactly this far. */
    method ForgetRecords(peer: DeviceId, peerStore: Result<(), ()>, endpointStore: Result<(), ()>)
      returns (result: Result<bool, ForgetError>)
      modifies this`peers, this`remembered
      ensures result == if peerStore.Err? then Err(PeerStoreFailed)
                        else if endpointStore.Err? then Err(EndpointStoreFailed)
                        else Ok(peer in old(peers))
      ensures peers == if peerStore.Ok? then old(peers) - {peer} else old(peers)
      ensures remembered == if result.Ok? || (peerStore.Ok? && cascades) then old(remembered) - {peer}
                            else old(remembered)
    {
      if peerStore.Err? {
        return Err(PeerStoreFailed);
      }
      var existed := peer in peers;
      peers := peers - {peer};
      if cascades {
        remembered := remembered - {peer};
      }
      if endpointStore.Err? {
        return Err(EndpointStoreFailed);
      }
      remembered := remembered - {peer};
      return Ok(existed);
    }

    method Forget(peer: DeviceId, peerStore: Result<(), ()>, endpointStore: Result<(), ()>)
      returns (result: Result<bool, ForgetError>)
      modifies this`sessions, this`closed, this`peers, this`remembered
      ensures result == if peerStore.Err? then Err(PeerStoreFailed)
                        else if endpointStore.Err? then Err(EndpointStoreFailed)
                        else Ok(peer in old(peers))
      ensures peers == if peerStore.Ok? then old(peers) - {peer} else old(peers)
      ensures remembered == if result.Ok? || (peerStore.Ok? && cascades) then old(remembered) - {peer}
                            else old(remembered)
      ensures State() == if result.Ok? then Disconnect(old(State()), peer) else old(State())
    {
      result := ForgetRecords(peer, peerStore, endpointStore);
      if result.Ok? {
        RemoveAll(set key | key in sessions && key.peer == peer);
      }
    }

    /** `saved` says whether validation and the repository accepted the grant. */
    method Grant(peer: DeviceId, capability: CapabilityId, saved: bool) returns (done: bool)
      modifies this`sessions, this`closed
      ensures done == saved
      ensures State() == if saved
                         then TearDown(old(State()), KeysOfGrant(old(State()), peer, capability))
                         else old(State())
    {
      if !saved {
        return false;
      }
      if capability == CrossScreenInject {
        var key := SessionKey(peer, RealtimeInput);
        if key in sessions {
          closed := closed + {sessions[key].session};
          sessions := sessions - {key};
        }
      } else {
        var _ := DisconnectPeer(peer);
      }
      return true;
    }

    method Revoke(peer: DeviceId, revoked: bool)
      modifies this`sessions, this`closed
      ensures State() == if revoked then Disconnect(old(State()), peer) else old(State())
    {
      if revoked {
        var _ := DisconnectPeer(peer);
      }
    }

    /** The tail of the watcher task, run after the session's connection closed. */
    method WatcherFires(s: Session)
      modifies this`sessions, this`closed
      ensures State() == CleanUpRelay(old(State()), s)
    {
      if KeyOf(s) in sessions && sessions[KeyOf(s)].session.connection == s.connection {
        closed, sessions := closed + Untunnelled(State(), KeyOf(s)), sessions - {KeyOf(s)};
      }
    }
  }
}
