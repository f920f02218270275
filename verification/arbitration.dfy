/** Which of several competing sessions a registry ends up with. */
module Arbitration {
  import opened Types
  import opened Collections
  import opened SessionRegistry

  function RegisterAll(r: Registry, sessions: seq<Session>): Registry {
    if sessions == [] then r
    else SessionRegistry.Register(RegisterAll(r, Before(sessions)), Last(sessions))
  }

  /** Direct before relayed, then the smaller initiator: a lexicographic order
      that knows nothing of nonces. */
  predicate Precedes(a: Session, b: Session) {
    (!a.relayed && b.relayed) || (a.relayed == b.relayed && a.initiator < b.initiator)
  }

  /** The nested path, initiator and rank tests amount to one comparison; the
      nonce half of the rank never decides. */
  lemma ArbitrationIsLexicographic(current: Session, incoming: Session)
    ensures KeepsExisting(current, incoming) <==> current.initiator != incoming.initiator && Precedes(current, incoming)
  {
  }

  /** As far as the sessions tell, they reach one process of the peer. */
  predicate OneProcess(a: Session, b: Session) {
    a.instance == b.instance || a.instance == None || b.instance == None
  }

  /** Sessions competing for one free key: distinct, open, held, of one peer
      process, each initiator using one kind of path. */
  ghost predicate Contenders(r: Registry, key: SessionKey, sessions: seq<Session>) {
    && key !in r.sessions
    && NoDuplicates(sessions)
    && (forall i :: 0 <= i < |sessions| ==> KeyOf(sessions[i]) == key && Live(r, sessions[i]))
    && (forall i, j :: 0 <= i < |sessions| && 0 <= j < |sessions| ==>
          && OneProcess(sessions[i], sessions[j])
          && (sessions[i].initiator == sessions[j].initiator ==> sessions[i].relayed == sessions[j].relayed))
  }

  /** The last one among those that no other precedes. */
  ghost predicate IsSurvivor(sessions: seq<Session>, i: nat) {
    && i < |sessions|
    && (forall j :: 0 <= j < |sessions| ==> !Precedes(sessions[j], sessions[i]))
    && (forall j :: i < j < |sessions| ==> Precedes(sessions[i], sessions[j]))
  }

  /** One more contender, against a current one that is open and held. */
  lemma RegisterContender(r: Registry, key: SessionKey, current: Session, s: Session)
    requires key in r.sessions && r.sessions[key] == ActiveSession(current, [])
    requires KeyOf(s) == key && s != current && Live(r, current) && Live(r, s) && OneProcess(current, s)
    ensures SessionRegistry.Register(r, s)
            == if KeepsExisting(current, s) then r.(closed := r.closed + {s})
               else r.(sessions := r.sessions[key := ActiveSession(s, [])], closed := r.closed + {current})
  {
  }

  lemma SurvivorStep(prefix: seq<Session>, k: nat, s: Session)
    requires IsSurvivor(prefix, k)
    requires forall i :: 0 <= i < |prefix| ==> (prefix[i].initiator == s.initiator ==> prefix[i].relayed == s.relayed)
    ensures IsSurvivor(prefix + [s], if KeepsExisting(prefix[k], s) then k else |prefix|)
  {
  }

  /** What the registry looks like once `sessions` have been registered and the one
      at `i` survived. */
  ghost predicate Settled(r: Registry, key: SessionKey, sessions: seq<Session>, i: nat, after: Registry)
    requires i < |sessions|
  {
    && after.dropped == r.dropped
    && key in after.sessions && after.sessions[key] == ActiveSession(sessions[i], [])
    && (forall s :: s in sessions ==> (Open(after, s) <==> s == sessions[i]))
    && (forall s :: s !in sessions ==> (Open(after, s) <==> Open(r, s)))
  }

  lemma SettledStep(r: Registry, key: SessionKey, prefix: seq<Session>, k: nat, before: Registry, s: Session)
    requires k < |prefix| && Settled(r, key, prefix, k, before) && s !in prefix && Live(r, s) && Upgrades(r, prefix[k])
    requires KeyOf(s) == key && OneProcess(prefix[k], s)
    ensures Settled(r, key, prefix + [s],
                    if KeepsExisting(prefix[k], s) then k else |prefix|,
                    SessionRegistry.Register(before, s))
  {
    RegisterContender(before, key, prefix[k], s);
  }

  /** Closed form of arbitration: whatever the arrival order, the registry holds
      the last-registered session of the best (path, initiator), which is open, and
      every other contender has been closed. */
  lemma {:induction false} SurvivorIsLastBest(r: Registry, key: SessionKey, sessions: seq<Session>) returns (i: nat)
    requires sessions != [] && Contenders(r, key, sessions)
    ensures IsSurvivor(sessions, i) && Settled(r, key, sessions, i, RegisterAll(r, sessions))
  {
    var prefix, s := Before(sessions), Last(sessions);
    assert sessions == prefix + [s];
    if prefix == [] {
      i := 0;
      assert RegisterAll(r, prefix) == r;
    } else {
      ContendersPrefix(r, key, prefix, s);
      var k := SurvivorIsLastBest(r, key, prefix);
      SurvivorStep(prefix, k, s);
      SettledStep(r, key, prefix, k, RegisterAll(r, prefix), s);
      i := if KeepsExisting(prefix[k], s) then k else |prefix|;
    }
  }

  lemma ContendersPrefix(r: Registry, key: SessionKey, prefix: seq<Session>, s: Session)
    requires Contenders(r, key, prefix + [s])
    ensures Contenders(r, key, prefix) && s !in prefix && KeyOf(s) == key && Live(r, s)
    ensures forall i :: 0 <= i < |prefix| ==> && OneProcess(prefix[i], s) && Upgrades(r, prefix[i])
                                              && (prefix[i].initiator == s.initiator ==> prefix[i].relayed == s.relayed)
  {
    var all := prefix + [s];
    assert forall i :: 0 <= i < |prefix| ==> all[i] == prefix[i];
    assert all[|prefix|] == s;
  }

  lemma SurvivorsCoincide(one: seq<Session>, i: nat, other: seq<Session>, j: nat)
    requires IsSurvivor(one, i) && IsSurvivor(other, j)
    requires one[i] in other && other[j] in one
    requires forall a, b :: 0 <= a < b < |one| ==> one[a].initiator != one[b].initiator
    ensures one[i] == other[j]
  {
    var k :| 0 <= k < |one| && one[k] == other[j];
    var m :| 0 <= m < |other| && other[m] == one[i];
    assert !Precedes(one[k], one[i]) && !Precedes(other[m], other[j]);
  }

  /** With pairwise distinct initiators the outcome does not depend on the order
      of arrival: two arrival orders of the same sessions leave the same registry. */
  lemma {:induction false} ArrivalOrderIsIrrelevant(r: Registry, key: SessionKey, one: seq<Session>,
                                                    other: seq<Session>)
    requires one != [] && Contenders(r, key, one) && Contenders(r, key, other)
    requires forall s :: s in one <==> s in other
    requires forall i, j :: 0 <= i < j < |one| ==> one[i].initiator != one[j].initiator
    ensures RegisterAll(r, one) == RegisterAll(r, other)
  {
    assert one[0] in other;
    var i := SurvivorIsLastBest(r, key, one);
    var j := SurvivorIsLastBest(r, key, other);
    SurvivorsCoincide(one, i, other, j);
    SameOutside(r, key, one, other);
    var left, right := RegisterAll(r, one), RegisterAll(r, other);
    assert left.closed == right.closed by {
      forall s ensures s in left.closed <==> s in right.closed {
        assert Open(left, s) <==> Open(right, s);
      }
    }
  }

  lemma SameOutside(r: Registry, key: SessionKey, one: seq<Session>, other: seq<Session>)
    requires forall i :: 0 <= i < |one| ==> KeyOf(one[i]) == key
    requires forall i :: 0 <= i < |other| ==> KeyOf(other[i]) == key
    requires key in RegisterAll(r, one).sessions && key in RegisterAll(r, other).sessions
    requires RegisterAll(r, one).sessions[key] == RegisterAll(r, other).sessions[key]
    ensures RegisterAll(r, one).sessions == RegisterAll(r, other).sessions
  {
    FrameOutsideKey(r, key, one);
    FrameOutsideKey(r, key, other);
    var left, right := RegisterAll(r, one).sessions, RegisterAll(r, other).sessions;
    forall k ensures k in left <==> k in right {
      assert k != key ==> (k in left <==> k in left - {key});
      assert k != key ==> (k in right <==> k in right - {key});
    }
    forall k | k in left ensures left[k] == right[k] {
      if k != key {
        assert (left - {key})[k] == left[k] && (right - {key})[k] == right[k];
      }
    }
  }

  lemma {:induction false} FrameOutsideKey(r: Registry, key: SessionKey, sessions: seq<Session>)
    requires forall i :: 0 <= i < |sessions| ==> KeyOf(sessions[i]) == key
    ensures RegisterAll(r, sessions).sessions - {key} == r.sessions - {key}
  {
    if sessions != [] {
      FrameOutsideKey(r, key, Before(sessions));
    }
  }

  function Sample(connection: nat, initiator: DeviceId, relayed: bool): Session {
    Session(connection, 2, RealtimeInput, None, initiator, 0, relayed)
  }

  /** The one-path-per-initiator condition is needed: when an initiator reconnects
      through a relay, its earlier direct session is gone and a worse direct
      session then wins, while another order keeps the best one. */
  lemma MixedPathsDependOnOrder()
    ensures var direct, relay, opposing := Sample(1, 1, false), Sample(2, 1, true), Sample(3, 2, false);
            var r := Registry(map[], {}, {});
            && Holds(RegisterAll(r, [direct, relay, opposing]), opposing)
            && Holds(RegisterAll(r, [relay, direct, opposing]), direct)
  {
    var direct, relay, opposing := Sample(1, 1, false), Sample(2, 1, true), Sample(3, 2, false);
    var r := Registry(map[], {}, {});
    assert Before([direct, relay, opposing]) == [direct, relay];
    assert Before([direct, relay]) == [direct];
    assert Before([relay, direct, opposing]) == [relay, direct];
    assert Before([relay, direct]) == [relay];
    assert RegisterAll(r, []) == r;
    assert RegisterAll(r, [direct]) == SessionRegistry.Register(r, direct);
    assert RegisterAll(r, [relay]) == SessionRegistry.Register(r, relay);
  }
}
