/** What a remembered endpoint carries, told by the recorded operations alone, in memory and in
    the SQL table. */
module EndpointHistory {
  import opened Types
  import opened Collections
  import opened Ordering
  import opened DialCandidates
  import opened EndpointStore
  import opened EndpointAgreement

  /** Whether an operation on `recorded` concerns the endpoint `a`: the list compares addresses,
      the table their texts. */
  predicate Concerns(recorded: SocketAddr, a: SocketAddr, text: bool) {
    if text then AsText(recorded) == a else recorded == a
  }

  /** The latest authentication of `a` since the peer was last forgotten. */
  function LastAuthentication(ops: seq<Op>, peer: DeviceId, a: SocketAddr, text: bool): (op: Option<Op>)
    ensures op.Some? ==> op.value.Authenticated?
  {
    if ops == [] then None
    else
      match Last(ops)
      case Authenticated(p, address, _, _, _) =>
        if p == peer && Concerns(address, a, text) then Some(Last(ops))
        else LastAuthentication(Before(ops), peer, a, text)
      case DialFailed(_, _, _) => LastAuthentication(Before(ops), peer, a, text)
      case Forgotten(p) => if p == peer then None else LastAuthentication(Before(ops), peer, a, text)
  }

  /** The times of the failures of `a` since then. */
  function FailuresSince(ops: seq<Op>, peer: DeviceId, a: SocketAddr, text: bool): seq<int> {
    if ops == [] then []
    else
      var earlier := FailuresSince(Before(ops), peer, a, text);
      match Last(ops)
      case Authenticated(p, address, _, _, _) => if p == peer && Concerns(address, a, text) then [] else earlier
      case DialFailed(p, address, now) => if p == peer && Concerns(address, a, text) then earlier + [now] else earlier
      case Forgotten(p) => if p == peer then [] else earlier
  }

  /** The time of the authentication that put `a` where it is: in the list when it did not
      know the address, in the table when the peer was first authenticated there. */
  function FirstRecorded(ops: seq<Op>, peer: DeviceId, a: SocketAddr, text: bool): int {
    if ops == [] then 0
    else
      match Last(ops)
      case Authenticated(p, address, _, _, now) =>
        if p == peer && Concerns(address, a, text) && !Present(Before(ops), peer, a, text) then now
        else FirstRecorded(Before(ops), peer, a, text)
      case _ => FirstRecorded(Before(ops), peer, a, text)
  }

  predicate Present(ops: seq<Op>, peer: DeviceId, a: SocketAddr, text: bool) {
    if text then LastAuthentication(ops, peer, a, text).Some? else Knows(Kept(ops, peer), a)
  }

  /** The retry time after failures at the given times: 2 s after one, twice as long after
      each further one, at most 256 s, counted from the latest. */
  function RetryTime(failures: seq<int>): int {
    if failures == [] then 0
    else Last(failures) + 1_000 * Power2(if |failures| <= 8 then |failures| else 8)
  }

  /** The endpoint carries what its latest authentication said, when it was first recorded,
      and how often it failed since. */
  predicate Carries(e: Endpoint, a: SocketAddr, authentication: Op, first: int, failures: seq<int>, inMemory: bool)
    requires authentication.Authenticated?
  {
    && e.address == a
    && e.certificate == authentication.certificate && e.source == authentication.source
    && e.lastSeen == authentication.now && e.lastSuccess == authentication.now
    && e.firstSeen == first
    && e.failures == (if inMemory && |failures| > 0xffff_ffff then 0xffff_ffff else |failures|)
    && e.retryAfter == (if inMemory && RetryTime(failures) > I64_MAX then I64_MAX else RetryTime(failures))
  }

  // ---- In memory ----

  /** What one recording leaves, by the fields. */
  lemma RecordLeaves(list: seq<Endpoint>, address: SocketAddr, certificate: int, source: EndpointSource, now: int,
                     e: Endpoint)
    requires NoDuplicates(Addresses(list)) && e in Record(list, address, certificate, source, now)
    ensures if e.address != address then e in list
            else && e.certificate == certificate && e.source == source && e.lastSeen == now && e.lastSuccess == now
                 && e.failures == 0 && e.retryAfter == 0
                 && e.firstSeen == (if Knows(list, address) then list[Position(list, address)].firstSeen else now)
  {
    var next := Upsert(list, address, certificate, source, now);
    SortPermutes(MoreRecent, next);
    assert e in multiset(Sort(MoreRecent, next));
    assert e in next;
    var k :| 0 <= k < |next| && next[k] == e;
    if Knows(list, address) {
      var i := Position(list, address);
      assert forall m :: 0 <= m < |list| && m != i ==> Addresses(list)[m] != Addresses(list)[i];
    }
  }

  /** What one failure leaves, by the fields. */
  lemma FailureLeaves(list: seq<Endpoint>, address: SocketAddr, now: int, e: Endpoint) returns (old': Endpoint)
    requires NoDuplicates(Addresses(list)) && e in RecordFailure(list, address, now)
    ensures old' in list && old'.address == e.address
    ensures if e.address != address then e == old'
            else && e.certificate == old'.certificate && e.source == old'.source && e.firstSeen == old'.firstSeen
                 && e.lastSeen == old'.lastSeen && e.lastSuccess == old'.lastSuccess
                 && e.failures == (if old'.failures < 0xffff_ffff then old'.failures + 1 else 0xffff_ffff)
                 && var retry := now + 1_000 * Power2(if e.failures <= 8 then e.failures else 8);
                    e.retryAfter == if retry > I64_MAX then I64_MAX else retry
  {
    var next := RecordFailure(list, address, now);
    var k :| 0 <= k < |next| && next[k] == e;
    old' := list[k];
    if Knows(list, address) && e.address == address {
      assert Addresses(list)[k] == Addresses(list)[Position(list, address)];
    }
  }

  ghost predicate KeptCarriesAt(ops: seq<Op>, peer: DeviceId, e: Endpoint) {
    var authentication := LastAuthentication(ops, peer, e.address, false);
    && authentication.Some?
    && Carries(e, e.address, authentication.value, FirstRecorded(ops, peer, e.address, false),
               FailuresSince(ops, peer, e.address, false), true)
  }

  /** In every run and under every clock, each kept endpoint carries the certificate, source
      and times of the latest authentication of its address, the time it was put in the
      list, and the failures since. */
  lemma {:induction false} KeptCarriesHistory(ops: seq<Op>, peer: DeviceId, e: Endpoint)
    requires e in Kept(ops, peer)
    ensures KeptCarriesAt(ops, peer, e)
  {
    var prefix, op := Before(ops), Last(ops);
    var list := Kept(prefix, peer);
    KeptIsTidy(prefix, peer);
    if op.peer != peer {
      KeptCarriesHistory(prefix, peer, e);
    } else {
      match op
      case Authenticated(_, address, certificate, source, now) =>
        RecordLeaves(list, address, certificate, source, now, e);
        if e.address != address {
          KeptCarriesHistory(prefix, peer, e);
        } else if Knows(list, address) {
          KeptCarriesHistory(prefix, peer, list[Position(list, address)]);
        }
      case DialFailed(_, address, now) =>
        var old' := FailureLeaves(list, address, now, e);
        KeptCarriesHistory(prefix, peer, old');
        FailureCarries(ops, peer, old', e);
      case Forgotten(_) =>
    }
  }

  lemma FailureCarries(ops: seq<Op>, peer: DeviceId, old': Endpoint, e: Endpoint)
    requires ops != [] && Last(ops).DialFailed? && Last(ops).peer == peer
    requires KeptCarriesAt(Before(ops), peer, old') && e.address == old'.address
    requires var address, now := Last(ops).address, Last(ops).now;
             if e.address != address then e == old'
             else && e.certificate == old'.certificate && e.source == old'.source && e.firstSeen == old'.firstSeen
                  && e.lastSeen == old'.lastSeen && e.lastSuccess == old'.lastSuccess
                  && e.failures == (if old'.failures < 0xffff_ffff then old'.failures + 1 else 0xffff_ffff)
                  && var retry := now + 1_000 * Power2(if e.failures <= 8 then e.failures else 8);
                     e.retryAfter == if retry > I64_MAX then I64_MAX else retry
    ensures KeptCarriesAt(ops, peer, e)
  {
  }

  // ---- In the table ----

  /** In every run with the peer stored, the table has a row for exactly the addresses
      authenticated since the last `forget`, and it carries the same history. */
  lemma {:induction false} RowCarriesHistory(peers: set<DeviceId>, ops: seq<Op>, peer: DeviceId, a: SocketAddr)
    requires peer in peers
    ensures var rows, authentication := Table(peers, ops).rows, LastAuthentication(ops, peer, a, true);
            && (RowKey(peer, a) in rows <==> authentication.Some?)
            && (RowKey(peer, a) in rows ==>
                  Carries(rows[RowKey(peer, a)], a, authentication.value, FirstRecorded(ops, peer, a, true),
                          FailuresSince(ops, peer, a, true), false))
  {
    if ops != [] {
      var prefix, op := Before(ops), Last(ops);
      RowCarriesHistory(peers, prefix, peer, a);
      if op.peer != peer {
        OtherPeersRows(Table(peers, prefix), op, RowKey(peer, a));
      } else if op.DialFailed? && Concerns(op.address, a, true) && RowKey(peer, a) in Table(peers, prefix).rows {
        BackoffAgrees(Table(peers, prefix).rows[RowKey(peer, a)].failures + 1);
      }
    }
  }

  /** The foreign key admits no row of a peer without a record. */
  lemma {:induction false} UnknownPeerHasNoRow(peers: set<DeviceId>, ops: seq<Op>, key: RowKey)
    requires key.peer !in peers
    ensures key !in Table(peers, ops).rows
  {
    if ops != [] {
      UnknownPeerHasNoRow(peers, Before(ops), key);
    }
  }

  lemma OtherPeersRows(db: Database, op: Op, key: RowKey)
    requires op.peer != key.peer
    ensures var rows := SqlApply(db, op).rows;
            (key in rows <==> key in db.rows) && (key in rows ==> rows[key] == db.rows[key])
  {
  }
}
