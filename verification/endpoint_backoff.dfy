/** Remembered endpoints across a dial: the race dials canonical addresses and records a
    failure under the canonical form, while the stores keep the form the peer connected from. */
module EndpointBackoff {
  import opened Types
  import opened Collections
  import opened DialCandidates
  import opened EndpointStore
  import opened EndpointAgreement

  /** After any run, a remembered endpoint that was due for a dial backs off when the dial
      fails if and only if it is not an IPv4-mapped address. */
  lemma {:induction false} FailedDialBacksOff(ops: seq<Op>, peer: DeviceId, a: SocketAddr, now: int)
    requires Knows(Kept(ops, peer), a) && now < I64_MAX
    requires Kept(ops, peer)[Position(Kept(ops, peer), a)].retryAfter <= now
    ensures var list, next := Kept(ops, peer), Kept(ops + [DialFailed(peer, Canonical(a), now)], peer);
            && |next| == |list| && next[Position(list, a)].address == a
            && (next[Position(list, a)].retryAfter > now <==> !IsMapped(a))
  {
    KeptOfPush(ops, DialFailed(peer, Canonical(a), now), peer);
    var list := Kept(ops, peer);
    FailureTouches(list, a, Canonical(a), now);
  }

  /** A recorded failure changes the entry of `a` exactly if it is recorded under `a`. */
  lemma FailureTouches(list: seq<Endpoint>, a: SocketAddr, recorded: SocketAddr, now: int)
    requires Knows(list, a)
    ensures var i, next := Position(list, a), RecordFailure(list, recorded, now);
            |next| == |list| && next[i] == if recorded == a then Failed(list[i], now) else list[i]
  {
    if recorded != a && Knows(list, recorded) {
      assert list[Position(list, recorded)].address != list[Position(list, a)].address;
    }
  }

  /** The SQL table behaves alike. */
  lemma FailedRowBacksOff(db: Database, peer: DeviceId, a: SocketAddr, now: int)
    requires Plain(a) && RowKey(peer, a) in db.rows && db.rows[RowKey(peer, a)].retryAfter <= now
    ensures var next := SqlRecordFailure(db, peer, Canonical(a), now);
            && RowKey(peer, a) in next.rows
            && (next.rows[RowKey(peer, a)].retryAfter > now <==> !IsMapped(a))
  {
    BackoffAgrees(db.rows[RowKey(peer, a)].failures + 1);
  }

  /** Failures are recorded under the addresses that were dialled. */
  ghost predicate CanonicalFailures(ops: seq<Op>, peer: DeviceId) {
    forall i :: 0 <= i < |ops| && ops[i].DialFailed? && ops[i].peer == peer ==>
      Canonical(ops[i].address) == ops[i].address
  }

  /** So a mapped endpoint never backs off: in every run its count stays zero. */
  lemma {:induction false} MappedNeverBacksOff(ops: seq<Op>, peer: DeviceId)
    requires CanonicalFailures(ops, peer)
    ensures forall e :: e in Kept(ops, peer) && IsMapped(e.address) ==> e.failures == 0 && e.retryAfter == 0
  {
    if ops != [] {
      var prefix, op := Before(ops), Last(ops);
      assert forall i :: 0 <= i < |prefix| ==> prefix[i] == ops[i];
      MappedNeverBacksOff(prefix, peer);
      if op.peer == peer && op.Authenticated? {
        RecordMembers(Kept(prefix, peer), op.address, op.certificate, op.source, op.now);
      } else if op.peer == peer && op.DialFailed? {
        CanonicalIsNotMapped(op.address);
        FailureMembers(Kept(prefix, peer), op.address, op.now);
      }
    }
  }

  lemma CanonicalIsNotMapped(a: SocketAddr)
    ensures !IsMapped(Canonical(a))
  {
  }

  lemma FailureMembers(list: seq<Endpoint>, address: SocketAddr, now: int)
    ensures forall e :: e in RecordFailure(list, address, now) ==> e in list || e.address == address
  {
  }

  /** It is offered for every dial, however often it failed. */
  lemma {:induction false} MappedIsAlwaysOffered(ops: seq<Op>, peer: DeviceId, e: Endpoint, now: nat)
    requires CanonicalFailures(ops, peer) && e in Kept(ops, peer) && IsMapped(e.address)
    ensures e in Query(Kept(ops, peer), now)
  {
    MappedNeverBacksOff(ops, peer);
    KeptIsTidy(ops, peer);
    QueryKeepsEligible(Kept(ops, peer), now);
  }
}
