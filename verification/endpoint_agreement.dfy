/** The SQL endpoint table and its agreement with the in-memory store. Each SQL
    statement is one atomic change of the table, given here as its meaning. */
module EndpointAgreement {
  import opened Types
  import opened Collections
  import opened Ordering
  import opened DialCandidates
  import opened EndpointStore

  const MAX_AGE := 90 * 24 * 60 * 60 * 1_000
  const BACKOFF_CAP := 300_000

  /** The textual form of an address, given as the address it parses to: text has no
      place for the flow label of version 6. */
  function AsText(a: SocketAddr): SocketAddr {
    if a.V6? then a.(flowInfo := 0) else a
  }

  predicate Plain(a: SocketAddr) {
    AsText(a) == a
  }

  /** Text distinguishes everything but flow labels. */
  lemma TextForgetsFlowLabelsOnly(a: SocketAddr, b: SocketAddr)
    ensures AsText(a) == AsText(b) <==>
              || a == b
              || (a.V6? && b.V6? && a.ip6 == b.ip6 && a.port == b.port && a.scopeId == b.scopeId)
    ensures Plain(a) <==> (a.V6? ==> a.flowInfo == 0)
  {
  }

  /** Rows are keyed by the textual form. */
  datatype RowKey = RowKey(peer: DeviceId, address: SocketAddr)

  /** The endpoint table and the peers its foreign key refers to. The failure column
      is a 64-bit integer that is narrowed only when a row is read. */
  datatype Database = Database(peers: set<DeviceId>, rows: map<RowKey, Endpoint>)

  /** INSERT ... ON CONFLICT DO UPDATE; the foreign key refuses unknown peers. */
  function SqlRecord(db: Database, peer: DeviceId, address: SocketAddr, certificate: int,
                     source: EndpointSource, now: int): Database {
    var key := RowKey(peer, AsText(address));
    if peer !in db.peers then db
    else if key in db.rows then db.(rows := db.rows[key := Refreshed(db.rows[key], certificate, source, now)])
    else db.(rows := db.rows[key := Fresh(AsText(address), certificate, source, now)])
  }

  /** UPDATE ... SET consecutive_failures, retry_after_ms. */
  function SqlFailed(e: Endpoint, now: int): Endpoint {
    e.(failures := e.failures + 1,
       retryAfter := now + Min(BACKOFF_CAP, Power2(Min(e.failures + 1, 8)) * 1_000))
  }

  function SqlRecordFailure(db: Database, peer: DeviceId, address: SocketAddr, now: int): Database {
    var key := RowKey(peer, AsText(address));
    if key in db.rows then db.(rows := db.rows[key := SqlFailed(db.rows[key], now)]) else db
  }

  /** DELETE FROM peer_endpoints. */
  function SqlForget(db: Database, peer: DeviceId): Database {
    db.(rows := map key | key in db.rows && key.peer != peer :: db.rows[key])
  }

  /** Row decoding: a count beyond 32 bits reads as the largest one. */
  function Decoded(e: Endpoint): Endpoint {
    e.(failures := if e.failures <= U32_MAX then e.failures else U32_MAX)
  }

  predicate Selected(db: Database, peer: DeviceId, address: SocketAddr, now: int) {
    var key := RowKey(peer, address);
    key in db.rows && db.rows[key].retryAfter <= now && db.rows[key].lastSuccess >= now - MAX_AGE
  }

  /** SELECT ... ORDER BY ... LIMIT 16. Rows that tie may come in any order, so this
      is a relation: decoded selected rows, each once, best first, and a selected row
      is missing only if 16 rows that rank no lower fill the answer. */
  ghost predicate SqlAnswer(db: Database, peer: DeviceId, now: int, answer: seq<Endpoint>) {
    && |answer| <= MAX_ENDPOINTS
    && NoDuplicates(Addresses(answer))
    && Sorted(RankedBefore, answer)
    && (forall i :: 0 <= i < |answer| ==>
          && Selected(db, peer, answer[i].address, now)
          && answer[i] == Decoded(db.rows[RowKey(peer, answer[i].address)]))
    && (forall address :: Selected(db, peer, address, now) && !Knows(answer, address) ==>
          && |answer| == MAX_ENDPOINTS
          && forall i :: 0 <= i < |answer| ==> RankedBefore(answer[i], db.rows[RowKey(peer, address)]))
  }

  /** A row that last succeeded more than 90 days ago is in no answer, and a younger one whose
      retry time has come is in every answer of fewer than 16 rows. */
  lemma AnswersCoverNinetyDays(db: Database, peer: DeviceId, now: int, answer: seq<Endpoint>, a: SocketAddr)
    requires SqlAnswer(db, peer, now, answer) && RowKey(peer, a) in db.rows
    ensures var row := db.rows[RowKey(peer, a)];
            && (row.lastSuccess < now - 7_776_000_000 || row.retryAfter > now ==> !Knows(answer, a))
            && (row.lastSuccess >= now - 7_776_000_000 && row.retryAfter <= now && |answer| < 16 ==> Knows(answer, a))
  {
  }

  /** The backoff doubles from 2 s to 256 s and stays there. */
  lemma BackoffDoubles(failures: nat)
    requires failures >= 1
    ensures Backoff(1) == 2_000
    ensures Backoff(failures + 1) == if failures < 8 then 2 * Backoff(failures) else 256_000
  {
    PowersOfTwo();
  }

  /** The SQL cap of 300 s never binds, the two backoff formulas agree, and every
      backoff lies between 2 s and 256 s. */
  lemma BackoffAgrees(failures: nat)
    requires failures >= 1
    ensures 2_000 <= Backoff(failures) <= 256_000
    ensures Min(BACKOFF_CAP, Power2(Min(failures, 8)) * 1_000) == Backoff(failures)
  {
    PowersOfTwo();
    var n := if failures <= 8 then failures else 8;
    assert n == 1 || n == 2 || n == 3 || n == 4 || n == 5 || n == 6 || n == 7 || n == 8;
  }

  lemma PowersOfTwo()
    ensures Power2(1) == 2 && Power2(2) == 4 && Power2(3) == 8 && Power2(4) == 16
    ensures Power2(5) == 32 && Power2(6) == 64 && Power2(7) == 128 && Power2(8) == 256
  {
    assert Power2(2) == 2 * Power2(1) && Power2(1) == 2 * Power2(0);
    assert Power2(4) == 2 * Power2(3) && Power2(3) == 2 * Power2(2);
    assert Power2(6) == 2 * Power2(5) && Power2(5) == 2 * Power2(4);
  }

  /** A clock reading far enough from the end of 64-bit time. */
  predicate Plausible(now: int) {
    0 <= now <= I64_MAX - BACKOFF_CAP
  }

  lemma FailureAgrees(e: Endpoint, row: Endpoint, now: int)
    requires Plausible(now) && e == Decoded(row)
    ensures Failed(e, now) == Decoded(SqlFailed(row, now))
  {
    BackoffAgrees(row.failures + 1);
    BackoffAgrees(e.failures + 1);
  }

  // ---- The two stores side by side ----

  /** The list and the table hold the same endpoints for `peer`. */
  ghost predicate Agree(list: seq<Endpoint>, db: Database, peer: DeviceId) {
    && NoDuplicates(Addresses(list))
    && (forall address :: RowKey(peer, address) in db.rows <==> Knows(list, address))
    && (forall i :: 0 <= i < |list| ==> RowKey(peer, list[i].address) in db.rows
                                        && list[i] == Decoded(db.rows[RowKey(peer, list[i].address)]))
  }

  lemma SameElementsAgree(list: seq<Endpoint>, other: seq<Endpoint>, db: Database, peer: DeviceId)
    requires Agree(list, db, peer) && multiset(other) == multiset(list)
    ensures Agree(other, db, peer)
  {
    forall e ensures e in other <==> e in list {
      assert e in multiset(other) <==> e in multiset(list);
    }
    forall i | 0 <= i < |other|
      ensures RowKey(peer, other[i].address) in db.rows && other[i] == Decoded(db.rows[RowKey(peer, other[i].address)])
    {
      assert other[i] in list;
    }
    forall address ensures Knows(other, address) <==> Knows(list, address) {
      if Knows(other, address) {
        var i :| 0 <= i < |other| && other[i].address == address;
        assert other[i] in list;
      }
      if Knows(list, address) {
        var i :| 0 <= i < |list| && list[i].address == address;
        assert list[i] in other;
      }
    }
    AddressesStayDistinct(list, other);
  }

  lemma UpsertAgrees(list: seq<Endpoint>, db: Database, peer: DeviceId,
                     address: SocketAddr, certificate: int, source: EndpointSource, now: int)
    requires Agree(list, db, peer) && peer in db.peers && Plain(address)
    ensures Agree(Upsert(list, address, certificate, source, now),
                  SqlRecord(db, peer, address, certificate, source, now), peer)
  {
    var next := Upsert(list, address, certificate, source, now);
    var addresses := Addresses(list);
    if Knows(list, address) {
      var i := Position(list, address);
      assert Addresses(next) == addresses;
      assert forall a :: Knows(next, a) <==> Knows(list, a) by {
        forall a ensures Knows(next, a) <==> Knows(list, a) {
          assert a in Addresses(next) <==> Knows(next, a);
          assert a in addresses <==> Knows(list, a);
        }
      }
      assert forall k :: 0 <= k < |list| && k != i ==> addresses[k] != addresses[i];
    } else {
      assert Addresses(next) == addresses + [address];
      forall a ensures Knows(next, a) <==> Knows(list, a) || a == address {
        assert a in Addresses(next) <==> Knows(next, a);
        assert a in addresses <==> Knows(list, a);
      }
    }
  }

  lemma RecordAgrees(list: seq<Endpoint>, db: Database, peer: DeviceId,
                     address: SocketAddr, certificate: int, source: EndpointSource, now: int)
    requires Agree(list, db, peer) && peer in db.peers && Plain(address)
    requires |Upsert(list, address, certificate, source, now)| <= MAX_ENDPOINTS
    ensures Agree(Record(list, address, certificate, source, now),
                  SqlRecord(db, peer, address, certificate, source, now), peer)
  {
    var next := Upsert(list, address, certificate, source, now);
    UpsertAgrees(list, db, peer, address, certificate, source, now);
    SortPermutes(MoreRecent, next);
    var sorted := Sort(MoreRecent, next);
    assert |sorted| == |multiset(sorted)| == |next|;
    SameElementsAgree(next, sorted, SqlRecord(db, peer, address, certificate, source, now), peer);
  }

  lemma RecordFailureAgrees(list: seq<Endpoint>, db: Database, peer: DeviceId, address: SocketAddr, now: int)
    requires Agree(list, db, peer) && Plausible(now) && Plain(address)
    ensures Agree(RecordFailure(list, address, now), SqlRecordFailure(db, peer, address, now), peer)
  {
    var next := RecordFailure(list, address, now);
    if Knows(list, address) {
      var i := Position(list, address);
      FailureAgrees(list[i], db.rows[RowKey(peer, address)], now);
      assert Addresses(next) == Addresses(list);
      forall a ensures Knows(next, a) <==> Knows(list, a) {
        assert a in Addresses(next) <==> Knows(next, a);
        assert a in Addresses(list) <==> Knows(list, a);
      }
      assert forall k :: 0 <= k < |list| && k != i ==> Addresses(list)[k] != Addresses(list)[i];
    }
  }

  /** The table after a run, for a fixed set of stored peers. */
  function Table(peers: set<DeviceId>, ops: seq<Op>): (db: Database)
    ensures db.peers == peers
  {
    if ops == [] then Database(peers, map[]) else SqlApply(Table(peers, Before(ops)), Last(ops))
  }

  function SqlApply(db: Database, op: Op): Database {
    match op
    case Authenticated(peer, address, certificate, source, now) =>
      SqlRecord(db, peer, address, certificate, source, now)
    case DialFailed(peer, address, now) => SqlRecordFailure(db, peer, address, now)
    case Forgotten(peer) => SqlForget(db, peer)
  }

  /** Failures happen at plausible times and authentications no earlier than `since`. */
  ghost predicate Timely(ops: seq<Op>, since: int) {
    forall i :: 0 <= i < |ops| ==>
      match ops[i]
      case Authenticated(_, _, _, _, now) => now >= since
      case DialFailed(_, _, now) => Plausible(now)
      case Forgotten(_) => true
  }

  /** Failures are recorded without a flow label. A dial spells an address it took from the
      table that way, also where it turns a mapped address into version 4. */
  ghost predicate PlainFailures(ops: seq<Op>, peer: DeviceId) {
    forall i :: 0 <= i < |ops| && ops[i].DialFailed? && ops[i].peer == peer ==> Plain(ops[i].address)
  }

  /** No address authenticated since the peer was last forgotten carries a flow label. */
  ghost predicate PlainHistory(ops: seq<Op>, peer: DeviceId) {
    forall a :: a in LatestFirst(ops, peer) ==> Plain(a)
  }

  /** What the list of a peer has to do with the run that produced it. */
  ghost predicate Traces(list: seq<Endpoint>, history: seq<SocketAddr>, since: int) {
    forall i :: 0 <= i < |list| ==> list[i].address in history && list[i].lastSuccess >= since
  }

  lemma RecordTraces(list: seq<Endpoint>, history: seq<SocketAddr>, since: int,
                     address: SocketAddr, certificate: int, source: EndpointSource, now: int)
    requires Traces(list, history, since) && now >= since
    ensures Traces(Upsert(list, address, certificate, source, now), [address] + history, since)
    ensures Traces(Record(list, address, certificate, source, now), [address] + history, since)
  {
    var next := Upsert(list, address, certificate, source, now);
    SortPermutes(MoreRecent, next);
    var kept := Record(list, address, certificate, source, now);
    forall i | 0 <= i < |kept| ensures kept[i] in next {
      assert kept[i] == Sort(MoreRecent, next)[i];
      assert kept[i] in multiset(next);
    }
  }

  /** What other peers do to the table leaves this peer's rows alone. */
  lemma OtherPeersDoNotMatter(list: seq<Endpoint>, db: Database, peer: DeviceId, op: Op)
    requires Agree(list, db, peer) && op.peer != peer
    ensures Agree(list, SqlApply(db, op), peer)
  {
  }

  lemma FailureTraces(list: seq<Endpoint>, history: seq<SocketAddr>, since: int, address: SocketAddr, now: int)
    requires Traces(list, history, since)
    ensures Traces(RecordFailure(list, address, now), history, since) && |RecordFailure(list, address, now)| == |list|
  {
  }

  /** In every run in which `peer` is stored and has had at most 16 distinct addresses,
      none with a flow label, since it was last forgotten, both stores remember the same
      endpoints, down to failure counts and retry times. No clock order is assumed. */
  lemma {:induction false} StoresStayInStep(peers: set<DeviceId>, ops: seq<Op>, peer: DeviceId, since: int)
    requires peer in peers && Timely(ops, since) && PlainFailures(ops, peer) && PlainHistory(ops, peer)
    requires |Distinct(LatestFirst(ops, peer))| <= MAX_ENDPOINTS
    ensures Agree(Kept(ops, peer), Table(peers, ops), peer)
    ensures Traces(Kept(ops, peer), LatestFirst(ops, peer), since) && |Kept(ops, peer)| <= MAX_ENDPOINTS
  {
    if ops != [] && !(Last(ops).Forgotten? && Last(ops).peer == peer) {
      var prefix, op := Before(ops), Last(ops);
      assert forall i :: 0 <= i < |prefix| ==> prefix[i] == ops[i];
      DistinctSublistIsShorter(Distinct(LatestFirst(prefix, peer)), Distinct(LatestFirst(ops, peer)));
      if op.Authenticated? && op.peer == peer {
        assert LatestFirst(ops, peer)[0] == op.address;
      }
      StoresStayInStep(peers, prefix, peer, since);
      var list, db, history := Kept(prefix, peer), Table(peers, prefix), LatestFirst(prefix, peer);
      if op.peer != peer {
        OtherPeersDoNotMatter(list, db, peer, op);
      } else if op.Authenticated? {
        AuthenticationStaysInStep(list, db, peer, history, since, op.address, op.certificate, op.source, op.now);
      } else {
        RecordFailureAgrees(list, db, peer, op.address, op.now);
        FailureTraces(list, history, since, op.address, op.now);
      }
    }
  }

  lemma AuthenticationStaysInStep(list: seq<Endpoint>, db: Database, peer: DeviceId,
                                  history: seq<SocketAddr>, since: int,
                                  address: SocketAddr, certificate: int, source: EndpointSource, now: int)
    requires Agree(list, db, peer) && peer in db.peers && Traces(list, history, since) && now >= since
    requires Plain(address)
    requires |Distinct([address] + history)| <= MAX_ENDPOINTS
    ensures var next := Record(list, address, certificate, source, now);
            && Agree(next, SqlRecord(db, peer, address, certificate, source, now), peer)
            && Traces(next, [address] + history, since) && |next| <= MAX_ENDPOINTS
  {
    var next := Upsert(list, address, certificate, source, now);
    RecordTraces(list, history, since, address, certificate, source, now);
    UpsertAgrees(list, db, peer, address, certificate, source, now);
    DistinctSublistIsShorter(Addresses(next), Distinct([address] + history));
    RecordAgrees(list, db, peer, address, certificate, source, now);
  }

  lemma QueryKeepsEligible(list: seq<Endpoint>, now: int)
    requires |list| <= MAX_ENDPOINTS
    ensures forall e :: e in Query(list, now) <==> e in list && e.retryAfter <= now
  {
    var eligible := Eligible(list, now);
    SortPermutes(RankedBefore, eligible);
    var sorted := Sort(RankedBefore, eligible);
    assert |sorted| == |multiset(sorted)| == |eligible|;
    forall e ensures e in sorted <==> e in eligible {
      assert e in multiset(sorted) <==> e in multiset(eligible);
    }
  }

  /** No selected row is crowded out of an answer about at most 16 endpoints. */
  lemma NothingCrowdedOut(list: seq<Endpoint>, db: Database, peer: DeviceId, now: int, answer: seq<Endpoint>,
                          address: SocketAddr)
    requires Agree(list, db, peer) && |list| <= MAX_ENDPOINTS
    requires SqlAnswer(db, peer, now, answer) && Selected(db, peer, address, now)
    ensures Knows(answer, address)
  {
    if !Knows(answer, address) {
      var longer := Addresses(answer) + [address];
      assert address !in Addresses(answer);
      forall i | 0 <= i < |longer| ensures longer[i] in Addresses(list) {
        assert Selected(db, peer, longer[i], now);
        assert Knows(list, longer[i]);
        var k :| 0 <= k < |list| && list[k].address == longer[i];
        assert Addresses(list)[k] == longer[i];
      }
      DistinctSublistIsShorter(longer, Addresses(list));
    }
  }

  lemma {:induction false} RowsArePlain(peers: set<DeviceId>, ops: seq<Op>, key: RowKey)
    requires key in Table(peers, ops).rows
    ensures Plain(key.address) && Table(peers, ops).rows[key].address == key.address
  {
    if ops != [] {
      var before := Table(peers, Before(ops));
      if key in before.rows {
        RowsArePlain(peers, Before(ops), key);
      }
    }
  }

  /** While at most 16 distinct addresses were authenticated, the list knows them all. */
  lemma {:induction false} KeptKnowsHistory(ops: seq<Op>, peer: DeviceId, a: SocketAddr)
    requires |Distinct(LatestFirst(ops, peer))| <= MAX_ENDPOINTS && a in LatestFirst(ops, peer)
    ensures Knows(Kept(ops, peer), a)
  {
    var prefix, op := Before(ops), Last(ops);
    var list, history := Kept(prefix, peer), LatestFirst(prefix, peer);
    DistinctSublistIsShorter(Distinct(history), Distinct(LatestFirst(ops, peer)));
    if a in history {
      KeptKnowsHistory(prefix, peer, a);
    }
    if op.peer == peer && op.Authenticated? {
      KeptIsTidy(prefix, peer);
      KeptIsHistory(prefix, peer);
      RecordKnows(list, history, op.address, op.certificate, op.source, op.now, a);
    } else if op.peer == peer {
      FailureKnows(list, op.address, op.now, a);
    }
  }

  lemma FailureKnows(list: seq<Endpoint>, address: SocketAddr, now: int, a: SocketAddr)
    requires Knows(list, a)
    ensures Knows(RecordFailure(list, address, now), a)
  {
    var i :| 0 <= i < |list| && list[i].address == a;
    assert RecordFailure(list, address, now)[i].address == a;
  }

  /** Whatever the list holds was authenticated since the last `forget`. */
  lemma {:induction false} KeptIsHistory(ops: seq<Op>, peer: DeviceId)
    ensures forall i :: 0 <= i < |Kept(ops, peer)| ==> Kept(ops, peer)[i].address in LatestFirst(ops, peer)
  {
    if ops != [] {
      var prefix, op := Before(ops), Last(ops);
      var list, history := Kept(prefix, peer), LatestFirst(prefix, peer);
      KeptIsHistory(prefix, peer);
      if op.peer == peer && op.Authenticated? {
        RecordMembers(list, op.address, op.certificate, op.source, op.now);
      }
    }
  }

  /** What a recording leaves in the list was there before, except for its own address. */
  lemma RecordMembers(list: seq<Endpoint>, address: SocketAddr, certificate: int, source: EndpointSource, now: int)
    ensures forall e :: e in Record(list, address, certificate, source, now) ==>
              e in list || (e.address == address && e.failures == 0 && e.retryAfter == 0)
  {
    var next := Upsert(list, address, certificate, source, now);
    SortPermutes(MoreRecent, next);
    forall e | e in Record(list, address, certificate, source, now)
      ensures e in list || (e.address == address && e.failures == 0 && e.retryAfter == 0)
    {
      assert e in multiset(Sort(MoreRecent, next));
      assert e in next;
    }
  }

  lemma RecordKnows(list: seq<Endpoint>, history: seq<SocketAddr>, address: SocketAddr, certificate: int,
                    source: EndpointSource, now: int, a: SocketAddr)
    requires NoDuplicates(Addresses(list)) && |Distinct([address] + history)| <= MAX_ENDPOINTS
    requires forall i :: 0 <= i < |list| ==> list[i].address in history
    requires a == address || Knows(list, a)
    ensures Knows(Record(list, address, certificate, source, now), a)
  {
    UpsertFits(list, history, address, certificate, source, now);
    UpsertKnows(list, address, certificate, source, now, a);
    SortedKnows(Upsert(list, address, certificate, source, now), a);
  }

  lemma UpsertFits(list: seq<Endpoint>, history: seq<SocketAddr>, address: SocketAddr, certificate: int,
                   source: EndpointSource, now: int)
    requires NoDuplicates(Addresses(list)) && |Distinct([address] + history)| <= MAX_ENDPOINTS
    requires forall i :: 0 <= i < |list| ==> list[i].address in history
    ensures |Upsert(list, address, certificate, source, now)| <= MAX_ENDPOINTS
  {
    var next := Upsert(list, address, certificate, source, now);
    UpsertKeepsDistinct(list, address, certificate, source, now);
    forall i | 0 <= i < |Addresses(next)| ensures Addresses(next)[i] in Distinct([address] + history) {
      assert Addresses(next)[i] == next[i].address;
      assert next[i].address == address || (i < |list| && next[i].address == list[i].address);
    }
    DistinctSublistIsShorter(Addresses(next), Distinct([address] + history));
  }

  lemma SortedKnows(next: seq<Endpoint>, a: SocketAddr)
    requires |next| <= MAX_ENDPOINTS && Knows(next, a)
    ensures Knows(FirstN(Sort(MoreRecent, next), MAX_ENDPOINTS), a)
  {
    SortPermutes(MoreRecent, next);
    var sorted := Sort(MoreRecent, next);
    assert |sorted| == |multiset(sorted)| == |next|;
    var k :| 0 <= k < |next| && next[k].address == a;
    assert next[k] in multiset(sorted);
    var m :| 0 <= m < |sorted| && sorted[m] == next[k];
  }

  lemma UpsertKnows(list: seq<Endpoint>, address: SocketAddr, certificate: int, source: EndpointSource, now: int,
                    a: SocketAddr)
    requires a == address || Knows(list, a)
    ensures Knows(Upsert(list, address, certificate, source, now), a)
  {
    var next := Upsert(list, address, certificate, source, now);
    if a == address && !Knows(list, a) {
      assert next[|list|].address == a;
    } else {
      var i := Position(list, a);
      assert next[i].address == a;
    }
  }

  /** An address with a flow label never has a recorded failure. */
  lemma {:induction false} LabelledNeverFails(ops: seq<Op>, peer: DeviceId)
    requires PlainFailures(ops, peer)
    ensures forall e :: e in Kept(ops, peer) && !Plain(e.address) ==> e.retryAfter == 0
  {
    if ops != [] {
      var prefix, op := Before(ops), Last(ops);
      assert forall i :: 0 <= i < |prefix| ==> prefix[i] == ops[i];
      LabelledNeverFails(prefix, peer);
      if op.peer == peer && op.Authenticated? {
        RecordMembers(Kept(prefix, peer), op.address, op.certificate, op.source, op.now);
      }
    }
  }

  /** Two stores agree, exactly: after a run with at most 16 distinct addresses, each
      authenticated within 90 days of the query, an answer of the database lists the same
      endpoints as the in-memory store if and only if none of the addresses
      authenticated since the last `forget` carries a flow label. */
  lemma {:induction false} TwoStoresAgree(peers: set<DeviceId>, ops: seq<Op>, peer: DeviceId, now: nat,
                                          answer: seq<Endpoint>)
    requires peer in peers && Timely(ops, now - MAX_AGE) && PlainFailures(ops, peer)
    requires |Distinct(LatestFirst(ops, peer))| <= MAX_ENDPOINTS
    requires SqlAnswer(Table(peers, ops), peer, now, answer)
    ensures (forall e :: e in answer <==> e in Query(Kept(ops, peer), now)) <==> PlainHistory(ops, peer)
  {
    if PlainHistory(ops, peer) {
      PlainStoresAgree(peers, ops, peer, now, answer);
    } else {
      var a :| a in LatestFirst(ops, peer) && !Plain(a);
      LabelledIsMissed(peers, ops, peer, now, answer, a);
    }
  }

  /** An endpoint with a flow label is in the in-memory answer and in no SQL answer. */
  lemma {:induction false} LabelledIsMissed(peers: set<DeviceId>, ops: seq<Op>, peer: DeviceId, now: nat,
                                            answer: seq<Endpoint>, a: SocketAddr)
    requires PlainFailures(ops, peer) && |Distinct(LatestFirst(ops, peer))| <= MAX_ENDPOINTS
    requires SqlAnswer(Table(peers, ops), peer, now, answer) && a in LatestFirst(ops, peer) && !Plain(a)
    ensures exists e :: e in Query(Kept(ops, peer), now) && e !in answer
  {
    KeptKnowsHistory(ops, peer, a);
    KeptIsTidy(ops, peer);
    LabelledNeverFails(ops, peer);
    QueryKeepsEligible(Kept(ops, peer), now);
    var e := Kept(ops, peer)[Position(Kept(ops, peer), a)];
    assert e in Query(Kept(ops, peer), now);
    if e in answer {
      var i :| 0 <= i < |answer| && answer[i] == e;
      RowsArePlain(peers, ops, RowKey(peer, answer[i].address));
    }
  }

  lemma {:induction false} PlainStoresAgree(peers: set<DeviceId>, ops: seq<Op>, peer: DeviceId, now: nat,
                                            answer: seq<Endpoint>)
    requires peer in peers && Timely(ops, now - MAX_AGE) && PlainFailures(ops, peer) && PlainHistory(ops, peer)
    requires |Distinct(LatestFirst(ops, peer))| <= MAX_ENDPOINTS
    requires SqlAnswer(Table(peers, ops), peer, now, answer)
    ensures forall e :: e in answer <==> e in Query(Kept(ops, peer), now)
  {
    var list, db := Kept(ops, peer), Table(peers, ops);
    StoresStayInStep(peers, ops, peer, now - MAX_AGE);
    QueryKeepsEligible(list, now);
    forall e | e in answer ensures e in list && e.retryAfter <= now {
      var i :| 0 <= i < |answer| && answer[i] == e;
      assert Knows(list, e.address);
    }
    forall e | e in list && e.retryAfter <= now ensures e in answer {
      var i :| 0 <= i < |list| && list[i] == e;
      NothingCrowdedOut(list, db, peer, now, answer, e.address);
      var k :| 0 <= k < |answer| && answer[k].address == e.address;
      assert answer[k] == e;
    }
  }

  /** Two flow labels of one address: two endpoints in memory, one row in the table. */
  lemma FlowLabelsShareRow(peer: DeviceId, ip: nat, port: nat, scopeId: nat, now: int)
    ensures var one, other := V6(ip, port, 1, scopeId), V6(ip, port, 2, scopeId);
            var ops := [Authenticated(peer, one, 0, Inbound, now), Authenticated(peer, other, 0, Inbound, now)];
            && Knows(Kept(ops, peer), one) && Knows(Kept(ops, peer), other)
            && Table({peer}, ops).rows.Keys == {RowKey(peer, V6(ip, port, 0, scopeId))}
  {
    var one, other := V6(ip, port, 1, scopeId), V6(ip, port, 2, scopeId);
    var first, second := Authenticated(peer, one, 0, Inbound, now), Authenticated(peer, other, 0, Inbound, now);
    var ops := [first, second];
    assert Before([first]) == [] && Before(ops) == [first];
    BothKnown(ops, peer, one, other);
    assert Table({peer}, [first]).rows.Keys == {RowKey(peer, AsText(one))};
  }

  lemma BothKnown(ops: seq<Op>, peer: DeviceId, one: SocketAddr, other: SocketAddr)
    requires |ops| == 2 && ops[0].Authenticated? && ops[0].peer == peer && ops[0].address == one
    requires ops[1].Authenticated? && ops[1].peer == peer && ops[1].address == other
    ensures Knows(Kept(ops, peer), one) && Knows(Kept(ops, peer), other)
  {
    assert Before(Before(ops)) == [];
    assert LatestFirst(Before(ops), peer) == [one];
    assert LatestFirst(ops, peer) == [other, one];
    DistinctSublistIsShorter(Distinct(LatestFirst(ops, peer)), LatestFirst(ops, peer));
    KeptKnowsHistory(ops, peer, one);
    KeptKnowsHistory(ops, peer, other);
  }

  /** The in-memory answer is ranked as the SQL one is. */
  lemma QueryIsRanked(list: seq<Endpoint>, now: int)
    ensures Sorted(RankedBefore, Query(list, now))
  {
    RankingIsPreorder();
    SortSorts(RankedBefore, Eligible(list, now));
  }

  /** Two rankings of the same endpoints coincide when no two succeeded at one time. */
  lemma {:induction false} RankingsCoincide(one: seq<Endpoint>, other: seq<Endpoint>)
    requires Sorted(RankedBefore, one) && Sorted(RankedBefore, other)
    requires forall i, j :: 0 <= i < j < |one| ==> one[i].lastSuccess != one[j].lastSuccess
    requires forall i, j :: 0 <= i < j < |other| ==> other[i].lastSuccess != other[j].lastSuccess
    requires forall e :: e in one <==> e in other
    ensures one == other
  {
    assert other != [] ==> other[0] in other;
    if one != [] {
      assert one[0] in other && other[0] in one;
      assert RankedBefore(one[0], other[0]) && RankedBefore(other[0], one[0]);
      assert one[0] == other[0];
      forall e ensures e in one[1..] <==> e in other[1..] {
        assert e in one <==> e == one[0] || e in one[1..];
        assert e in other <==> e == other[0] || e in other[1..];
      }
      RankingsCoincide(one[1..], other[1..]);
      assert one == [one[0]] + one[1..] && other == [other[0]] + other[1..];
    }
  }

  /** Members of an orderly list, listed without repetition, succeeded at distinct times. */
  lemma DistinctTimes(list: seq<Endpoint>, clock: int, part: seq<Endpoint>)
    requires Orderly(list, clock) && NoDuplicates(part) && forall e :: e in part ==> e in list
    ensures forall i, j :: 0 <= i < j < |part| ==> part[i].lastSuccess != part[j].lastSuccess
  {
    forall i, j | 0 <= i < j < |part| ensures part[i].lastSuccess != part[j].lastSuccess {
      assert part[i] in part && part[j] in part;
      var a :| 0 <= a < |list| && list[a] == part[i];
      var b :| 0 <= b < |list| && list[b] == part[j];
      assert a != b;
    }
  }

  lemma {:induction false} EligibleHasNoDuplicates(list: seq<Endpoint>, now: int)
    requires NoDuplicates(list)
    ensures NoDuplicates(Eligible(list, now))
  {
    if list != [] {
      EligibleHasNoDuplicates(Before(list), now);
      assert forall i :: 0 <= i < |list| - 1 ==> Before(list)[i] == list[i];
      assert Last(list) !in Before(list);
    }
  }

  /** With a strictly increasing clock the two stores return the very same list. */
  lemma {:induction false} TwoStoresAgreeInOrder(peers: set<DeviceId>, ops: seq<Op>, peer: DeviceId,
                                                 clock: int, now: nat, answer: seq<Endpoint>)
    requires peer in peers && Timely(ops, now - MAX_AGE) && StrictClock(ops, clock)
    requires PlainFailures(ops, peer) && PlainHistory(ops, peer)
    requires |Distinct(LatestFirst(ops, peer))| <= MAX_ENDPOINTS
    requires SqlAnswer(Table(peers, ops), peer, now, answer)
    ensures answer == Query(Kept(ops, peer), now)
  {
    var list := Kept(ops, peer);
    var mine := Query(list, now);
    TwoStoresAgree(peers, ops, peer, now, answer);
    StoreIsLru(ops, clock, peer);
    QueryKeepsEligible(list, now);
    QueryIsRanked(list, now);
    assert NoDuplicates(mine) by {
      assert NoDuplicates(list);
      EligibleHasNoDuplicates(list, now);
      SortPermutes(RankedBefore, Eligible(list, now));
      SameMultisetSameDuplicates(Eligible(list, now), Sort(RankedBefore, Eligible(list, now)));
    }
    assert NoDuplicates(answer) by {
      assert forall i, j :: 0 <= i < j < |answer| ==> Addresses(answer)[i] != Addresses(answer)[j];
    }
    DistinctTimes(list, clock, mine);
    DistinctTimes(list, clock, answer);
    RankingsCoincide(answer, mine);
  }
}
