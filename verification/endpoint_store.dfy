/** The in-memory store of remembered endpoints: at most 16 per peer, most
    recently authenticated first, with exponential backoff after failures. */
module EndpointStore {
  import opened Types
  import opened Collections
  import opened Ordering
  import opened DialCandidates

  const MAX_ENDPOINTS := 16
  const U32_MAX := 0xffff_ffff
  const I64_MAX := 0x7fff_ffff_ffff_ffff

  datatype EndpointSource = Mdns | Inbound | History | Scan | Manual | Relayed

  /** A remembered endpoint. Its network scope is a function of the address and is
      not repeated here; times are milliseconds. */
  datatype Endpoint = Endpoint(
    address: SocketAddr,
    certificate: int,
    source: EndpointSource,
    firstSeen: int, lastSeen: int, lastSuccess: int,
    failures: nat,
    retryAfter: int)

  function Fresh(address: SocketAddr, certificate: int, source: EndpointSource, now: int): Endpoint {
    Endpoint(address, certificate, source, now, now, now, 0, 0)
  }

  function Refreshed(e: Endpoint, certificate: int, source: EndpointSource, now: int): Endpoint {
    Endpoint(e.address, certificate, source, e.firstSeen, now, now, 0, 0)
  }

  function Power2(n: nat): (p: nat)
    ensures p > 0
  {
    if n == 0 then 1 else 2 * Power2(n - 1)
  }

  function Min(a: int, b: int): int {
    if a <= b then a else b
  }

  function Backoff(failures: nat): nat {
    Power2(if failures <= 8 then failures else 8) * 1_000
  }

  /** One more failure: the counter saturates and so does the retry time. */
  function Failed(e: Endpoint, now: int): Endpoint {
    var failures := if e.failures < U32_MAX then e.failures + 1 else U32_MAX;
    e.(failures := failures, retryAfter := Min(now + Backoff(failures), I64_MAX))
  }

  function Addresses(list: seq<Endpoint>): (r: seq<SocketAddr>)
    ensures |r| == |list|
    ensures forall i :: 0 <= i < |r| ==> r[i] == list[i].address
  {
    seq(|list|, i requires 0 <= i < |list| => list[i].address)
  }

  predicate Knows(list: seq<Endpoint>, address: SocketAddr) {
    exists i :: 0 <= i < |list| && list[i].address == address
  }

  /** The first position with this address. */
  function Position(list: seq<Endpoint>, address: SocketAddr): (i: nat)
    requires Knows(list, address)
    ensures i < |list| && list[i].address == address && !Knows(list[..i], address)
  {
    if list[0].address == address then 0
    else
      var k :| 0 <= k < |list| && list[k].address == address;
      assert list[1..][k - 1].address == address;
      var i := Position(list[1..], address);
      assert list[..i + 1] == [list[0]] + list[1..][..i];
      i + 1
  }

  /** At least as recently authenticated. `Sort` with it is the stable sort by
      descending time of success. */
  predicate MoreRecent(a: Endpoint, b: Endpoint) {
    a.lastSuccess >= b.lastSuccess
  }

  function Upsert(list: seq<Endpoint>, address: SocketAddr, certificate: int, source: EndpointSource,
                  now: int): seq<Endpoint> {
    if Knows(list, address)
    then
      var i := Position(list, address);
      list[i := Refreshed(list[i], certificate, source, now)]
    else list + [Fresh(address, certificate, source, now)]
  }

  function Record(list: seq<Endpoint>, address: SocketAddr, certificate: int, source: EndpointSource,
                  now: int): seq<Endpoint> {
    FirstN(Sort(MoreRecent, Upsert(list, address, certificate, source, now)), MAX_ENDPOINTS)
  }

  function RecordFailure(list: seq<Endpoint>, address: SocketAddr, now: int): seq<Endpoint> {
    if Knows(list, address)
    then
      var i := Position(list, address);
      list[i := Failed(list[i], now)]
    else list
  }

  function Eligible(list: seq<Endpoint>, now: int): (r: seq<Endpoint>)
    ensures |r| <= |list|
    ensures forall e :: e in r <==> e in list && e.retryAfter <= now
  {
    if list == [] then []
    else
      var rest := Eligible(Before(list), now);
      assert list == Before(list) + [Last(list)];
      if Last(list).retryAfter <= now then rest + [Last(list)] else rest
  }

  predicate RankedBefore(a: Endpoint, b: Endpoint) {
    a.lastSuccess > b.lastSuccess || (a.lastSuccess == b.lastSuccess && a.lastSeen >= b.lastSeen)
  }

  function Query(list: seq<Endpoint>, now: int): seq<Endpoint> {
    FirstN(Sort(RankedBefore, Eligible(list, now)), MAX_ENDPOINTS)
  }

  lemma RankingIsPreorder()
    ensures TotalPreorder(RankedBefore)
  {
  }

  lemma {:induction false} EligibleIsPart(list: seq<Endpoint>, now: int)
    ensures multiset(Eligible(list, now)) <= multiset(list)
  {
    if list != [] {
      EligibleIsPart(Before(list), now);
      assert list == Before(list) + [Last(list)];
    }
  }

  /** The answer lists stored endpoints whose retry time has come, best first, and leaves
      such an endpoint out only behind sixteen that rank no lower. */
  lemma QueryIsBest(list: seq<Endpoint>, now: int)
    ensures var answer := Query(list, now);
            && |answer| <= MAX_ENDPOINTS && Sorted(RankedBefore, answer) && multiset(answer) <= multiset(list)
            && (forall e :: e in answer ==> e.retryAfter <= now)
            && (forall e :: e in list && e.retryAfter <= now && e !in answer ==>
                  |answer| == MAX_ENDPOINTS && forall i :: 0 <= i < |answer| ==> RankedBefore(answer[i], e))
  {
    var eligible := Eligible(list, now);
    var sorted := Sort(RankedBefore, eligible);
    RankingIsPreorder();
    SortSorts(RankedBefore, eligible);
    EligibleIsPart(list, now);
    forall e ensures e in sorted <==> e in eligible {
      assert e in multiset(sorted) <==> e in multiset(eligible);
    }
    FirstIsBest(sorted);
  }

  /** The first sixteen of a ranked list are part of it, and what they leave out ranks no
      higher than any of them. */
  lemma FirstIsBest(sorted: seq<Endpoint>)
    requires Sorted(RankedBefore, sorted)
    ensures var answer := FirstN(sorted, MAX_ENDPOINTS);
            && Sorted(RankedBefore, answer) && multiset(answer) <= multiset(sorted)
            && (forall e :: e in answer ==> e in sorted)
            && (forall e :: e in sorted && e !in answer ==>
                  |answer| == MAX_ENDPOINTS && forall i :: 0 <= i < |answer| ==> RankedBefore(answer[i], e))
  {
    var answer := FirstN(sorted, MAX_ENDPOINTS);
    assert sorted == answer + sorted[|answer|..];
    assert forall k :: 0 <= k < |answer| ==> answer[k] == sorted[k];
    forall e | e in sorted && e !in answer
      ensures |answer| == MAX_ENDPOINTS && forall i :: 0 <= i < |answer| ==> RankedBefore(answer[i], e)
    {
      var k :| 0 <= k < |sorted| && sorted[k] == e;
      assert k >= |answer|;
    }
  }

  class InMemoryEndpointRepository {
    var endpoints: map<DeviceId, seq<Endpoint>>

    constructor ()
      ensures endpoints == map[]
    {
      endpoints := map[];
    }

    function ListOf(peer: DeviceId): seq<Endpoint>
      reads this
    {
      if peer in endpoints then endpoints[peer] else []
    }

    method Endpoints(peer: DeviceId, now: int) returns (answer: seq<Endpoint>)
      ensures answer == Query(ListOf(peer), now)
      ensures |answer| <= 16
      ensures forall i, j :: 0 <= i < j < |answer| ==>
                || answer[i].lastSuccess > answer[j].lastSuccess
                || (answer[i].lastSuccess == answer[j].lastSuccess && answer[i].lastSeen >= answer[j].lastSeen)
      ensures multiset(answer) <= multiset(ListOf(peer))
      ensures forall e :: e in answer ==> e.retryAfter <= now
      ensures forall e :: e in ListOf(peer) && e.retryAfter <= now && e !in answer ==>
                |answer| == 16 && forall i :: 0 <= i < |answer| ==> RankedBefore(answer[i], e)
    {
      QueryIsBest(ListOf(peer), now);
      answer := Eligible(ListOf(peer), now);
      answer := Sort(RankedBefore, answer);
      answer := FirstN(answer, MAX_ENDPOINTS);
    }

    method RecordAuthenticated(peer: DeviceId, address: SocketAddr, certificate: int, source: EndpointSource, now: int)
      modifies this
      ensures endpoints == old(endpoints)[peer := Record(old(ListOf(peer)), address, certificate, source, now)]
    {
      var list := ListOf(peer);
      var found := Find(list, address);
      if found.Some? {
        list := list[found.value := Refreshed(list[found.value], certificate, source, now)];
      } else {
        list := list + [Fresh(address, certificate, source, now)];
      }
      list := Sort(MoreRecent, list);
      list := FirstN(list, MAX_ENDPOINTS);
      endpoints := endpoints[peer := list];
    }

    method RecordFailureAt(peer: DeviceId, address: SocketAddr, now: int)
      modifies this
      ensures endpoints.Keys == old(endpoints).Keys
      ensures forall p :: p in endpoints ==>
                endpoints[p] == if p == peer then RecordFailure(old(endpoints)[p], address, now) else old(endpoints)[p]
    {
      if peer in endpoints {
        var list := endpoints[peer];
        var found := Find(list, address);
        if found.Some? {
          endpoints := endpoints[peer := list[found.value := Failed(list[found.value], now)]];
        }
      }
    }

    method Forget(peer: DeviceId)
      modifies this
      ensures endpoints == old(endpoints) - {peer}
    {
      endpoints := endpoints - {peer};
    }
  }

  method Find(list: seq<Endpoint>, address: SocketAddr) returns (found: Option<nat>)
    ensures found.Some? <==> Knows(list, address)
    ensures found.Some? ==> found.value == Position(list, address)
  {
    for i := 0 to |list|
      invariant !Knows(list[..i], address)
    {
      if list[i].address == address {
        PositionIs(list, address, i);
        return Some(i);
      }
    }
    assert list[..|list|] == list;
    return None;
  }

  lemma PositionIs(list: seq<Endpoint>, address: SocketAddr, i: nat)
    requires i < |list| && list[i].address == address && !Knows(list[..i], address)
    ensures Knows(list, address) && Position(list, address) == i
  {
    var k := Position(list, address);
  }

  // ---- Sorting one changed element into a sorted list ----

  ghost predicate Descending(list: seq<Endpoint>) {
    forall i, j :: 0 <= i < j < |list| ==> list[i].lastSuccess >= list[j].lastSuccess
  }

  lemma SortOfCons(x: Endpoint, rest: seq<Endpoint>)
    ensures Sort(MoreRecent, [x] + rest) == Insert(MoreRecent, x, Sort(MoreRecent, rest))
  {
    assert ([x] + rest)[1..] == rest;
  }

  /** Inserting an element that is older than the head and no older than the rest. */
  lemma InsertSecond(x: Endpoint, e: Endpoint, rest: seq<Endpoint>)
    requires !MoreRecent(x, e) && (rest == [] || MoreRecent(x, rest[0]))
    ensures Insert(MoreRecent, x, [e] + rest) == [e] + ([x] + rest)
  {
    assert ([e] + rest)[1..] == rest;
  }

  lemma {:induction false} SortOfDescending(list: seq<Endpoint>)
    requires Descending(list)
    ensures Sort(MoreRecent, list) == list
  {
    if list != [] {
      SortOfDescending(list[1..]);
      assert list == [list[0]] + list[1..];
    }
  }

  /** A pushed element lands after every element at least as recent. */
  lemma {:induction false} SortOfPush(list: seq<Endpoint>, e: Endpoint) returns (k: nat)
    requires Descending(list)
    ensures k <= |list| && Sort(MoreRecent, list + [e]) == list[..k] + ([e] + list[k..])
    ensures forall i :: 0 <= i < |list| ==> (i < k <==> list[i].lastSuccess >= e.lastSuccess)
  {
    if list == [] {
      k := 0;
      assert [] + [e] == [e] + [];
      SortOfCons(e, []);
    } else {
      var x, rest := list[0], list[1..];
      assert list == [x] + rest && list + [e] == [x] + (rest + [e]);
      SortOfCons(x, rest + [e]);
      var m := SortOfPush(rest, e);
      if x.lastSuccess >= e.lastSuccess {
        k := m + 1;
        PushBehind(x, rest, e, m);
      } else {
        k := 0;
        assert |rest| > 0 ==> (0 < m <==> rest[0].lastSuccess >= e.lastSuccess);
        PushAhead(x, rest, e);
      }
    }
  }

  lemma PushAhead(x: Endpoint, rest: seq<Endpoint>, e: Endpoint)
    requires !MoreRecent(x, e) && (rest == [] || MoreRecent(x, rest[0]))
    ensures var list := [x] + rest;
            Insert(MoreRecent, x, rest[..0] + ([e] + rest[0..])) == list[..0] + ([e] + list[0..])
  {
    assert rest[..0] + ([e] + rest[0..]) == [e] + rest;
    assert ([x] + rest)[..0] + ([e] + ([x] + rest)[0..]) == [e] + ([x] + rest);
    InsertSecond(x, e, rest);
  }

  lemma PushBehind(x: Endpoint, rest: seq<Endpoint>, e: Endpoint, m: nat)
    requires m <= |rest| && MoreRecent(x, e) && (rest != [] ==> MoreRecent(x, rest[0]))
    ensures var list := [x] + rest;
            Insert(MoreRecent, x, rest[..m] + ([e] + rest[m..])) == list[..m + 1] + ([e] + list[m + 1..])
  {
    var list, sorted := [x] + rest, rest[..m] + ([e] + rest[m..]);
    assert MoreRecent(x, sorted[0]);
    assert list[..m + 1] == [x] + rest[..m];
    assert [x] + sorted == list[..m + 1] + ([e] + list[m + 1..]);
  }

  /** Putting an older element before a list that a newer one leads. */
  lemma SortPastOlder(x: Endpoint, items: seq<Endpoint>, e: Endpoint, others: seq<Endpoint>)
    requires Sort(MoreRecent, items) == [e] + others
    requires !MoreRecent(x, e) && (others == [] || MoreRecent(x, others[0]))
    ensures Sort(MoreRecent, [x] + items) == [e] + ([x] + others)
  {
    SortOfCons(x, items);
    InsertSecond(x, e, others);
  }

  /** Older than `now`, latest first. */
  ghost predicate OlderThan(list: seq<Endpoint>, now: int) {
    Descending(list) && forall k :: 0 <= k < |list| ==> list[k].lastSuccess < now
  }

  /** Adding an element in front of an older list. */
  lemma SortInFront(e: Endpoint, back: seq<Endpoint>)
    requires OlderThan(back, e.lastSuccess)
    ensures Sort(MoreRecent, [e] + back) == [e] + back
  {
    SortOfDescending(back);
    SortOfCons(e, back);
  }

  /** A refreshed element moves to the front past everything older. */
  lemma {:induction false} SortOfUpdate(front: seq<Endpoint>, e: Endpoint, back: seq<Endpoint>, others: seq<Endpoint>)
    requires others == front + back && OlderThan(others, e.lastSuccess)
    ensures Sort(MoreRecent, front + ([e] + back)) == [e] + others
  {
    if front == [] {
      assert others == back && front + ([e] + back) == [e] + back;
      SortInFront(e, back);
    } else {
      var x, rest := front[0], front[1..];
      SplitFront(front, e, back, others);
      SortOfUpdate(rest, e, back, others[1..]);
      assert |others| > 1 ==> MoreRecent(others[0], others[1]);
      SortPastOlder(x, rest + ([e] + back), e, others[1..]);
    }
  }

  lemma SplitFront(front: seq<Endpoint>, e: Endpoint, back: seq<Endpoint>, others: seq<Endpoint>)
    requires front != [] && others == front + back
    ensures front + ([e] + back) == [front[0]] + (front[1..] + ([e] + back))
    ensures others[0] == front[0] && others == [front[0]] + others[1..] && others[1..] == front[1..] + back
  {
  }

  // ---- Least recently used eviction ----

  function Without<T(==)>(items: seq<T>, x: T): seq<T> {
    if items == [] then []
    else if items[0] == x then Without(items[1..], x)
    else [items[0]] + Without(items[1..], x)
  }

  lemma {:induction false} WithoutAbsent<T>(items: seq<T>, x: T)
    requires x !in items
    ensures Without(items, x) == items
  {
    if items != [] {
      WithoutAbsent(items[1..], x);
      assert items == [items[0]] + items[1..];
    }
  }

  lemma {:induction false} WithoutAt<T>(items: seq<T>, i: nat)
    requires i < |items| && NoDuplicates(items)
    ensures Without(items, items[i]) == items[..i] + items[i + 1..]
  {
    var x, rest := items[i], items[1..];
    if i == 0 {
      WithoutAbsent(rest, x);
    } else {
      WithoutAt(rest, i - 1);
      assert items[..i] == [items[0]] + rest[..i - 1] && items[i + 1..] == rest[i..];
    }
  }

  /** What the store keeps between operations under a strictly increasing clock. */
  ghost predicate Orderly(list: seq<Endpoint>, clock: int) {
    && |list| <= MAX_ENDPOINTS
    && NoDuplicates(Addresses(list))
    && (forall i, j :: 0 <= i < j < |list| ==> list[i].lastSuccess > list[j].lastSuccess)
    && (forall i :: 0 <= i < |list| ==> list[i].lastSuccess <= clock)
  }

  /** Refreshing the element at `i` sorts it to the front and leaves the others in order. */
  lemma SortedRefresh(list: seq<Endpoint>, clock: int, i: nat, e: Endpoint)
    requires Orderly(list, clock) && i < |list| && clock < e.lastSuccess
    ensures Sort(MoreRecent, list[i := e]) == [e] + (list[..i] + list[i + 1..])
  {
    RemovalKeepsOrderly(list, clock, i);
    SortOfUpdate(list[..i], e, list[i + 1..], list[..i] + list[i + 1..]);
    assert list[i := e] == list[..i] + ([e] + list[i + 1..]);
  }

  lemma AddressesOfRemoval(list: seq<Endpoint>, i: nat)
    requires i < |list| && NoDuplicates(Addresses(list))
    ensures Addresses(list[..i] + list[i + 1..]) == Without(Addresses(list), list[i].address)
  {
    WithoutAt(Addresses(list), i);
    assert Addresses(list[..i] + list[i + 1..]) == Addresses(list)[..i] + Addresses(list)[i + 1..];
  }

  /** A fresh element newer than all others sorts to the front. */
  lemma SortedPush(list: seq<Endpoint>, clock: int, e: Endpoint)
    requires Orderly(list, clock) && clock < e.lastSuccess
    ensures Sort(MoreRecent, list + [e]) == [e] + list
  {
    var k := SortOfPush(list, e);
    assert k == 0;
    assert list[..0] + ([e] + list[0..]) == [e] + list;
  }

  /** The sorted list before truncation: the authenticated address leads. */
  lemma SortedUpsert(list: seq<Endpoint>, clock: int,
                     address: SocketAddr, certificate: int, source: EndpointSource, now: int)
    returns (e: Endpoint, others: seq<Endpoint>)
    requires Orderly(list, clock) && clock < now
    ensures Sort(MoreRecent, Upsert(list, address, certificate, source, now)) == [e] + others
    ensures e.address == address && e.lastSuccess == now && Orderly(others, clock)
    ensures Addresses(others) == Without(Addresses(list), address) && address !in Addresses(others)
  {
    MemberOfWithout(Addresses(list), address, address);
    if Knows(list, address) {
      var i := Position(list, address);
      e, others := Refreshed(list[i], certificate, source, now), list[..i] + list[i + 1..];
      RemovalKeepsOrderly(list, clock, i);
      SortedRefresh(list, clock, i, e);
      AddressesOfRemoval(list, i);
    } else {
      e, others := Fresh(address, certificate, source, now), list;
      SortedPush(list, clock, e);
      WithoutAbsent(Addresses(list), address);
    }
  }

  lemma RemovalKeepsOrderly(list: seq<Endpoint>, clock: int, i: nat)
    requires Orderly(list, clock) && i < |list|
    ensures Orderly(list[..i] + list[i + 1..], clock)
  {
    var others := list[..i] + list[i + 1..];
    assert forall k :: 0 <= k < |others| ==> others[k] == if k < i then list[k] else list[k + 1];
    assert forall k :: 0 <= k < |list| ==> Addresses(list)[k] == list[k].address;
  }

  lemma RecordMovesToFront(list: seq<Endpoint>, clock: int, address: SocketAddr, certificate: int,
                           source: EndpointSource, now: int)
    requires Orderly(list, clock) && clock < now
    ensures Orderly(Record(list, address, certificate, source, now), now)
    ensures Addresses(Record(list, address, certificate, source, now))
            == FirstN([address] + Without(Addresses(list), address), MAX_ENDPOINTS)
  {
    var e, others := SortedUpsert(list, clock, address, certificate, source, now);
    LeadKeepsOrderly(e, others, clock, now);
  }

  lemma LeadKeepsOrderly(e: Endpoint, others: seq<Endpoint>, clock: int, now: int)
    requires Orderly(others, clock) && e.lastSuccess == now && clock < now && e.address !in Addresses(others)
    ensures Orderly(FirstN([e] + others, MAX_ENDPOINTS), now)
    ensures Addresses(FirstN([e] + others, MAX_ENDPOINTS)) == FirstN([e.address] + Addresses(others), MAX_ENDPOINTS)
  {
    var kept := FirstN([e] + others, MAX_ENDPOINTS);
    assert forall k :: 0 <= k < |kept| ==> kept[k] == if k == 0 then e else others[k - 1];
    assert forall k :: 0 <= k < |others| ==> Addresses(others)[k] == others[k].address;
  }

  lemma FailureKeepsOrderly(list: seq<Endpoint>, clock: int, address: SocketAddr, now: int)
    requires Orderly(list, clock)
    ensures Orderly(RecordFailure(list, address, now), clock)
    ensures Addresses(RecordFailure(list, address, now)) == Addresses(list)
  {
    assert Addresses(RecordFailure(list, address, now)) == Addresses(list);
  }

  datatype Op =
    | Authenticated(peer: DeviceId, address: SocketAddr, certificate: int, source: EndpointSource, now: int)
    | DialFailed(peer: DeviceId, address: SocketAddr, now: int)
    | Forgotten(peer: DeviceId)

  /** The list kept for `peer` after a run. */
  function Kept(ops: seq<Op>, peer: DeviceId): seq<Endpoint> {
    if ops == [] then []
    else
      var list := Kept(Before(ops), peer);
      match Last(ops)
      case Authenticated(p, address, certificate, source, now) =>
        if p == peer then Record(list, address, certificate, source, now) else list
      case DialFailed(p, address, now) => if p == peer then RecordFailure(list, address, now) else list
      case Forgotten(p) => if p == peer then [] else list
  }

  /** The addresses authenticated for `peer` since it was last forgotten, latest first. */
  function LatestFirst(ops: seq<Op>, peer: DeviceId): seq<SocketAddr> {
    if ops == [] then []
    else
      var earlier := LatestFirst(Before(ops), peer);
      match Last(ops)
      case Authenticated(p, address, _, _, _) => if p == peer then [address] + earlier else earlier
      case DialFailed(_, _, _) => earlier
      case Forgotten(p) => if p == peer then [] else earlier
  }

  /** Times of authentication strictly increase and lie at or before `clock`. */
  ghost predicate StrictClock(ops: seq<Op>, clock: int) {
    ops == [] || (match Last(ops)
                  case Authenticated(_, _, _, _, now) => now <= clock && StrictClock(Before(ops), now - 1)
                  case _ => StrictClock(Before(ops), clock))
  }

  lemma {:induction false} DistinctOfCons<T(!new)>(x: T, items: seq<T>)
    ensures Distinct([x] + items) == [x] + Without(Distinct(items), x)
  {
    if items == [] {
      assert Before([x]) == [];
    } else {
      var prefix, y := Before(items), Last(items);
      DistinctOfCons(x, prefix);
      assert Before([x] + items) == [x] + prefix;
      if y !in Distinct(prefix) {
        WithoutOfPush(Distinct(prefix), y, x);
      }
      MemberOfWithout(Distinct(prefix), x, y);
    }
  }

  lemma {:induction false} WithoutOfPush<T>(items: seq<T>, y: T, x: T)
    ensures Without(items + [y], x) == Without(items, x) + (if y == x then [] else [y])
  {
    if items == [] {
      assert [y][1..] == [];
    } else {
      WithoutOfPush(items[1..], y, x);
      assert (items + [y])[1..] == items[1..] + [y];
    }
  }

  lemma {:induction false} MemberOfWithout<T>(items: seq<T>, x: T, y: T)
    ensures y in Without(items, x) <==> y in items && y != x
  {
    if items != [] {
      MemberOfWithout(items[1..], x, y);
    }
  }

  lemma SamePrefix<T>(x: T, short: seq<T>, long: seq<T>, n: nat)
    requires n > 0 && |short| >= n - 1 && short <= long
    ensures FirstN([x] + short, n) == FirstN([x] + long, n)
  {
  }

  lemma {:induction false} WithoutOfPrefix<T>(items: seq<T>, x: T, n: nat)
    requires n <= |items|
    ensures Without(items[..n], x) <= Without(items, x)
  {
    if n > 0 {
      assert items[..n][1..] == items[1..][..n - 1];
      WithoutOfPrefix(items[1..], x, n - 1);
    }
  }

  lemma {:induction false} WithoutLosesOne<T>(items: seq<T>, x: T)
    requires NoDuplicates(items)
    ensures |Without(items, x)| >= |items| - 1
  {
    if items != [] {
      if items[0] == x {
        WithoutAbsent(items[1..], x);
      } else {
        WithoutLosesOne(items[1..], x);
      }
    }
  }

  /** Truncating before or after removing an element gives the same first `n`. */
  lemma TruncateThenRemove<T>(items: seq<T>, x: T, n: nat)
    requires NoDuplicates(items) && n > 0
    ensures FirstN([x] + Without(FirstN(items, n), x), n) == FirstN([x] + Without(items, x), n)
  {
    if |items| > n {
      WithoutOfPrefix(items, x, n);
      WithoutLosesOne(items[..n], x);
      SamePrefix(x, Without(items[..n], x), Without(items, x), n);
    }
  }

  /** LRU refinement: under a strictly increasing clock, after any run the store holds
      for each peer exactly the 16 most recently authenticated distinct addresses
      since the peer was last forgotten, most recent first. */
  lemma {:induction false} StoreIsLru(ops: seq<Op>, clock: int, peer: DeviceId)
    requires StrictClock(ops, clock)
    ensures Addresses(Kept(ops, peer)) == FirstN(Distinct(LatestFirst(ops, peer)), 16)
    ensures Orderly(Kept(ops, peer), clock)
  {
    if ops != [] {
      var prefix := Before(ops);
      match Last(ops)
      case Authenticated(p, address, certificate, source, now) =>
        StoreIsLru(prefix, now - 1, peer);
        if p == peer {
          RecordMovesToFront(Kept(prefix, peer), now - 1, address, certificate, source, now);
          DistinctOfCons(address, LatestFirst(prefix, peer));
          TruncateThenRemove(Distinct(LatestFirst(prefix, peer)), address, MAX_ENDPOINTS);
        }
      case DialFailed(p, address, now) =>
        StoreIsLru(prefix, clock, peer);
        if p == peer {
          FailureKeepsOrderly(Kept(prefix, peer), clock, address, now);
        }
      case Forgotten(p) =>
        StoreIsLru(prefix, clock, peer);
    }
  }

  // ---- Any clock ----

  ghost predicate Tidy(list: seq<Endpoint>) {
    Descending(list) && |list| <= MAX_ENDPOINTS && NoDuplicates(Addresses(list))
  }

  lemma {:induction false} KeptOfPush(ops: seq<Op>, op: Op, peer: DeviceId)
    ensures var list := Kept(ops, peer);
            Kept(ops + [op], peer)
            == if op.peer != peer then list
               else match op
                    case Authenticated(_, address, certificate, source, now) =>
                      Record(list, address, certificate, source, now)
                    case DialFailed(_, address, now) => RecordFailure(list, address, now)
                    case Forgotten(_) => []
  {
    assert Before(ops + [op]) == ops;
  }

  lemma UpsertKeepsDistinct(list: seq<Endpoint>, address: SocketAddr, certificate: int, source: EndpointSource,
                            now: int)
    requires NoDuplicates(Addresses(list))
    ensures NoDuplicates(Addresses(Upsert(list, address, certificate, source, now)))
  {
    var next := Upsert(list, address, certificate, source, now);
    if Knows(list, address) {
      assert Addresses(next) == Addresses(list);
    } else {
      assert Addresses(next) == Addresses(list) + [address];
    }
  }

  lemma AddressesStayDistinct(list: seq<Endpoint>, other: seq<Endpoint>)
    requires multiset(other) == multiset(list) && NoDuplicates(Addresses(list))
    ensures NoDuplicates(Addresses(other))
  {
    assert forall i, j :: 0 <= i < j < |list| ==> Addresses(list)[i] != Addresses(list)[j];
    SameMultisetSameDuplicates(list, other);
    forall i, j | 0 <= i < j < |other| ensures Addresses(other)[i] != Addresses(other)[j] {
      assert other[i] in multiset(list) && other[j] in multiset(list);
      var a :| 0 <= a < |list| && list[a] == other[i];
      var b :| 0 <= b < |list| && list[b] == other[j];
      assert a != b;
      assert Addresses(list)[a] != Addresses(list)[b];
    }
  }

  lemma RecencyIsPreorder()
    ensures TotalPreorder(MoreRecent)
  {
  }

  lemma RecordIsTidy(list: seq<Endpoint>, address: SocketAddr, certificate: int, source: EndpointSource, now: int)
    requires NoDuplicates(Addresses(list))
    ensures Tidy(Record(list, address, certificate, source, now))
  {
    var next := Upsert(list, address, certificate, source, now);
    var sorted := Sort(MoreRecent, next);
    RecencyIsPreorder();
    SortSorts(MoreRecent, next);
    UpsertKeepsDistinct(list, address, certificate, source, now);
    AddressesStayDistinct(next, sorted);
    FirstIsTidy(sorted);
  }

  lemma FirstIsTidy(sorted: seq<Endpoint>)
    requires Sorted(MoreRecent, sorted) && NoDuplicates(Addresses(sorted))
    ensures Tidy(FirstN(sorted, MAX_ENDPOINTS))
  {
    var kept := FirstN(sorted, MAX_ENDPOINTS);
    assert forall k :: 0 <= k < |kept| ==> kept[k] == sorted[k];
    assert forall k :: 0 <= k < |sorted| ==> Addresses(sorted)[k] == sorted[k].address;
  }

  /** Whatever the clock does, every run leaves at most 16 endpoints with distinct
      addresses, latest success first. */
  lemma {:induction false} KeptIsTidy(ops: seq<Op>, peer: DeviceId)
    ensures Tidy(Kept(ops, peer))
  {
    if ops != [] {
      KeptIsTidy(Before(ops), peer);
      var list := Kept(Before(ops), peer);
      match Last(ops)
      case Authenticated(p, address, certificate, source, now) =>
        RecordIsTidy(list, address, certificate, source, now);
      case DialFailed(p, address, now) =>
        assert Addresses(RecordFailure(list, address, now)) == Addresses(list);
      case Forgotten(p) =>
    }
  }

  /** The newest endpoint can be lost when the clock ties or steps back: after any run, a
      new address survives its own recording exactly when fewer than 16 endpoints are kept
      or the last of them was authenticated strictly earlier. */
  lemma {:induction false} NewcomerIsKept(ops: seq<Op>, peer: DeviceId, address: SocketAddr, certificate: int,
                                          source: EndpointSource, now: int)
    requires !Knows(Kept(ops, peer), address)
    ensures Knows(Kept(ops + [Authenticated(peer, address, certificate, source, now)], peer), address)
            <==> |Kept(ops, peer)| < MAX_ENDPOINTS || Last(Kept(ops, peer)).lastSuccess < now
  {
    KeptOfPush(ops, Authenticated(peer, address, certificate, source, now), peer);
    KeptIsTidy(ops, peer);
    var list, e := Kept(ops, peer), Fresh(address, certificate, source, now);
    var k := SortOfPush(list, e);
    NewcomerAt(list, e, k);
  }

  lemma NewcomerAt(list: seq<Endpoint>, e: Endpoint, k: nat)
    requires |list| <= MAX_ENDPOINTS && k <= |list| && !Knows(list, e.address)
    requires forall i :: 0 <= i < |list| ==> (i < k <==> list[i].lastSuccess >= e.lastSuccess)
    ensures Knows(FirstN(list[..k] + ([e] + list[k..]), MAX_ENDPOINTS), e.address)
            <==> |list| < MAX_ENDPOINTS || Last(list).lastSuccess < e.lastSuccess
  {
    var kept := FirstN(list[..k] + ([e] + list[k..]), MAX_ENDPOINTS);
    if k < MAX_ENDPOINTS {
      assert kept[k] == e;
    } else {
      assert kept == list;
    }
  }

  /** `n` different addresses authenticated in the same millisecond. */
  function Burst(peer: DeviceId, at: int, n: nat): seq<Op> {
    if n == 0 then [] else Burst(peer, at, n - 1) + [Authenticated(peer, V4(n - 1, 443), 0, Manual, at)]
  }

  ghost predicate FilledBy(list: seq<Endpoint>, n: nat, at: int) {
    |list| == n && forall i :: 0 <= i < n ==> list[i].address == V4(i, 443) && list[i].lastSuccess == at
  }

  lemma {:induction false} BurstFillsStore(peer: DeviceId, at: int, n: nat)
    requires n <= MAX_ENDPOINTS
    ensures FilledBy(Kept(Burst(peer, at, n), peer), n, at)
  {
    if n > 0 {
      BurstFillsStore(peer, at, n - 1);
      KeptOfPush(Burst(peer, at, n - 1), Authenticated(peer, V4(n - 1, 443), 0, Manual, at), peer);
      FillNext(Kept(Burst(peer, at, n - 1), peer), n - 1, at);
    }
  }

  lemma FillNext(list: seq<Endpoint>, n: nat, at: int)
    requires FilledBy(list, n, at) && n < MAX_ENDPOINTS
    ensures FilledBy(Record(list, V4(n, 443), 0, Manual, at), n + 1, at)
  {
    RecordAtSameTime(list, V4(n, 443), at);
  }

  /** A new address authenticated at the time of all others goes to the end. */
  lemma RecordAtSameTime(list: seq<Endpoint>, address: SocketAddr, at: int)
    requires |list| < MAX_ENDPOINTS && !Knows(list, address)
    requires forall i :: 0 <= i < |list| ==> list[i].lastSuccess == at
    ensures Record(list, address, 0, Manual, at) == list + [Fresh(address, 0, Manual, at)]
  {
    SortOfDescending(list + [Fresh(address, 0, Manual, at)]);
  }

  /** A run of seventeen authentications whose last one is not remembered. */
  lemma TieLosesNewcomer(peer: DeviceId, at: int, now: int)
    requires now <= at
    ensures var ops := Burst(peer, at, 16) + [Authenticated(peer, V4(16, 443), 0, Manual, now)];
            |ops| == 17 && !Knows(Kept(ops, peer), V4(16, 443))
  {
    BurstFillsStore(peer, at, 16);
    BurstLength(peer, at, 16);
    NewcomerIsKept(Burst(peer, at, 16), peer, V4(16, 443), 0, Manual, now);
  }

  lemma {:induction false} BurstLength(peer: DeviceId, at: int, n: nat)
    ensures |Burst(peer, at, n)| == n
  {
    if n > 0 {
      BurstLength(peer, at, n - 1);
    }
  }
}
