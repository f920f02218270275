/** The discovery registry: advertisements learned over mDNS and over authenticated
    sessions, merged per device and published as one list. */
module Discovery {
  import opened Types
  import opened Collections
  import opened Ordering

  /** Addresses, names, keys and certificates are numbers: only their equality and,
      for addresses and names, their order matter. `details` stands for platform and model. */
  datatype Advertisement = Advertisement(
    deviceId: DeviceId,
    name: int, details: int,
    publicKey: int,
    addresses: seq<int>,
    connectionAddresses: seq<int>,
    port: nat,
    certificate: int,
    lastSeen: int)

  type Peers = map<DeviceId, Advertisement>

  predicate AtMost(a: int, b: int) {
    a <= b
  }

  lemma AtMostIsTotal()
    ensures TotalOrder(AtMost)
  {
  }

  /** Everything but the addresses and the time. */
  predicate SameScalars(a: Advertisement, b: Advertisement) {
    a.name == b.name && a.details == b.details && a.publicKey == b.publicKey && a.port == b.port
      && a.certificate == b.certificate
  }

  predicate SameRoute(a: Advertisement, b: Advertisement) {
    a.deviceId == b.deviceId && SameScalars(a, b) && a.addresses == b.addresses
      && a.connectionAddresses == b.connectionAddresses
  }

  /** `merge_advertisement`: the later advertisement supplies the scalar fields, and
      both address lists are extended, sorted and deduplicated. */
  function MergeAdvertisement(target: Advertisement, newer: Advertisement): Advertisement {
    var winner := if newer.lastSeen >= target.lastSeen then newer else target;
    winner.(deviceId := target.deviceId,
            addresses := SortDedup(AtMost, target.addresses + newer.addresses),
            connectionAddresses := SortDedup(AtMost, target.connectionAddresses + newer.connectionAddresses))
  }

  function Observe(peers: Peers, ad: Advertisement): Peers {
    peers[ad.deviceId := if ad.deviceId in peers then MergeAdvertisement(peers[ad.deviceId], ad) else ad]
  }

  /** Whether an observation is reported as a change. */
  predicate Changes(peers: Peers, ad: Advertisement) {
    ad.deviceId !in peers || !SameRoute(peers[ad.deviceId], MergeAdvertisement(peers[ad.deviceId], ad))
  }

  // ---- Merging ----

  ghost predicate Tidy(ad: Advertisement) {
    StrictlySorted(AtMost, ad.addresses) && StrictlySorted(AtMost, ad.connectionAddresses)
  }

  lemma MergedLists(a: seq<int>, b: seq<int>)
    ensures StrictlySorted(AtMost, SortDedup(AtMost, a + b))
    ensures forall x :: x in SortDedup(AtMost, a + b) <==> x in a || x in b
    ensures SortDedup(AtMost, a + b) == a <==> StrictlySorted(AtMost, a) && forall x :: x in b ==> x in a
  {
    AtMostIsTotal();
    SortDedupSpec(AtMost, a + b);
    if StrictlySorted(AtMost, a) && forall x :: x in b ==> x in a {
      StrictlySortedUnique(AtMost, SortDedup(AtMost, a + b), a);
    }
  }

  /** Folds any further advertisements of a device into the first one. */
  function MergeAll(ads: seq<Advertisement>): Advertisement
    requires ads != []
  {
    if |ads| == 1 then ads[0] else MergeAdvertisement(MergeAll(Before(ads)), Last(ads))
  }

  /** The address lists alone, folded the same way. */
  function MergeLists(lists: seq<seq<int>>): seq<int>
    requires lists != []
  {
    if |lists| == 1 then lists[0] else SortDedup(AtMost, MergeLists(Before(lists)) + Last(lists))
  }

  lemma {:induction false} MergeListsIsUnion(lists: seq<seq<int>>)
    requires lists != [] && forall k :: 0 <= k < |lists| ==> StrictlySorted(AtMost, lists[k])
    ensures StrictlySorted(AtMost, MergeLists(lists))
    ensures forall a :: a in MergeLists(lists) <==> exists k :: 0 <= k < |lists| && a in lists[k]
  {
    if |lists| > 1 {
      var prefix, list := Before(lists), Last(lists);
      MergeListsIsUnion(prefix);
      MergedLists(MergeLists(prefix), list);
      assert lists == prefix + [list];
      forall a ensures a in MergeLists(lists) <==> exists k :: 0 <= k < |lists| && a in lists[k] {
        if a in MergeLists(prefix) {
          var k :| 0 <= k < |prefix| && a in prefix[k];
          assert a in lists[k];
        }
        if a in list { assert a in lists[|prefix|]; }
      }
    }
  }

  function AddressLists(ads: seq<Advertisement>): (lists: seq<seq<int>>)
    ensures |lists| == |ads| && forall k :: 0 <= k < |ads| ==> lists[k] == ads[k].addresses
  {
    seq(|ads|, k requires 0 <= k < |ads| => ads[k].addresses)
  }

  function ConnectionLists(ads: seq<Advertisement>): (lists: seq<seq<int>>)
    ensures |lists| == |ads| && forall k :: 0 <= k < |ads| ==> lists[k] == ads[k].connectionAddresses
  {
    seq(|ads|, k requires 0 <= k < |ads| => ads[k].connectionAddresses)
  }

  lemma BeforeAddressLists(ads: seq<Advertisement>)
    requires ads != []
    ensures Before(AddressLists(ads)) == AddressLists(Before(ads)) && Last(AddressLists(ads)) == Last(ads).addresses
  {
  }

  lemma BeforeConnectionLists(ads: seq<Advertisement>)
    requires ads != []
    ensures Before(ConnectionLists(ads)) == ConnectionLists(Before(ads))
    ensures Last(ConnectionLists(ads)) == Last(ads).connectionAddresses
  {
  }

  lemma {:induction false} MergeAllAddresses(ads: seq<Advertisement>)
    requires ads != []
    ensures MergeAll(ads).addresses == MergeLists(AddressLists(ads))
  {
    if |ads| > 1 {
      MergeAllAddresses(Before(ads));
      BeforeAddressLists(ads);
      MergeListsStep(AddressLists(ads));
    }
  }

  lemma {:induction false} MergeAllConnections(ads: seq<Advertisement>)
    requires ads != []
    ensures MergeAll(ads).connectionAddresses == MergeLists(ConnectionLists(ads))
  {
    if |ads| > 1 {
      MergeAllConnections(Before(ads));
      BeforeConnectionLists(ads);
      MergeListsStep(ConnectionLists(ads));
    }
  }

  lemma MergeListsStep(lists: seq<seq<int>>)
    requires |lists| > 1
    ensures MergeLists(lists) == SortDedup(AtMost, MergeLists(Before(lists)) + Last(lists))
  {
  }

  /** Everything but the device id and the addresses. */
  predicate TakesScalars(merged: Advertisement, ad: Advertisement) {
    && merged.name == ad.name && merged.details == ad.details && merged.publicKey == ad.publicKey
    && merged.port == ad.port && merged.certificate == ad.certificate && merged.lastSeen == ad.lastSeen
  }

  /** `i` is the latest-arriving advertisement among those with the latest time. */
  ghost predicate IsLatest(ads: seq<Advertisement>, i: nat) {
    && i < |ads|
    && (forall k :: 0 <= k < |ads| ==> ads[k].lastSeen <= ads[i].lastSeen)
    && (forall k :: i < k < |ads| ==> ads[k].lastSeen < ads[i].lastSeen)
  }

  lemma {:induction false} MergeAllScalars(ads: seq<Advertisement>) returns (i: nat)
    requires ads != []
    ensures MergeAll(ads).deviceId == ads[0].deviceId
    ensures IsLatest(ads, i) && TakesScalars(MergeAll(ads), ads[i])
  {
    if |ads| == 1 {
      i := 0;
    } else {
      var prefix, ad := Before(ads), Last(ads);
      var k := MergeAllScalars(prefix);
      assert ads == prefix + [ad];
      LatestStep(prefix, k, ad);
      i := if ad.lastSeen >= prefix[k].lastSeen then |prefix| else k;
    }
  }

  lemma LatestStep(prefix: seq<Advertisement>, k: nat, ad: Advertisement)
    requires IsLatest(prefix, k)
    ensures IsLatest(prefix + [ad], if ad.lastSeen >= prefix[k].lastSeen then |prefix| else k)
  {
  }

  /** Discovery merge as a fold: merging advertisements with strictly sorted lists
      yields strictly sorted lists with exactly the addresses of all of them, and the
      scalar fields of the latest-arriving one among those with the latest time. */
  lemma {:induction false} MergeIsFold(ads: seq<Advertisement>) returns (i: nat)
    requires ads != [] && forall k :: 0 <= k < |ads| ==> Tidy(ads[k])
    ensures Tidy(MergeAll(ads)) && MergeAll(ads).deviceId == ads[0].deviceId
    ensures forall a :: a in MergeAll(ads).addresses <==> exists k :: 0 <= k < |ads| && a in ads[k].addresses
    ensures forall a :: a in MergeAll(ads).connectionAddresses <==>
                        exists k :: 0 <= k < |ads| && a in ads[k].connectionAddresses
    ensures IsLatest(ads, i) && TakesScalars(MergeAll(ads), ads[i])
  {
    i := MergeAllScalars(ads);
    MergeAllAddresses(ads);
    MergeAllConnections(ads);
    MergeListsIsUnion(AddressLists(ads));
    MergeListsIsUnion(ConnectionLists(ads));
  }

  /** An observation of a known device stays silent exactly when the stored lists are
      strictly sorted, no address is new, and the scalar fields lose or are equal. */
  lemma SilentExactlyWhenNothingNew(peers: Peers, ad: Advertisement)
    requires ad.deviceId in peers && peers[ad.deviceId].deviceId == ad.deviceId
    ensures var known := peers[ad.deviceId];
            !Changes(peers, ad) <==>
              && Tidy(known)
              && (forall a :: a in ad.addresses ==> a in known.addresses)
              && (forall a :: a in ad.connectionAddresses ==> a in known.connectionAddresses)
              && (|| ad.lastSeen < known.lastSeen
                  || (&& ad.name == known.name && ad.details == known.details && ad.publicKey == known.publicKey
                      && ad.port == known.port && ad.certificate == known.certificate))
  {
    MergedLists(peers[ad.deviceId].addresses, ad.addresses);
    MergedLists(peers[ad.deviceId].connectionAddresses, ad.connectionAddresses);
  }

  /** Once an advertisement has been merged as the latest, seeing the same route again
      at any later time reports no change. */
  lemma ReobservationIsSilent(peers: Peers, ad: Advertisement, later: int)
    requires Tidy(ad) && ad.lastSeen <= later
    requires ad.deviceId in peers ==>
               peers[ad.deviceId].deviceId == ad.deviceId && peers[ad.deviceId].lastSeen <= ad.lastSeen
    ensures !Changes(Observe(peers, ad), ad.(lastSeen := later))
  {
    if ad.deviceId in peers {
      MergedLists(peers[ad.deviceId].addresses, ad.addresses);
      MergedLists(peers[ad.deviceId].connectionAddresses, ad.connectionAddresses);
    }
    SilentExactlyWhenNothingNew(Observe(peers, ad), ad.(lastSeen := later));
  }

  // ---- The published list ----

  /** What a fresh emission publishes for a device. */
  function Published(authenticated: Peers, mdns: Peers, id: DeviceId): Advertisement
    requires id in authenticated || id in mdns
  {
    if id !in authenticated then mdns[id]
    else if id !in mdns then authenticated[id]
    else MergeAdvertisement(authenticated[id], mdns[id])
  }

  function Merged(authenticated: Peers, mdns: Peers): Peers {
    map id | id in authenticated.Keys + mdns.Keys :: Published(authenticated, mdns, id)
  }

  ghost predicate Keyed(peers: Peers) {
    forall id :: id in peers ==> peers[id].deviceId == id
  }

  predicate ListedBefore(a: Advertisement, b: Advertisement) {
    a.name < b.name || (a.name == b.name && a.deviceId <= b.deviceId)
  }

  /** The list holds each advertisement of the map once, ordered by name and id. */
  ghost predicate IsListing(list: seq<Advertisement>, peers: Peers) {
    && (forall i :: 0 <= i < |list| ==> list[i].deviceId in peers && peers[list[i].deviceId] == list[i])
    && (forall id :: id in peers ==> peers[id] in list)
    && (forall i, j :: 0 <= i < j < |list| ==> ListedBefore(list[i], list[j]) && list[i].deviceId != list[j].deviceId)
  }

  /** Names ascend, and device ids break ties. */
  lemma ListingIsOrdered(list: seq<Advertisement>, peers: Peers)
    requires IsListing(list, peers)
    ensures forall i, j :: 0 <= i < j < |list| ==>
              list[i].name < list[j].name || (list[i].name == list[j].name && list[i].deviceId < list[j].deviceId)
  {
  }

  /** Emission gives the same list for every iteration order: a map has one listing. */
  lemma {:induction false} ListingIsUnique(one: seq<Advertisement>, other: seq<Advertisement>, peers: Peers)
    requires Keyed(peers) && IsListing(one, peers) && IsListing(other, peers)
    ensures one == other
  {
    forall x ensures x in one <==> x in other {
      if x in one { assert peers[x.deviceId] in other; }
      if x in other { assert peers[x.deviceId] in one; }
    }
    OrderedListsCoincide(one, other);
  }

  ghost predicate StrictlyListed(list: seq<Advertisement>) {
    forall i, j :: 0 <= i < j < |list| ==> ListedBefore(list[i], list[j]) && list[i].deviceId != list[j].deviceId
  }

  lemma {:induction false} OrderedListsCoincide(one: seq<Advertisement>, other: seq<Advertisement>)
    requires StrictlyListed(one) && StrictlyListed(other) && forall x :: x in one <==> x in other
    ensures one == other
  {
    assert other != [] ==> other[0] in other;
    if one != [] {
      assert one[0] in other && other[0] in one;
      assert ListedBefore(one[0], other[0]) && ListedBefore(other[0], one[0]);
      assert one[0] == other[0];
      forall x ensures x in one[1..] <==> x in other[1..] {
        assert x in one <==> x == one[0] || x in one[1..];
        assert x in other <==> x == other[0] || x in other[1..];
      }
      OrderedListsCoincide(one[1..], other[1..]);
      assert one == [one[0]] + one[1..] && other == [other[0]] + other[1..];
    }
  }

  function AddressSet(peers: Peers, id: DeviceId): set<int> {
    if id in peers then set a | a in peers[id].addresses else {}
  }

  function ConnectionSet(peers: Peers, id: DeviceId): set<int> {
    if id in peers then set a | a in peers[id].connectionAddresses else {}
  }

  /** The published list names exactly the devices of both maps, each once, with the
      addresses both maps know. */
  ghost predicate SnapshotAgrees(list: seq<Advertisement>, authenticated: Peers, mdns: Peers) {
    && (forall i, j :: 0 <= i < j < |list| ==> list[i].deviceId != list[j].deviceId)
    && (forall id :: (id in authenticated || id in mdns) <==> exists i :: 0 <= i < |list| && list[i].deviceId == id)
    && (forall i :: 0 <= i < |list| ==> EntryAgrees(list[i], authenticated, mdns))
  }

  ghost predicate EntryAgrees(ad: Advertisement, authenticated: Peers, mdns: Peers) {
    && (set a | a in ad.addresses) == AddressSet(authenticated, ad.deviceId) + AddressSet(mdns, ad.deviceId)
    && (set a | a in ad.connectionAddresses)
       == ConnectionSet(authenticated, ad.deviceId) + ConnectionSet(mdns, ad.deviceId)
  }

  /** An unreported observation changes neither the devices nor their addresses. */
  lemma SilentKeepsSets(peers: Peers, ad: Advertisement)
    requires !Changes(peers, ad)
    ensures Observe(peers, ad).Keys == peers.Keys
    ensures forall id :: AddressSet(Observe(peers, ad), id) == AddressSet(peers, id)
    ensures forall id :: ConnectionSet(Observe(peers, ad), id) == ConnectionSet(peers, id)
  {
  }

  lemma SameSetsAgree(list: seq<Advertisement>, authenticated: Peers, mdns: Peers, authenticated': Peers, mdns': Peers)
    requires SnapshotAgrees(list, authenticated, mdns)
    requires authenticated'.Keys == authenticated.Keys && mdns'.Keys == mdns.Keys
    requires forall id :: AddressSet(authenticated', id) == AddressSet(authenticated, id)
    requires forall id :: ConnectionSet(authenticated', id) == ConnectionSet(authenticated, id)
    requires forall id :: AddressSet(mdns', id) == AddressSet(mdns, id)
    requires forall id :: ConnectionSet(mdns', id) == ConnectionSet(mdns, id)
    ensures SnapshotAgrees(list, authenticated', mdns')
  {
    forall i | 0 <= i < |list| ensures EntryAgrees(list[i], authenticated', mdns') {
      assert EntryAgrees(list[i], authenticated, mdns);
    }
    assert forall id :: (id in authenticated' || id in mdns') <==> (id in authenticated || id in mdns);
  }

  lemma PublishedAddresses(authenticated: Peers, mdns: Peers, id: DeviceId)
    requires (id in authenticated || id in mdns) && Keyed(authenticated) && Keyed(mdns)
    ensures EntryAgrees(Published(authenticated, mdns, id), authenticated, mdns)
  {
    if id in authenticated && id in mdns {
      MergedLists(authenticated[id].addresses, mdns[id].addresses);
      MergedLists(authenticated[id].connectionAddresses, mdns[id].connectionAddresses);
    }
    var ad := Published(authenticated, mdns, id);
    assert forall a :: a in ad.addresses <==> a in AddressSet(authenticated, id) || a in AddressSet(mdns, id);
    assert forall a :: a in ad.connectionAddresses <==>
                       a in ConnectionSet(authenticated, id) || a in ConnectionSet(mdns, id);
  }

  lemma ListingNames(list: seq<Advertisement>, peers: Peers, id: DeviceId)
    requires Keyed(peers) && IsListing(list, peers)
    ensures id in peers <==> exists i :: 0 <= i < |list| && list[i].deviceId == id
  {
    if id in peers {
      assert peers[id] in list;
      var i :| 0 <= i < |list| && list[i] == peers[id];
    }
  }

  lemma {:induction false} ListingAgrees(list: seq<Advertisement>, authenticated: Peers, mdns: Peers)
    requires Keyed(authenticated) && Keyed(mdns) && IsListing(list, Merged(authenticated, mdns))
    ensures SnapshotAgrees(list, authenticated, mdns)
  {
    forall id ensures (id in authenticated || id in mdns) <==> exists i :: 0 <= i < |list| && list[i].deviceId == id {
      ListingNames(list, Merged(authenticated, mdns), id);
    }
    forall i | 0 <= i < |list| ensures EntryAgrees(list[i], authenticated, mdns) {
      PublishedAddresses(authenticated, mdns, list[i].deviceId);
    }
  }

  /** An unreported session observation that overtakes a different mDNS advertisement. */
  predicate SessionOvertakes(authenticated: Peers, mdns: Peers, ad: Advertisement) {
    var id := ad.deviceId;
    && id in authenticated && id in mdns && !Changes(authenticated, ad)
    && !SameScalars(authenticated[id], mdns[id])
    && authenticated[id].lastSeen <= mdns[id].lastSeen < ad.lastSeen
  }

  /** An unreported mDNS observation that overtakes a different authenticated one; a tie
      goes to mDNS. */
  predicate MdnsOvertakes(authenticated: Peers, mdns: Peers, ad: Advertisement) {
    var id := ad.deviceId;
    && id in authenticated && id in mdns && !Changes(mdns, ad)
    && !SameScalars(authenticated[id], mdns[id])
    && mdns[id].lastSeen < authenticated[id].lastSeen <= ad.lastSeen
  }

  /** A silent refresh of the authenticated map alters what a fresh emission would publish
      exactly when it overtakes a different mDNS advertisement that used to win. */
  lemma SilentSessionFlipsWinner(authenticated: Peers, mdns: Peers, ad: Advertisement)
    requires ad.deviceId in authenticated && authenticated[ad.deviceId].deviceId == ad.deviceId
    requires !Changes(authenticated, ad)
    ensures var id := ad.deviceId;
            !SameRoute(Published(authenticated, mdns, id), Published(Observe(authenticated, ad), mdns, id))
            <==> SessionOvertakes(authenticated, mdns, ad)
  {
  }

  /** And a silent refresh of the mDNS map exactly when it overtakes a different
      authenticated one. */
  lemma SilentMdnsFlipsWinner(authenticated: Peers, mdns: Peers, ad: Advertisement)
    requires ad.deviceId in mdns && mdns[ad.deviceId].deviceId == ad.deviceId
    requires !Changes(mdns, ad)
    ensures var id := ad.deviceId;
            !SameRoute(Published(authenticated, mdns, id), Published(authenticated, Observe(mdns, ad), id))
            <==> MdnsOvertakes(authenticated, mdns, ad)
  {
  }

  /** The list names the devices of both maps, each once, with the route that a fresh
      emission would publish. */
  ghost predicate Current(list: seq<Advertisement>, merged: Peers) {
    && (forall i, j :: 0 <= i < j < |list| ==> list[i].deviceId != list[j].deviceId)
    && (forall id :: id in merged <==> exists i :: 0 <= i < |list| && list[i].deviceId == id)
    && (forall i :: 0 <= i < |list| ==>
          list[i].deviceId in merged && SameRoute(list[i], merged[list[i].deviceId]))
  }

  lemma ListingIsCurrent(list: seq<Advertisement>, merged: Peers)
    requires Keyed(merged) && IsListing(list, merged)
    ensures Current(list, merged)
  {
    forall id ensures id in merged <==> exists i :: 0 <= i < |list| && list[i].deviceId == id {
      ListingNames(list, merged, id);
    }
  }

  /** When only `id` changes, a current list stays current exactly if its route does. */
  lemma CurrentAfterChange(list: seq<Advertisement>, before: Peers, after: Peers, id: DeviceId)
    requires Current(list, before) && before.Keys == after.Keys && id in before
    requires forall other :: other in before && other != id ==> after[other] == before[other]
    ensures Current(list, after) <==> SameRoute(before[id], after[id])
  {
    var k :| 0 <= k < |list| && list[k].deviceId == id;
    if SameRoute(before[id], after[id]) {
      forall i | 0 <= i < |list| ensures list[i].deviceId in after && SameRoute(list[i], after[list[i].deviceId]) {
        assert SameRoute(list[i], before[list[i].deviceId]);
      }
    } else {
      assert SameRoute(list[k], before[id]);
    }
  }

  /** A current list after an unreported session observation. */
  lemma CurrentAfterSession(list: seq<Advertisement>, authenticated: Peers, mdns: Peers, ad: Advertisement)
    requires Keyed(authenticated) && Current(list, Merged(authenticated, mdns)) && !Changes(authenticated, ad)
    ensures Current(list, Merged(Observe(authenticated, ad), mdns)) <==> !SessionOvertakes(authenticated, mdns, ad)
  {
    SilentSessionFlipsWinner(authenticated, mdns, ad);
    CurrentAfterChange(list, Merged(authenticated, mdns), Merged(Observe(authenticated, ad), mdns), ad.deviceId);
  }

  /** A current list after an unreported mDNS observation. */
  lemma CurrentAfterMdns(list: seq<Advertisement>, authenticated: Peers, mdns: Peers, ad: Advertisement)
    requires Keyed(mdns) && Current(list, Merged(authenticated, mdns)) && !Changes(mdns, ad)
    ensures Current(list, Merged(authenticated, Observe(mdns, ad))) <==> !MdnsOvertakes(authenticated, mdns, ad)
  {
    SilentMdnsFlipsWinner(authenticated, mdns, ad);
    CurrentAfterChange(list, Merged(authenticated, mdns), Merged(authenticated, Observe(mdns, ad)), ad.deviceId);
  }

  // ---- Runs ----

  /** Some listing exists, and there is only one. */
  lemma {:induction false} SomeListing(peers: Peers)
    requires Keyed(peers)
    ensures exists list :: IsListing(list, peers)
  {
    var values := ValuesOf(peers, peers.Keys);
    SortedListing(peers, values);
    assert IsListing(Sort(ListedBefore, values), peers);
  }

  lemma {:induction false} ValuesOf(peers: Peers, ids: set<DeviceId>) returns (list: seq<Advertisement>)
    requires Keyed(peers) && ids <= peers.Keys
    ensures NoDuplicates(list)
    ensures forall i :: 0 <= i < |list| ==> list[i].deviceId in ids && peers[list[i].deviceId] == list[i]
    ensures forall id :: id in ids ==> peers[id] in list
  {
    if ids == {} {
      list := [];
    } else {
      SomeMember(ids);
      var id :| id in ids;
      var rest := ValuesOf(peers, ids - {id});
      list := rest + [peers[id]];
    }
  }

  /** The list an emission publishes for a merged map. */
  ghost function Listing(peers: Peers): (list: seq<Advertisement>)
    ensures Keyed(peers) ==> IsListing(list, peers)
  {
    if Keyed(peers) then
      SomeListing(peers);
      var list :| IsListing(list, peers);
      list
    else []
  }

  /** Both maps, the owner of each mDNS service, and what subscribers see. */
  datatype State = State(
    authenticated: Peers, mdns: Peers, services: map<string, DeviceId>, snapshot: seq<Advertisement>)

  /** An operation. A service record that does not decode resolves to nothing. */
  datatype Op =
    | HeardOverSession(ad: Advertisement)
    | ForgottenSession(id: DeviceId)
    | Refreshed
    | Resolved(fullname: string, decoded: Option<Advertisement>)
    | Removed(fullname: string)

  ghost function Emitted(s: State): State {
    s.(snapshot := Listing(Merged(s.authenticated, s.mdns)))
  }

  ghost function Step(local: DeviceId, s: State, op: Op): State {
    match op
    case HeardOverSession(ad) =>
      if ad.deviceId == local then s
      else
        var next := s.(authenticated := Observe(s.authenticated, ad));
        if Changes(s.authenticated, ad) then Emitted(next) else next
    case ForgottenSession(id) =>
      if id in s.authenticated then Emitted(s.(authenticated := s.authenticated - {id})) else s
    case Refreshed => Emitted(s)
    case Resolved(fullname, decoded) =>
      if decoded.None? || decoded.value.deviceId == local then s
      else
        var next := s.(mdns := Observe(s.mdns, decoded.value),
                       services := s.services[fullname := decoded.value.deviceId]);
        if Changes(s.mdns, decoded.value) then Emitted(next) else next
    case Removed(fullname) =>
      if fullname !in s.services then s
      else
        var id := s.services[fullname];
        var next := s.(services := s.services - {fullname});
        if id in s.mdns then Emitted(next.(mdns := s.mdns - {id})) else next
  }

  ghost function RunOf(local: DeviceId, ops: seq<Op>): State {
    if ops == [] then State(map[], map[], map[], []) else Step(local, RunOf(local, Before(ops)), Last(ops))
  }

  ghost predicate WellKept(local: DeviceId, s: State) {
    Keyed(s.authenticated) && Keyed(s.mdns) && local !in s.authenticated && local !in s.mdns
  }

  lemma StepKeepsMaps(local: DeviceId, s: State, op: Op)
    requires WellKept(local, s)
    ensures WellKept(local, Step(local, s, op))
  {
  }

  lemma {:induction false} ReachableWellKept(local: DeviceId, ops: seq<Op>)
    ensures WellKept(local, RunOf(local, ops))
  {
    if ops != [] {
      ReachableWellKept(local, Before(ops));
      StepKeepsMaps(local, RunOf(local, Before(ops)), Last(ops));
    }
  }

  /** The operation publishes a new list. */
  predicate Emits(local: DeviceId, s: State, op: Op) {
    match op
    case HeardOverSession(ad) => ad.deviceId != local && Changes(s.authenticated, ad)
    case ForgottenSession(id) => id in s.authenticated
    case Refreshed => true
    case Resolved(_, decoded) =>
      decoded.Some? && decoded.value.deviceId != local && Changes(s.mdns, decoded.value)
    case Removed(fullname) => fullname in s.services && s.services[fullname] in s.mdns
  }

  /** An emission publishes exactly the listing of the merged maps, and only an emission
      changes the published list. */
  lemma SnapshotStep(local: DeviceId, s: State, op: Op)
    ensures var next := Step(local, s, op);
            next.snapshot == if Emits(local, s, op) then Listing(Merged(next.authenticated, next.mdns)) else s.snapshot
  {
  }

  /** An operation that does not emit changes the maps only by an unreported observation. */
  lemma SilentStep(local: DeviceId, s: State, op: Op)
    requires !Emits(local, s, op)
    ensures var next := Step(local, s, op);
            || (next.authenticated == s.authenticated && next.mdns == s.mdns)
            || (op.HeardOverSession? && !Changes(s.authenticated, op.ad)
                && next.authenticated == Observe(s.authenticated, op.ad) && next.mdns == s.mdns)
            || (op.Resolved? && op.decoded.Some? && !Changes(s.mdns, op.decoded.value)
                && next.mdns == Observe(s.mdns, op.decoded.value) && next.authenticated == s.authenticated)
  {
  }

  lemma MergedIsKeyed(authenticated: Peers, mdns: Peers)
    requires Keyed(authenticated) && Keyed(mdns)
    ensures Keyed(Merged(authenticated, mdns))
  {
  }

  /** In every run the published list names exactly the devices of both maps with the
      union of their addresses, whether or not it was emitted for the latest observation,
      and never the local device. */
  lemma {:induction false} SnapshotAlwaysAgrees(local: DeviceId, ops: seq<Op>)
    ensures var s := RunOf(local, ops);
            && SnapshotAgrees(s.snapshot, s.authenticated, s.mdns)
            && (forall i :: 0 <= i < |s.snapshot| ==> s.snapshot[i].deviceId != local)
  {
    ReachableWellKept(local, ops);
    if ops != [] {
      var s, op := RunOf(local, Before(ops)), Last(ops);
      var next := RunOf(local, ops);
      SnapshotAlwaysAgrees(local, Before(ops));
      SnapshotStep(local, s, op);
      if Emits(local, s, op) {
        ReachableWellKept(local, ops);
        MergedIsKeyed(next.authenticated, next.mdns);
        ListingAgrees(next.snapshot, next.authenticated, next.mdns);
      } else {
        SilentStep(local, s, op);
        SilentAgrees(local, s, op);
      }
    }
  }

  lemma SilentAgrees(local: DeviceId, s: State, op: Op)
    requires !Emits(local, s, op) && SnapshotAgrees(s.snapshot, s.authenticated, s.mdns)
    ensures var next := Step(local, s, op); SnapshotAgrees(s.snapshot, next.authenticated, next.mdns)
  {
    SilentStep(local, s, op);
    var next := Step(local, s, op);
    if op.HeardOverSession? && next.authenticated != s.authenticated {
      SilentKeepsSets(s.authenticated, op.ad);
      SameSetsAgree(s.snapshot, s.authenticated, s.mdns, next.authenticated, s.mdns);
    } else if op.Resolved? && next.mdns != s.mdns {
      SilentKeepsSets(s.mdns, op.decoded.value);
      SameSetsAgree(s.snapshot, s.authenticated, s.mdns, s.authenticated, next.mdns);
    }
  }

  /** Subscribers see what a fresh emission would publish. */
  ghost predicate IsCurrent(s: State) {
    Current(s.snapshot, Merged(s.authenticated, s.mdns))
  }

  /** The operation silently lets the other source win. */
  predicate Overtakes(local: DeviceId, s: State, op: Op) {
    match op
    case HeardOverSession(ad) => ad.deviceId != local && SessionOvertakes(s.authenticated, s.mdns, ad)
    case Resolved(_, decoded) =>
      decoded.Some? && decoded.value.deviceId != local && MdnsOvertakes(s.authenticated, s.mdns, decoded.value)
    case _ => false
  }

  /** Published routes lag, exactly: in every run, an emission makes the published list
      current, and a current list stays current unless the operation is a silent refresh
      that lets the other source win. */
  lemma {:induction false} StaleExactlyWhenOvertaken(local: DeviceId, ops: seq<Op>, op: Op)
    ensures var s, next := RunOf(local, ops), Step(local, RunOf(local, ops), op);
            && (op == Refreshed || Emits(local, s, op) ==> IsCurrent(next))
            && (IsCurrent(s) ==> (IsCurrent(next) <==> !Overtakes(local, s, op)))
  {
    var s := RunOf(local, ops);
    var next := Step(local, s, op);
    ReachableWellKept(local, ops);
    SnapshotStep(local, s, op);
    if Emits(local, s, op) {
      StepKeepsMaps(local, s, op);
      EmissionIsCurrent(next);
    } else if IsCurrent(s) {
      SilentCurrent(local, s, op);
    }
  }

  lemma EmissionIsCurrent(s: State)
    requires Keyed(s.authenticated) && Keyed(s.mdns) && s.snapshot == Listing(Merged(s.authenticated, s.mdns))
    ensures IsCurrent(s)
  {
    MergedIsKeyed(s.authenticated, s.mdns);
    ListingIsCurrent(s.snapshot, Merged(s.authenticated, s.mdns));
  }

  lemma SilentCurrent(local: DeviceId, s: State, op: Op)
    requires !Emits(local, s, op) && IsCurrent(s) && WellKept(local, s)
    ensures Current(s.snapshot, Merged(Step(local, s, op).authenticated, Step(local, s, op).mdns))
            <==> !Overtakes(local, s, op)
  {
    if op.HeardOverSession? && op.ad.deviceId != local {
      CurrentAfterSession(s.snapshot, s.authenticated, s.mdns, op.ad);
    } else if op.Resolved? && op.decoded.Some? && op.decoded.value.deviceId != local {
      CurrentAfterMdns(s.snapshot, s.authenticated, s.mdns, op.decoded.value);
    }
  }

  lemma RunOfPush(local: DeviceId, ops: seq<Op>, op: Op)
    ensures RunOf(local, ops + [op]) == Step(local, RunOf(local, ops), op)
  {
    assert Before(ops + [op]) == ops;
  }

  /** A run after which subscribers do not see what a fresh emission would publish: a
      device is heard over one path, then over the other under another name, then over
      the first path again without new addresses. */
  lemma StaleRun(local: DeviceId, one: Advertisement, other: Advertisement, overMdns: bool)
    requires one.deviceId == other.deviceId != local && one.name != other.name && Tidy(one)
    requires one.lastSeen < other.lastSeen
    ensures var again := one.(lastSeen := other.lastSeen + 1);
            !IsCurrent(RunOf(local, if overMdns
                                    then [Resolved("", Some(one)), HeardOverSession(other), Resolved("", Some(again))]
                                    else [HeardOverSession(one), Resolved("", Some(other)), HeardOverSession(again)]))
  {
    var again := one.(lastSeen := other.lastSeen + 1);
    var first := if overMdns then Resolved("", Some(one)) else HeardOverSession(one);
    var second := if overMdns then HeardOverSession(other) else Resolved("", Some(other));
    var third := if overMdns then Resolved("", Some(again)) else HeardOverSession(again);
    assert [first, second, third] == [] + [first] + [second] + [third];
    RunOfPush(local, [], first);
    RunOfPush(local, [] + [first], second);
    RunOfPush(local, [] + [first] + [second], third);
    StaleExactlyWhenOvertaken(local, [] + [first], second);
    StaleExactlyWhenOvertaken(local, [] + [first] + [second], third);
    ReobservationIsSilent(map[], one, again.lastSeen);
    SecondEmits(local, one, other, overMdns);
  }

  lemma SecondEmits(local: DeviceId, one: Advertisement, other: Advertisement, overMdns: bool)
    requires one.deviceId == other.deviceId != local
    ensures var first := if overMdns then Resolved("", Some(one)) else HeardOverSession(one);
            var second := if overMdns then HeardOverSession(other) else Resolved("", Some(other));
            var s := Step(local, State(map[], map[], map[], []), first);
            && Emits(local, s, second)
            && Step(local, s, second).authenticated == map[one.deviceId := if overMdns then other else one]
            && Step(local, s, second).mdns == map[one.deviceId := if overMdns then one else other]
  {
  }

  class DiscoveryService {
    const localId: DeviceId
    var mdns: Peers
    var authenticated: Peers
    var serviceIds: map<string, DeviceId>
    var snapshot: seq<Advertisement>

    function Contents(): State
      reads this
    {
      State(authenticated, mdns, serviceIds, snapshot)
    }

    ghost predicate Valid()
      reads this
    {
      WellKept(localId, Contents())
    }

    constructor (id: DeviceId)
      ensures Valid() && localId == id && Contents() == RunOf(id, [])
    {
      localId, mdns, authenticated, serviceIds, snapshot := id, map[], map[], map[], [];
    }

    /** Merges the two maps in some order, lists the result in some order and sorts it. */
    method Emit()
      requires Keyed(mdns) && Keyed(authenticated)
      modifies this`snapshot
      ensures Contents() == Emitted(old(Contents()))
    {
      var merged := MergeMaps(authenticated, mdns);
      MergedIsKeyed(authenticated, mdns);
      var list := Listed(merged);
      snapshot := Sort(ListedBefore, list);
      SortedListing(merged, list);
      ListingIsUnique(snapshot, Listing(merged), merged);
    }

    method ObserveAuthenticated(ad: Advertisement)
      requires Valid()
      modifies this`authenticated, this`snapshot
      ensures Valid() && Contents() == Step(localId, old(Contents()), HeardOverSession(ad))
    {
      if ad.deviceId == localId {
        return;
      }
      var changed := Changes(authenticated, ad);
      authenticated := Observe(authenticated, ad);
      if changed {
        Emit();
      }
    }

    method ForgetAuthenticated(id: DeviceId)
      requires Valid()
      modifies this`authenticated, this`snapshot
      ensures Valid() && Contents() == Step(localId, old(Contents()), ForgottenSession(id))
    {
      if id in authenticated {
        authenticated := authenticated - {id};
        Emit();
      }
    }

    method Refresh()
      requires Valid()
      modifies this`snapshot
      ensures Valid() && Contents() == Step(localId, old(Contents()), Refreshed)
    {
      Emit();
    }

    /** `decoded` is absent when the service record does not decode. */
    method Resolve(fullname: string, decoded: Option<Advertisement>)
      requires Valid()
      modifies this`mdns, this`serviceIds, this`snapshot
      ensures Valid() && Contents() == Step(localId, old(Contents()), Resolved(fullname, decoded))
    {
      if decoded.None? || decoded.value.deviceId == localId {
        return;
      }
      serviceIds := serviceIds[fullname := decoded.value.deviceId];
      var changed := Changes(mdns, decoded.value);
      mdns := Observe(mdns, decoded.value);
      if changed {
        Emit();
      }
    }

    method Remove(fullname: string)
      requires Valid()
      modifies this`mdns, this`serviceIds, this`snapshot
      ensures Valid() && Contents() == Step(localId, old(Contents()), Removed(fullname))
    {
      if fullname !in serviceIds {
        return;
      }
      var id := serviceIds[fullname];
      serviceIds := serviceIds - {fullname};
      if id in mdns {
        mdns := mdns - {id};
        Emit();
      }
    }
  }

  lemma SomeMember(ids: set<DeviceId>)
    requires ids != {}
    ensures exists id :: id in ids
  {
    assert (forall id :: id !in ids) ==> ids == {};
  }

  /** Visits the mDNS entries in some order, merging each into what is there. */
  method MergeMaps(authenticated: Peers, mdns: Peers) returns (merged: Peers)
    ensures merged == Merged(authenticated, mdns)
  {
    merged := authenticated;
    var todo := mdns.Keys;
    while todo != {}
      invariant todo <= mdns.Keys
      invariant merged == Merged(authenticated, mdns - todo)
      decreases todo
    {
      SomeMember(todo);
      var id :| id in todo;
      merged := merged[id := if id in merged then MergeAdvertisement(merged[id], mdns[id]) else mdns[id]];
      todo := todo - {id};
    }
    assert mdns - {} == mdns;
  }

  /** The values of the map, each once, in some order. */
  method Listed(peers: Peers) returns (list: seq<Advertisement>)
    requires Keyed(peers)
    ensures forall i :: 0 <= i < |list| ==> list[i].deviceId in peers && peers[list[i].deviceId] == list[i]
    ensures forall id :: id in peers ==> peers[id] in list
    ensures NoDuplicates(list)
  {
    list := [];
    var todo := peers.Keys;
    while todo != {}
      invariant todo <= peers.Keys
      invariant forall i :: 0 <= i < |list| ==>
                  list[i].deviceId in peers.Keys - todo && peers[list[i].deviceId] == list[i]
      invariant forall id :: id in peers.Keys - todo ==> peers[id] in list
      invariant NoDuplicates(list)
      decreases todo
    {
      SomeMember(todo);
      var id :| id in todo;
      list := list + [peers[id]];
      todo := todo - {id};
    }
  }

  lemma {:induction false} SortedListing(peers: Peers, list: seq<Advertisement>)
    requires Keyed(peers) && NoDuplicates(list)
    requires forall i :: 0 <= i < |list| ==> list[i].deviceId in peers && peers[list[i].deviceId] == list[i]
    requires forall id :: id in peers ==> peers[id] in list
    ensures IsListing(Sort(ListedBefore, list), peers)
  {
    var sorted := Sort(ListedBefore, list);
    ListedBeforeIsPreorder();
    SortSorts(ListedBefore, list);
    SameMultisetSameDuplicates(list, sorted);
    SameMembers(sorted, list);
    forall i | 0 <= i < |sorted| ensures sorted[i].deviceId in peers && peers[sorted[i].deviceId] == sorted[i] {
      assert sorted[i] in list;
    }
    forall i, j | 0 <= i < j < |sorted|
      ensures ListedBefore(sorted[i], sorted[j]) && sorted[i].deviceId != sorted[j].deviceId
    {
      assert sorted[i] != sorted[j];
    }
  }

  lemma ListedBeforeIsPreorder()
    ensures TotalPreorder(ListedBefore)
  {
  }

  lemma SameMembers(a: seq<Advertisement>, b: seq<Advertisement>)
    requires multiset(a) == multiset(b)
    ensures forall x :: x in a <==> x in b
  {
    forall x ensures x in a <==> x in b {
      assert x in multiset(a) <==> x in multiset(b);
    }
  }
}
