/** What the discovery maps hold, told by the operations alone: who was heard over which path
    since it was last dropped, and from whom. */
module DiscoveryHistory {
  import opened Types
  import opened Collections
  import opened Ordering
  import opened Discovery

  /** What was heard of `id` over sessions since its routes were last forgotten. */
  function SessionAds(local: DeviceId, ops: seq<Op>, id: DeviceId): seq<Advertisement> {
    if ops == [] then []
    else
      var earlier := SessionAds(local, Before(ops), id);
      match Last(ops)
      case HeardOverSession(ad) => if ad.deviceId == id != local then earlier + [ad] else earlier
      case ForgottenSession(forgotten) => if forgotten == id then [] else earlier
      case _ => earlier
  }

  /** The device that last resolved under a service name which has not been removed since. */
  function Owner(local: DeviceId, ops: seq<Op>, fullname: string): Option<DeviceId> {
    if ops == [] then None
    else
      match Last(ops)
      case Resolved(name, Some(ad)) =>
        if name == fullname && ad.deviceId != local then Some(ad.deviceId) else Owner(local, Before(ops), fullname)
      case Removed(name) => if name == fullname then None else Owner(local, Before(ops), fullname)
      case _ => Owner(local, Before(ops), fullname)
  }

  /** What was heard of `id` over mDNS since a service it owned was last removed. */
  function MdnsAds(local: DeviceId, ops: seq<Op>, id: DeviceId): seq<Advertisement> {
    if ops == [] then []
    else
      var earlier := MdnsAds(local, Before(ops), id);
      match Last(ops)
      case Resolved(_, Some(ad)) => if ad.deviceId == id != local then earlier + [ad] else earlier
      case Removed(name) => if Owner(local, Before(ops), name) == Some(id) then [] else earlier
      case _ => earlier
  }

  /** The map holds exactly what was heard. */
  predicate Holds(peers: Peers, id: DeviceId, heard: seq<Advertisement>) {
    (id in peers <==> heard != []) && (id in peers ==> peers[id] == MergeAll(heard))
  }

  lemma HoldsAfterObserve(peers: Peers, ad: Advertisement, id: DeviceId, heard: seq<Advertisement>)
    requires Holds(peers, id, heard)
    ensures Holds(Observe(peers, ad), id, if ad.deviceId == id then heard + [ad] else heard)
  {
    assert Before(heard + [ad]) == heard;
  }

  lemma {:induction false} SessionsAreHistory(local: DeviceId, ops: seq<Op>, id: DeviceId)
    ensures Holds(RunOf(local, ops).authenticated, id, SessionAds(local, ops, id))
  {
    if ops != [] {
      SessionsAreHistory(local, Before(ops), id);
      if Last(ops).HeardOverSession? {
        var heard := SessionAds(local, Before(ops), id);
        HoldsAfterObserve(RunOf(local, Before(ops)).authenticated, Last(ops).ad, id, heard);
      }
    }
  }

  lemma {:induction false} ServicesAreHistory(local: DeviceId, ops: seq<Op>, fullname: string)
    ensures var services := RunOf(local, ops).services;
            Owner(local, ops, fullname) == if fullname in services then Some(services[fullname]) else None
  {
    if ops != [] {
      ServicesAreHistory(local, Before(ops), fullname);
    }
  }

  lemma {:induction false} MdnsIsHistory(local: DeviceId, ops: seq<Op>, id: DeviceId)
    ensures Holds(RunOf(local, ops).mdns, id, MdnsAds(local, ops, id))
  {
    if ops != [] {
      MdnsIsHistory(local, Before(ops), id);
      if Last(ops).Resolved? && Last(ops).decoded.Some? {
        HoldsAfterObserve(RunOf(local, Before(ops)).mdns, Last(ops).decoded.value, id, MdnsAds(local, Before(ops), id));
      } else if Last(ops).Removed? {
        ServicesAreHistory(local, Before(ops), Last(ops).fullname);
      }
    }
  }

  /** The addresses of a merge, tidy or not, are those of its parts. */
  lemma {:induction false} MergeListsMembers(lists: seq<seq<int>>, a: int)
    requires lists != []
    ensures a in MergeLists(lists) <==> exists k :: 0 <= k < |lists| && a in lists[k]
  {
    if |lists| == 1 {
      assert MergeLists(lists) == lists[0];
    } else {
      var prefix, list := Before(lists), Last(lists);
      MergeListsMembers(prefix, a);
      MergedLists(MergeLists(prefix), list);
      assert lists == prefix + [list];
      if a in MergeLists(prefix) {
        var k :| 0 <= k < |prefix| && a in prefix[k];
        assert a in lists[k];
      }
      if a in list {
        assert a in lists[|prefix|];
      }
    }
  }

  lemma {:induction false} MergeAllMembers(ads: seq<Advertisement>, a: int)
    requires ads != []
    ensures a in MergeAll(ads).addresses <==> exists k :: 0 <= k < |ads| && a in ads[k].addresses
    ensures a in MergeAll(ads).connectionAddresses <==> exists k :: 0 <= k < |ads| && a in ads[k].connectionAddresses
  {
    MergeAllAddresses(ads);
    MergeAllConnections(ads);
    MergeListsMembers(AddressLists(ads), a);
    MergeListsMembers(ConnectionLists(ads), a);
  }

  /** An entry is what was heard: the union of the addresses, and the other fields of the
      latest advertisement, the last to arrive among equals. */
  ghost predicate IsWhatWasHeard(entry: Advertisement, heard: seq<Advertisement>) {
    && (forall a :: a in entry.addresses <==> exists k :: 0 <= k < |heard| && a in heard[k].addresses)
    && (forall a :: a in entry.connectionAddresses <==>
                    exists k :: 0 <= k < |heard| && a in heard[k].connectionAddresses)
    && (exists i: nat :: IsLatest(heard, i) && TakesScalars(entry, heard[i]))
  }

  lemma {:induction false} MergeIsWhatWasHeard(heard: seq<Advertisement>)
    requires heard != []
    ensures IsWhatWasHeard(MergeAll(heard), heard)
  {
    forall a
      ensures a in MergeAll(heard).addresses <==> exists k :: 0 <= k < |heard| && a in heard[k].addresses
      ensures a in MergeAll(heard).connectionAddresses <==>
                exists k :: 0 <= k < |heard| && a in heard[k].connectionAddresses
    {
      MergeAllMembers(heard, a);
    }
    var i := MergeAllScalars(heard);
  }

  /** The maps are the history: in every run each map knows exactly the devices heard over
      its path since they were last dropped, each with what was heard. */
  lemma {:induction false} MapsAreHistory(local: DeviceId, ops: seq<Op>, id: DeviceId)
    ensures var s, heard := RunOf(local, ops), SessionAds(local, ops, id);
            (id in s.authenticated <==> heard != []) && (heard != [] ==> IsWhatWasHeard(s.authenticated[id], heard))
    ensures var s, heard := RunOf(local, ops), MdnsAds(local, ops, id);
            (id in s.mdns <==> heard != []) && (heard != [] ==> IsWhatWasHeard(s.mdns[id], heard))
  {
    SessionsAreHistory(local, ops, id);
    MdnsIsHistory(local, ops, id);
    if SessionAds(local, ops, id) != [] {
      MergeIsWhatWasHeard(SessionAds(local, ops, id));
    }
    if MdnsAds(local, ops, id) != [] {
      MergeIsWhatWasHeard(MdnsAds(local, ops, id));
    }
  }

  ghost predicate IsListed(s: State, id: DeviceId) {
    exists i :: 0 <= i < |s.snapshot| && s.snapshot[i].deviceId == id
  }

  /** After any run, removing a service drops the device that owns it from mDNS and no other
      device from either map, and the device stays listed only if a session knows it. */
  lemma {:induction false} RemovedServiceIsGone(local: DeviceId, ops: seq<Op>, fullname: string, id: DeviceId)
    requires Owner(local, ops, fullname) == Some(id)
    ensures var s, next := RunOf(local, ops), RunOf(local, ops + [Removed(fullname)]);
            && next.mdns == s.mdns - {id} && next.authenticated == s.authenticated
            && id !in next.mdns && (IsListed(next, id) <==> id in next.authenticated)
  {
    ServicesAreHistory(local, ops, fullname);
    RunOfPush(local, ops, Removed(fullname));
    var s := RunOf(local, ops);
    assert id !in s.mdns ==> s.mdns - {id} == s.mdns;
    SnapshotAlwaysAgrees(local, ops + [Removed(fullname)]);
  }

  /** After any run, forgetting a device drops its session routes and nothing else, and the
      device stays listed only if mDNS knows it. */
  lemma {:induction false} ForgottenSessionIsGone(local: DeviceId, ops: seq<Op>, id: DeviceId)
    ensures var s, next := RunOf(local, ops), RunOf(local, ops + [ForgottenSession(id)]);
            && next.authenticated == s.authenticated - {id} && next.mdns == s.mdns
            && id !in next.authenticated && (IsListed(next, id) <==> id in next.mdns)
  {
    RunOfPush(local, ops, ForgottenSession(id));
    var s := RunOf(local, ops);
    assert id !in s.authenticated ==> s.authenticated - {id} == s.authenticated;
    SnapshotAlwaysAgrees(local, ops + [ForgottenSession(id)]);
  }
}
