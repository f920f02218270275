/** Pairing grants: the request an initiator sends, the response it accepts, and
    the merge of accepted grants into the stored ones. */
module Pairing {
  import opened Types
  import opened Collections
  import opened Ordering

  datatype GrantDirection = Inbound | Outbound

  datatype GrantConstraints = Unconstrained | RemoteFileShares(shareIds: seq<string>, writable: bool)

  datatype GrantKey = GrantKey(capability: CapabilityId, direction: GrantDirection)

  datatype GrantRequest = GrantRequest(key: GrantKey, constraints: GrantConstraints)

  datatype Grant = Grant(peer: DeviceId, key: GrantKey, constraints: GrantConstraints, grantedAt: int)

  // ---- Wire forms ----

  datatype WireDirection = WireInbound | WireOutbound | WireUnknown(code: int)

  datatype WireKind = WireShares(shareIds: seq<string>, writable: bool)

  datatype WireConstraints = WireConstraints(kind: Option<WireKind>)

  datatype WireGrant = WireGrant(capability: string, direction: WireDirection, constraints: Option<WireConstraints>)

  datatype WireResult = WireResult(paired: bool, peer: DeviceId)

  datatype PairingResponse = PairingResponse(result: Option<WireResult>, granted: seq<WireGrant>)

  datatype PairingError = Rejected | ProtocolViolation

  /** The textual names of capabilities. */
  datatype Tokens = Tokens(token: CapabilityId -> string, parse: string -> Option<CapabilityId>)

  ghost predicate RoundTrips(t: Tokens) {
    forall c :: t.parse(t.token(c)) == Some(c)
  }

  // ---- Constraints ----

  function EncodeConstraints(c: GrantConstraints): Option<WireConstraints> {
    match c
    case Unconstrained => None
    case RemoteFileShares(shareIds, writable) => Some(WireConstraints(Some(WireShares(shareIds, writable))))
  }

  predicate RepeatsShare(shareIds: seq<string>) {
    |SortDedup(LexAtMost, shareIds)| != |shareIds|
  }

  predicate BadShareIds(shareIds: seq<string>) {
    |shareIds| > 128 || exists i :: 0 <= i < |shareIds| && (shareIds[i] == "" || |shareIds[i]| > 256)
  }

  function DecodeConstraints(w: Option<WireConstraints>): Result<GrantConstraints, PairingError> {
    match w
    case None => Ok(Unconstrained)
    case Some(WireConstraints(None)) => Err(ProtocolViolation)
    case Some(WireConstraints(Some(WireShares(shareIds, writable)))) =>
      if BadShareIds(shareIds) then Err(ProtocolViolation)
      else if RepeatsShare(shareIds) then Err(ProtocolViolation)
      else Ok(RemoteFileShares(shareIds, writable))
  }

  predicate ValidLocalRequest(capability: CapabilityId, c: GrantConstraints) {
    match c
    case Unconstrained => true
    case RemoteFileShares(shareIds, writable) =>
      && (capability == RemoteFilesRead || capability == RemoteFilesWrite)
      && !(capability == RemoteFilesRead && writable)
      && !(capability == RemoteFilesWrite && !writable)
      && |shareIds| <= 128
      && |SortDedup(LexAtMost, shareIds)| == |shareIds|
      && !(exists i :: 0 <= i < |shareIds| && (shareIds[i] == "" || |shareIds[i]| > 256))
  }

  /** The share lists that constraints may carry. */
  ghost predicate WellFormedShares(c: GrantConstraints) {
    c.RemoteFileShares? ==>
      && |c.shareIds| <= 128
      && NoDuplicates(c.shareIds)
      && forall i :: 0 <= i < |c.shareIds| ==> 0 < |c.shareIds[i]| <= 256
  }

  /** Constraints survive the wire exactly when their share list is well formed. */
  lemma ConstraintsRoundTrip(c: GrantConstraints)
    ensures DecodeConstraints(EncodeConstraints(c)) == Ok(c) <==> WellFormedShares(c)
    ensures DecodeConstraints(EncodeConstraints(c)).Err? <==> !WellFormedShares(c)
  {
    LexIsTotalOrder();
    if c.RemoteFileShares? {
      SortDedupSpec(LexAtMost, c.shareIds);
    }
  }

  /** What a grant may carry: nothing, or a well-formed share list under one of the two
      remote file capabilities, writable exactly under the writing one. */
  ghost predicate Proper(capability: CapabilityId, c: GrantConstraints) {
    c.RemoteFileShares? ==>
      && WellFormedShares(c)
      && ((capability == RemoteFilesRead && !c.writable) || (capability == RemoteFilesWrite && c.writable))
  }

  /** Local validation accepts exactly what a grant may carry. */
  lemma ValidIsProper(capability: CapabilityId, c: GrantConstraints)
    ensures ValidLocalRequest(capability, c) <==> Proper(capability, c)
  {
    LexIsTotalOrder();
    if c.RemoteFileShares? {
      SortDedupSpec(LexAtMost, c.shareIds);
    }
  }

  // ---- The request ----

  /** The grants asked for, keyed as the initiator stores them. */
  type Requested = map<GrantKey, GrantConstraints>

  ghost predicate EachValid(requests: seq<GrantRequest>) {
    forall i :: 0 <= i < |requests| ==> Proper(requests[i].key.capability, requests[i].constraints)
  }

  ghost predicate KeysDiffer(requests: seq<GrantRequest>) {
    forall i, j :: 0 <= i < j < |requests| ==> requests[i].key != requests[j].key
  }

  /** Accepts exactly the requests that are valid one by one, name no key twice and
      number at most 64, and then records each of them. */
  method CollectRequests(requests: seq<GrantRequest>) returns (result: Result<Requested, PairingError>)
    ensures result.Ok? <==> EachValid(requests) && KeysDiffer(requests) && |requests| <= 64
    ensures result.Ok? ==> Records(result.value, requests) && ValidRequested(result.value)
  {
    var requested: Requested := map[];
    for n := 0 to |requests|
      invariant n <= 64 && |requested| == n
      invariant EachValid(requests[..n]) && KeysDiffer(requests[..n])
      invariant Records(requested, requests[..n])
    {
      var request := requests[n];
      assert requests[..n + 1] == requests[..n] + [request];
      ValidIsProper(request.key.capability, request.constraints);
      if !ValidLocalRequest(request.key.capability, request.constraints) {
        return Err(ProtocolViolation);
      }
      var repeated := request.key in requested;
      if repeated {
        RepeatedKey(requested, requests, n);
      } else {
        RecordsNext(requested, requests[..n], request);
      }
      requested := requested[request.key := request.constraints];
      if repeated {
        return Err(ProtocolViolation);
      }
      if |requested| > 64 {
        return Err(ProtocolViolation);
      }
    }
    assert requests[..|requests|] == requests;
    RecordedRequestsAreValid(requested, requests);
    return Ok(requested);
  }

  lemma RecordedRequestsAreValid(requested: Requested, requests: seq<GrantRequest>)
    requires Records(requested, requests) && EachValid(requests)
    ensures ValidRequested(requested)
  {
  }

  lemma RepeatedKey(requested: Requested, requests: seq<GrantRequest>, n: nat)
    requires n < |requests| && Records(requested, requests[..n]) && requests[n].key in requested
    ensures !KeysDiffer(requests)
  {
    var i :| 0 <= i < n && requests[..n][i].key == requests[n].key;
    assert requests[i].key == requests[n].key;
  }

  lemma RecordsNext(requested: Requested, requests: seq<GrantRequest>, request: GrantRequest)
    requires Records(requested, requests) && request.key !in requested && KeysDiffer(requests)
    ensures Records(requested[request.key := request.constraints], requests + [request])
    ensures KeysDiffer(requests + [request])
  {
    var next := requested[request.key := request.constraints];
    forall k | k in next ensures exists i :: 0 <= i < |requests + [request]| && (requests + [request])[i].key == k {
      if k == request.key {
        assert (requests + [request])[|requests|].key == k;
      } else {
        var i :| 0 <= i < |requests| && requests[i].key == k;
        assert (requests + [request])[i].key == k;
      }
    }
  }

  ghost predicate Records(requested: Requested, requests: seq<GrantRequest>) {
    && (forall i :: 0 <= i < |requests| ==>
          requests[i].key in requested && requested[requests[i].key] == requests[i].constraints)
    && (forall k :: k in requested ==> exists i :: 0 <= i < |requests| && requests[i].key == k)
  }

  ghost predicate ValidRequested(requested: Requested) {
    forall k :: k in requested ==> Proper(k.capability, requested[k])
  }

  /** What the initiator stores as outbound it asks the peer to hold as inbound. */
  function WireOf(t: Tokens, key: GrantKey, c: GrantConstraints): WireGrant {
    WireGrant(t.token(key.capability),
              if key.direction == Outbound then WireInbound else WireOutbound,
              EncodeConstraints(c))
  }

  // ---- The response ----

  function LocalDirection(d: WireDirection): Option<GrantDirection> {
    match d
    case WireInbound => Some(Outbound)
    case WireOutbound => Some(Inbound)
    case WireUnknown(_) => None
  }

  function LocalKey(t: Tokens, w: WireGrant): Option<GrantKey> {
    match (t.parse(w.capability), LocalDirection(w.direction))
    case (Some(capability), Some(direction)) => Some(GrantKey(capability, direction))
    case _ => None
  }

  /** The wire grant names a requested key and carries its constraints unchanged. */
  predicate Echoes(t: Tokens, requested: Requested, w: WireGrant) {
    && LocalKey(t, w).Some?
    && LocalKey(t, w).value in requested
    && DecodeConstraints(w.constraints) == Ok(requested[LocalKey(t, w).value])
  }

  ghost predicate Acceptable(t: Tokens, requested: Requested, granted: seq<WireGrant>) {
    && (forall i :: 0 <= i < |granted| ==> Echoes(t, requested, granted[i]))
    && (forall i, j :: 0 <= i < j < |granted| ==> LocalKey(t, granted[i]) != LocalKey(t, granted[j]))
  }

  /** Accepts exactly an affirmative response from the expected peer whose grants
      are distinct, requested and constrained as requested, and returns those grants. */
  method AcceptResponse(t: Tokens, peer: DeviceId, requested: Requested, response: PairingResponse, now: int)
    returns (result: Result<seq<Grant>, PairingError>)
    ensures result.Ok? <==>
              && response.result == Some(WireResult(true, peer))
              && Acceptable(t, requested, response.granted)
    ensures result.Ok? ==> |result.value| == |response.granted|
    ensures result.Ok? ==> forall i :: 0 <= i < |result.value| ==>
              result.value[i] == Grant(peer, LocalKey(t, response.granted[i]).value,
                                       requested[LocalKey(t, response.granted[i]).value], now)
  {
    if response.result.None? {
      return Err(ProtocolViolation);
    }
    if !response.result.value.paired || response.result.value.peer != peer {
      return Err(Rejected);
    }
    var granted: seq<Grant> := [];
    var seen: set<GrantKey> := {};
    for n := 0 to |response.granted|
      invariant |granted| == n
      invariant Acceptable(t, requested, response.granted[..n])
      invariant forall k :: k in seen <==> exists i :: 0 <= i < n && LocalKey(t, response.granted[i]) == Some(k)
      invariant forall i :: 0 <= i < n ==>
                  granted[i] == Grant(peer, LocalKey(t, response.granted[i]).value,
                                      requested[LocalKey(t, response.granted[i]).value], now)
    {
      var wire := response.granted[n];
      assert response.granted[..n + 1] == response.granted[..n] + [wire];
      var capability := t.parse(wire.capability);
      if capability.None? {
        return Err(ProtocolViolation);
      }
      var direction := LocalDirection(wire.direction);
      if direction.None? {
        return Err(ProtocolViolation);
      }
      var key := GrantKey(capability.value, direction.value);
      if key in seen {
        return Err(ProtocolViolation);
      }
      seen := seen + {key};
      if key !in requested {
        return Err(ProtocolViolation);
      }
      var constraints := DecodeConstraints(wire.constraints);
      if constraints.Err? || constraints.value != requested[key] {
        return Err(ProtocolViolation);
      }
      granted := granted + [Grant(peer, key, constraints.value, now)];
    }
    assert response.granted[..|response.granted|] == response.granted;
    return Ok(granted);
  }

  /** The wire grants a responder echoes for the keys it approves. */
  function EchoOf(t: Tokens, requested: Requested, keys: seq<GrantKey>): (wire: seq<WireGrant>)
    requires forall i :: 0 <= i < |keys| ==> keys[i] in requested
    ensures |wire| == |keys|
  {
    seq(|keys|, i requires 0 <= i < |keys| => WireOf(t, keys[i], requested[keys[i]]))
  }

  /** Any selection of the requested grants, echoed in any order, is acceptable and
      comes back under the initiator's own keys: direction inversion and constraint
      encoding cancel out. */
  lemma {:induction false} EchoIsAcceptable(t: Tokens, requested: Requested, keys: seq<GrantKey>)
    requires RoundTrips(t) && ValidRequested(requested)
    requires NoDuplicates(keys) && forall i :: 0 <= i < |keys| ==> keys[i] in requested
    ensures Acceptable(t, requested, EchoOf(t, requested, keys))
    ensures forall i :: 0 <= i < |keys| ==> LocalKey(t, EchoOf(t, requested, keys)[i]) == Some(keys[i])
  {
    var wire := EchoOf(t, requested, keys);
    forall i | 0 <= i < |keys| ensures LocalKey(t, wire[i]) == Some(keys[i]) && Echoes(t, requested, wire[i]) {
      assert wire[i] == WireOf(t, keys[i], requested[keys[i]]);
      ConstraintsRoundTrip(requested[keys[i]]);
    }
  }

  /** Directions are the responder's on the wire: what the initiator holds as outbound
      travels as inbound and the reverse, in the request and in the response. */
  lemma DirectionsInvert(t: Tokens, key: GrantKey, c: GrantConstraints, w: WireGrant)
    requires LocalKey(t, w).Some?
    ensures WireOf(t, key, c).direction == WireInbound <==> key.direction == Outbound
    ensures WireOf(t, key, c).direction == WireOutbound <==> key.direction == Inbound
    ensures w.direction == WireInbound <==> LocalKey(t, w).value.direction == Outbound
    ensures w.direction == WireOutbound <==> LocalKey(t, w).value.direction == Inbound
  {
  }

  // ---- Storing the grants ----

  ghost predicate AllValid(grants: seq<Grant>) {
    forall i :: 0 <= i < |grants| ==> Proper(grants[i].key.capability, grants[i].constraints)
  }

  lemma AllValidExactly(grants: seq<Grant>)
    ensures AllValid(grants) <==>
              forall i :: 0 <= i < |grants| ==> ValidLocalRequest(grants[i].key.capability, grants[i].constraints)
  {
    forall i | 0 <= i < |grants|
      ensures ValidLocalRequest(grants[i].key.capability, grants[i].constraints)
              <==> Proper(grants[i].key.capability, grants[i].constraints)
    {
      ValidIsProper(grants[i].key.capability, grants[i].constraints);
    }
  }

  /** Accepted grants pass the validation repeated before they are stored. */
  lemma AcceptedGrantsRevalidate(requested: Requested, grants: seq<Grant>)
    requires ValidRequested(requested)
    requires forall i :: 0 <= i < |grants| ==>
               grants[i].key in requested && grants[i].constraints == requested[grants[i].key]
    ensures AllValid(grants)
  {
  }

  datatype RowKey = RowKey(peer: DeviceId, key: GrantKey)

  type GrantTable = map<RowKey, Grant>

  /** Row keys agree with the rows they index. */
  ghost predicate TableOk(table: GrantTable) {
    forall k :: k in table ==> table[k].peer == k.peer && table[k].key == k.key
  }

  /** The rows of every other peer are unchanged. */
  ghost predicate SameElsewhere(before: GrantTable, after: GrantTable, peer: DeviceId) {
    forall k: RowKey :: k.peer != peer ==> (k in after <==> k in before) && (k in before ==> after[k] == before[k])
  }

  /** The rows of `peer` are exactly the listed grants. */
  ghost predicate RowsAre(table: GrantTable, peer: DeviceId, list: seq<Grant>) {
    && (forall k: RowKey :: k.peer == peer && k in table ==> table[k] in list)
    && (forall i :: 0 <= i < |list| ==>
          RowKey(peer, list[i].key) in table && table[RowKey(peer, list[i].key)] == list[i])
  }

  ghost predicate OneGrantPerKey(list: seq<Grant>) {
    forall i, j :: 0 <= i < j < |list| ==> list[i].key != list[j].key
  }

  lemma RowsAreNext(table: GrantTable, peer: DeviceId, list: seq<Grant>, grant: Grant)
    requires RowsAre(table, peer, list) && OneGrantPerKey(list) && RowKey(peer, grant.key) !in table
    ensures RowsAre(table[RowKey(peer, grant.key) := grant], peer, list + [grant])
    ensures OneGrantPerKey(list + [grant])
  {
  }

  lemma RepeatedRow(table: GrantTable, peer: DeviceId, list: seq<Grant>, n: nat)
    requires n < |list| && TableOk(table) && RowsAre(table, peer, list[..n])
    requires RowKey(peer, list[n].key) in table
    ensures !OneGrantPerKey(list)
  {
    var i :| 0 <= i < n && list[..n][i] == table[RowKey(peer, list[n].key)];
    assert list[i].key == list[n].key;
  }

  /** The last grant in the list for a key, if any. */
  function LatestFor(grants: seq<Grant>, key: GrantKey): Option<Grant> {
    if grants == [] then None
    else if Last(grants).key == key then Some(Last(grants))
    else LatestFor(Before(grants), key)
  }

  /** It is the one at the greatest position with the key. */
  lemma {:induction false} LatestForIsLast(grants: seq<Grant>, key: GrantKey)
    ensures LatestFor(grants, key).None? <==> forall i :: 0 <= i < |grants| ==> grants[i].key != key
    ensures LatestFor(grants, key).Some? ==>
              exists i :: 0 <= i < |grants| && grants[i] == LatestFor(grants, key).value && grants[i].key == key
                          && forall j :: i < j < |grants| ==> grants[j].key != key
  {
    if grants != [] {
      var prefix := Before(grants);
      LatestForIsLast(prefix, key);
      assert forall i :: 0 <= i < |prefix| ==> grants[i] == prefix[i];
      if Last(grants).key == key {
        assert grants[|grants| - 1] == LatestFor(grants, key).value;
      } else if LatestFor(prefix, key).Some? {
        var i :| 0 <= i < |prefix| && prefix[i] == LatestFor(prefix, key).value && prefix[i].key == key
                 && forall j :: i < j < |prefix| ==> prefix[j].key != key;
        assert grants[i] == LatestFor(grants, key).value;
      }
    }
  }

  /** A confirmation that read the peer's grants in table `read` and saved into `before`:
      the peer's rows become those it read, overridden by the accepted grants per
      (capability, direction); no other peer's row changes. */
  ghost predicate SavedFrom(read: GrantTable, before: GrantTable, after: GrantTable, peer: DeviceId,
                            accepted: seq<Grant>) {
    forall k: RowKey ::
      if k.peer == peer && LatestFor(accepted, k.key).Some?
      then k in after && after[k] == LatestFor(accepted, k.key).value
      else SameRow(if k.peer == peer then read else before, after, k)
  }

  predicate SameRow(one: GrantTable, other: GrantTable, k: RowKey) {
    (k in one <==> k in other) && (k in one ==> other[k] == one[k])
  }

  /** The stored grants of `peer` become the existing ones overridden by the new
      ones per (capability, direction); nothing else in the table changes. */
  ghost predicate Merged(before: GrantTable, after: GrantTable, peer: DeviceId, accepted: seq<Grant>) {
    SavedFrom(before, before, after, peer, accepted)
  }

  /** No grant of the peer other than the accepted ones differs between reading and saving. */
  ghost predicate Untouched(read: GrantTable, before: GrantTable, peer: DeviceId, accepted: seq<Grant>) {
    forall k: RowKey :: k.peer == peer && LatestFor(accepted, k.key).None? ==> SameRow(read, before, k)
  }

  /** Reading and saving are two steps. The result is the promised merge into the table it
      is saved to exactly when no other grant of the peer changed in between. */
  lemma MergeExactlyWhenUntouched(read: GrantTable, before: GrantTable, after: GrantTable, peer: DeviceId,
                                  accepted: seq<Grant>)
    requires SavedFrom(read, before, after, peer, accepted)
    ensures Merged(before, after, peer, accepted) <==> Untouched(read, before, peer, accepted)
  {
    if Merged(before, after, peer, accepted) {
      forall k: RowKey | k.peer == peer && LatestFor(accepted, k.key).None? ensures SameRow(read, before, k) {
        assert SameRow(read, after, k) && SameRow(before, after, k);
      }
    }
    if Untouched(read, before, peer, accepted) {
      forall k: RowKey | !(k.peer == peer && LatestFor(accepted, k.key).Some?) ensures SameRow(before, after, k) {
        assert SameRow(if k.peer == peer then read else before, after, k);
      }
    }
  }

  /** Every stored grant carries only what a grant may carry. */
  ghost predicate ProperTable(table: GrantTable) {
    forall k :: k in table ==> Proper(k.key.capability, table[k].constraints)
  }

  /** So no confirmation stores a share as writable but under the writing capability. */
  lemma ConfirmationStaysProper(read: GrantTable, before: GrantTable, after: GrantTable, peer: DeviceId,
                                accepted: seq<Grant>)
    requires ProperTable(read) && ProperTable(before) && AllValid(accepted)
    requires SavedFrom(read, before, after, peer, accepted)
    ensures ProperTable(after)
  {
    forall k | k in after ensures Proper(k.key.capability, after[k].constraints) {
      LatestForIsLast(accepted, k.key);
      if !(k.peer == peer && LatestFor(accepted, k.key).Some?) {
        assert SameRow(if k.peer == peer then read else before, after, k);
      }
    }
  }

  /** A new grant saved in between is deleted again. */
  lemma InterleavedGrantIsLost(read: GrantTable, grant: Grant, after: GrantTable, accepted: seq<Grant>)
    requires RowKey(grant.peer, grant.key) !in read && LatestFor(accepted, grant.key).None?
    requires SavedFrom(read, read[RowKey(grant.peer, grant.key) := grant], after, grant.peer, accepted)
    ensures RowKey(grant.peer, grant.key) !in after
  {
    assert SameRow(read, after, RowKey(grant.peer, grant.key));
  }

  /** A grant revoked in between is stored again. */
  lemma InterleavedRevocationIsUndone(read: GrantTable, k: RowKey, after: GrantTable, accepted: seq<Grant>)
    requires k in read && LatestFor(accepted, k.key).None?
    requires SavedFrom(read, read - {k}, after, k.peer, accepted)
    ensures k in after && after[k] == read[k]
  {
    assert SameRow(read, after, k);
  }

  /** The grant table of the trust database. */
  class PeerRepository {
    var peers: set<DeviceId>
    var grants: GrantTable

    constructor ()
      ensures peers == {} && grants == map[]
    {
      peers, grants := {}, map[];
    }

    /** One transaction: record the peer, delete its rows, insert the given ones.
        A foreign grant or a repeated key rolls everything back. */
    method SavePairing(peer: DeviceId, keyMatches: bool, list: seq<Grant>) returns (saved: bool)
      requires TableOk(grants)
      modifies this
      ensures TableOk(grants)
      ensures saved <==> keyMatches && (forall i :: 0 <= i < |list| ==> list[i].peer == peer) && OneGrantPerKey(list)
      ensures !saved ==> peers == old(peers) && grants == old(grants)
      ensures saved ==> peers == old(peers) + {peer}
      ensures saved ==> SameElsewhere(old(grants), grants, peer) && RowsAre(grants, peer, list)
    {
      if !keyMatches || exists i :: 0 <= i < |list| && list[i].peer != peer {
        return false;
      }
      var rows := map k | k in grants && k.peer != peer :: grants[k];
      for n := 0 to |list|
        invariant peers == old(peers) && grants == old(grants)
        invariant TableOk(rows)
        invariant SameElsewhere(old(grants), rows, peer) && RowsAre(rows, peer, list[..n])
        invariant OneGrantPerKey(list[..n])
      {
        var key := RowKey(peer, list[n].key);
        assert list[..n + 1] == list[..n] + [list[n]];
        if key in rows {
          RepeatedRow(rows, peer, list, n);
          return false;
        }
        RowsAreNext(rows, peer, list[..n], list[n]);
        rows := rows[key := list[n]];
      }
      assert list[..|list|] == list;
      peers := peers + {peer};
      grants := rows;
      return true;
    }

    /** The second step of a confirmation: saves what the first one collected from the
        table as it was then, `read`. */
    method SaveCollected(peer: DeviceId, keyMatches: bool, ghost accepted: seq<Grant>, byKey: map<GrantKey, Grant>,
                         ghost read: GrantTable)
      returns (saved: bool)
      requires TableOk(grants) && CollectedFrom(read, peer, accepted, byKey)
      requires forall key :: key in byKey ==> byKey[key].key == key && byKey[key].peer == peer
      modifies this
      ensures TableOk(grants)
      ensures saved <==> keyMatches
      ensures saved ==> peers == old(peers) + {peer} && SavedFrom(read, old(grants), grants, peer, accepted)
      ensures saved ==> (Merged(old(grants), grants, peer, accepted) <==> Untouched(read, old(grants), peer, accepted))
      ensures !saved ==> peers == old(peers) && grants == old(grants)
    {
      var list := Values(peer, byKey);
      ghost var before := grants;
      saved := SavePairing(peer, keyMatches, list);
      if saved {
        SavesWhatWasRead(read, before, grants, peer, accepted, byKey, list);
        MergeExactlyWhenUntouched(read, before, grants, peer, accepted);
      }
    }

    /** A confirmation whose two steps nothing comes between. `pairingSession` is whether
        the session is of the pairing kind. */
    method ConfirmPairing(peer: DeviceId, pairingSession: bool, keyMatches: bool, accepted: seq<Grant>)
      returns (saved: bool)
      requires TableOk(grants)
      modifies this
      ensures TableOk(grants)
      ensures saved <==>
                && pairingSession
                && keyMatches
                && (forall i :: 0 <= i < |accepted| ==> accepted[i].peer == peer)
                && AllValid(accepted)
      ensures saved ==> peers == old(peers) + {peer} && Merged(old(grants), grants, peer, accepted)
      ensures !saved ==> peers == old(peers) && grants == old(grants)
      ensures old(ProperTable(grants)) ==> ProperTable(grants)
    {
      if !pairingSession || exists i :: 0 <= i < |accepted| && accepted[i].peer != peer {
        return false;
      }
      AllValidExactly(accepted);
      if exists i :: 0 <= i < |accepted| && !ValidLocalRequest(accepted[i].key.capability, accepted[i].constraints) {
        return false;
      }
      var byKey := CollectByKey(peer, accepted);
      ghost var before := grants;
      saved := SaveCollected(peer, keyMatches, accepted, byKey, grants);
      if saved && ProperTable(before) {
        ConfirmationStaysProper(before, before, grants, peer, accepted);
      }
    }

    /** Accepting a response and storing what it grants: nothing is stored unless the
        response is acceptable, and then exactly the accepted grants are merged in. */
    method CompletePairing(t: Tokens, peer: DeviceId, requested: Requested, response: PairingResponse,
                           keyMatches: bool, now: int)
      returns (result: Result<seq<Grant>, PairingError>)
      requires TableOk(grants) && ValidRequested(requested)
      modifies this
      ensures TableOk(grants)
      ensures result.Ok? <==> keyMatches && response.result == Some(WireResult(true, peer))
                              && Acceptable(t, requested, response.granted)
      ensures result.Ok? ==> |result.value| == |response.granted| && OneGrantPerKey(result.value)
      ensures result.Ok? ==> forall i :: 0 <= i < |result.value| ==>
                var grant := result.value[i];
                && LocalKey(t, response.granted[i]) == Some(grant.key)
                && grant.key in requested && grant == Grant(peer, grant.key, requested[grant.key], now)
      ensures result.Ok? ==> peers == old(peers) + {peer} && Merged(old(grants), grants, peer, result.value)
      ensures result.Err? ==> peers == old(peers) && grants == old(grants)
      ensures old(ProperTable(grants)) ==> ProperTable(grants)
    {
      result := AcceptResponse(t, peer, requested, response, now);
      if result.Ok? {
        AcceptedGrantsRevalidate(requested, result.value);
        var saved := ConfirmPairing(peer, true, keyMatches, result.value);
        if !saved {
          result := Err(ProtocolViolation);
        }
      }
    }

    /** From request to stored grants: when the responder echoes any selection `keys` of
        what was asked, the pairing succeeds exactly if the request is well formed and the
        peer's key checks out, and then precisely the selected grants, with the constraints
        asked for, are merged into the store. */
    method PairWithEcho(t: Tokens, peer: DeviceId, requests: seq<GrantRequest>, keys: seq<GrantKey>,
                        keyMatches: bool, now: int)
      returns (result: Result<seq<Grant>, PairingError>)
      requires TableOk(grants) && RoundTrips(t) && NoDuplicates(keys)
      requires forall i :: 0 <= i < |keys| ==> Asks(requests, keys[i])
      modifies this
      ensures TableOk(grants)
      ensures result.Ok? <==> keyMatches && EachValid(requests) && KeysDiffer(requests) && |requests| <= 64
      ensures result.Ok? ==> |result.value| == |keys| && forall i :: 0 <= i < |keys| ==> result.value[i].key == keys[i]
      ensures result.Ok? ==> forall i :: 0 <= i < |result.value| ==>
                Selects(requests, result.value[i]) && result.value[i].peer == peer && result.value[i].grantedAt == now
      ensures result.Ok? ==> peers == old(peers) + {peer} && Merged(old(grants), grants, peer, result.value)
      ensures result.Err? ==> peers == old(peers) && grants == old(grants)
      ensures old(ProperTable(grants)) ==> ProperTable(grants)
    {
      var collected := CollectRequests(requests);
      if collected.Err? {
        return Err(collected.error);
      }
      var requested := collected.value;
      KeysAreRequested(requested, requests, keys);
      EchoIsAcceptable(t, requested, keys);
      var response := PairingResponse(Some(WireResult(true, peer)), EchoOf(t, requested, keys));
      result := CompletePairing(t, peer, requested, response, keyMatches, now);
      if result.Ok? {
        SelectionIsRequested(requested, requests, result.value);
      }
    }

    /** Existing rows first, then the new grants: a later grant takes the key over. */
    method CollectByKey(peer: DeviceId, accepted: seq<Grant>) returns (byKey: map<GrantKey, Grant>)
      requires TableOk(grants)
      requires forall i :: 0 <= i < |accepted| ==> accepted[i].peer == peer
      ensures CollectedFrom(grants, peer, accepted, byKey)
      ensures forall key :: key in byKey ==> byKey[key].key == key && byKey[key].peer == peer
    {
      byKey := map key | key in (set k | k in grants && k.peer == peer :: k.key) :: grants[RowKey(peer, key)];
      for n := 0 to |accepted|
        invariant CollectedFrom(grants, peer, accepted[..n], byKey)
        invariant forall key :: key in byKey ==> byKey[key].key == key && byKey[key].peer == peer
      {
        assert Before(accepted[..n + 1]) == accepted[..n] && Last(accepted[..n + 1]) == accepted[n];
        byKey := byKey[accepted[n].key := accepted[n]];
      }
      assert accepted[..|accepted|] == accepted;
    }
  }

  ghost predicate CollectedFrom(table: GrantTable, peer: DeviceId, accepted: seq<Grant>, byKey: map<GrantKey, Grant>) {
    forall key: GrantKey ::
      if LatestFor(accepted, key).Some? then key in byKey && byKey[key] == LatestFor(accepted, key).value
      else (key in byKey <==> RowKey(peer, key) in table) && (key in byKey ==> byKey[key] == table[RowKey(peer, key)])
  }

  /** The values of the map, each once, in some order. */
  method Values(peer: DeviceId, byKey: map<GrantKey, Grant>) returns (list: seq<Grant>)
    requires forall key :: key in byKey ==> byKey[key].key == key && byKey[key].peer == peer
    ensures forall i :: 0 <= i < |list| ==>
              list[i].peer == peer && list[i].key in byKey && byKey[list[i].key] == list[i]
    ensures OneGrantPerKey(list)
    ensures forall key :: key in byKey ==> byKey[key] in list
  {
    list := [];
    var todo := byKey.Keys;
    while todo != {}
      invariant todo <= byKey.Keys
      invariant forall i :: 0 <= i < |list| ==>
                  list[i].peer == peer && list[i].key in byKey.Keys - todo && byKey[list[i].key] == list[i]
      invariant OneGrantPerKey(list)
      invariant forall key :: key in byKey.Keys - todo ==> byKey[key] in list
      decreases todo
    {
      var key :| key in todo;
      list := list + [byKey[key]];
      todo := todo - {key};
    }
  }

  lemma SavesWhatWasRead(read: GrantTable, before: GrantTable, after: GrantTable, peer: DeviceId,
                         accepted: seq<Grant>, byKey: map<GrantKey, Grant>, list: seq<Grant>)
    requires CollectedFrom(read, peer, accepted, byKey) && TableOk(after)
    requires forall i :: 0 <= i < |list| ==> list[i].key in byKey && byKey[list[i].key] == list[i]
    requires forall key :: key in byKey ==> byKey[key] in list && byKey[key].key == key
    requires SameElsewhere(before, after, peer) && RowsAre(after, peer, list)
    ensures SavedFrom(read, before, after, peer, accepted)
  {
    forall k: RowKey | k.peer == peer
      ensures (k in after <==> k.key in byKey) && (k in after ==> after[k] == byKey[k.key])
    {
      if k.key in byKey {
        assert byKey[k.key] in list;
      }
    }
    forall k: RowKey | k.peer == peer && LatestFor(accepted, k.key).None? ensures SameRow(read, after, k) {
      assert k == RowKey(peer, k.key);
    }
  }

  /** The grant is one of those asked for, with the constraints asked for. */
  ghost predicate Selects(requests: seq<GrantRequest>, grant: Grant) {
    GrantRequest(grant.key, grant.constraints) in requests
  }

  ghost predicate Asks(requests: seq<GrantRequest>, key: GrantKey) {
    exists j :: 0 <= j < |requests| && requests[j].key == key
  }

  lemma KeysAreRequested(requested: Requested, requests: seq<GrantRequest>, keys: seq<GrantKey>)
    requires Records(requested, requests)
    requires forall i :: 0 <= i < |keys| ==> Asks(requests, keys[i])
    ensures forall i :: 0 <= i < |keys| ==> keys[i] in requested
  {
    forall i | 0 <= i < |keys| ensures keys[i] in requested {
      assert Asks(requests, keys[i]);
      var j :| 0 <= j < |requests| && requests[j].key == keys[i];
    }
  }

  lemma SelectionIsRequested(requested: Requested, requests: seq<GrantRequest>, granted: seq<Grant>)
    requires Records(requested, requests)
    requires forall i :: 0 <= i < |granted| ==>
               granted[i].key in requested && granted[i].constraints == requested[granted[i].key]
    ensures forall i :: 0 <= i < |granted| ==> Selects(requests, granted[i])
  {
    forall i | 0 <= i < |granted| ensures Selects(requests, granted[i]) {
      var j :| 0 <= j < |requests| && requests[j].key == granted[i].key;
      assert requests[j] == GrantRequest(granted[i].key, granted[i].constraints);
    }
  }
}
