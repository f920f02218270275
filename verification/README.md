# A verified model of the ArcRelay network runtime

This Dafny project models the parts of the ArcRelay LAN runtime whose correctness
depends on many operations at once, and proves what holds of them in every run:

- **The live-session registry** (`registry.dfy`, `registry_runs.dfy`): one entry per
  (peer, kind), with process restarts, retired instances, arbitration between
  competing sessions, authorization teardown and relay close watchers.
- **Arbitration** (`arbitration.dfy`), **opposing dials** between two devices
  (`opposing_dials.dfy`) and the **dial gates** of one device (`dial_gate.dfy`).
- **The endpoint race** (`dial_candidates.dfy`, `dial_race.dfy`, `dial_race_retry.dfy`,
  `dial_race_progress.dfy`): candidate list, semaphores, guards, joining loop and retry
  decision as a system of steps.
- **The handshake** (`handshake.dfy`): version negotiation, the signed transcript and
  the agreement of both ends.
- **Pairing grants** (`pairing.dfy`): request, response, constraint round trip and the
  transactional merge into the stored grants.
- **Remembered endpoints** (`endpoint_store.dfy`, `endpoint_agreement.dfy`,
  `endpoint_history.dfy`, `endpoint_backoff.dfy`): the in-memory store as an LRU, its
  agreement with the SQL table, what an endpoint carries, and its backoff after failures.
- **The probe limiter** (`probe_limiter.dfy`) and **discovery** (`discovery.dfy`,
  `discovery_history.dfy`).

State that the source mutates is a class whose methods are proved against functions
on values (`NetworkRuntime`, `PeerRepository`, `InMemoryEndpointRepository`, `Limiter`,
`DiscoveryService`); the properties of runs are lemmas about those functions. A run is a
sequence of events, and every lemma about runs holds for all of them: any number of
sessions, peers, candidates or probes, in any interleaving.

`dafny verify dfyconfig.toml` checks the whole project.

## Conventions

- A QUIC connection is an identity with an open/closed flag and a stable id. Every session
  owns one connection, so a session value also names its connection; a stable id may be
  given to a new connection once no session object, registry entry or watcher refers to
  the old one. A weak handle upgrades until its session is in the `dropped` set, and
  neither closing nor dropping is undone.
- Dropping the last owner of a relay tunnel closes the relayed connection at once. A direct
  connection that nothing refers to any more is closed by the transport, as a later event.
- Device ids, instance ids, nonces, names and discovery addresses are integers: only
  equality and order are used. A 32-byte nonce compares like its big-endian value.
- Clocks, store answers, timeouts, the global handshake gate and the peer's moves are
  parameters or nondeterministic events. Message encoding, the digest, capability tokens
  and the TLS exporter are parameters.
- A grant, revocation or forgetting is one event, at the moment of its teardown; a session
  registered between the store's change and the teardown is torn down with the rest.
- String lengths in grant constraints count characters.

## Findings

- `forget` is documented to leave no stale authority in memory. A registered session can
  outlive its peer's record in exactly three ways (`StaleSessionsHaveThreeCauses`): the
  endpoint store fails after the record is gone, so that the teardown is skipped
  (`ForgottenPeerKeepsSession`, exact in `ForgetLeavesNoSession`); the caller drops the call
  before it reaches the registry (`DroppedForgetKeepsSession`); or the session completed its
  handshake before and registers only after the teardown (`ForgetMissesUnregisteredSession`).
- `register_session` never checks that the incoming session is open, so a dead session
  can displace a live one: `LateReconnectLosesLiveSession`, exact condition in
  `DeadSessionDisplacesLive`.
- Dial gates and candidate selection are said to prevent concurrent same-initiator
  duplicates. The gates do so exactly for direct dials (`GatesPreventDuplicatesExactly`):
  relayed dials take no gate, so a relayed dial can close a live direct session of the same
  device as well as the reverse (`RelayDisplaces`). Only realtime input is affected
  (`DialsDoNotDisplaceEachOther`). Arbitration alone would not help
  (`SameInitiatorConvergesIffSameOrder`). Candidate selection holds in every race, except
  that a race its caller abandons can confirm a second session once the first is given up
  (`AtMostOneSession`, `AbandonedRaceCanYieldTwice`).
- A guard is said to close every unselected or cancelled candidate. It is disarmed before the
  race returns, so a caller that drops the dial while the endpoint is being remembered leaves
  the registered connection open without a session (`AbandonedAfterRegistration`);
  `EndedCandidateHoldsNothing` shows that this is the only way.
- A failed dial is recorded under the canonical address, while an address is remembered in
  the form the peer connected from. An endpoint backs off after a failure exactly when its
  address is not IPv4-mapped (`FailedDialBacksOff`, `FailedRowBacksOff`); a mapped one is
  offered for every dial (`MappedIsAlwaysOffered`).
- The in-memory endpoint list can lose the endpoint it is recording when the clock ties or
  steps back: `TieLosesNewcomer`, exact condition over all runs in `NewcomerIsKept`.
- The SQL endpoint table is keyed by the textual address, which has no flow label. The two
  stores agree exactly when no recorded address carries one (`TwoStoresAgree`,
  `FlowLabelsShareRow`). The runtime records addresses it builds from an ip and a port
  (src/runtime.rs:972-979), which never do.
- A timestamp-only refresh is not emitted by discovery but can change which source wins, on
  either side: `StaleExactlyWhenOvertaken` says exactly when subscribers stop seeing what a
  fresh emission would publish, and `StaleRun` gives runs for both sides.
- Confirming a pairing reads the stored grants and saves the merge in two steps. A grant
  saved in between is lost and a revocation undone (`InterleavedGrantIsLost`,
  `InterleavedRevocationIsUndone`); the promised merge holds exactly when neither happens
  (`MergeExactlyWhenUntouched`).

## Model

| member | source | states |
|---|---|---|
| `SessionRegistry.NetworkRuntime.RegisterSession` | src/runtime.rs:1462-1564 | the registration with its early returns, bounded retired queue and in-place closing does what the verdict-based specification `Register` and `RegisterResult` say, on every registry |
| `SessionRegistry.NetworkRuntime.Active` | src/runtime.rs:1044-1054 | returns the entry's session exactly when it is open and its handle upgrades, and otherwise removes the entry with its retired list |
| `SessionRegistry.NetworkRuntime.DisconnectPeer` | src/runtime.rs:770-784 | removes and closes every entry of the peer and no other, and counts them |
| `SessionRegistry.NetworkRuntime.RemoveAll` | src/runtime.rs:757-766 | removing keys one by one, in any order, closes exactly their connections |
| `SessionRegistry.NetworkRuntime.Forget` | src/runtime.rs:748-768 | the peer record goes as soon as its store answers, with its endpoints if the stores share a database; otherwise the endpoints, and in any case the sessions of the peer, go only if the endpoint store answers; the result says whether a record existed |
| `SessionRegistry.NetworkRuntime.ForgetRecords` | src/runtime.rs:749-754 | the part of `forget` before the registry, which a dropped call leaves as it is: records and endpoints change, sessions and connections do not |
| `SessionRegistry.NetworkRuntime.Grant` | src/runtime.rs:914-943 | a saved cross-screen grant tears down only realtime input, any other saved grant every session of the peer, a failed one nothing |
| `SessionRegistry.NetworkRuntime.Revoke` | src/runtime.rs:945-963 | only a revocation that removed a grant disconnects the peer |
| `RegistryRuns.ReachableWellFormed` | src/runtime.rs:1465-1502 | in every run entries sit under their own key with a retired list of at most 32 distinct instances that excludes the current one |
| `RegistryRuns.StableIdsAreUnique` | src/runtime/relay.rs:111-125 | in every run connections that a session object, an entry or a watcher refers to have distinct stable ids |
| `RegistryRuns.RegistrationAnswers` | src/runtime.rs:1475-1479 | the session handed back is registered and upgradable; if it is not the incoming one it is open and the incoming one closed; an error means there is no live session to offer |
| `RegistryRuns.RegistrationByProcess` | src/runtime.rs:1468-1502 | by process ids alone: a retired process changes no entry and is closed; a process that differs from the registered one takes the key whatever the ranks, paths and handles, closing the old connection and retiring the old process among the last 32; otherwise the retired list stays |
| `RegistryRuns.RegistrationWithinProcess` | src/runtime.rs:1503-1549 | within one process the incoming session takes the key exactly if the current one is gone or closed, has the same initiator, or loses by path and then by initiator; otherwise only the incoming one is closed |
| `RegistryRuns.ReplacedConnectionCloses` | src/runtime.rs:1494-1549 | a registration closes the open connection it replaces exactly when the handle upgrades, the process was replaced or the path was a relay |
| `RegistryRuns.ReleasedRelayIsClosed` | src/runtime/relay.rs:13-18 | in every run a relayed session that neither a handle nor an entry refers to is closed |
| `RegistryRuns.ClosedForAReason` | src/runtime.rs:770-784 | a connection is closed only if it was lost, refused, replaced or torn down, or was relayed with nothing left to hold its tunnel |
| `RegistryRuns.DeadSessionDisplacesLive` | src/runtime.rs:1503-1549 | registering a closed session spares the live one exactly when the closed one is retired or loses arbitration |
| `RegistryRuns.LateReconnectLosesLiveSession` | src/runtime.rs:1512-1549 | a run in which a closed session of the same initiator displaces the live one |
| `RegistryRuns.LiveImpliesRegisteredEntry` | src/runtime.rs:1462-1564 | in every run a held, open session that went through registration is the registered one |
| `RegistryRuns.SingleLiveSession` | src/runtime.rs:1462-1564 | in every run at most one held session per (peer, kind) that went through registration is open, and the registry holds it |
| `RegistryRuns.RetiredStep` | src/runtime.rs:1490-1493 | one event changes a surviving retired list only by recording the displaced instance |
| `RegistryRuns.RetiredRefinesHistory` | src/runtime.rs:1465-1502 | the retired list is exactly the last 32 instances displaced since the entry was created, without duplicates and without the current one |
| `RegistryRuns.DisplacedInstanceIsRefused` | src/runtime.rs:1468-1480 | a displaced instance is refused by every registration through the next 31 displacements, and its session is closed |
| `RegistryRuns.AuthorizationEpoch` | src/runtime.rs:922-963 | every registered session was registered after the last completed grant, revocation or forgetting that concerns its peer and kind, and has been held without interruption since |
| `RegistryRuns.TeardownIsConfined` | src/runtime.rs:925-963 | after any run a grant, revocation or forgetting, complete or dropped, removes exactly the entries it concerns, and closes exactly their connections and no other, registered or not |
| `RegistryRuns.LookupLeavesLive` | src/runtime.rs:1044-1054 | after any run a lookup leaves the entry of its key exactly if that session is open and held, and every other entry |
| `RegistryRuns.DisconnectIsConfined` | src/runtime.rs:770-784 | after any run disconnecting a peer removes and closes exactly its entries |
| `RegistryRuns.ForgottenPeerKeepsSession` | src/runtime.rs:746-755 | a run that ends with the peer record gone and a session of the peer registered and live |
| `RegistryRuns.DroppedForgetKeepsSession` | src/runtime.rs:749-756 | a run in which a dropped call leaves the record gone and a session registered and live |
| `RegistryRuns.ForgetLeavesNoSession` | src/runtime.rs:748-768 | after any run, once the record is removed no entry of the peer is left exactly when the endpoint store answered or there was none; the same for remembered endpoints, unless deleting the record deletes them too |
| `RegistryRuns.ForgetMissesUnregisteredSession` | src/runtime.rs:1374-1380 | a run in which both stores answer and a session authenticated before registers after the teardown |
| `RegistryRuns.StaleSessionsHaveThreeCauses` | src/runtime.rs:746-768 | in every run a registered session of a kind that needs pairing has lost its peer record exactly when the record was removed for good after the handshake, and before the registration that put the entry there or by a forget that failed or was dropped short of the registry |
| `RegistryRuns.StrangersExactly` | src/runtime.rs:1374-1380 | a device without a record gets a session registered exactly for pairing, file transfer and discovery probes |
| `RegistryRuns.WatcherIsSafe` | src/runtime/relay.rs:116-129 | although a watcher compares stable ids only, in every run it removes its own closed entry or nothing, never a successor's |
| `RegistryRuns.RelayedEntriesAreWatched` | src/runtime/relay.rs:109-116 | in every run each relayed entry has a watcher that has not fired |
| `RegistryRuns.QuiescentRelaysAreOpen` | src/runtime/relay.rs:104-135 | once no watcher is due, no relayed entry refers to a closed connection |
| `Arbitration.ArbitrationIsLexicographic` | src/runtime.rs:1512-1520 | the nested path, initiator and rank tests are one comparison of (relayed, initiator); the nonce never decides |
| `Arbitration.SurvivorIsLastBest` | src/runtime.rs:1512-1562 | over any sequence of open, held sessions of one process, each initiator using one kind of path, the survivor is the last registered of the best (relayed, initiator); every other is closed |
| `Arbitration.ArrivalOrderIsIrrelevant` | src/runtime.rs:1507-1531 | with distinct initiators every arrival order leaves the same registry |
| `Arbitration.MixedPathsDependOnOrder` | src/runtime.rs:1513-1516 | an initiator that mixes direct and relayed paths makes the outcome depend on order |
| `OpposingDials.OpposingDialsConverge` | src/runtime.rs:1503-1549 | in every interleaving on two devices the smaller-id device's direct connection is never closed at either end against any number of opposing direct or relayed sessions; an end that registered it holds it for good and has closed the opposing ones |
| `OpposingDials.EndsAgree` | src/runtime.rs:1503-1549 | the invariant each end keeps through every move of either device |
| `OpposingDials.SameInitiatorConvergesIffSameOrder` | src/runtime.rs:1507-1512 | two connections of one initiator leave both ends with the same open one exactly when both ends registered them in the same order |
| `DialGate.GatesHold` | src/runtime.rs:1056-1065 | in every run a key being dialled holds no live session this device dialled directly |
| `DialGate.OwnDialsMeetOnlyThroughRelays` | src/runtime.rs:1507-1516 | in every gate run two live sessions dialled by this device meet at one key only if one is relayed and the key carries realtime input; the earlier one is closed unless the later one's process is retired |
| `DialGate.DialsDoNotDisplaceEachOther` | src/runtime.rs:354-375 | in every gate run a live session this device dialled survives its other registrations, for every kind but realtime input and for direct dials of that kind |
| `DialGate.GatesPreventDuplicatesExactly` | src/runtime.rs:1507-1511 | of two sessions this device dials to one peer process, some run lets the later close the live earlier one if and only if one of them is relayed |
| `DialGate.RelayDisplaces` | src/runtime/relay.rs:30-56 | a run for every mix with a relay: relay closes live direct, direct closes live relay, relay closes live relay |
| `DialCandidates.MappedFormsCoincide` | src/runtime/dial.rs:263-272 | a version 4 address and its mapped form have one canonical form, whatever scope or flow label |
| `DialCandidates.CanonicalExactly` | src/runtime/dial.rs:263-272 | the canonical form changes exactly the addresses ::ffff:a.b.c.d, into the version 4 address in their last 32 bits |
| `DialCandidates.SharedSlot` | src/runtime/dial.rs:263-272 | two addresses take one dial slot exactly when equal or denoting the same version 4 endpoint |
| `DialCandidates.CandidateList` | src/runtime/dial.rs:98-109 | the loop with its early break computes the first 16 distinct canonical addresses in order of first occurrence |
| `Collections.DistinctInFirstOccurrenceOrder` | src/runtime/dial.rs:99-108 | the distinct addresses come in the order of their first occurrences |
| `DialCandidates.DecideRetry` | src/runtime/dial.rs:195-259 | the retry flag depends only on the set of failures: some path timed out and none failed authentication |
| `DialRace.ReachableInvariant` | src/runtime/dial.rs:121-216 | in every schedule permits, connections, phases, loop state and failure flags fit together |
| `DialRace.RaceIsExclusive` | src/runtime/dial.rs:121-150 | in every schedule at most 3 candidates are in handshake and at most one holds the selection from confirmation onward |
| `DialRace.ThreeHandshakesAtOnce` | src/runtime/dial.rs:121-121 | a schedule with three candidates in handshake together |
| `DialRace.ReturnedRaceClosesLosers` | src/runtime/dial.rs:18-27 | when the race returns, only the returned session's connection may be up, and all capacity is back |
| `DialRace.EndedCandidateHoldsNothing` | src/runtime/dial.rs:18-27 | in every schedule a candidate that failed or was given up holds no permit, and its connection is open if and only if the caller abandoned the race after its session had been registered and the peer has not closed it |
| `DialRace.AbandonedAfterRegistration` | src/runtime/dial.rs:206-211 | a schedule that leaves a registered connection open with its session given up |
| `DialRace.ConfirmedKeepsSelection` | src/runtime.rs:1381-1392 | in every schedule a candidate that yielded a session keeps the selection until the race returns with it, or until the caller has abandoned the race and the session is given up |
| `DialRace.AtMostOneSession` | src/runtime.rs:1381-1392 | in every schedule two candidates both confirm only if the race was abandoned and the first session given up before the second candidate took the selection |
| `DialRace.UndisturbedRaceYieldsOnce` | src/runtime.rs:1381-1392 | a race that is not abandoned yields at most one session |
| `DialRace.AbandonedRaceCanYieldTwice` | src/runtime/dial.rs:121-199 | a schedule of an abandoned race in which both of two candidates confirm |
| `DialRace.RetryIgnoresCompletionOrder` | src/runtime/dial.rs:199-259 | two failed races with the same causes decide alike about a retry, whatever the order of completion |
| `DialRaceRetry.FailureFits` | src/runtime/dial.rs:138-176 | in every schedule a failure counts as a timed-out path exactly if it is a timeout after the handshake started and before the connection, and as a failed authentication exactly after the connection |
| `DialRaceRetry.RetryByWhatHappened` | src/runtime/dial.rs:199-259 | a race that failed everywhere asks for a fresh path if and only if some candidate timed out between starting its handshake and being connected, and none failed after it was connected |
| `DialRaceRetry.RaceEndpoints` | src/runtime/dial.rs:30-60 | given the outcomes of two returned races, the second counts exactly if the first failed everywhere with such a timeout and no such failure, for a retryable kind and with a fresh endpoint; a refused registration is final; no loser's connection is up |
| `DialRaceProgress.ScheduleIsBounded` | src/runtime/dial.rs:121-216 | every schedule over n candidates has at most 20n + 5 events, so every race is finite |
| `DialRaceProgress.RaceCanGoOn` | src/runtime/dial.rs:121-216 | no deadlock: with its semaphores in any reachable state, a race that has neither returned nor been abandoned can go on without a failure or a cancellation |
| `DialRaceProgress.RaceCanReturn` | src/runtime/dial.rs:197-259 | from every reachable state that is not cancelled, productive events alone let the race return |
| `DialRaceProgress.StuckRaceHasEnded` | src/runtime/dial.rs:197-259 | a schedule that cannot be extended has returned or been cancelled |
| `Handshake.NegotiateMinor` | src/runtime/protocol.rs:65-74 | the result is the highest minor both sides speak, and absent only if there is none |
| `Handshake.RangeChecksExactly` | src/runtime/protocol.rs:16-27 | a hello passes the checks exactly if its major version is this build's, some minor is spoken by both, and nonce, digest and names keep to their lengths |
| `Handshake.CheckedHelloNegotiates` | src/runtime/protocol.rs:12-27 | a hello that passes the range checks always negotiates with a local hello, with the same result at both ends |
| `Handshake.BigEndianRoundTrip` | src/runtime/protocol.rs:115-115 | decoding the length bytes gives the length back |
| `Handshake.FrameLayout` | src/runtime/protocol.rs:107-118 | a frame is eight bytes holding the length, most significant first, and the message |
| `Handshake.UnframeUndoesFramed` | src/runtime/protocol.rs:107-118 | reading a framed message returns it and exactly the bytes after it |
| `Handshake.DomainText` | src/runtime/protocol.rs:100-100 | the domain separator is the ASCII text with a NUL |
| `Handshake.SessionTranscript` | src/runtime/protocol.rs:86-105 | fails exactly without an exporter, and otherwise builds the transcript of the two hellos in device-id order |
| `Handshake.TranscriptContents` | src/runtime/protocol.rs:95-104 | behind the domain separator a transcript holds the hello of the smaller device id, the other hello and the keying material |
| `Handshake.TranscriptRoundTrip` | src/runtime/protocol.rs:95-104 | the transcript encoding has an inverse |
| `Handshake.TranscriptInjective` | src/runtime/protocol.rs:86-118 | equal transcripts come from equal first and second hellos and equal exporters |
| `Handshake.TranscriptsAgreeIffMirrored` | src/runtime/protocol.rs:95-99 | two devices sign the same transcript exactly when each received what the other sent on the same channel |
| `Handshake.RankIsInitiators` | src/runtime.rs:1416-1425 | both ends rank the session by the id and nonce of the end that dialled |
| `Handshake.HandshakeAgreement` | src/runtime.rs:1343-1425 | an end that accepts its peer's signature has a matching end at the peer, and both share transcript, verification code, minor version and the rank of the end that dialled, whatever the network did |
| `Handshake.SixDigits` | src/runtime/protocol.rs:120-124 | six decimal digits that denote the number modulo one million |
| `Handshake.CodeShowsDigest` | src/runtime/protocol.rs:120-124 | the code shows the first four bytes of the transcript's digest, most significant first, modulo one million |
| `Handshake.CodesAgreeExactly` | src/runtime/protocol.rs:120-124 | two transcripts show one code if and only if their digests agree in that residue |
| `Pairing.ConstraintsRoundTrip` | src/runtime.rs:1592-1673 | constraints survive encoding and decoding exactly when their share list has at most 128 distinct ids of 1 to 256 characters |
| `Pairing.ValidIsProper` | src/runtime.rs:1609-1638 | local validation accepts exactly no constraints, or a well-formed share list under the reading capability without writing or the writing one with it |
| `Pairing.CollectRequests` | src/runtime.rs:560-582 | accepts exactly at most 64 individually valid requests with distinct keys, records each, and every record is valid under its key |
| `Pairing.AcceptResponse` | src/runtime.rs:626-677 | accepts exactly an affirmative response of the peer whose grants are distinct, requested and constrained as requested, and returns those grants in the initiator's directions |
| `Pairing.DirectionsInvert` | src/runtime.rs:586-595 | what the initiator holds as outbound travels as inbound and the reverse, in request and response |
| `Pairing.EchoIsAcceptable` | src/runtime.rs:584-677 | any selection of the requested grants echoed in any order is accepted under the original keys and constraints |
| `Pairing.AcceptedGrantsRevalidate` | src/runtime.rs:707-709 | accepted grants always pass the validation repeated before storing |
| `Pairing.PeerRepository.SavePairing` | src/repository.rs:246-301 | all or nothing: the peer's rows become exactly the given grants, other peers' rows stay, and a foreign grant or repeated key changes nothing |
| `Pairing.PeerRepository.CollectByKey` | src/runtime.rs:716-722 | collecting existing and then new grants by key lets the latest win and loses none |
| `Pairing.LatestForIsLast` | src/runtime.rs:716-722 | the grant that wins a key is the one at its greatest position |
| `Pairing.MergeExactlyWhenUntouched` | src/runtime.rs:711-739 | what a confirmation read and later saved is the promised merge exactly when no other grant of the peer changed in between |
| `Pairing.InterleavedGrantIsLost` | src/runtime.rs:711-739 | a grant saved between reading and saving is deleted |
| `Pairing.InterleavedRevocationIsUndone` | src/runtime.rs:711-739 | a grant revoked between reading and saving is stored again |
| `Pairing.PeerRepository.SaveCollected` | src/runtime.rs:723-739 | the save step stores what the read step collected, whatever happened to the table in between, and says when that is the promised merge |
| `Pairing.ConfirmationStaysProper` | src/runtime.rs:707-739 | a confirmation stores no share as writable but under the writing capability, also when its two steps are interrupted |
| `Pairing.PeerRepository.ConfirmPairing` | src/runtime.rs:689-744 | with nothing between its two steps the stored grants become the existing ones overridden by the new per (capability, direction); nothing is lost and no other peer is touched |
| `Pairing.PeerRepository.CompletePairing` | src/runtime.rs:610-683 | nothing is stored unless the response is acceptable; then the result is a duplicate-free, constraint-identical subset of the request, merged into the stored grants |
| `Pairing.PeerRepository.PairWithEcho` | src/runtime.rs:560-683 | from request to store: any echoed selection succeeds exactly if the request is well formed and the key checks out, and then merges precisely the selected grants with the constraints asked for |
| `EndpointStore.InMemoryEndpointRepository.RecordAuthenticated` | src/endpoint.rs:110-145 | find, update or push, stable sort and truncate, for one peer only |
| `EndpointStore.InMemoryEndpointRepository.RecordFailureAt` | src/endpoint.rs:147-165 | counts a failure on the first entry with the address, and changes nothing else |
| `EndpointStore.InMemoryEndpointRepository.Endpoints` | src/endpoint.rs:90-108 | at most 16 stored endpoints whose retry time has come, best first; an eligible one is left out only behind 16 that rank no lower |
| `EndpointStore.RecordMovesToFront` | src/endpoint.rs:117-144 | under a later clock an authenticated address moves to the front and the rest keep their order, cut at 16 |
| `EndpointStore.StoreIsLru` | src/endpoint.rs:110-171 | under a strictly increasing clock every run leaves exactly the 16 most recently authenticated distinct addresses since the last forget, most recent first |
| `EndpointStore.KeptIsTidy` | src/endpoint.rs:110-145 | whatever the clock does, every run leaves at most 16 endpoints with distinct addresses, latest success first |
| `EndpointStore.NewcomerIsKept` | src/endpoint.rs:129-143 | after any run under any clock a new address survives its own recording exactly when fewer than 16 are kept or the last succeeded strictly earlier |
| `EndpointStore.TieLosesNewcomer` | src/endpoint.rs:142-143 | a run of seventeen authentications, the last one no later than the others, after which the last address is not remembered |
| `EndpointAgreement.BackoffAgrees` | src/repository.rs:173-175 | both backoff formulas agree, lie between 2 s and 256 s, and the 300 s cap never binds |
| `EndpointAgreement.BackoffDoubles` | src/endpoint.rs:160-162 | the backoff is 2 s after one failure and doubles up to 256 s |
| `EndpointAgreement.FailureAgrees` | src/repository.rs:166-185 | a failure keeps the decoded row equal to the in-memory endpoint, with saturation at 32 bits |
| `EndpointAgreement.TextForgetsFlowLabelsOnly` | src/repository.rs:153-153 | two addresses share a row key exactly if they are equal up to the flow label |
| `EndpointAgreement.UpsertAgrees` | src/repository.rs:134-164 | for an address without a flow label the SQL upsert and the in-memory update keep the two stores equal |
| `EndpointAgreement.AnswersCoverNinetyDays` | src/repository.rs:115-132 | a row older than 90 days or not due is in no answer, and any other is in every answer of fewer than 16 |
| `EndpointAgreement.StoresStayInStep` | src/repository.rs:134-194 | in every run with at most 16 distinct addresses since the last forget, none with a flow label, both stores hold the same endpoints, without any assumption on the order of clock readings |
| `EndpointAgreement.TwoStoresAgree` | src/repository.rs:115-132 | after a run with at most 16 distinct addresses, within 90 days, with dial failures recorded for unlabelled addresses, any answer the SQL query may give has the same endpoints, failure counts and retry times as the in-memory answer if and only if no address since the last forget carries a flow label |
| `EndpointAgreement.TwoStoresAgreeInOrder` | src/repository.rs:118-122 | with a strictly increasing clock and no flow labels the two answers are the same list |
| `EndpointAgreement.FlowLabelsShareRow` | src/repository.rs:153-153 | two flow labels of one address are two endpoints in memory and one row in the table |
| `EndpointHistory.KeptCarriesHistory` | src/endpoint.rs:110-165 | in every run and under every clock each kept endpoint carries the certificate, source and times of the latest authentication of its address since the last forget, the time it was put in the list, and count and retry time of the failures since |
| `EndpointHistory.RowCarriesHistory` | src/repository.rs:134-185 | the table has a row for exactly the addresses authenticated since the last forget, and each carries the same history |
| `EndpointHistory.UnknownPeerHasNoRow` | src/repository.rs:91-105 | a peer without a record has no row |
| `EndpointBackoff.FailedDialBacksOff` | src/runtime/dial.rs:233-235 | after any run a remembered endpoint that was due backs off when its dial fails if and only if its address is not IPv4-mapped |
| `EndpointBackoff.FailedRowBacksOff` | src/repository.rs:166-185 | the same of a row of the SQL table |
| `EndpointBackoff.MappedNeverBacksOff` | src/runtime/dial.rs:99-100 | in every run a remembered IPv4-mapped endpoint has no recorded failure |
| `EndpointBackoff.MappedIsAlwaysOffered` | src/endpoint.rs:90-108 | and is in every answer of the store, however often its dial failed |
| `ProbeLimiter.Limiter.Admit` | src/runtime.rs:1017-1042 | prunes, opens or reuses a window, decides and counts as the specification says |
| `ProbeLimiter.PruningIsInvisible` | src/runtime.rs:1022-1026 | the pruning limiter decides every probe like one that never prunes, even with clock readings up to 50 s out of order |
| `ProbeLimiter.TableStaysSmall` | src/runtime.rs:1022-1026 | after any run the table has at most 513 sources, or only sources whose window started within the last 60 s |
| `ProbeLimiter.CounterIsWindowCount` | src/runtime.rs:1031-1040 | the counter is the number admitted in the window, at most 4 |
| `ProbeLimiter.AdmittedExactly` | src/runtime.rs:1027-1040 | by the times of the probes alone: one gets through if and only if its source has no window less than 10 s old or fewer than four got through in it |
| `ProbeLimiter.AtMostSevenPerInterval` | src/runtime.rs:1017-1042 | at most 7 probes of a source are admitted in any half-open 10 s interval |
| `ProbeLimiter.SevenIsAttained` | src/runtime.rs:1017-1042 | a run that admits 7 in such an interval, so the bound is tight |
| `Discovery.MergedLists` | src/discovery.rs:312-319 | extending, sorting and deduplicating gives the strictly sorted union, and leaves a list unchanged exactly when it was strictly sorted and nothing is new |
| `Discovery.MergeIsFold` | src/discovery.rs:304-320 | merging any advertisements with strictly sorted lists gives the strictly sorted union and the scalar fields of the latest-arriving one of maximal timestamp |
| `Discovery.SilentExactlyWhenNothingNew` | src/discovery.rs:278-302 | an observation reports no change exactly when the stored lists are strictly sorted, no address is new and the scalar fields lose or are equal |
| `Discovery.ReobservationIsSilent` | src/discovery.rs:278-302 | once merged as the latest, the same route seen again at any later time reports no change |
| `Discovery.SilentSessionFlipsWinner` | src/discovery.rs:278-302 | a silent refresh over a session alters what a fresh emission would publish exactly when it overtakes a different mDNS advertisement that used to win |
| `Discovery.SilentMdnsFlipsWinner` | src/discovery.rs:278-302 | a silent refresh over mDNS does so exactly when it overtakes a different authenticated advertisement, ties included |
| `Discovery.StaleExactlyWhenOvertaken` | src/discovery.rs:259-302 | in every run an emission makes the published list current, and a current list stays current exactly unless a silent refresh lets the other source win |
| `Discovery.StaleRun` | src/discovery.rs:291-302 | runs, for either path, after which subscribers do not see what a fresh emission would publish |
| `Discovery.ListingIsUnique` | src/discovery.rs:267-274 | the published list is the same for every iteration order of the maps |
| `Discovery.ListingIsOrdered` | src/discovery.rs:268-273 | the published names ascend and device ids break ties |
| `Discovery.ListingAgrees` | src/discovery.rs:259-275 | an emitted list names exactly the devices of both maps with the union of their addresses |
| `Discovery.SnapshotAlwaysAgrees` | src/discovery.rs:163-275 | in every run the published list names exactly the devices of both maps with the union of their addresses, also after silent refreshes, and never the local device |
| `DiscoveryHistory.MapsAreHistory` | src/discovery.rs:163-257 | in every run each map knows exactly the devices heard over its path since they were last dropped, with the union of the addresses heard and the other fields of the latest advertisement |
| `DiscoveryHistory.RemovedServiceIsGone` | src/discovery.rs:250-257 | after any run removing a service drops the device that last resolved under it from mDNS and nothing else; it stays listed only if a session knows it |
| `DiscoveryHistory.ForgottenSessionIsGone` | src/discovery.rs:176-180 | after any run forgetting a device drops its session routes and nothing else; it stays listed only if mDNS knows it |
| `Discovery.MergeMaps` | src/discovery.rs:260-266 | merging the mDNS entries in any order gives the per-device merge of both maps |
| `Discovery.DiscoveryService.Emit` | src/discovery.rs:259-275 | whatever the iteration orders, publishes the one listing of the merged maps ordered by name and id |
| `Discovery.DiscoveryService.ObserveAuthenticated` | src/discovery.rs:163-174 | performs the step of the run model: ignores the local id, merges, publishes exactly on a change |
| `Discovery.DiscoveryService.ForgetAuthenticated` | src/discovery.rs:176-180 | performs the step of the run model: drops the authenticated routes and publishes exactly if there were any |
| `Discovery.DiscoveryService.Refresh` | src/discovery.rs:185-187 | performs the step of the run model: publishes the current maps |
| `Discovery.DiscoveryService.Resolve` | src/discovery.rs:230-248 | performs the step of the run model: records the service and merges its advertisement, ignoring undecodable records and the local device |
| `Discovery.DiscoveryService.Remove` | src/discovery.rs:250-257 | performs the step of the run model: forgets the service and its mDNS routes but not the authenticated ones |
| `Discovery.DiscoveryService.constructor` | src/discovery.rs:69-80 | starts in the state of the empty run |

## Left out

- QUIC, TLS, sockets, UDP bridging and the mDNS daemon: foreign I/O; a connection is only an identity with an open/closed flag.
- Signatures, digests, certificates and key files: parameters or hypotheses of the handshake lemmas.
- The identity checks of `validate_hello`: key and certificate verification rests on the cryptographic primitives; only its range checks are modelled.
- LAN scanning, manual host resolution, feature streams, metadata updates, web gateway publication and diagnostics: bounded enumeration, character checks or logging that would add only easy members.
- Input-relay tunnel capacity, recovery endpoint bookkeeping and shutdown: permit counting and socket ownership around I/O.
- The 32-permit global handshake gate, the 200 ms stagger and the 12 s timeout: nondeterministic events of the race.
- Recording of dial failures into the endpoint store during a race: the race and the store are modelled separately.
- Row decoding, schema migration, the peer record's fields and enum codes of the SQL repository: settled by one match or by the library.
- Service record encoding and decoding, including the hexadecimal certificate digest: plain parsing.
- SQL statements are functions on tables, one atomic change each; `SavePairing` keeps the loop inside its transaction.
- Discovery operations are atomic steps: interleavings inside one operation are not modelled.
