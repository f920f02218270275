/** One round of `race_endpoints_on` as a system of steps: candidate tasks, the
    3-permit capacity semaphore, the 1-permit selection semaphore held for a
    session's lifetime, the guards that close losers, and the joining loop. */
module DialRace {
  import opened Types
  import opened Collections
  import opened DialCandidates

  const CAPACITY := 3

  datatype Phase =
    | Sleeping
    | WaitingForCapacity
    | WaitingForGlobal
    | Handshaking
    | Authenticating
    | WaitingForSelection
    | Confirming
    | Yielded              // finished with a session and an armed guard, not joined yet
    | Chosen               // joined with its session
    | Failed(cause: Failure)
    | Joined(cause: Failure)
    | Discarded            // aborted, or its session was given up
    | Released             // registered, then given up by a caller that abandoned the race

  datatype Wire = Unconnected | Up | Down

  datatype Candidate = Candidate(phase: Phase, wire: Wire)

  /** How `register_session` answered for the winner. */
  datatype Registration = Accepted | Existing | Refused

  datatype Outcome = Registered(winner: nat, registration: Registration) | AllFailed(retry: bool)

  datatype LoopState =
    | Joining
    | Draining(winner: nat)
    | Registering(winner: nat)
    | Remembering(winner: nat, registration: Registration)  // guard disarmed, not returned yet
    | Returned(outcome: Outcome)
    | Cancelled

  datatype Race = Race(
    tasks: seq<Candidate>,
    capacity: set<nat>,
    selection: Option<nat>,
    pathTimedOut: bool,
    authenticationFailed: bool,
    control: LoopState)

  /** What a candidate task, or its peer, can do next. */
  datatype Act =
    | Wake
    | TakeCapacity
    | TakeGlobal
    | Connect
    | Authenticate
    | TakeSelection
    | Confirm
    | Fail(cause: Failure)
    | RemoteClose

  /** What the joining loop can do next. */
  datatype Step =
    | JoinFailure(i: nat)
    | JoinSuccess(i: nat)
    | Abort(i: nat)
    | Drained
    | Register(registration: Registration)
    | Return
    | GiveUp
    | CancelRace

  datatype Event = Task(i: nat, act: Act) | Loop(step: Step)

  function Start(n: nat): Race {
    Race(seq(n, _ => Candidate(Sleeping, Unconnected)), {}, None, false, false, Joining)
  }

  /** Phases inside the timed block, with the label a failure there reports. */
  function FailureLabel(phase: Phase): Option<FailurePhase> {
    match phase
    case WaitingForCapacity => Some(CapacityWait)
    case WaitingForGlobal => Some(GlobalWait)
    case Handshaking => Some(QuicHandshake)
    case Authenticating => Some(PeerAuthentication)
    case WaitingForSelection => Some(PeerAuthentication)
    case Confirming => Some(PeerAuthentication)
    case _ => None
  }

  predicate Settled(phase: Phase) {
    phase.Joined? || phase.Discarded? || phase.Released?
  }

  predicate CanAct(r: Race, i: nat, act: Act) {
    && i < |r.tasks|
    && var phase := r.tasks[i].phase;
       match act
       case Wake => phase == Sleeping
       case TakeCapacity => phase == WaitingForCapacity && |r.capacity| < CAPACITY
       case TakeGlobal => phase == WaitingForGlobal
       case Connect => phase == Handshaking
       case Authenticate => phase == Authenticating
       case TakeSelection => phase == WaitingForSelection && r.selection == None
       case Confirm => phase == Confirming
       case Fail(Panicked) => phase == Sleeping || FailureLabel(phase).Some?
       case Fail(Failure(where, _, _)) => FailureLabel(phase) == Some(where)
       case RemoteClose => r.tasks[i].wire == Up
  }

  predicate CanStep(r: Race, step: Step) {
    match step
    case JoinFailure(i) => r.control == Joining && i < |r.tasks| && r.tasks[i].phase.Failed?
    case JoinSuccess(i) => r.control == Joining && i < |r.tasks| && r.tasks[i].phase == Yielded
    case Abort(i) =>
      (r.control.Draining? || r.control.Cancelled?) && i < |r.tasks| && !Settled(r.tasks[i].phase)
        && !r.tasks[i].phase.Chosen?
    case Drained =>
      r.control.Draining? && forall i :: 0 <= i < |r.tasks| && i != r.control.winner ==> Settled(r.tasks[i].phase)
    case Register(_) => r.control.Registering?
    case Return => r.control.Remembering?
    case GiveUp => r.control == Joining && forall i :: 0 <= i < |r.tasks| ==> r.tasks[i].phase.Joined?
    case CancelRace => !r.control.Returned? && !r.control.Cancelled?
  }

  predicate Enabled(r: Race, e: Event) {
    match e
    case Task(i, act) => CanAct(r, i, act)
    case Loop(step) => CanStep(r, step)
  }

  function Move(r: Race, i: nat, phase: Phase): Race
    requires i < |r.tasks|
  {
    r.(tasks := r.tasks[i := Candidate(phase, r.tasks[i].wire)])
  }

  /** A task ends or is dropped: its permits return and its guard closes the connection. */
  function Drop(r: Race, i: nat, phase: Phase): Race {
    if i >= |r.tasks| then r
    else
      r.(tasks := r.tasks[i := Candidate(phase, if r.tasks[i].wire == Up then Down else r.tasks[i].wire)],
         capacity := r.capacity - {i},
         selection := if r.selection == Some(i) then None else r.selection)
  }

  function ApplyAct(r: Race, i: nat, act: Act): Race
    requires CanAct(r, i, act)
  {
    match act
    case Wake => Move(r, i, WaitingForCapacity)
    case TakeCapacity => Move(r, i, WaitingForGlobal).(capacity := r.capacity + {i})
    case TakeGlobal => Move(r, i, Handshaking)
    case Connect => r.(tasks := r.tasks[i := Candidate(Authenticating, Up)])
    case Authenticate => Move(r, i, WaitingForSelection)
    case TakeSelection => Move(r, i, Confirming).(selection := Some(i))
    case Confirm => Move(r, i, Yielded).(capacity := r.capacity - {i})
    case Fail(cause) => Drop(r, i, Failed(cause))
    case RemoteClose => r.(tasks := r.tasks[i := Candidate(r.tasks[i].phase, Down)])
  }

  function ApplyStep(r: Race, step: Step): Race
    requires CanStep(r, step)
  {
    match step
    case JoinFailure(i) =>
      var cause := r.tasks[i].phase.cause;
      Move(r, i, Joined(cause)).(pathTimedOut := r.pathTimedOut || PathTimedOut(cause),
                                 authenticationFailed := r.authenticationFailed || AuthenticationFailed(cause))
    case JoinSuccess(i) => Move(r, i, Chosen).(control := Draining(i))
    case Abort(i) => Drop(r, i, Discarded)
    case Drained => r.(control := Registering(r.control.winner))
    case Register(registration) =>
      var winner := r.control.winner;
      (if registration == Accepted then r else Drop(r, winner, Discarded)).(
        control := if registration == Refused then Returned(Registered(winner, Refused))
                   else Remembering(winner, registration))
    case Return => r.(control := Returned(Registered(r.control.winner, r.control.registration)))
    case GiveUp => r.(control := Returned(AllFailed(r.pathTimedOut && !r.authenticationFailed)))
    case CancelRace => DropWinner(r).(control := Cancelled)
  }

  /** What becomes of the chosen candidate when the caller abandons the race. */
  function DropWinner(r: Race): Race {
    match r.control
    case Draining(winner) => Drop(r, winner, Discarded)
    case Registering(winner) => Drop(r, winner, Discarded)
    case Remembering(winner, registration) => if registration == Accepted then Release(r, winner) else r
    case _ => r
  }

  /** The caller drops a registered session: its permit returns, but the guard is already
      disarmed and the registry entry keeps the connection. */
  function Release(r: Race, i: nat): Race {
    if i >= |r.tasks| then r
    else Move(r, i, Released).(selection := if r.selection == Some(i) then None else r.selection)
  }

  function Apply(r: Race, e: Event): Race
    requires Enabled(r, e)
  {
    match e
    case Task(i, act) => ApplyAct(r, i, act)
    case Loop(step) => ApplyStep(r, step)
  }

  // ---- Invariant ----

  /** Phases between taking and returning a capacity permit. */
  predicate InHandshake(phase: Phase) {
    phase.WaitingForGlobal? || phase.Handshaking? || phase.Authenticating? || phase.WaitingForSelection?
      || phase.Confirming?
  }

  /** Ended together with its connection. */
  predicate Closed(phase: Phase) {
    phase.Joined? || phase.Discarded?
  }

  predicate HoldsSelection(phase: Phase) {
    phase.Confirming? || phase.Yielded? || phase.Chosen?
  }

  /** The permits and the connection of task `i` fit its phase. */
  ghost predicate PermitsOk(r: Race, i: nat)
    requires i < |r.tasks|
  {
    var phase := r.tasks[i].phase;
    && (i in r.capacity <==> InHandshake(phase))
    && (r.selection == Some(i) <==> HoldsSelection(phase))
    && (r.tasks[i].wire == Up ==>
          phase.Authenticating? || phase.WaitingForSelection? || HoldsSelection(phase) || phase.Released?)
  }

  /** The phase of task `i` fits what the loop is doing. */
  ghost predicate PlaceOk(r: Race, i: nat)
    requires i < |r.tasks|
  {
    var phase := r.tasks[i].phase;
    match r.control
    case Joining => !phase.Chosen? && !phase.Discarded? && !phase.Released?
    case Draining(w) => (phase == Chosen <==> i == w) && !phase.Released?
    case Registering(w) => if i == w then phase == Chosen else Closed(phase)
    case Remembering(w, registration) =>
      if i != w then Closed(phase) else phase == if registration == Accepted then Chosen else Discarded
    case Returned(Registered(w, registration)) =>
      if i != w then Closed(phase) else phase == if registration == Accepted then Chosen else Discarded
    case Returned(AllFailed(_)) => phase.Joined?
    case Cancelled => !phase.Chosen?
  }

  /** The candidate the loop has chosen and not yet returned. */
  function Winner(r: Race): Option<nat> {
    if r.control.Draining? || r.control.Registering? || r.control.Remembering? then Some(r.control.winner) else None
  }

  /** What holds of the race as a whole. */
  ghost predicate RaceOk(r: Race) {
    && |r.capacity| <= CAPACITY
    && (forall i :: i in r.capacity ==> i < |r.tasks|)
    && (Winner(r).Some? ==> Winner(r).value < |r.tasks|)
    && (r.selection.Some? ==> r.selection.value < |r.tasks|)
  }

  ghost predicate TasksOk(r: Race) {
    forall i :: 0 <= i < |r.tasks| ==> PermitsOk(r, i) && PlaceOk(r, i)
  }

  /** The failures joined so far. */
  function Causes(r: Race): set<Failure> {
    set i | 0 <= i < |r.tasks| && r.tasks[i].phase.Joined? :: r.tasks[i].phase.cause
  }

  ghost predicate FlagsOk(r: Race) {
    && (r.pathTimedOut <==> exists f :: f in Causes(r) && PathTimedOut(f))
    && (r.authenticationFailed <==> exists f :: f in Causes(r) && AuthenticationFailed(f))
    && (r.control.Returned? && r.control.outcome.AllFailed? ==> r.control.outcome.retry == RetryWarranted(Causes(r)))
  }

  ghost predicate Invariant(r: Race) {
    RaceOk(r) && TasksOk(r) && FlagsOk(r)
  }

  lemma ActKeepsPermits(r: Race, k: nat, act: Act, i: nat)
    requires i < |r.tasks| && PermitsOk(r, i) && CanAct(r, k, act)
    ensures PermitsOk(ApplyAct(r, k, act), i)
  {
    ActKeepsCapacity(r, k, act, i);
    ActKeepsSelection(r, k, act, i);
  }

  lemma ActKeepsCapacity(r: Race, k: nat, act: Act, i: nat)
    requires i < |r.tasks| && CanAct(r, k, act) && (i in r.capacity <==> InHandshake(r.tasks[i].phase))
    ensures i in ApplyAct(r, k, act).capacity <==> InHandshake(ApplyAct(r, k, act).tasks[i].phase)
  {
  }

  lemma ActKeepsSelection(r: Race, k: nat, act: Act, i: nat)
    requires i < |r.tasks| && CanAct(r, k, act) && (r.selection == Some(i) <==> HoldsSelection(r.tasks[i].phase))
    ensures ApplyAct(r, k, act).selection == Some(i) <==> HoldsSelection(ApplyAct(r, k, act).tasks[i].phase)
  {
  }

  lemma ActKeepsPlace(r: Race, k: nat, act: Act, i: nat)
    requires i < |r.tasks| && PlaceOk(r, i) && CanAct(r, k, act)
    ensures PlaceOk(ApplyAct(r, k, act), i)
  {
  }

  lemma StepKeepsPermits(r: Race, step: Step, i: nat)
    requires i < |r.tasks| && PermitsOk(r, i) && PlaceOk(r, i) && CanStep(r, step)
    ensures |ApplyStep(r, step).tasks| == |r.tasks| && PermitsOk(ApplyStep(r, step), i)
  {
    match step
    case Register(registration) => DropKeepsPermits(r, r.control.winner, i);
    case CancelRace => CancelKeepsPermits(r, i);
    case Abort(k) => DropKeepsPermits(r, k, i);
    case _ =>
  }

  lemma DropKeepsPermits(r: Race, k: nat, i: nat)
    requires i < |r.tasks| && PermitsOk(r, i)
    ensures |Drop(r, k, Discarded).tasks| == |r.tasks| && PermitsOk(Drop(r, k, Discarded), i)
  {
  }

  lemma CancelKeepsPermits(r: Race, i: nat)
    requires i < |r.tasks| && PermitsOk(r, i) && PlaceOk(r, i)
    ensures |DropWinner(r).tasks| == |r.tasks| && PermitsOk(DropWinner(r), i)
  {
    if Winner(r).Some? {
      DropKeepsPermits(r, Winner(r).value, i);
    }
  }

  lemma StepKeepsPlace(r: Race, step: Step, i: nat)
    requires i < |r.tasks| && PlaceOk(r, i) && CanStep(r, step)
    ensures |ApplyStep(r, step).tasks| == |r.tasks| && PlaceOk(ApplyStep(r, step), i)
  {
  }

  lemma ActKeepsRace(r: Race, i: nat, act: Act)
    requires RaceOk(r) && CanAct(r, i, act)
    ensures RaceOk(ApplyAct(r, i, act))
  {
    if act.TakeCapacity? {
      assert ApplyAct(r, i, act).capacity == r.capacity + {i};
    } else {
      assert ApplyAct(r, i, act).capacity <= r.capacity;
      NoLarger(ApplyAct(r, i, act).capacity, r.capacity);
    }
  }

  lemma StepKeepsRace(r: Race, step: Step)
    requires RaceOk(r) && CanStep(r, step)
    ensures RaceOk(ApplyStep(r, step))
  {
    StepShrinksCapacity(r, step);
    NoLarger(ApplyStep(r, step).capacity, r.capacity);
  }

  lemma StepShrinksCapacity(r: Race, step: Step)
    requires RaceOk(r) && CanStep(r, step)
    ensures var after := ApplyStep(r, step);
            && after.capacity <= r.capacity && |after.tasks| == |r.tasks|
            && (Winner(after).Some? ==> Winner(after).value < |r.tasks|)
            && (after.selection.Some? ==> after.selection == r.selection)
  {
  }

  lemma {:induction false} NoLarger(small: set<nat>, large: set<nat>)
    requires small <= large
    ensures |small| <= |large|
  {
    if small != {} {
      var x :| x in small;
      NoLarger(small - {x}, large - {x});
    }
  }

  /** Acts of tasks leave joined tasks, the flags and the loop alone. */
  lemma ActKeepsFlags(r: Race, i: nat, act: Act)
    requires CanAct(r, i, act) && FlagsOk(r)
    ensures FlagsOk(ApplyAct(r, i, act))
  {
    var after := ApplyAct(r, i, act);
    assert forall k :: 0 <= k < |r.tasks| && k != i ==> after.tasks[k] == r.tasks[k];
    assert !r.tasks[i].phase.Joined? || after.tasks[i].phase == r.tasks[i].phase;
    assert Causes(after) == Causes(r);
  }

  lemma StepKeepsFlags(r: Race, step: Step)
    requires CanStep(r, step) && FlagsOk(r) && forall i :: 0 <= i < |r.tasks| ==> PlaceOk(r, i)
    ensures FlagsOk(ApplyStep(r, step))
  {
    if step.JoinFailure? {
      JoinAddsCause(r, step.i);
    } else {
      OtherStepKeepsCauses(r, step);
    }
  }

  lemma JoinAddsCause(r: Race, i: nat)
    requires CanStep(r, JoinFailure(i))
    ensures Causes(ApplyStep(r, JoinFailure(i))) == Causes(r) + {r.tasks[i].phase.cause}
  {
    var after := ApplyStep(r, JoinFailure(i));
    assert after.tasks[i].phase == Joined(r.tasks[i].phase.cause);
    assert forall k :: 0 <= k < |r.tasks| && k != i ==> after.tasks[k] == r.tasks[k];
    assert forall k :: 0 <= k < |r.tasks| && r.tasks[k].phase.Joined? ==> after.tasks[k] == r.tasks[k];
  }

  lemma OtherStepKeepsCauses(r: Race, step: Step)
    requires CanStep(r, step) && !step.JoinFailure? && forall i :: 0 <= i < |r.tasks| ==> PlaceOk(r, i)
    ensures Causes(ApplyStep(r, step)) == Causes(r)
  {
    var after := ApplyStep(r, step);
    forall i | 0 <= i < |r.tasks|
      ensures after.tasks[i].phase.Joined? <==> r.tasks[i].phase.Joined?
      ensures r.tasks[i].phase.Joined? ==> after.tasks[i].phase == r.tasks[i].phase
    {
      assert PlaceOk(r, i);
    }
  }

  lemma EventKeepsInvariant(r: Race, e: Event)
    requires Invariant(r) && Enabled(r, e)
    ensures Invariant(Apply(r, e)) && |Apply(r, e).tasks| == |r.tasks|
  {
    match e
    case Task(k, act) =>
      ActKeepsRace(r, k, act);
      ActKeepsFlags(r, k, act);
      forall i | 0 <= i < |r.tasks| ensures PermitsOk(ApplyAct(r, k, act), i) && PlaceOk(ApplyAct(r, k, act), i) {
        ActKeepsPermits(r, k, act, i);
        ActKeepsPlace(r, k, act, i);
      }
    case Loop(step) =>
      StepKeepsRace(r, step);
      StepKeepsFlags(r, step);
      forall i | 0 <= i < |r.tasks| ensures PermitsOk(ApplyStep(r, step), i) && PlaceOk(ApplyStep(r, step), i) {
        StepKeepsPermits(r, step, i);
        StepKeepsPlace(r, step, i);
      }
  }

  // ---- Schedules ----

  /** A schedule of steps over `n` candidates, and the state it leads to. */
  ghost predicate Schedule(n: nat, events: seq<Event>) {
    events == [] || (Schedule(n, Before(events)) && Enabled(After(n, Before(events)), Last(events)))
  }

  function After(n: nat, events: seq<Event>): Race {
    if events == [] then Start(n)
    else
      var r := After(n, Before(events));
      if Enabled(r, Last(events)) then Apply(r, Last(events)) else r
  }

  lemma {:induction false} ReachableInvariant(n: nat, events: seq<Event>)
    requires Schedule(n, events)
    ensures Invariant(After(n, events)) && |After(n, events).tasks| == n
  {
    if events == [] {
      assert Causes(Start(n)) == {};
    } else {
      ReachableInvariant(n, Before(events));
      EventKeepsInvariant(After(n, Before(events)), Last(events));
    }
  }

  /** Race exclusivity, in every schedule: at most three candidates are in
      handshake, and at most one holds the selection from confirmation onward. */
  lemma {:induction false} RaceIsExclusive(n: nat, events: seq<Event>)
    requires Schedule(n, events)
    ensures var tasks := After(n, events).tasks;
            && |tasks| == n
            && |set i | 0 <= i < n && InHandshake(tasks[i].phase)| <= 3
            && (forall i, j ::
                  0 <= i < n && 0 <= j < n && HoldsSelection(tasks[i].phase) && HoldsSelection(tasks[j].phase) ==>
                    i == j)
  {
    ReachableInvariant(n, events);
    var r := After(n, events);
    forall i | 0 <= i < n ensures i in r.capacity <==> InHandshake(r.tasks[i].phase) {
      assert PermitsOk(r, i);
    }
    assert r.capacity == set i | 0 <= i < n && InHandshake(r.tasks[i].phase);
    forall i, j | 0 <= i < n && 0 <= j < n && HoldsSelection(r.tasks[i].phase) && HoldsSelection(r.tasks[j].phase)
      ensures i == j
    {
      assert PermitsOk(r, i) && PermitsOk(r, j);
    }
  }

  /** Three are indeed let in together. */
  lemma ThreeHandshakesAtOnce() returns (events: seq<Event>)
    ensures Schedule(3, events)
    ensures var tasks := After(3, events).tasks;
            |tasks| == 3 && forall i :: 0 <= i < 3 ==> InHandshake(tasks[i].phase)
  {
    var one := Advance(3, [], 0);
    var two := Advance(3, one, 1);
    events := Advance(3, two, 2);
  }

  /** When the race returns, the only candidate connection that may still be up is
      that of the session it returns, and all capacity has been given back. What the
      registry does to the winner is `RegistryRuns.RegistrationAnswers`. */
  lemma {:induction false} ReturnedRaceClosesLosers(n: nat, events: seq<Event>, i: nat)
    requires Schedule(n, events) && After(n, events).control.Returned? && i < |After(n, events).tasks|
    ensures After(n, events).tasks[i].wire == Up ==> After(n, events).control == Returned(Registered(i, Accepted))
    ensures After(n, events).capacity == {}
  {
    ReachableInvariant(n, events);
    var r := After(n, events);
    ReturnedTask(r, i);
    forall k | k in r.capacity ensures false {
      ReturnedTask(r, k);
    }
  }

  lemma ReturnedTask(r: Race, i: nat)
    requires i < |r.tasks| && PermitsOk(r, i) && PlaceOk(r, i) && r.control.Returned?
    ensures i !in r.capacity
    ensures r.tasks[i].wire == Up ==> r.control == Returned(Registered(i, Accepted))
  {
  }

  // ---- What ended candidates leave behind ----

  predicate Ended(phase: Phase) {
    phase.Failed? || Settled(phase)
  }

  /** The caller abandoned the race after the session of `i` had been registered. */
  ghost predicate LeftBehind(n: nat, events: seq<Event>, i: nat) {
    exists c :: AbandonedAt(n, events, i, c)
  }

  ghost predicate AbandonedAt(n: nat, events: seq<Event>, i: nat, c: nat) {
    c < |events| && events[c] == Loop(CancelRace) && After(n, events[..c]).control == Remembering(i, Accepted)
  }

  lemma ActReleases(r: Race, k: nat, act: Act, i: nat)
    requires CanAct(r, k, act) && i < |r.tasks|
    ensures |ApplyAct(r, k, act).tasks| == |r.tasks|
    ensures ApplyAct(r, k, act).tasks[i].phase.Released? <==> r.tasks[i].phase.Released?
  {
  }

  lemma StepReleases(r: Race, step: Step, i: nat)
    requires CanStep(r, step) && i < |r.tasks| && PlaceOk(r, i)
    ensures |ApplyStep(r, step).tasks| == |r.tasks|
    ensures ApplyStep(r, step).tasks[i].phase.Released? <==>
              r.tasks[i].phase.Released? || (step == CancelRace && r.control == Remembering(i, Accepted))
  {
  }

  lemma ReleasedStep(r: Race, e: Event, i: nat)
    requires Enabled(r, e) && i < |r.tasks| && PlaceOk(r, i)
    ensures |Apply(r, e).tasks| == |r.tasks|
    ensures Apply(r, e).tasks[i].phase.Released? <==>
              r.tasks[i].phase.Released? || (e == Loop(CancelRace) && r.control == Remembering(i, Accepted))
  {
    match e
    case Task(k, act) => ActReleases(r, k, act, i);
    case Loop(step) => StepReleases(r, step, i);
  }

  lemma {:induction false} ReleasedExactly(n: nat, events: seq<Event>, i: nat)
    requires Schedule(n, events) && i < |After(n, events).tasks|
    ensures After(n, events).tasks[i].phase.Released? <==> LeftBehind(n, events, i)
  {
    if events != [] {
      var prefix, e := Before(events), Last(events);
      ReachableInvariant(n, events);
      ReachableInvariant(n, prefix);
      ReleasedExactly(n, prefix, i);
      assert PlaceOk(After(n, prefix), i);
      ReleasedStep(After(n, prefix), e, i);
      LeftBehindStep(n, prefix, e, i);
      assert events == prefix + [e];
    }
  }

  lemma LeftBehindStep(n: nat, prefix: seq<Event>, e: Event, i: nat)
    ensures LeftBehind(n, prefix + [e], i) <==>
              || LeftBehind(n, prefix, i)
              || (e == Loop(CancelRace) && After(n, prefix).control == Remembering(i, Accepted))
  {
    var events := prefix + [e];
    assert events[..|prefix|] == prefix;
    assert forall c :: 0 <= c < |prefix| ==> events[..c] == prefix[..c] && events[c] == prefix[c];
    if c: nat :| AbandonedAt(n, prefix, i, c) {
      assert AbandonedAt(n, events, i, c);
    }
    if e == Loop(CancelRace) && After(n, prefix).control == Remembering(i, Accepted) {
      assert AbandonedAt(n, events, i, |prefix|);
    }
    if c: nat :| AbandonedAt(n, events, i, c) && c < |prefix| {
      assert AbandonedAt(n, prefix, i, c);
    }
  }

  /** Phases before and after the connection is made, while the task or the registry keeps it. */
  predicate Early(phase: Phase) {
    phase.Sleeping? || phase.WaitingForCapacity? || phase.WaitingForGlobal? || phase.Handshaking?
  }

  predicate Connected(phase: Phase) {
    phase.Authenticating? || phase.WaitingForSelection? || HoldsSelection(phase) || phase.Released?
  }

  /** A candidate's connection is up unless its peer closed it. */
  ghost predicate WireOk(c: Candidate, closedByPeer: bool) {
    && (Early(c.phase) ==> c.wire == Unconnected && !closedByPeer)
    && (Connected(c.phase) ==> (c.wire == Up <==> !closedByPeer))
  }

  lemma ActKeepsWire(r: Race, k: nat, act: Act, i: nat, closedByPeer: bool)
    requires CanAct(r, k, act) && i < |r.tasks| && WireOk(r.tasks[i], closedByPeer)
    ensures |ApplyAct(r, k, act).tasks| == |r.tasks|
    ensures WireOk(ApplyAct(r, k, act).tasks[i], closedByPeer || (k == i && act == RemoteClose))
  {
    if k != i {
      assert ApplyAct(r, k, act).tasks[i] == r.tasks[i];
    }
  }

  /** The joining loop leaves connections alone unless it ends their candidate. */
  lemma StepKeepsWire(r: Race, step: Step, i: nat)
    requires CanStep(r, step) && i < |r.tasks| && PlaceOk(r, i)
    ensures var before, after := r.tasks[i], ApplyStep(r, step).tasks[i];
            && |ApplyStep(r, step).tasks| == |r.tasks|
            && (Early(after.phase) ==> after == before)
            && (Connected(after.phase) ==> Connected(before.phase) && after.wire == before.wire)
  {
  }

  lemma WireStep(r: Race, e: Event, i: nat, closedByPeer: bool)
    requires Enabled(r, e) && i < |r.tasks| && PlaceOk(r, i) && WireOk(r.tasks[i], closedByPeer)
    ensures |Apply(r, e).tasks| == |r.tasks|
    ensures WireOk(Apply(r, e).tasks[i], closedByPeer || e == Task(i, RemoteClose))
  {
    match e
    case Task(k, act) => ActKeepsWire(r, k, act, i, closedByPeer);
    case Loop(step) => StepKeepsWire(r, step, i);
  }

  lemma {:induction false} WireHistory(n: nat, events: seq<Event>, i: nat)
    requires Schedule(n, events) && i < |After(n, events).tasks|
    ensures WireOk(After(n, events).tasks[i], Task(i, RemoteClose) in events)
  {
    if events != [] {
      var prefix, e := Before(events), Last(events);
      ReachableInvariant(n, events);
      ReachableInvariant(n, prefix);
      WireHistory(n, prefix, i);
      assert PlaceOk(After(n, prefix), i);
      WireStep(After(n, prefix), e, i, Task(i, RemoteClose) in prefix);
      assert events == prefix + [e];
    }
  }

  /** What an ended candidate leaves behind, exactly: no permit in any case, and an open
      connection if and only if the caller abandoned the race after its session had been
      registered and the peer has not closed it. */
  lemma {:induction false} EndedCandidateHoldsNothing(n: nat, events: seq<Event>, i: nat)
    requires Schedule(n, events) && i < |After(n, events).tasks| && Ended(After(n, events).tasks[i].phase)
    ensures i !in After(n, events).capacity && After(n, events).selection != Some(i)
    ensures After(n, events).tasks[i].wire == Up <==> LeftBehind(n, events, i) && Task(i, RemoteClose) !in events
  {
    ReachableInvariant(n, events);
    ReleasedExactly(n, events, i);
    WireHistory(n, events, i);
    EndedPermits(After(n, events), i);
  }

  lemma EndedPermits(r: Race, i: nat)
    requires i < |r.tasks| && PermitsOk(r, i) && Ended(r.tasks[i].phase)
    ensures i !in r.capacity && r.selection != Some(i)
    ensures r.tasks[i].wire == Up ==> r.tasks[i].phase.Released?
  {
  }

  /** Task `i` has yielded the race's session, and the race is still with it. */
  predicate HasYielded(r: Race, i: nat) {
    && i < |r.tasks|
    && (|| r.tasks[i].phase.Yielded? || r.tasks[i].phase.Chosen?
        || (r.control.Remembering? && r.control.winner == i)
        || (r.control.Returned? && r.control.outcome.Registered? && r.control.outcome.winner == i))
  }

  lemma ActKeepsYielded(r: Race, k: nat, act: Act, i: nat)
    requires HasYielded(r, i) && CanAct(r, k, act)
    ensures HasYielded(ApplyAct(r, k, act), i)
  {
  }

  /** It stays that way, since no other task can be chosen while it holds the selection,
      unless the caller abandons the race. */
  lemma StepKeepsYielded(r: Race, step: Step, i: nat)
    requires HasYielded(r, i) && PermitsOk(r, i) && PlaceOk(r, i) && CanStep(r, step)
    requires r.control.Draining? ==>
               r.control.winner < |r.tasks| && PermitsOk(r, r.control.winner) && PlaceOk(r, r.control.winner)
    ensures || HasYielded(ApplyStep(r, step), i)
            || (step == CancelRace && Winner(r) == Some(i))
            || (step == Abort(i) && r.control.Cancelled?)
  {
  }

  lemma {:induction false} CancelledMeansAbandoned(n: nat, events: seq<Event>)
    requires After(n, events).control.Cancelled?
    ensures Loop(CancelRace) in events
  {
    var prefix := Before(events);
    assert events == prefix + [Last(events)];
    if After(n, prefix).control.Cancelled? {
      CancelledMeansAbandoned(n, prefix);
    } else {
      OnlyCancelCancels(After(n, prefix), Last(events));
    }
  }

  lemma OnlyCancelCancels(r: Race, e: Event)
    requires Enabled(r, e) && Apply(r, e).control.Cancelled? && !r.control.Cancelled?
    ensures e == Loop(CancelRace)
  {
  }

  /** Event `d` takes the session of candidate `i` away: the caller abandons the race
      after choosing it, or has abandoned the race and `i` is aborted. */
  ghost predicate GivenUp(n: nat, events: seq<Event>, i: nat, d: nat) {
    && d < |events|
    && (|| (events[d] == Loop(CancelRace) && Winner(After(n, events[..d])) == Some(i))
        || (events[d] == Loop(Abort(i)) && Loop(CancelRace) in events[..d]))
  }

  /** A candidate that yielded a session keeps the selection until the race returns with
      it, or until the caller has abandoned the race and the session is given up. */
  lemma {:induction false} ConfirmedKeepsSelection(n: nat, events: seq<Event>, i: nat, a: nat)
    requires Schedule(n, events) && a < |events| && events[a] == Task(i, Confirm)
    ensures HasYielded(After(n, events), i) || exists d :: a < d && GivenUp(n, events, i, d)
  {
    var prefix, e := Before(events), Last(events);
    assert events == prefix + [e] && events[..|prefix|] == prefix;
    ReachableInvariant(n, prefix);
    if a < |prefix| {
      ConfirmedKeepsSelection(n, prefix, i, a);
      if d :| a < d && GivenUp(n, prefix, i, d) {
        assert events[..d] == prefix[..d];
        assert GivenUp(n, events, i, d);
      } else {
        YieldedStep(n, prefix, e, i);
      }
    }
  }

  lemma YieldedStep(n: nat, prefix: seq<Event>, e: Event, i: nat)
    requires Invariant(After(n, prefix)) && Enabled(After(n, prefix), e) && HasYielded(After(n, prefix), i)
    ensures HasYielded(Apply(After(n, prefix), e), i) || GivenUp(n, prefix + [e], i, |prefix|)
  {
    var r := After(n, prefix);
    assert (prefix + [e])[..|prefix|] == prefix;
    assert PermitsOk(r, i) && PlaceOk(r, i);
    match e
    case Task(k, act) => ActKeepsYielded(r, k, act, i);
    case Loop(step) =>
      StepKeepsYielded(r, step, i);
      if step == Abort(i) && r.control.Cancelled? {
        CancelledMeansAbandoned(n, prefix);
      }
  }

  /** A confirming candidate took the selection after every other one's confirmation. */
  lemma {:induction false} SelectionTaken(n: nat, events: seq<Event>, i: nat, a: nat, j: nat) returns (t: nat)
    requires Schedule(n, events) && j < |After(n, events).tasks| && After(n, events).tasks[j].phase == Confirming
    requires a < |events| && events[a] == Task(i, Confirm) && i != j
    ensures a < t < |events| && events[t] == Task(j, TakeSelection)
  {
    if Last(events) == Task(j, TakeSelection) {
      t := |events| - 1;
    } else {
      ConfirmingBefore(n, events, i, j);
      t := SelectionTaken(n, Before(events), i, a, j);
    }
  }

  /** A candidate that is confirming, and did not just start to, was confirming before, so
      no other one has just finished confirming. */
  lemma ConfirmingBefore(n: nat, events: seq<Event>, i: nat, j: nat)
    requires Schedule(n, events) && j < |After(n, events).tasks| && After(n, events).tasks[j].phase == Confirming
    requires events != [] && Last(events) != Task(j, TakeSelection) && i != j
    ensures j < |After(n, Before(events)).tasks| && After(n, Before(events)).tasks[j].phase == Confirming
    ensures Last(events) != Task(i, Confirm)
  {
    var r := After(n, Before(events));
    ReachableInvariant(n, Before(events));
    ConfirmingStep(r, Last(events), j);
    if Last(events) == Task(i, Confirm) {
      OneConfirming(r, i, j);
    }
  }

  lemma OneConfirming(r: Race, i: nat, j: nat)
    requires Invariant(r) && i < |r.tasks| && j < |r.tasks|
    requires r.tasks[i].phase == Confirming && r.tasks[j].phase == Confirming
    ensures i == j
  {
    assert PermitsOk(r, i) && PermitsOk(r, j);
  }

  lemma ConfirmingStep(r: Race, e: Event, j: nat)
    requires Enabled(r, e) && j < |Apply(r, e).tasks|
    requires Apply(r, e).tasks[j].phase == Confirming && e != Task(j, TakeSelection)
    ensures |Apply(r, e).tasks| == |r.tasks| && r.tasks[j].phase == Confirming
  {
    match e
    case Task(k, act) => ConfirmingAct(r, k, act, j);
    case Loop(step) => ConfirmingLoop(r, step, j);
  }

  lemma ConfirmingAct(r: Race, k: nat, act: Act, j: nat)
    requires CanAct(r, k, act) && j < |ApplyAct(r, k, act).tasks|
    requires ApplyAct(r, k, act).tasks[j].phase == Confirming && !(k == j && act == TakeSelection)
    ensures |ApplyAct(r, k, act).tasks| == |r.tasks| && r.tasks[j].phase == Confirming
  {
  }

  lemma ConfirmingLoop(r: Race, step: Step, j: nat)
    requires CanStep(r, step) && j < |ApplyStep(r, step).tasks|
    requires ApplyStep(r, step).tasks[j].phase == Confirming
    ensures |ApplyStep(r, step).tasks| == |r.tasks| && r.tasks[j].phase == Confirming
  {
  }

  lemma {:induction false} SchedulePrefix(n: nat, events: seq<Event>, k: nat)
    requires Schedule(n, events) && k <= |events|
    ensures Schedule(n, events[..k])
    ensures k < |events| ==> Enabled(After(n, events[..k]), events[k])
                             && After(n, events[..k + 1]) == Apply(After(n, events[..k]), events[k])
  {
    if k == |events| {
      assert events[..k] == events;
    } else {
      assert Before(events)[..k] == events[..k] && Before(events[..k + 1]) == events[..k];
      if k == |events| - 1 {
        assert events[..k + 1] == events;
      } else {
        SchedulePrefix(n, Before(events), k);
        assert Before(events)[..k + 1] == events[..k + 1];
      }
    }
  }

  /** At most one session at a time, in every schedule: two candidates both yield a
      session only if the caller abandoned the race and the first session was given up
      before the second candidate took the selection. */
  lemma {:induction false} AtMostOneSession(n: nat, events: seq<Event>, i: nat, a: nat, j: nat, b: nat)
    returns (d: nat, t: nat)
    requires Schedule(n, events) && a < b < |events| && i != j
    requires events[a] == Task(i, Confirm) && events[b] == Task(j, Confirm)
    ensures a < d < t < b && events[t] == Task(j, TakeSelection)
    ensures GivenUp(n, events, i, d) && Loop(CancelRace) in events
  {
    SchedulePrefix(n, events, b);
    t := SelectionTaken(n, events[..b], i, a, j);
    SchedulePrefix(n, events, t);
    ConfirmedKeepsSelection(n, events[..t], i, a);
    SelectorIsAlone(n, events[..t], i, j);
    d :| a < d && GivenUp(n, events[..t], i, d);
    assert events[..t][..d] == events[..d];
  }

  /** Nobody has a session while the selection is being taken. */
  lemma SelectorIsAlone(n: nat, events: seq<Event>, i: nat, j: nat)
    requires Schedule(n, events) && Enabled(After(n, events), Task(j, TakeSelection))
    ensures !HasYielded(After(n, events), i)
  {
    ReachableInvariant(n, events);
    var r := After(n, events);
    assert PermitsOk(r, j) && PlaceOk(r, j);
    if i < |r.tasks| {
      assert PermitsOk(r, i) && PlaceOk(r, i);
    }
  }

  /** In particular a race that the caller does not abandon yields at most one session. */
  lemma {:induction false} UndisturbedRaceYieldsOnce(n: nat, events: seq<Event>, i: nat, a: nat, j: nat, b: nat)
    requires Schedule(n, events) && Loop(CancelRace) !in events && a < |events| && b < |events|
    requires events[a] == Task(i, Confirm) && events[b] == Task(j, Confirm)
    ensures i == j
  {
    if i != j && a < b {
      var _, _ := AtMostOneSession(n, events, i, a, j, b);
    } else if i != j {
      var _, _ := AtMostOneSession(n, events, j, b, i, a);
    }
  }

  lemma AfterOfPush(n: nat, events: seq<Event>, e: Event)
    requires Schedule(n, events) && Enabled(After(n, events), e)
    ensures Schedule(n, events + [e]) && After(n, events + [e]) == Apply(After(n, events), e)
  {
    assert Before(events + [e]) == events;
  }

  /** Any sleeping candidate can come as far as asking for the selection while the
      semaphore has a permit left. */
  lemma Advance(n: nat, events: seq<Event>, i: nat) returns (more: seq<Event>)
    requires Schedule(n, events) && i < |After(n, events).tasks| && |After(n, events).capacity| < CAPACITY
    requires After(n, events).tasks[i] == Candidate(Sleeping, Unconnected)
    ensures Schedule(n, more)
    ensures var r := After(n, events);
            After(n, more) == r.(tasks := r.tasks[i := Candidate(WaitingForSelection, Up)],
                                 capacity := r.capacity + {i})
  {
    var started := StartHandshake(n, events, i);
    AfterOfPush(n, started, Task(i, Connect));
    var connected := started + [Task(i, Connect)];
    AfterOfPush(n, connected, Task(i, Authenticate));
    more := connected + [Task(i, Authenticate)];
  }

  lemma StartHandshake(n: nat, events: seq<Event>, i: nat) returns (more: seq<Event>)
    requires Schedule(n, events) && i < |After(n, events).tasks| && |After(n, events).capacity| < CAPACITY
    requires After(n, events).tasks[i] == Candidate(Sleeping, Unconnected)
    ensures Schedule(n, more)
    ensures var r := After(n, events);
            After(n, more) == r.(tasks := r.tasks[i := Candidate(Handshaking, Unconnected)],
                                 capacity := r.capacity + {i})
  {
    var r := After(n, events);
    var admitted := Admit(n, events, i);
    AfterOfPush(n, admitted, Task(i, TakeGlobal));
    more := admitted + [Task(i, TakeGlobal)];
    UpdateTwice(r.tasks, i, Candidate(WaitingForGlobal, Unconnected), Candidate(Handshaking, Unconnected));
  }

  lemma Admit(n: nat, events: seq<Event>, i: nat) returns (more: seq<Event>)
    requires Schedule(n, events) && i < |After(n, events).tasks| && |After(n, events).capacity| < CAPACITY
    requires After(n, events).tasks[i] == Candidate(Sleeping, Unconnected)
    ensures Schedule(n, more)
    ensures var r := After(n, events);
            After(n, more) == r.(tasks := r.tasks[i := Candidate(WaitingForGlobal, Unconnected)],
                                 capacity := r.capacity + {i})
  {
    var r := After(n, events);
    var awake := Awaken(n, events, i);
    AfterOfPush(n, awake, Task(i, TakeCapacity));
    more := awake + [Task(i, TakeCapacity)];
    UpdateTwice(r.tasks, i, Candidate(WaitingForCapacity, Unconnected), Candidate(WaitingForGlobal, Unconnected));
  }

  lemma Awaken(n: nat, events: seq<Event>, i: nat) returns (more: seq<Event>)
    requires Schedule(n, events) && i < |After(n, events).tasks|
    requires After(n, events).tasks[i] == Candidate(Sleeping, Unconnected)
    ensures Schedule(n, more)
    ensures var r := After(n, events);
            After(n, more) == r.(tasks := r.tasks[i := Candidate(WaitingForCapacity, Unconnected)])
  {
    AfterOfPush(n, events, Task(i, Wake));
    more := events + [Task(i, Wake)];
  }

  lemma UpdateTwice<T>(items: seq<T>, i: nat, x: T, y: T)
    requires i < |items|
    ensures items[i := x][i := y] == items[i := y]
  {
  }

  lemma ConfirmNext(n: nat, events: seq<Event>, i: nat) returns (more: seq<Event>)
    requires Schedule(n, events) && i < |After(n, events).tasks|
    requires After(n, events).tasks[i] == Candidate(WaitingForSelection, Up) && After(n, events).selection == None
    ensures Schedule(n, more) && more == events + [Task(i, TakeSelection), Task(i, Confirm)]
    ensures var r := After(n, events);
            After(n, more) == r.(tasks := r.tasks[i := Candidate(Yielded, Up)],
                                 capacity := r.capacity - {i}, selection := Some(i))
  {
    AfterOfPush(n, events, Task(i, TakeSelection));
    var selected := events + [Task(i, TakeSelection)];
    AfterOfPush(n, selected, Task(i, Confirm));
    more := selected + [Task(i, Confirm)];
  }

  lemma AbandonNext(n: nat, events: seq<Event>, i: nat) returns (more: seq<Event>)
    requires Schedule(n, events) && i < |After(n, events).tasks|
    requires After(n, events).tasks[i].phase == Yielded && After(n, events).selection == Some(i)
    requires After(n, events).control == Joining
    ensures Schedule(n, more) && more == events + [Loop(CancelRace), Loop(Abort(i))]
    ensures After(n, more) == Drop(After(n, events), i, Discarded).(control := Cancelled)
  {
    AfterOfPush(n, events, Loop(CancelRace));
    var cancelled := events + [Loop(CancelRace)];
    AfterOfPush(n, cancelled, Loop(Abort(i)));
    more := cancelled + [Loop(Abort(i))];
  }

  /** And an abandoned race can do so: its first session is given up while another
      candidate is still waiting to confirm. */
  lemma AbandonedRaceCanYieldTwice() returns (events: seq<Event>, a: nat, b: nat)
    ensures Schedule(2, events) && a < b < |events|
    ensures events[a] == Task(0, Confirm) && events[b] == Task(1, Confirm)
  {
    var one := Advance(2, [], 0);
    var two := Advance(2, one, 1);
    var first := ConfirmNext(2, two, 0);
    var abandoned := AbandonNext(2, first, 0);
    events := ConfirmNext(2, abandoned, 1);
    a, b := |first| - 1, |events| - 1;
  }

  /** A race abandoned between registration and return leaves its connection up, with the
      selection given back. */
  lemma AbandonedAfterRegistration() returns (events: seq<Event>)
    ensures Schedule(1, events) && After(1, events).control == Cancelled
    ensures After(1, events).tasks == [Candidate(Released, Up)] && After(1, events).selection == None
  {
    var waiting := Advance(1, [], 0);
    var yielded := ConfirmNext(1, waiting, 0);
    var chosen := ChooseNext(1, yielded, 0);
    events := AbandonRegistered(1, chosen, 0);
  }

  /** The loop joins a session, and every other candidate has already ended. */
  lemma ChooseNext(n: nat, events: seq<Event>, i: nat) returns (more: seq<Event>)
    requires Schedule(n, events) && i < |After(n, events).tasks| && After(n, events).control == Joining
    requires After(n, events).tasks[i] == Candidate(Yielded, Up)
    requires forall k :: 0 <= k < |After(n, events).tasks| && k != i ==> Settled(After(n, events).tasks[k].phase)
    ensures Schedule(n, more)
    ensures var r := After(n, events);
            After(n, more) == r.(tasks := r.tasks[i := Candidate(Chosen, Up)], control := Registering(i))
  {
    var r := After(n, events);
    AfterOfPush(n, events, Loop(JoinSuccess(i)));
    var joined := events + [Loop(JoinSuccess(i))];
    assert After(n, joined) == r.(tasks := r.tasks[i := Candidate(Chosen, Up)], control := Draining(i));
    AfterOfPush(n, joined, Loop(Drained));
    more := joined + [Loop(Drained)];
  }

  lemma AbandonRegistered(n: nat, events: seq<Event>, i: nat) returns (more: seq<Event>)
    requires Schedule(n, events) && i < |After(n, events).tasks| && After(n, events).control == Registering(i)
    requires After(n, events).tasks[i] == Candidate(Chosen, Up) && After(n, events).selection == Some(i)
    ensures Schedule(n, more)
    ensures var r := After(n, events);
            After(n, more) == r.(tasks := r.tasks[i := Candidate(Released, Up)], selection := None,
                                 control := Cancelled)
  {
    var r := After(n, events);
    AfterOfPush(n, events, Loop(Register(Accepted)));
    var registered := events + [Loop(Register(Accepted))];
    assert After(n, registered) == r.(control := Remembering(i, Accepted));
    AfterOfPush(n, registered, Loop(CancelRace));
    more := registered + [Loop(CancelRace)];
  }

  // ---- Rounds ----

  /** Two failed races with the same causes of failure decide alike about a retry,
      whatever the order in which the candidates ran, failed and were joined. */
  lemma {:induction false} RetryIgnoresCompletionOrder(n: nat, one: seq<Event>, m: nat, other: seq<Event>)
    requires Schedule(n, one) && Schedule(m, other)
    requires After(n, one).control.Returned? && After(n, one).control.outcome.AllFailed?
    requires After(m, other).control.Returned? && After(m, other).control.outcome.AllFailed?
    requires Causes(After(n, one)) == Causes(After(m, other))
    ensures After(n, one).control.outcome == After(m, other).control.outcome
    ensures After(n, one).control.outcome.retry == RetryWarranted(Causes(After(n, one)))
  {
    ReachableInvariant(n, one);
    ReachableInvariant(m, other);
  }

  /** Only a session that its race returned may leave its connection up. */
  ghost predicate LosersDown(r: Race) {
    forall i :: 0 <= i < |r.tasks| && r.control != Returned(Registered(i, Accepted)) ==> r.tasks[i].wire != Up
  }

  lemma LosersAreDown(n: nat, events: seq<Event>)
    requires Schedule(n, events) && After(n, events).control.Returned?
    ensures LosersDown(After(n, events))
  {
    forall i | 0 <= i < |After(n, events).tasks| && After(n, events).control != Returned(Registered(i, Accepted))
      ensures After(n, events).tasks[i].wire != Up
    {
      ReturnedRaceClosesLosers(n, events, i);
    }
  }
}
