/** When a failed race is worth a fresh socket, told by what its candidates had done when they
    failed, and the two rounds of the outer dial. */
module DialRaceRetry {
  import opened Types
  import opened Collections
  import opened DialCandidates
  import opened DialRace

  // ---- Where a candidate was when it failed ----

  /** At `t` candidate `i` gave up without an answer: it had started its QUIC handshake and
      was not connected, and the failure is a timeout. */
  predicate Unanswered(events: seq<Event>, i: nat, t: nat) {
    && t < |events| && events[t].Task? && events[t].i == i && events[t].act.Fail?
    && events[t].act.cause.Failure? && (events[t].act.cause.timedOut || events[t].act.cause.idleTimeout)
    && Task(i, TakeGlobal) in events[..t] && Task(i, Connect) !in events[..t]
  }

  /** At `t` candidate `i` failed after it was connected. */
  predicate Rejected(events: seq<Event>, i: nat, t: nat) {
    && t < |events| && events[t].Task? && events[t].i == i && events[t].act.Fail?
    && events[t].act.cause.Failure?
    && Task(i, Connect) in events[..t]
  }

  ghost predicate SomeUnanswered(events: seq<Event>) {
    exists i, t :: Unanswered(events, i, t)
  }

  ghost predicate SomeRejected(events: seq<Event>) {
    exists i, t :: Rejected(events, i, t)
  }

  /** The steps a candidate has taken, as its phase tells. */
  predicate StepsFit(phase: Phase, began: bool, connected: bool) {
    match phase
    case Sleeping => !began && !connected
    case WaitingForCapacity => !began && !connected
    case WaitingForGlobal => !began && !connected
    case Handshaking => began && !connected
    case Authenticating => began && connected
    case WaitingForSelection => began && connected
    case Confirming => began && connected
    case _ => true
  }

  lemma ActFits(r: Race, k: nat, act: Act, i: nat, began: bool, connected: bool)
    requires CanAct(r, k, act) && i < |r.tasks| && StepsFit(r.tasks[i].phase, began, connected)
    ensures |ApplyAct(r, k, act).tasks| == |r.tasks|
    ensures StepsFit(ApplyAct(r, k, act).tasks[i].phase,
                     began || (k == i && act == TakeGlobal), connected || (k == i && act == Connect))
  {
  }

  lemma LoopFits(r: Race, step: Step, i: nat, began: bool, connected: bool)
    requires CanStep(r, step) && i < |r.tasks| && StepsFit(r.tasks[i].phase, began, connected)
    ensures |ApplyStep(r, step).tasks| == |r.tasks|
    ensures StepsFit(ApplyStep(r, step).tasks[i].phase, began, connected)
  {
  }

  lemma {:induction false} PhaseTellsSteps(n: nat, events: seq<Event>, i: nat)
    requires Schedule(n, events) && i < |After(n, events).tasks|
    ensures StepsFit(After(n, events).tasks[i].phase, Task(i, TakeGlobal) in events, Task(i, Connect) in events)
  {
    if events != [] {
      var prefix, e := Before(events), Last(events);
      ReachableInvariant(n, prefix);
      ReachableInvariant(n, events);
      PhaseTellsSteps(n, prefix, i);
      assert events == prefix + [e];
      var began, connected := Task(i, TakeGlobal) in prefix, Task(i, Connect) in prefix;
      match e
      case Task(k, act) => ActFits(After(n, prefix), k, act, i, began, connected);
      case Loop(step) => LoopFits(After(n, prefix), step, i, began, connected);
    }
  }

  /** The label of a failure tells whether the handshake had begun and the peer answered. */
  lemma LabelFits(phase: Phase, where: FailurePhase, began: bool, connected: bool)
    requires StepsFit(phase, began, connected) && FailureLabel(phase) == Some(where)
    ensures where == QuicHandshake <==> began && !connected
    ensures where == PeerAuthentication <==> connected
  {
  }

  /** A reported failure counts as a timed-out path or a failed authentication exactly by
      the steps taken before it. */
  lemma {:induction false} FailureFits(n: nat, events: seq<Event>, i: nat, t: nat, cause: Failure)
    requires Schedule(n, events) && t < |events| && events[t] == Task(i, Fail(cause))
    ensures PathTimedOut(cause) <==> Unanswered(events, i, t)
    ensures AuthenticationFailed(cause) <==> Rejected(events, i, t)
  {
    SchedulePrefix(n, events, t);
    PhaseTellsSteps(n, events[..t], i);
    if cause.Failure? {
      LabelFits(After(n, events[..t]).tasks[i].phase, cause.phase,
                Task(i, TakeGlobal) in events[..t], Task(i, Connect) in events[..t]);
    }
  }

  // ---- What becomes of a failure ----

  predicate EndedBy(phase: Phase, cause: Failure) {
    phase == Failed(cause) || phase == Joined(cause) || phase == Discarded
  }

  lemma FailureStays(r: Race, e: Event, i: nat, cause: Failure)
    requires Enabled(r, e) && i < |r.tasks| && PlaceOk(r, i) && EndedBy(r.tasks[i].phase, cause)
    ensures |Apply(r, e).tasks| == |r.tasks| && EndedBy(Apply(r, e).tasks[i].phase, cause)
  {
    match e
    case Task(k, act) =>
    case Loop(step) => StepKeepsFailure(r, step, i, cause);
  }

  lemma StepKeepsFailure(r: Race, step: Step, i: nat, cause: Failure)
    requires CanStep(r, step) && i < |r.tasks| && PlaceOk(r, i) && EndedBy(r.tasks[i].phase, cause)
    ensures |ApplyStep(r, step).tasks| == |r.tasks| && EndedBy(ApplyStep(r, step).tasks[i].phase, cause)
  {
  }

  lemma {:induction false} FailedOnce(n: nat, events: seq<Event>, i: nat, t: nat, cause: Failure)
    requires Schedule(n, events) && t < |events| && events[t] == Task(i, Fail(cause))
    ensures i < |After(n, events).tasks| && EndedBy(After(n, events).tasks[i].phase, cause)
  {
    var prefix := Before(events);
    ReachableInvariant(n, prefix);
    if t < |prefix| {
      FailedOnce(n, prefix, i, t, cause);
      assert PlaceOk(After(n, prefix), i);
      FailureStays(After(n, prefix), Last(events), i, cause);
    }
  }

  /** A failed candidate reported its failure at some point. */
  lemma {:induction false} FailureWasReported(n: nat, events: seq<Event>, i: nat, cause: Failure) returns (t: nat)
    requires Schedule(n, events) && i < |After(n, events).tasks|
    requires After(n, events).tasks[i].phase == Failed(cause) || After(n, events).tasks[i].phase == Joined(cause)
    ensures t < |events| && events[t] == Task(i, Fail(cause))
  {
    var prefix, e := Before(events), Last(events);
    ReachableInvariant(n, prefix);
    ReachableInvariant(n, events);
    if e == Task(i, Fail(cause)) {
      t := |prefix|;
    } else {
      FailureBefore(After(n, prefix), e, i, cause);
      t := FailureWasReported(n, prefix, i, cause);
    }
  }

  lemma FailureBefore(r: Race, e: Event, i: nat, cause: Failure)
    requires Enabled(r, e) && i < |r.tasks| && |Apply(r, e).tasks| == |r.tasks| && e != Task(i, Fail(cause))
    requires Apply(r, e).tasks[i].phase == Failed(cause) || Apply(r, e).tasks[i].phase == Joined(cause)
    ensures r.tasks[i].phase == Failed(cause) || r.tasks[i].phase == Joined(cause)
  {
    match e
    case Task(k, act) =>
    case Loop(step) => StepJoinsFailure(r, step, i, cause);
  }

  lemma StepJoinsFailure(r: Race, step: Step, i: nat, cause: Failure)
    requires CanStep(r, step) && i < |r.tasks| && |ApplyStep(r, step).tasks| == |r.tasks|
    requires ApplyStep(r, step).tasks[i].phase == Failed(cause) || ApplyStep(r, step).tasks[i].phase == Joined(cause)
    ensures r.tasks[i].phase == Failed(cause) || r.tasks[i].phase == Joined(cause)
  {
  }

  // ---- The retry decision ----

  predicate ReportsAt(events: seq<Event>, i: nat, t: nat, cause: Failure) {
    t < |events| && events[t] == Task(i, Fail(cause))
  }

  /** In a race whose candidates all failed, the causes joined are those reported. */
  lemma {:induction false} ReportIsCause(n: nat, events: seq<Event>, i: nat, t: nat, cause: Failure)
    requires Schedule(n, events) && ReportsAt(events, i, t, cause)
    requires After(n, events).control.Returned? && After(n, events).control.outcome.AllFailed?
    ensures cause in Causes(After(n, events))
  {
    ReachableInvariant(n, events);
    FailedOnce(n, events, i, t, cause);
    JoinedCause(After(n, events), i, cause);
  }

  lemma JoinedCause(r: Race, i: nat, cause: Failure)
    requires i < |r.tasks| && TasksOk(r) && r.control.Returned? && r.control.outcome.AllFailed?
    requires EndedBy(r.tasks[i].phase, cause)
    ensures cause in Causes(r)
  {
    assert PlaceOk(r, i);
    assert r.tasks[i].phase == Joined(cause);
  }

  lemma {:induction false} CauseIsReport(n: nat, events: seq<Event>, cause: Failure) returns (i: nat, t: nat)
    requires Schedule(n, events) && cause in Causes(After(n, events))
    ensures ReportsAt(events, i, t, cause)
  {
    i :| i < |After(n, events).tasks| && After(n, events).tasks[i].phase == Joined(cause);
    t := FailureWasReported(n, events, i, cause);
  }

  /** The retry decision, by what happened: a race that failed everywhere asks for a fresh
      path if and only if some candidate timed out between starting its handshake and being
      connected, and none failed after it was connected. */
  lemma {:induction false} RetryByWhatHappened(n: nat, events: seq<Event>)
    requires Schedule(n, events)
    requires After(n, events).control.Returned? && After(n, events).control.outcome.AllFailed?
    ensures After(n, events).control.outcome.retry <==> SomeUnanswered(events) && !SomeRejected(events)
  {
    ReachableInvariant(n, events);
    SomeCause(n, events, true);
    SomeCause(n, events, false);
  }

  lemma {:induction false} SomeCause(n: nat, events: seq<Event>, path: bool)
    requires Schedule(n, events)
    requires After(n, events).control.Returned? && After(n, events).control.outcome.AllFailed?
    ensures (exists f :: f in Causes(After(n, events)) && if path then PathTimedOut(f) else AuthenticationFailed(f))
            <==> if path then SomeUnanswered(events) else SomeRejected(events)
  {
    if f :| f in Causes(After(n, events)) && if path then PathTimedOut(f) else AuthenticationFailed(f) {
      var i, t := CauseIsReport(n, events, f);
      FailureFits(n, events, i, t, f);
    }
    if i: nat, t: nat :| if path then Unanswered(events, i, t) else Rejected(events, i, t) {
      var f := events[t].act.cause;
      FailureFits(n, events, i, t, f);
      ReportIsCause(n, events, i, t, f);
    }
  }

  /** The outer dial, given the outcomes of the round on the listener's socket and of the
      round that a fresh socket would bring. `freshPath` says whether one could be bound. */
  method RaceEndpoints(kind: SessionKind, first: Outcome, second: Outcome, freshPath: bool,
                       ghost n: nat, ghost one: seq<Event>, ghost other: seq<Event>)
    returns (answer: Outcome, rounds: nat)
    requires Schedule(n, one) && After(n, one).control == Returned(first)
    requires Schedule(n, other) && After(n, other).control == Returned(second)
    ensures answer == if rounds == 1 then first else second
    ensures rounds == if kind != DiscoveryProbe && kind != Pairing && freshPath && first.AllFailed?
                         && SomeUnanswered(one) && !SomeRejected(one) then 2 else 1
    ensures LosersDown(After(n, if rounds == 1 then one else other))
  {
    if first.AllFailed? {
      RetryByWhatHappened(n, one);
    }
    answer, rounds := first, 1;
    if first.AllFailed? && first.retry && kind != DiscoveryProbe && kind != Pairing {
      if freshPath {
        answer, rounds := second, 2;
      }
    }
    LosersAreDown(n, if rounds == 1 then one else other);
  }
}
