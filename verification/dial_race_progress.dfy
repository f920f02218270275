/** The endpoint race always ends: schedules are bounded, and a race that has neither
    returned nor been abandoned can go on. */
module DialRaceProgress {
  import opened Types
  import opened Collections
  import opened DialRace

  function PhaseRank(phase: Phase): nat {
    match phase
    case Sleeping => 10
    case WaitingForCapacity => 9
    case WaitingForGlobal => 8
    case Handshaking => 7
    case Authenticating => 6
    case WaitingForSelection => 5
    case Confirming => 4
    case Yielded => 3
    case Chosen => 2
    case Failed(_) => 1
    case _ => 0
  }

  function CandidateCost(c: Candidate): nat {
    2 * PhaseRank(c.phase) + if c.wire == Up then 1 else 0
  }

  function Cost(tasks: seq<Candidate>): nat {
    if tasks == [] then 0 else Cost(Before(tasks)) + CandidateCost(Last(tasks))
  }

  function LoopRank(control: LoopState): nat {
    match control
    case Joining => 5
    case Draining(_) => 4
    case Registering(_) => 3
    case Remembering(_, _) => 2
    case _ => 0
  }

  /** How many events are left at most. */
  function Potential(r: Race): nat {
    Cost(r.tasks) + LoopRank(r.control)
  }

  lemma {:induction false} CostOfUpdate(tasks: seq<Candidate>, i: nat, c: Candidate)
    requires i < |tasks|
    ensures Cost(tasks[i := c]) == Cost(tasks) - CandidateCost(tasks[i]) + CandidateCost(c)
  {
    if i == |tasks| - 1 {
      assert Before(tasks[i := c]) == Before(tasks);
    } else {
      CostOfUpdate(Before(tasks), i, c);
      assert Before(tasks[i := c]) == Before(tasks)[i := c];
    }
  }

  lemma {:induction false} CostOfStart(n: nat)
    ensures Cost(Start(n).tasks) == 20 * n
  {
    if n > 0 {
      CostOfStart(n - 1);
      assert Before(Start(n).tasks) == Start(n - 1).tasks;
    }
  }

  lemma ActAdvances(r: Race, i: nat, act: Act)
    requires CanAct(r, i, act)
    ensures var after := ApplyAct(r, i, act);
            && |after.tasks| == |r.tasks| && after.control == r.control
            && after.tasks == r.tasks[i := after.tasks[i]]
            && CandidateCost(after.tasks[i]) < CandidateCost(r.tasks[i])
  {
  }

  lemma ActCosts(r: Race, i: nat, act: Act)
    requires CanAct(r, i, act)
    ensures Potential(ApplyAct(r, i, act)) < Potential(r)
  {
    ActAdvances(r, i, act);
    CostOfUpdate(r.tasks, i, ApplyAct(r, i, act).tasks[i]);
  }

  lemma DropCosts(r: Race, i: nat, phase: Phase)
    requires i < |r.tasks| && PhaseRank(phase) <= PhaseRank(r.tasks[i].phase)
    ensures Cost(Drop(r, i, phase).tasks) <= Cost(r.tasks)
    ensures PhaseRank(phase) < PhaseRank(r.tasks[i].phase) ==> Cost(Drop(r, i, phase).tasks) < Cost(r.tasks)
  {
    CostOfUpdate(r.tasks, i, Drop(r, i, phase).tasks[i]);
  }

  lemma MoveCosts(r: Race, i: nat, phase: Phase)
    requires i < |r.tasks| && PhaseRank(phase) <= PhaseRank(r.tasks[i].phase)
    ensures Cost(Move(r, i, phase).tasks) <= Cost(r.tasks)
    ensures PhaseRank(phase) < PhaseRank(r.tasks[i].phase) ==> Cost(Move(r, i, phase).tasks) < Cost(r.tasks)
  {
    CostOfUpdate(r.tasks, i, Move(r, i, phase).tasks[i]);
  }

  lemma StepCosts(r: Race, step: Step)
    requires CanStep(r, step)
    ensures Potential(ApplyStep(r, step)) < Potential(r)
  {
    match step
    case JoinFailure(i) => MoveCosts(r, i, Joined(r.tasks[i].phase.cause));
    case JoinSuccess(i) => MoveCosts(r, i, Chosen);
    case Abort(i) => DropCosts(r, i, Discarded);
    case Drained =>
    case Register(registration) => RegisterCosts(r, registration);
    case Return =>
    case GiveUp =>
    case CancelRace => DropWinnerCosts(r);
  }

  lemma RegisterCosts(r: Race, registration: Registration)
    requires CanStep(r, Register(registration))
    ensures Potential(ApplyStep(r, Register(registration))) < Potential(r)
  {
    if r.control.winner < |r.tasks| {
      DropCosts(r, r.control.winner, Discarded);
    }
  }

  lemma DropWinnerCosts(r: Race)
    ensures Cost(DropWinner(r).tasks) <= Cost(r.tasks)
  {
    if Winner(r).Some? && Winner(r).value < |r.tasks| {
      DropCosts(r, Winner(r).value, Discarded);
      MoveCosts(r, Winner(r).value, Released);
    }
  }

  /** Every schedule is finite: a race over `n` candidates takes at most 20n + 5 events. */
  lemma {:induction false} ScheduleIsBounded(n: nat, events: seq<Event>)
    requires Schedule(n, events)
    ensures |events| + Potential(After(n, events)) <= 20 * n + 5
  {
    if events == [] {
      CostOfStart(n);
    } else {
      ScheduleIsBounded(n, Before(events));
      match Last(events)
      case Task(i, act) => ActCosts(After(n, Before(events)), i, act);
      case Loop(step) => StepCosts(After(n, Before(events)), step);
    }
  }

  /** Events that bring the race forward without failing, cancelling or refusing anything. */
  predicate Productive(e: Event) {
    match e
    case Task(_, act) => !act.Fail? && !act.RemoteClose?
    case Loop(step) => step != CancelRace && step != Register(Refused) && step != Register(Existing)
  }

  /** A task that has not finished can go on, or another one it waits for can. */
  lemma TaskCanAct(r: Race, i: nat) returns (e: Event)
    requires Invariant(r) && r.control == Joining && i < |r.tasks| && PhaseRank(r.tasks[i].phase) > 3
    ensures Enabled(r, e) && Productive(e)
  {
    match r.tasks[i].phase
    case Sleeping => e := Task(i, Wake);
    case WaitingForCapacity =>
      if |r.capacity| < CAPACITY {
        e := Task(i, TakeCapacity);
      } else {
        var k :| k in r.capacity;
        assert PermitsOk(r, k);
        e := HolderCanAct(r, k);
      }
    case WaitingForGlobal => e := HolderCanAct(r, i);
    case Handshaking => e := HolderCanAct(r, i);
    case Authenticating => e := HolderCanAct(r, i);
    case WaitingForSelection => e := HolderCanAct(r, i);
    case Confirming => e := HolderCanAct(r, i);
  }

  lemma HolderCanAct(r: Race, k: nat) returns (e: Event)
    requires Invariant(r) && r.control == Joining && k < |r.tasks| && InHandshake(r.tasks[k].phase)
    ensures Enabled(r, e) && Productive(e)
  {
    match r.tasks[k].phase
    case WaitingForGlobal => e := Task(k, TakeGlobal);
    case Handshaking => e := Task(k, Connect);
    case Authenticating => e := Task(k, Authenticate);
    case Confirming => e := Task(k, Confirm);
    case WaitingForSelection =>
      if r.selection == None {
        e := Task(k, TakeSelection);
      } else {
        e := SelectorCanAct(r, r.selection.value);
      }
  }

  lemma SelectorCanAct(r: Race, m: nat) returns (e: Event)
    requires Invariant(r) && r.control == Joining && r.selection == Some(m)
    ensures Enabled(r, e) && Productive(e)
  {
    assert PermitsOk(r, m) && PlaceOk(r, m);
    e := if r.tasks[m].phase == Confirming then Task(m, Confirm) else Loop(JoinSuccess(m));
  }

  /** No deadlock: a race that has neither returned nor been abandoned can go on by a
      productive event. */
  lemma {:induction false} RaceCanGoOn(r: Race) returns (e: Event)
    requires Invariant(r) && !r.control.Returned? && !r.control.Cancelled?
    ensures Enabled(r, e) && Productive(e)
  {
    match r.control
    case Registering(_) => e := Loop(Register(Accepted));
    case Remembering(_, _) => e := Loop(Return);
    case Draining(w) =>
      if i :| 0 <= i < |r.tasks| && i != w && !Settled(r.tasks[i].phase) {
        assert PlaceOk(r, i);
        e := Loop(Abort(i));
      } else {
        e := Loop(Drained);
      }
    case Joining =>
      if i :| 0 <= i < |r.tasks| && !r.tasks[i].phase.Joined? {
        assert PlaceOk(r, i);
        if r.tasks[i].phase.Failed? {
          e := Loop(JoinFailure(i));
        } else if r.tasks[i].phase == Yielded {
          e := Loop(JoinSuccess(i));
        } else {
          e := TaskCanAct(r, i);
        }
      } else {
        e := Loop(GiveUp);
      }
  }

  /** Progress: from every reachable state that is not cancelled, productive events alone
      let the race return. */
  lemma {:induction false} RaceCanReturn(n: nat, events: seq<Event>) returns (all: seq<Event>)
    requires Schedule(n, events) && !After(n, events).control.Cancelled?
    ensures Schedule(n, all) && events <= all && After(n, all).control.Returned?
    ensures forall i :: |events| <= i < |all| ==> Productive(all[i])
    decreases Potential(After(n, events))
  {
    if After(n, events).control.Returned? {
      all := events;
    } else {
      var e := Extend(n, events);
      all := RaceCanReturn(n, events + [e]);
      assert all[|events|] == e;
    }
  }

  /** A schedule that cannot be extended has returned or been cancelled. */
  lemma {:induction false} StuckRaceHasEnded(n: nat, events: seq<Event>)
    requires Schedule(n, events) && forall e :: !Enabled(After(n, events), e)
    ensures After(n, events).control.Returned? || After(n, events).control.Cancelled?
  {
    ReachableInvariant(n, events);
    if !After(n, events).control.Returned? && !After(n, events).control.Cancelled? {
      var e := RaceCanGoOn(After(n, events));
    }
  }

  lemma Extend(n: nat, events: seq<Event>) returns (e: Event)
    requires Schedule(n, events) && !After(n, events).control.Returned? && !After(n, events).control.Cancelled?
    ensures Schedule(n, events + [e]) && Productive(e) && !After(n, events + [e]).control.Cancelled?
    ensures Potential(After(n, events + [e])) < Potential(After(n, events))
  {
    ReachableInvariant(n, events);
    e := RaceCanGoOn(After(n, events));
    AfterOfPush(n, events, e);
    ProductiveStep(After(n, events), e);
  }

  lemma ProductiveStep(r: Race, e: Event)
    requires Enabled(r, e) && Productive(e) && !r.control.Cancelled?
    ensures Potential(Apply(r, e)) < Potential(r) && !Apply(r, e).control.Cancelled?
  {
    match e
    case Task(i, act) => ActCosts(r, i, act);
    case Loop(step) => StepCosts(r, step);
  }
}
