/**
 The request loop inside a run of the pool: the calls one handler makes are steps of the run, the finish
 closure of each attempt discharges the ticket its pick created, and so a pool whose handlers have all
 returned has no probe out.
 */
module HandlerTickets {
  import opened Options
  import opened PoolModel
  import opened PoolRuns
  import opened RequestLoop
  import PoolGuarantees
  import PoolAccounting

  /** One handler: its loop, the position in the run of each of its calls, and the ticket of each attempt. */
  datatype Handler = Handler(w: World, stop: nat, ending: Ending, at: seq<nat>, tickets: seq<nat>)

  predicate PhaseOf(s: System, t: nat, phase: Phase) {
    t < |s.tickets| && s.tickets[t].phase == phase
  }

  /** The call is a step of the run, except that the empty closure of a detached request takes no step of its own. */
  ghost predicate CallAt(states: seq<System>, steps: seq<Step>, call: PoolEvent, at: nat, tickets: seq<nat>)
    requires |states| == |steps| + 1 && at < |steps|
  {
    match call
    case Picked(backend) =>
      && steps[at].Pick? && WellFormed(states[at].pool)
      && PickedAddress(states[at].pool, steps[at].allowed, steps[at].now) == if backend == "" then None else Some(backend)
    case Started(attempt, backend) =>
      && attempt < |tickets| && tickets[attempt] < |states[at].tickets|
      && steps[at] == Start(tickets[attempt]) && states[at].tickets[tickets[attempt]].address == backend
    case Finished(attempt, status, failed) =>
      && attempt < |tickets|
      && (|| PhaseOf(states[at + 1], tickets[attempt], Detached)
          || (steps[at].ReportFinish? && steps[at].t == tickets[attempt] && PhaseOf(states[at], tickets[attempt], Counted(failed))))
  }

  /** The handler's calls are carried out in order, each attempt on the ticket that its pick created. */
  ghost predicate CarriedOut(states: seq<System>, steps: seq<Step>, h: Handler)
    requires |states| == |steps| + 1
  {
    var trace := TraceSent(h.w, h.stop, h.ending);
    && |h.at| == |trace| && |h.tickets| == Contacted(h.stop, h.ending)
    && (forall i, j :: 0 <= i < j < |h.at| ==> h.at[i] <= h.at[j])
    && (forall i :: 0 <= i < |h.at| ==> h.at[i] < |steps| && CallAt(states, steps, trace[i], h.at[i], h.tickets))
    && (forall k :: 0 <= k < |h.tickets| && 3 * k < |h.at| ==> h.tickets[k] == |states[h.at[3 * k]].tickets|)
  }

  /** By position n of the run the handler has made all its calls. */
  predicate Returned(h: Handler, n: nat) {
    forall i :: 0 <= i < |h.at| ==> h.at[i] < n
  }

  lemma {:induction false} AttemptInTrace(w: World, n: nat, k: nat)
    requires k < n
    ensures |AttemptsTrace(w, n)| == 3 * n
    ensures AttemptsTrace(w, n)[3 * k] == PoolEvent.Picked(w.pick(k))
    ensures AttemptsTrace(w, n)[3 * k + 2] == FinishOf(k, w.outcome(k))
  {
    if n == k + 1 {
      AttemptsLength(w, k);
    } else {
      AttemptInTrace(w, n - 1, k);
    }
  }

  lemma {:induction false} AttemptsLength(w: World, n: nat)
    ensures |AttemptsTrace(w, n)| == 3 * n
  {
    if n > 0 {
      AttemptsLength(w, n - 1);
    }
  }

  lemma {:induction false} AttemptSent(w: World, stop: nat, ending: Ending, k: nat)
    requires k < Contacted(stop, ending)
    ensures |TraceSent(w, stop, ending)| > 3 * k + 2
    ensures TraceSent(w, stop, ending)[3 * k] == PoolEvent.Picked(w.pick(k))
    ensures TraceSent(w, stop, ending)[3 * k + 2] == FinishOf(k, w.outcome(k))
  {
    hide FinishOf, AttemptsTrace;
    AttemptInTrace(w, Contacted(stop, ending), k);
  }

  predicate Discharged(s: System, t: nat) {
    t < |s.tickets| && !Live(s.tickets[t])
  }

  /** A reported or detached ticket stays so. */
  lemma {:induction false} DischargedForGood(states: seq<System>, steps: seq<Step>, m: nat, n: nat, t: nat)
    requires Execution(states, steps) && m <= n <= |steps| && Discharged(states[m], t)
    ensures Discharged(states[n], t)
    decreases n
  {
    if m < n {
      hide Apply, HistoryAfter, LedgerAfter;
      DischargedForGood(states, steps, m, n - 1, t);
      assert StepAt(states, steps, n - 1);
    }
  }

  lemma {:induction false} FinishDischarges(states: seq<System>, steps: seq<Step>, call: PoolEvent, at: nat, tickets: seq<nat>)
    requires Execution(states, steps) && at < |steps| && call.Finished? && CallAt(states, steps, call, at, tickets)
    ensures Discharged(states[at + 1], tickets[call.attempt])
  {
    hide Apply, HistoryAfter, LedgerAfter;
    assert StepAt(states, steps, at);
  }

  /** When a handler has returned, every ticket its picks created has been reported, or was detached from the start. */
  lemma {:induction false} HandlerDischargesItsTickets(states: seq<System>, steps: seq<Step>, h: Handler, k: nat, n: nat)
    requires Execution(states, steps) && CarriedOut(states, steps, h) && Returned(h, n) && n <= |steps|
    requires k < Contacted(h.stop, h.ending)
    ensures Discharged(states[n], h.tickets[k])
    ensures 3 * k < |h.at| && h.tickets[k] == |states[h.at[3 * k]].tickets|
    ensures steps[h.at[3 * k]].Pick? && WellFormed(states[h.at[3 * k]].pool)
    ensures var i := h.at[3 * k];
            PickedAddress(states[i].pool, steps[i].allowed, steps[i].now) ==
            if h.w.pick(k) == "" then None else Some(h.w.pick(k))
  {
    hide Execution, Discharged, FinishOf, TraceSent;
    var trace := TraceSent(h.w, h.stop, h.ending);
    AttemptSent(h.w, h.stop, h.ending, k);
    FinishNamesAttempt(k, h.w.outcome(k));
    var at := h.at[3 * k + 2];
    FinishDischarges(states, steps, trace[3 * k + 2], at, h.tickets);
    DischargedForGood(states, steps, at + 1, n, h.tickets[k]);
  }

  lemma {:induction false} FinishNamesAttempt(k: nat, outcome: Outcome)
    ensures FinishOf(k, outcome).Finished? && FinishOf(k, outcome).attempt == k
  {
  }

  /** The ticket was created by one of the handlers' picks. */
  ghost predicate Belongs(t: nat, handlers: seq<Handler>) {
    exists h, k :: 0 <= h < |handlers| && 0 <= k < |handlers[h].tickets| && handlers[h].tickets[k] == t
  }

  /**
   When every ticket belongs to a handler that has returned, no probe is out and a backend in service is
   available exactly when the cooldown its finish history calls for is over.
   */
  lemma {:induction false} ReturnedHandlersFreeThePool(
    states: seq<System>, steps: seq<Step>, handlers: seq<Handler>, n: nat, i: nat, now: Time)
    requires RunFromStart(states, steps) && n <= |steps|
    requires forall h :: 0 <= h < |handlers| ==> CarriedOut(states, steps, handlers[h]) && Returned(handlers[h], n)
    requires forall t :: 0 <= t < |states[n].tickets| ==> Belongs(t, handlers)
    requires i < |states[n].pool.backends| && states[n].clock <= now
    ensures var e := states[n].pool.backends[i];
            && !e.halfOpenInFlight
            && e.address in states[n].history
            && (Available(e, now) <==> InService(e) && !Before(now, Deadline(states[n].history[e.address])))
  {
    hide CarriedOut, Returned, StepAt;
    forall t | 0 <= t < |states[n].tickets| ensures !Live(states[n].tickets[t]) {
      assert Belongs(t, handlers);
      var h, k :| 0 <= h < |handlers| && 0 <= k < |handlers[h].tickets| && handlers[h].tickets[k] == t;
      TicketsAreAttempts(states, steps, handlers[h]);
      HandlerDischargesItsTickets(states, steps, handlers[h], k, n);
    }
    PoolGuarantees.QuietPoolIsAvailable(states, steps, n, i, now);
    if states[n].pool.backends[i].halfOpenInFlight {
      PoolGuarantees.ProbeIsNeverLost(states, steps, n, i);
    }
  }

  lemma {:induction false} TicketsAreAttempts(states: seq<System>, steps: seq<Step>, h: Handler)
    requires |states| == |steps| + 1 && CarriedOut(states, steps, h)
    ensures |h.tickets| == Contacted(h.stop, h.ending)
  {
  }

  // ---------------------------------------------------------------- a handler carried out

  /** A request whose only attempt is answered 200. */
  const ONE_ATTEMPT := Handler(World(_ => "a", false, _ => true, _ => Response(200), 0, false, false), 0, Accepted(200), [0, 1, 3], [0])

  lemma {:induction false} OneAttemptTrace()
    ensures EndsAt(ONE_ATTEMPT.w, 0, 0, Accepted(200))
    ensures TraceSent(ONE_ATTEMPT.w, 0, Accepted(200)) ==
            [PoolEvent.Picked("a"), Started(0, "a"), Finished(0, 200, false)]
  {
    AttemptsLength(ONE_ATTEMPT.w, 0);
    assert AttemptsTrace(ONE_ATTEMPT.w, 1) == AttemptsTrace(ONE_ATTEMPT.w, 0) + AttemptEvents(ONE_ATTEMPT.w, 0);
  }

  lemma {:induction false} CountsAndReports(s: System)
    requires PoolAccounting.OneBackend(s, 1, Running(0))
    ensures Enabled(s, CountFinish(0, 200, 1, false))
    ensures var counted := Next(s, CountFinish(0, 200, 1, false));
            && counted.tickets == [Ticket("a", Counted(false))]
            && Enabled(counted, ReportFinish(0, counted.clock))
            && |Next(counted, ReportFinish(0, counted.clock)).tickets| == 1
  {
  }

  /** Pick, start, the counting and the report of a finish. */
  lemma {:induction false} OneRequest() returns (states: seq<System>, steps: seq<Step>)
    ensures RunFromStart(states, steps) && |steps| == 4
    ensures steps[0] == Pick(None, 0) && steps[1] == Start(0) && steps[3].ReportFinish? && steps[3].t == 0
    ensures states[0].tickets == [] && states[1].tickets == [Ticket("a", Chosen)]
    ensures states[3].tickets == [Ticket("a", Counted(false))] && |states[4].tickets| == 1
    ensures WellFormed(states[0].pool) && PickedAddress(states[0].pool, None, 0) == Some("a")
  {
    hide PoolAccounting.OneBackend, Next, Enabled, PickedAddress, WellFormed, StepAt;
    states, steps := PoolAccounting.OneRequestInFlight();
    CountsAndReports(states[2]);
    states, steps := Extended(states, steps, CountFinish(0, 200, 1, false));
    states, steps := Extended(states, steps, ReportFinish(0, states[3].clock));
  }

  /** Such a handler is carried out by a run. */
  lemma {:induction false} HandlerIsCarriedOut() returns (states: seq<System>, steps: seq<Step>)
    ensures RunFromStart(states, steps) && |steps| == 4
    ensures CarriedOut(states, steps, ONE_ATTEMPT) && Returned(ONE_ATTEMPT, 4)
    ensures Belongs(0, [ONE_ATTEMPT]) && |states[4].tickets| == 1
  {
    states, steps := OneRequest();
    OneAttemptTrace();
    hide TraceSent, StepAt, PickedAddress, WellFormed;
    var trace := TraceSent(ONE_ATTEMPT.w, 0, Accepted(200));
    assert CallAt(states, steps, trace[0], 0, [0]);
    assert CallAt(states, steps, trace[1], 1, [0]);
    assert CallAt(states, steps, trace[2], 3, [0]);
    assert [ONE_ATTEMPT][0].tickets[0] == 0;
  }
}
