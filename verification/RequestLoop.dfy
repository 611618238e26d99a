/**
 The retry loop of proxyHandler and the response body that reports its request finished once. What
 the loop cannot control (the pool's picks, the round trips, the client's reads) is a World that
 answers attempt by attempt; the calls it makes on the pool are a trace.
 */
module RequestLoop {
  import opened Options
  import PoolModel

  datatype Outcome = Failure | Response(status: int)

  datatype World = World(
    pick: nat -> string,
    hasBody: bool,
    bodyOk: nat -> bool,
    outcome: nat -> Outcome,
    chunks: nat,
    readFails: bool,
    deadlineExceeded: bool)

  /** A call on the pool: nextFor's answer, startRequest, or the finish closure with the breaker's verdict. */
  datatype PoolEvent =
    | Picked(backend: string)
    | Started(attempt: nat, backend: string)
    | Finished(attempt: nat, status: int, failed: bool)

  /** The pool as one request sees it. */
  class PoolLog {
    var trace: seq<PoolEvent>

    constructor ()
      ensures trace == []
    {
      trace := [];
    }
  }

  class TrackedBody {
    const log: PoolLog
    const attempt: nat
    const status: int
    var finished: bool

    constructor (log: PoolLog, attempt: nat, status: int)
      ensures this.log == log && this.attempt == attempt && this.status == status && !finished
    {
      this.log, this.attempt, this.status, finished := log, attempt, status, false;
    }

    /** finishOnce.Do(finish). */
    method FinishOnce()
      modifies this, log
      ensures finished
      ensures log.trace == old(log.trace) + if old(finished) then [] else [FinishOf(attempt, Response(status))]
    {
      if !finished {
        finished := true;
        log.trace := log.trace + [Finished(attempt, status, PoolModel.Failed(status, false))];
      }
    }

    /** A read that ends the body, by EOF or by an error, finishes the request. */
    method Read(fails: bool)
      modifies this, log
      ensures finished == (old(finished) || fails)
      ensures log.trace == old(log.trace) + if fails && !old(finished) then [FinishOf(attempt, Response(status))] else []
    {
      if fails {
        FinishOnce();
      }
    }

    method Close()
      modifies this, log
      ensures finished
      ensures log.trace == old(log.trace) + if old(finished) then [] else [FinishOf(attempt, Response(status))]
    {
      FinishOnce();
    }
  }

  /** What the finish closure of an attempt reports. */
  function FinishOf(attempt: nat, outcome: Outcome): PoolEvent {
    match outcome
    case Failure => Finished(attempt, 0, true)
    case Response(status) => Finished(attempt, status, PoolModel.Failed(status, false))
  }

  // ---------------------------------------------------------------- what the loop should do

  predicate GatewayError(status: int) {
    502 <= status <= 504
  }

  predicate BodyReady(w: World, k: nat) {
    k > 0 && w.hasBody ==> w.bodyOk(k)
  }

  /** Attempt k reaches a backend and its outcome is worth another try. */
  predicate Retried(w: World, k: nat) {
    && BodyReady(w, k)
    && w.pick(k) != ""
    && (w.outcome(k).Response? ==> GatewayError(w.outcome(k).status))
  }

  /** Why the loop stops. */
  datatype Ending = BodyFailed | NoBackend | Accepted(status: int) | Exhausted

  ghost predicate EndsAt(w: World, retries: int, stop: nat, ending: Ending) {
    && (forall j :: 0 <= j < stop ==> Retried(w, j))
    && match ending
       case BodyFailed => stop <= retries && !BodyReady(w, stop)
       case NoBackend => stop <= retries && BodyReady(w, stop) && w.pick(stop) == ""
       case Accepted(status) =>
         && stop <= retries && BodyReady(w, stop) && w.pick(stop) != ""
         && w.outcome(stop) == Response(status)
         && (GatewayError(status) ==> stop == retries)
       case Exhausted => stop == MaxInt(0, retries + 1) && (stop > 0 ==> w.outcome(stop - 1).Failure?)
  }

  /** Backends contacted by a loop that stops there. */
  function Contacted(stop: nat, ending: Ending): nat {
    if ending.Accepted? then stop + 1 else stop
  }

  /** The status of a response that was closed and kept when no backend was left for the next attempt. */
  function KeptStatus(w: World, stop: nat): Option<int> {
    if stop > 0 && w.outcome(stop - 1).Response? then Some(w.outcome(stop - 1).status) else None
  }

  /** The status sent to the client. */
  function StatusSent(w: World, stop: nat, ending: Ending): int {
    match ending
    case Accepted(status) => status
    case BodyFailed => if w.deadlineExceeded then 504 else 502
    case NoBackend =>
      (match KeptStatus(w, stop)
       case Some(status) => status
       case None => if w.deadlineExceeded then 504 else 503)
    case Exhausted => if w.deadlineExceeded then 504 else if stop == 0 then 503 else 502
  }

  /** The backend in the access log, when a response was relayed. */
  function BackendLogged(w: World, stop: nat, ending: Ending): Option<string> {
    match ending
    case Accepted(_) => Some(w.pick(stop))
    case NoBackend => if KeptStatus(w, stop).Some? then Some("") else None
    case _ => None
  }

  function AttemptEvents(w: World, k: nat): seq<PoolEvent> {
    [Picked(w.pick(k)), Started(k, w.pick(k)), FinishOf(k, w.outcome(k))]
  }

  /** Attempts 0, ..., n - 1 one after the other, each picked, started and finished. */
  function AttemptsTrace(w: World, n: nat): seq<PoolEvent> {
    if n == 0 then [] else AttemptsTrace(w, n - 1) + AttemptEvents(w, n - 1)
  }

  function TraceSent(w: World, stop: nat, ending: Ending): seq<PoolEvent> {
    AttemptsTrace(w, Contacted(stop, ending)) + if ending.NoBackend? then [Picked("")] else []
  }

  /** Only GET and HEAD, which are safe to repeat, are retried. */
  function EffectiveRetries(configured: int, verb: string): int {
    if configured > 0 && verb != "GET" && verb != "HEAD" then 0 else configured
  }

  // ---------------------------------------------------------------- the same, case by case

  /** Attempt k has a body to send and a backend to send it to. */
  predicate CanAttempt(w: World, k: nat) {
    (k == 0 || !w.hasBody || w.bodyOk(k)) && w.pick(k) != ""
  }

  /** Attempt k and all before it may be made, and each before it ended in an error or a status 502, 503 or 504. */
  predicate GoesOnTo(w: World, configured: int, verb: string, k: nat) {
    && k <= configured && (k > 0 ==> verb == "GET" || verb == "HEAD")
    && forall j :: 0 <= j < k ==>
         CanAttempt(w, j) && (w.outcome(j).Failure? || 502 <= w.outcome(j).status <= 504)
  }

  /** Attempt k gets the response that is passed on: another status, or any when no attempt is left. */
  predicate ServedAt(w: World, configured: int, verb: string, k: nat, status: int) {
    && GoesOnTo(w, configured, verb, k) && CanAttempt(w, k) && w.outcome(k) == Response(status)
    && (status < 502 || status > 504 || k == configured || (verb != "GET" && verb != "HEAD"))
  }

  /** The body cannot be rewound for attempt k. */
  predicate BodyFailsAt(w: World, configured: int, verb: string, k: nat) {
    k > 0 && GoesOnTo(w, configured, verb, k) && w.hasBody && !w.bodyOk(k)
  }

  /** No backend is left for attempt k. */
  predicate RunsOutAt(w: World, configured: int, verb: string, k: nat) {
    k > 0 && GoesOnTo(w, configured, verb, k) && (w.hasBody ==> w.bodyOk(k)) && w.pick(k) == ""
  }

  /** Attempt k is the last there is, and fails. */
  predicate FailsAt(w: World, configured: int, verb: string, k: nat) {
    && GoesOnTo(w, configured, verb, k) && CanAttempt(w, k) && w.outcome(k).Failure?
    && (k == configured || (verb != "GET" && verb != "HEAD"))
  }

  // ---------------------------------------------------------------- the loop

  method RoundTrip(log: PoolLog, backend: string, attempt: nat, outcome: Outcome)
    returns (response: TrackedBody?, err: bool)
    modifies log
    ensures err == outcome.Failure? && (response == null <==> err)
    ensures !err ==>
              && fresh(response) && response.log == log && response.attempt == attempt
              && response.status == outcome.status && !response.finished
    ensures log.trace == old(log.trace) + [Started(attempt, backend)] + if err then [FinishOf(attempt, outcome)] else []
  {
    log.trace := log.trace + [Started(attempt, backend)];
    match outcome {
      case Failure =>
        log.trace := log.trace + [Finished(attempt, 0, PoolModel.Failed(0, true))];
        response, err := null, true;
      case Response(status) =>
        response := new TrackedBody(log, attempt, status);
        err := false;
    }
  }

  /** copyResponse reads the body to its end or to an error, and closes it in any case. */
  method CopyResponse(response: TrackedBody, chunks: nat, readFails: bool)
    modifies response, response.log
    ensures response.finished
    ensures response.log.trace ==
            old(response.log.trace) + if old(response.finished) then [] else [FinishOf(response.attempt, Response(response.status))]
  {
    for i := 0 to chunks
      invariant response.finished == old(response.finished)
      invariant response.log.trace == old(response.log.trace)
    {
      response.Read(false);
    }
    response.Read(readFails);
    response.Close();
  }

  /** The status sent, and the backend written to the access log when a response was relayed. */
  datatype Answer = Answer(status: int, backend: Option<string>)

  lemma {:induction false} NoAttempts(w: World)
    ensures AttemptsTrace(w, 0) == []
  {
  }

  lemma {:induction false} RetriedIf(w: World, k: nat)
    requires BodyReady(w, k) && w.pick(k) != ""
    requires w.outcome(k).Response? ==> GatewayError(w.outcome(k).status)
    ensures Retried(w, k)
  {
  }

  /** The three calls of one attempt, appended. */
  lemma {:induction false} OneMoreAttempt(before: seq<PoolEvent>, w: World, k: nat)
    ensures before + AttemptsTrace(w, k) + [Picked(w.pick(k))] + [Started(k, w.pick(k))] + [FinishOf(k, w.outcome(k))] ==
            before + AttemptsTrace(w, k + 1)
  {
  }

  lemma {:induction false} AttemptsOnly(before: seq<PoolEvent>, w: World, stop: nat, ending: Ending)
    requires !ending.NoBackend?
    ensures before + AttemptsTrace(w, Contacted(stop, ending)) == before + TraceSent(w, stop, ending)
  {
  }

  /** The loop itself: the last backend picked, the response in hand, if any, and whether the last try failed. */
  method TryBackends(log: PoolLog, w: World, retries: int)
    returns (backend: string, response: TrackedBody?, err: bool, ghost stop: nat, ghost ending: Ending)
    modifies log
    ensures EndsAt(w, retries, stop, ending)
    ensures ending.Accepted? ==>
              && !err && response != null && backend == w.pick(stop) != ""
              && !response.finished && response.status == ending.status
    ensures !ending.Accepted? ==>
              && (backend == "" <==> ending == NoBackend || stop == 0)
              && (err || response == null <==> ending != NoBackend || KeptStatus(w, stop).None?)
              && (response != null ==> response.finished && KeptStatus(w, stop) == Some(response.status))
    ensures response != null ==> fresh(response) && response.log == log && response.attempt < Contacted(stop, ending)
    ensures var sent := old(log.trace) + AttemptsTrace(w, Contacted(stop, ending));
            match ending
            case Accepted(status) => log.trace + [FinishOf(response.attempt, Response(status))] == sent
            case NoBackend => log.trace == sent + [Picked("")]
            case _ => log.trace == sent
  {
    hide AttemptsTrace, FinishOf, Retried;
    ghost var before := log.trace;
    NoAttempts(w);
    response, backend, err := null, "", false;
    var attempt := 0;
    ending := Exhausted;
    while attempt <= retries
      invariant 0 <= attempt <= MaxInt(0, retries + 1)
      invariant forall j :: 0 <= j < attempt ==> Retried(w, j)
      invariant attempt == 0 ==> response == null && !err && backend == ""
      invariant attempt > 0 ==>
                  && err == w.outcome(attempt - 1).Failure? && (response == null <==> err) && backend != ""
                  && (attempt == retries + 1 ==> err)
      invariant response != null ==>
                  && fresh(response) && response.log == log && response.finished && response.attempt < attempt
                  && Response(response.status) == w.outcome(attempt - 1)
      invariant log.trace == before + AttemptsTrace(w, attempt)
      invariant ending == Exhausted
    {
      if attempt > 0 && w.hasBody {
        if !w.bodyOk(attempt) {
          err := true;
          ending := BodyFailed;
          break;
        }
      }
      backend := w.pick(attempt);
      log.trace := log.trace + [Picked(backend)];
      if backend == "" {
        ending := NoBackend;
        break;
      }
      OneMoreAttempt(before, w, attempt);
      response, err := RoundTrip(log, backend, attempt, w.outcome(attempt));
      if !err && (response.status < 502 || response.status > 504 || attempt == retries) {
        ending := Accepted(response.status);
        break;
      }
      if response != null {
        response.Close();
      }
      RetriedIf(w, attempt);
      attempt := attempt + 1;
    }
    stop := attempt;
  }

  method Proxy(log: PoolLog, w: World, configured: int, verb: string)
    returns (answer: Answer, ghost stop: nat, ghost ending: Ending)
    modifies log
    ensures EndsAt(w, EffectiveRetries(configured, verb), stop, ending)
    ensures answer == Answer(StatusSent(w, stop, ending), BackendLogged(w, stop, ending))
    ensures log.trace == old(log.trace) + TraceSent(w, stop, ending)
    ensures forall k: nat, status :: ServedAt(w, configured, verb, k, status) ==>
              && answer == Answer(status, Some(w.pick(k)))
              && |log.trace| == |old(log.trace)| + 3 * (k + 1)
    ensures forall k: nat :: FailsAt(w, configured, verb, k) ==>
              answer == Answer(if w.deadlineExceeded then 504 else 502, None)
    ensures configured < 0 || w.pick(0) == "" ==> answer == Answer(if w.deadlineExceeded then 504 else 503, None)
    ensures forall k: nat :: BodyFailsAt(w, configured, verb, k) ==>
              answer == Answer(if w.deadlineExceeded then 504 else 502, None)
    ensures forall k: nat ::
              RunsOutAt(w, configured, verb, k) ==>
                answer == if w.outcome(k - 1).Response? then Answer(w.outcome(k - 1).status, Some(""))
                          else Answer(if w.deadlineExceeded then 504 else 503, None)
  {
    var retries := configured;
    if retries > 0 && verb != "GET" && verb != "HEAD" {
      retries := 0;
    }
    hide AttemptsTrace, FinishOf, Retried;
    var backend, response, err;
    backend, response, err, stop, ending := TryBackends(log, w, retries);
    if err || response == null {
      var status := 502;
      if backend == "" {
        status := 503;
      }
      if w.deadlineExceeded {
        status := 504;
      }
      answer := Answer(status, None);
    } else {
      answer := Answer(response.status, Some(backend));
      CopyResponse(response, w.chunks, w.readFails);
    }
    if ending != NoBackend {
      AttemptsOnly(old(log.trace), w, stop, ending);
    }
    EndsByCase(w, configured, verb, stop, ending);
  }

  // ---------------------------------------------------------------- what that means

  lemma {:induction false} NoLaterEnd(w: World, retries: int, stop: nat, ending: Ending, stop': nat, ending': Ending)
    requires EndsAt(w, retries, stop, ending) && EndsAt(w, retries, stop', ending')
    ensures stop >= stop'
  {
    var again := Retried(w, stop);
  }

  /** A world and a retry count determine where and why the loop stops, so its answer is a function of them. */
  lemma {:induction false} EndingIsUnique(w: World, retries: int, stop: nat, ending: Ending, stop': nat, ending': Ending)
    requires EndsAt(w, retries, stop, ending) && EndsAt(w, retries, stop', ending')
    ensures stop == stop' && ending == ending'
  {
    NoLaterEnd(w, retries, stop, ending, stop', ending');
    NoLaterEnd(w, retries, stop', ending', stop, ending);
  }

  /** Attempt by attempt, what the pool is told: a pick, a start, and a finish that failed from status 500 on. */
  lemma {:induction false} TraceByAttempt(w: World, n: nat)
    ensures var t := AttemptsTrace(w, n);
            && |t| == 3 * n
            && forall k :: 0 <= k < n ==>
                 && t[3 * k] == Picked(w.pick(k)) && t[3 * k + 1] == Started(k, w.pick(k))
                 && t[3 * k + 2] == match w.outcome(k)
                                    case Failure => Finished(k, 0, true)
                                    case Response(status) => Finished(k, status, status >= 500)
  {
    if n > 0 {
      TraceByAttempt(w, n - 1);
    }
  }

  lemma {:induction false} GoesOnRetries(w: World, configured: int, verb: string, k: nat)
    requires GoesOnTo(w, configured, verb, k)
    ensures k <= EffectiveRetries(configured, verb)
    ensures k == configured || (verb != "GET" && verb != "HEAD") ==> k == EffectiveRetries(configured, verb)
    ensures forall j :: 0 <= j < k ==> Retried(w, j)
  {
    forall j | 0 <= j < k ensures Retried(w, j) {
      assert CanAttempt(w, j);
    }
  }

  /** Where the loop stops in each of the cases. */
  lemma {:induction false} StopsByCase(w: World, configured: int, verb: string, stop: nat, ending: Ending)
    requires EndsAt(w, EffectiveRetries(configured, verb), stop, ending)
    ensures forall k: nat, status :: ServedAt(w, configured, verb, k, status) ==> stop == k && ending == Accepted(status)
    ensures forall k: nat :: FailsAt(w, configured, verb, k) ==> stop == k + 1 && ending == Exhausted
    ensures configured < 0 ==> stop == 0 && ending == Exhausted
    ensures configured >= 0 && w.pick(0) == "" ==> stop == 0 && ending == NoBackend
    ensures forall k: nat :: BodyFailsAt(w, configured, verb, k) ==> stop == k && ending == BodyFailed
    ensures forall k: nat :: RunsOutAt(w, configured, verb, k) ==> stop == k && ending == NoBackend
  {
    var retries := EffectiveRetries(configured, verb);
    if configured < 0 {
      EndingIsUnique(w, retries, stop, ending, 0, Exhausted);
    } else if w.pick(0) == "" {
      EndingIsUnique(w, retries, stop, ending, 0, NoBackend);
    }
    forall k: nat, status | ServedAt(w, configured, verb, k, status) ensures stop == k && ending == Accepted(status) {
      GoesOnRetries(w, configured, verb, k);
      hide GoesOnTo, EffectiveRetries;
      EndingIsUnique(w, retries, stop, ending, k, Accepted(status));
    }
    forall k: nat | FailsAt(w, configured, verb, k) ensures stop == k + 1 && ending == Exhausted {
      GoesOnRetries(w, configured, verb, k);
      hide GoesOnTo, EffectiveRetries;
      assert Retried(w, k);
      EndingIsUnique(w, retries, stop, ending, k + 1, Exhausted);
    }
    forall k: nat | BodyFailsAt(w, configured, verb, k) ensures stop == k && ending == BodyFailed {
      GoesOnRetries(w, configured, verb, k);
      hide GoesOnTo, EffectiveRetries;
      EndingIsUnique(w, retries, stop, ending, k, BodyFailed);
    }
    forall k: nat | RunsOutAt(w, configured, verb, k) ensures stop == k && ending == NoBackend {
      GoesOnRetries(w, configured, verb, k);
      hide GoesOnTo, EffectiveRetries;
      EndingIsUnique(w, retries, stop, ending, k, NoBackend);
    }
  }

  /** What the client is sent, and what the log shows, in each of the cases. */
  lemma {:induction false} EndsByCase(w: World, configured: int, verb: string, stop: nat, ending: Ending)
    requires EndsAt(w, EffectiveRetries(configured, verb), stop, ending)
    ensures var answer := Answer(StatusSent(w, stop, ending), BackendLogged(w, stop, ending));
            var noAnswer := if w.deadlineExceeded then 504 else 502;
            var noBackend := if w.deadlineExceeded then 504 else 503;
            && (forall k: nat, status :: ServedAt(w, configured, verb, k, status) ==>
                  answer == Answer(status, Some(w.pick(k))) && |TraceSent(w, stop, ending)| == 3 * (k + 1))
            && (forall k: nat :: FailsAt(w, configured, verb, k) ==> answer == Answer(noAnswer, None))
            && (configured < 0 || w.pick(0) == "" ==> answer == Answer(noBackend, None))
            && (forall k: nat :: BodyFailsAt(w, configured, verb, k) ==>
                  answer == Answer(noAnswer, None))
            && (forall k: nat ::
                  RunsOutAt(w, configured, verb, k) ==>
                    answer == if w.outcome(k - 1).Response? then Answer(w.outcome(k - 1).status, Some("")) else Answer(noBackend, None))
  {
    StopsByCase(w, configured, verb, stop, ending);
    TraceByAttempt(w, Contacted(stop, ending));
    assert forall k: nat :: RunsOutAt(w, configured, verb, k) ==> k > 0;
    hide GoesOnTo, ServedAt, FailsAt, EndsAt, AttemptsTrace, BodyFailsAt, RunsOutAt;
  }

  /** One of the cases always holds. */
  lemma {:induction false} SomeCaseHolds(w: World, configured: int, verb: string)
    ensures || configured < 0 || w.pick(0) == ""
            || (exists k: nat, status :: ServedAt(w, configured, verb, k, status))
            || (exists k: nat :: FailsAt(w, configured, verb, k))
            || (exists k: nat :: BodyFailsAt(w, configured, verb, k))
            || (exists k: nat :: RunsOutAt(w, configured, verb, k))
  {
    if configured >= 0 && w.pick(0) != "" {
      CaseFrom(w, configured, verb, 0);
    }
  }

  lemma {:induction false} CaseFrom(w: World, configured: int, verb: string, k: nat)
    requires GoesOnTo(w, configured, verb, k) && CanAttempt(w, k)
    ensures || (exists k: nat, status :: ServedAt(w, configured, verb, k, status))
            || (exists k: nat :: FailsAt(w, configured, verb, k))
            || (exists k: nat :: BodyFailsAt(w, configured, verb, k))
            || (exists k: nat :: RunsOutAt(w, configured, verb, k))
    decreases configured - k
  {
    if w.outcome(k).Response? && ServedAt(w, configured, verb, k, w.outcome(k).status) {
    } else if !FailsAt(w, configured, verb, k) {
      assert GoesOnTo(w, configured, verb, k + 1);
      if CanAttempt(w, k + 1) {
        CaseFrom(w, configured, verb, k + 1);
      } else {
        assert BodyFailsAt(w, configured, verb, k + 1) || RunsOutAt(w, configured, verb, k + 1);
      }
    }
  }

  /** At most retries + 1 backends are contacted, and one at most when the method is not safe to repeat. */
  lemma {:induction false} ContactsAreBounded(w: World, configured: int, verb: string, stop: nat, ending: Ending)
    requires EndsAt(w, EffectiveRetries(configured, verb), stop, ending)
    ensures Contacted(stop, ending) <= MaxInt(0, configured + 1)
    ensures verb != "GET" && verb != "HEAD" ==> Contacted(stop, ending) <= 1
  {
  }

  /** How many of the first n calls start, or finish, the attempt. */
  function CallsFor(trace: seq<PoolEvent>, n: nat, attempt: nat, finishes: bool): nat
    requires n <= |trace|
  {
    if n == 0 then 0
    else
      var e := trace[n - 1];
      CallsFor(trace, n - 1, attempt, finishes)
      + if !e.Picked? && e.attempt == attempt && e.Finished? == finishes then 1 else 0
  }

  lemma {:induction false} CallsForPrefix(trace: seq<PoolEvent>, more: seq<PoolEvent>, n: nat, attempt: nat, finishes: bool)
    requires n <= |trace|
    ensures CallsFor(trace + more, n, attempt, finishes) == CallsFor(trace, n, attempt, finishes)
  {
    if n > 0 {
      CallsForPrefix(trace, more, n - 1, attempt, finishes);
    }
  }

  lemma {:induction false} AttemptCallsOnce(trace: seq<PoolEvent>, w: World, k: nat, attempt: nat, finishes: bool)
    ensures var t := trace + AttemptEvents(w, k);
            CallsFor(t, |t|, attempt, finishes) ==
            CallsFor(trace, |trace|, attempt, finishes) + if attempt == k then 1 else 0
  {
    var t := trace + AttemptEvents(w, k);
    var n := |trace|;
    CallsForPrefix(trace, AttemptEvents(w, k), n, attempt, finishes);
    assert t[n] == Picked(w.pick(k)) && t[n + 1] == Started(k, w.pick(k)) && t[n + 2] == FinishOf(k, w.outcome(k));
    assert CallsFor(t, n + 1, attempt, finishes) == CallsFor(t, n, attempt, finishes);
    assert CallsFor(t, n + 2, attempt, finishes) ==
           CallsFor(t, n + 1, attempt, finishes) + if attempt == k && !finishes then 1 else 0;
  }

  lemma {:induction false} AttemptsCallOnce(w: World, n: nat, attempt: nat, finishes: bool)
    ensures var t := AttemptsTrace(w, n);
            CallsFor(t, |t|, attempt, finishes) == if attempt < n then 1 else 0
  {
    if n > 0 {
      AttemptsCallOnce(w, n - 1, attempt, finishes);
      AttemptCallsOnce(AttemptsTrace(w, n - 1), w, n - 1, attempt, finishes);
    }
  }

  /**
   By the time the handler returns, each contacted attempt has called startRequest once and its finish
   closure once, whichever way the loop ended; no other attempt has called either.
   */
  lemma {:induction false} EveryStartIsFinishedOnce(w: World, stop: nat, ending: Ending, attempt: nat)
    ensures var t := TraceSent(w, stop, ending);
            var once := if attempt < Contacted(stop, ending) then 1 else 0;
            CallsFor(t, |t|, attempt, false) == once && CallsFor(t, |t|, attempt, true) == once
  {
    var attempts := AttemptsTrace(w, Contacted(stop, ending));
    var t := TraceSent(w, stop, ending);
    forall finishes: bool
      ensures CallsFor(t, |t|, attempt, finishes) == if attempt < Contacted(stop, ending) then 1 else 0
    {
      AttemptsCallOnce(w, Contacted(stop, ending), attempt, finishes);
      if ending.NoBackend? {
        CallsForPrefix(attempts, [Picked("")], |attempts|, attempt, finishes);
        assert t == attempts + [Picked("")];
      } else {
        assert t == attempts;
      }
    }
  }
}
