/** The request counters and the access log that the proxy keeps for its dashboard, updated once per request. */
module AccessLog {
  import opened BoundedLists

  const MAX_ENTRIES: nat := 100

  datatype LogEntry = LogEntry(requestId: string, backend: string, status: int, limited: bool)

  datatype Totals = Totals(requests: nat, limited: nat, statuses: map<int, nat>, log: seq<LogEntry>)

  const NOTHING_YET := Totals(0, 0, map[], [])

  function CountFor(statuses: map<int, nat>, status: int): nat {
    if status in statuses then statuses[status] else 0
  }

  function Recorded(t: Totals, e: LogEntry): Totals {
    Totals(t.requests + 1,
           if e.limited then t.limited + 1 else t.limited,
           if e.status > 0 then t.statuses[e.status := CountFor(t.statuses, e.status) + 1] else t.statuses,
           LastOf(t.log + [e], MAX_ENTRIES))
  }

  class RequestStats {
    var totalRequests: nat
    var totalLimited: nat
    var statusCounts: map<int, nat>
    var accessLog: seq<LogEntry>

    ghost function Model(): Totals
      reads this
    {
      Totals(totalRequests, totalLimited, statusCounts, accessLog)
    }

    constructor ()
      ensures Model() == NOTHING_YET
    {
      totalRequests, totalLimited, statusCounts, accessLog := 0, 0, map[], [];
    }

    method RecordRequest(e: LogEntry)
      modifies this
      ensures Model() == Recorded(old(Model()), e)
    {
      totalRequests := totalRequests + 1;
      if e.limited {
        totalLimited := totalLimited + 1;
      }
      if e.status > 0 {
        statusCounts := statusCounts[e.status := (if e.status in statusCounts then statusCounts[e.status] else 0) + 1];
      }
      AppendLog(e);
    }

    method AppendLog(e: LogEntry)
      modifies this`accessLog
      ensures accessLog == LastOf(old(accessLog) + [e], MAX_ENTRIES)
    {
      accessLog := accessLog + [e];
      if |accessLog| > MAX_ENTRIES {
        accessLog := accessLog[|accessLog| - MAX_ENTRIES..];
      }
    }
  }

  /** The totals after the first n requests. */
  function After(entries: seq<LogEntry>, n: nat): Totals
    requires n <= |entries|
  {
    if n == 0 then NOTHING_YET else Recorded(After(entries, n - 1), entries[n - 1])
  }

  /** How many of the first n requests ended with the status. */
  function WithStatus(entries: seq<LogEntry>, n: nat, status: int): nat
    requires n <= |entries|
  {
    if n == 0 then 0
    else WithStatus(entries, n - 1, status) + if entries[n - 1].status == status then 1 else 0
  }

  /** The log shows the newest hundred requests in order. */
  lemma {:induction false} LogIsNewestRequests(entries: seq<LogEntry>, n: nat)
    requires n <= |entries|
    ensures After(entries, n).log == LastOf(entries[..n], MAX_ENTRIES)
    ensures After(entries, n).log == entries[(if n > 100 then n - 100 else 0)..n]
  {
    if n > 0 {
      LogIsNewestRequests(entries, n - 1);
      assert entries[..n] == entries[..n - 1] + [entries[n - 1]];
      LastOfAppend(entries[..n - 1], [entries[n - 1]], MAX_ENTRIES);
      hide LastOf;
    }
  }

  /** How many of the first n requests were refused by a rate limiter. */
  function Limited(entries: seq<LogEntry>, n: nat): nat
    requires n <= |entries|
  {
    if n == 0 then 0 else Limited(entries, n - 1) + if entries[n - 1].limited then 1 else 0
  }

  /** No request is lost or counted twice. */
  lemma {:induction false} TotalsAccountForEveryRequest(entries: seq<LogEntry>, n: nat, status: int)
    requires n <= |entries|
    ensures After(entries, n).requests == n && After(entries, n).limited == Limited(entries, n)
    ensures CountFor(After(entries, n).statuses, status) == if status > 0 then WithStatus(entries, n, status) else 0
  {
    hide LastOf;
    if n > 0 {
      TotalsAccountForEveryRequest(entries, n - 1, status);
    }
  }
}
