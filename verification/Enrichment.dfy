/** Fetching one provider's metadata for a DOI: cache, persisted retry schedule and retry budget
    (src/transit_scholar/doi_enrichment/service.py:293-466, 744-756). The network's answer, the clock
    and the jitter are inputs. */
module Enrichment {
  import opened Prelude

  const BACKOFF: seq<real> := [30.0, 120.0, 600.0, 3600.0]

  /** Every provider's budget (src/transit_scholar/doi_enrichment/providers.py:36-40). */
  const MAX_ATTEMPTS := 4

  datatype Status = Pending | Running | Fetched | NotFound | RetryScheduled | Failed | Skipped

  datatype ErrorCode = NetworkDisabled | MissingRecord | RateLimited | TransientError | NonRetryableHttp | NetworkError
      | MissingApiKey

  datatype Record = Record(
    status: Status, raw: Option<string>, attempts: nat, nextRetryAt: Option<real>,
    fetchedAt: Option<real>, httpStatus: Option<int>, error: Option<ErrorCode>)

  const FRESH := Record(Pending, None, 0, None, None, None, None)

  datatype FetchStatus = FetchOk | FetchNotFound | FetchOther

  /** What a client's fetch returns; an empty raw text counts as none. */
  datatype Fetch = Fetch(status: FetchStatus, http: Option<int>, raw: string, retryAfter: Option<real>)

  /** One call: when the schedule is checked, when the answer is recorded, and everything it draws from
      outside. A call whose fetch raises, or whose process stops before the commit, is interrupted. */
  datatype Call = Call(force: bool, network: bool, checkedAt: real, answeredAt: real, fetch: Fetch, jitter: real,
      interrupted: bool)

  predicate Retryable(http: int) { http in {429, 500, 502, 503, 504} }

  function Base(attempts: nat): real
    requires attempts > 0
  {
    BACKOFF[Min(attempts - 1, |BACKOFF| - 1)]
  }

  /** jitter is the drawn fraction of the base delay, between -0.1 and 0.1. */
  function NextRetryAt(attempts: nat, now: real, retryAfter: Option<real>, jitter: real): real
    requires attempts > 0
  {
    if retryAfter.Some? then retryAfter.value else now + Base(attempts) + jitter * Base(attempts)
  }

  // ------------------------------------------------------------ one call

  predicate Cached(r: Record) { r.raw.Some? && r.status.Fetched? }

  predicate Waiting(r: Record, now: real) { r.nextRetryAt.Some? && r.nextRetryAt.value > now }

  predicate Exhausted(r: Record, max: nat) { r.attempts >= max }

  /** A forced call starts a fresh budget once the old one is spent. */
  function Reopened(r: Record, max: nat, force: bool): Record {
    if force && Exhausted(r, max) then r.(attempts := 0, status := Pending) else r
  }

  function Retried(r: Record, max: nat, c: Call, error: ErrorCode): Record
    requires r.attempts > 0
  {
    if Exhausted(r, max) then r.(status := Failed, error := Some(error), nextRetryAt := None)
    else r.(status := RetryScheduled, error := Some(error),
      nextRetryAt := Some(NextRetryAt(r.attempts, c.answeredAt, c.fetch.retryAfter, c.jitter)))
  }

  function Answered(r: Record, max: nat, c: Call): Record {
    var n := r.(httpStatus := c.fetch.http, attempts := r.attempts + 1);
    if c.fetch.status.FetchOk? && c.fetch.raw != [] then
      n.(raw := Some(c.fetch.raw), status := Fetched, fetchedAt := Some(c.answeredAt), error := None,
        nextRetryAt := None)
    else if c.fetch.status.FetchNotFound? then n.(status := NotFound, error := Some(MissingRecord), nextRetryAt := None)
    else if c.fetch.http == Some(429) then Retried(n, max, c, RateLimited)
    else if c.fetch.http.Some? && Retryable(c.fetch.http.value) then Retried(n, max, c, TransientError)
    else if c.fetch.http.Some? then n.(status := Failed, error := Some(NonRetryableHttp), nextRetryAt := None)
    else n.(status := Failed, error := Some(NetworkError), nextRetryAt := None)
  }

  /** The stored record after a call, and whether a request went out. */
  function RunOne(r: Record, max: nat, c: Call): (Record, bool) {
    if Cached(r) && !c.force then (r, false)
    else
      var reopened := Reopened(r, max, c.force);
      if !c.force && Waiting(reopened, c.checkedAt) then (reopened, false)
      else if !c.force && Exhausted(reopened, max) then (reopened, false)
      else if !c.network then (reopened.(status := Pending, error := Some(NetworkDisabled), nextRetryAt := None), false)
      else
        var running := reopened.(status := Running);
        (if c.interrupted then running else Answered(running, max, c), true)
  }

  class ProviderRecord {
    var row: Record
    /** Requests sent so far. */
    var requests: nat

    method RunOneProvider(max: nat, c: Call)
      modifies this
      ensures row == RunOne(old(row), max, c).0
      ensures requests == old(requests) + (if RunOne(old(row), max, c).1 then 1 else 0)
    {
      if row.raw.Some? && !c.force && row.status.Fetched? { return; }
      if c.force && row.attempts >= max {
        row := row.(attempts := 0, status := Pending);
      }
      if !c.force && row.nextRetryAt.Some? && row.nextRetryAt.value > c.checkedAt { return; }
      if !c.force && row.attempts >= max { return; }
      if !c.network {
        row := row.(status := Pending, error := Some(NetworkDisabled), nextRetryAt := None);
        return;
      }
      row := row.(status := Running);
      requests := requests + 1;
      if c.interrupted { return; }
      row := row.(httpStatus := c.fetch.http, attempts := row.attempts + 1);
      if c.fetch.status.FetchOk? && c.fetch.raw != [] {
        row := row.(raw := Some(c.fetch.raw), status := Fetched, fetchedAt := Some(c.answeredAt), error := None,
          nextRetryAt := None);
      } else if c.fetch.status.FetchNotFound? {
        row := row.(status := NotFound, error := Some(MissingRecord), nextRetryAt := None);
      } else if c.fetch.http == Some(429) || (c.fetch.http.Some? && Retryable(c.fetch.http.value)) {
        row := row.(status := RetryScheduled,
          error := Some(if c.fetch.http == Some(429) then RateLimited else TransientError),
                    nextRetryAt := Some(NextRetryAt(row.attempts, c.answeredAt, c.fetch.retryAfter, c.jitter)));
        if row.attempts >= max {
          row := row.(status := Failed, nextRetryAt := None);
        }
      } else {
        row := row.(status := Failed, error := Some(if c.fetch.http.Some? then NonRetryableHttp else NetworkError),
          nextRetryAt := None);
      }
    }
  }

  // ------------------------------------------------------------ sequences of calls

  /** The record after the first n calls. */
  function After(r: Record, max: nat, calls: seq<Call>, n: nat): Record
    requires n <= |calls|
  {
    if n == 0 then r else RunOne(After(r, max, calls, n - 1), max, calls[n - 1]).0
  }

  predicate Sends(r: Record, max: nat, calls: seq<Call>, i: nat)
    requires i < |calls|
  {
    RunOne(After(r, max, calls, i), max, calls[i]).1
  }

  function SentCount(r: Record, max: nat, calls: seq<Call>, n: nat): nat
    requires n <= |calls|
  {
    if n == 0 then 0 else SentCount(r, max, calls, n - 1) + (if Sends(r, max, calls, n - 1) then 1 else 0)
  }

  /** Requests whose answer was never recorded. */
  function LostCount(r: Record, max: nat, calls: seq<Call>, n: nat): nat
    requires n <= |calls|
  {
    if n == 0 then 0
    else LostCount(r, max, calls, n - 1) + (if Sends(r, max, calls, n - 1) && calls[n - 1].interrupted then 1 else 0)
  }

  /** The attempts handed back by forced calls that found the budget spent. */
  function Refilled(r: Record, max: nat, calls: seq<Call>, n: nat): nat
    requires n <= |calls|
  {
    if n == 0 then 0
    else
      Refilled(r, max, calls, n - 1)
      + (if calls[n - 1].force && Exhausted(After(r, max, calls, n - 1), max) then max else 0)
  }

  lemma OneCallAccounts(r: Record, max: nat, c: Call)
    requires r.attempts <= max && max > 0
    ensures var (n, sent) := RunOne(r, max, c);
      && n.attempts <= max
      && n.attempts + (if c.force && Exhausted(r, max) then max else 0) ==
           r.attempts + (if sent then 1 else 0) - (if sent && c.interrupted then 1 else 0)
  {
  }

  /** Main result: the requests of any sequence of calls are accounted for exactly. Each one raised the
      attempt count, was lost to an interruption, or was paid for by a forced refresh of a spent budget;
      and the count never exceeds the budget. */
  lemma {:induction false} RequestsAccounted(r: Record, max: nat, calls: seq<Call>, n: nat)
    requires r.attempts <= max && max > 0 && n <= |calls|
    ensures After(r, max, calls, n).attempts <= max
    ensures SentCount(r, max, calls, n) ==
      After(r, max, calls, n).attempts - r.attempts + LostCount(r, max, calls, n) + Refilled(r, max, calls, n)
  {
    if n > 0 {
      RequestsAccounted(r, max, calls, n - 1);
      OneCallAccounts(After(r, max, calls, n - 1), max, calls[n - 1]);
      hide RunOne, Exhausted;
    }
  }

  /** Without forced calls a sequence sends at most what is left of the budget, plus one request for
      each interruption. */
  lemma UnforcedBudget(r: Record, max: nat, calls: seq<Call>, n: nat)
    requires r.attempts <= max && max > 0 && n <= |calls| && forall i :: 0 <= i < n ==> !calls[i].force
    ensures SentCount(r, max, calls, n) <= max - r.attempts + LostCount(r, max, calls, n)
  {
    RequestsAccounted(r, max, calls, n);
    NeverRefilled(r, max, calls, n);
  }

  lemma {:induction false} NeverRefilled(r: Record, max: nat, calls: seq<Call>, n: nat)
    requires n <= |calls| && forall i :: 0 <= i < n ==> !calls[i].force
    ensures Refilled(r, max, calls, n) == 0
  {
    if n > 0 { NeverRefilled(r, max, calls, n - 1); }
  }

  // ------------------------------------------------------------ when nothing is sent

  /** Exactly when a call sends its one request. */
  lemma SendsExactly(r: Record, max: nat, c: Call)
    requires max > 0
    ensures RunOne(r, max, c).1 <==>
      c.network &&
      (c.force ||
       (&& !(r.status.Fetched? && r.raw.Some?) && r.attempts < max
        && (match r.nextRetryAt case None => true case Some(at) => at <= c.checkedAt)))
  {
  }

  /** The record turns unforced calls away at this time. */
  predicate Closed(r: Record, max: nat, now: real) { Cached(r) || Waiting(r, now) || Exhausted(r, max) }

  /** While a record is closed, unforced calls send nothing and change nothing, with or without network. */
  lemma {:induction false} ClosedStays(r: Record, max: nat, calls: seq<Call>, n: nat)
    requires n <= |calls| && forall i :: 0 <= i < n ==> !calls[i].force && Closed(r, max, calls[i].checkedAt)
    ensures After(r, max, calls, n) == r && SentCount(r, max, calls, n) == 0
  {
    if n > 0 { ClosedStays(r, max, calls, n - 1); }
  }

  /** The clock never runs backwards over the calls. */
  predicate InOrder(calls: seq<Call>) {
    forall i, j :: 0 <= i < j < |calls| ==> calls[i].checkedAt <= calls[j].checkedAt
  }

  /** Main result: once a retry is scheduled for time t, no unforced call sends a request before t. */
  lemma RetryNotBefore(r: Record, max: nat, calls: seq<Call>, n: nat)
    requires r.nextRetryAt.Some? && InOrder(calls) && n < |calls| && forall i :: 0 <= i <= n ==> !calls[i].force
    requires Sends(r, max, calls, n)
    ensures calls[n].checkedAt >= r.nextRetryAt.value
  {
    if calls[n].checkedAt < r.nextRetryAt.value {
      forall i | 0 <= i < n ensures Closed(r, max, calls[i].checkedAt)
      {
        assert calls[i].checkedAt <= calls[n].checkedAt;
      }
      ClosedStays(r, max, calls, n);
    }
  }

  // ------------------------------------------------------------ what is stored

  /** The request of call i was answered with usable text, and the answer was recorded. */
  predicate Delivers(r: Record, max: nat, calls: seq<Call>, i: nat)
    requires i < |calls|
  {
    Sends(r, max, calls, i) && !calls[i].interrupted && calls[i].fetch.status.FetchOk? && calls[i].fetch.raw != ""
  }

  lemma OneCallStores(r: Record, max: nat, c: Call)
    ensures var (n, sent) := RunOne(r, max, c);
      if sent && !c.interrupted && c.fetch.status.FetchOk? && c.fetch.raw != "" then
        n.raw == Some(c.fetch.raw) && n.fetchedAt == Some(c.answeredAt) && n.status.Fetched? && n.error.None?
      else n.raw == r.raw && n.fetchedAt == r.fetchedAt
  {
  }

  /** Main result: over any calls the stored text and its time are those of the last delivered answer j,
      and without one those of the beginning. */
  lemma {:induction false} StoredIsLastDelivered(r: Record, max: nat, calls: seq<Call>, n: nat)
    returns (j: Option<nat>)
    requires n <= |calls|
    ensures j.None? ==> forall i :: 0 <= i < n ==> !Delivers(r, max, calls, i)
    ensures j.Some? ==>
      j.value < n && Delivers(r, max, calls, j.value) && forall i :: j.value < i < n ==> !Delivers(r, max, calls, i)
    ensures var e := After(r, max, calls, n);
      if j.None? then e.raw == r.raw && e.fetchedAt == r.fetchedAt
      else e.raw == Some(calls[j.value].fetch.raw) && e.fetchedAt == Some(calls[j.value].answeredAt)
  {
    hide RunOne, Sends;
    j := None;
    if n > 0 {
      j := StoredIsLastDelivered(r, max, calls, n - 1);
      DeliveryStores(r, max, calls, n - 1);
      if Delivers(r, max, calls, n - 1) { j := Some(n - 1); }
    }
  }

  lemma DeliveryStores(r: Record, max: nat, calls: seq<Call>, i: nat)
    requires i < |calls|
    ensures var before, after := After(r, max, calls, i), After(r, max, calls, i + 1);
      if Delivers(r, max, calls, i) then
        after.raw == Some(calls[i].fetch.raw) && after.fetchedAt == Some(calls[i].answeredAt)
      else after.raw == before.raw && after.fetchedAt == before.fetchedAt
  {
    OneCallStores(After(r, max, calls, i), max, calls[i]);
    hide RunOne;
  }

  /** Main result: once an answer is delivered, unforced calls send nothing and change nothing. */
  lemma {:induction false} DeliveredCloses(r: Record, max: nat, calls: seq<Call>, j: nat, n: nat)
    requires j < n <= |calls| && Delivers(r, max, calls, j) && forall i :: j < i < n ==> !calls[i].force
    ensures After(r, max, calls, n) == After(r, max, calls, j + 1)
    ensures After(r, max, calls, n).status.Fetched? && After(r, max, calls, n).raw == Some(calls[j].fetch.raw)
    ensures forall i :: j < i < n ==> !Sends(r, max, calls, i)
  {
    if n == j + 1 {
      OneCallStores(After(r, max, calls, j), max, calls[j]);
    } else {
      DeliveredCloses(r, max, calls, j, n - 1);
    }
  }

  /** What a recorded answer leaves besides the text: the count, the status and the reason, told apart by
      the kind of answer and what is left of the budget. */
  lemma RecordedAnswer(r: Record, max: nat, c: Call)
    requires max > 0 && RunOne(r, max, c).1 && !c.interrupted
    ensures var n, f := RunOne(r, max, c).0, c.fetch;
      var usable := f.status.FetchOk? && f.raw != "";
      && n.attempts == (if c.force && r.attempts >= max then 1 else r.attempts + 1)
      && n.httpStatus == f.http
      && (n.status.Fetched? <==> usable) && (n.error.None? <==> usable)
      && (n.status.NotFound? <==> !usable && f.status.FetchNotFound?)
      && (n.error == Some(MissingRecord) <==> n.status.NotFound?)
      && (n.error == Some(RateLimited) <==> !usable && !f.status.FetchNotFound? && f.http == Some(429))
      && (n.error == Some(TransientError) <==>
          !usable && !f.status.FetchNotFound? && f.http in {Some(500), Some(502), Some(503), Some(504)})
      && (n.error == Some(NetworkError) <==> !usable && !f.status.FetchNotFound? && f.http.None?)
      && (n.error in {Some(RateLimited), Some(TransientError)} ==>
          n.status == if n.attempts < max then RetryScheduled else Failed)
      && (n.error in {Some(NonRetryableHttp), Some(NetworkError)} ==> n.status.Failed?)
      && n.error != Some(NetworkDisabled) && n.error != Some(MissingApiKey)
  {
  }

  /** What a call leaves that records no answer: nothing when the record turns it away, a running record
      when the answer is lost, and otherwise a record that waits for the network. */
  lemma UnansweredCall(r: Record, max: nat, c: Call)
    requires max > 0 && (RunOne(r, max, c).1 ==> c.interrupted)
    ensures var (n, sent) := RunOne(r, max, c);
      && (n == r
          || (n.status == (if sent then Running else Pending) && n.raw == r.raw && n.fetchedAt == r.fetchedAt
              && n.httpStatus == r.httpStatus && n.attempts == (if c.force && r.attempts >= max then 0 else r.attempts)
              && (if sent then n.error == r.error && n.nextRetryAt == r.nextRetryAt
                  else n.error == Some(NetworkDisabled) && n.nextRetryAt.None?)))
      && (!c.force && Closed(r, max, c.checkedAt) ==> n == r)
      && (sent ==> n.status.Running?) && (!sent && (c.force || !Closed(r, max, c.checkedAt)) ==> n.status.Pending?)
  {
  }

  // ------------------------------------------------------------ delays

  predicate FairJitter(c: Call) { -0.1 <= c.jitter <= 0.1 }

  /** What a request can leave scheduled: only a retryable answer with budget left schedules anything;
      Retry-After (section 10.2.3 of RFC 9110) is taken as it is, and otherwise the delay is within a
      tenth of the base of the attempt. */
  lemma ScheduleExact(r: Record, max: nat, c: Call)
    requires FairJitter(c) && max > 0 && RunOne(r, max, c).1 && !c.interrupted
    ensures var n := RunOne(r, max, c).0;
      && (n.nextRetryAt.Some? <==> n.status.RetryScheduled?)
      && (n.status.RetryScheduled? <==>
          && !(c.fetch.status.FetchOk? && c.fetch.raw != []) && !c.fetch.status.FetchNotFound?
          && c.fetch.http in {Some(429), Some(500), Some(502), Some(503), Some(504)} && n.attempts < max)
      && (n.nextRetryAt.Some? && c.fetch.retryAfter.Some? ==> n.nextRetryAt == c.fetch.retryAfter)
      && (n.nextRetryAt.Some? && c.fetch.retryAfter.None? ==>
          var base := if n.attempts == 1 then 30.0 else if n.attempts == 2 then 120.0
                      else if n.attempts == 3 then 600.0 else 3600.0;
          && n.attempts > 0 && n.nextRetryAt == Some(c.answeredAt + base + c.jitter * base)
          && 0.9 * base <= n.nextRetryAt.value - c.answeredAt <= 1.1 * base)
  {
    var n := RunOne(r, max, c).0;
    if n.nextRetryAt.Some? && c.fetch.retryAfter.None? {
      JitterBound(Base(n.attempts), c.jitter);
    }
  }

  lemma JitterBound(base: real, jitter: real)
    requires base >= 0.0 && -0.1 <= jitter <= 0.1
    ensures -0.1 * base <= jitter * base <= 0.1 * base
  {
  }

  /** With the configured budget of four the last backoff step is never used: a fallback delay is that
      of the first, second or third attempt. */
  lemma LastStepUnused(r: Record, c: Call)
    requires FairJitter(c) && RunOne(r, MAX_ATTEMPTS, c).1 && !c.interrupted && c.fetch.retryAfter.None?
    requires RunOne(r, MAX_ATTEMPTS, c).0.nextRetryAt.Some?
    ensures var n := RunOne(r, MAX_ATTEMPTS, c).0;
      var delay := n.nextRetryAt.value - c.answeredAt;
      || (n.attempts == 1 && 27.0 <= delay <= 33.0)
      || (n.attempts == 2 && 108.0 <= delay <= 132.0)
      || (n.attempts == 3 && 540.0 <= delay <= 660.0)
  {
    ScheduleExact(r, MAX_ATTEMPTS, c);
  }
}
