/** One enrichment call over all providers of a job, and the job's status
    (src/transit_scholar/doi_enrichment/service.py:212-290). */
module Cascade {
  import opened Prelude
  import opened Enrichment

  datatype Provider = Crossref | OpenAlex | SemanticScholar

  type Records = map<Provider, Record>

  /** One call: what each provider would answer, whether an OpenAlex key is configured, which raw texts
      carry usable fields, and whether the paper has all minimum fields after the merge. */
  datatype Invocation = Invocation(
    force: bool, network: bool, openAlexKey: bool, answers: Provider -> Call, usable: string -> bool, minimum: bool)

  function CallOf(v: Invocation, p: Provider): Call { v.answers(p).(force := v.force, network := v.network) }

  /** Cascade order; OpenAlex takes part only with a key. */
  function Clients(key: bool): (ps: seq<Provider>)
    ensures forall i, j :: 0 <= i < j < |ps| ==> ps[i] != ps[j]
    ensures (OpenAlex in ps <==> key) && Crossref in ps && SemanticScholar in ps
  {
    if key then [Crossref, OpenAlex, SemanticScholar] else [Crossref, SemanticScholar]
  }

  /** `_get_or_create_record`. */
  function RecordOf(rs: Records, p: Provider): Record { if p in rs then rs[p] else FRESH }

  datatype Result = Result(provider: Provider, status: Status, fields: bool)

  /** The result reports fields that the call stored, or that were stored before when no request was due;
      a call with the network disabled reports none. */
  function ResultOf(rs: Records, v: Invocation, p: Provider): Result {
    var r, c := RecordOf(rs, p), CallOf(v, p);
    var (n, sent) := RunOne(r, MAX_ATTEMPTS, c);
    var held := n.raw.Some? && v.usable(n.raw.value);
    Result(p, n.status, held && (if sent then n.status.Fetched? else !c.force && Closed(r, MAX_ATTEMPTS, c.checkedAt)))
  }

  /** The state of the loop over the clients; an interrupted fetch leaves it. */
  datatype Progress = Progress(records: Records, results: seq<Result>, sent: seq<Provider>, aborted: bool)

  function Visit(g: Progress, v: Invocation, p: Provider): Progress {
    var (n, sent) := RunOne(RecordOf(g.records, p), MAX_ATTEMPTS, CallOf(v, p));
    Progress(g.records[p := n], g.results + [ResultOf(g.records, v, p)],
             if sent then g.sent + [p] else g.sent, sent && CallOf(v, p).interrupted)
  }

  function VisitAll(g: Progress, v: Invocation, ps: seq<Provider>): Progress
    decreases |ps|
  {
    if ps == [] || g.aborted then g else VisitAll(Visit(g, v, ps[0]), v, ps[1..])
  }

  function SkippedRecord(r: Record): Record { r.(status := Skipped, error := Some(MissingApiKey)) }

  datatype JobStatus = JobRunning | JobFetched | JobPartial | JobBlocked

  /** A skipped result neither helps nor blocks. */
  predicate Helps(r: Result) { !r.status.Skipped? && (r.status.Fetched? || r.fields) }

  predicate Blocks(r: Result) { r.status.Skipped? || r.status.Failed? || r.status.NotFound? }

  function Verdict(results: seq<Result>, minimum: bool): JobStatus {
    if minimum then JobFetched
    else if exists r <- results :: Helps(r) then JobPartial
    else if forall r <- results :: Blocks(r) then JobBlocked
    else JobPartial
  }

  datatype Job = Job(records: Records, status: JobStatus)

  /** The stored job after one call, and the providers that were sent a request. */
  function Ran(job: Job, v: Invocation): (Job, seq<Provider>) {
    var g := VisitAll(Progress(job.records, [], [], false), v, Clients(v.openAlexKey));
    if g.aborted then (Job(g.records, if v.force then JobRunning else job.status), g.sent)
    else
      var records := if v.openAlexKey then g.records
        else g.records[OpenAlex := SkippedRecord(RecordOf(g.records, OpenAlex))];
      (Job(records, Verdict(g.results, v.minimum)), g.sent)
  }

  class EnrichmentJob {
    var records: Records
    var status: JobStatus

    method RunCascade(v: Invocation) returns (sent: seq<Provider>)
      modifies this
      ensures (Job(records, status), sent) == Ran(Job(old(records), old(status)), v)
    {
      hide RunOne, ResultOf;
      if v.force { status := JobRunning; }
      sent := [];
      var clients := Clients(v.openAlexKey);
      var results: seq<Result> := [];
      ghost var start := Progress(records, [], [], false);
      for i := 0 to |clients|
        invariant status == if v.force then JobRunning else old(status)
        invariant VisitAll(start, v, clients) == VisitAll(Progress(records, results, sent, false), v, clients[i..])
      {
        var p := clients[i];
        var (n, requested) := RunOne(RecordOf(records, p), MAX_ATTEMPTS, CallOf(v, p));
        results := results + [ResultOf(records, v, p)];
        records := records[p := n];
        if requested { sent := sent + [p]; }
        assert clients[i..][1..] == clients[i + 1..];
        if requested && CallOf(v, p).interrupted { return; }
      }
      if !v.openAlexKey {
        records := records[OpenAlex := SkippedRecord(RecordOf(records, OpenAlex))];
      }
      status := Verdict(results, v.minimum);
    }
  }

  // ------------------------------------------------------------ one call

  /** A request to p in this call whose answer was lost. */
  predicate LostBy(sent: seq<Provider>, v: Invocation, p: Provider) { p in sent && v.answers(p).interrupted }

  /** What one call does to one provider's record: nothing, or one provider call. */
  predicate Stepped(before: Record, after: Record, v: Invocation, p: Provider, sent: bool) {
    (after == before && !sent) || (after, sent) == RunOne(before, MAX_ATTEMPTS, CallOf(v, p))
  }

  lemma {:induction false} VisitAllSteps(g: Progress, v: Invocation, ps: seq<Provider>, p: Provider)
    requires forall i, j :: 0 <= i < j < |ps| ==> ps[i] != ps[j]
    requires p in ps ==> p !in g.sent
    ensures var e := VisitAll(g, v, ps);
      && |g.sent| <= |e.sent| <= |g.sent| + |ps|
      && (p !in ps ==> RecordOf(e.records, p) == RecordOf(g.records, p) && (p in e.sent <==> p in g.sent))
      && (p in ps ==> Stepped(RecordOf(g.records, p), RecordOf(e.records, p), v, p, p in e.sent))
    decreases |ps|
  {
    hide RunOne, ResultOf;
    if ps != [] && !g.aborted {
      var next := Visit(g, v, ps[0]);
      assert p in ps <==> p == ps[0] || p in ps[1..];
      VisitAllSteps(next, v, ps[1..], p);
    }
  }

  /** One call sends each provider at most one request, and steps each record at most once; without a
      key OpenAlex is sent nothing and only its status and error change. */
  lemma OneRequestEach(job: Job, v: Invocation, p: Provider)
    ensures var (e, sent) := Ran(job, v);
      && |sent| <= |Clients(v.openAlexKey)| <= 3
      && (p in Clients(v.openAlexKey) ==> Stepped(RecordOf(job.records, p), RecordOf(e.records, p), v, p, p in sent))
      && (p !in Clients(v.openAlexKey) ==> p !in sent)
      && (p !in Clients(v.openAlexKey) ==>
        RecordOf(e.records, p) in {RecordOf(job.records, p), SkippedRecord(RecordOf(job.records, p))})
  {
    hide RunOne;
    VisitAllSteps(Progress(job.records, [], [], false), v, Clients(v.openAlexKey), p);
  }

  /** The fetch of no provider was interrupted. */
  predicate Completed(sent: seq<Provider>, v: Invocation) { forall p <- sent :: !v.answers(p).interrupted }

  /** The record gives no hope: the provider is skipped, or it has failed or knows nothing and no fields
      of it were kept from an earlier answer, unless a request has just replaced that answer. */
  predicate Hopeless(after: Record, v: Invocation, requested: bool) {
    || after.status.Skipped?
    || ((after.status.Failed? || after.status.NotFound?)
      && (requested || after.raw.None? || !v.usable(after.raw.value)))
  }

  lemma {:induction false} VisitAllResults(g: Progress, v: Invocation, ps: seq<Provider>)
    requires forall i, j :: 0 <= i < j < |ps| ==> ps[i] != ps[j]
    ensures var e := VisitAll(g, v, ps);
      && |g.results| <= |e.results| && e.results[..|g.results|] == g.results
      && (!g.aborted && !e.aborted ==> |e.results| == |g.results| + |ps|)
      && (!g.aborted && !e.aborted ==>
          forall i :: 0 <= i < |ps| ==> e.results[|g.results| + i] == ResultOf(g.records, v, ps[i]))
    ensures !g.aborted && VisitAll(g, v, ps).aborted ==>
      exists p <- ps :: p in VisitAll(g, v, ps).sent && CallOf(v, p).interrupted
    decreases |ps|
  {
    hide RunOne, ResultOf;
    if ps != [] && !g.aborted {
      var next := Visit(g, v, ps[0]);
      VisitAllResults(next, v, ps[1..]);
      var e := VisitAll(g, v, ps);
      assert e.results[..|g.results|] == e.results[..|next.results|][..|g.results|] == g.results;
      if next.aborted {
        assert ps[0] in e.sent && ps[0] in ps;
      } else if !e.aborted {
        forall i | 0 <= i < |ps| ensures e.results[|g.results| + i] == ResultOf(g.records, v, ps[i]) {
          if i == 0 {
            assert e.results[|g.results|] == e.results[..|next.results|][|g.results|];
          } else {
            assert ps[1..][i - 1] == ps[i];
            SameRecordSameResult(g.records, next.records, v, ps[i]);
            assert e.results[|next.results| + (i - 1)] == ResultOf(next.records, v, ps[i]);
          }
        }
      }
    }
  }

  lemma SameRecordSameResult(a: Records, b: Records, v: Invocation, p: Provider)
    requires RecordOf(a, p) == RecordOf(b, p)
    ensures ResultOf(a, v, p) == ResultOf(b, v, p)
  {
  }

  lemma HopelessExactly(before: Record, v: Invocation, p: Provider)
    ensures var (after, requested) := RunOne(before, MAX_ATTEMPTS, CallOf(v, p));
      var r := ResultOf(map[p := before], v, p);
      !(requested && CallOf(v, p).interrupted) ==> (Hopeless(after, v, requested) <==> !Helps(r) && Blocks(r))
  {
  }

  /** Main result: the status of the job after a call. An interrupted call leaves it as it is, or running when
      the call was forced. Any other call leaves the job fetched exactly when the minimum fields are there,
      blocked exactly when they are not and the record of every provider it asked gives no hope, and
      partial otherwise. */
  lemma BlockedExactly(job: Job, v: Invocation)
    ensures var (after, sent) := Ran(job, v);
      && (!Completed(sent, v) ==> after.status == if v.force then JobRunning else job.status)
      && (Completed(sent, v) ==>
          && (after.status.JobFetched? <==> v.minimum)
          && (after.status.JobBlocked? <==>
              !v.minimum && forall p <- Clients(v.openAlexKey) :: Hopeless(RecordOf(after.records, p), v, p in sent))
          && !after.status.JobRunning?)
  {
    VisitAborts(Progress(job.records, [], [], false), v, Clients(v.openAlexKey));
    var ps := Clients(v.openAlexKey);
    var start := Progress(job.records, [], [], false);
    var g := VisitAll(start, v, ps);
    VisitAllResults(start, v, ps);
    if !g.aborted {
      forall i | 0 <= i < |ps|
        ensures Completed(g.sent, v) ==>
          (Hopeless(RecordOf(Ran(job, v).0.records, ps[i]), v, ps[i] in g.sent) <==>
           (!Helps(g.results[i]) && Blocks(g.results[i])))
      {
        VisitedExactly(start, v, ps, i);
        HopelessExactly(RecordOf(job.records, ps[i]), v, ps[i]);
        SameRecordSameResult(job.records, map[ps[i] := RecordOf(job.records, ps[i])], v, ps[i]);
        hide RunOne, ResultOf, Hopeless, Helps, Blocks;
      }
      hide RunOne, ResultOf, Hopeless, Helps, Blocks;
      VerdictBlocked(g.results, v.minimum);
    }
  }

  /** The loop is left exactly after an interrupted fetch. */
  lemma {:induction false} VisitAborts(g: Progress, v: Invocation, ps: seq<Provider>)
    requires g.aborted <==> !Completed(g.sent, v)
    ensures var e := VisitAll(g, v, ps); e.aborted <==> !Completed(e.sent, v)
    decreases |ps|
  {
    hide RunOne, ResultOf;
    if ps != [] && !g.aborted { VisitAborts(Visit(g, v, ps[0]), v, ps[1..]); }
  }

  lemma VerdictBlocked(results: seq<Result>, minimum: bool)
    ensures Verdict(results, minimum).JobFetched? <==> minimum
    ensures !Verdict(results, minimum).JobRunning?
    ensures Verdict(results, minimum).JobBlocked? <==>
      !minimum && forall i :: 0 <= i < |results| ==> !Helps(results[i]) && Blocks(results[i])
  {
  }

  /** Without an interruption every client is asked once. */
  lemma {:induction false} VisitedExactly(g: Progress, v: Invocation, ps: seq<Provider>, i: nat)
    requires forall k, l :: 0 <= k < l < |ps| ==> ps[k] != ps[l]
    requires i < |ps| && !g.aborted && !VisitAll(g, v, ps).aborted && forall k :: 0 <= k < |ps| ==> ps[k] !in g.sent
    ensures var e := VisitAll(g, v, ps);
      (RecordOf(e.records, ps[i]), ps[i] in e.sent)
        == RunOne(RecordOf(g.records, ps[i]), MAX_ATTEMPTS, CallOf(v, ps[i]))
    decreases |ps|
  {
    hide RunOne, ResultOf;
    var next := Visit(g, v, ps[0]);
    assert !next.aborted;
    if i == 0 {
      VisitAllSteps(next, v, ps[1..], ps[0]);
    } else {
      assert forall k :: 0 <= k < |ps| - 1 ==> ps[1..][k] == ps[k + 1];
      VisitedExactly(next, v, ps[1..], i - 1);
    }
  }

  /** Main result: a call that was not interrupted asks every client once, and leaves the keyless OpenAlex
      skipped for want of a key; an interrupted one does not touch it. */
  lemma CompletedAsksEach(job: Job, v: Invocation, p: Provider)
    ensures var (after, sent) := Ran(job, v);
      var x, y := RecordOf(job.records, p), RecordOf(after.records, p);
      && (Completed(sent, v) && (p.OpenAlex? ==> v.openAlexKey) ==>
          (y, p in sent) == RunOne(x, MAX_ATTEMPTS, CallOf(v, p)))
      && (p.OpenAlex? && !v.openAlexKey ==>
          && p !in sent
          && if Completed(sent, v) then y == x.(status := Skipped, error := Some(MissingApiKey)) else y == x)
  {
    var ps := Clients(v.openAlexKey);
    var start := Progress(job.records, [], [], false);
    var g := VisitAll(start, v, ps);
    VisitAborts(start, v, ps);
    if p in ps {
      var i :| 0 <= i < |ps| && ps[i] == p;
      if !g.aborted { VisitedExactly(start, v, ps, i); }
    } else {
      VisitAllSteps(start, v, ps, p);
    }
    hide RunOne, ResultOf;
  }

  // ------------------------------------------------------------ many calls

  function JobAfter(job: Job, vs: seq<Invocation>, n: nat): Job
    requires n <= |vs|
  {
    if n == 0 then job else Ran(JobAfter(job, vs, n - 1), vs[n - 1]).0
  }

  function SentAt(job: Job, vs: seq<Invocation>, n: nat): seq<Provider>
    requires n < |vs|
  {
    Ran(JobAfter(job, vs, n), vs[n]).1
  }

  /** Requests to p in the first n calls, and those of them whose answer was lost. */
  function RequestsTo(job: Job, vs: seq<Invocation>, n: nat, p: Provider): nat
    requires n <= |vs|
  {
    if n == 0 then 0 else RequestsTo(job, vs, n - 1, p) + (if p in SentAt(job, vs, n - 1) then 1 else 0)
  }

  function LostTo(job: Job, vs: seq<Invocation>, n: nat, p: Provider): nat
    requires n <= |vs|
  {
    if n == 0 then 0 else LostTo(job, vs, n - 1, p) + (if LostBy(SentAt(job, vs, n - 1), vs[n - 1], p) then 1 else 0)
  }

  lemma UnforcedStep(before: Record, after: Record, v: Invocation, p: Provider, sent: bool)
    requires before.attempts <= MAX_ATTEMPTS && !v.force && Stepped(before, after, v, p, sent)
    ensures after.attempts <= MAX_ATTEMPTS
    ensures after.attempts
      == before.attempts + (if sent then 1 else 0) - (if sent && v.answers(p).interrupted then 1 else 0)
  {
    OneCallAccounts(before, MAX_ATTEMPTS, CallOf(v, p));
    hide RunOne;
  }

  /** Main result: over any unforced calls of the whole cascade, with keys appearing and disappearing,
      a provider is sent exactly as many requests as its record counts, plus the lost ones. */
  lemma {:induction false} CascadeAccounted(job: Job, vs: seq<Invocation>, n: nat, p: Provider)
    requires n <= |vs| && RecordOf(job.records, p).attempts <= MAX_ATTEMPTS && forall i :: 0 <= i < n ==> !vs[i].force
    ensures var after := RecordOf(JobAfter(job, vs, n).records, p);
      && after.attempts <= MAX_ATTEMPTS
      && RequestsTo(job, vs, n, p) == after.attempts - RecordOf(job.records, p).attempts + LostTo(job, vs, n, p)
  {
    hide *;
    if n > 0 {
      CascadeAccounted(job, vs, n - 1, p);
      AccountStep(job, vs, n, p);
    } else {
      NoCalls(job, vs, p);
    }
  }

  lemma NoCalls(job: Job, vs: seq<Invocation>, p: Provider)
    ensures JobAfter(job, vs, 0) == job && RequestsTo(job, vs, 0, p) == LostTo(job, vs, 0, p) == 0
  {
  }

  /** One more call. */
  lemma AccountStep(job: Job, vs: seq<Invocation>, n: nat, p: Provider)
    requires 0 < n <= |vs| && !vs[n - 1].force
    requires RecordOf(JobAfter(job, vs, n - 1).records, p).attempts <= MAX_ATTEMPTS
    ensures RecordOf(JobAfter(job, vs, n).records, p).attempts <= MAX_ATTEMPTS
    ensures RecordOf(JobAfter(job, vs, n).records, p).attempts - RecordOf(JobAfter(job, vs, n - 1).records, p).attempts
      == RequestsTo(job, vs, n, p) - RequestsTo(job, vs, n - 1, p) - LostTo(job, vs, n, p) + LostTo(job, vs, n - 1, p)
  {
    OneCallAccounted(JobAfter(job, vs, n - 1), vs[n - 1], p);
    hide Ran;
  }

  lemma OneCallAccounted(before: Job, v: Invocation, p: Provider)
    requires !v.force && RecordOf(before.records, p).attempts <= MAX_ATTEMPTS
    ensures var after, sent := Ran(before, v).0, Ran(before, v).1;
      && RecordOf(after.records, p).attempts <= MAX_ATTEMPTS
      && RecordOf(after.records, p).attempts == RecordOf(before.records, p).attempts + (if p in sent then 1 else 0)
           - (if p in sent && v.answers(p).interrupted then 1 else 0)
  {
    OneRequestEach(before, v, p);
    hide Ran, RunOne, Stepped, Clients;
    var after, sent := Ran(before, v).0, Ran(before, v).1;
    if p in Clients(v.openAlexKey) {
      UnforcedStep(RecordOf(before.records, p), RecordOf(after.records, p), v, p, p in sent);
    }
  }

  /** So a paper's providers are never sent more than four unforced requests each, lost ones aside. */
  lemma FreshJobBudget(vs: seq<Invocation>, p: Provider)
    requires forall i :: 0 <= i < |vs| ==> !vs[i].force
    ensures RequestsTo(Job(map[], JobRunning), vs, |vs|, p)
      <= MAX_ATTEMPTS + LostTo(Job(map[], JobRunning), vs, |vs|, p)
  {
    CascadeAccounted(Job(map[], JobRunning), vs, |vs|, p);
  }
}
