/** Duplicate detection and adjudication, with the other operations that set a paper's status
    (src/transit_scholar/identity/service.py:88-363, 591-746, 754-866). Paper and relation ids are the
    row numbers of their tables; no row is ever removed. */
module Duplicates {
  import opened Prelude
  import opened SoftDelete

  datatype Kind = ExactDuplicate | ProbableDuplicate | PossibleVersion | SupplementOf | Related

  datatype RelationStatus = Pending | Confirmed | Rejected | Ignored

  datatype Relation = Relation(source: nat, target: nat, kind: Kind, confidence: real, status: RelationStatus)

  datatype Tables = Tables(papers: seq<PaperStatus>, relations: seq<Relation>)

  // ------------------------------------------------------------ classification

  datatype Scored = Scored(score: real, confidence: Option<real>, kind: Option<Kind>)

  datatype Thresholds = Thresholds(high: real, probable: real, weak: real)

  function Classify(s: Scored, t: Thresholds): Option<Kind> {
    if s.confidence == Some(1.0) && s.kind == Some(ExactDuplicate) then Some(ExactDuplicate)
    else if s.kind == Some(ProbableDuplicate) then Some(ProbableDuplicate)
    else if s.score >= t.high then Some(ProbableDuplicate)
    else if s.score >= t.probable then Some(PossibleVersion)
    else if s.score >= t.weak then Some(Related)
    else None
  }

  function ConfidenceOf(s: Scored): real { if s.confidence.Some? then s.confidence.value else s.score }

  /** `_pair_key`: the smaller id first. */
  function PairKey(a: nat, b: nat): (nat, nat) { if a <= b then (a, b) else (b, a) }

  predicate Same(r: Relation, key: (nat, nat), kind: Kind) { r.source == key.0 && r.target == key.1 && r.kind == kind }

  function Find(relations: seq<Relation>, key: (nat, nat), kind: Kind, i: nat): Option<nat>
    requires i <= |relations|
    decreases |relations| - i
  {
    if i == |relations| then None else if Same(relations[i], key, kind) then Some(i)
      else Find(relations, key, kind, i + 1)
  }

  // ------------------------------------------------------------ detection

  datatype Scan = Scan(relations: seq<Relation>, created: nat, existing: nat, ids: seq<nat>, touched: set<nat>)

  function Considered(papers: seq<PaperStatus>, p: nat, other: nat): bool
    requires other < |papers|
  {
    other != p && !papers[other].Deleted?
  }

  function ScanOne(scan: Scan, p: nat, other: nat, scored: Scored, t: Thresholds, create: bool): Scan {
    match Classify(scored, t)
    case None => scan
    case Some(kind) =>
      var key := PairKey(p, other);
      match Find(scan.relations, key, kind, 0)
      case Some(id) => scan.(existing := scan.existing + 1, ids := scan.ids + [id])
      case None =>
        if !create then scan
        else Scan(scan.relations + [Relation(key.0, key.1, kind, ConfidenceOf(scored), Pending)],
                  scan.created + 1, scan.existing, scan.ids + [|scan.relations|], scan.touched + {other})
  }

  function ScanAll(papers: seq<PaperStatus>, p: nat, scores: seq<Scored>, t: Thresholds, create: bool, scan: Scan,
      other: nat): Scan
    requires |scores| == |papers| && other <= |papers|
    decreases |papers| - other
  {
    if other == |papers| then scan
    else
      var next := if Considered(papers, p, other) then ScanOne(scan, p, other, scores[other], t, create) else scan;
      ScanAll(papers, p, scores, t, create, next, other + 1)
  }

  function Marked(papers: seq<PaperStatus>, touched: set<nat>): (r: seq<PaperStatus>)
    ensures |r| == |papers|
    ensures forall i :: 0 <= i < |papers| ==>
      r[i] == if i in touched && papers[i].Active? then DuplicatePending else papers[i]
  {
    seq(|papers|, i requires 0 <= i < |papers| => if i in touched && papers[i].Active? then DuplicatePending
      else papers[i])
  }

  datatype Answer = PaperNotFound | PaperDeleted | Completed(created: nat, existing: nat, ids: seq<nat>)

  /** scores holds the score of p against every other paper. */
  function Detected(s: Tables, p: nat, scores: seq<Scored>, t: Thresholds, create: bool): (Tables, Answer)
    requires |scores| == |s.papers|
  {
    if p >= |s.papers| then (s, PaperNotFound)
    else if s.papers[p].Deleted? then (s, PaperDeleted)
    else
      var scan := ScanAll(s.papers, p, scores, t, create, Scan(s.relations, 0, 0, [], {}), 0);
      (Tables(if scan.created > 0 then Marked(s.papers, scan.touched + {p}) else s.papers, scan.relations),
       Completed(scan.created, scan.existing, scan.ids))
  }

  // ------------------------------------------------------------ adjudication

  datatype Decision = SamePaper | DifferentVersion | NotDuplicate | Ignore | Unknown

  function Decide(r: Relation, d: Decision): Relation {
    match d
    case SamePaper => r.(status := Confirmed)
    case DifferentVersion => r.(status := Confirmed, kind := PossibleVersion)
    case NotDuplicate => r.(status := Rejected)
    case Ignore => r.(status := Ignored)
    case Unknown => r
  }

  predicate Involves(r: Relation, p: nat) { r.source == p || r.target == p }

  predicate HasPending(relations: seq<Relation>, p: nat) {
    exists i :: 0 <= i < |relations| && relations[i].status.Pending? && Involves(relations[i], p)
  }

  /** `_converge_endpoint`: a pending paper with nothing pending becomes active. */
  function Converged(papers: seq<PaperStatus>, relations: seq<Relation>, p: nat): seq<PaperStatus> {
    if p < |papers| && papers[p].DuplicatePending? && !HasPending(relations, p) then papers[p := Active] else papers
  }

  /** The unique constraint on (source, target, type). */
  predicate Unique(relations: seq<Relation>) {
    forall i, j :: 0 <= i < j < |relations| ==>
      !Same(relations[i], (relations[j].source, relations[j].target), relations[j].kind)
  }

  datatype Resolution = InvalidDecision | RelationNotFound | ConstraintViolated | Resolved

  function Resolve(s: Tables, id: nat, d: Decision): (Tables, Resolution) {
    if d.Unknown? then (s, InvalidDecision)
    else if id >= |s.relations| then (s, RelationNotFound)
    else
      var relations := s.relations[id := Decide(s.relations[id], d)];
      if !Unique(relations) then (s, ConstraintViolated)
      else
        var papers := Converged(s.papers, relations, s.relations[id].source);
        (Tables(Converged(papers, relations, s.relations[id].target), relations), Resolved)
  }

  class DuplicateService {
    var papers: seq<PaperStatus>
    var relations: seq<Relation>

    ghost function Now(): Tables
      reads this
    {
      Tables(papers, relations)
    }

    static method FindRelation(rows: seq<Relation>, key: (nat, nat), kind: Kind) returns (found: Option<nat>)
      ensures found == Find(rows, key, kind, 0)
    {
      for i := 0 to |rows|
        invariant Find(rows, key, kind, 0) == Find(rows, key, kind, i)
      {
        if Same(rows[i], key, kind) { return Some(i); }
      }
      found := None;
    }

    method Detect(p: nat, scores: seq<Scored>, t: Thresholds, create: bool) returns (answer: Answer)
      requires |scores| == |papers|
      modifies this
      ensures (Now(), answer) == Detected(old(Now()), p, scores, t, create)
    {
      if p >= |papers| { return PaperNotFound; }
      if papers[p].Deleted? { return PaperDeleted; }
      var created: nat, existing: nat, ids: seq<nat>, touched: set<nat> := 0, 0, [], {};
      for other := 0 to |papers|
        invariant papers == old(papers)
        invariant ScanAll(papers, p, scores, t, create, Scan(old(relations), 0, 0, [], {}), 0)
               == ScanAll(papers, p, scores, t, create, Scan(relations, created, existing, ids, touched), other)
      {
        if Considered(papers, p, other) {
          var kind := Classify(scores[other], t);
          if kind.Some? {
            var key := PairKey(p, other);
            var found := FindRelation(relations, key, kind.value);
            if found.Some? {
              existing, ids := existing + 1, ids + [found.value];
            } else if create {
              ids := ids + [|relations|];
              relations := relations + [Relation(key.0, key.1, kind.value, ConfidenceOf(scores[other]), Pending)];
              created, touched := created + 1, touched + {other};
            }
          }
        }
      }
      if created > 0 {
        papers := Marked(papers, touched + {p});
      }
      answer := Completed(created, existing, ids);
    }

    method ConvergeEndpoint(p: nat)
      modifies this`papers
      ensures papers == Converged(old(papers), relations, p)
    {
      if p >= |papers| || !papers[p].DuplicatePending? { return; }
      for i := 0 to |relations|
        invariant forall j :: 0 <= j < i ==> !(relations[j].status.Pending? && Involves(relations[j], p))
      {
        if relations[i].status.Pending? && Involves(relations[i], p) { return; }
      }
      papers := papers[p := Active];
    }

    method ResolveDuplicate(id: nat, d: Decision) returns (answer: Resolution)
      modifies this
      ensures (Now(), answer) == Resolve(old(Now()), id, d)
    {
      if d.Unknown? { return InvalidDecision; }
      if id >= |relations| { return RelationNotFound; }
      var was := relations;
      relations := relations[id := Decide(relations[id], d)];
      if !Unique(relations) {
        relations := was;
        return ConstraintViolated;
      }
      ConvergeEndpoint(was[id].source);
      ConvergeEndpoint(was[id].target);
      answer := Resolved;
    }
  }

  // ------------------------------------------------------------ the other operations on status

  datatype Op =
    | AddPaper
    | Detect(p: nat, scores: seq<Scored>, t: Thresholds, create: bool)
    | Resolution(id: nat, d: Decision)
    | Archive(p: nat)
    | Delete(p: nat)
    | Restore(p: nat)

  predicate Enabled(s: Tables, op: Op) { op.Detect? ==> |op.scores| == |s.papers| }

  function Set(s: Tables, p: nat, status: PaperStatus): Tables {
    if p < |s.papers| then s.(papers := s.papers[p := status]) else s
  }

  function Perform(s: Tables, op: Op): Tables
    requires Enabled(s, op)
  {
    match op
    case AddPaper => s.(papers := s.papers + [Active])
    case Detect(p, scores, t, create) => Detected(s, p, scores, t, create).0
    case Resolution(id, d) => Resolve(s, id, d).0
    case Archive(p) => Set(s, p, Archived)
    case Delete(p) => Set(s, p, Deleted)
    case Restore(p) =>
      if p < |s.papers| && (s.papers[p].Deleted? || s.papers[p].Archived?) then Set(s, p, Active) else s
  }

  // ------------------------------------------------------------ the invariant

  /** Relations are stored once per unordered pair and type, smaller id first. */
  predicate WellKept(relations: seq<Relation>, papers: nat) {
    Unique(relations) && forall i :: 0 <= i < |relations| ==> relations[i].source < relations[i].target < papers
  }

  /** Every paper marked as a possible duplicate has something left to decide. */
  predicate PendingHasReason(s: Tables) {
    forall p :: 0 <= p < |s.papers| && s.papers[p].DuplicatePending? ==> HasPending(s.relations, p)
  }

  predicate Inv(s: Tables) { WellKept(s.relations, |s.papers|) && PendingHasReason(s) }

  lemma {:induction false} FindExact(relations: seq<Relation>, key: (nat, nat), kind: Kind, i: nat)
    requires i <= |relations|
    ensures Find(relations, key, kind, i).None? <==> forall j :: i <= j < |relations| ==> !Same(relations[j], key, kind)
    ensures var found := Find(relations, key, kind, i);
      found.Some? ==> found.value < |relations| && Same(relations[found.value], key, kind)
    decreases |relations| - i
  {
    if i < |relations| { FindExact(relations, key, kind, i + 1); }
  }

  /** What a scan up to some paper promises. */
  ghost predicate ScanGood(start: seq<Relation>, scan: Scan, p: nat, papers: seq<PaperStatus>) {
    && WellKept(scan.relations, |papers|)
    && |scan.relations| == |start| + scan.created && scan.relations[..|start|] == start
    && (forall i :: |start| <= i < |scan.relations| ==>
      scan.relations[i].status.Pending? && Involves(scan.relations[i], p))
    && (forall q :: q in scan.touched ==>
      q < |papers| && q != p && !papers[q].Deleted? && HasPending(scan.relations, q))
    && (scan.created > 0 <==> scan.touched != {})
  }

  lemma AppendPending(relations: seq<Relation>, r: Relation)
    ensures forall q :: HasPending(relations, q) ==> HasPending(relations + [r], q)
    ensures r.status.Pending? ==> HasPending(relations + [r], r.source) && HasPending(relations + [r], r.target)
  {
    forall q | HasPending(relations, q) ensures HasPending(relations + [r], q) {
      var i :| 0 <= i < |relations| && relations[i].status.Pending? && Involves(relations[i], q);
      assert (relations + [r])[i] == relations[i];
    }
    assert (relations + [r])[|relations|] == r;
  }

  lemma AppendUnique(relations: seq<Relation>, r: Relation, papers: nat)
    requires WellKept(relations, papers) && r.source < r.target < papers
    requires forall j :: 0 <= j < |relations| ==> !Same(relations[j], (r.source, r.target), r.kind)
    ensures WellKept(relations + [r], papers)
  {
  }

  lemma ScanOneGood(start: seq<Relation>, scan: Scan, p: nat, other: nat, scored: Scored, t: Thresholds, create: bool,
      papers: seq<PaperStatus>)
    requires ScanGood(start, scan, p, papers) && p < |papers| && other < |papers| && Considered(papers, p, other)
    ensures ScanGood(start, ScanOne(scan, p, other, scored, t, create), p, papers)
  {
    var kind := Classify(scored, t);
    if kind.Some? {
      var key := PairKey(p, other);
      FindExact(scan.relations, key, kind.value, 0);
      if Find(scan.relations, key, kind.value, 0).None? && create {
        var r := Relation(key.0, key.1, kind.value, ConfidenceOf(scored), Pending);
        assert ScanOne(scan, p, other, scored, t, create) ==
          Scan(scan.relations + [r], scan.created + 1, scan.existing, scan.ids + [|scan.relations|],
               scan.touched + {other});
        hide ScanOne, Classify, Find, WellKept, HasPending;
        AppendUnique(scan.relations, r, |papers|);
        AppendPending(scan.relations, r);
      }
    }
  }

  lemma {:induction false} ScanAllGood(start: seq<Relation>, papers: seq<PaperStatus>, p: nat, scores: seq<Scored>,
      t: Thresholds, create: bool, scan: Scan, other: nat)
    requires |scores| == |papers| && other <= |papers| && p < |papers| && ScanGood(start, scan, p, papers)
    ensures ScanGood(start, ScanAll(papers, p, scores, t, create, scan, other), p, papers)
    decreases |papers| - other
  {
    hide ScanGood, ScanOne;
    if other < |papers| {
      if Considered(papers, p, other) {
        ScanOneGood(start, scan, p, other, scores[other], t, create, papers);
        ScanAllGood(start, papers, p, scores, t, create, ScanOne(scan, p, other, scores[other], t, create), other + 1);
      } else {
        ScanAllGood(start, papers, p, scores, t, create, scan, other + 1);
      }
    }
  }

  lemma PendingKept(before: seq<Relation>, after: seq<Relation>, q: nat)
    requires |before| <= |after| && after[..|before|] == before && HasPending(before, q)
    ensures HasPending(after, q)
  {
    var i :| 0 <= i < |before| && before[i].status.Pending? && Involves(before[i], q);
    assert after[i] == after[..|before|][i];
  }

  lemma DetectedScan(s: Tables, p: nat, scores: seq<Scored>, t: Thresholds, create: bool)
    requires Inv(s) && |scores| == |s.papers| && p < |s.papers| && !s.papers[p].Deleted?
    ensures ScanGood(s.relations, ScanAll(s.papers, p, scores, t, create, Scan(s.relations, 0, 0, [], {}), 0), p,
      s.papers)
  {
    ScanAllGood(s.relations, s.papers, p, scores, t, create, Scan(s.relations, 0, 0, [], {}), 0);
  }

  /** Detection keeps the invariant, touches no old relation, and adds only pending relations of the
      paper it was asked about. */
  lemma DetectKeeps(s: Tables, p: nat, scores: seq<Scored>, t: Thresholds, create: bool)
    requires Inv(s) && |scores| == |s.papers|
    ensures var (e, answer) := Detected(s, p, scores, t, create);
      && Inv(e) && |e.papers| == |s.papers|
      && |s.relations| <= |e.relations| && e.relations[..|s.relations|] == s.relations
      && (forall i :: |s.relations| <= i < |e.relations| ==>
        e.relations[i].status.Pending? && Involves(e.relations[i], p))
      && (answer.Completed? ==> |e.relations| == |s.relations| + answer.created)
  {
    if p < |s.papers| && !s.papers[p].Deleted? {
      DetectedScan(s, p, scores, t, create);
      var scan := ScanAll(s.papers, p, scores, t, create, Scan(s.relations, 0, 0, [], {}), 0);
      var e := Detected(s, p, scores, t, create).0;
      hide ScanAll;
      forall q | 0 <= q < |e.papers| && e.papers[q].DuplicatePending? ensures HasPending(e.relations, q) {
        if s.papers[q].DuplicatePending? {
          PendingKept(s.relations, scan.relations, q);
        } else if q == p {
          assert scan.relations[|s.relations|].status.Pending? && Involves(scan.relations[|s.relations|], p);
        }
      }
    }
  }

  lemma ConvergedKeeps(papers: seq<PaperStatus>, relations: seq<Relation>, p: nat, q: nat)
    requires q < |papers| && Converged(papers, relations, p)[q].DuplicatePending?
    ensures papers[q].DuplicatePending? && (q == p ==> HasPending(relations, q))
  {
  }

  /** Adjudication keeps the invariant: only the two endpoints can lose their last reason, and they
      are converged. */
  lemma ResolveKeeps(s: Tables, id: nat, d: Decision)
    requires Inv(s)
    ensures Inv(Resolve(s, id, d).0)
  {
    var (e, answer) := Resolve(s, id, d);
    if answer.Resolved? {
      var r := s.relations[id];
      var mid := Converged(s.papers, e.relations, r.source);
      assert e.papers == Converged(mid, e.relations, r.target);
      hide Unique, HasPending, Converged;
      forall q | 0 <= q < |e.papers| && e.papers[q].DuplicatePending? ensures HasPending(e.relations, q) {
        ConvergedSize(s.papers, e.relations, r.source);
        ConvergedSize(mid, e.relations, r.target);
        ConvergedKeeps(mid, e.relations, r.target, q);
        ConvergedKeeps(s.papers, e.relations, r.source, q);
        if q != r.source && q != r.target { OthersKeepReasons(s, id, d, q); }
      }
      ConvergedSize(s.papers, e.relations, r.source);
      ConvergedSize(mid, e.relations, r.target);
    }
  }

  /** A known decision on a stored relation fails exactly when it would turn the relation into a second
      possible_version of its pair; then nothing changes. */
  lemma ResolveFailsExactly(s: Tables, id: nat, d: Decision)
    requires Inv(s) && id < |s.relations| && !d.Unknown?
    ensures var r := s.relations[id];
      Resolve(s, id, d).1.ConstraintViolated? <==>
        d.DifferentVersion? && exists j ::
          0 <= j < |s.relations| && j != id && Same(s.relations[j], (r.source, r.target), PossibleVersion)
    ensures Resolve(s, id, d).1.ConstraintViolated? ==> Resolve(s, id, d).0 == s
  {
    var r := s.relations[id];
    var after := s.relations[id := Decide(r, d)];
    if d.DifferentVersion? {
      if j :| 0 <= j < |s.relations| && j != id && Same(s.relations[j], (r.source, r.target), PossibleVersion) {
        assert after[j] == s.relations[j];
        assert Same(after[Min(id, j)], (after[Max(id, j)].source, after[Max(id, j)].target), after[Max(id, j)].kind);
      }
    }
  }

  /** Adjudication changes no paper's status but an endpoint that has nothing left to decide. */
  lemma ResolveConverges(s: Tables, id: nat, d: Decision, q: nat)
    requires Inv(s) && q < |s.papers| && Resolve(s, id, d).1.Resolved?
    ensures var e := Resolve(s, id, d).0;
      && |e.papers| == |s.papers|
      && e.papers[q] ==
        if s.papers[q].DuplicatePending? && Involves(s.relations[id], q) && !HasPending(e.relations, q) then Active
        else s.papers[q]
  {
    hide HasPending, Unique;
  }

  lemma ConvergedSize(papers: seq<PaperStatus>, relations: seq<Relation>, p: nat)
    ensures |Converged(papers, relations, p)| == |papers|
  {
  }

  lemma OthersKeepReasons(s: Tables, id: nat, d: Decision, q: nat)
    requires id < |s.relations| && !Involves(s.relations[id], q) && HasPending(s.relations, q)
    ensures HasPending(s.relations[id := Decide(s.relations[id], d)], q)
  {
    var i :| 0 <= i < |s.relations| && s.relations[i].status.Pending? && Involves(s.relations[i], q);
    assert s.relations[id := Decide(s.relations[id], d)][i] == s.relations[i];
  }

  lemma SetKeeps(s: Tables, p: nat, status: PaperStatus)
    requires Inv(s) && !status.DuplicatePending?
    ensures Inv(Set(s, p, status))
  {
  }

  lemma AddKeeps(s: Tables)
    requires Inv(s)
    ensures Inv(s.(papers := s.papers + [Active]))
  {
  }

  lemma EveryOpKeeps(s: Tables, op: Op)
    requires Inv(s) && Enabled(s, op)
    ensures Inv(Perform(s, op))
  {
    hide Inv, Set, Resolve, Detected;
    match op
    case AddPaper => AddKeeps(s);
    case Detect(p, scores, t, create) => DetectKeeps(s, p, scores, t, create);
    case Resolution(id, d) => ResolveKeeps(s, id, d);
    case Archive(p) => SetKeeps(s, p, Archived);
    case Delete(p) => SetKeeps(s, p, Deleted);
    case Restore(p) => SetKeeps(s, p, Active);
  }

  predicate Next(s: Tables, op: Op, n: Tables) { Enabled(s, op) && n == Perform(s, op) }

  predicate IsHistory(states: seq<Tables>, ops: seq<Op>) {
    && |states| == |ops| + 1 && states[0] == Tables([], [])
    && forall i :: 0 <= i < |ops| ==> Next(states[i], ops[i], states[i + 1])
  }

  /** Main result: in every state any history reaches, a paper marked duplicate_pending has a pending
      relation, and no unordered pair has two relations of one type. */
  lemma {:induction false} HistoryInv(states: seq<Tables>, ops: seq<Op>, i: nat)
    requires IsHistory(states, ops) && i <= |ops|
    ensures Inv(states[i])
  {
    hide Inv, Perform;
    if i == 0 {
      EmptyInv();
    } else {
      HistoryInv(states, ops, i - 1);
      assert Next(states[i - 1], ops[i - 1], states[i - 1 + 1]);
      EveryOpKeeps(states[i - 1], ops[i - 1]);
    }
  }

  lemma EmptyInv()
    ensures Inv(Tables([], []))
  {
  }

  // ------------------------------------------------------------ detection is complete and idempotent

  /** The unordered pair has a relation of this type. */
  predicate Recorded(relations: seq<Relation>, p: nat, q: nat, kind: Kind) {
    exists i :: 0 <= i < |relations| && Same(relations[i], PairKey(p, q), kind)
  }

  lemma RecordedAppend(relations: seq<Relation>, r: Relation, p: nat, q: nat, kind: Kind)
    ensures Recorded(relations + [r], p, q, kind) <==> Recorded(relations, p, q, kind) || Same(r, PairKey(p, q), kind)
  {
    if Recorded(relations, p, q, kind) {
      var i :| 0 <= i < |relations| && Same(relations[i], PairKey(p, q), kind);
      assert (relations + [r])[i] == relations[i];
    }
    assert (relations + [r])[|relations|] == r;
  }

  lemma ScanOneExact(scan: Scan, p: nat, other: nat, scored: Scored, t: Thresholds, create: bool, q: nat, kind: Kind)
    requires p != other
    ensures var after := ScanOne(scan, p, other, scored, t, create);
      Recorded(after.relations, p, q, kind) <==>
      (Recorded(scan.relations, p, q, kind) || (create && q == other && Classify(scored, t) == Some(kind)))
    ensures ScanOne(scan, p, other, scored, t, create).created > scan.created ==>
      Classify(scored, t).Some? && !Recorded(scan.relations, p, other, Classify(scored, t).value)
    ensures ScanOne(scan, p, other, scored, t, create).created == scan.created ==>
      ScanOne(scan, p, other, scored, t, create).relations == scan.relations
  {
    hide Recorded;
    var found := Classify(scored, t);
    if found.Some? {
      var key := PairKey(p, other);
      FindRecorded(scan.relations, p, other, found.value);
      RecordedAppend(scan.relations, Relation(key.0, key.1, found.value, ConfidenceOf(scored), Pending), p, q, kind);
    }
  }

  lemma FindRecorded(relations: seq<Relation>, p: nat, other: nat, kind: Kind)
    ensures Find(relations, PairKey(p, other), kind, 0).Some? <==> Recorded(relations, p, other, kind)
  {
    FindExact(relations, PairKey(p, other), kind, 0);
  }

  lemma {:induction false} ScanAllExact(papers: seq<PaperStatus>, p: nat, scores: seq<Scored>, t: Thresholds,
                                              create: bool, scan: Scan, other: nat, q: nat, kind: Kind)
    requires |scores| == |papers| && other <= |papers|
    ensures var after := ScanAll(papers, p, scores, t, create, scan, other);
      Recorded(after.relations, p, q, kind) <==>
        Recorded(scan.relations, p, q, kind)
          || (create && other <= q < |papers| && Considered(papers, p, q) && Classify(scores[q], t) == Some(kind))
    decreases |papers| - other
  {
    hide Recorded, ScanOne, Classify;
    if other < |papers| {
      if Considered(papers, p, other) {
        ScanOneExact(scan, p, other, scores[other], t, create, q, kind);
        var next := ScanOne(scan, p, other, scores[other], t, create);
        ScanAllExact(papers, p, scores, t, create, next, other + 1, q, kind);
      } else {
        ScanAllExact(papers, p, scores, t, create, scan, other + 1, q, kind);
      }
    }
  }

  /** The score pins this type: an exact match with full confidence, a match already called probable or a
      high score, and below that the two weaker bands. */
  predicate ScoresAs(x: Scored, t: Thresholds, kind: Kind) {
    var exact := x.kind == Some(ExactDuplicate) && x.confidence == Some(1.0);
    match kind
    case ExactDuplicate => exact
    case ProbableDuplicate => !exact && (x.kind == Some(ProbableDuplicate) || t.high <= x.score)
    case PossibleVersion => !exact && x.kind != Some(ProbableDuplicate) && t.probable <= x.score < t.high
    case Related =>
      !exact && x.kind != Some(ProbableDuplicate) && t.weak <= x.score && x.score < t.probable && x.score < t.high
    case SupplementOf => false
  }

  lemma ClassifyExactly(x: Scored, t: Thresholds, kind: Kind)
    ensures Classify(x, t) == Some(kind) <==> ScoresAs(x, t, kind)
  {
  }

  /** Main result: after a detection the pair {p, q} has a relation of a type exactly when it had one
      before or its score classifies as that type now. */
  lemma DetectExact(s: Tables, p: nat, scores: seq<Scored>, t: Thresholds, q: nat, kind: Kind)
    requires |scores| == |s.papers| && p < |s.papers| && !s.papers[p].Deleted?
    ensures var e := Detected(s, p, scores, t, true).0;
      Recorded(e.relations, p, q, kind) <==>
        Recorded(s.relations, p, q, kind)
          || (q < |s.papers| && q != p && !s.papers[q].Deleted? && ScoresAs(scores[q], t, kind))
  {
    if q < |s.papers| { ClassifyExactly(scores[q], t, kind); }
    hide Classify;
    ScanAllExact(s.papers, p, scores, t, true, Scan(s.relations, 0, 0, [], {}), 0, q, kind);
  }

  predicate AllRecorded(papers: seq<PaperStatus>, relations: seq<Relation>, p: nat, scores: seq<Scored>, t: Thresholds)
    requires |scores| == |papers|
  {
    forall q :: 0 <= q < |papers| && Considered(papers, p, q) && Classify(scores[q], t).Some? ==>
      Recorded(relations, p, q, Classify(scores[q], t).value)
  }

  lemma {:induction false} NothingToCreate(papers: seq<PaperStatus>, p: nat, scores: seq<Scored>, t: Thresholds,
      create: bool, scan: Scan, other: nat)
    requires |scores| == |papers| && other <= |papers| && AllRecorded(papers, scan.relations, p, scores, t)
    ensures var after := ScanAll(papers, p, scores, t, create, scan, other);
      after.relations == scan.relations && after.created == scan.created
    decreases |papers| - other
  {
    hide ScanOne, Recorded, Classify;
    if other < |papers| {
      if Considered(papers, p, other) {
        var kind := if Classify(scores[other], t).Some? then Classify(scores[other], t).value else Related;
        ScanOneExact(scan, p, other, scores[other], t, create, other, kind);
        ScanOneGrows(scan, p, other, scores[other], t, create);
        NothingToCreate(papers, p, scores, t, create, ScanOne(scan, p, other, scores[other], t, create), other + 1);
      } else {
        NothingToCreate(papers, p, scores, t, create, scan, other + 1);
      }
    }
  }

  lemma ScanOneGrows(scan: Scan, p: nat, other: nat, scored: Scored, t: Thresholds, create: bool)
    ensures ScanOne(scan, p, other, scored, t, create).created >= scan.created
  {
  }

  /** Detecting again changes nothing. */
  lemma DetectTwice(s: Tables, p: nat, scores: seq<Scored>, t: Thresholds)
    requires |scores| == |s.papers|
    ensures var e := Detected(s, p, scores, t, true).0;
      |e.papers| == |s.papers| && Detected(e, p, scores, t, true).0 == e
  {
    if p < |s.papers| && !s.papers[p].Deleted? {
      var e := Detected(s, p, scores, t, true).0;
      forall q | 0 <= q < |e.papers| && Considered(e.papers, p, q) && Classify(scores[q], t).Some?
        ensures Recorded(e.relations, p, q, Classify(scores[q], t).value)
      {
        ClassifyExactly(scores[q], t, Classify(scores[q], t).value);
        DetectExact(s, p, scores, t, q, Classify(scores[q], t).value);
      }
      NothingToCreate(e.papers, p, scores, t, true, Scan(e.relations, 0, 0, [], {}), 0);
    }
  }

  /** Main result: detecting from the other end, whose score is the same, adds nothing for the pair. */
  lemma DetectFromOtherEnd(s: Tables, p: nat, scores: seq<Scored>, q: nat, back: seq<Scored>, t: Thresholds, i: nat)
    requires Inv(s) && |scores| == |s.papers| == |back| && p < |s.papers| && q < |s.papers|
    requires !s.papers[p].Deleted? && Considered(s.papers, p, q) && back[p] == scores[q]
    ensures var e := Detected(s, p, scores, t, true).0;
      var n := Detected(e, q, back, t, true).0;
      |e.relations| <= i < |n.relations| ==> (n.relations[i].source, n.relations[i].target) != PairKey(p, q)
  {
    var e := Detected(s, p, scores, t, true).0;
    DetectKeeps(s, p, scores, t, true);
    var n := Detected(e, q, back, t, true).0;
    DetectKeeps(e, q, back, t, true);
    if |e.relations| <= i < |n.relations| {
      var kind := n.relations[i].kind;
      assert PairKey(p, q) == PairKey(q, p);
      DetectExact(e, q, back, t, p, kind);
      DetectExact(s, p, scores, t, q, kind);
      RecordedStaysAlone(e.relations, n.relations, i, p, q, kind);
      assert Same(n.relations[i], PairKey(p, q), kind) ==> Recorded(n.relations, p, q, kind);
    }
  }

  lemma RecordedStaysAlone(before: seq<Relation>, after: seq<Relation>, i: nat, p: nat, q: nat, kind: Kind)
    requires Unique(after) && |before| <= i < |after| && after[..|before|] == before
    ensures Recorded(before, p, q, kind) ==> !Same(after[i], PairKey(p, q), kind)
  {
    if Recorded(before, p, q, kind) {
      var j :| 0 <= j < |before| && Same(before[j], PairKey(p, q), kind);
      assert after[j] == after[..|before|][j];
    }
  }

  // ------------------------------------------------------------ what adjudication answers

  /** Main result: what a decision answers and makes of its relation. */
  lemma ResolveReports(s: Tables, id: nat, d: Decision)
    ensures var (e, answer) := Resolve(s, id, d);
      && (answer.InvalidDecision? <==> d.Unknown?)
      && (answer.RelationNotFound? <==> !d.Unknown? && id >= |s.relations|)
      && (!answer.Resolved? ==> e == s)
      && (answer.Resolved? ==>
          && |e.relations| == |s.relations|
          && (forall j :: 0 <= j < |s.relations| && j != id ==> e.relations[j] == s.relations[j])
          && var x, y := s.relations[id], e.relations[id];
             && y.source == x.source && y.target == x.target && y.confidence == x.confidence
             && y.kind == (if d.DifferentVersion? then PossibleVersion else x.kind)
             && (y.status.Confirmed? <==> d.SamePaper? || d.DifferentVersion?)
             && (y.status.Rejected? <==> d.NotDuplicate?) && (y.status.Ignored? <==> d.Ignore?))
  {
  }

  // ------------------------------------------------------------ the converse of the invariant

  /** No active paper has anything left to decide. */
  predicate NoActivePending(s: Tables) {
    forall q :: 0 <= q < |s.papers| && s.papers[q].Active? ==> !HasPending(s.relations, q)
  }

  /** A restore of a paper that still has something to decide. */
  predicate RestoresPending(s: Tables, op: Op) {
    && op.Restore? && op.p < |s.papers| && (s.papers[op.p].Deleted? || s.papers[op.p].Archived?)
    && HasPending(s.relations, op.p)
  }

  /** Every relation the scan added lies between p and a paper it touched. */
  ghost predicate AddedTouched(start: seq<Relation>, scan: Scan, p: nat) {
    && |start| <= |scan.relations| && scan.relations[..|start|] == start
    && (|scan.relations| > |start| <==> scan.created > 0)
    && forall i, q :: |start| <= i < |scan.relations| && Involves(scan.relations[i], q) ==> q == p || q in scan.touched
  }

  lemma {:induction false} ScanAllTouches(
      start: seq<Relation>, papers: seq<PaperStatus>, p: nat, scores: seq<Scored>, t: Thresholds, create: bool,
      scan: Scan, other: nat)
    requires |scores| == |papers| && other <= |papers| && AddedTouched(start, scan, p)
    ensures AddedTouched(start, ScanAll(papers, p, scores, t, create, scan, other), p)
    decreases |papers| - other
  {
    hide AddedTouched, ScanOne, Classify;
    if other < |papers| {
      if Considered(papers, p, other) {
        ScanOneTouches(start, scan, p, other, scores[other], t, create);
        var next := ScanOne(scan, p, other, scores[other], t, create);
        ScanAllTouches(start, papers, p, scores, t, create, next, other + 1);
      } else {
        ScanAllTouches(start, papers, p, scores, t, create, scan, other + 1);
      }
    }
  }

  lemma ScanOneTouches(start: seq<Relation>, scan: Scan, p: nat, other: nat, scored: Scored, t: Thresholds,
      create: bool)
    requires AddedTouched(start, scan, p)
    ensures AddedTouched(start, ScanOne(scan, p, other, scored, t, create), p)
  {
    hide Classify, Find;
  }

  lemma AddPendingExact(s: Tables)
    requires Inv(s) && NoActivePending(s)
    ensures NoActivePending(s.(papers := s.papers + [Active]))
  {
  }

  lemma DetectConverse(s: Tables, p: nat, scores: seq<Scored>, t: Thresholds, create: bool)
    requires Inv(s) && NoActivePending(s) && |scores| == |s.papers|
    ensures NoActivePending(Detected(s, p, scores, t, create).0)
  {
    if p < |s.papers| && !s.papers[p].Deleted? {
      var start := Scan(s.relations, 0, 0, [], {});
      ScanAllTouches(s.relations, s.papers, p, scores, t, create, start, 0);
      var scan := ScanAll(s.papers, p, scores, t, create, start, 0);
      var e := Detected(s, p, scores, t, create).0;
      hide ScanAll, Inv;
      forall i | 0 <= i < |s.relations| ensures e.relations[i] == s.relations[i] {
        assert e.relations[i] == e.relations[..|s.relations|][i];
      }
      forall q | 0 <= q < |e.papers| && e.papers[q].Active? ensures !HasPending(e.relations, q) {}
    }
  }

  lemma DecidedNotPending(s: Tables, id: nat, d: Decision, q: nat)
    requires id < |s.relations| && !d.Unknown? && !HasPending(s.relations, q)
    ensures !HasPending(s.relations[id := Decide(s.relations[id], d)], q)
  {
    var after := s.relations[id := Decide(s.relations[id], d)];
    if i :| 0 <= i < |after| && after[i].status.Pending? && Involves(after[i], q) {
      assert s.relations[i].status.Pending? && Involves(s.relations[i], q);
    }
  }

  lemma ResolveConverse(s: Tables, id: nat, d: Decision)
    requires Inv(s) && NoActivePending(s)
    ensures NoActivePending(Resolve(s, id, d).0)
  {
    var (e, answer) := Resolve(s, id, d);
    if answer.Resolved? {
      assert e.relations == s.relations[id := Decide(s.relations[id], d)];
      assert |e.papers| == |s.papers| by { ConvergedTwice(s, e.relations, id); }
      forall q | 0 <= q < |e.papers| && e.papers[q].Active? ensures !HasPending(e.relations, q) {
        ResolveConverges(s, id, d, q);
        if s.papers[q].Active? { DecidedNotPending(s, id, d, q); }
      }
    }
  }

  lemma ConvergedTwice(s: Tables, relations: seq<Relation>, id: nat)
    requires id < |s.relations|
    ensures var mid := Converged(s.papers, relations, s.relations[id].source);
      |Converged(mid, relations, s.relations[id].target)| == |s.papers|
  {
    ConvergedSize(s.papers, relations, s.relations[id].source);
    ConvergedSize(Converged(s.papers, relations, s.relations[id].source), relations, s.relations[id].target);
  }

  lemma SetConverse(s: Tables, p: nat, status: PaperStatus)
    requires NoActivePending(s) && p < |s.papers|
    ensures NoActivePending(Set(s, p, status)) <==> !status.Active? || !HasPending(s.relations, p)
  {
    hide HasPending;
    var e := Set(s, p, status);
    assert e.papers[p] == status;
  }

  /** Main result: the converse of the invariant, that no active paper has a pending relation, survives
      an operation exactly when it is not the restore of a paper with a pending relation. */
  lemma ConverseExact(s: Tables, op: Op)
    requires Inv(s) && NoActivePending(s) && Enabled(s, op)
    ensures NoActivePending(Perform(s, op)) <==> !RestoresPending(s, op)
  {
    match op
    case AddPaper => AddPendingExact(s);
    case Detect(p, scores, t, create) => DetectConverse(s, p, scores, t, create);
    case Resolution(id, d) => ResolveConverse(s, id, d);
    case _ =>
      hide HasPending, Inv, NoActivePending;
      if op.p < |s.papers| {
        SetConverse(s, op.p, match op case Archive(_) => Archived case Delete(_) => Deleted case _ => Active);
      }
  }

  /** Main result: along a history no active paper ever has a pending relation exactly when no paper
      was restored while it had one. */
  lemma {:induction false} HistoryConverse(states: seq<Tables>, ops: seq<Op>, n: nat)
    requires IsHistory(states, ops) && n <= |ops|
    ensures (forall i :: 0 <= i <= n ==> NoActivePending(states[i])) <==>
      (forall j :: 0 <= j < n ==> !RestoresPending(states[j], ops[j]))
  {
    hide Inv, NoActivePending, RestoresPending, Perform;
    if n == 0 {
      assert NoActivePending(states[0]) by { NothingPending(); }
    } else {
      HistoryConverse(states, ops, n - 1);
      HistoryInv(states, ops, n - 1);
      assert Next(states[n - 1], ops[n - 1], states[n - 1 + 1]);
      if NoActivePending(states[n - 1]) { ConverseExact(states[n - 1], ops[n - 1]); }
    }
  }

  lemma NothingPending()
    ensures NoActivePending(Tables([], []))
  {
  }

  /** Such a history exists: a paper restored from the archive is active although a relation is still
      pending, and detecting again does not mark it, since nothing new is created. */
  lemma RestoredForgetsPending()
    ensures var s := Tables([Active, Active], []);
      var scores := [Scored(1.0, Some(1.0), Some(ExactDuplicate)), Scored(1.0, Some(1.0), Some(ExactDuplicate))];
      var t := Thresholds(0.9, 0.8, 0.7);
      var found := Perform(s, Detect(0, scores, t, true));
      var back := Perform(Perform(found, Archive(0)), Op.Restore(0));
      && found.papers == [DuplicatePending, DuplicatePending]
      && back.papers[0].Active? && HasPending(back.relations, 0)
      && Perform(back, Detect(0, scores, t, true)) == back
  {
    var s := Tables([Active, Active], []);
    var exact := Scored(1.0, Some(1.0), Some(ExactDuplicate));
    var scores, t := [exact, exact], Thresholds(0.9, 0.8, 0.7);
    var r := Relation(0, 1, ExactDuplicate, 1.0, Pending);
    var start := Scan([], 0, 0, [], {});
    var scan := ScanOne(start, 0, 1, exact, t, true);
    assert scan.relations == [] + [r] == [r];
    assert ScanAll(s.papers, 0, scores, t, true, start, 0) == ScanAll(s.papers, 0, scores, t, true, start, 1) == scan;
    var found := Detected(s, 0, scores, t, true).0;
    assert found.papers == [DuplicatePending, DuplicatePending];
    var back := Perform(Perform(found, Archive(0)), Op.Restore(0));
    assert Involves(back.relations[0], 0);
    assert Same(r, PairKey(0, 1), ExactDuplicate);
    assert AllRecorded(back.papers, back.relations, 0, scores, t) by {
      assert Recorded(back.relations, 0, 1, ExactDuplicate);
    }
    NothingToCreate(back.papers, 0, scores, t, true, Scan(back.relations, 0, 0, [], {}), 0);
  }
}
