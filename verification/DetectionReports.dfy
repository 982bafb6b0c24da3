/** What detection answers, and which relations and marks it makes
    (src/transit_scholar/identity/service.py:98-208). */
module DetectionReports {
  import opened Prelude
  import opened SoftDelete
  import opened Duplicates

  /** The relation links the two papers, the smaller id first. */
  predicate Links(r: Relation, p: nat, q: nat) {
    r.source <= r.target && (r.source == p || r.target == p) && r.source + r.target == p + q
  }

  /** ids are, in the order of the other papers, the relations found or made for them. */
  ghost predicate Reports(relations: seq<Relation>, ids: seq<nat>, others: seq<nat>, p: nat, scores: seq<Scored>,
      t: Thresholds)
  {
    && |ids| == |others| && (forall k, l :: 0 <= k < l < |others| ==> others[k] < others[l])
    && forall k :: 0 <= k < |ids| ==> ReportsOne(relations, ids[k], others[k], p, scores, t)
  }

  ghost predicate ReportsOne(relations: seq<Relation>, id: nat, q: nat, p: nat, scores: seq<Scored>, t: Thresholds) {
    id < |relations| && q < |scores| && Links(relations[id], p, q) && ScoresAs(scores[q], t, relations[id].kind)
  }

  /** Detection has to report paper q: its score pins a type, and the pair has such a relation or may get one. */
  ghost predicate Due(start: seq<Relation>, papers: seq<PaperStatus>, p: nat, scores: seq<Scored>, t: Thresholds,
      create: bool, q: nat)
    requires |scores| == |papers|
  {
    q < |papers| && q != p && !papers[q].Deleted?
    && exists kind :: ScoresAs(scores[q], t, kind) && (create || Recorded(start, p, q, kind))
  }

  /** others are the papers below n that are due. */
  ghost predicate AllDue(start: seq<Relation>, papers: seq<PaperStatus>, p: nat, scores: seq<Scored>, t: Thresholds,
      create: bool, others: seq<nat>, n: nat)
    requires |scores| == |papers|
  {
    forall q: nat :: q in others <==> q < n && Due(start, papers, p, scores, t, create, q)
  }

  /** A relation made for q in this detection. */
  ghost predicate MadeFor(r: Relation, p: nat, q: nat, scores: seq<Scored>, t: Thresholds) {
    && q < |scores| && q != p && Links(r, p, q) && ScoresAs(scores[q], t, r.kind) && r.status.Pending?
    && r.confidence == (match scores[q].confidence case Some(x) => x case None => scores[q].score)
  }

  ghost predicate MadeForSome(r: Relation, p: nat, scores: seq<Scored>, t: Thresholds) {
    exists q :: MadeFor(r, p, q, scores, t)
  }

  /** The relation made for some touched paper below n. */
  ghost predicate Made(r: Relation, p: nat, scores: seq<Scored>, t: Thresholds, touched: set<nat>, n: nat) {
    exists q :: q in touched && q < n && MadeFor(r, p, q, scores, t)
  }

  ghost predicate LinkedSince(relations: seq<Relation>, from: nat, p: nat, q: nat) {
    exists i :: from <= i < |relations| && Links(relations[i], p, q)
  }

  ghost predicate MadeSoFar(start: seq<Relation>, p: nat, scores: seq<Scored>, t: Thresholds, scan: Scan, n: nat) {
    && |scan.ids| == scan.created + scan.existing
    && |scan.relations| == |start| + scan.created && start <= scan.relations
    && (forall i :: |start| <= i < |scan.relations| ==> Made(scan.relations[i], p, scores, t, scan.touched, n))
    && (forall q :: q in scan.touched ==> q != p && LinkedSince(scan.relations, |start|, p, q))
  }

  // ------------------------------------------------------------ one more paper

  lemma LinksExactly(r: Relation, p: nat, q: nat)
    ensures Links(r, p, q) <==> (r.source, r.target) == PairKey(p, q)
  {
  }

  lemma PassDue(start: seq<Relation>, papers: seq<PaperStatus>, p: nat, scores: seq<Scored>, t: Thresholds,
      create: bool, others: seq<nat>, n: nat)
    requires |scores| == |papers| && AllDue(start, papers, p, scores, t, create, others, n)
    ensures var more := if Due(start, papers, p, scores, t, create, n) then others + [n] else others;
      AllDue(start, papers, p, scores, t, create, more, n + 1)
  {
    assert forall q: nat :: q in others <==> q < n && Due(start, papers, p, scores, t, create, q);
    hide Due;
  }

  lemma MadeMore(r: Relation, p: nat, scores: seq<Scored>, t: Thresholds, touched: set<nat>, n: nat, more: set<nat>)
    requires Made(r, p, scores, t, touched, n) && touched <= more
    ensures Made(r, p, scores, t, more, n + 1)
  {
    var q :| q in touched && q < n && MadeFor(r, p, q, scores, t);
    assert q in more;
  }

  lemma LinkedMore(relations: seq<Relation>, from: nat, p: nat, q: nat, more: seq<Relation>)
    requires LinkedSince(relations, from, p, q) && relations <= more
    ensures LinkedSince(more, from, p, q)
  {
    var i :| from <= i < |relations| && Links(relations[i], p, q);
    assert more[i] == relations[i];
  }

  lemma PassMade(start: seq<Relation>, p: nat, scores: seq<Scored>, t: Thresholds, scan: Scan, n: nat)
    requires MadeSoFar(start, p, scores, t, scan, n)
    ensures MadeSoFar(start, p, scores, t, scan, n + 1)
  {
    forall i | |start| <= i < |scan.relations| ensures Made(scan.relations[i], p, scores, t, scan.touched, n + 1) {
      MadeMore(scan.relations[i], p, scores, t, scan.touched, n, scan.touched);
    }
  }

  lemma FoundMade(start: seq<Relation>, p: nat, scores: seq<Scored>, t: Thresholds, scan: Scan, n: nat, id: nat)
    requires MadeSoFar(start, p, scores, t, scan, n)
    ensures MadeSoFar(start, p, scores, t, scan.(existing := scan.existing + 1, ids := scan.ids + [id]), n + 1)
  {
    PassMade(start, p, scores, t, scan, n);
    hide Made, LinkedSince;
  }

  lemma NewMade(start: seq<Relation>, p: nat, scores: seq<Scored>, t: Thresholds, scan: Scan, n: nat, r: Relation)
    requires MadeSoFar(start, p, scores, t, scan, n) && MadeFor(r, p, n, scores, t)
    ensures var next := Scan(scan.relations + [r], scan.created + 1, scan.existing, scan.ids + [|scan.relations|],
                             scan.touched + {n});
      MadeSoFar(start, p, scores, t, next, n + 1)
  {
    var all, touched := scan.relations + [r], scan.touched + {n};
    forall i | |start| <= i < |all| ensures Made(all[i], p, scores, t, touched, n + 1) {
      if i < |scan.relations| {
        MadeMore(scan.relations[i], p, scores, t, scan.touched, n, touched);
      } else {
        assert n in touched;
      }
    }
    forall q | q in touched ensures q != p && LinkedSince(all, |start|, p, q) {
      if q in scan.touched {
        LinkedMore(scan.relations, |start|, p, q, all);
      } else {
        assert all[|scan.relations|] == r && Links(r, p, q);
      }
    }
  }

  lemma ReportsMore(relations: seq<Relation>, more: seq<Relation>, ids: seq<nat>, others: seq<nat>, p: nat,
      scores: seq<Scored>, t: Thresholds, id: nat, q: nat)
    requires Reports(relations, ids, others, p, scores, t) && relations <= more
    requires (forall x <- others :: x < q) && ReportsOne(more, id, q, p, scores, t)
    ensures Reports(more, ids + [id], others + [q], p, scores, t)
  {
    var ns, os := ids + [id], others + [q];
    forall k | 0 <= k < |ns| ensures ReportsOne(more, ns[k], os[k], p, scores, t) {
      if k < |ids| { assert ReportsOne(relations, ids[k], others[k], p, scores, t); }
    }
    forall k, l | 0 <= k < l < |os| ensures os[k] < os[l] {
      if l == |others| { assert others[k] in others; }
    }
  }

  /** A relation of the pair found by the scan was there before it began. */
  lemma FoundBefore(start: seq<Relation>, p: nat, scores: seq<Scored>, t: Thresholds, scan: Scan, n: nat, kind: Kind)
    requires n != p && MadeSoFar(start, p, scores, t, scan, n)
    ensures Recorded(scan.relations, p, n, kind) <==> Recorded(start, p, n, kind)
  {
    forall i | |start| <= i < |scan.relations| ensures !Same(scan.relations[i], PairKey(p, n), kind) {
      var q :| q in scan.touched && q < n && MadeFor(scan.relations[i], p, q, scores, t);
      LinksExactly(scan.relations[i], p, q);
    }
    if Recorded(start, p, n, kind) {
      var i :| 0 <= i < |start| && Same(start[i], PairKey(p, n), kind);
      assert start[i] == scan.relations[i];
    }
    if Recorded(scan.relations, p, n, kind) {
      var i :| 0 <= i < |scan.relations| && Same(scan.relations[i], PairKey(p, n), kind);
      assert start[i] == scan.relations[i];
    }
  }

  ghost predicate ScanReport(start: seq<Relation>, papers: seq<PaperStatus>, p: nat, scores: seq<Scored>,
      t: Thresholds, create: bool, scan: Scan, others: seq<nat>, n: nat)
    requires |scores| == |papers|
  {
    && Reports(scan.relations, scan.ids, others, p, scores, t)
    && AllDue(start, papers, p, scores, t, create, others, n)
    && MadeSoFar(start, p, scores, t, scan, n)
  }

  lemma Below(start: seq<Relation>, papers: seq<PaperStatus>, p: nat, scores: seq<Scored>, t: Thresholds,
      create: bool, others: seq<nat>, n: nat)
    requires |scores| == |papers| && AllDue(start, papers, p, scores, t, create, others, n)
    ensures forall x <- others :: x < n
  {
    hide Due;
  }

  /** What classification and lookup say about paper n. */
  lemma DueExactly(start: seq<Relation>, papers: seq<PaperStatus>, p: nat, scores: seq<Scored>, t: Thresholds,
      create: bool, scan: Scan, n: nat)
    requires |scores| == |papers| && n < |papers| && n != p && !papers[n].Deleted?
    requires MadeSoFar(start, p, scores, t, scan, n)
    ensures var kind := Classify(scores[n], t);
      Due(start, papers, p, scores, t, create, n) <==>
        kind.Some? && (create || Find(scan.relations, PairKey(p, n), kind.value, 0).Some?)
  {
    var found := Classify(scores[n], t);
    forall kind ensures found == Some(kind) <==> ScoresAs(scores[n], t, kind) { ClassifyExactly(scores[n], t, kind); }
    hide Classify, ScoresAs, MadeSoFar, Recorded, Find;
    if found.Some? {
      FoundBefore(start, p, scores, t, scan, n, found.value);
      FindRecorded(scan.relations, p, n, found.value);
    }
  }

  lemma FoundOne(scan: Scan, p: nat, scores: seq<Scored>, t: Thresholds, n: nat, kind: Kind)
    requires n < |scores| && Classify(scores[n], t) == Some(kind)
    ensures var at := Find(scan.relations, PairKey(p, n), kind, 0);
      at.Some? ==> ReportsOne(scan.relations, at.value, n, p, scores, t)
  {
    ClassifyExactly(scores[n], t, kind);
    FindExact(scan.relations, PairKey(p, n), kind, 0);
    hide Classify, Find, ScoresAs;
  }

  lemma NewOne(scan: Scan, p: nat, scores: seq<Scored>, t: Thresholds, n: nat, kind: Kind)
    requires n < |scores| && n != p && Classify(scores[n], t) == Some(kind)
    ensures var r := Relation(PairKey(p, n).0, PairKey(p, n).1, kind, ConfidenceOf(scores[n]), Pending);
      MadeFor(r, p, n, scores, t) && ReportsOne(scan.relations + [r], |scan.relations|, n, p, scores, t)
  {
    ClassifyExactly(scores[n], t, kind);
    hide Classify, ScoresAs;
  }

  lemma ReportOne(start: seq<Relation>, papers: seq<PaperStatus>, p: nat, scores: seq<Scored>, t: Thresholds,
      create: bool, scan: Scan, others: seq<nat>, n: nat) returns (more: seq<nat>)
    requires |scores| == |papers| && n < |papers| && n != p && !papers[n].Deleted?
    requires ScanReport(start, papers, p, scores, t, create, scan, others, n)
    ensures ScanReport(start, papers, p, scores, t, create, ScanOne(scan, p, n, scores[n], t, create), more, n + 1)
  {
    hide Due, Reports, AllDue, MadeSoFar, ReportsOne, MadeFor, Classify, Find;
    more := if Due(start, papers, p, scores, t, create, n) then others + [n] else others;
    PassDue(start, papers, p, scores, t, create, others, n);
    DueExactly(start, papers, p, scores, t, create, scan, n);
    Below(start, papers, p, scores, t, create, others, n);
    var found := Classify(scores[n], t);
    if found.None? {
      PassMade(start, p, scores, t, scan, n);
    } else {
      var kind := found.value;
      FoundOne(scan, p, scores, t, n, kind);
      NewOne(scan, p, scores, t, n, kind);
      var at := Find(scan.relations, PairKey(p, n), kind, 0);
      if at.Some? {
        FoundMade(start, p, scores, t, scan, n, at.value);
        ReportsMore(scan.relations, scan.relations, scan.ids, others, p, scores, t, at.value, n);
      } else if create {
        var r := Relation(PairKey(p, n).0, PairKey(p, n).1, kind, ConfidenceOf(scores[n]), Pending);
        NewMade(start, p, scores, t, scan, n, r);
        ReportsMore(scan.relations, scan.relations + [r], scan.ids, others, p, scores, t, |scan.relations|, n);
      } else {
        PassMade(start, p, scores, t, scan, n);
      }
    }
  }

  // ------------------------------------------------------------ the whole scan

  lemma {:induction false} ReportAll(start: seq<Relation>, papers: seq<PaperStatus>, p: nat, scores: seq<Scored>,
      t: Thresholds, create: bool, scan: Scan, others: seq<nat>, n: nat) returns (all: seq<nat>)
    requires |scores| == |papers| && n <= |papers|
    requires ScanReport(start, papers, p, scores, t, create, scan, others, n)
    ensures var end := ScanAll(papers, p, scores, t, create, scan, n);
      ScanReport(start, papers, p, scores, t, create, end, all, |papers|)
    decreases |papers| - n
  {
    hide Due, Reports, AllDue, MadeSoFar, ScanOne;
    if n == |papers| {
      all := others;
    } else if Considered(papers, p, n) {
      var more := ReportOne(start, papers, p, scores, t, create, scan, others, n);
      all := ReportAll(start, papers, p, scores, t, create, ScanOne(scan, p, n, scores[n], t, create), more, n + 1);
    } else {
      NotDue(start, papers, p, scores, t, create, n);
      PassDue(start, papers, p, scores, t, create, others, n);
      PassMade(start, p, scores, t, scan, n);
      all := ReportAll(start, papers, p, scores, t, create, scan, others, n + 1);
    }
  }

  lemma NotDue(start: seq<Relation>, papers: seq<PaperStatus>, p: nat, scores: seq<Scored>, t: Thresholds,
      create: bool, q: nat)
    requires |scores| == |papers| && q < |papers| && (q == p || papers[q].Deleted?)
    ensures !Due(start, papers, p, scores, t, create, q)
  {
  }

  lemma NothingReported(s: Tables, p: nat, scores: seq<Scored>, t: Thresholds, create: bool)
    requires |scores| == |s.papers|
    ensures ScanReport(s.relations, s.papers, p, scores, t, create, Scan(s.relations, 0, 0, [], {}), [], 0)
  {
  }

  /** A relation made since `from` has this paper at one end. */
  ghost predicate NewEnd(relations: seq<Relation>, from: nat, q: nat) {
    exists i :: from <= i < |relations| && Involves(relations[i], q)
  }

  lemma MadeEnds(r: Relation, p: nat, scores: seq<Scored>, t: Thresholds, touched: set<nat>, n: nat)
    requires Made(r, p, scores, t, touched, n)
    ensures Involves(r, p) && forall q :: Involves(r, q) ==> q in touched + {p}
    ensures MadeForSome(r, p, scores, t)
  {
    var x :| x in touched && x < n && MadeFor(r, p, x, scores, t);
  }

  lemma LinkedEnds(relations: seq<Relation>, from: nat, p: nat, q: nat)
    requires LinkedSince(relations, from, p, q)
    ensures NewEnd(relations, from, q)
  {
    var i :| from <= i < |relations| && Links(relations[i], p, q);
    assert Involves(relations[i], q);
  }

  lemma TouchedExactly(start: seq<Relation>, p: nat, scores: seq<Scored>, t: Thresholds, scan: Scan, n: nat, q: nat)
    requires MadeSoFar(start, p, scores, t, scan, n)
    ensures NewEnd(scan.relations, |start|, q) <==> scan.created > 0 && q in scan.touched + {p}
  {
    hide Made, LinkedSince, Links, Involves;
    if NewEnd(scan.relations, |start|, q) {
      var i :| |start| <= i < |scan.relations| && Involves(scan.relations[i], q);
      MadeEnds(scan.relations[i], p, scores, t, scan.touched, n);
    }
    if scan.created > 0 && q == p {
      MadeEnds(scan.relations[|start|], p, scores, t, scan.touched, n);
    } else if q in scan.touched {
      LinkedEnds(scan.relations, |start|, p, q);
    }
  }

  /** Main result: what detection answers and makes. An absent or deleted paper is refused. Otherwise the ids
      are, in the order of the other papers, the relations of exactly the papers that are due; the new ones
      are counted, pending and carry the score's confidence; and exactly the active papers at an end of a
      new relation are marked. */
  lemma DetectReports(s: Tables, p: nat, scores: seq<Scored>, t: Thresholds, create: bool) returns (others: seq<nat>)
    requires |scores| == |s.papers|
    ensures p >= |s.papers| ==> Detected(s, p, scores, t, create) == (s, PaperNotFound)
    ensures p < |s.papers| && s.papers[p].Deleted? ==> Detected(s, p, scores, t, create) == (s, PaperDeleted)
    ensures p < |s.papers| && !s.papers[p].Deleted? ==>
      var (e, answer) := Detected(s, p, scores, t, create);
      && answer.Completed? && Reports(e.relations, answer.ids, others, p, scores, t)
      && AllDue(s.relations, s.papers, p, scores, t, create, others, |s.papers|)
      && |e.relations| == |s.relations| + answer.created && |answer.ids| == answer.created + answer.existing
      && (forall i :: |s.relations| <= i < |e.relations| ==> MadeForSome(e.relations[i], p, scores, t))
      && |e.papers| == |s.papers|
      && forall q :: 0 <= q < |s.papers| ==>
        e.papers[q] ==
          if s.papers[q].Active? && NewEnd(e.relations, |s.relations|, q) then DuplicatePending else s.papers[q]
  {
    hide Reports, AllDue, MadeForSome, NewEnd, ScanAll, Made, LinkedSince;
    others := [];
    if p < |s.papers| && !s.papers[p].Deleted? {
      var start := Scan(s.relations, 0, 0, [], {});
      NothingReported(s, p, scores, t, create);
      others := ReportAll(s.relations, s.papers, p, scores, t, create, start, [], 0);
      var scan := ScanAll(s.papers, p, scores, t, create, start, 0);
      var e := Detected(s, p, scores, t, create).0;
      assert e.relations == scan.relations;
      forall i | |s.relations| <= i < |e.relations| ensures MadeForSome(e.relations[i], p, scores, t) {
        MadeEnds(scan.relations[i], p, scores, t, scan.touched, |s.papers|);
      }
      forall q | 0 <= q < |s.papers|
        ensures NewEnd(e.relations, |s.relations|, q) <==> scan.created > 0 && q in scan.touched + {p}
      {
        TouchedExactly(s.relations, p, scores, t, scan, |s.papers|, q);
      }
    }
  }
}
