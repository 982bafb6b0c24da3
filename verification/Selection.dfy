/** Choosing one candidate per metadata field of a paper, storing new candidates without repeats, and
    writing the chosen values into the paper (src/transit_scholar/metadata/selection.py). The rows are
    those of one paper. */
module Selection {
  import opened Prelude

  datatype Field = Title | Doi | ArxivId | PublicationYear | Venue | Abstract | Authors | Publisher
      | Legacy(name: string)

  const LOGICAL_FIELDS: seq<Field> := [Title, Doi, ArxivId, PublicationYear, Venue, Abstract, Authors, Publisher]

  datatype SourceType = ManualConfirmed | DoiProvider | Heuristic(name: string)

  datatype Source = Source(kind: SourceType, location: string)

  datatype Candidate = Candidate(id: nat, file: nat, field: Field, value: string, source: Source, confidence: real,
      createdAt: Option<int>)

  datatype Row = Row(c: Candidate, selected: bool)

  // ------------------------------------------------------------ the order

  function Tier(kind: SourceType): nat {
    match kind case ManualConfirmed => 0 case DoiProvider => 1 case Heuristic(_) => 2
  }

  /** FIELD_PRIORITY (src/transit_scholar/doi_enrichment/merger.py:19-28). */
  function Priority(f: Field): seq<string> {
    match f
    case Publisher => ["crossref", "openalex"]
    case Abstract => ["semantic_scholar", "crossref", "openalex"]
    case ArxivId => ["openalex", "semantic_scholar"]
    case Legacy(_) => []
    case _ => ["crossref", "openalex", "semantic_scholar"]
  }

  function IndexIn(names: seq<string>, name: string): (i: nat)
    ensures i <= |names| && (i < |names| ==> names[i] == name)
  {
    if names == [] then 0 else if names[0] == name then 0 else 1 + IndexIn(names[1..], name)
  }

  function ProviderRank(f: Field, location: string): nat { IndexIn(Priority(f), location) }

  function Created(c: Candidate): int { if c.createdAt.Some? then c.createdAt.value else 0 }

  /** `_pick`: confidence, then newest, then smallest id. */
  predicate KeyLess(a: Candidate, b: Candidate) {
    || a.confidence > b.confidence
    || (a.confidence == b.confidence && (Created(a) > Created(b) || (Created(a) == Created(b) && a.id < b.id)))
  }

  /** The declared order: tier, provider priority within the provider tier, then the key. */
  predicate Better(f: Field, a: Candidate, b: Candidate) {
    var s, t := Tier(a.source.kind), Tier(b.source.kind);
    || s < t
    || (s == t && (
        var r := if s == 1 then ProviderRank(f, a.source.location) else 0;
        var q := if t == 1 then ProviderRank(f, b.source.location) else 0;
        r < q || (r == q && KeyLess(a, b))))
  }

  // ------------------------------------------------------------ the code's way of choosing

  function Filter(p: Candidate -> bool, s: seq<Candidate>): (r: seq<Candidate>)
    ensures forall c :: c in r <==> c in s && p(c)
  {
    if s == [] then [] else Filter(p, s[..|s| - 1]) + (if p(s[|s| - 1]) then [s[|s| - 1]] else [])
  }

  function Pick(s: seq<Candidate>): Candidate
    requires s != []
  {
    var n := |s| - 1;
    if n == 0 then s[0]
    else
      var m := Pick(s[..n]);
      if KeyLess(s[n], m) then s[n] else m
  }

  function BestRank(f: Field, s: seq<Candidate>): nat
    requires s != []
  {
    var n := |s| - 1;
    if n == 0 then ProviderRank(f, s[0].source.location)
      else Min(BestRank(f, s[..n]), ProviderRank(f, s[n].source.location))
  }

  function BestCandidate(f: Field, group: seq<Candidate>): Candidate
    requires group != []
  {
    var manual := Filter((c: Candidate) => c.source.kind.ManualConfirmed?, group);
    if manual != [] then Pick(manual)
    else
      var providers := Filter((c: Candidate) => c.source.kind.DoiProvider?, group);
      if providers != [] then
        var rank := BestRank(f, providers);
        BestRankReached(f, providers);
        Pick(Filter((c: Candidate) => ProviderRank(f, c.source.location) == rank, providers))
      else Pick(group)
  }

  lemma InLastOrBefore(s: seq<Candidate>)
    requires s != []
    ensures forall c :: c in s <==> c in s[..|s| - 1] || c == s[|s| - 1]
  {
  }

  lemma {:induction false} BestRankReached(f: Field, s: seq<Candidate>)
    requires s != []
    ensures exists c :: c in s && ProviderRank(f, c.source.location) == BestRank(f, s)
    ensures forall c :: c in s ==> BestRank(f, s) <= ProviderRank(f, c.source.location)
  {
    hide ProviderRank;
    var n := |s| - 1;
    InLastOrBefore(s);
    if n > 0 {
      BestRankReached(f, s[..n]);
      var c :| c in s[..n] && ProviderRank(f, c.source.location) == BestRank(f, s[..n]);
      assert c in s && s[n] in s;
    }
  }

  /** Candidate ids are a key. */
  ghost predicate Keyed(s: seq<Candidate>) { forall c, d :: c in s && d in s && c.id == d.id ==> c == d }

  lemma {:induction false} PickLeast(s: seq<Candidate>)
    requires s != [] && Keyed(s)
    ensures Pick(s) in s && forall d :: d in s && d != Pick(s) ==> KeyLess(Pick(s), d)
  {
    hide KeyLess;
    var n := |s| - 1;
    InLastOrBefore(s);
    if n > 0 {
      PickLeast(s[..n]);
      forall d | d in s && d != Pick(s) ensures KeyLess(Pick(s), d) {
        KeyOrder(Pick(s[..n]), s[n], d);
        KeyOrder(s[n], Pick(s[..n]), d);
      }
    }
  }

  lemma KeyOrder(a: Candidate, b: Candidate, c: Candidate)
    ensures KeyLess(a, b) && KeyLess(b, c) ==> KeyLess(a, c)
    ensures a.id != b.id ==> KeyLess(a, b) || KeyLess(b, a)
    ensures !(KeyLess(a, b) && KeyLess(b, a))
  {
  }

  ghost predicate Least(f: Field, c: Candidate, group: seq<Candidate>) {
    c in group && forall d :: d in group && d != c ==> Better(f, c, d)
  }

  lemma ManualLeast(f: Field, group: seq<Candidate>, manual: seq<Candidate>)
    requires manual != [] && Keyed(group) && forall c :: c in manual <==> c in group && c.source.kind.ManualConfirmed?
    ensures Least(f, Pick(manual), group)
  {
    hide Pick, KeyLess, ProviderRank;
    PickLeast(manual);
  }

  lemma ProviderLeast(f: Field, group: seq<Candidate>, providers: seq<Candidate>, rank: nat, best: seq<Candidate>)
    requires Keyed(group) && forall c :: c in group ==> !c.source.kind.ManualConfirmed?
    requires forall c :: c in providers <==> c in group && c.source.kind.DoiProvider?
    requires forall c :: c in providers ==> rank <= ProviderRank(f, c.source.location)
    requires best != [] && forall c :: c in best <==> c in providers && ProviderRank(f, c.source.location) == rank
    ensures Least(f, Pick(best), group)
  {
    hide Pick, KeyLess, ProviderRank;
    PickLeast(best);
    var m := Pick(best);
    forall d | d in group && d != m ensures Better(f, m, d) {
      if d.source.kind.DoiProvider? {
        assert d in providers;
        assert ProviderRank(f, d.source.location) == rank ==> d in best;
      }
    }
  }

  lemma HeuristicLeast(f: Field, group: seq<Candidate>)
    requires group != [] && Keyed(group) && forall c :: c in group ==> c.source.kind.Heuristic?
    ensures Least(f, Pick(group), group)
  {
    hide Pick, KeyLess, ProviderRank;
    PickLeast(group);
  }

  /** Main result: the tiered filtering finds the least candidate of the declared order. */
  lemma BestIsLeast(f: Field, group: seq<Candidate>)
    requires group != [] && Keyed(group)
    ensures Least(f, BestCandidate(f, group), group)
  {
    hide ProviderRank, Pick, BestRank, Least, Keyed;
    var manual := Filter((c: Candidate) => c.source.kind.ManualConfirmed?, group);
    var providers := Filter((c: Candidate) => c.source.kind.DoiProvider?, group);
    if manual != [] {
      ManualLeast(f, group, manual);
    } else {
      assert forall c :: c in group ==> c !in manual;
      if providers != [] {
        BestRankReached(f, providers);
        var rank := BestRank(f, providers);
        ProviderLeast(f, group, providers, rank,
          Filter((c: Candidate) => ProviderRank(f, c.source.location) == rank, providers));
      } else {
        assert forall c :: c in group ==> c !in providers;
        HeuristicLeast(f, group);
      }
    }
  }

  lemma OrderIsStrict(f: Field, a: Candidate, b: Candidate, c: Candidate)
    ensures !Better(f, a, a)
    ensures Better(f, a, b) && Better(f, b, c) ==> Better(f, a, c)
    ensures a.id != b.id ==> Better(f, a, b) || Better(f, b, a)
  {
    hide IndexIn, Priority;
  }

  /** Main result: the choice does not depend on the order in which rows are read. */
  lemma OrderOfRowsIrrelevant(f: Field, a: seq<Candidate>, b: seq<Candidate>)
    requires a != [] && b != [] && Keyed(a) && forall c :: c in a <==> c in b
    ensures BestCandidate(f, a) == BestCandidate(f, b)
  {
    hide BestCandidate, Better;
    BestIsLeast(f, a);
    BestIsLeast(f, b);
    OrderIsStrict(f, BestCandidate(f, a), BestCandidate(f, b), BestCandidate(f, a));
  }

  // ------------------------------------------------------------ selecting

  predicate Logical(f: Field) { f in LOGICAL_FIELDS }

  function Group(rows: seq<Row>, f: Field): (g: seq<Candidate>)
    ensures forall c :: c in g <==> c.field == f && exists i :: 0 <= i < |rows| && rows[i].c == c
  {
    if rows == [] then []
      else Group(rows[..|rows| - 1], f) + (if rows[|rows| - 1].c.field == f then [rows[|rows| - 1].c] else [])
  }

  predicate UniqueIds(rows: seq<Row>) { forall i, j :: 0 <= i < j < |rows| ==> rows[i].c.id != rows[j].c.id }

  function SelectedRow(rows: seq<Row>, i: nat): Row
    requires i < |rows|
  {
    if Logical(rows[i].c.field)
      then rows[i].(selected := BestCandidate(rows[i].c.field, Group(rows, rows[i].c.field)) == rows[i].c) else rows[i]
  }

  function SelectedRows(rows: seq<Row>): (r: seq<Row>)
    ensures |r| == |rows| && forall i :: 0 <= i < |rows| ==> r[i] == SelectedRow(rows, i)
  {
    seq(|rows|, i requires 0 <= i < |rows| => SelectedRow(rows, i))
  }

  lemma GroupKeyed(rows: seq<Row>, f: Field)
    requires UniqueIds(rows)
    ensures Keyed(Group(rows, f))
  {
    forall c, d | c in Group(rows, f) && d in Group(rows, f) && c.id == d.id ensures c == d {
      var i :| 0 <= i < |rows| && rows[i].c == c;
      var j :| 0 <= j < |rows| && rows[j].c == d;
      assert i == j;
    }
  }

  /** Row i holds the candidate its field's choice names. */
  ghost predicate Chosen(rows: seq<Row>, i: nat)
    requires i < |rows|
  {
    forall j :: 0 <= j < |rows| && j != i && rows[j].c.field == rows[i].c.field ==>
      Better(rows[i].c.field, rows[i].c, rows[j].c)
  }

  lemma ChosenIsBest(rows: seq<Row>, i: nat)
    requires UniqueIds(rows) && i < |rows|
    ensures var f := rows[i].c.field;
      Group(rows, f) != [] && (BestCandidate(f, Group(rows, f)) == rows[i].c <==> Chosen(rows, i))
  {
    var f := rows[i].c.field;
    var group := Group(rows, f);
    assert rows[i].c in group;
    GroupKeyed(rows, f);
    BestIsLeast(f, group);
    hide Better, BestCandidate, Group;
    var best := BestCandidate(f, group);
    if Chosen(rows, i) && best != rows[i].c {
      assert exists j :: 0 <= j < |rows| && rows[j].c == best by { GroupMember(rows, f, best); }
      OrderIsStrict(f, best, rows[i].c, best);
    }
    if best == rows[i].c {
      forall j | 0 <= j < |rows| && j != i && rows[j].c.field == f ensures Better(f, best, rows[j].c) {
        GroupMember(rows, f, rows[j].c);
        assert rows[j].c in group;
      }
    }
  }

  lemma GroupMember(rows: seq<Row>, f: Field, c: Candidate)
    ensures c in Group(rows, f) <==> c.field == f && exists i :: 0 <= i < |rows| && rows[i].c == c
  {
  }

  /** Main result: selection marks, in every logical field with a candidate, exactly the one that is
      better than all others, and leaves every other row alone. */
  lemma SelectionExact(rows: seq<Row>, i: nat)
    requires UniqueIds(rows) && i < |rows|
    ensures SelectedRows(rows)[i].c == rows[i].c
    ensures Logical(rows[i].c.field) ==> (SelectedRows(rows)[i].selected <==> Chosen(rows, i))
    ensures !Logical(rows[i].c.field) ==> SelectedRows(rows)[i] == rows[i]
  {
    ChosenIsBest(rows, i);
    hide BestCandidate, Group, Better;
    assert SelectedRows(rows)[i] == SelectedRow(rows, i);
  }

  /** The place of a provider in the priority list of a field; unlisted providers share the last place. */
  function Place(f: Field, provider: string): nat {
    if f.Legacy? then 3
    else if provider == "crossref" then (if f.Abstract? then 1 else if f.ArxivId? then 3 else 0)
    else if provider == "openalex" then (if f.Abstract? then 2 else if f.ArxivId? then 0 else 1)
    else if provider == "semantic_scholar" then
      (if f.Abstract? then 0 else if f.ArxivId? then 1 else if f.Publisher? then 3 else 2)
    else 3
  }

  lemma PlaceIsRank(f: Field, x: string, y: string)
    ensures ProviderRank(f, x) < ProviderRank(f, y) <==> Place(f, x) < Place(f, y)
  {
    RankOf(f, x);
    RankOf(f, y);
    hide Place, ProviderRank;
  }

  lemma RankOf(f: Field, x: string)
    ensures ProviderRank(f, x) == if Place(f, x) == 3 then |Priority(f)| else Place(f, x)
    ensures Place(f, x) <= 3 && |Priority(f)| <= 3 && (Place(f, x) < 3 ==> Place(f, x) < |Priority(f)|)
  {
    IndexOfThree(Priority(f), x);
    hide IndexIn;
  }

  lemma IndexOfThree(names: seq<string>, name: string)
    requires |names| <= 3
    ensures var i := IndexIn(names, name);
      i == if |names| > 0 && names[0] == name then 0
           else if |names| > 1 && names[1] == name then 1
           else if |names| > 2 && names[2] == name then 2
           else |names|
  {
    if |names| > 1 { assert names[1..][0] == names[1]; }
    if |names| > 2 { assert names[1..][1..][0] == names[2]; }
  }

  /** Higher confidence, or the same and stored later, or at the same time under the smaller id; a row
      without a time counts as stored at the epoch. */
  predicate Fresher(a: Candidate, b: Candidate) {
    var s := match a.createdAt case Some(t) => t case None => 0;
    var t := match b.createdAt case Some(t) => t case None => 0;
    if a.confidence != b.confidence then b.confidence < a.confidence
    else if s != t then t < s
    else a.id < b.id
  }

  /** The user's values come first, then the providers' in the priority of the field, then all others. */
  predicate Precedes(f: Field, a: Candidate, b: Candidate) {
    match (a.source.kind, b.source.kind)
    case (ManualConfirmed, ManualConfirmed) => Fresher(a, b)
    case (ManualConfirmed, _) => true
    case (_, ManualConfirmed) => false
    case (DoiProvider, DoiProvider) =>
      var r, q := Place(f, a.source.location), Place(f, b.source.location);
      if r != q then r < q else Fresher(a, b)
    case (DoiProvider, Heuristic(_)) => true
    case (Heuristic(_), DoiProvider) => false
    case (Heuristic(_), Heuristic(_)) => Fresher(a, b)
  }

  lemma BetterExactly(f: Field, a: Candidate, b: Candidate)
    ensures Better(f, a, b) <==> Precedes(f, a, b)
  {
    PlaceIsRank(f, a.source.location, b.source.location);
    PlaceIsRank(f, b.source.location, a.source.location);
    hide Place, ProviderRank;
  }

  /** Main result: in every logical field exactly the candidate that precedes all others is marked. */
  lemma MarkedExactly(rows: seq<Row>, i: nat)
    requires UniqueIds(rows) && i < |rows| && rows[i].c.field in LOGICAL_FIELDS
    ensures SelectedRows(rows)[i].selected <==>
      forall j :: 0 <= j < |rows| && j != i && rows[j].c.field == rows[i].c.field ==>
        Precedes(rows[i].c.field, rows[i].c, rows[j].c)
  {
    SelectionExact(rows, i);
    hide Better, Precedes, SelectedRows;
    forall j | 0 <= j < |rows|
      ensures Better(rows[i].c.field, rows[i].c, rows[j].c) <==> Precedes(rows[i].c.field, rows[i].c, rows[j].c)
    {
      BetterExactly(rows[i].c.field, rows[i].c, rows[j].c);
    }
  }

  lemma OneSelected(rows: seq<Row>, f: Field) returns (i: nat)
    requires UniqueIds(rows) && Logical(f) && Group(rows, f) != []
    ensures i < |rows| && rows[i].c.field == f && SelectedRows(rows)[i].selected
    ensures forall j :: 0 <= j < |rows| && j != i && rows[j].c.field == f ==> !SelectedRows(rows)[j].selected
  {
    GroupKeyed(rows, f);
    BestIsLeast(f, Group(rows, f));
    var best := BestCandidate(f, Group(rows, f));
    GroupMember(rows, f, best);
    i :| 0 <= i < |rows| && rows[i].c == best;
    hide BestCandidate, Group, Better, Logical;
    forall j | 0 <= j < |rows| && rows[j].c.field == f ensures SelectedRows(rows)[j].selected <==> j == i {
      assert SelectedRows(rows)[j] == SelectedRow(rows, j);
    }
  }
}
