/** A paper's candidate rows over time and the values written from them
    (src/transit_scholar/metadata/selection.py:122-321). */
module MetadataStore {
  import opened Prelude
  import opened Selection

  /** The normalizers of src/transit_scholar/metadata/normalizers.py, left uninterpreted: the canonical
      value used to recognise repeats, and what is written into the paper. */
  datatype Norms = Norms(
    canonical: (Field, string) -> string, strip: string -> string,
    title: string -> Option<string>, doi: string -> Option<string>, arxivId: string -> Option<string>,
    year: string -> Option<int>, plausible: int -> bool, names: string -> seq<string>)

  // ------------------------------------------------------------ storing candidates

  /** One value to store: a provider's or the user's value for a field. */
  datatype Entry = Entry(id: nat, file: nat, field: Field, value: string, source: Source)

  predicate SameFact(c: Candidate, e: Entry, n: Norms) {
    c.file == e.file && c.field == e.field && c.source == e.source
      && n.canonical(c.field, c.value) == n.canonical(e.field, e.value)
  }

  /** `_candidate_exists`: among the rows stored before the call. */
  predicate Exists(rows: seq<Row>, e: Entry, n: Norms) {
    exists i :: 0 <= i < |rows| && SameFact(rows[i].c, e, n)
  }

  predicate Skipped(e: Entry, skip: set<string>) { e.source.kind.DoiProvider? && e.source.location in skip }

  function RowOf(e: Entry, now: int): Row {
    Row(Candidate(e.id, e.file, e.field, e.value, e.source, 1.0, Some(now)), false)
  }

  function NewRows(rows: seq<Row>, entries: seq<Entry>, skip: set<string>, now: int, n: Norms): seq<Row> {
    if entries == [] then []
    else
      var e := entries[|entries| - 1];
      NewRows(rows, entries[..|entries| - 1], skip, now, n)
        + (if Skipped(e, skip) || Exists(rows, e, n) then [] else [RowOf(e, now)])
  }

  function Persisted(rows: seq<Row>, entries: seq<Entry>, skip: set<string>, now: int, n: Norms): seq<Row> {
    rows + NewRows(rows, entries, skip, now, n)
  }

  // ------------------------------------------------------------ writing the paper

  datatype AuthorRow = AuthorRow(order: nat, name: string)

  datatype Paper = Paper(
    title: Option<string>, normalizedTitle: Option<string>, doi: Option<string>, normalizedDoi: Option<string>,
    arxivId: Option<string>, year: Option<int>, venue: Option<string>, abstractText: Option<string>,
      authors: seq<AuthorRow>)

  function AuthorNames(rows: seq<AuthorRow>): (names: seq<string>)
    ensures |names| == |rows| && forall i :: 0 <= i < |rows| ==> names[i] == rows[i].name
  {
    seq(|rows|, i requires 0 <= i < |rows| => rows[i].name)
  }

  function AuthorRows(names: seq<string>): (rows: seq<AuthorRow>)
    ensures |rows| == |names| && forall i :: 0 <= i < |names| ==> rows[i] == AuthorRow(i + 1, names[i])
  {
    seq(|names|, i requires 0 <= i < |names| => AuthorRow(i + 1, names[i]))
  }

  /** `replace_paper_authors`: equal lists are left untouched. */
  function ReplacedAuthors(rows: seq<AuthorRow>, names: seq<string>): seq<AuthorRow> {
    if AuthorNames(rows) == names then rows else AuthorRows(names)
  }

  /** The year a text may put into the paper. */
  function UsableYear(value: string, n: Norms): Option<int> {
    var year := n.year(n.strip(value));
    if year.Some? && n.plausible(year.value) then year else None
  }

  /** Whether the field's chosen candidate is written. */
  predicate Writable(f: Field, value: string, n: Norms) {
    match f
    case PublicationYear => UsableYear(value, n).Some?
    case Authors => n.names(value) != []
    case Publisher => false
    case Legacy(_) => false
    case _ => true
  }

  function Written(p: Paper, f: Field, value: string, n: Norms): Paper {
    match f
    case Title => p.(title := Some(n.strip(value)), normalizedTitle := n.title(value))
    case Doi => p.(doi := Some(n.strip(value)), normalizedDoi := n.doi(value))
    case ArxivId => p.(arxivId := n.arxivId(value))
    case PublicationYear => if UsableYear(value, n).Some? then p.(year := UsableYear(value, n)) else p
    case Venue => p.(venue := Some(n.strip(value)))
    case Abstract => p.(abstractText := Some(n.strip(value)))
    case Authors => if n.names(value) != [] then p.(authors := ReplacedAuthors(p.authors, n.names(value))) else p
    case Publisher => p
    case Legacy(_) => p
  }

  function WrittenUpTo(p: Paper, chosen: map<Field, Candidate>, n: Norms, k: nat): Paper
    requires k <= |LOGICAL_FIELDS|
  {
    if k == 0 then p
    else
      var before, f := WrittenUpTo(p, chosen, n, k - 1), LOGICAL_FIELDS[k - 1];
      if f in chosen then Written(before, f, chosen[f].value, n) else before
  }

  function Materialized(p: Paper, chosen: map<Field, Candidate>, n: Norms): Paper {
    WrittenUpTo(p, chosen, n, |LOGICAL_FIELDS|)
  }

  function ChosenMap(rows: seq<Row>): map<Field, Candidate> {
    map f | f in LOGICAL_FIELDS && Group(rows, f) != [] :: BestCandidate(f, Group(rows, f))
  }

  class Metadata {
    var rows: seq<Row>
    var paper: Paper

    constructor (paper: Paper)
      ensures this.paper == paper && rows == []
    {
      this.paper := paper;
      rows := [];
    }

    /** persist_provider_candidates and persist_manual_candidates; rows added by this call are not
        visible to its own lookups, since nothing is flushed in between. */
    method PersistCandidates(entries: seq<Entry>, skip: set<string>, now: int, n: Norms) returns (created: nat)
      modifies this`rows
      ensures rows == Persisted(old(rows), entries, skip, now, n)
      ensures created == |rows| - |old(rows)|
    {
      var stored := rows;
      created := 0;
      for i := 0 to |entries|
        invariant rows == Persisted(stored, entries[..i], skip, now, n)
        invariant created == |rows| - |stored|
      {
        var e := entries[i];
        assert entries[..i + 1][..i] == entries[..i];
        if !Skipped(e, skip) && !Exists(stored, e, n) {
          rows := rows + [RowOf(e, now)];
          created := created + 1;
        }
      }
      assert entries[..|entries|] == entries;
    }

    method SelectCandidates() returns (chosen: map<Field, Candidate>)
      modifies this`rows
      ensures rows == SelectedRows(old(rows)) && chosen == ChosenMap(old(rows))
    {
      var start := rows;
      chosen := map[];
      MarkedNone(start);
      hide MarkedUpTo, ChosenUpTo, Group, BestCandidate;
      for k := 0 to |LOGICAL_FIELDS|
        invariant MarkedUpTo(rows, start, k) && chosen == ChosenUpTo(start, k)
      {
        var f := LOGICAL_FIELDS[k];
        ChosenStep(start, k);
        var group := Group(start, f);
        if group != [] {
          var best := BestCandidate(f, group);
          MarkField(start, best, k);
          chosen := chosen[f := best];
        } else {
          EmptyGroupMarked(rows, start, k);
        }
      }
      MarkedAll(rows, start);
    }

    /** The inner loop: every candidate of one field is marked or unmarked. */
    method MarkField(start: seq<Row>, best: Candidate, k: nat)
      requires k < |LOGICAL_FIELDS| && MarkedUpTo(rows, start, k)
      requires Group(start, LOGICAL_FIELDS[k]) != []
        && best == BestCandidate(LOGICAL_FIELDS[k], Group(start, LOGICAL_FIELDS[k]))
      modifies this`rows
      ensures MarkedUpTo(rows, start, k + 1)
    {
      hide BestCandidate, Group;
      ghost var was := rows;
      DistinctFields(k);
      for i := 0 to |rows|
        invariant |rows| == |start|
        invariant forall j :: i <= j < |rows| ==> rows[j] == was[j]
        invariant forall j :: 0 <= j < i ==>
          rows[j] == if start[j].c.field == LOGICAL_FIELDS[k] then SelectedRow(start, j) else was[j]
      {
        if rows[i].c.field == LOGICAL_FIELDS[k] {
          rows := rows[i := rows[i].(selected := rows[i].c == best)];
        }
      }
    }

    method MaterializeSelection(chosen: map<Field, Candidate>, n: Norms) returns (written: seq<Field>)
      modifies this`paper
      ensures paper == Materialized(old(paper), chosen, n)
      ensures forall f :: f in written <==> f in chosen && f in LOGICAL_FIELDS && Writable(f, chosen[f].value, n)
    {
      hide Written, Writable;
      written := [];
      for k := 0 to |LOGICAL_FIELDS|
        invariant paper == WrittenUpTo(old(paper), chosen, n, k)
        invariant forall f ::
          f in written <==> f in chosen && f in LOGICAL_FIELDS[..k] && Writable(f, chosen[f].value, n)
      {
        var f := LOGICAL_FIELDS[k];
        assert LOGICAL_FIELDS[..k + 1] == LOGICAL_FIELDS[..k] + [f];
        if f in chosen {
          paper := Written(paper, f, chosen[f].value, n);
          if Writable(f, chosen[f].value, n) { written := written + [f]; }
        }
      }
      assert LOGICAL_FIELDS[..|LOGICAL_FIELDS|] == LOGICAL_FIELDS;
    }
  }

  lemma DistinctFields(k: nat)
    requires k < |LOGICAL_FIELDS|
    ensures LOGICAL_FIELDS[k] !in LOGICAL_FIELDS[..k]
    ensures LOGICAL_FIELDS[..k + 1] == LOGICAL_FIELDS[..k] + [LOGICAL_FIELDS[k]]
  {
  }

  /** The first k fields are settled, the others as they were. */
  ghost predicate MarkedUpTo(rows: seq<Row>, start: seq<Row>, k: nat)
    requires k <= |LOGICAL_FIELDS|
  {
    && |rows| == |start|
    && forall i :: 0 <= i < |rows| ==>
      rows[i] == if start[i].c.field in LOGICAL_FIELDS[..k] then SelectedRow(start, i) else start[i]
  }

  function ChosenUpTo(rows: seq<Row>, k: nat): map<Field, Candidate>
    requires k <= |LOGICAL_FIELDS|
  {
    map f | f in LOGICAL_FIELDS[..k] && Group(rows, f) != [] :: BestCandidate(f, Group(rows, f))
  }

  lemma MarkedNone(start: seq<Row>)
    ensures MarkedUpTo(start, start, 0) && ChosenUpTo(start, 0) == map[]
  {
  }

  lemma MarkedAll(rows: seq<Row>, start: seq<Row>)
    requires MarkedUpTo(rows, start, |LOGICAL_FIELDS|)
    ensures rows == SelectedRows(start) && ChosenUpTo(start, |LOGICAL_FIELDS|) == ChosenMap(start)
  {
    hide BestCandidate, Group;
    assert LOGICAL_FIELDS[..|LOGICAL_FIELDS|] == LOGICAL_FIELDS;
  }

  lemma ChosenStep(start: seq<Row>, k: nat)
    requires k < |LOGICAL_FIELDS|
    ensures var f := LOGICAL_FIELDS[k];
      ChosenUpTo(start, k + 1) == if Group(start, f) == [] then ChosenUpTo(start, k)
        else ChosenUpTo(start, k)[f := BestCandidate(f, Group(start, f))]
  {
    DistinctFields(k);
    hide BestCandidate, Group;
  }

  lemma EmptyGroupMarked(rows: seq<Row>, start: seq<Row>, k: nat)
    requires k < |LOGICAL_FIELDS| && MarkedUpTo(rows, start, k) && Group(start, LOGICAL_FIELDS[k]) == []
    ensures MarkedUpTo(rows, start, k + 1)
  {
    DistinctFields(k);
    EmptyGroup(start, LOGICAL_FIELDS[k]);
  }

  lemma EmptyGroup(rows: seq<Row>, f: Field)
    requires Group(rows, f) == []
    ensures forall i :: 0 <= i < |rows| ==> rows[i].c.field != f
  {
    forall i | 0 <= i < |rows| ensures rows[i].c.field != f {
      GroupMember(rows, f, rows[i].c);
    }
  }
}
