/** What a history of edits, refreshes and selections keeps: no repeated facts, manual values stay
    chosen, and how far the paper can differ from what is selected. */
module MetadataGuarantees {
  import opened Prelude
  import opened Selection
  import opened MetadataStore

  // ------------------------------------------------------------ no repeated facts

  lemma {:induction false} NewRowsExact(rows: seq<Row>, entries: seq<Entry>, skip: set<string>, now: int, n: Norms,
      r: Row)
    ensures r in NewRows(rows, entries, skip, now, n) <==>
      exists k :: 0 <= k < |entries| && !(entries[k].source.kind.DoiProvider? && entries[k].source.location in skip)
        && !Exists(rows, entries[k], n)
        && r == RowOf(entries[k], now)
  {
    if entries != [] {
      var m := |entries| - 1;
      NewRowsExact(rows, entries[..m], skip, now, n, r);
      hide Exists;
      assert forall k :: 0 <= k < m ==> entries[..m][k] == entries[k];
    }
  }

  lemma StoredExists(rows: seq<Row>, entries: seq<Entry>, skip: set<string>, now: int, n: Norms, k: nat)
    requires k < |entries| && !Skipped(entries[k], skip)
    ensures Exists(Persisted(rows, entries, skip, now, n), entries[k], n)
  {
    var e, all := entries[k], Persisted(rows, entries, skip, now, n);
    if Exists(rows, e, n) {
      var i :| 0 <= i < |rows| && SameFact(rows[i].c, e, n);
      assert all[i] == rows[i];
    } else {
      NewRowsExact(rows, entries, skip, now, n, RowOf(e, now));
      var added := NewRows(rows, entries, skip, now, n);
      var j :| 0 <= j < |added| && added[j] == RowOf(e, now);
      assert all[|rows| + j] == added[j];
      assert SameFact(all[|rows| + j].c, e, n);
    }
  }

  lemma {:induction false} NothingNew(rows: seq<Row>, entries: seq<Entry>, skip: set<string>, now: int, n: Norms)
    requires forall k :: 0 <= k < |entries| && !Skipped(entries[k], skip) ==> Exists(rows, entries[k], n)
    ensures NewRows(rows, entries, skip, now, n) == []
  {
    hide Exists;
    if entries != [] { NothingNew(rows, entries[..|entries| - 1], skip, now, n); }
  }

  /** Main result: storing the same values again, at any later time, adds no row. */
  lemma PersistTwice(rows: seq<Row>, entries: seq<Entry>, skip: set<string>, now: int, later: int, n: Norms)
    ensures var once := Persisted(rows, entries, skip, now, n);
      Persisted(once, entries, skip, later, n) == once
  {
    var once := Persisted(rows, entries, skip, now, n);
    forall k | 0 <= k < |entries| && !Skipped(entries[k], skip) ensures Exists(once, entries[k], n) {
      StoredExists(rows, entries, skip, now, n, k);
    }
    NothingNew(once, entries, skip, later, n);
  }

  // ------------------------------------------------------------ histories

  datatype Op =
    | Persist(entries: seq<Entry>, skip: set<string>, now: int)
    | AddHeuristic(row: Row)
    | Select

  predicate FreshIds(rows: seq<Row>, entries: seq<Entry>) {
    && (forall k, i :: 0 <= k < |entries| && 0 <= i < |rows| ==> entries[k].id != rows[i].c.id)
    && (forall k, l :: 0 <= k < l < |entries| ==> entries[k].id != entries[l].id)
  }

  predicate Enabled(rows: seq<Row>, op: Op) {
    match op
    case Persist(entries, _, _) => FreshIds(rows, entries)
    case AddHeuristic(row) => row.c.source.kind.Heuristic? && forall i :: 0 <= i < |rows| ==> rows[i].c.id != row.c.id
    case Select => true
  }

  function Perform(rows: seq<Row>, op: Op, n: Norms): seq<Row> {
    match op
    case Persist(entries, skip, now) => Persisted(rows, entries, skip, now, n)
    case AddHeuristic(row) => rows + [row]
    case Select => SelectedRows(rows)
  }

  predicate Next(rows: seq<Row>, op: Op, after: seq<Row>, n: Norms) {
    Enabled(rows, op) && after == Perform(rows, op, n)
  }

  predicate IsHistory(states: seq<seq<Row>>, ops: seq<Op>, n: Norms) {
    && |states| == |ops| + 1 && states[0] == []
    && forall i :: 0 <= i < |ops| ==> Next(states[i], ops[i], states[i + 1], n)
  }

  lemma {:induction false} NewRowsUnique(rows: seq<Row>, entries: seq<Entry>, skip: set<string>, now: int, n: Norms)
    requires FreshIds(rows, entries) && UniqueIds(rows)
    ensures UniqueIds(Persisted(rows, entries, skip, now, n))
  {
    if entries != [] {
      var m := |entries| - 1;
      NewRowsUnique(rows, entries[..m], skip, now, n);
      var most := NewRows(rows, entries[..m], skip, now, n);
      forall j | 0 <= j < |most| ensures most[j].c.id != entries[m].id {
        NewRowsExact(rows, entries[..m], skip, now, n, most[j]);
        assert most[j] in most;
      }
      var e := RowOf(entries[m], now);
      assert rows + (most + [e]) == (rows + most) + [e];
      assert most + [] == most;
    }
  }

  /** Rows are only ever added, and selection changes nothing but the marks. */
  predicate Keeps(before: seq<Row>, after: seq<Row>) {
    |before| <= |after| && forall i :: 0 <= i < |before| ==> after[i].c == before[i].c
  }

  lemma StepKeeps(rows: seq<Row>, op: Op, n: Norms)
    requires UniqueIds(rows) && Enabled(rows, op)
    ensures UniqueIds(Perform(rows, op, n)) && Keeps(rows, Perform(rows, op, n))
  {
    hide BestCandidate, Group, SelectedRow, Exists, NewRows;
    match op
    case Persist(entries, skip, now) => NewRowsUnique(rows, entries, skip, now, n);
    case AddHeuristic(_) =>
    case Select =>
      forall i | 0 <= i < |rows| ensures SelectedRows(rows)[i].c == rows[i].c { SelectionExact(rows, i); }
  }

  lemma {:induction false} HistoryUnique(states: seq<seq<Row>>, ops: seq<Op>, n: Norms, i: nat)
    requires IsHistory(states, ops, n) && i <= |ops|
    ensures UniqueIds(states[i])
  {
    if i > 0 {
      HistoryUnique(states, ops, n, i - 1);
      hide Perform, Enabled, UniqueIds, Keeps;
      assert Next(states[i - 1], ops[i - 1], states[i - 1 + 1], n);
      StepKeeps(states[i - 1], ops[i - 1], n);
    }
  }

  lemma {:induction false} HistoryKeeps(states: seq<seq<Row>>, ops: seq<Op>, n: Norms, i: nat, j: nat)
    requires IsHistory(states, ops, n) && i <= j <= |ops|
    ensures Keeps(states[i], states[j])
    decreases j - i
  {
    if i < j {
      HistoryKeeps(states, ops, n, i, j - 1);
      HistoryUnique(states, ops, n, j - 1);
      hide Perform, Enabled, UniqueIds;
      assert Next(states[j - 1], ops[j - 1], states[j - 1 + 1], n);
      StepKeeps(states[j - 1], ops[j - 1], n);
    }
  }

  predicate Manual(r: Row, f: Field) { r.c.field == f && r.c.source.kind.ManualConfirmed? }

  /** Main result: once a field has a manual candidate, every later selection, after any refreshes,
      marks exactly one row of the field, and a manual one. */
  lemma ManualStays(states: seq<seq<Row>>, ops: seq<Op>, n: Norms, i: nat, m: nat, j: nat) returns (w: nat)
    requires IsHistory(states, ops, n) && i < j <= |ops| && m < |states[i]|
    requires Logical(states[i][m].c.field) && states[i][m].c.source.kind.ManualConfirmed? && ops[j - 1].Select?
    ensures var f := states[i][m].c.field;
      && w < |states[j]| && Manual(states[j][w], f) && states[j][w].selected
      && forall k :: 0 <= k < |states[j]| && states[j][k].c.field == f && states[j][k].selected ==> k == w
  {
    var f := states[i][m].c.field;
    var rows := states[j - 1];
    HistoryKeeps(states, ops, n, i, j - 1);
    HistoryUnique(states, ops, n, j - 1);
    assert Next(rows, ops[j - 1], states[j - 1 + 1], n);
    hide IsHistory, BestCandidate, Group, Logical;
    assert rows[m].c == states[i][m].c;
    GroupMember(rows, f, rows[m].c);
    w := OneSelected(rows, f);
    SelectionExact(rows, w);
    ChosenOverManual(rows, w, m);
  }

  lemma ChosenOverManual(rows: seq<Row>, w: nat, m: nat)
    requires w < |rows| && m < |rows| && rows[m].c.field == rows[w].c.field && rows[m].c.source.kind.ManualConfirmed?
    requires Chosen(rows, w)
    ensures rows[w].c.source.kind.ManualConfirmed?
  {
    if w != m { assert Better(rows[w].c.field, rows[w].c, rows[m].c); }
  }

  // ------------------------------------------------------------ the latest edit

  /** The row a field's selection marks. */
  predicate Wins(rows: seq<Row>, f: Field, w: nat) {
    w < |rows| && rows[w].c.field == f && SelectedRows(rows)[w].selected
  }

  /** Every manual row was stored with full confidence. */
  predicate ManualCertain(rows: seq<Row>) {
    forall i :: 0 <= i < |rows| && rows[i].c.source.kind.ManualConfirmed? ==> rows[i].c.confidence == 1.0
  }

  lemma HistoryStep(states: seq<seq<Row>>, ops: seq<Op>, n: Norms, i: nat)
    requires IsHistory(states, ops, n) && i < |ops|
    ensures |states| == |ops| + 1 && Enabled(states[i], ops[i]) && states[i + 1] == Perform(states[i], ops[i], n)
  {
    hide Perform, Enabled;
    assert Next(states[i], ops[i], states[i + 1], n);
  }

  lemma {:induction false} HistoryCertain(states: seq<seq<Row>>, ops: seq<Op>, n: Norms, i: nat)
    requires IsHistory(states, ops, n) && i <= |ops|
    ensures ManualCertain(states[i])
  {
    if i == 0 {
      assert states[0] == [];
    } else {
      hide Perform, Enabled, ManualCertain, IsHistory;
      HistoryCertain(states, ops, n, i - 1);
      HistoryStep(states, ops, n, i - 1);
      StepCertain(states[i - 1], ops[i - 1], n);
    }
  }

  lemma StepCertain(rows: seq<Row>, op: Op, n: Norms)
    requires ManualCertain(rows) && Enabled(rows, op)
    ensures ManualCertain(Perform(rows, op, n))
  {
    hide BestCandidate, Group, SelectedRow, Exists, NewRows;
    match op
    case Persist(entries, skip, now) =>
      var added := NewRows(rows, entries, skip, now, n);
      forall r | r in added ensures r.c.confidence == 1.0 { NewRowsExact(rows, entries, skip, now, n, r); }
      assert forall i :: 0 <= i < |added| ==> added[i] in added;
    case AddHeuristic(_) =>
    case Select =>
      forall i | 0 <= i < |rows| ensures SelectedRows(rows)[i].c == rows[i].c { SelectedIsRow(rows, i); }
  }

  lemma SelectedIsRow(rows: seq<Row>, i: nat)
    requires i < |rows|
    ensures SelectedRows(rows)[i].c == rows[i].c
  {
  }

  predicate UserEdit(e: Entry) { e.source == Source(ManualConfirmed, "user_edit") && Logical(e.field) }

  /** Stored later than `c`, or at the same instant under a smaller id. */
  predicate Later(created: int, id: nat, c: Candidate) { Created(c) < created || (Created(c) == created && id < c.id) }

  /** The stored row i of this value was stored later than every manual row of another value. */
  predicate LatestOfItsField(rows: seq<Row>, e: Entry, n: Norms, i: nat)
    requires i < |rows|
  {
    && SameFact(rows[i].c, e, n)
    && forall j :: 0 <= j < |rows| && Manual(rows[j], e.field) && !SameFact(rows[j].c, e, n) ==>
      Later(Created(rows[i].c), rows[i].c.id, rows[j].c)
  }

  /** The new row would be later than every manual row of the field. */
  predicate LatestOfAll(rows: seq<Row>, e: Entry, now: int) {
    forall j :: 0 <= j < |rows| && Manual(rows[j], e.field) ==> Later(now, e.id, rows[j].c)
  }

  /** Main result, for every clock and every order of ids: the value just confirmed by the user is the one
      selected exactly when, stored before, one of its rows is later than every manual row of another
      value, or else its new row is later than every manual row. */
  lemma LatestEditWinsExactly(rows: seq<Row>, e: Entry, now: int, n: Norms, w: nat)
    requires UniqueIds(rows) && FreshIds(rows, [e]) && UserEdit(e) && ManualCertain(rows)
    requires Wins(Persisted(rows, [e], {}, now, n), e.field, w)
    ensures var after := Persisted(rows, [e], {}, now, n);
      SameFact(after[w].c, e, n) <==>
        if Exists(rows, e, n) then exists i :: 0 <= i < |rows| && LatestOfItsField(rows, e, n, i)
        else LatestOfAll(rows, e, now)
  {
    hide SelectedRows, Persisted, Chosen, LatestOfItsField, LatestOfAll, ManualCertain, Logical;
    PersistOne(rows, e, now, n);
    var after := Persisted(rows, [e], {}, now, n);
    if Exists(rows, e, n) {
      SelectionExact(rows, w);
      if SameFact(rows[w].c, e, n) {
        WinnerIsLatest(rows, e, n, w);
      }
      if i :| 0 <= i < |rows| && LatestOfItsField(rows, e, n, i) {
        LatestWins(rows, e, n, w, i);
      }
    } else {
      NewRowsUnique(rows, [e], {}, now, n);
      SelectionExact(after, w);
      NewEditExact(rows, e, now, n, w);
    }
  }

  lemma WinnerIsLatest(rows: seq<Row>, e: Entry, n: Norms, w: nat)
    requires UserEdit(e) && ManualCertain(rows) && w < |rows| && Chosen(rows, w) && SameFact(rows[w].c, e, n)
    ensures LatestOfItsField(rows, e, n, w)
  {
    forall j | 0 <= j < |rows| && Manual(rows[j], e.field) && !SameFact(rows[j].c, e, n)
      ensures Later(Created(rows[w].c), rows[w].c.id, rows[j].c)
    {
      assert Better(e.field, rows[w].c, rows[j].c);
    }
  }

  lemma LatestWins(rows: seq<Row>, e: Entry, n: Norms, w: nat, i: nat)
    requires UserEdit(e) && ManualCertain(rows) && w < |rows| && rows[w].c.field == e.field && Chosen(rows, w)
    requires i < |rows| && LatestOfItsField(rows, e, n, i)
    ensures SameFact(rows[w].c, e, n)
  {
    ChosenOverManual(rows, w, i);
    if w != i { assert Better(e.field, rows[w].c, rows[i].c); }
  }

  lemma PersistOne(rows: seq<Row>, e: Entry, now: int, n: Norms)
    ensures Persisted(rows, [e], {}, now, n) == if Exists(rows, e, n) then rows else rows + [RowOf(e, now)]
  {
    hide Exists;
    assert [e][..0] == [];
    assert NewRows(rows, [e], {}, now, n) == if Exists(rows, e, n) then [] else [RowOf(e, now)];
  }

  lemma NewEditExact(rows: seq<Row>, e: Entry, now: int, n: Norms, w: nat)
    requires UserEdit(e) && ManualCertain(rows) && !Exists(rows, e, n) && FreshIds(rows, [e])
    requires w <= |rows| && (rows + [RowOf(e, now)])[w].c.field == e.field && Chosen(rows + [RowOf(e, now)], w)
    ensures SameFact((rows + [RowOf(e, now)])[w].c, e, n) <==> LatestOfAll(rows, e, now)
  {
    var after := rows + [RowOf(e, now)];
    assert after[|rows|] == RowOf(e, now);
    if w < |rows| {
      assert Better(e.field, after[w].c, after[|rows|].c);
      assert Manual(rows[w], e.field) && !Later(now, e.id, rows[w].c);
    } else {
      forall j | 0 <= j < |rows| && Manual(rows[j], e.field) ensures Later(now, e.id, rows[j].c) {
        assert Better(e.field, after[w].c, after[j].c);
      }
    }
  }

  lemma TwoStored(n: Norms, e1: Entry, t1: int, e2: Entry, t2: int)
    requires e1.field == e2.field && n.canonical(e1.field, e1.value) != n.canonical(e1.field, e2.value)
    ensures Persisted([], [e1], {}, t1, n) == [RowOf(e1, t1)]
    ensures Persisted([RowOf(e1, t1)], [e2], {}, t2, n) == [RowOf(e1, t1), RowOf(e2, t2)]
  {
    PersistOne([], e1, t1, n);
    PersistOne([RowOf(e1, t1)], e2, t2, n);
  }

  lemma ThirdNotStored(n: Norms, e1: Entry, e2: Entry, e3: Entry)
    requires e1.(id := e3.id) == e3
    ensures Persisted([RowOf(e1, 1), RowOf(e2, 2)], [e3], {}, 3, n) == [RowOf(e1, 1), RowOf(e2, 2)]
  {
    PersistOne([RowOf(e1, 1), RowOf(e2, 2)], e3, 3, n);
    assert SameFact([RowOf(e1, 1), RowOf(e2, 2)][0].c, e3, n);
  }

  /** Of two rows of a field only the better one is marked. */
  lemma BetterOfTwo(rows: seq<Row>, i: nat, f: Field)
    requires |rows| == 2 && i < 2 && Logical(f) && rows[0].c.field == rows[1].c.field == f
    requires rows[0].c.id != rows[1].c.id && Better(f, rows[i].c, rows[1 - i].c)
    ensures SelectedRows(rows)[i].selected && !SelectedRows(rows)[1 - i].selected
  {
    hide SelectedRows, Better;
    SelectionExact(rows, 0);
    SelectionExact(rows, 1);
    OrderIsStrict(f, rows[i].c, rows[1 - i].c, rows[i].c);
  }

  /** Confirming A, then B, then A again leaves B selected. */
  lemma ThirdEditLoses(n: Norms, a: string, b: string)
    requires n.canonical(Venue, a) != n.canonical(Venue, b)
    ensures var user := Source(ManualConfirmed, "user_edit");
      var first := Persisted([], [Entry(1, 0, Venue, a, user)], {}, 1, n);
      var second := Persisted(first, [Entry(2, 0, Venue, b, user)], {}, 2, n);
      var third := Persisted(second, [Entry(3, 0, Venue, a, user)], {}, 3, n);
      third == second && |third| == 2 && third[1].c.value == b && SelectedRows(third)[1].selected
        && !SelectedRows(third)[0].selected
  {
    hide SelectedRows, Persisted;
    var user := Source(ManualConfirmed, "user_edit");
    var e1, e2, e3 := Entry(1, 0, Venue, a, user), Entry(2, 0, Venue, b, user), Entry(3, 0, Venue, a, user);
    TwoStored(n, e1, 1, e2, 2);
    ThirdNotStored(n, e1, e2, e3);
    BetterOfTwo([RowOf(e1, 1), RowOf(e2, 2)], 1, Venue);
  }

  /** Confirming A and then B within one tick of the clock leaves A selected when its id is smaller. */
  lemma SameInstantLoses(n: Norms, a: string, b: string)
    requires n.canonical(Venue, a) != n.canonical(Venue, b)
    ensures var user := Source(ManualConfirmed, "user_edit");
      var first := Persisted([], [Entry(1, 0, Venue, a, user)], {}, 1, n);
      var second := Persisted(first, [Entry(2, 0, Venue, b, user)], {}, 1, n);
      && |second| == 2 && second[1].c.value == b && !SelectedRows(second)[1].selected
      && second[0].c.value == a && SelectedRows(second)[0].selected
  {
    hide SelectedRows, Persisted;
    var user := Source(ManualConfirmed, "user_edit");
    var e1, e2 := Entry(1, 0, Venue, a, user), Entry(2, 0, Venue, b, user);
    TwoStored(n, e1, 1, e2, 1);
    BetterOfTwo([RowOf(e1, 1), RowOf(e2, 1)], 0, Venue);
  }

  // ------------------------------------------------------------ paper and selection

  /** The paper shows the field's chosen candidate. */
  predicate Shows(p: Paper, f: Field, value: string, n: Norms) {
    match f
    case Title => p.title == Some(n.strip(value)) && p.normalizedTitle == n.title(value)
    case Doi => p.doi == Some(n.strip(value)) && p.normalizedDoi == n.doi(value)
    case ArxivId => p.arxivId == n.arxivId(value)
    case PublicationYear => p.year == n.year(n.strip(value))
    case Venue => p.venue == Some(n.strip(value))
    case Abstract => p.abstractText == Some(n.strip(value))
    case Authors => AuthorNames(p.authors) == n.names(value)
    case Publisher => true
    case Legacy(_) => true
  }

  lemma NamesOfRows(names: seq<string>)
    ensures AuthorNames(AuthorRows(names)) == names
  {
  }

  lemma WrittenShows(p: Paper, f: Field, value: string, n: Norms)
    ensures Shows(Written(p, f, value, n), f, value, n)
      <==> Shows(p, f, value, n) || Writable(f, value, n) || f.Publisher? || f.Legacy?
  {
    NamesOfRows(n.names(value));
  }

  lemma OthersUntouched(p: Paper, f: Field, value: string, g: Field, shown: string, n: Norms)
    requires f != g
    ensures Shows(Written(p, f, value, n), g, shown, n) <==> Shows(p, g, shown, n)
  {
  }

  lemma {:induction false} UpToShows(p: Paper, chosen: map<Field, Candidate>, n: Norms, k: nat, f: Field)
    requires k <= |LOGICAL_FIELDS| && f in chosen
    ensures var q := WrittenUpTo(p, chosen, n, k);
      Shows(q, f, chosen[f].value, n) <==>
        Shows(p, f, chosen[f].value, n) || (f in LOGICAL_FIELDS[..k] && Writable(f, chosen[f].value, n))
          || f.Publisher? || f.Legacy?
  {
    hide Written, Shows, Writable;
    if k == 0 {
      Unwritten(p, f, chosen[f].value, n);
    } else {
      UpToShows(p, chosen, n, k - 1, f);
      var g, before := LOGICAL_FIELDS[k - 1], WrittenUpTo(p, chosen, n, k - 1);
      DistinctFields(k - 1);
      if g in chosen {
        if g == f {
          WrittenShows(before, f, chosen[f].value, n);
        } else {
          OthersUntouched(before, g, chosen[g].value, f, chosen[f].value, n);
        }
      }
    }
  }

  lemma Unwritten(p: Paper, f: Field, value: string, n: Norms)
    ensures f.Publisher? || f.Legacy? ==> Shows(p, f, value, n)
  {
  }

  /** Every value can be written but a year that cannot be read or is out of range, and authors without a
      name. */
  predicate CanWrite(f: Field, value: string, n: Norms) {
    && (f.PublicationYear? ==> match n.year(n.strip(value)) case Some(y) => n.plausible(y) case None => false)
    && (f.Authors? ==> |n.names(value)| > 0)
  }

  predicate Takes(chosen: map<Field, Candidate>, f: Field, n: Norms) {
    f in chosen && CanWrite(f, chosen[f].value, n)
  }

  /** The paper p after the first k logical fields: a chosen value that can be written is there with its
      normalized form, and every other field is as before. */
  predicate FieldsAre(p: Paper, e: Paper, chosen: map<Field, Candidate>, n: Norms, k: nat) {
    && e.title == (if k > 0 && Takes(chosen, Title, n) then Some(n.strip(chosen[Title].value)) else p.title)
    && e.normalizedTitle == (if k > 0 && Takes(chosen, Title, n) then n.title(chosen[Title].value)
                             else p.normalizedTitle)
    && e.doi == (if k > 1 && Takes(chosen, Doi, n) then Some(n.strip(chosen[Doi].value)) else p.doi)
    && e.normalizedDoi == (if k > 1 && Takes(chosen, Doi, n) then n.doi(chosen[Doi].value) else p.normalizedDoi)
    && e.arxivId == (if k > 2 && Takes(chosen, ArxivId, n) then n.arxivId(chosen[ArxivId].value) else p.arxivId)
    && e.year == (if k > 3 && Takes(chosen, PublicationYear, n) then n.year(n.strip(chosen[PublicationYear].value))
                  else p.year)
    && e.venue == (if k > 4 && Takes(chosen, Venue, n) then Some(n.strip(chosen[Venue].value)) else p.venue)
    && e.abstractText == (if k > 5 && Takes(chosen, Abstract, n) then Some(n.strip(chosen[Abstract].value))
                          else p.abstractText)
    && AuthorNames(e.authors) == (if k > 6 && Takes(chosen, Authors, n) then n.names(chosen[Authors].value)
                                  else AuthorNames(p.authors))
  }

  /** Writing one field leaves all others. */
  lemma WrittenFields(p: Paper, f: Field, value: string, n: Norms)
    requires Logical(f)
    ensures var e, ok := Written(p, f, value, n), CanWrite(f, value, n);
      && e.title == (if f.Title? then Some(n.strip(value)) else p.title)
      && e.normalizedTitle == (if f.Title? then n.title(value) else p.normalizedTitle)
      && e.doi == (if f.Doi? then Some(n.strip(value)) else p.doi)
      && e.normalizedDoi == (if f.Doi? then n.doi(value) else p.normalizedDoi)
      && e.arxivId == (if f.ArxivId? then n.arxivId(value) else p.arxivId)
      && e.year == (if f.PublicationYear? && ok then n.year(n.strip(value)) else p.year)
      && e.venue == (if f.Venue? then Some(n.strip(value)) else p.venue)
      && e.abstractText == (if f.Abstract? then Some(n.strip(value)) else p.abstractText)
      && AuthorNames(e.authors) == (if f.Authors? && ok then n.names(value) else AuthorNames(p.authors))
  {
  }

  lemma FieldStep(p: Paper, before: Paper, chosen: map<Field, Candidate>, n: Norms, k: nat)
    requires 0 < k <= |LOGICAL_FIELDS| && FieldsAre(p, before, chosen, n, k - 1)
    ensures var f := LOGICAL_FIELDS[k - 1];
      FieldsAre(p, if f in chosen then Written(before, f, chosen[f].value, n) else before, chosen, n, k)
  {
    var f := LOGICAL_FIELDS[k - 1];
    FieldIndex(k);
    FieldsPlain(chosen, n);
    hide Written, CanWrite, Logical;
    if f in chosen {
      LogicalAt(k);
      WrittenFields(before, f, chosen[f].value, n);
    }
  }

  lemma LogicalAt(k: nat)
    requires 0 < k <= |LOGICAL_FIELDS|
    ensures Logical(LOGICAL_FIELDS[k - 1])
  {
  }

  lemma FieldIndex(k: nat)
    requires 0 < k <= |LOGICAL_FIELDS|
    ensures var f := LOGICAL_FIELDS[k - 1];
      && (f.Title? <==> k == 1) && (f.Doi? <==> k == 2) && (f.ArxivId? <==> k == 3) && (f.PublicationYear? <==> k == 4)
      && (f.Venue? <==> k == 5) && (f.Abstract? <==> k == 6) && (f.Authors? <==> k == 7) && (f.Publisher? <==> k == 8)
  {
  }

  lemma FieldsPlain(chosen: map<Field, Candidate>, n: Norms)
    ensures forall f :: f in chosen && !f.PublicationYear? && !f.Authors? ==> Takes(chosen, f, n)
    ensures forall f :: Takes(chosen, f, n) <==> f in chosen && CanWrite(f, chosen[f].value, n)
  {
  }

  lemma {:induction false} FieldsUpTo(p: Paper, chosen: map<Field, Candidate>, n: Norms, k: nat)
    requires k <= |LOGICAL_FIELDS|
    ensures FieldsAre(p, WrittenUpTo(p, chosen, n, k), chosen, n, k)
  {
    hide *;
    if k > 0 {
      FieldsUpTo(p, chosen, n, k - 1);
      FieldStep(p, WrittenUpTo(p, chosen, n, k - 1), chosen, n, k);
      UpToStep(p, chosen, n, k);
    } else {
      NoFields(p, chosen, n);
    }
  }

  lemma NoFields(p: Paper, chosen: map<Field, Candidate>, n: Norms)
    ensures FieldsAre(p, WrittenUpTo(p, chosen, n, 0), chosen, n, 0)
  {
  }

  lemma UpToStep(p: Paper, chosen: map<Field, Candidate>, n: Norms, k: nat)
    requires 0 < k <= |LOGICAL_FIELDS|
    ensures var before, f := WrittenUpTo(p, chosen, n, k - 1), LOGICAL_FIELDS[k - 1];
      WrittenUpTo(p, chosen, n, k) == if f in chosen then Written(before, f, chosen[f].value, n) else before
  {
  }

  /** Main result: the paper after materialization, field by field. */
  lemma MaterializedFields(p: Paper, chosen: map<Field, Candidate>, n: Norms)
    ensures FieldsAre(p, Materialized(p, chosen, n), chosen, n, 8)
  {
    FieldsUpTo(p, chosen, n, 8);
  }

  /** Main result: after materialization the paper shows the chosen value of a field exactly when the
      value can be written or was shown already. A year out of range, or authors that decode to no
      name, are selected but leave an older value in the paper. */
  lemma MaterializedShowsExactly(p: Paper, chosen: map<Field, Candidate>, n: Norms, f: Field)
    requires f in chosen && Logical(f) && !f.Publisher?
    ensures Shows(Materialized(p, chosen, n), f, chosen[f].value, n)
      <==> CanWrite(f, chosen[f].value, n) || Shows(p, f, chosen[f].value, n)
  {
    UpToShows(p, chosen, n, |LOGICAL_FIELDS|, f);
    assert LOGICAL_FIELDS[..|LOGICAL_FIELDS|] == LOGICAL_FIELDS;
  }

  /** The selected year and the paper's year can differ. */
  lemma ImplausibleYearDiverges(p: Paper, c: Candidate, n: Norms, year: int)
    requires c.field.PublicationYear? && n.year(n.strip(c.value)) == Some(year) && !n.plausible(year)
      && p.year != Some(year)
    ensures !Shows(Materialized(p, map[PublicationYear := c], n), PublicationYear, c.value, n)
  {
    MaterializedShowsExactly(p, map[PublicationYear := c], n, PublicationYear);
  }

  /** Author rows numbered from one without gaps. */
  predicate Numbered(rows: seq<AuthorRow>) { forall i :: 0 <= i < |rows| ==> rows[i].order == i + 1 }

  lemma {:induction false} AuthorsNumbered(p: Paper, chosen: map<Field, Candidate>, n: Norms, k: nat)
    requires k <= |LOGICAL_FIELDS| && Numbered(p.authors)
    ensures Numbered(WrittenUpTo(p, chosen, n, k).authors)
  {
    if k > 0 { AuthorsNumbered(p, chosen, n, k - 1); }
  }

  /** The paper's authors become the chosen names, in order, numbered from one. */
  lemma AuthorsInOrder(p: Paper, chosen: map<Field, Candidate>, n: Norms)
    requires Numbered(p.authors) && Authors in chosen && n.names(chosen[Authors].value) != []
    ensures Materialized(p, chosen, n).authors == AuthorRows(n.names(chosen[Authors].value))
  {
    MaterializedShowsExactly(p, chosen, n, Authors);
    AuthorsNumbered(p, chosen, n, |LOGICAL_FIELDS|);
    hide WrittenUpTo;
    var rows, names := Materialized(p, chosen, n).authors, n.names(chosen[Authors].value);
    forall i | 0 <= i < |rows| ensures rows[i] == AuthorRows(names)[i] {
      assert AuthorNames(rows)[i] == names[i];
    }
  }
}
