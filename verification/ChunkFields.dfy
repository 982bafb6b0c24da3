/** The fields a chunk collects from its units: pages, types, captions and the row range
    (src/transit_scholar/layer2/chunker.py:281-340). */
module ChunkFields {
  import opened Prelude
  import opened TokenCounter
  import opened Schema
  import opened Units
  import opened Trimming
  import opened Chunker

  /** ds are the distinct values of xs in the order of their first occurrence. */
  predicate FirstsOf<T(==)>(xs: seq<T>, ds: seq<T>) {
    && (forall x <- xs :: x in ds) && (forall x <- ds :: x in xs)
    && forall i, j :: 0 <= i < j < |ds| ==> ds[i] != ds[j] && Earlier(xs, ds[i], ds[j])
  }

  /** x occurs before any y. */
  predicate Earlier<T(==)>(xs: seq<T>, x: T, y: T) { exists p :: 0 <= p < |xs| && xs[p] == x && y !in xs[..p] }

  lemma EarlierLonger<T>(xs: seq<T>, more: seq<T>, x: T, y: T)
    requires Earlier(xs, x, y) && xs <= more
    ensures Earlier(more, x, y)
  {
    var p :| 0 <= p < |xs| && xs[p] == x && y !in xs[..p];
    assert more[p] == x && more[..p] == xs[..p];
  }

  lemma {:induction false} DistinctExactly<T>(xs: seq<T>)
    ensures FirstsOf(xs, Distinct(xs))
  {
    if xs != [] {
      var n, x := |xs| - 1, xs[|xs| - 1];
      var before, all := Distinct(xs[..n]), Distinct(xs);
      DistinctExactly(xs[..n]);
      assert forall y :: y in xs <==> y in xs[..n] || y == x;
      forall i, j | 0 <= i < j < |all| ensures all[i] != all[j] && Earlier(xs, all[i], all[j]) {
        if j < |before| {
          EarlierLonger(xs[..n], xs, before[i], before[j]);
        } else {
          assert before[i] in xs[..n];
          var p :| 0 <= p < n && xs[..n][p] == before[i];
          assert xs[p] == before[i] && x !in xs[..p];
        }
      }
    }
  }

  // ------------------------------------------------------------ what the units say

  lemma {:induction false} KindsSnoc(units: seq<Unit>, u: Unit)
    ensures AllKinds(units + [u]) == AllKinds(units) + u.types
  {
    if units == [] {
      assert (units + [u])[1..] == [];
    } else {
      assert (units + [u])[1..] == units[1..] + [u];
      KindsSnoc(units[1..], u);
    }
  }

  lemma {:induction false} BlocksSnoc(units: seq<Unit>, u: Unit)
    ensures AllBlocks(units + [u]) == AllBlocks(units) + u.blocks
  {
    if units == [] {
      assert (units + [u])[1..] == [];
    } else {
      assert (units + [u])[1..] == units[1..] + [u];
      BlocksSnoc(units[1..], u);
    }
  }

  lemma RowsCons(units: seq<Unit>)
    requires units != []
    ensures AllRows(units) == (if units[0].rows.Some? then [units[0].rows.value] else []) + AllRows(units[1..])
  {
  }

  lemma {:induction false} RowsSnoc(units: seq<Unit>, u: Unit)
    ensures AllRows(units + [u]) == AllRows(units) + (if u.rows.Some? then [u.rows.value] else [])
  {
    if units == [] {
      assert (units + [u])[1..] == [];
    } else {
      assert (units + [u])[1..] == units[1..] + [u];
      RowsSnoc(units[1..], u);
      RowsCons(units + [u]);
      RowsCons(units);
    }
  }

  lemma {:induction false} CaptionsSnoc(units: seq<Unit>, u: Unit)
    ensures AllCaptions(units + [u])
      == AllCaptions(units) + (if u.caption.Some? && u.caption.value != "" then [u.caption.value] else [])
  {
    if units == [] {
      assert (units + [u])[1..] == [];
    } else {
      assert (units + [u])[1..] == units[1..] + [u];
      CaptionsSnoc(units[1..], u);
    }
  }

  /** The values every unit adds, in the order of the units. */
  lemma UnitValues(units: seq<Unit>, u: Unit)
    ensures AllKinds([]) == [] && AllKinds(units + [u]) == AllKinds(units) + u.types
    ensures AllBlocks([]) == [] && AllBlocks(units + [u]) == AllBlocks(units) + u.blocks
    ensures AllRows([]) == []
    ensures AllRows(units + [u]) == AllRows(units) + (match u.rows case Some(r) => [r] case None => [])
    ensures AllCaptions([]) == [] && AllCaptions(units + [u])
      == AllCaptions(units) + (match u.caption case Some(t) => (if |t| > 0 then [t] else []) case None => [])
  {
    KindsSnoc(units, u);
    BlocksSnoc(units, u);
    RowsSnoc(units, u);
    CaptionsSnoc(units, u);
  }

  lemma {:induction false} PagesExactly(blocks: seq<Block>, page: int)
    ensures page in PagesOf(blocks) <==> exists b :: b in blocks && page in b.pages
  {
    if blocks != [] {
      PagesExactly(blocks[1..], page);
      assert forall b :: b in blocks <==> b == blocks[0] || b in blocks[1..];
    }
  }

  /** Main result: everything a chunk records besides its text, also when the guard trims the text. */
  lemma FieldsExactly(units: seq<Unit>, id: nat, f: Frame)
    requires units != []
    ensures var c := Assemble(units, id, f);
      && c.id == id && c.section == f.section && c.sectionPath == f.path && c.version == f.config.version
      && (forall page :: page in c.pages <==> exists b :: b in AllBlocks(units) && page in b.pages)
      && FirstsOf(AllKinds(units), c.types)
      && (c.rows == if AllRows(units) == [] then None
                    else Some(RowRange(AllRows(units)[0].start, AllRows(units)[|AllRows(units)| - 1].end)))
      && (AllCaptions(units) == [] ==> c.caption.None?)
      && (AllCaptions(units) != [] ==>
          exists texts :: FirstsOf(AllCaptions(units), texts) && c.caption == Some(Join("\n\n", texts)))
      && c.text == (if c.prefix == "" then c.body else c.prefix + "\n\n" + c.body)
  {
    hide Chunker.Content, PagesOf, AllKinds, AllRows, AllCaptions, AllBlocks, Distinct, FirstsOf, Join, Tokens;
    forall page ensures page in PagesOf(AllBlocks(units)) <==> exists b :: b in AllBlocks(units) && page in b.pages {
      PagesExactly(AllBlocks(units), page);
    }
    DistinctExactly(AllKinds(units));
    DistinctExactly(AllCaptions(units));
  }
}
