/** Which captions a structured block gets, for any blocks: the dictionary of captions and the lookups in it
    (src/transit_scholar/layer2/chunker.py:103-132). */
module CaptionLookup {
  import opened Prelude
  import opened Schema
  import opened Units

  predicate DistinctIds(dict: seq<Block>) { forall i, j :: 0 <= i < j < |dict| ==> dict[i].id != dict[j].id }

  /** c is the last caption of its id. */
  ghost predicate LastOfId(blocks: seq<Block>, c: Block) {
    exists k :: 0 <= k < |blocks| && blocks[k] == c && c.kind.Caption?
      && forall l :: k < l < |blocks| && blocks[l].kind.Caption? ==> blocks[l].id != c.id
  }

  lemma {:induction false} PutExactly(dict: seq<Block>, b: Block)
    requires DistinctIds(dict)
    ensures DistinctIds(PutCaption(dict, b))
    ensures forall c :: c in PutCaption(dict, b) <==> c == b || (c in dict && c.id != b.id)
  {
    if dict != [] {
      var rest, all := dict[1..], PutCaption(dict, b);
      assert forall c :: c in dict <==> c == dict[0] || c in rest;
      if dict[0].id == b.id {
        forall c | c in rest ensures c.id != b.id {
          var j :| 0 <= j < |rest| && rest[j] == c;
          assert dict[j + 1] == c;
        }
      } else {
        PutExactly(rest, b);
        forall c | c in rest ensures c.id != dict[0].id {
          var j :| 0 <= j < |rest| && rest[j] == c;
          assert dict[j + 1] == c;
        }
        forall j | 0 < j < |all| ensures all[0].id != all[j].id {
          assert all[j] == PutCaption(rest, b)[j - 1];
          assert all[j] in PutCaption(rest, b);
        }
      }
    }
  }

  /** Main result: the dictionary has one entry for each caption id, and it is the last caption of that id. */
  lemma {:induction false} CaptionsExactly(blocks: seq<Block>)
    ensures DistinctIds(Captions(blocks))
    ensures forall c :: c in Captions(blocks) <==> LastOfId(blocks, c)
  {
    if blocks != [] {
      var n := |blocks| - 1;
      CaptionsExactly(blocks[..n]);
      PutExactly(Captions(blocks[..n]), blocks[n]);
      forall c ensures LastOfId(blocks, c) <==>
        if blocks[n].kind.Caption? then c == blocks[n] || (LastOfId(blocks[..n], c) && c.id != blocks[n].id)
        else LastOfId(blocks[..n], c)
      {
        LastStep(blocks, c);
      }
    }
  }

  lemma LastStep(blocks: seq<Block>, c: Block)
    requires blocks != []
    ensures var n := |blocks| - 1;
      LastOfId(blocks, c) <==>
        if blocks[n].kind.Caption? then c == blocks[n] || (LastOfId(blocks[..n], c) && c.id != blocks[n].id)
        else LastOfId(blocks[..n], c)
  {
    var n := |blocks| - 1;
    var before := blocks[..n];
    if LastOfId(blocks, c) {
      var k :| 0 <= k < |blocks| && blocks[k] == c && c.kind.Caption?
        && forall l :: k < l < |blocks| && blocks[l].kind.Caption? ==> blocks[l].id != c.id;
      if k < n { assert before[k] == c; }
    }
    if LastOfId(before, c) {
      var k :| 0 <= k < |before| && before[k] == c && c.kind.Caption?
        && forall l :: k < l < |before| && before[l].kind.Caption? ==> before[l].id != c.id;
      assert blocks[k] == c;
      assert forall l :: k < l < n ==> blocks[l] == before[l];
    }
    if blocks[n] == c && c.kind.Caption? { assert LastOfId(blocks, c); }
  }

  // ------------------------------------------------------------ the captions of one block

  lemma {:induction false} LookupExactly(dict: seq<Block>, id: nat)
    requires DistinctIds(dict)
    ensures forall c :: c in Lookup(dict, id) <==> c in dict && c.id == id
  {
    if dict != [] {
      assert forall c :: c in dict <==> c == dict[0] || c in dict[1..];
      if dict[0].id == id {
        forall c | c in dict[1..] ensures c.id != id {
          var j :| 0 <= j < |dict[1..]| && dict[1..][j] == c;
          assert dict[j + 1] == c;
        }
      } else {
        LookupExactly(dict[1..], id);
      }
    }
  }

  lemma {:induction false} ListedExactly(dict: seq<Block>, ids: seq<nat>)
    requires DistinctIds(dict)
    ensures forall c :: c in Listed(dict, ids) <==> c in dict && c.id in ids
  {
    if ids != [] {
      LookupExactly(dict, ids[0]);
      ListedExactly(dict, ids[1..]);
    }
  }

  lemma {:induction false} ClaimingExactly(dict: seq<Block>, id: nat)
    ensures forall c :: c in Claiming(dict, id) <==> c in dict && c.parentId == Some(id)
  {
    if dict != [] { ClaimingExactly(dict[1..], id); }
  }

  predicate ByOrder(bs: seq<Block>) { forall i, j :: 0 <= i < j < |bs| ==> bs[i].order <= bs[j].order }

  lemma {:induction false} InsertOne(sorted: seq<Block>, b: Block)
    ensures multiset(InsertByOrder(sorted, b)) == multiset(sorted) + multiset{b}
  {
    if sorted != [] && !(b.order < sorted[0].order) {
      InsertOne(sorted[1..], b);
      assert sorted == [sorted[0]] + sorted[1..];
    }
  }

  lemma {:induction false} InsertOrdered(sorted: seq<Block>, b: Block)
    requires ByOrder(sorted)
    ensures ByOrder(InsertByOrder(sorted, b))
  {
    if sorted != [] && !(b.order < sorted[0].order) {
      var rest := InsertByOrder(sorted[1..], b);
      InsertOrdered(sorted[1..], b);
      InsertOne(sorted[1..], b);
      hide InsertByOrder;
      forall j | 0 <= j < |rest| ensures sorted[0].order <= rest[j].order {
        assert rest[j] in multiset(rest);
        assert rest[j] == b || rest[j] in sorted[1..];
      }
    }
  }

  lemma InsertExactly(sorted: seq<Block>, b: Block)
    requires ByOrder(sorted)
    ensures ByOrder(InsertByOrder(sorted, b))
    ensures multiset(InsertByOrder(sorted, b)) == multiset(sorted) + multiset{b}
  {
    InsertOne(sorted, b);
    InsertOrdered(sorted, b);
  }

  lemma {:induction false} SortedExactly(bs: seq<Block>)
    ensures ByOrder(SortByOrder(bs)) && multiset(SortByOrder(bs)) == multiset(bs)
  {
    if bs != [] {
      var n := |bs| - 1;
      SortedExactly(bs[..n]);
      InsertExactly(SortByOrder(bs[..n]), bs[n]);
      assert bs == bs[..n] + [bs[n]];
    }
  }

  /** The captions of one position, in the order in which they stand. */
  function AtPosition(bs: seq<Block>, order: nat): seq<Block> {
    if bs == [] then [] else (if bs[0].order == order then [bs[0]] else []) + AtPosition(bs[1..], order)
  }

  lemma {:induction false} NoneAtPosition(bs: seq<Block>, order: nat)
    requires forall b <- bs :: b.order != order
    ensures AtPosition(bs, order) == []
  {
    if bs != [] { NoneAtPosition(bs[1..], order); }
  }

  lemma {:induction false} PositionSnoc(bs: seq<Block>, b: Block, order: nat)
    ensures AtPosition(bs + [b], order) == AtPosition(bs, order) + (if b.order == order then [b] else [])
  {
    if bs == [] {
      assert (bs + [b])[1..] == [];
    } else {
      assert (bs + [b])[1..] == bs[1..] + [b];
      PositionSnoc(bs[1..], b, order);
    }
  }

  lemma {:induction false} InsertStable(sorted: seq<Block>, b: Block, order: nat)
    requires ByOrder(sorted)
    ensures AtPosition(InsertByOrder(sorted, b), order)
      == AtPosition(sorted, order) + (if b.order == order then [b] else [])
  {
    var all := InsertByOrder(sorted, b);
    if sorted == [] || b.order < sorted[0].order {
      assert all[1..] == sorted;
      if b.order == order { NoneAtPosition(sorted, order); }
    } else {
      assert all[1..] == InsertByOrder(sorted[1..], b);
      InsertStable(sorted[1..], b, order);
    }
  }

  /** Captions of the same position keep the order in which they were found. */
  lemma {:induction false} SortStable(bs: seq<Block>, order: nat)
    ensures AtPosition(SortByOrder(bs), order) == AtPosition(bs, order)
  {
    if bs != [] {
      var n := |bs| - 1;
      SortStable(bs[..n], order);
      SortedExactly(bs[..n]);
      InsertStable(SortByOrder(bs[..n]), bs[n], order);
      PositionSnoc(bs[..n], bs[n], order);
      assert bs == bs[..n] + [bs[n]];
    }
  }

  /** Main result: a block gets the captions it lists, as far as there are any, and otherwise those that name it
      as their parent, by reading order. */
  lemma ChildrenExactly(b: Block, dict: seq<Block>)
    requires DistinctIds(dict)
    ensures ByOrder(Children(b, dict))
    ensures var listed := exists c :: c in dict && c.id in b.captionIds;
      forall c :: c in Children(b, dict) <==>
        c in dict && (if listed then c.id in b.captionIds else c.parentId == Some(b.id))
  {
    var listed := Listed(dict, b.captionIds);
    ListedExactly(dict, b.captionIds);
    ClaimingExactly(dict, b.id);
    var chosen := if listed == [] then Claiming(dict, b.id) else listed;
    SortedExactly(chosen);
    assert listed != [] ==> listed[0] in dict && listed[0].id in b.captionIds;
    forall c ensures c in SortByOrder(chosen) <==> c in chosen {
      assert c in multiset(SortByOrder(chosen)) <==> c in multiset(chosen);
    }
  }
}
