/** Captions linked by the normalizer are bound by the chunker: inside one section, the units'
    blocks are the section's blocks with only the parentless captions moved to the end. */
module CaptionBinding {
  import opened Prelude
  import opened Schema
  import opened Units
  import opened Normalizer
  import opened Chunker
  import opened ChunkGuarantees

  function Run(seg: seq<Block>, j: nat): seq<Block>
    requires j < |seg|
  {
    seg[j + 1..RunEnd(seg, j + 1)]
  }

  predicate OrdersIncrease(bs: seq<Block>) { forall i, j :: 0 <= i < j < |bs| ==> bs[i].order < bs[j].order }

  /** The relations of block i name exactly its neighbours in the segment. */
  predicate LinkOk(seg: seq<Block>, i: nat)
    requires i < |seg|
  {
    && (seg[i].kind.Caption? ==>
        seg[i].parentId == (match Owner(seg, i) case None => None case Some(j) => Some(seg[j].id)))
    && (IsStructured(seg[i].kind) ==> seg[i].captionIds == BlockIds(Run(seg, i)))
  }

  /** A stretch of blocks whose caption relations are complete in themselves. */
  predicate SelfLinked(seg: seq<Block>) {
    UniqueIds(seg) && OrdersIncrease(seg) && forall i :: 0 <= i < |seg| ==> LinkOk(seg, i)
  }

  // ------------------------------------------------------------ the dictionary of captions

  function CaptionList(bs: seq<Block>): seq<Block> {
    if bs == [] then []
    else CaptionList(bs[..|bs| - 1]) + (if bs[|bs| - 1].kind.Caption? then [bs[|bs| - 1]] else [])
  }

  lemma {:induction false} CaptionListInside(bs: seq<Block>)
    ensures forall x :: x in CaptionList(bs) <==> x in bs && x.kind.Caption?
  {
    if bs != [] {
      var n := |bs| - 1;
      CaptionListInside(bs[..n]);
      forall x ensures x in CaptionList(bs) <==> x in bs && x.kind.Caption? {
        assert x in bs <==> x in bs[..n] || x == bs[n];
      }
    }
  }

  lemma {:induction false} PutNew(dict: seq<Block>, b: Block)
    requires forall x <- dict :: x.id != b.id
    ensures PutCaption(dict, b) == dict + [b]
  {
    if dict != [] {
      assert dict[0] in dict;
      PutNew(dict[1..], b);
    }
  }

  lemma {:induction false} CaptionsAreList(bs: seq<Block>)
    requires UniqueIds(bs)
    ensures Captions(bs) == CaptionList(bs)
  {
    if bs != [] {
      var n := |bs| - 1;
      CaptionsAreList(bs[..n]);
      CaptionListInside(bs[..n]);
      forall x | x in CaptionList(bs[..n]) ensures x.id != bs[n].id {
        assert x in bs[..n];
        var k :| 0 <= k < n && bs[..n][k] == x;
        assert bs[k].id != bs[n].id;
      }
      PutNew(CaptionList(bs[..n]), bs[n]);
    }
  }

  lemma {:induction false} LookupFinds(dict: seq<Block>, b: Block)
    requires b in dict && forall x <- dict :: x.id == b.id ==> x == b
    ensures Lookup(dict, b.id) == [b]
  {
    if dict[0].id != b.id { LookupFinds(dict[1..], b); }
    else { assert dict[0] in dict; }
  }

  lemma {:induction false} ListedFinds(dict: seq<Block>, run: seq<Block>)
    requires forall b <- run :: b in dict && forall x <- dict :: x.id == b.id ==> x == b
    ensures Listed(dict, BlockIds(run)) == run
  {
    if run != [] {
      assert BlockIds(run)[0] == run[0].id && BlockIds(run)[1..] == BlockIds(run[1..]);
      assert run[0] in run;
      LookupFinds(dict, run[0]);
      ListedFinds(dict, run[1..]);
    }
  }

  lemma {:induction false} InsertLast(sorted: seq<Block>, b: Block)
    requires forall x <- sorted :: x.order < b.order
    ensures InsertByOrder(sorted, b) == sorted + [b]
  {
    if sorted != [] {
      assert sorted[0] in sorted;
      InsertLast(sorted[1..], b);
    }
  }

  lemma {:induction false} SortedStays(bs: seq<Block>)
    requires OrdersIncrease(bs)
    ensures SortByOrder(bs) == bs
  {
    if bs != [] {
      var n := |bs| - 1;
      SortedStays(bs[..n]);
      LastIsLargest(bs);
      InsertLast(bs[..n], bs[n]);
    }
  }

  lemma LastIsLargest(bs: seq<Block>)
    requires OrdersIncrease(bs) && bs != []
    ensures forall x <- bs[..|bs| - 1] :: x.order < bs[|bs| - 1].order
  {
    var n := |bs| - 1;
    forall x | x in bs[..n] ensures x.order < bs[n].order {
      var k :| 0 <= k < n && bs[..n][k] == x;
      assert bs[k].order < bs[n].order;
    }
  }

  // ------------------------------------------------------------ the children of a parent

  lemma SameIdSameBlock(seg: seq<Block>, x: Block, y: Block)
    requires UniqueIds(seg) && x in seg && y in seg && x.id == y.id
    ensures x == y
  {
    var i :| 0 <= i < |seg| && seg[i] == x;
    var j :| 0 <= j < |seg| && seg[j] == y;
    UniqueAt(seg, i, j);
  }

  lemma UniqueAt(seg: seq<Block>, i: nat, j: nat)
    requires UniqueIds(seg) && i < |seg| && j < |seg| && seg[i].id == seg[j].id
    ensures i == j
  {
  }

  lemma {:induction false} NobodyClaims(seg: seq<Block>, dict: seq<Block>, j: nat)
    requires SelfLinked(seg) && j < |seg| && IsStructured(seg[j].kind) && Run(seg, j) == []
    requires forall x <- dict :: x in seg && x.kind.Caption?
    ensures Claiming(dict, seg[j].id) == []
  {
    if dict != [] {
      NobodyClaims(seg, dict[1..], j);
      var c := dict[0];
      assert c in dict;
      var i :| 0 <= i < |seg| && seg[i] == c;
      assert LinkOk(seg, i);
      if c.parentId == Some(seg[j].id) {
        var o := Owner(seg, i).value;
        UniqueAt(seg, o, j);
        OwnerRuns(seg, i, j);
      }
    }
  }

  lemma RunInDict(seg: seq<Block>, j: nat, dict: seq<Block>)
    requires UniqueIds(seg) && j < |seg| && forall x :: x in dict <==> x in seg && x.kind.Caption?
    ensures forall b <- Run(seg, j) :: b in dict && forall x <- dict :: x.id == b.id ==> x == b
  {
    var run := Run(seg, j);
    forall b | b in run ensures b in dict && forall x <- dict :: x.id == b.id ==> x == b {
      var k :| 0 <= k < |run| && run[k] == b;
      assert seg[j + 1 + k] == b && b in seg;
      forall x | x in dict && x.id == b.id ensures x == b { SameIdSameBlock(seg, x, b); }
    }
  }

  lemma ChildrenAreRun(seg: seq<Block>, j: nat)
    requires SelfLinked(seg) && j < |seg| && IsStructured(seg[j].kind)
    ensures Children(seg[j], Captions(seg)) == Run(seg, j)
  {
    var run, dict := Run(seg, j), Captions(seg);
    assert LinkOk(seg, j);
    CaptionsAreList(seg);
    CaptionListInside(seg);
    RunInDict(seg, j, dict);
    hide SortByOrder, Captions;
    ListedFinds(dict, run);
    if run == [] { NobodyClaims(seg, dict, j); }
    SortedStays(run);
  }

  lemma {:induction false} ChildrenByIdAt(bs: seq<Block>, dict: seq<Block>, j: nat)
    requires UniqueIds(bs) && j < |bs| && IsStructured(bs[j].kind)
    ensures bs[j].id in ChildrenById(bs, dict) && ChildrenById(bs, dict)[bs[j].id] == Children(bs[j], dict)
  {
    if j < |bs| - 1 { ChildrenByIdAt(bs[..|bs| - 1], dict, j); }
  }

  lemma BoundChildren(seg: seq<Block>, j: nat)
    requires SelfLinked(seg) && j < |seg| && IsStructured(seg[j].kind)
    ensures ChildrenOf(seg[j], ChildrenById(seg, Captions(seg))) == Run(seg, j)
  {
    ChildrenAreRun(seg, j);
    ChildrenByIdAt(seg, Captions(seg), j);
  }

  // ------------------------------------------------------------ the blocks of all units

  /** A caption without a parent in the segment. */
  predicate Loose(seg: seq<Block>, i: nat)
    requires i < |seg|
  {
    seg[i].kind.Caption? && Owner(seg, i).None?
  }

  /** The first n blocks without the parentless captions. */
  function Attached(seg: seq<Block>, n: nat): seq<Block>
    requires n <= |seg|
  {
    if n == 0 then [] else Attached(seg, n - 1) + (if Loose(seg, n - 1) then [] else [seg[n - 1]])
  }

  function LooseOnes(seg: seq<Block>, n: nat): seq<Block>
    requires n <= |seg|
  {
    if n == 0 then [] else LooseOnes(seg, n - 1) + (if Loose(seg, n - 1) then [seg[n - 1]] else [])
  }

  /** How far the units of the first n blocks reach: over the captions of the last of them. */
  function Reach(seg: seq<Block>, n: nat): nat
    requires n <= |seg|
  {
    if Owner(seg, n).Some? then RunEnd(seg, n) else n
  }

  lemma {:induction false} AttachedRun(seg: seq<Block>, n: nat, m: nat)
    requires n <= m <= |seg|
    requires forall k :: n <= k < m ==> !Loose(seg, k)
    ensures Attached(seg, m) == Attached(seg, n) + seg[n..m]
    decreases m - n
  {
    if n < m {
      AttachedRun(seg, n, m - 1);
      assert seg[n..m] == seg[n..m - 1] + [seg[m - 1]];
    }
  }

  lemma {:induction false} OwnerPersists(seg: seq<Block>, n: nat, m: nat)
    requires n <= m <= |seg| && forall k :: n <= k < m ==> seg[k].kind.Caption?
    ensures Owner(seg, m) == Owner(seg, n)
    decreases m - n
  {
    if n < m { OwnerPersists(seg, n, m - 1); }
  }

  lemma AllBlocksSnoc(units: seq<Unit>, u: Unit)
    ensures AllBlocks(units + [u]) == AllBlocks(units) + u.blocks
    decreases |units|
  {
    if units == [] {
      assert AllBlocks([u]) == u.blocks + AllBlocks([u][1..]);
      assert units + [u] == [u];
    } else {
      assert (units + [u])[1..] == units[1..] + [u];
      AllBlocksSnoc(units[1..], u);
    }
  }

  /** The structured block at n brings its captions with it. */
  lemma StructuredReach(seg: seq<Block>, n: nat)
    requires n < |seg| && IsStructured(seg[n].kind)
    ensures Attached(seg, Reach(seg, n + 1)) == Attached(seg, n) + ([seg[n]] + Run(seg, n))
  {
    var e := RunEnd(seg, n + 1);
    forall k | n <= k < e ensures !Loose(seg, k) {
      if k > n { OwnerPersists(seg, n + 1, k); }
    }
    AttachedRun(seg, n, e);
    assert seg[n..e] == [seg[n]] + seg[n + 1..e];
  }

  lemma {:induction false} MainBlocks(seg: seq<Block>, n: nat)
    requires SelfLinked(seg) && n <= |seg|
    ensures AllBlocks(MainUnits(seg[..n], ChildrenById(seg, Captions(seg)))) == Attached(seg, Reach(seg, n))
  {
    var children := ChildrenById(seg, Captions(seg));
    hide ChildrenById, Captions, SelfLinked, StructuredUnit, TextUnit;
    if n > 0 {
      var m := n - 1;
      MainBlocks(seg, m);
      assert seg[..n][..m] == seg[..m];
      var before := MainUnits(seg[..m], children);
      if seg[m].kind.Caption? {
        CaptionReach(seg, m);
      } else if IsStructured(seg[m].kind) {
        BoundChildren(seg, m);
        StructuredNoRows(seg[m], Run(seg, m));
        AllBlocksSnoc(before, StructuredUnit(seg[m], Run(seg, m)));
        StructuredReach(seg, m);
        RestReach(seg, m);
      } else {
        TextNoRows(seg[m]);
        AllBlocksSnoc(before, TextUnit(seg[m]));
        RestReach(seg, m);
      }
    }
  }

  lemma RestReach(seg: seq<Block>, m: nat)
    requires m < |seg| && !seg[m].kind.Caption?
    ensures Reach(seg, m) == m
    ensures !IsStructured(seg[m].kind) ==> Attached(seg, Reach(seg, m + 1)) == Attached(seg, m) + [seg[m]]
  {
  }

  lemma CaptionReach(seg: seq<Block>, m: nat)
    requires m < |seg| && seg[m].kind.Caption?
    ensures Attached(seg, Reach(seg, m + 1)) == Attached(seg, Reach(seg, m))
  {
  }

  // ------------------------------------------------------------ the parentless captions

  lemma {:induction false} BoundIdsAre(seg: seq<Block>, n: nat, i: nat)
    requires SelfLinked(seg) && n <= |seg| && i < |seg| && seg[i].kind.Caption?
    ensures seg[i].id in BoundIds(seg[..n], ChildrenById(seg, Captions(seg)))
      <==> Owner(seg, i).Some? && Owner(seg, i).value < n
  {
    var children := ChildrenById(seg, Captions(seg));
    hide ChildrenById, Captions;
    if n > 0 {
      var m := n - 1;
      BoundIdsAre(seg, m, i);
      assert seg[..n][..m] == seg[..m];
      if IsStructured(seg[m].kind) {
        BoundChildren(seg, m);
        RunIds(seg, m, i);
      } else if Owner(seg, i).Some? {
        assert Owner(seg, i).value != m;
      }
    }
  }

  lemma OwnedInRun(seg: seq<Block>, m: nat, i: nat)
    requires m < i < |seg| && IsStructured(seg[m].kind) && seg[i].kind.Caption? && Owner(seg, i) == Some(m)
    ensures seg[i] in Run(seg, m)
  {
    hide Owner;
    OwnerRuns(seg, i, m);
    assert i < RunEnd(seg, m + 1);
    assert Run(seg, m)[i - (m + 1)] == seg[i];
  }

  lemma InRunOwned(seg: seq<Block>, m: nat, i: nat)
    requires UniqueIds(seg) && m < |seg| && IsStructured(seg[m].kind) && i < |seg|
    requires seg[i].id in Ids(Run(seg, m))
    ensures Owner(seg, i) == Some(m)
  {
    hide Owner;
    var run := Run(seg, m);
    var b :| b in run && b.id == seg[i].id;
    var k :| 0 <= k < |run| && run[k] == b;
    var p := m + 1 + k;
    UniqueAt(seg, p, i);
    OwnerRuns(seg, i, m);
  }

  lemma RunIds(seg: seq<Block>, m: nat, i: nat)
    requires UniqueIds(seg) && m < |seg| && IsStructured(seg[m].kind) && i < |seg| && seg[i].kind.Caption?
    ensures seg[i].id in Ids(Run(seg, m)) <==> Owner(seg, i) == Some(m)
  {
    hide Run, UniqueIds;
    if Owner(seg, i) == Some(m) { OwnedInRun(seg, m, i); }
    if seg[i].id in Ids(Run(seg, m)) { InRunOwned(seg, m, i); }
  }

  lemma {:induction false} LooseBlocks(seg: seq<Block>, n: nat, bound: set<nat>)
    requires n <= |seg|
    requires forall i :: 0 <= i < |seg| && seg[i].kind.Caption? ==> (seg[i].id in bound <==> Owner(seg, i).Some?)
    ensures AllBlocks(LooseCaptions(seg[..n], bound)) == LooseOnes(seg, n)
  {
    hide TextUnit;
    if n > 0 {
      LooseBlocks(seg, n - 1, bound);
      assert seg[..n][..n - 1] == seg[..n - 1];
      TextNoRows(seg[n - 1]);
      var before := LooseCaptions(seg[..n - 1], bound);
      AllBlocksSnoc(before, TextUnit(seg[n - 1]));
      if Loose(seg, n - 1) {
        assert LooseCaptions(seg[..n], bound) == before + [TextUnit(seg[n - 1])];
      } else {
        assert LooseCaptions(seg[..n], bound) == before + [] == before;
      }
    }
  }

  lemma AllBlocksAppend(a: seq<Unit>, b: seq<Unit>)
    ensures AllBlocks(a + b) == AllBlocks(a) + AllBlocks(b)
    decreases |a|
  {
    if a == [] {
      assert a + b == b;
    } else {
      assert (a + b)[1..] == a[1..] + b;
      AllBlocksAppend(a[1..], b);
    }
  }

  /** The blocks of the units: all attached blocks in reading order, then the parentless captions. */
  lemma UnitBlocks(seg: seq<Block>)
    requires SelfLinked(seg)
    ensures AllBlocks(BuildUnits(seg)) == Attached(seg, |seg|) + LooseOnes(seg, |seg|)
  {
    var children := ChildrenById(seg, Captions(seg));
    var bound := BoundIds(seg, children);
    hide ChildrenById, Captions, Loose;
    assert seg[..|seg|] == seg;
    MainBlocks(seg, |seg|);
    ReachAtEnd(seg);
    forall i | 0 <= i < |seg| && seg[i].kind.Caption? ensures seg[i].id in bound <==> Owner(seg, i).Some? {
      BoundIdsAre(seg, |seg|, i);
    }
    LooseBlocks(seg, |seg|, bound);
    AllBlocksAppend(MainUnits(seg, children), LooseCaptions(seg, bound));
  }

  lemma ReachAtEnd(seg: seq<Block>)
    ensures Reach(seg, |seg|) == |seg|
  {
  }

  lemma MultisetSnoc<T>(a: seq<T>, b: seq<T>, all: seq<T>, x: T)
    requires multiset(a) + multiset(b) == multiset(all)
    ensures multiset(a + [x]) + multiset(b) == multiset(all + [x])
    ensures multiset(a) + multiset(b + [x]) == multiset(all + [x])
  {
  }

  lemma AttachedStep(seg: seq<Block>, n: nat)
    requires 0 < n <= |seg|
    ensures Loose(seg, n - 1) ==>
      Attached(seg, n) == Attached(seg, n - 1) && LooseOnes(seg, n) == LooseOnes(seg, n - 1) + [seg[n - 1]]
    ensures !Loose(seg, n - 1) ==>
      Attached(seg, n) == Attached(seg, n - 1) + [seg[n - 1]] && LooseOnes(seg, n) == LooseOnes(seg, n - 1)
    ensures seg[..n] == seg[..n - 1] + [seg[n - 1]]
  {
    hide Loose;
  }

  lemma NoneAttached(seg: seq<Block>)
    ensures multiset(Attached(seg, 0)) + multiset(LooseOnes(seg, 0)) == multiset(seg[..0])
  {
  }

  lemma {:induction false} AttachedPlusLoose(seg: seq<Block>, n: nat)
    requires n <= |seg|
    ensures multiset(Attached(seg, n)) + multiset(LooseOnes(seg, n)) == multiset(seg[..n])
  {
    hide Loose, Attached, LooseOnes;
    if n == 0 {
      NoneAttached(seg);
    } else {
      AttachedPlusLoose(seg, n - 1);
      AttachedStep(seg, n);
      MultisetSnoc(Attached(seg, n - 1), LooseOnes(seg, n - 1), seg[..n - 1], seg[n - 1]);
    }
  }

  /** Every block of the section lands in exactly one unit. */
  lemma EveryBlockInOneUnit(seg: seq<Block>)
    requires SelfLinked(seg)
    ensures multiset(AllBlocks(BuildUnits(seg))) == multiset(seg)
  {
    UnitBlocks(seg);
    AttachedPlusLoose(seg, |seg|);
    assert seg[..|seg|] == seg;
  }
}
