/** The assembly-time guard: trimming a unit, dropping tail units and shortening the context prefix
    (`_effective_prefix`, `_trim_assembled`, `_trim_unit_text`). */
module Trimming {
  import opened Prelude
  import opened TokenCounter
  import opened Schema
  import opened Units

  const ARROW := " > "

  lemma SeparatorsAreNeutral()
    ensures forall c <- GAP :: IsNeutral(c) && !IsCjk(c)
    ensures forall c <- ARROW :: IsNeutral(c) && !IsCjk(c)
  {
  }

  // ------------------------------------------------------------ the longest fitting prefix

  /** The longest prefix of t (of at most n characters) with at most `budget` tokens. */
  function LongestFitting(t: string, n: nat, budget: nat): (k: nat)
    requires n <= |t|
    ensures k <= n && Tokens(t[..k]) <= budget
    ensures forall m :: k < m <= n ==> Tokens(t[..m]) > budget
  {
    if Tokens(t[..n]) <= budget then n
    else
      AtMostLength(t[..0]);
      LongestFitting(t, n - 1, budget)
  }

  /** The binary search finds it because the token count is monotone over prefixes. */
  method SearchPrefix(t: string, budget: nat) returns (lo: nat)
    ensures lo == LongestFitting(t, |t|, budget)
  {
    var hi: nat := |t|;
    lo := 0;
    AtMostLength(t[..0]);
    while lo < hi
      invariant lo <= hi <= |t|
      invariant Tokens(t[..lo]) <= budget
      invariant forall m :: hi < m <= |t| ==> Tokens(t[..m]) > budget
    {
      var mid := (lo + hi + 1) / 2;
      var n := CountTokens(t[..mid]);
      if n <= budget {
        lo := mid;
      } else {
        forall m | mid - 1 < m <= |t| ensures Tokens(t[..m]) > budget {
          PrefixMonotone(t, mid, m);
        }
        hi := mid - 1;
      }
    }
  }

  // ------------------------------------------------------------ trimming one unit

  /** How many leading characters of which blocks survive a budget of `remaining` tokens. */
  function Kept(blocks: seq<Block>, remaining: nat): seq<(Block, nat)> {
    if blocks == [] then []
    else
      var text := BlockText(blocks[0]);
      if text == "" then Kept(blocks[1..], remaining)
      else if Tokens(text) <= remaining then [(blocks[0], |text|)] + Kept(blocks[1..], remaining - Tokens(text))
      else Partial(blocks[0], remaining)
  }

  /** The part of a block that does not fit as a whole. */
  function Partial(b: Block, remaining: nat): seq<(Block, nat)> {
    var text := BlockText(b);
    if remaining == 0 then []
    else
      var lo := LongestFitting(text, |text|, remaining);
      if lo > 0 then [(b, lo)] else []
  }

  predicate KeptInRange(kept: seq<(Block, nat)>) {
    forall i :: 0 <= i < |kept| ==> kept[i].1 <= |BlockText(kept[i].0)|
  }

  lemma {:induction false} KeptTokens(blocks: seq<Block>, remaining: nat)
    ensures KeptInRange(Kept(blocks, remaining))
    ensures SumTokens(KeptTexts(Kept(blocks, remaining))) <= remaining
  {
    hide Tokens, BlockText, Partial, SumTokens, KeptTexts, KeptInRange;
    if blocks == [] {
      NothingKept();
    } else {
      var b, rest := blocks[0], blocks[1..];
      var text := BlockText(b);
      if text == "" {
        KeptTokens(rest, remaining);
      } else if Tokens(text) <= remaining {
        KeptTokens(rest, remaining - Tokens(text));
        KeptCons(b, Kept(rest, remaining - Tokens(text)));
        assert Kept(blocks, remaining) == [(b, |text|)] + Kept(rest, remaining - Tokens(text));
      } else {
        PartialSound(b, remaining);
      }
    }
  }

  lemma NothingKept()
    ensures KeptInRange([]) && SumTokens(KeptTexts([])) == 0
  {
  }

  lemma {:induction false} KeptInside(blocks: seq<Block>, remaining: nat)
    ensures forall i :: 0 <= i < |Kept(blocks, remaining)| ==> Kept(blocks, remaining)[i].0 in blocks
  {
    if blocks != [] {
      hide Tokens, BlockText, Partial;
      var text := BlockText(blocks[0]);
      if text == "" {
        KeptInside(blocks[1..], remaining);
      } else if Tokens(text) <= remaining {
        KeptInside(blocks[1..], remaining - Tokens(text));
      } else {
        PartialSound(blocks[0], remaining);
      }
    }
  }

  lemma KeptSound(blocks: seq<Block>, remaining: nat)
    ensures KeptInRange(Kept(blocks, remaining))
    ensures forall i :: 0 <= i < |Kept(blocks, remaining)| ==> Kept(blocks, remaining)[i].0 in blocks
    ensures SumTokens(KeptTexts(Kept(blocks, remaining))) <= remaining
  {
    KeptTokens(blocks, remaining);
    KeptInside(blocks, remaining);
  }

  lemma KeptCons(b: Block, kept: seq<(Block, nat)>)
    requires KeptInRange(kept)
    ensures var all: seq<(Block, nat)> := [(b, |BlockText(b)|)] + kept;
      KeptInRange(all) && SumTokens(KeptTexts(all)) == Tokens(BlockText(b)) + SumTokens(KeptTexts(kept))
  {
    var all: seq<(Block, nat)> := [(b, |BlockText(b)|)] + kept;
    assert KeptTexts(all)[1..] == KeptTexts(kept);
    assert BlockText(b)[..|BlockText(b)|] == BlockText(b);
  }

  lemma PartialSound(b: Block, remaining: nat)
    ensures KeptInRange(Partial(b, remaining)) && SumTokens(KeptTexts(Partial(b, remaining))) <= remaining
    ensures forall i :: 0 <= i < |Partial(b, remaining)| ==> Partial(b, remaining)[i].0 == b
  {
    var kept := Partial(b, remaining);
    if kept != [] { assert KeptTexts(kept)[1..] == []; }
  }

  function KeptTexts(kept: seq<(Block, nat)>): seq<string>
    requires KeptInRange(kept)
  {
    seq(|kept|, i requires 0 <= i < |kept| => BlockText(kept[i].0)[..kept[i].1])
  }

  function KeptRefs(kept: seq<(Block, nat)>): seq<SourceRef> {
    seq(|kept|, i requires 0 <= i < |kept| => SourceRef(kept[i].0.id, 0, kept[i].1))
  }

  function KeptKinds(kept: seq<(Block, nat)>): seq<BlockType> {
    seq(|kept|, i requires 0 <= i < |kept| => kept[i].0.kind)
  }

  function TrimUnit(u: Unit, budget: nat): Unit {
    KeptSound(u.blocks, budget);
    var kept := Kept(u.blocks, budget);
    var body := Join(GAP, KeptTexts(kept));
    Unit(u.blocks, body, KeptRefs(kept), Tokens(body), KeptKinds(kept), u.caption, u.rows)
  }

  lemma TrimUnitFits(u: Unit, budget: nat)
    ensures TrimUnit(u, budget).tokens == Tokens(TrimUnit(u, budget).body) <= budget
  {
    KeptSound(u.blocks, budget);
    SeparatorsAreNeutral();
    JoinTokens(GAP, KeptTexts(Kept(u.blocks, budget)));
  }

  function BlockTexts(blocks: seq<Block>): seq<string> {
    seq(|blocks|, i requires 0 <= i < |blocks| => BlockText(blocks[i]))
  }

  function Whole(blocks: seq<Block>): seq<(Block, nat)> {
    seq(|blocks|, i requires 0 <= i < |blocks| => (blocks[i], |BlockText(blocks[i])|))
  }

  /** Number of leading blocks that fit completely. */
  function WholeCount(blocks: seq<Block>, budget: nat): (n: nat)
    ensures n <= |blocks|
  {
    if blocks != [] && Tokens(BlockText(blocks[0])) <= budget
    then 1 + WholeCount(blocks[1..], budget - Tokens(BlockText(blocks[0])))
    else 0
  }

  /** The budget those blocks leave. */
  function LeftOver(blocks: seq<Block>, budget: nat): nat {
    if blocks != [] && Tokens(BlockText(blocks[0])) <= budget
    then LeftOver(blocks[1..], budget - Tokens(BlockText(blocks[0])))
    else budget
  }

  lemma {:induction false} TrimTexts(blocks: seq<Block>, budget: nat)
    requires forall i :: 0 <= i < |blocks| ==> BlockText(blocks[i]) != ""
    ensures var n, left := WholeCount(blocks, budget), LeftOver(blocks, budget);
      && (n < |blocks| ==> Tokens(BlockText(blocks[n])) > left)
      && Kept(blocks, budget) == Whole(blocks[..n]) + (if n < |blocks| then Partial(blocks[n], left) else [])
  {
    var n, left := WholeCount(blocks, budget), LeftOver(blocks, budget);
    if blocks != [] {
      var text := BlockText(blocks[0]);
      assert text != "";
      if Tokens(text) <= budget {
        var rest, less := blocks[1..], budget - Tokens(text);
        TrimTexts(rest, less);
        WholeCons(blocks, n);
        var first: seq<(Block, nat)> := [(blocks[0], |text|)];
        assert Kept(blocks, budget) == first + Kept(rest, less);
        assert n == 1 + WholeCount(rest, less) && left == LeftOver(rest, less);
        assert n < |blocks| ==> blocks[n] == rest[n - 1];
        var tail := if n < |blocks| then Partial(blocks[n], left) else [];
        assert Kept(rest, less) == Whole(rest[..n - 1]) + tail;
        assert first + (Whole(rest[..n - 1]) + tail) == (first + Whole(rest[..n - 1])) + tail;
      } else {
        assert Whole(blocks[..0]) == [];
      }
    }
  }

  lemma {:induction false} LeftOverIsRest(blocks: seq<Block>, budget: nat)
    ensures LeftOver(blocks, budget) + SumTokens(BlockTexts(blocks[..WholeCount(blocks, budget)])) == budget
  {
    if blocks != [] && Tokens(BlockText(blocks[0])) <= budget {
      LeftOverIsRest(blocks[1..], budget - Tokens(BlockText(blocks[0])));
      WholeCons(blocks, WholeCount(blocks, budget));
    }
  }

  lemma WholeCons(blocks: seq<Block>, n: nat)
    requires 0 < n <= |blocks|
    ensures Whole(blocks[..n]) == [(blocks[0], |BlockText(blocks[0])|)] + Whole(blocks[1..][..n - 1])
    ensures SumTokens(BlockTexts(blocks[..n]))
      == Tokens(BlockText(blocks[0])) + SumTokens(BlockTexts(blocks[1..][..n - 1]))
    ensures Whole(blocks) == [(blocks[0], |BlockText(blocks[0])|)] + Whole(blocks[1..])
  {
    assert BlockTexts(blocks[..n])[1..] == BlockTexts(blocks[1..][..n - 1]);
  }

  /** The blocks that have text; trimming passes over the others. */
  function WithText(blocks: seq<Block>): (r: seq<Block>)
    ensures forall i :: 0 <= i < |r| ==> BlockText(r[i]) != ""
  {
    if blocks == [] then []
    else if BlockText(blocks[0]) == "" then WithText(blocks[1..])
    else [blocks[0]] + WithText(blocks[1..])
  }

  lemma {:induction false} KeptWithText(blocks: seq<Block>, budget: nat)
    ensures Kept(blocks, budget) == Kept(WithText(blocks), budget)
  {
    if blocks != [] {
      var text, rest := BlockText(blocks[0]), blocks[1..];
      hide Partial;
      KeptWithText(rest, if text != "" && Tokens(text) <= budget then budget - Tokens(text) else budget);
      assert text != "" ==> WithText(blocks)[1..] == WithText(rest);
    }
  }

  /** What trimming keeps of the blocks with text: the leading ones that fit completely, then the
      longest prefix of the next one that fits what they left of the budget, and nothing after it. */
  lemma TrimKeepsLongest(blocks: seq<Block>, budget: nat)
    ensures var texts := WithText(blocks);
      var n, left := WholeCount(texts, budget), LeftOver(texts, budget);
      && left + SumTokens(BlockTexts(texts[..n])) == budget
      && (n < |texts| ==> Tokens(BlockText(texts[n])) > left)
      && Kept(blocks, budget) == Whole(texts[..n]) + (if n < |texts| then Partial(texts[n], left) else [])
  {
    KeptWithText(blocks, budget);
    TrimTexts(WithText(blocks), budget);
    LeftOverIsRest(WithText(blocks), budget);
  }

  /** The partial block is as long as its budget allows, and never empty while budget is left. */
  lemma PartialIsLongest(b: Block, left: nat)
    requires Tokens(BlockText(b)) > left
    ensures left == 0 ==> Partial(b, left) == []
    ensures left > 0 ==> |Partial(b, left)| == 1 && Partial(b, left)[0].0 == b
    ensures left > 0 ==>
      var text, k := BlockText(b), Partial(b, left)[0].1;
      0 < k < |text| && Tokens(text[..k]) == left && Tokens(text[..k + 1]) > left
  {
    var text := BlockText(b);
    if left > 0 {
      var k := LongestFitting(text, |text|, left);
      assert text[..|text|] == text;
      assert Tokens(text[..k + 1]) > left;
      if k == 0 { AtMostLength(text[..1]); }
      TokensBelowIsPrefix(text, k, k);
      TokensBelowIsPrefix(text, k + 1, k + 1);
    }
  }

  method KeepPartial(b: Block, remaining: nat) returns (kept: seq<(Block, nat)>)
    ensures kept == Partial(b, remaining)
  {
    kept := [];
    if remaining > 0 {
      var lo := SearchPrefix(BlockText(b), remaining);
      if lo > 0 { kept := [(b, lo)]; }
    }
  }

  method KeepBlocks(blocks: seq<Block>, budget: nat) returns (kept: seq<(Block, nat)>)
    ensures kept == Kept(blocks, budget)
  {
    hide Tokens, BlockText, Partial;
    kept := [];
    var remaining: nat := budget;
    for i := 0 to |blocks|
      invariant kept + Kept(blocks[i..], remaining) == Kept(blocks, budget)
    {
      var b := blocks[i];
      var text := BlockText(b);
      assert blocks[i..][0] == b && blocks[i..][1..] == blocks[i + 1..];
      if text != "" {
        var n := CountTokens(text);
        if n > remaining {
          var last := KeepPartial(b, remaining);
          return kept + last;
        }
        kept := kept + [(b, |text|)];
        remaining := remaining - n;
      }
    }
  }

  method TrimUnitText(u: Unit, budget: nat) returns (r: Unit)
    ensures r == TrimUnit(u, budget)
    ensures r.tokens == Tokens(r.body) <= budget
  {
    var kept := KeepBlocks(u.blocks, budget);
    KeptSound(u.blocks, budget);
    TrimUnitFits(u, budget);
    var body := Join(GAP, KeptTexts(kept));
    var n := CountTokens(body);
    r := Unit(u.blocks, body, KeptRefs(kept), n, KeptKinds(kept), u.caption, u.rows);
  }

  // ------------------------------------------------------------ the context prefix

  /** Number of leading path items kept when k are already kept. */
  function KeepItems(path: seq<string>, k: nat, hardMax: int): nat
    requires k <= |path|
    decreases |path| - k
  {
    if k == |path| || (k > 0 && Tokens(Join(ARROW, path[..k + 1])) >= hardMax) then k
    else KeepItems(path, k + 1, hardMax)
  }

  function EffectivePrefix(path: seq<string>, hardMax: int): (r: (seq<string>, bool)) {
    if path == [] then ([], false)
    else if Tokens(Join(ARROW, path)) < hardMax then (path, false)
    else
      KeepItemsRange(path, 0, hardMax);
      (path[..KeepItems(path, 0, hardMax)], true)
  }

  lemma {:induction false} KeepItemsRange(path: seq<string>, k: nat, hardMax: int)
    requires k <= |path|
    requires k <= 1 || Tokens(Join(ARROW, path[..k])) < hardMax
    ensures var n := KeepItems(path, k, hardMax);
      && k <= n <= |path|
      && (path != [] ==> n >= 1)
      && (n <= 1 || Tokens(Join(ARROW, path[..n])) < hardMax)
      && (n < |path| ==> Tokens(Join(ARROW, path[..n + 1])) >= hardMax)
    decreases |path| - k
  {
    hide Tokens, Join;
    if k < |path| && !(k > 0 && Tokens(Join(ARROW, path[..k + 1])) >= hardMax) {
      KeepItemsRange(path, k + 1, hardMax);
    }
  }

  /** The effective prefix is the longest run of leading items below the cap, never less than one
      item; only a single overlong first item can reach the cap. */
  lemma EffectivePrefixLongest(path: seq<string>, hardMax: int)
    requires path != []
    ensures EffectivePrefix(path, hardMax).0 <= path && |EffectivePrefix(path, hardMax).0| >= 1
    ensures var items := EffectivePrefix(path, hardMax).0;
      && (|items| > 1 ==> Tokens(Join(ARROW, items)) < hardMax)
      && (|items| < |path| ==> Tokens(Join(ARROW, path[..|items| + 1])) >= hardMax)
    ensures !EffectivePrefix(path, hardMax).1 <==> Tokens(Join(ARROW, path)) < hardMax
    ensures !EffectivePrefix(path, hardMax).1 ==> EffectivePrefix(path, hardMax).0 == path
  {
    KeepItemsRange(path, 0, hardMax);
    assert path[..|path|] == path;
    if Tokens(Join(ARROW, path)) >= hardMax {
      var n := KeepItems(path, 0, hardMax);
      assert EffectivePrefix(path, hardMax) == (path[..n], true);
      assert |path[..n]| == n;
    }
  }

  method ChoosePrefix(path: seq<string>, hardMax: int) returns (items: seq<string>, compacted: bool)
    ensures (items, compacted) == EffectivePrefix(path, hardMax)
  {
    if path == [] { return [], false; }
    var n := CountTokens(Join(ARROW, path));
    if n < hardMax { return path, false; }
    KeepItemsRange(path, 0, hardMax);
    var k := 0;
    var full := false;
    while k < |path| && !full
      invariant 0 <= k <= |path|
      invariant if full then k == KeepItems(path, 0, hardMax)
        else KeepItems(path, k, hardMax) == KeepItems(path, 0, hardMax)
      decreases |path| - k, !full
    {
      var candidate := CountTokens(Join(ARROW, path[..k + 1]));
      if k > 0 && candidate >= hardMax {
        full := true;
      } else {
        k := k + 1;
      }
    }
    items, compacted := path[..k], true;
  }

  // ------------------------------------------------------------ the guard

  function Bodies(units: seq<Unit>): seq<string> { seq(|units|, i requires 0 <= i < |units| => units[i].body) }

  function AllRefs(units: seq<Unit>): seq<SourceRef> {
    if units == [] then [] else units[0].refs + AllRefs(units[1..])
  }

  function DropTail(units: seq<Unit>, budget: nat): (r: seq<Unit>)
    ensures r <= units && (units != [] ==> r != [])
    ensures |r| <= 1 || Tokens(Join(GAP, Bodies(r))) <= budget
  {
    if |units| > 1 && Tokens(Join(GAP, Bodies(units))) > budget then DropTail(units[..|units| - 1], budget) else units
  }

  function DropItems(items: seq<string>, bound: int): (r: seq<string>)
    ensures r <= items
  {
    if |items| > 1 && Tokens(Join(ARROW, items)) >= bound then DropItems(items[..|items| - 1], bound) else items
  }

  function WithPrefix(prefix: string, body: string): string {
    if prefix != "" then prefix + GAP + body else body
  }

  datatype Trimmed = Trimmed(body: string, refs: seq<SourceRef>, prefix: string, compacted: bool)

  function TrimBudget(prefix: string, hardMax: int): nat { Max(1, hardMax - Tokens(prefix)) }

  /** Tail units dropped, then the last unit trimmed. */
  function TrimBody(units: seq<Unit>, budget: nat): seq<Unit>
    requires units != []
  {
    var kept := DropTail(units, budget);
    if Tokens(Join(GAP, Bodies(kept))) > budget
    then kept[..|kept| - 1] + [TrimUnit(kept[|kept| - 1], budget)]
    else kept
  }

  function ShortenPrefix(prefix: string, bodyTokens: nat, hardMax: int): string {
    var items := if prefix != "" then Split(prefix, ARROW) else [];
    var shorter := Join(ARROW, DropItems(items, hardMax - bodyTokens));
    if Tokens(shorter) >= hardMax then shorter[..Min(|shorter|, Max(1, hardMax - bodyTokens))] else shorter
  }

  /** The prefix is shortened only when the trimmed body does not fit beside it. */
  function FitPrefix(kept: seq<Unit>, prefix: string, compacted: bool, hardMax: int): Trimmed {
    var body := Join(GAP, Bodies(kept));
    if Tokens(WithPrefix(prefix, body)) > hardMax
    then Trimmed(body, AllRefs(kept), ShortenPrefix(prefix, Tokens(body), hardMax), true)
    else Trimmed(body, AllRefs(kept), prefix, compacted)
  }

  function TrimAssembled(units: seq<Unit>, prefix: string, compacted: bool, hardMax: int): Trimmed
    requires units != []
  {
    FitPrefix(TrimBody(units, TrimBudget(prefix, hardMax)), prefix, compacted, hardMax)
  }

  lemma TrimBodyFits(units: seq<Unit>, budget: nat)
    requires units != []
    ensures TrimBody(units, budget) != []
    ensures Tokens(Join(GAP, Bodies(TrimBody(units, budget)))) <= budget
  {
    hide Tokens, DropTail, TrimUnit;
    var kept := DropTail(units, budget);
    if Tokens(Join(GAP, Bodies(kept))) > budget {
      TrimUnitFits(kept[0], budget);
      assert TrimBody(units, budget) == [TrimUnit(kept[0], budget)];
    }
  }

  lemma WithPrefixTokens(prefix: string, body: string)
    ensures Tokens(WithPrefix(prefix, body)) == Tokens(prefix) + Tokens(body)
  {
    SeparatorsAreNeutral();
    if prefix != "" { AcrossSeparator(prefix, GAP, body); }
  }

  lemma ShortenPrefixSound(prefix: string, bodyTokens: nat, hardMax: int)
    ensures ShortenPrefix(prefix, bodyTokens, hardMax) <= prefix
    ensures bodyTokens <= 1 && hardMax >= 2 ==>
      Tokens(ShortenPrefix(prefix, bodyTokens, hardMax)) + bodyTokens <= hardMax
  {
    if prefix != "" {
      var items := Split(prefix, ARROW);
      var kept := DropItems(items, hardMax - bodyTokens);
      JoinSplit(prefix, ARROW);
      JoinPrefix(ARROW, items, |kept|);
      assert kept == items[..|kept|];
    }
    AtMostLength(ShortenPrefix(prefix, bodyTokens, hardMax));
  }

  /** The guard is absolute for every cap of at least two tokens: whatever the units and the prefix,
      the trimmed chunk fits, and the shortened prefix is still a prefix of the original one. */
  lemma TrimAssembledFits(units: seq<Unit>, prefix: string, compacted: bool, hardMax: int)
    requires units != []
    ensures TrimAssembled(units, prefix, compacted, hardMax).prefix <= prefix
    ensures hardMax >= 2 ==>
      var t := TrimAssembled(units, prefix, compacted, hardMax); Tokens(WithPrefix(t.prefix, t.body)) <= hardMax
  {
    var t := TrimAssembled(units, prefix, compacted, hardMax);
    TrimBodyFits(units, TrimBudget(prefix, hardMax));
    WithPrefixTokens(prefix, t.body);
    WithPrefixTokens(t.prefix, t.body);
    ShortenPrefixSound(prefix, Tokens(t.body), hardMax);
  }

  /** Tail units are dropped until the rest fits or one unit is left. */
  lemma {:induction false} DropTailExactly(units: seq<Unit>, budget: nat)
    requires units != []
    ensures var n := |DropTail(units, budget)|;
      && 1 <= n <= |units| && DropTail(units, budget) == units[..n]
      && (n == 1 || Tokens(Join(GAP, Bodies(units[..n]))) <= budget)
      && forall m :: n < m <= |units| ==> Tokens(Join(GAP, Bodies(units[..m]))) > budget
  {
    hide Tokens, Bodies;
    assert units[..|units|] == units;
    if |units| > 1 && Tokens(Join(GAP, Bodies(units))) > budget {
      var rest := units[..|units| - 1];
      DropTailExactly(rest, budget);
      assert forall m :: 0 <= m <= |rest| ==> rest[..m] == units[..m];
    }
  }

  lemma {:induction false} DropItemsExactly(items: seq<string>, bound: int)
    requires items != []
    ensures var n := |DropItems(items, bound)|;
      && 1 <= n <= |items| && DropItems(items, bound) == items[..n]
      && (n == 1 || Tokens(Join(ARROW, items[..n])) < bound)
      && forall m :: n < m <= |items| ==> Tokens(Join(ARROW, items[..m])) >= bound
  {
    hide Tokens;
    assert items[..|items|] == items;
    if |items| > 1 && Tokens(Join(ARROW, items)) >= bound {
      var rest := items[..|items| - 1];
      DropItemsExactly(rest, bound);
      assert forall m :: 0 <= m <= |rest| ==> rest[..m] == items[..m];
    }
  }

  /** `shorter` is what the guard makes of a prefix that leaves no room for `bodyTokens`: the longest run of its
      titles that leaves room, at least one, and if that reaches the cap itself, only so many of its
      characters as there is room for tokens, at least one. */
  ghost predicate Shortened(prefix: string, shorter: string, bodyTokens: nat, hardMax: int) {
    exists n :: ShortenedTo(prefix, shorter, bodyTokens, hardMax, n)
  }

  ghost predicate ShortenedTo(prefix: string, shorter: string, bodyTokens: nat, hardMax: int, n: nat) {
    var items := Split(prefix, " > ");
    var room := hardMax - bodyTokens;
    && 1 <= n <= |items|
    && (n == 1 || Tokens(Join(" > ", items[..n])) < room)
    && (forall m :: n < m <= |items| ==> Tokens(Join(" > ", items[..m])) >= room)
    && var titles := Join(" > ", items[..n]);
       if Tokens(titles) < hardMax then shorter == titles
       else shorter <= titles && |shorter| == (if room < 1 then Min(1, |titles|) else Min(room, |titles|))
  }

  lemma ShortenExactly(prefix: string, bodyTokens: nat, hardMax: int)
    requires prefix != ""
    ensures Shortened(prefix, ShortenPrefix(prefix, bodyTokens, hardMax), bodyTokens, hardMax)
  {
    var items := Split(prefix, ARROW);
    DropItemsExactly(items, hardMax - bodyTokens);
    hide Tokens, Split;
    var n := |DropItems(items, hardMax - bodyTokens)|;
    assert ShortenedTo(prefix, ShortenPrefix(prefix, bodyTokens, hardMax), bodyTokens, hardMax, n);
  }

  /** Main result: everything the guard makes of a chunk. The body is that of the longest run of units within what
      the prefix leaves, at least one, trimmed when that one alone is too long; the prefix is shortened
      exactly when it does not fit beside that body, and only then is the chunk marked as compacted. */
  lemma GuardExactly(units: seq<Unit>, prefix: string, compacted: bool, hardMax: int) returns (n: nat)
    requires units != []
    ensures var budget := Max(1, hardMax - Tokens(prefix));
      && 1 <= n <= |units|
      && (n == 1 || Tokens(Join(GAP, Bodies(units[..n]))) <= budget)
      && (forall m :: n < m <= |units| ==> Tokens(Join(GAP, Bodies(units[..m]))) > budget)
      && var t := TrimAssembled(units, prefix, compacted, hardMax);
         var u := if Tokens(Join(GAP, Bodies(units[..n]))) <= budget then units[..n] else [TrimUnit(units[0], budget)];
         && t.body == Join(GAP, Bodies(u)) && t.refs == AllRefs(u)
         && (Tokens(prefix) + Tokens(t.body) <= hardMax ==> t.prefix == prefix && t.compacted == compacted)
         && (Tokens(prefix) + Tokens(t.body) > hardMax ==>
             t.compacted && (prefix == "" ==> t.prefix == "")
             && (prefix != "" ==> Shortened(prefix, t.prefix, Tokens(t.body), hardMax)))
  {
    var budget := TrimBudget(prefix, hardMax);
    n := TrimBodyExactly(units, budget);
    var kept := TrimBody(units, budget);
    hide Tokens, TrimUnit, Bodies, AllRefs, Shortened, TrimBody;
    FitExactly(kept, prefix, compacted, hardMax);
  }

  lemma TrimBodyExactly(units: seq<Unit>, budget: nat) returns (n: nat)
    requires units != []
    ensures 1 <= n <= |units|
    ensures n == 1 || Tokens(Join(GAP, Bodies(units[..n]))) <= budget
    ensures forall m :: n < m <= |units| ==> Tokens(Join(GAP, Bodies(units[..m]))) > budget
    ensures TrimBody(units, budget)
      == if Tokens(Join(GAP, Bodies(units[..n]))) <= budget then units[..n] else [TrimUnit(units[0], budget)]
  {
    DropTailExactly(units, budget);
    n := |DropTail(units, budget)|;
    hide Tokens, TrimUnit, Bodies;
    var kept := DropTail(units, budget);
    if Tokens(Join(GAP, Bodies(units[..n]))) > budget {
      assert kept[..0] + [TrimUnit(kept[0], budget)] == [TrimUnit(units[0], budget)];
    }
  }

  lemma FitExactly(kept: seq<Unit>, prefix: string, compacted: bool, hardMax: int)
    ensures var t := FitPrefix(kept, prefix, compacted, hardMax);
      && t.body == Join(GAP, Bodies(kept)) && t.refs == AllRefs(kept)
      && (Tokens(prefix) + Tokens(t.body) <= hardMax ==> t.prefix == prefix && t.compacted == compacted)
      && (Tokens(prefix) + Tokens(t.body) > hardMax ==>
          t.compacted && (prefix == "" ==> t.prefix == "")
          && (prefix != "" ==> Shortened(prefix, t.prefix, Tokens(t.body), hardMax)))
  {
    var body := Join(GAP, Bodies(kept));
    WithPrefixTokens(prefix, body);
    if prefix != "" { ShortenExactly(prefix, Tokens(body), hardMax); } else { NoPrefix(Tokens(body), hardMax); }
    hide Tokens, Bodies, AllRefs, WithPrefix, Shortened, ShortenPrefix;
  }

  lemma NoPrefix(bodyTokens: nat, hardMax: int)
    ensures ShortenPrefix("", bodyTokens, hardMax) == ""
  {
  }

  method TrimTail(units: seq<Unit>, budget: nat) returns (kept: seq<Unit>)
    requires units != []
    ensures kept == TrimBody(units, budget)
  {
    hide Tokens, TrimUnit;
    kept := units;
    var n := CountTokens(Join(GAP, Bodies(kept)));
    while |kept| > 1 && n > budget
      invariant kept != [] && n == Tokens(Join(GAP, Bodies(kept)))
      invariant DropTail(kept, budget) == DropTail(units, budget)
    {
      kept := kept[..|kept| - 1];
      n := CountTokens(Join(GAP, Bodies(kept)));
    }
    if n > budget {
      var trimmed := TrimUnitText(kept[|kept| - 1], budget);
      kept := kept[..|kept| - 1] + [trimmed];
    }
  }

  method CutPrefix(prefix: string, bodyTokens: nat, hardMax: int) returns (shorter: string)
    ensures shorter == ShortenPrefix(prefix, bodyTokens, hardMax)
  {
    var items := if prefix != "" then Split(prefix, ARROW) else [];
    ghost var all := items;
    var n := CountTokens(Join(ARROW, items));
    while |items| > 1 && n >= hardMax - bodyTokens
      invariant n == Tokens(Join(ARROW, items))
      invariant DropItems(items, hardMax - bodyTokens) == DropItems(all, hardMax - bodyTokens)
    {
      items := items[..|items| - 1];
      n := CountTokens(Join(ARROW, items));
    }
    shorter := Join(ARROW, items);
    if n >= hardMax { shorter := shorter[..Min(|shorter|, Max(1, hardMax - bodyTokens))]; }
  }

  method ApplyGuard(units: seq<Unit>, prefix: string, compacted: bool, hardMax: int) returns (t: Trimmed, count: nat)
    requires units != []
    ensures t == TrimAssembled(units, prefix, compacted, hardMax)
    ensures count == Tokens(WithPrefix(t.prefix, t.body))
  {
    var prefixTokens := CountTokens(prefix);
    var budget: nat := Max(1, hardMax - prefixTokens);
    assert budget == TrimBudget(prefix, hardMax);
    var kept := TrimTail(units, budget);
    t, count := GuardPrefix(kept, prefix, compacted, hardMax);
  }

  method GuardPrefix(kept: seq<Unit>, prefix: string, compacted: bool, hardMax: int) returns (t: Trimmed, count: nat)
    ensures t == FitPrefix(kept, prefix, compacted, hardMax)
    ensures count == Tokens(WithPrefix(t.prefix, t.body))
  {
    var body := Join(GAP, Bodies(kept));
    count := CountTokens(WithPrefix(prefix, body));
    t := Trimmed(body, AllRefs(kept), prefix, compacted);
    if count > hardMax {
      var bodyTokens := CountTokens(body);
      var shorter := CutPrefix(prefix, bodyTokens, hardMax);
      t := Trimmed(body, AllRefs(kept), shorter, true);
      count := CountTokens(WithPrefix(shorter, body));
    }
  }
}
