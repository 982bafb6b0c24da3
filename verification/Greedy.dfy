/** Filling groups greedily: the one way to cut a list into runs that are filled up to a limit
    (src/transit_scholar/layer2/chunker.py:404-417, src/transit_scholar/layer2/chunker.py:692-711). */
module Greedy {
  import opened Prelude

  function Sum<T>(xs: seq<T>, w: T -> nat): nat { if xs == [] then 0 else Sum(xs[..|xs| - 1], w) + w(xs[|xs| - 1]) }

  /** Every element but the first found room in its run. */
  predicate Filled<T>(run: seq<T>, w: T -> nat, base: nat, limit: nat) {
    run != [] && forall k :: 0 < k < |run| ==> base + Sum(run[..k], w) + w(run[k]) <= limit
  }

  /** The first element of the next run has no room in this one. */
  predicate Overflows<T>(run: seq<T>, next: seq<T>, w: T -> nat, base: nat, limit: nat) {
    next != [] && base + Sum(run, w) + w(next[0]) > limit
  }

  predicate GreedyRuns<T>(runs: seq<seq<T>>, w: T -> nat, base: nat, limit: nat) {
    && (forall i :: 0 <= i < |runs| ==> Filled(runs[i], w, base, limit))
    && forall i :: 0 <= i < |runs| - 1 ==> Overflows(runs[i], runs[i + 1], w, base, limit)
  }

  lemma SumSnoc<T>(xs: seq<T>, x: T, w: T -> nat)
    ensures Sum(xs + [x], w) == Sum(xs, w) + w(x)
  {
    assert (xs + [x])[..|xs|] == xs;
  }

  lemma FilledSnoc<T>(run: seq<T>, x: T, w: T -> nat, base: nat, limit: nat)
    requires run == [] || (Filled(run, w, base, limit) && base + Sum(run, w) + w(x) <= limit)
    ensures Filled(run + [x], w, base, limit)
  {
    var all := run + [x];
    forall k | 0 < k < |all| ensures base + Sum(all[..k], w) + w(all[k]) <= limit {
      assert all[..k] == run[..k];
      if k == |run| { assert run[..k] == run; }
    }
  }

  lemma RunsCons<T>(run: seq<T>, rest: seq<seq<T>>, w: T -> nat, base: nat, limit: nat)
    requires Filled(run, w, base, limit) && GreedyRuns(rest, w, base, limit)
    requires rest != [] ==> Overflows(run, rest[0], w, base, limit)
    ensures GreedyRuns([run] + rest, w, base, limit)
  {
    var all := [run] + rest;
    forall i | 0 <= i < |all| - 1 ensures Overflows(all[i], all[i + 1], w, base, limit) {
      if i > 0 { assert Overflows(rest[i - 1], rest[i - 1 + 1], w, base, limit); }
    }
  }

  // ------------------------------------------------------------ there is only one way

  lemma AfterFirst<T>(a: seq<seq<T>>, w: T -> nat, base: nat, limit: nat)
    requires GreedyRuns(a, w, base, limit) && a != []
    ensures var all, n := Flatten(a), |a[0]|;
      && n <= |all| && all[..n] == a[0]
      && (n < |all| ==> base + Sum(all[..n], w) + w(all[n]) > limit)
  {
    var all, n := Flatten(a), |a[0]|;
    assert all[..n] == a[0];
    if |a| > 1 {
      assert Overflows(a[0], a[0 + 1], w, base, limit);
      assert Flatten(a[1..]) == a[1] + Flatten(a[1..][1..]);
    }
  }

  lemma InsideFirst<T>(b: seq<seq<T>>, k: nat, w: T -> nat, base: nat, limit: nat)
    requires GreedyRuns(b, w, base, limit) && b != [] && 0 < k < |b[0]|
    ensures k < |Flatten(b)| && base + Sum(Flatten(b)[..k], w) + w(Flatten(b)[k]) <= limit
  {
    assert Filled(b[0], w, base, limit);
    assert Flatten(b)[..k] == b[0][..k] && Flatten(b)[k] == b[0][k];
  }

  lemma FirstNotShorter<T>(a: seq<seq<T>>, b: seq<seq<T>>, w: T -> nat, base: nat, limit: nat)
    requires GreedyRuns(a, w, base, limit) && GreedyRuns(b, w, base, limit)
    requires a != [] && b != [] && Flatten(a) == Flatten(b)
    ensures |a[0]| >= |b[0]|
  {
    assert Filled(a[0], w, base, limit);
    if |a[0]| < |b[0]| {
      InsideFirst(b, |a[0]|, w, base, limit);
      AfterFirst(a, w, base, limit);
    }
  }

  /** The elements determine the runs. */
  lemma {:induction false} RunsUnique<T>(a: seq<seq<T>>, b: seq<seq<T>>, w: T -> nat, base: nat, limit: nat)
    requires GreedyRuns(a, w, base, limit) && GreedyRuns(b, w, base, limit) && Flatten(a) == Flatten(b)
    ensures a == b
    decreases |a|
  {
    SomeElement(a, w, base, limit);
    SomeElement(b, w, base, limit);
    if a != [] && b != [] {
      FirstNotShorter(a, b, w, base, limit);
      FirstNotShorter(b, a, w, base, limit);
      var all, n := Flatten(a), |a[0]|;
      assert a[0] == all[..n] == b[0] && Flatten(a[1..]) == all[n..] == Flatten(b[1..]);
      RunsTail(a, w, base, limit);
      RunsTail(b, w, base, limit);
      RunsUnique(a[1..], b[1..], w, base, limit);
    }
  }

  lemma SomeElement<T>(a: seq<seq<T>>, w: T -> nat, base: nat, limit: nat)
    requires GreedyRuns(a, w, base, limit)
    ensures Flatten(a) == [] <==> a == []
  {
    if a != [] { assert Filled(a[0], w, base, limit); }
  }

  lemma RunsTail<T>(a: seq<seq<T>>, w: T -> nat, base: nat, limit: nat)
    requires a != [] && GreedyRuns(a, w, base, limit)
    ensures GreedyRuns(a[1..], w, base, limit)
  {
    var rest := a[1..];
    forall i | 0 <= i < |rest| - 1 ensures Overflows(rest[i], rest[i + 1], w, base, limit) {
      assert Overflows(a[i + 1], a[i + 1 + 1], w, base, limit);
    }
  }
}
