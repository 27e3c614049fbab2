/** Options and the finite-set facts the capped fixpoint loops are proved with. */
module Support {

  datatype Option<+T> = None | Some(value: T)

  function SetOf<T>(s: seq<T>): set<T> {
    set x | x in s
  }

  lemma SetOfSnoc<T>(s: seq<T>, x: T)
    ensures SetOf(s + [x]) == SetOf(s) + {x}
  {
  }

  /** The block numbers 0, 1, ..., n - 1. */
  function Below(n: nat): (r: set<nat>)
    ensures forall b: nat :: b in r <==> b < n
    ensures |r| == n
  {
    if n == 0 then {} else Below(n - 1) + {n - 1}
  }

  lemma SubsetCardinality<T>(a: set<T>, b: set<T>)
    requires a <= b
    ensures |a| <= |b|
    ensures a != b ==> |a| < |b|
  {
    assert b == a + (b - a);
    assert |b| == |a| + |b - a|;
  }

  lemma {:induction false} SeqCardinality<T>(s: seq<T>)
    ensures |SetOf(s)| <= |s|
  {
    if s == [] {
      assert SetOf(s) == {};
    } else {
      var last := |s| - 1;
      SeqCardinality(s[..last]);
      assert SetOf(s) == SetOf(s[..last]) + {s[last]} by {
        assert s == s[..last] + [s[last]];
      }
    }
  }

  // ---- Sets that grow by repeated steps ----

  /** The start set after k rounds of adding what one step yields. */
  ghost function Grow<T>(step: set<T> -> set<T>, start: set<T>, k: nat): set<T> {
    if k == 0 then start else Grow(step, start, k - 1) + step(Grow(step, start, k - 1))
  }

  /** A step that never leaves the universe. */
  ghost predicate Bounded<T(!new)>(step: set<T> -> set<T>, universe: set<T>) {
    forall s :: step(s) <= universe
  }

  lemma {:induction false} GrowWithin<T(!new)>(step: set<T> -> set<T>, start: set<T>, universe: set<T>, k: nat)
    requires start <= universe && Bounded(step, universe)
    ensures Grow(step, start, k) <= universe
  {
    if k > 0 { GrowWithin(step, start, universe, k - 1); }
  }

  lemma {:induction false} GrowMonotone<T>(step: set<T> -> set<T>, start: set<T>, i: nat, j: nat)
    requires i <= j
    ensures Grow(step, start, i) <= Grow(step, start, j)
  {
    if i < j { GrowMonotone(step, start, i, j - 1); }
  }

  lemma {:induction false} GrowStays<T>(step: set<T> -> set<T>, start: set<T>, k: nat, j: nat)
    requires Grow(step, start, k) == Grow(step, start, k + 1) && k <= j
    ensures Grow(step, start, j) == Grow(step, start, k)
    decreases j
  {
    if k < j { GrowStays(step, start, k, j - 1); }
  }

  /** Each round adds something new, or all later rounds add nothing. */
  lemma {:induction false} GrowProgress<T>(step: set<T> -> set<T>, start: set<T>, k: nat)
    ensures Grow(step, start, k) == Grow(step, start, k + 1) || |Grow(step, start, k + 1)| >= |start| + k + 1
  {
    if k > 0 {
      GrowProgress(step, start, k - 1);
      if Grow(step, start, k - 1) == Grow(step, start, k) { GrowStays(step, start, k - 1, k + 1); }
    }
    SubsetCardinality(Grow(step, start, k), Grow(step, start, k + 1));
  }

  /** As many rounds as there is room to grow always reach the limit. */
  lemma GrowStabilises<T(!new)>(step: set<T> -> set<T>, start: set<T>, universe: set<T>, n: nat, k: nat)
    requires start <= universe && Bounded(step, universe) && |universe| <= |start| + n
    ensures Grow(step, start, k) <= Grow(step, start, n)
    ensures k >= n ==> Grow(step, start, k) == Grow(step, start, n)
  {
    if k <= n {
      GrowMonotone(step, start, k, n);
    } else {
      GrowProgress(step, start, n);
      GrowWithin(step, start, universe, n + 1);
      SubsetCardinality(Grow(step, start, n + 1), universe);
      GrowStays(step, start, n, k);
    }
  }
}
