/** Small shared vocabulary: options, promise outcomes, counting and distinctness over sequences. */
module Basics {

  datatype Option<+T> = None | Some(value: T)

  /** How a promise settles. */
  datatype Outcome<+R> = Resolved(value: R) | Rejected

  function Min(a: nat, b: nat): nat {
    if a <= b then a else b
  }

  /** The first n naturals, in order. */
  function UpTo(n: nat): seq<nat> {
    seq(n, i => i)
  }

  ghost predicate Distinct<T(!new)>(xs: seq<T>) {
    forall i, j | 0 <= i < j < |xs| :: xs[i] != xs[j]
  }

  function Count<T>(xs: seq<T>, p: T -> bool): nat {
    if xs == [] then 0 else (if p(xs[0]) then 1 else 0) + Count(xs[1..], p)
  }

  /** Overwriting one slot moves the count by that slot alone. */
  lemma {:induction false} CountUpdate<T>(xs: seq<T>, i: nat, x: T, p: T -> bool)
    requires i < |xs|
    ensures Count(xs[i := x], p) + (if p(xs[i]) then 1 else 0) == Count(xs, p) + (if p(x) then 1 else 0)
  {
    if i == 0 {
      assert xs[0 := x] == [x] + xs[1..];
    } else {
      assert xs[i := x][1..] == xs[1..][i - 1 := x];
      CountUpdate(xs[1..], i - 1, x, p);
    }
  }

  lemma {:induction false} CountPointwise<T>(xs: seq<T>, ys: seq<T>, p: T -> bool)
    requires |xs| == |ys|
    requires forall i | 0 <= i < |xs| :: p(xs[i]) == p(ys[i])
    ensures Count(xs, p) == Count(ys, p)
  {
    if xs == [] {
    } else {
      CountPointwise(xs[1..], ys[1..], p);
    }
  }

  /** A count is between none and all, and the two extremes mean what they say. */
  lemma {:induction false} CountExtremes<T>(xs: seq<T>, p: T -> bool)
    ensures Count(xs, p) <= |xs|
    ensures Count(xs, p) == |xs| <==> forall i | 0 <= i < |xs| :: p(xs[i])
    ensures Count(xs, p) == 0 <==> forall i | 0 <= i < |xs| :: !p(xs[i])
  {
    if xs == [] {
    } else {
      CountExtremes(xs[1..], p);
      assert forall i | 0 < i < |xs| :: xs[i] == xs[1..][i - 1];
    }
  }

  lemma {:induction false} CountAppend<T>(xs: seq<T>, ys: seq<T>, p: T -> bool)
    ensures Count(xs + ys, p) == Count(xs, p) + Count(ys, p)
  {
    if xs == [] {
      assert xs + ys == ys;
    } else {
      assert (xs + ys)[1..] == xs[1..] + ys;
      CountAppend(xs[1..], ys, p);
    }
  }

  /** What g gives for the elements, in order, where it gives anything. */
  function Collect<T, U>(xs: seq<T>, g: T -> Option<U>): seq<U> {
    if xs == [] then []
    else
      var last := g(xs[|xs| - 1]);
      Collect(xs[..|xs| - 1], g) + (if last.Some? then [last.value] else [])
  }

  lemma CollectNext<T, U>(xs: seq<T>, n: nat, g: T -> Option<U>)
    requires n < |xs|
    ensures Collect(xs[..n + 1], g) == Collect(xs[..n], g) + (if g(xs[n]).Some? then [g(xs[n]).value] else [])
  {
    assert xs[..n + 1][..n] == xs[..n];
  }

  lemma {:induction false} CollectSame<S, T, U>(xs: seq<S>, ys: seq<T>, f: S -> Option<U>, g: T -> Option<U>, n: nat)
    requires n <= |xs| == |ys| && forall i | 0 <= i < n :: f(xs[i]) == g(ys[i])
    ensures Collect(xs[..n], f) == Collect(ys[..n], g)
  {
    if n == 0 {
    } else {
      CollectSame(xs, ys, f, g, n - 1);
      CollectNext(xs, n - 1, f);
      CollectNext(ys, n - 1, g);
    }
  }

  lemma {:induction false} CollectAll<T, U>(xs: seq<T>, ys: seq<U>, g: T -> Option<U>, n: nat)
    requires n <= |xs| == |ys| && forall i | 0 <= i < n :: g(xs[i]) == Some(ys[i])
    ensures Collect(xs[..n], g) == ys[..n]
  {
    if n == 0 {
    } else {
      CollectAll(xs, ys, g, n - 1);
      CollectNext(xs, n - 1, g);
      assert ys[..n] == ys[..n - 1] + [ys[n - 1]];
    }
  }

  /** Distinct numbers from lo up to hi are at most hi - lo many. */
  lemma {:induction false} DistinctFit(xs: seq<nat>, lo: nat, hi: nat)
    requires lo <= hi
    requires Distinct(xs)
    requires forall i | 0 <= i < |xs| :: lo <= xs[i] < hi
    ensures |xs| <= hi - lo
    decreases hi
  {
    if xs == [] {
    } else {
      assert lo <= xs[0] < hi;
      if k :| 0 <= k < |xs| && xs[k] == hi - 1 {
        DistinctFit(xs[..k] + xs[k + 1..], lo, hi - 1);
      } else {
        DistinctFit(xs, lo, hi - 1);
      }
    }
  }
}
