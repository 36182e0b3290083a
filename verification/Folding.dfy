/** Left folds and sums over lists, and when the order of the list does not matter. */
module Folding {

  function Fold<S, X>(f: (S, X) -> S, s: S, xs: seq<X>): S {
    if xs == [] then s else f(Fold(f, s, xs[..|xs| - 1]), xs[|xs| - 1])
  }

  ghost predicate Commutes<S(!new), X(!new)>(f: (S, X) -> S) {
    forall s, a, b :: f(f(s, a), b) == f(f(s, b), a)
  }

  lemma FoldEmpty<S, X>(f: (S, X) -> S, s: S)
    ensures Fold(f, s, []) == s
  {
  }

  lemma FoldSnoc<S, X>(f: (S, X) -> S, s: S, xs: seq<X>, x: X)
    ensures Fold(f, s, xs + [x]) == f(Fold(f, s, xs), x)
  {
  }

  /** A loop that folds a list takes its element `i` into the fold of those before it. */
  lemma FoldStep<S, X>(f: (S, X) -> S, s: S, xs: seq<X>, i: nat)
    requires i < |xs|
    ensures Fold(f, s, xs[..i + 1]) == f(Fold(f, s, xs[..i]), xs[i])
  {
    assert xs[..i + 1] == xs[..i] + [xs[i]];
    FoldSnoc(f, s, xs[..i], xs[i]);
  }

  lemma {:induction false} FoldConcat<S, X>(f: (S, X) -> S, s: S, xs: seq<X>, ys: seq<X>)
    ensures Fold(f, s, xs + ys) == Fold(f, Fold(f, s, xs), ys)
  {
    if ys == [] {
      assert xs + ys == xs;
    } else {
      var k := |ys| - 1;
      assert xs + ys == (xs + ys[..k]) + [ys[k]];
      FoldSnoc(f, s, xs + ys[..k], ys[k]);
      FoldConcat(f, s, xs, ys[..k]);
    }
  }

  lemma {:induction false} FoldMoveLast<S(!new), X(!new)>(f: (S, X) -> S, s: S, x: X, ys: seq<X>)
    requires Commutes(f)
    ensures Fold(f, f(s, x), ys) == f(Fold(f, s, ys), x)
  {
    if ys != [] {
      FoldMoveLast(f, s, x, ys[..|ys| - 1]);
    }
  }

  /** A commuting step folds every permutation of a list to the same result. */
  lemma {:induction false} FoldPermutation<S(!new), X(!new)>(f: (S, X) -> S, s: S, xs: seq<X>, ys: seq<X>)
    requires Commutes(f) && multiset(xs) == multiset(ys)
    ensures Fold(f, s, xs) == Fold(f, s, ys)
    decreases |xs|
  {
    if xs == [] {
      assert |multiset(ys)| == |ys| == 0;
    } else {
      var m := |xs| - 1;
      var x := xs[m];
      assert xs == xs[..m] + [x];
      assert x in multiset(ys);
      var k :| 0 <= k < |ys| && ys[k] == x;
      assert ys == ys[..k] + [x] + ys[k + 1..];
      assert multiset(xs[..m]) == multiset(xs) - multiset{x};
      assert multiset(ys[..k] + ys[k + 1..]) == multiset(ys) - multiset{x};
      FoldPermutation(f, s, xs[..m], ys[..k] + ys[k + 1..]);
      FoldConcat(f, s, ys[..k], ys[k + 1..]);
      FoldConcat(f, s, ys[..k] + [x], ys[k + 1..]);
      FoldSnoc(f, s, ys[..k], x);
      FoldMoveLast(f, Fold(f, s, ys[..k]), x, ys[k + 1..]);
    }
  }

  // ----- sums of a measure -----

  function Total<X>(m: X -> nat, xs: seq<X>): nat {
    if xs == [] then 0 else Total(m, xs[..|xs| - 1]) + m(xs[|xs| - 1])
  }

  lemma TotalSnoc<X>(m: X -> nat, xs: seq<X>, x: X)
    ensures Total(m, xs + [x]) == Total(m, xs) + m(x)
  {
  }

  lemma {:induction false} TotalConcat<X>(m: X -> nat, xs: seq<X>, ys: seq<X>)
    ensures Total(m, xs + ys) == Total(m, xs) + Total(m, ys)
  {
    if ys == [] {
      assert xs + ys == xs;
    } else {
      var k := |ys| - 1;
      assert xs + ys == (xs + ys[..k]) + [ys[k]];
      TotalSnoc(m, xs + ys[..k], ys[k]);
      TotalConcat(m, xs, ys[..k]);
    }
  }

  lemma {:induction false} TotalIsFold<X>(m: X -> nat, xs: seq<X>)
    ensures Total(m, xs) == Fold((t: int, x: X) => t + m(x), 0, xs)
  {
    if xs != [] {
      TotalIsFold(m, xs[..|xs| - 1]);
    }
  }

  lemma TotalPermutation<X(!new)>(m: X -> nat, xs: seq<X>, ys: seq<X>)
    requires multiset(xs) == multiset(ys)
    ensures Total(m, xs) == Total(m, ys)
  {
    TotalIsFold(m, xs);
    TotalIsFold(m, ys);
    FoldPermutation((t: int, x: X) => t + m(x), 0, xs, ys);
  }

  lemma {:induction false} TotalMonotone<X>(m: X -> nat, n: X -> nat, xs: seq<X>)
    requires forall x | x in xs :: m(x) <= n(x)
    ensures Total(m, xs) <= Total(n, xs)
  {
    if xs != [] {
      assert xs == xs[..|xs| - 1] + [xs[|xs| - 1]];
      TotalMonotone(m, n, xs[..|xs| - 1]);
    }
  }

  lemma {:induction false} TotalAdds<X>(m: X -> nat, n: X -> nat, both: X -> nat, xs: seq<X>)
    requires forall x | x in xs :: both(x) == m(x) + n(x)
    ensures Total(both, xs) == Total(m, xs) + Total(n, xs)
  {
    if xs != [] {
      assert xs == xs[..|xs| - 1] + [xs[|xs| - 1]];
      TotalAdds(m, n, both, xs[..|xs| - 1]);
    }
  }

  // ----- counting -----

  function Indicator<X>(p: X -> bool): X -> nat {
    x => if p(x) then 1 else 0
  }

  /** How many entries of `xs` satisfy `p`. */
  function Count<X>(p: X -> bool, xs: seq<X>): nat {
    Total(Indicator(p), xs)
  }

  lemma {:induction false} CountBounds<X>(p: X -> bool, xs: seq<X>)
    ensures Count(p, xs) <= |xs|
    ensures (forall x | x in xs :: p(x)) ==> Count(p, xs) == |xs|
    ensures (forall x | x in xs :: !p(x)) ==> Count(p, xs) == 0
  {
    if xs != [] {
      assert xs == xs[..|xs| - 1] + [xs[|xs| - 1]];
      CountBounds(p, xs[..|xs| - 1]);
    }
  }

  /** At least `k` entries count when the first `k` do. */
  lemma CountPrefix<X>(p: X -> bool, xs: seq<X>, k: nat)
    requires k <= |xs| && forall i | 0 <= i < k :: p(xs[i])
    ensures Count(p, xs) >= k
  {
    assert xs == xs[..k] + xs[k..];
    TotalConcat(Indicator(p), xs[..k], xs[k..]);
    CountBounds(p, xs[..k]);
  }

  /** At most `k` entries count when none after the first `k` does. */
  lemma CountNoneAfter<X>(p: X -> bool, xs: seq<X>, k: nat)
    requires k <= |xs| && forall i | k <= i < |xs| :: !p(xs[i])
    ensures Count(p, xs) <= k
  {
    assert xs == xs[..k] + xs[k..];
    TotalConcat(Indicator(p), xs[..k], xs[k..]);
    CountBounds(p, xs[..k]);
    CountBounds(p, xs[k..]);
  }

  // ----- lists of lists -----

  function Flatten<X>(xss: seq<seq<X>>): seq<X> {
    if xss == [] then [] else Flatten(xss[..|xss| - 1]) + xss[|xss| - 1]
  }

  lemma {:induction false} FlattenAt<X>(xss: seq<seq<X>>, k: nat, xs: seq<X>)
    requires k < |xss|
    ensures multiset(Flatten(xss[k := xss[k] + xs])) == multiset(Flatten(xss)) + multiset(xs)
  {
    var last := |xss| - 1;
    if k == last {
      assert xss[k := xss[k] + xs][..last] == xss[..last];
    } else {
      FlattenAt(xss[..last], k, xs);
      assert xss[k := xss[k] + xs][..last] == xss[..last][k := xss[k] + xs];
    }
  }

  lemma {:induction false} FlattenContains<X>(xss: seq<seq<X>>, x: X) returns (k: nat)
    requires x in Flatten(xss)
    ensures k < |xss| && x in xss[k]
  {
    var last := |xss| - 1;
    if x in xss[last] {
      k := last;
    } else {
      k := FlattenContains(xss[..last], x);
    }
  }

  lemma MultipleStep(n: nat, c: int)
    requires n > 0
    ensures (n - 1) * c + c == n * c
  {
  }

  /** Lists that each weigh at least `c`, one of them `extra` more, weigh that much together. */
  lemma {:induction false} FlattenAtLeast<X>(m: X -> nat, xss: seq<seq<X>>, c: int, k: nat, extra: int)
    requires k < |xss| && extra >= 0
    requires forall i | 0 <= i < |xss| :: Total(m, xss[i]) >= c
    requires Total(m, xss[k]) >= c + extra
    ensures Total(m, Flatten(xss)) >= |xss| * c + extra
  {
    var last := |xss| - 1;
    var front := xss[..last];
    assert Flatten(xss) == Flatten(front) + xss[last];
    TotalConcat(m, Flatten(front), xss[last]);
    assert Total(m, xss[last]) >= c;
    assert forall i | 0 <= i < last :: front[i] == xss[i];
    MultipleStep(|xss|, c);
    if last > 0 {
      if k == last {
        FlattenAtLeast(m, front, c, 0, 0);
      } else {
        FlattenAtLeast(m, front, c, k, extra);
      }
    }
  }

  lemma {:induction false} FlattenAtMost<X>(m: X -> nat, xss: seq<seq<X>>, c: nat)
    requires forall i | 0 <= i < |xss| :: Total(m, xss[i]) <= c
    ensures Total(m, Flatten(xss)) <= |xss| * c
  {
    if xss != [] {
      var last := |xss| - 1;
      var front := xss[..last];
      assert Flatten(xss) == Flatten(front) + xss[last];
      TotalConcat(m, Flatten(front), xss[last]);
      assert Total(m, xss[last]) <= c;
      assert forall i | 0 <= i < last :: front[i] == xss[i];
      MultipleStep(|xss|, c);
      FlattenAtMost(m, front, c);
    }
  }
}
