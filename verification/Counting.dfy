/** Sums and counts over lists, as the sizes of sets. */
module Counting {
  import opened Folding
  import opened Sorting

  ghost function Those<X(!new)>(p: X -> bool, xs: seq<X>): set<X> {
    set x | x in xs && p(x)
  }

  lemma ThoseSnoc<X(!new)>(p: X -> bool, xs: seq<X>, x: X)
    requires x !in xs
    ensures |Those(p, xs + [x])| == |Those(p, xs)| + if p(x) then 1 else 0
  {
    assert Those(p, xs + [x]) == if p(x) then Those(p, xs) + {x} else Those(p, xs);
  }

  lemma {:induction false} CountOfDistinct<X(!new)>(p: X -> bool, xs: seq<X>)
    requires NoDup(xs)
    ensures Count(p, xs) == |Those(p, xs)|
  {
    if xs == [] {
      assert Those(p, xs) == {};
    } else {
      var front, last := xs[..|xs| - 1], xs[|xs| - 1];
      assert xs == front + [last] && last !in front;
      CountOfDistinct(p, front);
      ThoseSnoc(p, front, last);
      hide Those;
    }
  }

  ghost function Places<X>(p: X -> bool, xs: seq<X>): set<int> {
    set i | 0 <= i < |xs| && p(xs[i])
  }

  lemma PlacesSnoc<X>(p: X -> bool, xs: seq<X>, x: X)
    ensures |Places(p, xs + [x])| == |Places(p, xs)| + if p(x) then 1 else 0
  {
    assert Places(p, xs + [x]) == if p(x) then Places(p, xs) + {|xs|} else Places(p, xs);
  }

  lemma {:induction false} CountOfPlaces<X>(p: X -> bool, xs: seq<X>)
    ensures Count(p, xs) == |Places(p, xs)|
  {
    if xs == [] {
      assert Places(p, xs) == {};
    } else {
      var front, last := xs[..|xs| - 1], xs[|xs| - 1];
      assert xs == front + [last];
      CountOfPlaces(p, front);
      PlacesSnoc(p, front, last);
      hide Places;
    }
  }

  ghost function Tagged<T(!new), U(!new)>(tag: T, s: set<U>): set<(T, U)> {
    set j | j in s :: (tag, j)
  }

  lemma {:induction false} TaggedSize<T(!new), U(!new)>(tag: T, s: set<U>)
    ensures |Tagged(tag, s)| == |s|
  {
    if s == {} {
      assert Tagged(tag, s) == {};
    } else {
      var x :| x in s;
      TaggedSize(tag, s - {x});
      assert Tagged(tag, s) == Tagged(tag, s - {x}) + {(tag, x)} && (tag, x) !in Tagged(tag, s - {x});
    }
  }

  ghost function PairsAt<X(!new), Y(!new)>(places: X -> set<Y>, xs: seq<X>): set<(int, Y)> {
    set i, j | 0 <= i < |xs| && j in places(xs[i]) :: (i, j)
  }

  lemma PairsAtSnoc<X(!new), Y(!new)>(places: X -> set<Y>, xs: seq<X>, x: X)
    ensures |PairsAt(places, xs + [x])| == |PairsAt(places, xs)| + |places(x)|
  {
    TaggedSize(|xs|, places(x));
    assert PairsAt(places, xs + [x]) == PairsAt(places, xs) + Tagged(|xs|, places(x));
    assert PairsAt(places, xs) !! Tagged(|xs|, places(x));
  }

  /** A sum of sizes is the size of the set of all pairs of an entry's position and a place in it. */
  lemma {:induction false} TotalOfPlaces<X(!new), Y(!new)>(m: X -> nat, places: X -> set<Y>, xs: seq<X>)
    requires forall x | x in xs :: m(x) == |places(x)|
    ensures Total(m, xs) == |PairsAt(places, xs)|
  {
    if xs == [] {
      assert PairsAt(places, xs) == {};
    } else {
      var front, last := xs[..|xs| - 1], xs[|xs| - 1];
      assert xs == front + [last];
      TotalOfPlaces(m, places, front);
      PairsAtSnoc(places, front, last);
      hide PairsAt;
    }
  }

  ghost function PairsOf<X(!new), Y(!new)>(places: X -> set<Y>, xs: set<X>): set<(X, Y)> {
    set x, j | x in xs && j in places(x) :: (x, j)
  }

  lemma PairsOfAdd<X(!new), Y(!new)>(places: X -> set<Y>, xs: set<X>, x: X)
    requires x !in xs
    ensures |PairsOf(places, xs + {x})| == |PairsOf(places, xs)| + |places(x)|
  {
    TaggedSize(x, places(x));
    assert PairsOf(places, xs + {x}) == PairsOf(places, xs) + Tagged(x, places(x));
    assert PairsOf(places, xs) !! Tagged(x, places(x));
  }

  /** For a list without repetitions, the pairs of an entry and a place in it. */
  lemma {:induction false} TotalOfDistinct<X(!new), Y(!new)>(m: X -> nat, places: X -> set<Y>, s: seq<X>, xs: set<X>)
    requires Lists(s, xs) && forall x | x in xs :: m(x) == |places(x)|
    ensures Total(m, s) == |PairsOf(places, xs)|
  {
    if s == [] {
      assert xs == {} && PairsOf(places, xs) == {};
    } else {
      hide PairsOf;
      var front, last := s[..|s| - 1], s[|s| - 1];
      assert s == front + [last] && last in s && last !in front;
      assert Lists(front, xs - {last});
      TotalOfDistinct(m, places, front, xs - {last});
      PairsOfAdd(places, xs - {last}, last);
      assert xs - {last} + {last} == xs;
    }
  }
}
