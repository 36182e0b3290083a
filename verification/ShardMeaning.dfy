/** scripts/sharding.ts: what `partition` returns, said of the weights as they were mined. */
module ShardMeaning {
  import opened Counting
  import opened Folding
  import opened Results
  import opened ShardBound
  import opened Sharding
  import opened Sorting

  /** Weighs each file by its entry in the map, and every other file `f`. */
  ghost predicate WeighsAs(w: Weight, weights: map<string, nat>, f: nat) {
    && (forall p | p in weights :: w(p) == weights[p])
    && (forall p | p !in weights :: w(p) == f)
  }

  ghost predicate IsThirdQuartile(weights: map<string, nat>, q: nat) {
    if weights == map[] then q == 0 else
      && 4 * |set p | p in weights && weights[p] <= q| >= 3 * |weights|
      && 4 * |set p | p in weights && weights[p] < q| < 3 * |weights|
  }

  /** The weight of a file that was never timed: the override, else the third quartile, or 1 if that is 0. */
  ghost predicate IsFallback(weights: map<string, nat>, override: Option<nat>, f: nat) {
    match override
    case Some(v) => f == v
    case None => exists q: nat :: IsThirdQuartile(weights, q) && f == if q == 0 then 1 else q
  }

  // ----- the fallback -----

  lemma {:induction false} CountOfValues(weights: map<string, nat>, keys: seq<string>, p: int -> bool)
    requires forall k | k in keys :: k in weights
    ensures Count(p, ValuesOf(weights, keys)) == Count((k: string) => k in weights && p(weights[k]), keys)
  {
    if keys != [] {
      var front, last := keys[..|keys| - 1], keys[|keys| - 1];
      assert keys == front + [last];
      CountOfValues(weights, front, p);
      assert ValuesOf(weights, keys) == ValuesOf(weights, front) + [weights[last] as int];
      TotalSnoc(Indicator(p), ValuesOf(weights, front), weights[last] as int);
    }
  }

  lemma CountOfKeys(weights: map<string, nat>, keys: seq<string>, p: int -> bool)
    requires Lists(keys, weights.Keys)
    ensures Count(p, ValuesOf(weights, keys)) == |set k | k in weights && p(weights[k])|
  {
    CountOfValues(weights, keys, p);
    var own := (k: string) => k in weights && p(weights[k]);
    CountOfDistinct(own, keys);
    assert Those(own, keys) == set k | k in weights && p(weights[k]);
  }

  lemma {:induction false} ListedSize<X(!new)>(s: seq<X>, xs: set<X>)
    requires Lists(s, xs)
    ensures |s| == |xs|
  {
    if s == [] {
      assert xs == {};
    } else {
      var front, last := s[..|s| - 1], s[|s| - 1];
      assert s == front + [last] && last in s && last !in front;
      assert Lists(front, xs - {last});
      ListedSize(front, xs - {last});
    }
  }

  lemma QuartileCounts(weights: map<string, nat>, keys: seq<string>, q: int)
    requires Lists(keys, weights.Keys)
    ensures AtMost(q, ValuesOf(weights, keys)) == |set p | p in weights && weights[p] <= q|
    ensures Below(q, ValuesOf(weights, keys)) == |set p | p in weights && weights[p] < q|
  {
    hide Count, ValuesOf;
    CountOfKeys(weights, keys, (v: int) => v <= q);
    CountOfKeys(weights, keys, (v: int) => v < q);
    assert (set p | p in weights && weights[p] <= q) == set k | k in weights && ((v: int) => v <= q)(weights[k]);
    assert (set p | p in weights && weights[p] < q) == set k | k in weights && ((v: int) => v < q)(weights[k]);
  }

  lemma QuantileIsThirdQuartile(weights: map<string, nat>)
    ensures Quantile(ValuesOf(weights, Listing(weights.Keys)), 3, 4) >= 0
    ensures IsThirdQuartile(weights, Quantile(ValuesOf(weights, Listing(weights.Keys)), 3, 4))
  {
    var keys := Listing(weights.Keys);
    var values := ValuesOf(weights, keys);
    assert forall v | v in values :: v >= 0;
    assert |values| == |keys|;
    ListedSize(keys, weights.Keys);
    assert |weights.Keys| == |weights|;
    var q := Quantile(values, 3, 4);
    hide Quantile, ValuesOf, Listing, AtMost, Below;
    if weights == map[] {
      assert values == [];
    } else {
      assert |weights| > 0;
      QuantileIsNearestRank(values, 3, 4);
      QuartileCounts(weights, keys, q);
    }
  }

  lemma SubsetNoLarger<X>(a: set<X>, b: set<X>)
    requires a <= b
    ensures |a| <= |b|
  {
    assert b == a + (b - a);
  }

  lemma QuartileNotBelow(weights: map<string, nat>, q: nat, r: nat)
    requires IsThirdQuartile(weights, q) && IsThirdQuartile(weights, r)
    ensures q >= r
  {
    if weights != map[] && q < r {
      SubsetNoLarger(set p | p in weights && weights[p] <= q, set p | p in weights && weights[p] < r);
    }
  }

  lemma FallbackIsUnique(weights: map<string, nat>, override: Option<nat>, f: nat)
    requires IsFallback(weights, override, f)
    ensures FallbackWeight(weights, override) == f
  {
    if override.None? {
      var q: nat :| IsThirdQuartile(weights, q) && f == if q == 0 then 1 else q;
      QuantileIsThirdQuartile(weights);
      var r := Quantile(ValuesOf(weights, Listing(weights.Keys)), 3, 4);
      hide IsThirdQuartile, Quantile;
      QuartileNotBelow(weights, q, r);
      QuartileNotBelow(weights, r, q);
    }
  }

  // ----- the partition depends on the weights only -----

  ghost predicate Agree(w: Weight, v: Weight) {
    forall p :: w(p) == v(p)
  }

  lemma {:induction false} TotalsAgree(w: Weight, v: Weight, files: seq<string>)
    requires Agree(w, v)
    ensures Total(w, files) == Total(v, files)
  {
    if files != [] {
      TotalsAgree(w, v, files[..|files| - 1]);
    }
  }

  lemma {:induction false} InsertsAgree(w: Weight, v: Weight, p: string, s: seq<string>)
    requires Agree(w, v)
    ensures Insert(LptOrder(w), p, s) == Insert(LptOrder(v), p, s)
  {
    if s != [] {
      InsertsAgree(w, v, p, s[1..]);
    }
  }

  lemma {:induction false} SortsAgree(w: Weight, v: Weight, s: seq<string>)
    requires Agree(w, v)
    ensures Sort(LptOrder(w), s) == Sort(LptOrder(v), s)
  {
    if s != [] {
      SortsAgree(w, v, s[1..]);
      InsertsAgree(w, v, s[0], Sort(LptOrder(v), s[1..]));
    }
  }

  lemma PlacesAgree(w: Weight, v: Weight, shards: Shards, file: string)
    requires Agree(w, v) && shards != []
    ensures Place(w, shards, file) == Place(v, shards, file)
  {
    forall i | 0 <= i < |shards| ensures Loads(w, shards)[i] == Loads(v, shards)[i] {
      TotalsAgree(w, v, shards[i]);
    }
    assert Loads(w, shards) == Loads(v, shards);
  }

  lemma {:induction false} GreedyAgrees(w: Weight, v: Weight, n: nat, jobs: seq<string>)
    requires n > 0 && Agree(w, v)
    ensures Greedy(w, n, jobs) == Greedy(v, n, jobs)
  {
    if jobs != [] {
      GreedyAgrees(w, v, n, jobs[..|jobs| - 1]);
      PlacesAgree(w, v, Greedy(v, n, jobs[..|jobs| - 1]), jobs[|jobs| - 1]);
    }
  }

  /** `partition` is the greedy partition by whatever weighs each file as it was mined, and the others as the fallback. */
  lemma PartitionIsByWeights(files: seq<string>, weights: map<string, nat>, n: nat, override: Option<nat>, w: Weight, f: nat)
    requires n > 0 && WeighsAs(w, weights, f) && IsFallback(weights, override, f)
    ensures Partition(files, weights, n, if override.Some? then Some(override.value) else None) == Ok(LptPartition(w, n, files))
  {
    FallbackIsUnique(weights, override, f);
    var v := Weigh(weights, f);
    assert Agree(v, w);
    hide FallbackWeight, IsFallback, Weigh;
    SortsAgree(v, w, files);
    GreedyAgrees(v, w, n, Sort(LptOrder(w), files));
    if files == [] {
      assert Sort(LptOrder(w), files) == [];
    }
  }

  /** Heaviest first, equal weights by path. */
  ghost predicate HeaviestFirst(w: Weight, shard: seq<string>) {
    forall i, j | 0 <= i < j < |shard| ::
      w(shard[i]) > w(shard[j]) || (w(shard[i]) == w(shard[j]) && StrLe(shard[i], shard[j]))
  }

  /**
   * All that is promised of `partition`, of the mined weights: the shards hold every file
   * once, each heaviest first; no shard outweighs another by more than its last file; and
   * the heaviest is within 4/3 - 1/(3n) of the heaviest of any other way to deal the files.
   */
  lemma PartitionMeans(files: seq<string>, weights: map<string, nat>, n: nat, override: Option<nat>, w: Weight, f: nat, rival: Shards)
    requires n > 0 && WeighsAs(w, weights, f) && IsFallback(weights, override, f)
    requires |rival| == n && multiset(Flatten(rival)) == multiset(files)
    ensures var r := Partition(files, weights, n, if override.Some? then Some(override.value) else None);
      && r.Ok? && |r.value| == n && multiset(Flatten(r.value)) == multiset(files)
      && (forall k | 0 <= k < n :: HeaviestFirst(w, r.value[k]))
      && (forall k, i | 0 <= k < n && 0 <= i < n && r.value[k] != [] ::
            Total(w, r.value[k]) <= Total(w, r.value[i]) + w(r.value[k][|r.value[k]| - 1]))
      && 3 * n * Makespan(w, r.value) <= (4 * n - 1) * Makespan(w, rival)
  {
    PartitionIsByWeights(files, weights, n, override, w, f);
    var shards := LptPartition(w, n, files);
    PartitionCovers(w, n, files);
    LptWithinFourThirds(w, n, files, rival);
    var jobs := Sort(LptOrder(w), files);
    GreedyBalanced(w, n, jobs);
    LptOrderIsTotal(w);
    SortSorts(LptOrder(w), files);
    forall k | 0 <= k < n ensures HeaviestFirst(w, shards[k]) {
      ShardsHeaviestFirst(w, n, jobs, k);
    }
  }

  /** The refusals, exactly: no shard to fill, or a negative override for files there are. */
  lemma PartitionRefuses(files: seq<string>, weights: map<string, nat>, n: int, override: Option<int>)
    ensures var r := Partition(files, weights, n, override);
      && (r == Err(ShardCountNotPositive) <==> n <= 0)
      && (r == Err(FallbackNegative) <==> n > 0 && files != [] && override.Some? && override.value < 0)
  {
  }

  /** There is such a weighing, and such a fallback, for every map. */
  lemma WeighingExists(weights: map<string, nat>, override: Option<nat>) returns (w: Weight, f: nat)
    ensures WeighsAs(w, weights, f) && IsFallback(weights, override, f)
  {
    f := FallbackWeight(weights, override);
    w := Weigh(weights, f);
    QuantileIsThirdQuartile(weights);
  }
}
