/** What scripts/sharding.ts promises of its partition: coverage, determinism, balance, and Graham's bound. */
module ShardBound {
  import opened Results
  import opened Folding
  import opened Sorting
  import opened Sharding

  /** The heaviest shard's total. */
  function Makespan(w: Weight, shards: Shards): (m: nat)
    ensures forall i | 0 <= i < |shards| :: Total(w, shards[i]) <= m
    ensures shards != [] ==> exists i | 0 <= i < |shards| :: Total(w, shards[i]) == m
  {
    if shards == [] then 0 else
      var last := |shards| - 1;
      var m := Makespan(w, shards[..last]);
      var t := Total(w, shards[last]);
      assert forall i | 0 <= i < last :: shards[..last][i] == shards[i];
      if last == 0 || t > m then t else m
  }

  // ----- every file in exactly one shard -----

  lemma {:induction false} GreedyCovers(w: Weight, n: nat, jobs: seq<string>)
    requires n > 0
    ensures multiset(Flatten(Greedy(w, n, jobs))) == multiset(jobs)
  {
    if jobs == [] {
      FlattenEmpties(n);
    } else {
      var front, p := jobs[..|jobs| - 1], jobs[|jobs| - 1];
      var before := Greedy(w, n, front);
      GreedyCovers(w, n, front);
      FlattenAt(before, Lightest(w, before), [p]);
      assert jobs == front + [p];
    }
  }

  lemma {:induction false} FlattenEmpties(n: nat)
    ensures Flatten<string>(seq(n, _ => [])) == []
  {
    if n > 0 {
      FlattenEmpties(n - 1);
      var s: seq<seq<string>> := seq(n, _ => []);
      assert s[..n - 1] == seq(n - 1, _ => []);
    }
  }

  lemma PartitionCovers(w: Weight, n: nat, files: seq<string>)
    requires n > 0
    ensures multiset(Flatten(LptPartition(w, n, files))) == multiset(files)
  {
    GreedyCovers(w, n, Sort(LptOrder(w), files));
    LptOrderIsTotal(w);
    SortSorts(LptOrder(w), files);
  }

  // ----- n processes, each sharding its own listing of the files -----

  /** Input order does not matter: the result depends only on which files there are. */
  lemma PartitionIgnoresOrder(files: seq<string>, others: seq<string>, weights: map<string, nat>, n: int, fallbackWeight: Option<int>)
    requires multiset(files) == multiset(others)
    ensures Partition(files, weights, n, fallbackWeight) == Partition(others, weights, n, fallbackWeight)
  {
    assert |multiset(files)| == |files| && |multiset(others)| == |others|;
    if n > 0 && files != [] && (fallbackWeight.Some? ==> fallbackWeight.value >= 0) {
      var fallback := FallbackWeight(weights, if fallbackWeight.Some? then Some(fallbackWeight.value) else None);
      var w := Weigh(weights, fallback);
      LptOrderIsTotal(w);
      SortOfPermutation(LptOrder(w), files, others);
    }
  }

  /** The lines printed by `n` jobs, job `i` printing shard `i` of its own partition. */
  ghost function PrintedByJobs(listings: seq<seq<string>>, weights: map<string, nat>): Shards
    requires forall i | 0 <= i < |listings| :: Partition(listings[i], weights, |listings|, None).Ok?
  {
    var n := |listings|;
    seq(n, i requires 0 <= i < n => PrintedBy(listings[i], weights, n, i))
  }

  ghost function PrintedBy(files: seq<string>, weights: map<string, nat>, n: nat, i: nat): seq<string>
    requires i < n && Partition(files, weights, n, None).Ok?
  {
    PartitionSize(files, weights, n, None);
    Partition(files, weights, n, None).value[i]
  }

  lemma PartitionSize(files: seq<string>, weights: map<string, nat>, n: int, fallbackWeight: Option<int>)
    ensures var r := Partition(files, weights, n, fallbackWeight); r.Ok? ==> |r.value| == n
  {
  }

  /** Independent jobs, however each lists the files, together print every file exactly once. */
  lemma {:induction false} JobsTogetherCoverOnce(listings: seq<seq<string>>, files: seq<string>, weights: map<string, nat>)
    requires listings != [] && forall i | 0 <= i < |listings| :: multiset(listings[i]) == multiset(files)
    ensures forall i | 0 <= i < |listings| :: Partition(listings[i], weights, |listings|, None).Ok?
    ensures multiset(Flatten(PrintedByJobs(listings, weights))) == multiset(files)
  {
    var n := |listings|;
    var whole := Partition(files, weights, n, None);
    forall i | 0 <= i < n ensures Partition(listings[i], weights, n, None) == whole {
      PartitionIgnoresOrder(listings[i], files, weights, n, None);
    }
    PartitionSize(files, weights, n, None);
    assert PrintedByJobs(listings, weights) == whole.value;
    if files == [] {
      FlattenEmpties(n);
    } else {
      PartitionCovers(Weigh(weights, FallbackWeight(weights, None)), n, files);
    }
  }

  // ----- the greedy invariant -----

  /** Taking back its last file would leave no shard heavier than any other. */
  ghost predicate Balanced(w: Weight, shards: Shards) {
    forall k, i | 0 <= k < |shards| && 0 <= i < |shards| && shards[k] != [] ::
      Total(w, shards[k]) <= Total(w, shards[i]) + w(shards[k][|shards[k]| - 1])
  }

  lemma {:induction false} GreedyBalanced(w: Weight, n: nat, jobs: seq<string>)
    requires n > 0
    ensures Balanced(w, Greedy(w, n, jobs))
  {
    if jobs != [] {
      var front, p := jobs[..|jobs| - 1], jobs[|jobs| - 1];
      GreedyBalanced(w, n, front);
      PlaceKeepsBalance(w, Greedy(w, n, front), p);
    }
  }

  lemma PlaceKeepsBalance(w: Weight, shards: Shards, p: string)
    requires shards != [] && Balanced(w, shards)
    ensures Balanced(w, Place(w, shards, p))
  {
  }

  /** Heaviest minus lightest is at most the last file placed in the heaviest shard. */
  lemma {:induction false} SpreadAtMostLastFile(w: Weight, n: nat, files: seq<string>, heaviest: nat, i: nat)
    requires n > 0 && heaviest < n && i < n
    requires var s := LptPartition(w, n, files);
      s[heaviest] != [] && Total(w, s[heaviest]) == Makespan(w, s)
    ensures var s := LptPartition(w, n, files);
      Makespan(w, s) - Total(w, s[i]) <= w(s[heaviest][|s[heaviest]| - 1])
  {
    GreedyBalanced(w, n, Sort(LptOrder(w), files));
  }

  /** Each shard lists its files heaviest first. */
  lemma {:induction false} ShardsHeaviestFirst(w: Weight, n: nat, jobs: seq<string>, k: nat)
    requires n > 0 && k < n && SortedBy(LptOrder(w), jobs)
    ensures SortedBy(LptOrder(w), Greedy(w, n, jobs)[k])
    ensures forall f | f in Greedy(w, n, jobs)[k] :: f in jobs
  {
    if jobs != [] {
      var front, p := jobs[..|jobs| - 1], jobs[|jobs| - 1];
      ShardsHeaviestFirst(w, n, front, k);
      assert jobs == front + [p];
      assert forall f | f in front :: LptOrder(w)(f, p);
    }
  }

  /** With no weights mined yet, shards differ in size by at most one file. */
  lemma ColdStartIsRoundRobin(files: seq<string>, n: nat, k: nat, i: nat)
    requires n > 0 && k < n && i < n
    ensures var r := Partition(files, map[], n, None);
      r.Ok? && |r.value| == n && |r.value[k]| <= |r.value[i]| + 1
  {
    if files != [] {
      var none: map<string, nat> := map[];
      var w := Weigh(none, 1);
      assert ValuesOf(none, Listing(none.Keys)) == [];
      var s := LptPartition(w, n, files);
      GreedyBalanced(w, n, Sort(LptOrder(w), files));
      UnitTotal(w, s[k]);
      UnitTotal(w, s[i]);
    }
  }

  lemma {:induction false} UnitTotal(w: Weight, files: seq<string>)
    requires forall f :: w(f) == 1
    ensures Total(w, files) == |files|
  {
    if files != [] {
      UnitTotal(w, files[..|files| - 1]);
    }
  }

  // ----- Graham's bound -----

  /** The moment a shard got its last file: the file's position, and the shards just before. */
  lemma {:induction false} LastPlacement(w: Weight, n: nat, jobs: seq<string>, k: nat) returns (j: nat)
    requires n > 0 && k < n && Greedy(w, n, jobs)[k] != []
    ensures j < |jobs|
    ensures k == Lightest(w, Greedy(w, n, jobs[..j]))
    ensures Greedy(w, n, jobs)[k] == Greedy(w, n, jobs[..j])[k] + [jobs[j]]
  {
    var front := jobs[..|jobs| - 1];
    if k == Lightest(w, Greedy(w, n, front)) {
      j := |jobs| - 1;
    } else {
      j := LastPlacement(w, n, front, k);
      assert front[..j] == jobs[..j];
    }
  }

  function AtLeast(w: Weight, v: nat): string -> nat {
    Indicator((p: string) => w(p) >= v)
  }

  function MoreThan(w: Weight, v: nat): string -> nat {
    Indicator((p: string) => w(p) > v)
  }

  /** A shard lighter than `u + v` and than `3 * v` holds few files of weight `v` or `u`. */
  lemma {:induction false} FewLargeFiles(w: Weight, shard: seq<string>, u: nat, v: nat)
    requires v <= u && v > 0
    ensures var big, large := Total(AtLeast(w, v), shard), Total(AtLeast(w, u), shard);
      && large <= big
      && Total(w, shard) >= v * big
      && (large > 0 ==> Total(w, shard) >= u + v * (big - 1))
  {
    if shard != [] {
      var front, p := shard[..|shard| - 1], shard[|shard| - 1];
      FewLargeFiles(w, front, u, v);
      var big := Total(AtLeast(w, v), front);
      if w(p) >= v {
        assert v * (big + 1) == v * big + v;
      }
    }
  }

  lemma LightShardHoldsTwo(w: Weight, shard: seq<string>, u: nat, v: nat)
    requires 0 < v <= u && Total(w, shard) < 3 * v
    ensures Total(AtLeast(w, v), shard) <= 2
    ensures Total(w, shard) < u + v ==> Total(AtLeast(w, v), shard) + Total(AtLeast(w, u), shard) <= 2
  {
    FewLargeFiles(w, shard, u, v);
    LessThanThree(Total(AtLeast(w, v), shard), v, Total(w, shard));
  }

  lemma LessThanThree(big: nat, v: nat, total: nat)
    requires v * big <= total < 3 * v
    ensures big <= 2
  {
  }

  /** The files of weight `v` and those of weight `u`, counted together. */
  function BothLarge(w: Weight, u: nat, v: nat): string -> nat {
    p => (if w(p) >= v then 1 else 0) + (if w(p) >= u then 1 else 0)
  }

  /** A rival that puts the files of weight `v` on `n` shards, at most two a shard, pairs some file of weight `u`. */
  lemma {:induction false} RivalPairsLargeFile(w: Weight, files: seq<string>, rival: Shards, u: nat, v: nat)
    requires rival != [] && multiset(Flatten(rival)) == multiset(files)
    requires 0 < v <= u && Makespan(w, rival) < 3 * v
    requires Total(AtLeast(w, v), files) + Total(AtLeast(w, u), files) > 2 * |rival|
    ensures Makespan(w, rival) >= u + v
  {
    if Makespan(w, rival) < u + v {
      var both := BothLarge(w, u, v);
      forall i | 0 <= i < |rival| ensures Total(both, rival[i]) <= 2 {
        LightShardHoldsTwo(w, rival[i], u, v);
        TotalAdds(AtLeast(w, v), AtLeast(w, u), both, rival[i]);
      }
      FlattenAtMost(both, rival, 2);
      TotalPermutation(both, Flatten(rival), files);
      TotalAdds(AtLeast(w, v), AtLeast(w, u), both, files);
      assert false;
    }
  }

  /** With few enough files placed, and few of them above `u`, the lightest shard weighs at most `u`. */
  lemma {:induction false} LightestIsLight(w: Weight, shards: Shards, placed: seq<string>, u: nat)
    requires shards != [] && multiset(Flatten(shards)) == multiset(placed)
    requires |placed| + Total(MoreThan(w, u), placed) < 2 * |shards|
    ensures Total(w, shards[Lightest(w, shards)]) <= u
  {
    if Total(w, shards[Lightest(w, shards)]) > u {
      var one := (p: string) => 1 as nat;
      var both := (p: string) => one(p) + MoreThan(w, u)(p);
      forall i | 0 <= i < |shards| ensures Total(both, shards[i]) >= 2 {
        var s := shards[i];
        TotalAdds(one, MoreThan(w, u), both, s);
        UnitTotal(one, s);
        assert Total(w, s) > u;
        if |s| == 1 {
          assert s[..0] == [];
          assert Total(w, s[..0]) == 0 && Total(MoreThan(w, u), s[..0]) == 0;
        }
      }
      FlattenAtLeast(both, shards, 2, 0, 0);
      TotalPermutation(both, Flatten(shards), placed);
      TotalAdds(one, MoreThan(w, u), both, placed);
      UnitTotal(one, placed);
      assert false;
    }
  }

  /** A rival shard holds each file, so weighs at least as much. */
  lemma RivalHoldsFile(w: Weight, files: seq<string>, rival: Shards, p: string)
    requires multiset(Flatten(rival)) == multiset(files) && p in files
    ensures Makespan(w, rival) >= w(p)
  {
    assert p in multiset(files);
    var k := FlattenContains(rival, p);
    TotalAtLeastMember(w, rival[k], p);
  }

  lemma {:induction false} TotalAtLeastMember(w: Weight, files: seq<string>, p: string)
    requires p in files
    ensures Total(w, files) >= w(p)
  {
    if p != files[|files| - 1] {
      TotalAtLeastMember(w, files[..|files| - 1], p);
    }
  }

  /** Shard `k` weighs `l` and its last file `v`: no shard is lighter than `l - v`, so together they weigh this. */
  lemma GreedyTotalAtLeast(w: Weight, n: nat, jobs: seq<string>, k: nat, l: nat, v: nat)
    requires n > 0 && k < n && Greedy(w, n, jobs)[k] != []
    requires var s := Greedy(w, n, jobs)[k]; l == Total(w, s) && v == w(s[|s| - 1])
    ensures Total(w, jobs) >= n * (l - v) + v
  {
    hide Greedy, Total, Flatten;
    var shards := Greedy(w, n, jobs);
    GreedyBalanced(w, n, jobs);
    FlattenAtLeast(w, shards, l - v, k, v);
    GreedyCovers(w, n, jobs);
    TotalPermutation(w, Flatten(shards), jobs);
  }

  lemma {:induction false} RivalTotalAtMost(w: Weight, jobs: seq<string>, rival: Shards)
    requires multiset(Flatten(rival)) == multiset(jobs)
    ensures Total(w, jobs) <= |rival| * Makespan(w, rival)
  {
    FlattenAtMost(w, rival, Makespan(w, rival));
    TotalPermutation(w, Flatten(rival), jobs);
  }

  /** The list-scheduling bound: the last file of a shard is all that lifts it above the average. */
  lemma {:induction false} ListSchedulingBound(w: Weight, n: nat, jobs: seq<string>, k: nat, rival: Shards, l: nat, v: nat)
    requires n > 0 && k < n && Greedy(w, n, jobs)[k] != []
    requires var s := Greedy(w, n, jobs)[k]; l == Total(w, s) && v == w(s[|s| - 1])
    requires |rival| == n && multiset(Flatten(rival)) == multiset(jobs)
    ensures n * l <= n * Makespan(w, rival) + (n - 1) * v
  {
    GreedyTotalAtLeast(w, n, jobs, k, l, v);
    RivalTotalAtMost(w, jobs, rival);
    Distribute(n, l, v);
  }

  lemma Distribute(n: nat, l: int, v: int)
    ensures n * (l - v) + v == n * l - (n - 1) * v
  {
  }

  /** Placed on an empty shard, a file makes it no heavier than the rival shard that holds the file. */
  lemma {:induction false} EarlyFile(w: Weight, n: nat, jobs: seq<string>, j: nat)
    requires j < n && j <= |jobs|
    ensures var before := Greedy(w, n, jobs[..j]); Total(w, before[Lightest(w, before)]) == 0
  {
    var before := Greedy(w, n, jobs[..j]);
    GreedyCovers(w, n, jobs[..j]);
    CountBounds((p: string) => w(p) > 0, jobs[..j]);
    LightestIsLight(w, before, jobs[..j], 0);
  }

  /** Placed late, file `j` joins a shard no heavier than file `2n - 1 - j`, which the rival pairs with a file of its size. */
  lemma {:induction false} LateFile(w: Weight, n: nat, jobs: seq<string>, j: nat, rival: Shards)
    requires 0 < n <= j < |jobs| && SortedBy(LptOrder(w), jobs)
    requires |rival| == n && multiset(Flatten(rival)) == multiset(jobs)
    requires Makespan(w, rival) < 3 * w(jobs[j])
    ensures var before := Greedy(w, n, jobs[..j]);
      Total(w, before[Lightest(w, before)]) + w(jobs[j]) <= Makespan(w, rival)
  {
    var v := w(jobs[j]);
    CountPrefix((p: string) => w(p) >= v, jobs, j + 1);
    AtMostTwoEach(w, n, jobs, rival, v);
    var h := 2 * n - j - 1;
    var u := w(jobs[h]);
    CountPrefix((p: string) => w(p) >= u, jobs, h + 1);
    RivalPairsLargeFile(w, jobs, rival, u, v);
    CountNoneAfter((p: string) => w(p) > u, jobs[..j], h);
    GreedyCovers(w, n, jobs[..j]);
    LightestIsLight(w, Greedy(w, n, jobs[..j]), jobs[..j], u);
  }

  /** When the last file is more than a third of the rival makespan, the shard is no heavier than the rival's. */
  lemma {:induction false} LargeLastFile(w: Weight, n: nat, jobs: seq<string>, k: nat, rival: Shards)
    requires n > 0 && k < n && SortedBy(LptOrder(w), jobs) && Greedy(w, n, jobs)[k] != []
    requires |rival| == n && multiset(Flatten(rival)) == multiset(jobs)
    requires var s := Greedy(w, n, jobs)[k]; Makespan(w, rival) < 3 * w(s[|s| - 1])
    ensures Total(w, Greedy(w, n, jobs)[k]) <= Makespan(w, rival)
  {
    var j := LastPlacement(w, n, jobs, k);
    var before := Greedy(w, n, jobs[..j]);
    TotalSnoc(w, before[k], jobs[j]);
    if j < n {
      EarlyFile(w, n, jobs, j);
      RivalHoldsFile(w, jobs, rival, jobs[j]);
    } else {
      LateFile(w, n, jobs, j, rival);
    }
  }

  lemma AtMostTwoEach(w: Weight, n: nat, jobs: seq<string>, rival: Shards, v: nat)
    requires |rival| == n && multiset(Flatten(rival)) == multiset(jobs)
    requires v > 0 && Makespan(w, rival) < 3 * v
    ensures Total(AtLeast(w, v), jobs) <= 2 * n
  {
    forall i | 0 <= i < n ensures Total(AtLeast(w, v), rival[i]) <= 2 {
      LightShardHoldsTwo(w, rival[i], v, v);
    }
    FlattenAtMost(AtLeast(w, v), rival, 2);
    TotalPermutation(AtLeast(w, v), Flatten(rival), jobs);
  }

  /**
   * The 4/3 claim, in Graham's exact form: against every way of dealing the same files
   * to `n` shards, the heaviest shard weighs at most 4/3 - 1/(3n) of the rival's heaviest.
   */
  lemma {:induction false} LptWithinFourThirds(w: Weight, n: nat, files: seq<string>, rival: Shards)
    requires n > 0 && |rival| == n && multiset(Flatten(rival)) == multiset(files)
    ensures 3 * n * Makespan(w, LptPartition(w, n, files)) <= (4 * n - 1) * Makespan(w, rival)
  {
    var jobs := Sort(LptOrder(w), files);
    LptOrderIsTotal(w);
    SortSorts(LptOrder(w), files);
    var l, m := Makespan(w, Greedy(w, n, jobs)), Makespan(w, rival);
    var v := HeaviestShard(w, n, jobs, rival);
    CombineBounds(n, l, m, v);
  }

  lemma {:induction false} HeaviestShard(w: Weight, n: nat, jobs: seq<string>, rival: Shards) returns (v: nat)
    requires n > 0 && SortedBy(LptOrder(w), jobs)
    requires |rival| == n && multiset(Flatten(rival)) == multiset(jobs)
    ensures var l, m := Makespan(w, Greedy(w, n, jobs)), Makespan(w, rival);
      l <= m || (3 * v <= m && n * l <= n * m + (n - 1) * v)
  {
    var shards := Greedy(w, n, jobs);
    var k :| 0 <= k < n && Total(w, shards[k]) == Makespan(w, shards);
    v := 0;
    if shards[k] != [] {
      v := w(shards[k][|shards[k]| - 1]);
      if Makespan(w, rival) < 3 * v {
        LargeLastFile(w, n, jobs, k, rival);
      } else {
        ListSchedulingBound(w, n, jobs, k, rival, Total(w, shards[k]), v);
      }
    }
  }

  lemma {:induction false} CombineBounds(n: nat, l: nat, m: nat, v: nat)
    requires n > 0
    requires l <= m || (3 * v <= m && n * l <= n * m + (n - 1) * v)
    ensures 3 * n * l <= (4 * n - 1) * m
  {
    var nl, nm, nv := n * l, n * m, (n - 1) * v;
    Products(n, l, m, v);
    if l <= m {
      MulMono(l, m, n);
      MulMono(1, n, m);
    } else {
      MulMono(3 * v, m, n - 1);
    }
  }

  lemma Products(n: nat, l: nat, m: nat, v: nat)
    requires n > 0
    ensures 3 * n * l == 3 * (n * l)
    ensures (4 * n - 1) * m == 4 * (n * m) - m
    ensures m * (n - 1) == n * m - m
    ensures 3 * v * (n - 1) == 3 * ((n - 1) * v)
  {
  }

  /** The bound as stated of the method itself. */
  lemma {:induction false} PartitionWithinFourThirds(files: seq<string>, weights: map<string, nat>, n: nat, fallbackWeight: Option<nat>, rival: Shards)
    requires n > 0 && |rival| == n && multiset(Flatten(rival)) == multiset(files)
    ensures var r := Partition(files, weights, n, if fallbackWeight.Some? then Some(fallbackWeight.value) else None);
      var w := Weigh(weights, FallbackWeight(weights, fallbackWeight));
      r.Ok? && 3 * n * Makespan(w, r.value) <= (4 * n - 1) * Makespan(w, rival)
  {
    var w := Weigh(weights, FallbackWeight(weights, fallbackWeight));
    LptWithinFourThirds(w, n, files, rival);
    if files == [] {
      assert Sort(LptOrder(w), files) == [];
    }
  }
}
