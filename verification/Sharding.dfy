/**
 * scripts/sharding.ts: the weight-aware partition of test files into shards, by
 * longest-processing-time-first greedy bin packing. Weights are whole milliseconds.
 */
module Sharding {
  import opened Results
  import opened Folding
  import opened Sorting

  type Weight = string -> nat
  type Shards = seq<seq<string>>

  datatype PartitionError = ShardCountNotPositive | FallbackNegative

  // ----- weights -----

  /** Index of the nearest-rank quantile `num / den` in a sorted list of `len` values. */
  function QuantileIndex(len: nat, num: nat, den: nat): (i: nat)
    requires len > 0 && den > 0
    ensures i < len
  {
    var ceil := (num * len + den - 1) / den;
    var rank := if ceil - 1 < 0 then 0 else ceil - 1;
    if len - 1 < rank then len - 1 else rank
  }

  /** `computeQuantile`. */
  function Quantile(values: seq<int>, num: nat, den: nat): (q: int)
    requires den > 0
    ensures if values == [] then q == 0 else q in values
  {
    if values == [] then 0 else
      SortedValues(values);
      var sorted := Sort(IntLe, values);
      var q := sorted[QuantileIndex(|values|, num, den)];
      assert q in multiset(sorted);
      q
  }

  lemma SortedValues(values: seq<int>)
    ensures SortedBy(IntLe, Sort(IntLe, values)) && multiset(Sort(IntLe, values)) == multiset(values)
    ensures |Sort(IntLe, values)| == |values|
  {
    IntLeIsTotalOrder();
    SortSorts(IntLe, values);
    assert |multiset(Sort(IntLe, values))| == |multiset(values)|;
  }

  function AtMost(q: int, values: seq<int>): nat {
    Count((v: int) => v <= q, values)
  }

  function Below(q: int, values: seq<int>): nat {
    Count((v: int) => v < q, values)
  }

  /**
   * The nearest-rank meaning: at least `num / den` of the values are at most the
   * quantile, and fewer than `num / den` of them are below it; for 0 it is the minimum.
   */
  lemma QuantileIsNearestRank(values: seq<int>, num: nat, den: nat)
    requires values != [] && num <= den && den > 0
    ensures AtMost(Quantile(values, num, den), values) * den >= num * |values|
    ensures if num == 0 then Below(Quantile(values, num, den), values) == 0
      else Below(Quantile(values, num, den), values) * den < num * |values|
  {
    QuantileCounts(values, num, den);
    var q := Quantile(values, num, den);
    var atMost, below := AtMost(q, values), Below(q, values);
    if num == 0 {
      FirstRank(|values|, den);
      NoLess(atMost, den);
    } else {
      QuantileRank(|values|, num, den, atMost, below);
    }
  }

  lemma FirstRank(len: nat, den: nat)
    requires len > 0 && den > 0
    ensures QuantileIndex(len, 0, den) == 0
  {
  }

  lemma NoLess(a: nat, d: nat)
    ensures a * d >= 0
  {
  }

  lemma QuantileCounts(values: seq<int>, num: nat, den: nat)
    requires values != [] && den > 0
    ensures Below(Quantile(values, num, den), values) <= QuantileIndex(|values|, num, den)
    ensures QuantileIndex(|values|, num, den) < AtMost(Quantile(values, num, den), values)
  {
    hide Sort, Total;
    SortedValues(values);
    var i := QuantileIndex(|values|, num, den);
    var s := Sort(IntLe, values);
    var q := s[i];
    var atMost, below := (v: int) => v <= q, (v: int) => v < q;
    TotalPermutation(Indicator(atMost), s, values);
    TotalPermutation(Indicator(below), s, values);
    CountPrefix(atMost, s, i + 1);
    CountNoneAfter(below, s, i);
  }

  lemma MulMono(a: int, b: int, d: nat)
    requires a <= b
    ensures a * d <= b * d
  {
  }

  lemma {:induction false} QuantileRank(len: nat, num: nat, den: nat, atMost: nat, below: nat)
    requires len > 0 && 0 < num <= den
    requires below <= QuantileIndex(len, num, den) < atMost
    ensures below * den < num * len <= atMost * den
  {
    var a := num * len;
    assert 0 < a by { MulMono(1, num, len); }
    assert a <= len * den by { MulMono(num, den, len); }
    CeilingFacts(a, den);
    var ceil := (a + den - 1) / den;
    if ceil > len {
      MulMono(len, ceil - 1, den);
      assert false;
    }
    MulMono(ceil, atMost, den);
    MulMono(below, ceil - 1, den);
  }

  lemma CeilingFacts(a: nat, d: nat)
    requires d > 0
    ensures var c := (a + d - 1) / d; c * d >= a && (a > 0 ==> c > 0 && (c - 1) * d < a)
  {
  }

  /** The values a map's `values()` yields when its keys come in the order `keys`. */
  function ValuesOf(weights: map<string, nat>, keys: seq<string>): seq<int>
    requires forall k | k in keys :: k in weights
  {
    seq(|keys|, i requires 0 <= i < |keys| => weights[keys[i]])
  }

  function AddValue(weights: map<string, nat>, s: multiset<int>, k: string): multiset<int> {
    s + multiset{if k in weights then weights[k] else 0}
  }

  function AddingValue(weights: map<string, nat>): (multiset<int>, string) -> multiset<int> {
    (s, k) => AddValue(weights, s, k)
  }

  lemma AddValueCommutes(weights: map<string, nat>)
    ensures Commutes(AddingValue(weights))
  {
    forall s, x, y ensures AddValue(weights, AddValue(weights, s, x), y) == AddValue(weights, AddValue(weights, s, y), x) {
    }
  }

  lemma ValuesOfPermutation(weights: map<string, nat>, a: seq<string>, b: seq<string>)
    requires Lists(a, weights.Keys) && Lists(b, weights.Keys)
    ensures multiset(ValuesOf(weights, a)) == multiset(ValuesOf(weights, b))
  {
    ListsSameMultiset(a, b, weights.Keys);
    ValuesAsFold(weights, a);
    ValuesAsFold(weights, b);
    AddValueCommutes(weights);
    FoldPermutation(AddingValue(weights), multiset{}, a, b);
  }

  lemma {:induction false} ValuesAsFold(weights: map<string, nat>, keys: seq<string>)
    requires forall k | k in keys :: k in weights
    ensures multiset(ValuesOf(weights, keys)) == Fold(AddingValue(weights), multiset{}, keys)
  {
    if keys != [] {
      var m := |keys| - 1;
      assert keys == keys[..m] + [keys[m]];
      ValuesAsFold(weights, keys[..m]);
      assert ValuesOf(weights, keys) == ValuesOf(weights, keys[..m]) + [weights[keys[m]]];
    }
  }

  /** The weight given to files the map lacks: the override, else the p75, else 1. */
  ghost function FallbackWeight(weights: map<string, nat>, fallbackWeight: Option<nat>): nat {
    match fallbackWeight
    case Some(w) => w
    case None =>
      var q := Quantile(ValuesOf(weights, Listing(weights.Keys)), 3, 4);
      if q == 0 then 1 else q
  }

  function Weigh(weights: map<string, nat>, fallback: nat): Weight {
    p => if p in weights then weights[p] else fallback
  }

  // ----- the greedy rule -----

  /** Heaviest first, equal weights by path. */
  function LptOrder(w: Weight): (string, string) -> bool {
    (p, q) => w(p) > w(q) || (w(p) == w(q) && StrLe(p, q))
  }

  lemma LptOrderIsTotal(w: Weight)
    ensures TotalOrder(LptOrder(w))
  {
    StrLeIsTotalOrder();
  }

  function Loads(w: Weight, shards: Shards): (loads: seq<nat>)
    ensures |loads| == |shards|
    ensures forall i | 0 <= i < |shards| :: loads[i] == Total(w, shards[i])
  {
    if shards == [] then [] else
      var last := |shards| - 1;
      Loads(w, shards[..last]) + [Total(w, shards[last])]
  }

  /** The index, among the first `upTo`, that the inner loop settles on. */
  function ArgMin(totals: seq<nat>, upTo: nat): (k: nat)
    requires 0 < upTo <= |totals|
    ensures k < upTo
  {
    if upTo == 1 then 0 else
      var k := ArgMin(totals, upTo - 1);
      if totals[upTo - 1] < totals[k] then upTo - 1 else k
  }

  lemma ArgMinOfOne(totals: seq<nat>)
    requires totals != []
    ensures ArgMin(totals, 1) == 0
  {
  }

  lemma ArgMinStep(totals: seq<nat>, i: nat)
    requires 0 < i < |totals|
    ensures ArgMin(totals, i + 1) == if totals[i] < totals[ArgMin(totals, i)] then i else ArgMin(totals, i)
  {
  }

  /** It is the lowest index of a lightest entry. */
  lemma {:induction false} ArgMinIsLowestLightest(totals: seq<nat>, upTo: nat)
    requires 0 < upTo <= |totals|
    ensures forall i | 0 <= i < upTo :: totals[ArgMin(totals, upTo)] <= totals[i]
    ensures forall i | 0 <= i < ArgMin(totals, upTo) :: totals[ArgMin(totals, upTo)] < totals[i]
  {
    if upTo > 1 {
      ArgMinIsLowestLightest(totals, upTo - 1);
    }
  }

  function Lightest(w: Weight, shards: Shards): (k: nat)
    requires shards != []
    ensures k < |shards|
    ensures forall i | 0 <= i < |shards| :: Total(w, shards[k]) <= Total(w, shards[i])
  {
    var loads := Loads(w, shards);
    ArgMinIsLowestLightest(loads, |shards|);
    var k := ArgMin(loads, |shards|);
    assert forall i | 0 <= i < |shards| :: loads[k] <= loads[i];
    k
  }

  function Place(w: Weight, shards: Shards, file: string): Shards
    requires shards != []
  {
    var k := Lightest(w, shards);
    shards[k := shards[k] + [file]]
  }

  /** Files placed one after another, each on the lightest shard so far. */
  function Greedy(w: Weight, n: nat, jobs: seq<string>): (shards: Shards)
    requires n > 0
    ensures |shards| == n
  {
    if jobs == [] then seq(n, _ => [])
    else Place(w, Greedy(w, n, jobs[..|jobs| - 1]), jobs[|jobs| - 1])
  }

  lemma GreedyStart(w: Weight, shards: Shards, totals: seq<nat>)
    requires shards != [] && forall i | 0 <= i < |shards| :: shards[i] == []
    requires |totals| == |shards| && forall i | 0 <= i < |totals| :: totals[i] == 0
    ensures shards == Greedy(w, |shards|, []) && totals == Loads(w, shards)
  {
  }

  /** One step of the rule, told as the update of the shards and of their running totals. */
  lemma {:induction false} GreedyStep(w: Weight, n: nat, jobs: seq<string>, j: nat, placed: Shards, loads: seq<nat>, k: nat)
    requires n > 0 && j < |jobs| && placed == Greedy(w, n, jobs[..j])
    requires loads == Loads(w, placed) && k == ArgMin(loads, n)
    ensures placed[k := placed[k] + [jobs[j]]] == Greedy(w, n, jobs[..j + 1])
    ensures loads[k := loads[k] + w(jobs[j])] == Loads(w, placed[k := placed[k] + [jobs[j]]])
  {
    assert jobs[..j + 1][..j] == jobs[..j];
    TotalSnoc(w, placed[k], jobs[j]);
    var next := placed[k := placed[k] + [jobs[j]]];
    forall i | 0 <= i < n ensures loads[k := loads[k] + w(jobs[j])][i] == Loads(w, next)[i] {
      assert Loads(w, next)[i] == Total(w, next[i]);
    }
  }

  function LptPartition(w: Weight, n: nat, files: seq<string>): (shards: Shards)
    requires n > 0
    ensures |shards| == n
  {
    Greedy(w, n, Sort(LptOrder(w), files))
  }

  /** What `partition` returns. */
  ghost function Partition(files: seq<string>, weights: map<string, nat>, n: int, fallbackWeight: Option<int>)
    : Result<Shards, PartitionError>
  {
    if n <= 0 then Err(ShardCountNotPositive)
    else if files == [] then Ok(seq(n, _ => []))
    else if fallbackWeight.Some? && fallbackWeight.value < 0 then Err(FallbackNegative)
    else
      var fallback := FallbackWeight(weights, if fallbackWeight.Some? then Some(fallbackWeight.value) else None);
      Ok(LptPartition(Weigh(weights, fallback), n, files))
  }

  /** The p75 of the map's weights, read in whatever order the map yields them. */
  method ComputeFallback(weights: map<string, nat>) returns (q: int)
    ensures q == Quantile(ValuesOf(weights, Listing(weights.Keys)), 3, 4)
  {
    var values: seq<int> := [];
    var todo := weights.Keys;
    ghost var keys: seq<string> := [];
    while todo != {}
      invariant todo <= weights.Keys
      invariant Lists(keys, weights.Keys - todo)
      invariant values == ValuesOf(weights, keys)
    {
      var k :| k in todo;
      assert k !in keys;
      todo := todo - {k};
      values := values + [weights[k]];
      keys := keys + [k];
    }
    ValuesOfPermutation(weights, keys, Listing(weights.Keys));
    IntLeIsTotalOrder();
    SortOfPermutation(IntLe, values, ValuesOf(weights, Listing(weights.Keys)));
    assert |multiset(values)| == |multiset(ValuesOf(weights, Listing(weights.Keys)))|;
    q := Quantile(values, 3, 4);
  }

  /** The nested loops of `partition`: `totals` runs beside `shards`. */
  method FillShards(w: Weight, n: nat, jobs: seq<string>) returns (result: Shards)
    requires n > 0
    ensures result == Greedy(w, n, jobs)
  {
    hide Greedy, Loads, ArgMin;
    var shards := new seq<string>[n](_ => []);
    var totals := new nat[n](_ => 0);
    GreedyStart(w, shards[..], totals[..]);
    assert jobs[..0] == [];
    for j := 0 to |jobs|
      invariant shards[..] == Greedy(w, n, jobs[..j])
      invariant totals[..] == Loads(w, shards[..])
    {
      var weight := w(jobs[j]);
      ghost var placed, loads := shards[..], totals[..];
      var minIdx := 0;
      ArgMinOfOne(loads);
      for i := 1 to n
        modifies {}
        invariant 0 <= minIdx < n
        invariant minIdx == ArgMin(loads, i)
      {
        ArgMinStep(loads, i);
        if totals[i] < totals[minIdx] {
          minIdx := i;
        }
      }
      GreedyStep(w, n, jobs, j, placed, loads, minIdx);
      shards[minIdx] := shards[minIdx] + [jobs[j]];
      totals[minIdx] := totals[minIdx] + weight;
      assert shards[..] == placed[minIdx := placed[minIdx] + [jobs[j]]];
      assert totals[..] == loads[minIdx := loads[minIdx] + weight];
    }
    assert jobs[..|jobs|] == jobs;
    result := shards[..];
  }

  method PartitionFiles(files: seq<string>, weights: map<string, nat>, n: int, fallbackWeight: Option<int>)
    returns (result: Result<Shards, PartitionError>)
    ensures result == Partition(files, weights, n, fallbackWeight)
  {
    if n <= 0 {
      return Err(ShardCountNotPositive);
    }
    if files == [] {
      return Ok(seq(n, _ => []));
    }
    var fallback: nat;
    if fallbackWeight.Some? {
      if fallbackWeight.value < 0 {
        return Err(FallbackNegative);
      }
      fallback := fallbackWeight.value;
    } else {
      var q := ComputeFallback(weights);
      fallback := if q == 0 then 1 else q;
    }
    var w := Weigh(weights, fallback);
    var shards := FillShards(w, n, Sort(LptOrder(w), files));
    result := Ok(shards);
  }
}
