/**
 * scripts/merge-lcov.ts: the lcov records of the test lanes, how they are merged, and the
 * lcov text in which they come and go.
 */
module Lcov {
  import opened Folding
  import opened Sorting

  /** One SF..end_of_record block, its entries in file order: (line, hits), (name, line), (name, hits). */
  datatype Record = Record(sf: string, da: seq<(int, int)>, fn: seq<(string, int)>, fnda: seq<(string, int)>)

  /** Merged data of one file: hits by line, lowest line by function, hits by function. */
  datatype FileCoverage = FileCoverage(da: map<int, int>, fnLine: map<string, int>, fnda: map<string, int>)

  type Merged = map<string, FileCoverage>

  const NO_COVERAGE := FileCoverage(map[], map[], map[])

  // ----- merging -----

  function AddHits<K>(m: map<K, int>, e: (K, int)): map<K, int> {
    m[e.0 := (if e.0 in m then m[e.0] else 0) + e.1]
  }

  function KeepLowest<K>(m: map<K, int>, e: (K, int)): map<K, int> {
    if e.0 !in m || e.1 < m[e.0] then m[e.0 := e.1] else m
  }

  function Adding<K>(): (map<K, int>, (K, int)) -> map<K, int> {
    (m, e) => AddHits(m, e)
  }

  function Lowering<K>(): (map<K, int>, (K, int)) -> map<K, int> {
    (m, e) => KeepLowest(m, e)
  }

  function MergeInto(f: FileCoverage, rec: Record): FileCoverage {
    FileCoverage(Fold(Adding(), f.da, rec.da), Fold(Lowering(), f.fnLine, rec.fn), Fold(Adding(), f.fnda, rec.fnda))
  }

  /** `mergeRecord`, on the map's value. */
  function MergeRecord(merged: Merged, sf: string, rec: Record): Merged {
    merged[sf := MergeInto(if sf in merged then merged[sf] else NO_COVERAGE, rec)]
  }

  function Merging(): (Merged, (string, Record)) -> Merged {
    (merged: Merged, r: (string, Record)) => MergeRecord(merged, r.0, r.1)
  }

  /** The records of all lanes, under their normalized paths, merged one after another. */
  function MergeAll(merged: Merged, recs: seq<(string, Record)>): Merged {
    Fold(Merging(), merged, recs)
  }

  class Coverage {
    var merged: Merged

    constructor ()
      ensures merged == map[]
    {
      merged := map[];
    }

    method Merge(sf: string, rec: Record)
      modifies this
      ensures merged == MergeRecord(old(merged), sf, rec)
    {
      hide Fold;
      if sf !in merged {
        merged := merged[sf := NO_COVERAGE];
      }
      var f := merged[sf];
      var da, fnLine, fnda := f.da, f.fnLine, f.fnda;
      FoldEmpty(Adding(), f.da);
      FoldEmpty(Lowering(), f.fnLine);
      FoldEmpty(Adding(), f.fnda);
      for i := 0 to |rec.da|
        modifies {}
        invariant da == Fold(Adding(), f.da, rec.da[..i])
      {
        var (line, hits) := rec.da[i];
        FoldStep(Adding(), f.da, rec.da, i);
        da := da[line := (if line in da then da[line] else 0) + hits];
      }
      for i := 0 to |rec.fn|
        modifies {}
        invariant fnLine == Fold(Lowering(), f.fnLine, rec.fn[..i])
      {
        var (name, line) := rec.fn[i];
        FoldStep(Lowering(), f.fnLine, rec.fn, i);
        if name !in fnLine || line < fnLine[name] {
          fnLine := fnLine[name := line];
        }
      }
      for i := 0 to |rec.fnda|
        modifies {}
        invariant fnda == Fold(Adding(), f.fnda, rec.fnda[..i])
      {
        var (name, hits) := rec.fnda[i];
        FoldStep(Adding(), f.fnda, rec.fnda, i);
        fnda := fnda[name := (if name in fnda then fnda[name] else 0) + hits];
      }
      assert rec.da[..|rec.da|] == rec.da && rec.fn[..|rec.fn|] == rec.fn && rec.fnda[..|rec.fnda|] == rec.fnda;
      assert FileCoverage(da, fnLine, fnda) == MergeInto(f, rec);
      merged := merged[sf := FileCoverage(da, fnLine, fnda)];
    }
  }

  // ----- the order of lanes does not matter -----

  lemma AddTwice<K>(m: map<K, int>, a: (K, int), b: (K, int))
    ensures AddHits(AddHits(m, a), b) == AddHits(AddHits(m, b), a)
  {
    assert AddHits(AddHits(m, a), b).Keys == AddHits(AddHits(m, b), a).Keys;
  }

  lemma LowerTwice<K>(m: map<K, int>, a: (K, int), b: (K, int))
    ensures KeepLowest(KeepLowest(m, a), b) == KeepLowest(KeepLowest(m, b), a)
  {
  }

  lemma AddingCommutes<K(!new)>()
    ensures Commutes(Adding<K>())
  {
    forall m: map<K, int>, a, b ensures AddHits(AddHits(m, a), b) == AddHits(AddHits(m, b), a) {
      AddTwice(m, a, b);
    }
  }

  lemma LoweringCommutes<K(!new)>()
    ensures Commutes(Lowering<K>())
  {
    forall m: map<K, int>, a, b ensures KeepLowest(KeepLowest(m, a), b) == KeepLowest(KeepLowest(m, b), a) {
      LowerTwice(m, a, b);
    }
  }

  lemma FoldBothWays<S(!new), X(!new)>(f: (S, X) -> S, s: S, xs: seq<X>, ys: seq<X>)
    requires Commutes(f)
    ensures Fold(f, Fold(f, s, xs), ys) == Fold(f, Fold(f, s, ys), xs)
  {
    FoldConcat(f, s, xs, ys);
    FoldConcat(f, s, ys, xs);
    FoldPermutation(f, s, xs + ys, ys + xs);
  }

  lemma MergeIntoCommutes(f: FileCoverage, a: Record, b: Record)
    ensures MergeInto(MergeInto(f, a), b) == MergeInto(MergeInto(f, b), a)
  {
    AddingCommutes<int>();
    AddingCommutes<string>();
    LoweringCommutes<string>();
    FoldBothWays(Adding(), f.da, a.da, b.da);
    FoldBothWays(Lowering(), f.fnLine, a.fn, b.fn);
    FoldBothWays(Adding(), f.fnda, a.fnda, b.fnda);
  }

  lemma MergeRecordTwice(m: Merged, a: (string, Record), b: (string, Record))
    ensures MergeRecord(MergeRecord(m, a.0, a.1), b.0, b.1) == MergeRecord(MergeRecord(m, b.0, b.1), a.0, a.1)
  {
    hide MergeInto;
    if a.0 == b.0 {
      var f := if a.0 in m then m[a.0] else NO_COVERAGE;
      MergeIntoCommutes(f, a.1, b.1);
      assert MergeRecord(MergeRecord(m, a.0, a.1), b.0, b.1) == m[a.0 := MergeInto(MergeInto(f, a.1), b.1)];
      assert MergeRecord(MergeRecord(m, b.0, b.1), a.0, a.1) == m[a.0 := MergeInto(MergeInto(f, b.1), a.1)];
    }
  }

  lemma MergingCommutes()
    ensures Commutes(Merging())
  {
    hide MergeRecord;
    forall m, a: (string, Record), b: (string, Record)
      ensures MergeRecord(MergeRecord(m, a.0, a.1), b.0, b.1) == MergeRecord(MergeRecord(m, b.0, b.1), a.0, a.1)
    {
      MergeRecordTwice(m, a, b);
    }
  }

  /** Merging the lanes' records in any order gives the same data. */
  lemma MergeOrderIndependent(merged: Merged, recs: seq<(string, Record)>, others: seq<(string, Record)>)
    requires multiset(recs) == multiset(others)
    ensures MergeAll(merged, recs) == MergeAll(merged, others)
  {
    MergingCommutes();
    FoldPermutation(Merging(), merged, recs, others);
  }

  // ----- merging a listing of a map -----

  /** `entries` lists the map's items, each key once. */
  ghost predicate ListsItems<K>(entries: seq<(K, int)>, m: map<K, int>) {
    && (forall i, j | 0 <= i < j < |entries| :: entries[i].0 != entries[j].0)
    && (forall i | 0 <= i < |entries| :: entries[i].0 in m && m[entries[i].0] == entries[i].1)
    && (forall k | k in m :: (k, m[k]) in entries)
  }

  /** The keys of both maps, values added. */
  function Plus<K>(a: map<K, int>, b: map<K, int>): map<K, int> {
    map k | k in a.Keys + b.Keys :: (if k in a then a[k] else 0) + (if k in b then b[k] else 0)
  }

  /** The keys of both maps, the lower value kept. */
  function Lowest<K>(a: map<K, int>, b: map<K, int>): map<K, int> {
    map k | k in a.Keys + b.Keys :: if k !in b || (k in a && a[k] <= b[k]) then a[k] else b[k]
  }

  lemma ListsItemsLast<K>(entries: seq<(K, int)>, m: map<K, int>)
    requires ListsItems(entries, m) && entries != []
    ensures ListsItems(entries[..|entries| - 1], m - {entries[|entries| - 1].0})
    ensures var e := entries[|entries| - 1]; e.0 in m && m[e.0] == e.1
  {
    var front, k := entries[..|entries| - 1], entries[|entries| - 1].0;
    forall j | j in m && j != k ensures (j, m[j]) in front {
      var i :| 0 <= i < |entries| && entries[i] == (j, m[j]);
      assert front[i] == entries[i];
    }
  }

  lemma PlusStep<K>(a: map<K, int>, m: map<K, int>, e: (K, int))
    requires e.0 in m && m[e.0] == e.1
    ensures AddHits(Plus(a, m - {e.0}), e) == Plus(a, m)
  {
    assert AddHits(Plus(a, m - {e.0}), e).Keys == Plus(a, m).Keys;
  }

  lemma LowestStep<K>(a: map<K, int>, m: map<K, int>, e: (K, int))
    requires e.0 in m && m[e.0] == e.1
    ensures KeepLowest(Lowest(a, m - {e.0}), e) == Lowest(a, m)
  {
    assert KeepLowest(Lowest(a, m - {e.0}), e).Keys == Lowest(a, m).Keys;
  }

  lemma {:induction false} AddListing<K(!new)>(a: map<K, int>, entries: seq<(K, int)>, m: map<K, int>)
    requires ListsItems(entries, m)
    ensures Fold(Adding(), a, entries) == Plus(a, m)
  {
    if entries == [] {
      assert m == map[];
    } else {
      var e := entries[|entries| - 1];
      hide Plus, ListsItems;
      ListsItemsLast(entries, m);
      AddListing(a, entries[..|entries| - 1], m - {e.0});
      PlusStep(a, m, e);
    }
  }

  lemma {:induction false} LowerListing<K(!new)>(a: map<K, int>, entries: seq<(K, int)>, m: map<K, int>)
    requires ListsItems(entries, m)
    ensures Fold(Lowering(), a, entries) == Lowest(a, m)
  {
    if entries == [] {
      assert m == map[];
    } else {
      var e := entries[|entries| - 1];
      hide Lowest, ListsItems, KeepLowest;
      ListsItemsLast(entries, m);
      LowerListing(a, entries[..|entries| - 1], m - {e.0});
      LowestStep(a, m, e);
    }
  }

  function Pairs<K>(keys: seq<K>, m: map<K, int>): (r: seq<(K, int)>)
    requires forall k | k in keys :: k in m
    ensures |r| == |keys| && forall i | 0 <= i < |r| :: r[i] == (keys[i], m[keys[i]])
  {
    seq(|keys|, i requires 0 <= i < |keys| => (keys[i], m[keys[i]]))
  }

  lemma PairsList<K(!new)>(keys: seq<K>, m: map<K, int>)
    requires Lists(keys, m.Keys)
    ensures ListsItems(Pairs(keys, m), m)
  {
    forall k | k in m ensures (k, m[k]) in Pairs(keys, m) {
      var i :| 0 <= i < |keys| && keys[i] == k;
      assert Pairs(keys, m)[i] == (k, m[k]);
    }
  }
}
