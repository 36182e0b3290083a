/** scripts/merge-lcov.ts: the totals of the JSON summary, by file, by top-level directory, and overall. */
module CoverageSummary {
  import opened Sorting
  import opened Text
  import opened Lcov
  import opened LcovRoundTrip

  datatype Triple = Triple(lines: nat, covered: nat)

  function Sum(a: Triple, b: Triple): Triple {
    Triple(a.lines + b.lines, a.covered + b.covered)
  }

  function FileTriple(c: FileCoverage): Triple {
    Triple(|c.da|, HitCount(c.da))
  }

  /** `src/core/x/y.ts` falls in `src/core`, `src/cli.ts` in `src`. */
  function TopLevelDir(file: string): string {
    var parts := Split(file, '/');
    if |parts| >= 3 then parts[0] + "/" + parts[1] else parts[0]
  }

  ghost function SrcFiles(merged: Merged): seq<string> {
    SortedSet(StrLe, set f | f in merged && "src/" <= f)
  }

  /** The sum over some files, of those in one directory when one is named. */
  function SumFiles(merged: Merged, files: seq<string>): Triple
    requires forall f | f in files :: f in merged
  {
    if files == [] then Triple(0, 0) else
      var last := |files| - 1;
      Sum(SumFiles(merged, files[..last]), FileTriple(merged[files[last]]))
  }

  function InDir(files: seq<string>, dir: string): (r: seq<string>)
    ensures forall f | f in r :: f in files
  {
    if files == [] then [] else
      var last := |files| - 1;
      InDir(files[..last], dir) + if TopLevelDir(files[last]) == dir then [files[last]] else []
  }

  /** The sum of a map's values. */
  ghost function SumMap(m: map<string, Triple>): Triple {
    if m == map[] then Triple(0, 0) else
      var k :| k in m;
      Sum(m[k], SumMap(m - {k}))
  }

  lemma {:induction false} SumMapWithout(m: map<string, Triple>, k: string)
    requires k in m
    ensures SumMap(m) == Sum(m[k], SumMap(m - {k}))
    decreases |m|
  {
    var j :| j in m && SumMap(m) == Sum(m[j], SumMap(m - {j}));
    if j != k {
      var rest := m - {j} - {k};
      assert rest == m - {k} - {j};
      SumMapWithout(m - {j}, k);
      SumMapWithout(m - {k}, j);
      assert SumMap(m) == Sum(m[j], Sum(m[k], SumMap(rest)));
      assert SumMap(m - {k}) == Sum(m[j], SumMap(rest));
    }
  }

  function AddTo(m: map<string, Triple>, dir: string, t: Triple): map<string, Triple> {
    m[dir := Sum(if dir in m then m[dir] else Triple(0, 0), t)]
  }

  lemma AddToSum(m: map<string, Triple>, dir: string, t: Triple)
    ensures SumMap(AddTo(m, dir, t)) == Sum(SumMap(m), t)
  {
    var n := AddTo(m, dir, t);
    SumMapWithout(n, dir);
    if dir in m {
      SumMapWithout(m, dir);
      assert n - {dir} == m - {dir};
    } else {
      assert n - {dir} == m;
    }
  }

  lemma HitCountBound(c: FileCoverage)
    ensures FileTriple(c).covered <= FileTriple(c).lines
  {
    var hit := set k | k in c.da && c.da[k] > 0;
    assert hit <= c.da.Keys;
    SubsetSize(hit, c.da.Keys);
  }

  lemma SubsetSize(a: set<int>, b: set<int>)
    requires a <= b
    ensures |a| <= |b|
  {
    assert b == a + (b - a);
  }

  /** Each directory of `dirs` sums the files that fall in it, and every file's directory is there. */
  ghost predicate Bucketed(merged: Merged, dirs: map<string, Triple>, files: seq<string>)
    requires forall f | f in files :: f in merged
  {
    && (forall d | d in dirs :: dirs[d] == SumFiles(merged, InDir(files, d)))
    && (forall d | d !in dirs :: InDir(files, d) == [])
    && (forall f | f in files :: TopLevelDir(f) in dirs)
  }

  lemma {:induction false} BucketStep(merged: Merged, dirs: map<string, Triple>, files: seq<string>, f: string)
    requires (forall g | g in files :: g in merged) && f in merged && Bucketed(merged, dirs, files)
    ensures forall g | g in files + [f] :: g in merged
    ensures Bucketed(merged, AddTo(dirs, TopLevelDir(f), FileTriple(merged[f])), files + [f])
  {
    hide TopLevelDir, FileTriple, SumFiles;
    var dir, all := TopLevelDir(f), files + [f];
    var next := AddTo(dirs, dir, FileTriple(merged[f]));
    SumNothing(merged);
    forall d ensures (d in next ==> next[d] == SumFiles(merged, InDir(all, d))) && (d !in next ==> InDir(all, d) == []) {
      InDirSnoc(files, f, d);
      if d == dir {
        SumFilesSnoc(merged, InDir(files, d), f);
      }
    }
  }

  lemma InDirSnoc(files: seq<string>, f: string, d: string)
    ensures InDir(files + [f], d) == if TopLevelDir(f) == d then InDir(files, d) + [f] else InDir(files, d)
  {
  }

  /**
   * The summary loop of `main`. Its totals add up: each directory is the sum of the
   * source files in it, and files and directories alike sum to the overall total.
   */
  method Summarize(merged: Merged)
    returns (dirs: map<string, Triple>, total: Triple)
    ensures forall f | f in SrcFiles(merged) :: f in merged
    ensures Bucketed(merged, dirs, SrcFiles(merged))
    ensures SumMap(dirs) == total == SumFiles(merged, SrcFiles(merged))
    ensures total.covered <= total.lines
  {
    hide Sort, SortedSet, TopLevelDir, FileTriple, SumFiles, InDir, SumMap, AddTo;
    SumNothing(merged);
    var scoped := set f | f in merged && "src/" <= f;
    var listing := ListOf(scoped);
    StrLeIsTotalOrder();
    SortOfListing(StrLe, listing, scoped);
    SortedSetFacts(StrLe, scoped);
    var srcFiles := Sort(StrLe, listing);
    assert srcFiles == SrcFiles(merged);
    assert forall f | f in srcFiles :: f in scoped;
    dirs, total := map[], Triple(0, 0);
    for i := 0 to |srcFiles|
      invariant forall f | f in srcFiles :: f in merged
      invariant Bucketed(merged, dirs, srcFiles[..i])
      invariant SumMap(dirs) == total == SumFiles(merged, srcFiles[..i])
      invariant total.covered <= total.lines
    {
      var f := srcFiles[i];
      assert f in srcFiles;
      var t := FileTriple(merged[f]);
      ghost var front := srcFiles[..i];
      assert srcFiles[..i + 1] == front + [f];
      HitCountBound(merged[f]);
      SumFilesSnoc(merged, front, f);
      BucketStep(merged, dirs, front, f);
      var dir := TopLevelDir(f);
      AddToSum(dirs, dir, t);
      total := Sum(total, t);
      dirs := AddTo(dirs, dir, t);
    }
    assert srcFiles[..|srcFiles|] == srcFiles;
  }

  lemma SumNothing(merged: Merged)
    ensures SumFiles(merged, []) == SumMap(map[]) == Triple(0, 0)
    ensures forall d :: InDir([], d) == []
  {
  }

  lemma SumFilesSnoc(merged: Merged, files: seq<string>, f: string)
    requires (forall g | g in files :: g in merged) && f in merged
    ensures SumFiles(merged, files + [f]) == Sum(SumFiles(merged, files), FileTriple(merged[f]))
  {
  }
}
