/** scripts/merge-lcov.ts: what the totals of the JSON summary count. */
module SummaryMeaning {
  import opened Counting
  import opened CoverageSummary
  import opened Folding
  import opened Lcov
  import opened LcovRoundTrip
  import opened Sorting
  import opened Text

  /** The directory under which a source file is counted: `src`, or the one below it that holds the file. */
  ghost predicate FallsIn(f: string, dir: string) {
    || (dir == "src" && exists name :: '/' !in name && f == "src/" + name)
    || exists sub, rest :: '/' !in sub && f == "src/" + (sub + ("/" + rest)) && dir == "src/" + sub
  }

  /** The recorded lines of the source files of a directory, or of all when none is named. */
  ghost function LinesIn(merged: Merged, files: set<string>): set<(string, int)> {
    set f, line | f in files && f in merged && line in merged[f].da :: (f, line)
  }

  ghost function HitLinesIn(merged: Merged, files: set<string>): set<(string, int)> {
    set f, line | f in files && f in merged && line in merged[f].da && merged[f].da[line] > 0 :: (f, line)
  }

  ghost function Sources(merged: Merged): set<string> {
    set f | f in merged && "src/" <= f
  }

  ghost function SourcesIn(merged: Merged, dir: string): set<string> {
    set f | f in merged && "src/" <= f && FallsIn(f, dir)
  }

  // ----- directories -----

  lemma SplitNone(s: string)
    requires '/' !in s
    ensures Split(s, '/') == [s]
  {
  }

  lemma DirOfTopFile(name: string)
    requires '/' !in name
    ensures TopLevelDir("src/" + name) == "src"
  {
    assert "src/" + name == "src" + ['/'] + name;
    SplitFirst("src", '/', name);
    SplitNone(name);
  }

  lemma DirOfNestedFile(sub: string, rest: string)
    requires '/' !in sub
    ensures TopLevelDir("src/" + (sub + ("/" + rest))) == "src/" + sub
  {
    assert "src/" + (sub + ("/" + rest)) == "src" + ['/'] + (sub + ['/'] + rest);
    SplitFirst("src", '/', sub + ['/'] + rest);
    SplitFirst(sub, '/', rest);
    hide Split;
    assert "src" + "/" + sub == "src/" + sub;
  }

  lemma DirIsOne(f: string, dir: string)
    requires FallsIn(f, dir)
    ensures TopLevelDir(f) == dir
  {
    hide TopLevelDir;
    if name :| dir == "src" && '/' !in name && f == "src/" + name {
      DirOfTopFile(name);
    } else {
      var sub, rest :| '/' !in sub && f == "src/" + (sub + ("/" + rest)) && dir == "src/" + sub;
      DirOfNestedFile(sub, rest);
    }
  }

  lemma FallsSomewhere(f: string) returns (dir: string)
    requires "src/" <= f
    ensures FallsIn(f, dir)
  {
    var tail := f[4..];
    assert f == "src/" + tail;
    var slash := IndexOf(tail, '/');
    hide IndexOf;
    if slash < 0 {
      dir := "src";
    } else {
      var sub, rest := tail[..slash], tail[slash + 1..];
      assert tail == sub + ("/" + rest);
      dir := "src/" + sub;
    }
  }

  /** Every source file is counted under the one directory it falls in. */
  lemma DirsAre(f: string, dir: string)
    requires "src/" <= f
    ensures TopLevelDir(f) == dir <==> FallsIn(f, dir)
  {
    hide TopLevelDir, FallsIn;
    var own := FallsSomewhere(f);
    DirIsOne(f, own);
    if FallsIn(f, dir) {
      DirIsOne(f, dir);
    }
  }

  // ----- sums -----

  ghost function LinesOf(merged: Merged): string -> set<int> {
    (f: string) => if f in merged then merged[f].da.Keys else {}
  }

  ghost function HitLinesOf(merged: Merged): string -> set<int> {
    (f: string) => if f in merged then set line | line in merged[f].da && merged[f].da[line] > 0 else {}
  }

  function LineCount(merged: Merged): string -> nat {
    (f: string) => if f in merged then |merged[f].da| else 0
  }

  ghost function HitLineCount(merged: Merged): string -> nat {
    (f: string) => |HitLinesOf(merged)(f)|
  }

  lemma {:induction false} SumIsTotal(merged: Merged, files: seq<string>)
    requires forall f | f in files :: f in merged
    ensures SumFiles(merged, files) == Triple(Total(LineCount(merged), files), Total(HitLineCount(merged), files))
  {
    if files != [] {
      var front, last := files[..|files| - 1], files[|files| - 1];
      assert files == front + [last] && last in files;
      assert HitLinesOf(merged)(last) == set k | k in merged[last].da && merged[last].da[k] > 0;
      SumIsTotal(merged, front);
    }
  }

  lemma SumIsSize(merged: Merged, files: seq<string>, scoped: set<string>)
    requires Lists(files, scoped) && forall f | f in files :: f in merged
    ensures SumFiles(merged, files) == Triple(|LinesIn(merged, scoped)|, |HitLinesIn(merged, scoped)|)
  {
    hide SumFiles;
    SumIsTotal(merged, files);
    hide Total, LinesIn, HitLinesIn, PairsOf;
    forall f | f in scoped ensures LineCount(merged)(f) == |LinesOf(merged)(f)| {
      assert |merged[f].da.Keys| == |merged[f].da|;
    }
    TotalOfDistinct(LineCount(merged), LinesOf(merged), files, scoped);
    TotalOfDistinct(HitLineCount(merged), HitLinesOf(merged), files, scoped);
    PairsAreLines(merged, scoped);
  }

  lemma PairsAreLines(merged: Merged, scoped: set<string>)
    requires forall f | f in scoped :: f in merged
    ensures PairsOf(LinesOf(merged), scoped) == LinesIn(merged, scoped)
    ensures PairsOf(HitLinesOf(merged), scoped) == HitLinesIn(merged, scoped)
  {
    forall f, line: int
      ensures (f, line) in PairsOf(LinesOf(merged), scoped) <==> (f, line) in LinesIn(merged, scoped)
      ensures (f, line) in PairsOf(HitLinesOf(merged), scoped) <==> (f, line) in HitLinesIn(merged, scoped)
    {
    }
  }

  lemma {:induction false} InDirLists(files: seq<string>, dir: string)
    requires NoDup(files)
    ensures NoDup(InDir(files, dir)) && forall f :: f in InDir(files, dir) <==> f in files && TopLevelDir(f) == dir
  {
    hide TopLevelDir;
    if files != [] {
      var front, last := files[..|files| - 1], files[|files| - 1];
      assert files == front + [last] && last !in front;
      InDirLists(front, dir);
    }
  }

  /**
   * The summary's totals, exactly: overall, the recorded lines of the source files and those
   * hit; and by directory, those of the files that fall in it, for each directory that has any.
   */
  lemma SummaryCounts(merged: Merged, dirs: map<string, Triple>, total: Triple)
    requires forall f | f in SrcFiles(merged) :: f in merged
    requires Bucketed(merged, dirs, SrcFiles(merged)) && total == SumFiles(merged, SrcFiles(merged))
    ensures total == Triple(|LinesIn(merged, Sources(merged))|, |HitLinesIn(merged, Sources(merged))|)
    ensures forall dir | dir in dirs ::
      dirs[dir] == Triple(|LinesIn(merged, SourcesIn(merged, dir))|, |HitLinesIn(merged, SourcesIn(merged, dir))|)
    ensures forall dir | SourcesIn(merged, dir) != {} :: dir in dirs
  {
    hide SumFiles, LinesIn, HitLinesIn, TopLevelDir, FallsIn;
    var files := SrcFiles(merged);
    StrLeIsTotalOrder();
    SortedSetFacts(StrLe, Sources(merged));
    assert Lists(files, Sources(merged));
    SumIsSize(merged, files, Sources(merged));
    forall dir
      ensures Lists(InDir(files, dir), SourcesIn(merged, dir))
      ensures SumFiles(merged, InDir(files, dir)) ==
        Triple(|LinesIn(merged, SourcesIn(merged, dir))|, |HitLinesIn(merged, SourcesIn(merged, dir))|)
    {
      InDirLists(files, dir);
      forall f ensures f in InDir(files, dir) <==> f in SourcesIn(merged, dir) {
        if "src/" <= f {
          DirsAre(f, dir);
        }
      }
      SumIsSize(merged, InDir(files, dir), SourcesIn(merged, dir));
    }
    forall dir | SourcesIn(merged, dir) != {} ensures dir in dirs {
      var f :| f in SourcesIn(merged, dir);
      DirsAre(f, dir);
      assert f in files;
    }
  }
}
