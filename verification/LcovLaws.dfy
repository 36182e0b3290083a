/** scripts/merge-lcov.ts: exactly which merged data survives being printed and read back, and what re-merging it does. */
module LcovLaws {
  import opened Folding
  import opened Results
  import opened Text
  import opened Lcov
  import opened LcovText
  import opened LcovRoundTrip

  // ----- reading the printed text -----

  ghost predicate GoodPath(sf: string) {
    sf != "" && IsTrimmed(sf)
  }

  predicate EndsInCr(name: string) {
    name != [] && name[|name| - 1] == '\r'
  }

  ghost predicate NoNewlines(sf: string, c: FileCoverage) {
    && '\n' !in sf
    && (forall n | n in c.fnLine :: '\n' !in n)
    && (forall n | n in c.fnda :: '\n' !in n)
  }

  ghost predicate NoTrailingCr(c: FileCoverage) {
    && (forall n | n in c.fnLine :: !EndsInCr(n))
    && (forall n | n in c.fnda :: !EndsInCr(n))
  }

  /**
   * What lcov text can carry: trimmed non-empty paths, no newline in any name, and no
   * function name ending in a carriage return.
   */
  ghost predicate Printable(merged: Merged) {
    forall sf | sf in merged :: GoodPath(sf) && NoNewlines(sf, merged[sf]) && NoTrailingCr(merged[sf])
  }

  lemma {:induction false} MapLinesAreLines<X>(f: X -> string, xs: seq<X>)
    requires forall x | x in xs :: '\n' !in f(x)
    ensures forall line | line in MapLines(f, xs) :: '\n' !in line
  {
    if xs != [] {
      assert xs == xs[..|xs| - 1] + [xs[|xs| - 1]];
      MapLinesAreLines(f, xs[..|xs| - 1]);
    }
  }

  lemma NumeralsNeedOneLine(n: int)
    ensures '\n' !in Dec(n)
  {
  }

  lemma EntriesAreLines(e: (string, int), d: (int, int))
    ensures '\n' !in e.0 ==> '\n' !in FnLine(e) && '\n' !in FndaLine(e)
    ensures '\n' !in DaLine(d)
  {
    NumeralsNeedOneLine(e.1);
    NumeralsNeedOneLine(d.0);
    NumeralsNeedOneLine(d.1);
  }

  lemma FunctionLinesAreLines(sf: string, c: FileCoverage)
    requires NoNewlines(sf, c)
    ensures forall line | line in FunctionLines(sf, c) :: '\n' !in line
  {
    hide MapLines, FnLine, FndaLine;
    var r := RecordOf(sf, c);
    forall e | e in r.fn ensures '\n' !in FnLine(e) {
      EntriesAreLines(e, (0, 0));
    }
    forall e | e in r.fnda ensures '\n' !in FndaLine(e) {
      EntriesAreLines(e, (0, 0));
    }
    MapLinesAreLines(FnLine, r.fn);
    MapLinesAreLines(FndaLine, r.fnda);
  }

  lemma {:induction false} CountedLinesAreLines(sf: string, c: FileCoverage)
    ensures forall line | line in CountedLines(sf, c) :: '\n' !in line
  {
    hide MapLines, Dec, DaLine, RecordOf, HitCount;
    var da := RecordOf(sf, c).da;
    NumeralsNeedOneLine(|c.fnLine|);
    NumeralsNeedOneLine(HitCount(c.fnda));
    NumeralsNeedOneLine(|c.da|);
    NumeralsNeedOneLine(HitCount(c.da));
    forall e | e in da ensures '\n' !in DaLine(e) {
      EntriesAreLines(("", 0), e);
    }
    MapLinesAreLines(DaLine, da);
  }

  lemma {:induction false} EmitLinesAreLines(merged: Merged, files: seq<string>)
    requires forall f | f in files :: f in merged && NoNewlines(f, merged[f])
    ensures forall line | line in EmitLines(merged, files) :: '\n' !in line
  {
    hide FunctionLines, CountedLines;
    if files != [] {
      var f := files[|files| - 1];
      EmitLinesAreLines(merged, files[..|files| - 1]);
      FunctionLinesAreLines(f, merged[f]);
      CountedLinesAreLines(f, merged[f]);
    }
  }

  /** The records read back from the printed text. */
  ghost function ReadBack(merged: Merged, files: seq<string>): (rs: seq<Record>)
    requires forall f | f in files :: f in merged
    ensures |rs| == |files| && forall i | 0 <= i < |rs| :: rs[i] == AsRead(RecordOf(files[i], merged[files[i]]))
  {
    seq(|files|, i requires 0 <= i < |files| => AsRead(RecordOf(files[i], merged[files[i]])))
  }

  lemma {:induction false} ParseEmitLines(number: Number, merged: Merged, files: seq<string>)
    requires ReadsDecimals(number)
    requires forall f | f in files :: f in merged && GoodPath(f)
    ensures Fold(Parsing(number), START, EmitLines(merged, files)) == Reading(ReadBack(merged, files), None)
  {
    hide ParseLine, FileLines, RecordOf, ReadsDecimals;
    if files != [] {
      var front, f := files[..|files| - 1], files[|files| - 1];
      ParseEmitLines(number, merged, front);
      FoldConcat(Parsing(number), START, EmitLines(merged, front), FileLines(f, merged[f]));
      ParseFile(number, ReadBack(merged, front), f, merged[f]);
      assert ReadBack(merged, front) + [AsRead(RecordOf(f, merged[f]))] == ReadBack(merged, files);
    }
  }

  lemma {:induction false} ParseEmitText(number: Number, merged: Merged)
    requires ReadsDecimals(number)
    requires forall sf | sf in merged :: GoodPath(sf) && NoNewlines(sf, merged[sf])
    ensures ParseText(number, EmitText(merged)) == Some(ReadBack(merged, Files(merged)))
  {
    hide EmitLines, Files, Split, Unlines, NoNewlines, ReadsDecimals, ReadBack;
    var files := Files(merged);
    assert forall f | f in files :: f in merged.Keys;
    var lines := EmitLines(merged, files);
    EmitLinesAreLines(merged, files);
    SplitUnlines(lines);
    ParseEmitLines(number, merged, files);
    FoldSnoc(Parsing(number), START, lines, "");
  }

  // ----- merging what was read back -----

  function Named(recs: seq<Record>): (r: seq<(string, Record)>)
    ensures |r| == |recs| && forall i | 0 <= i < |r| :: r[i] == (recs[i].sf, recs[i])
  {
    seq(|recs|, i requires 0 <= i < |recs| => (recs[i].sf, recs[i]))
  }

  function At(merged: Merged, sf: string): FileCoverage {
    if sf in merged then merged[sf] else NO_COVERAGE
  }

  ghost predicate MergedDistinctly(merged: Merged, recs: seq<Record>, m: Merged) {
    && m.Keys == merged.Keys + (set r | r in recs :: r.sf)
    && (forall r | r in recs :: r.sf in m && m[r.sf] == MergeInto(At(merged, r.sf), r))
    && (forall sf | sf in merged && (forall r | r in recs :: r.sf != sf) :: sf in m && m[sf] == merged[sf])
  }

  lemma MergeOneMore(merged: Merged, front: seq<Record>, m: Merged, r: Record)
    requires MergedDistinctly(merged, front, m) && forall q | q in front :: q.sf != r.sf
    ensures MergedDistinctly(merged, front + [r], MergeRecord(m, r.sf, r))
  {
  }

  predicate DistinctFiles(recs: seq<Record>) {
    forall i, j | 0 <= i < j < |recs| :: recs[i].sf != recs[j].sf
  }

  lemma DistinctFilesSnoc(front: seq<Record>, r: Record)
    requires DistinctFiles(front + [r])
    ensures DistinctFiles(front) && forall q | q in front :: q.sf != r.sf
  {
    var recs := front + [r];
    forall i, j | 0 <= i < j < |front| ensures front[i].sf != front[j].sf {
      assert front[i] == recs[i] && front[j] == recs[j];
    }
    forall q | q in front ensures q.sf != r.sf {
      var i :| 0 <= i < |front| && front[i] == q;
      assert recs[i] == q && recs[|front|] == r;
    }
  }

  lemma MergeAllSnoc(merged: Merged, front: seq<Record>, r: Record)
    ensures MergeAll(merged, Named(front + [r])) == MergeRecord(MergeAll(merged, Named(front)), r.sf, r)
  {
    hide Fold, MergeRecord;
    assert Named(front + [r]) == Named(front) + [(r.sf, r)];
    FoldSnoc(Merging(), merged, Named(front), (r.sf, r));
  }

  /** Records of different files each reach their own file, and no other. */
  lemma {:induction false} MergeDistinct(merged: Merged, recs: seq<Record>)
    requires DistinctFiles(recs)
    ensures MergedDistinctly(merged, recs, MergeAll(merged, Named(recs)))
  {
    if recs == [] {
      FoldEmpty(Merging(), merged);
    } else {
      hide DistinctFiles, MergedDistinctly, MergeRecord, MergeAll, Named;
      var front, r := recs[..|recs| - 1], recs[|recs| - 1];
      assert recs == front + [r];
      DistinctFilesSnoc(front, r);
      MergeDistinct(merged, front);
      MergeAllSnoc(merged, front, r);
      MergeOneMore(merged, front, MergeAll(merged, Named(front)), r);
    }
  }

  ghost predicate ReadFrom(names: set<string>, x: string) {
    exists y | y in names :: StripCr(y) == x
  }

  /** A name set that carriage-return stripping leaves as it is holds no name ending in one. */
  lemma CrChain(names: set<string>, n: string, bound: nat)
    requires forall x | x in names :: |x| <= bound
    requires forall x | x in names :: ReadFrom(names, x)
    requires n in names
    ensures !EndsInCr(n)
    decreases bound - |n|
  {
    if EndsInCr(n) {
      assert ReadFrom(names, n);
      var y :| y in names && StripCr(y) == n;
      assert EndsInCr(y) && |y| == |n| + 1;
      CrChain(names, y, bound);
      assert false;
    }
  }

  lemma LengthBound(names: set<string>) returns (bound: nat)
    ensures forall x | x in names :: |x| <= bound
  {
    bound := 0;
    var todo := names;
    while todo != {}
      invariant todo <= names
      invariant forall x | x in names - todo :: |x| <= bound
    {
      var x :| x in todo;
      todo := todo - {x};
      bound := if |x| > bound then |x| else bound;
    }
  }

  lemma {:induction false} FoldKeys<K(!new)>(a: map<K, int>, entries: seq<(K, int)>)
    ensures Fold(Adding(), a, entries).Keys == a.Keys + set e | e in entries :: e.0
    ensures Fold(Lowering(), a, entries).Keys == a.Keys + set e | e in entries :: e.0
  {
    if entries != [] {
      var front, e := entries[..|entries| - 1], entries[|entries| - 1];
      FoldKeys(a, front);
      assert entries == front + [e];
    }
  }

  lemma {:induction false} NoCrInNames(m: map<string, int>, pairs: seq<(string, int)>)
    requires ListsItems(pairs, m)
    requires m.Keys == set e | e in NamesRead(pairs) :: e.0
    ensures forall n | n in m :: !EndsInCr(n)
  {
    hide StripCr, EndsInCr;
    var names := m.Keys;
    var bound := LengthBound(names);
    forall x | x in names ensures ReadFrom(names, x) {
      var e :| e in NamesRead(pairs) && e.0 == x;
      SourceOfName(m, pairs, e);
    }
    forall n | n in m ensures !EndsInCr(n) {
      CrChain(names, n, bound);
    }
  }

  lemma SourceOfName(m: map<string, int>, pairs: seq<(string, int)>, e: (string, int))
    requires ListsItems(pairs, m) && e in NamesRead(pairs)
    ensures ReadFrom(m.Keys, e.0)
  {
  }

  /** One file's record merges back to the file's data, or adds to it, when its names come back unchanged. */
  lemma MergeOwnRecord(sf: string, c: FileCoverage, base: FileCoverage)
    requires NoTrailingCr(c)
    ensures MergeInto(base, AsRead(RecordOf(sf, c)))
         == FileCoverage(Plus(base.da, c.da), Lowest(base.fnLine, c.fnLine), Plus(base.fnda, c.fnda))
  {
    hide Fold, Plus, Lowest;
    var r := RecordOf(sf, c);
    assert ListsItems(r.da, c.da) && ListsItems(r.fn, c.fnLine) && ListsItems(r.fnda, c.fnda);
    assert NamesRead(r.fn) == r.fn && NamesRead(r.fnda) == r.fnda;
    AddListing(base.da, r.da, c.da);
    LowerListing(base.fnLine, r.fn, c.fnLine);
    AddListing(base.fnda, r.fnda, c.fnda);
  }

  lemma ReadBackFiles(merged: Merged)
    ensures var recs := ReadBack(merged, Files(merged));
      && (forall i, j | 0 <= i < j < |recs| :: recs[i].sf != recs[j].sf)
      && (forall r | r in recs :: r.sf in merged && r == AsRead(RecordOf(r.sf, merged[r.sf])))
      && (forall sf | sf in merged :: AsRead(RecordOf(sf, merged[sf])) in recs)
  {
    hide RecordOf;
    var files := Files(merged);
    var recs := ReadBack(merged, files);
    forall i | 0 <= i < |recs| ensures recs[i].sf == files[i] && files[i] in merged.Keys {
      RecordName(files[i], merged[files[i]]);
    }
    forall sf | sf in merged.Keys ensures AsRead(RecordOf(sf, merged[sf])) in recs {
      var i :| 0 <= i < |files| && files[i] == sf;
      assert recs[i] in recs;
    }
  }

  /** Merging the read-back records of `merged` onto any base. */
  lemma {:induction false} MergeReadBack(merged: Merged, base: Merged)
    ensures var m := MergeAll(base, Named(ReadBack(merged, Files(merged))));
      && m.Keys == base.Keys + merged.Keys
      && (forall sf | sf in merged :: m[sf] == MergeInto(At(base, sf), AsRead(RecordOf(sf, merged[sf]))))
      && (forall sf | sf in base && sf !in merged :: m[sf] == base[sf])
  {
    hide MergeInto, RecordOf, ReadBack, Files, MergeAll;
    var recs := ReadBack(merged, Files(merged));
    ReadBackFiles(merged);
    MergeDistinct(base, recs);
    forall sf | sf in merged ensures AsRead(RecordOf(sf, merged[sf])).sf == sf {
      RecordName(sf, merged[sf]);
    }
    assert (set r | r in recs :: r.sf) == merged.Keys;
  }

  // ----- the laws -----

  /** Reading the printed text and merging its records into an empty map gives back the data. */
  ghost predicate RoundTrips(number: Number, merged: Merged) {
    var recs := ParseText(number, EmitText(merged));
    recs.Some? && MergeAll(map[], Named(recs.value)) == merged
  }

  lemma {:induction false} PrintableRoundTrips(number: Number, merged: Merged)
    requires ReadsDecimals(number) && Printable(merged)
    ensures RoundTrips(number, merged)
  {
    hide ParseText, EmitText, MergeAll, ReadBack, RecordOf, NoNewlines, NoTrailingCr, MergeInto;
    ParseEmitText(number, merged);
    MergeReadBack(merged, map[]);
    var m := MergeAll(map[], Named(ReadBack(merged, Files(merged))));
    forall sf | sf in merged ensures m[sf] == merged[sf] {
      MergeOwnRecord(sf, merged[sf], NO_COVERAGE);
      PlusNothing(merged[sf]);
    }
  }

  lemma PlusNothing(c: FileCoverage)
    ensures Plus(map[], c.da) == c.da && Lowest(map[], c.fnLine) == c.fnLine && Plus(map[], c.fnda) == c.fnda
  {
  }

  // ----- and nothing else survives -----

  predicate CleanEntries(entries: seq<(string, int)>) {
    forall e | e in entries :: '\n' !in e.0
  }

  /** What every record read from text is like. */
  predicate CleanRecord(r: Record) {
    r.sf != "" && IsTrimmed(r.sf) && '\n' !in r.sf && CleanEntries(r.fn) && CleanEntries(r.fnda)
  }

  predicate CleanState(st: ParseState) {
    st.Malformed? || ((forall r | r in st.records :: CleanRecord(r)) && (st.current.Some? ==> CleanRecord(st.current.value)))
  }

  lemma NameIsPartOf(number: Number, rest: string)
    requires '\n' !in rest && NumberAndName(number, rest).Some?
    ensures '\n' !in NumberAndName(number, rest).value.0
  {
  }

  lemma ParseFieldKeepsClean(number: Number, records: seq<Record>, current: Option<Record>, kind: string, rest: string)
    requires CleanState(Reading(records, current)) && '\n' !in rest
    ensures CleanState(ParseField(number, records, current, kind, rest))
  {
    hide IndexOf, Trim, IsTrimmed, Split, NumberAndName;
    TrimFacts(rest);
    if NumberAndName(number, rest).Some? {
      NameIsPartOf(number, rest);
    }
  }

  lemma {:induction false} ParseLineKeepsClean(number: Number, st: ParseState, raw: string)
    requires CleanState(st) && '\n' !in raw
    ensures CleanState(ParseLine(number, st, raw))
  {
    hide IndexOf, Trim, ParseField;
    var line := StripCr(raw);
    var colon := IndexOf(line, ':');
    if st.Reading? && colon >= 0 {
      ParseFieldKeepsClean(number, st.records, st.current, line[..colon], line[colon + 1..]);
    }
  }

  lemma {:induction false} ParsedIsClean(number: Number, st: ParseState, lines: seq<string>)
    requires CleanState(st) && forall line | line in lines :: '\n' !in line
    ensures CleanState(Fold(Parsing(number), st, lines))
  {
    hide ParseLine, CleanState;
    if lines != [] {
      var front := lines[..|lines| - 1];
      ParsedIsClean(number, st, front);
      ParseLineKeepsClean(number, Fold(Parsing(number), st, front), lines[|lines| - 1]);
    }
  }

  lemma ParsedTextIsClean(number: Number, text: string)
    requires ParseText(number, text).Some?
    ensures forall r | r in ParseText(number, text).value :: CleanRecord(r)
  {
    hide Fold, ParseLine, Split, CleanRecord;
    SplitParts(text, '\n');
    ParsedIsClean(number, START, Split(text, '\n'));
  }

  ghost predicate CleanMerged(merged: Merged) {
    forall sf | sf in merged :: GoodPath(sf) && NoNewlines(sf, merged[sf])
  }

  lemma MergeIntoKeepsClean(sf: string, c: FileCoverage, r: Record)
    requires NoNewlines(sf, c) && CleanEntries(r.fn) && CleanEntries(r.fnda)
    ensures NoNewlines(sf, MergeInto(c, r))
  {
    hide Fold;
    FoldKeys(c.fnLine, r.fn);
    FoldKeys(c.fnda, r.fnda);
  }

  lemma {:induction false} MergedIsClean(recs: seq<Record>)
    requires forall r | r in recs :: CleanRecord(r)
    ensures CleanMerged(MergeAll(map[], Named(recs)))
  {
    hide MergeInto, NoNewlines, IsTrimmed;
    if recs == [] {
    } else {
      var front, r := recs[..|recs| - 1], recs[|recs| - 1];
      MergedIsClean(front);
      assert Named(recs) == Named(front) + [(r.sf, r)];
      FoldSnoc(Merging(), map[], Named(front), (r.sf, r));
      var m := MergeAll(map[], Named(front));
      assert CleanRecord(r);
      EmptyFileIsClean(r.sf);
      MergeIntoKeepsClean(r.sf, At(m, r.sf), r);
    }
  }

  lemma EmptyFileIsClean(sf: string)
    requires '\n' !in sf
    ensures NoNewlines(sf, NO_COVERAGE)
  {
  }

  lemma RecordLists(sf: string, c: FileCoverage)
    ensures ListsItems(RecordOf(sf, c).fn, c.fnLine) && ListsItems(RecordOf(sf, c).fnda, c.fnda)
  {
  }

  lemma ReadNames(r: Record, c: FileCoverage)
    requires c == MergeInto(NO_COVERAGE, AsRead(r))
    ensures c.fnLine.Keys == set e | e in NamesRead(r.fn) :: e.0
    ensures c.fnda.Keys == set e | e in NamesRead(r.fnda) :: e.0
  {
    hide Fold, NamesRead;
    var none: map<string, int> := map[];
    FoldKeys(none, NamesRead(r.fn));
    FoldKeys(none, NamesRead(r.fnda));
  }

  lemma ReadNamesEndInNoCr(sf: string, c: FileCoverage)
    requires c == MergeInto(NO_COVERAGE, AsRead(RecordOf(sf, c)))
    ensures NoTrailingCr(c)
  {
    hide MergeInto, EndsInCr, NamesRead, RecordOf, ListsItems;
    var r := RecordOf(sf, c);
    RecordLists(sf, c);
    ReadNames(r, c);
    NoCrInNames(c.fnLine, r.fn);
    NoCrInNames(c.fnda, r.fnda);
  }

  /** Only printable data comes back as it was. */
  lemma {:induction false} OnlyPrintableRoundTrips(number: Number, merged: Merged)
    requires ReadsDecimals(number) && RoundTrips(number, merged)
    ensures Printable(merged)
  {
    hide ParseText, EmitText, MergeAll, ReadBack, RecordOf, NoNewlines, NoTrailingCr, MergeInto, CleanRecord;
    ParsedTextIsClean(number, EmitText(merged));
    MergedIsClean(ParseText(number, EmitText(merged)).value);
    ParseEmitText(number, merged);
    MergeReadBack(merged, map[]);
    forall sf | sf in merged ensures NoTrailingCr(merged[sf]) {
      ReadNamesEndInNoCr(sf, merged[sf]);
    }
  }

  /**
   * The round trip, exactly: merged data printed as lcov text and read back is itself
   * if and only if it is printable.
   */
  lemma {:induction false} RoundTripExactly(number: Number, merged: Merged)
    requires ReadsDecimals(number)
    ensures RoundTrips(number, merged) <==> Printable(merged)
  {
    if Printable(merged) {
      PrintableRoundTrips(number, merged);
    } else if RoundTrips(number, merged) {
      OnlyPrintableRoundTrips(number, merged);
    }
  }

  /** A function name that ends in a carriage return comes back without it. */
  lemma CarriageReturnIsLost(number: Number)
    requires ReadsDecimals(number)
    ensures !RoundTrips(number, map["a" := FileCoverage(map[], map["f\r" := 1], map[])])
  {
    var merged := map["a" := FileCoverage(map[], map["f\r" := 1], map[])];
    assert EndsInCr("f\r") && "a" in merged && "f\r" in merged["a"].fnLine;
    hide RoundTrips;
    RoundTripExactly(number, merged);
  }

  // ----- re-merging one's own output -----

  function Twice<K>(m: map<K, int>): map<K, int> {
    map k | k in m :: 2 * m[k]
  }

  function Doubled(merged: Merged): Merged {
    map sf | sf in merged :: FileCoverage(Twice(merged[sf].da), merged[sf].fnLine, Twice(merged[sf].fnda))
  }

  lemma PlusItself(c: FileCoverage)
    ensures Plus(c.da, c.da) == Twice(c.da) && Lowest(c.fnLine, c.fnLine) == c.fnLine && Plus(c.fnda, c.fnda) == Twice(c.fnda)
  {
  }

  /** The effect the self-merge guard is there to prevent: every hit count doubles, nothing else changes. */
  lemma {:induction false} SelfMergeDoubles(number: Number, merged: Merged)
    requires ReadsDecimals(number) && Printable(merged)
    ensures var recs := ParseText(number, EmitText(merged));
      recs.Some? && MergeAll(merged, Named(recs.value)) == Doubled(merged)
  {
    hide ParseText, EmitText, MergeAll, ReadBack, RecordOf, NoNewlines, NoTrailingCr, MergeInto;
    ParseEmitText(number, merged);
    MergeReadBack(merged, merged);
    var m := MergeAll(merged, Named(ReadBack(merged, Files(merged))));
    forall sf | sf in merged ensures m[sf] == Doubled(merged)[sf] {
      MergeOwnRecord(sf, merged[sf], merged[sf]);
      PlusItself(merged[sf]);
    }
  }

  /** Doubling leaves the set of covered lines as it was. */
  lemma DoublingKeepsCoveredLines(merged: Merged, sf: string)
    requires sf in merged
    ensures (set k | k in Doubled(merged)[sf].da && Doubled(merged)[sf].da[k] > 0) == (set k | k in merged[sf].da && merged[sf].da[k] > 0)
  {
  }
}
