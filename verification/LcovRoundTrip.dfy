/** scripts/merge-lcov.ts: printing merged data as lcov text, and what reading it back gives. */
module LcovRoundTrip {
  import opened Folding
  import opened Results
  import opened Sorting
  import opened Text
  import opened Lcov
  import opened LcovText

  // ----- printing -----

  function DaLine(e: (int, int)): string { "DA:" + (Dec(e.0) + "," + Dec(e.1)) }

  function FnLine(e: (string, int)): string { "FN:" + (Dec(e.1) + "," + e.0) }

  function FndaLine(e: (string, int)): string { "FNDA:" + (Dec(e.1) + "," + e.0) }

  function Counter(kind: string, n: nat): string { kind + ":" + Dec(n) }

  function MapLines<X>(f: X -> string, xs: seq<X>): seq<string> {
    if xs == [] then [] else MapLines(f, xs[..|xs| - 1]) + [f(xs[|xs| - 1])]
  }

  lemma MapLinesOfNone<X>(f: X -> string)
    ensures MapLines(f, []) == []
  {
  }

  lemma MapLinesStep<X>(f: X -> string, xs: seq<X>, i: nat)
    requires i < |xs|
    ensures MapLines(f, xs[..i + 1]) == MapLines(f, xs[..i]) + [f(xs[i])]
  {
    assert xs[..i + 1][..i] == xs[..i];
  }

  function HitCount<K(!new)>(m: map<K, int>): nat {
    |set k | k in m && m[k] > 0|
  }

  /** Functions by their line, then by name. */
  function ByLine(m: map<string, int>): (string, string) -> bool {
    (a, b) =>
      var la, lb := if a in m then m[a] else 0, if b in m then m[b] else 0;
      la < lb || (la == lb && StrLe(a, b))
  }

  lemma ByLineIsTotalOrder(m: map<string, int>)
    ensures TotalOrder(ByLine(m))
  {
    StrLeIsTotalOrder();
  }

  ghost function SortedPairs<K(!new)>(le: (K, K) -> bool, m: map<K, int>): (r: seq<(K, int)>)
    requires TotalOrder(le)
    ensures ListsItems(r, m)
  {
    SortedSetFacts(le, m.Keys);
    PairsList(SortedSet(le, m.Keys), m);
    Pairs(SortedSet(le, m.Keys), m)
  }

  /** A file's merged data as one record, in the order it is printed. */
  ghost function RecordOf(sf: string, c: FileCoverage): Record {
    IntLeIsTotalOrder();
    StrLeIsTotalOrder();
    ByLineIsTotalOrder(c.fnLine);
    Record(sf, SortedPairs(IntLe, c.da), SortedPairs(ByLine(c.fnLine), c.fnLine), SortedPairs(StrLe, c.fnda))
  }

  ghost function FunctionLines(sf: string, c: FileCoverage): seq<string> {
    ["TN:", "SF:" + sf] + MapLines(FnLine, RecordOf(sf, c).fn) + MapLines(FndaLine, RecordOf(sf, c).fnda)
  }

  ghost function CountedLines(sf: string, c: FileCoverage): seq<string> {
    [Counter("FNF", |c.fnLine|), Counter("FNH", HitCount(c.fnda))] + MapLines(DaLine, RecordOf(sf, c).da)
    + [Counter("LF", |c.da|), Counter("LH", HitCount(c.da)), "end_of_record"]
  }

  ghost function FileLines(sf: string, c: FileCoverage): seq<string> {
    FunctionLines(sf, c) + CountedLines(sf, c)
  }

  ghost function EmitLines(merged: Merged, files: seq<string>): seq<string>
    requires forall f | f in files :: f in merged
  {
    if files == [] then [] else
      var last := |files| - 1;
      EmitLines(merged, files[..last]) + FileLines(files[last], merged[files[last]])
  }

  ghost function Files(merged: Merged): (files: seq<string>)
    ensures Lists(files, merged.Keys)
  {
    StrLeIsTotalOrder();
    SortedSetFacts(StrLe, merged.Keys);
    SortedSet(StrLe, merged.Keys)
  }

  ghost function EmitText(merged: Merged): string {
    Unlines(EmitLines(merged, Files(merged)))
  }

  method EmitEntries<K(!new, ==)>(m: map<K, int>, le: (K, K) -> bool, line: ((K, int)) -> string) returns (out: seq<string>)
    requires TotalOrder(le)
    ensures out == MapLines(line, SortedPairs(le, m))
  {
    hide Sort, SortedSet, MapLines;
    var keys := ListOf(m.Keys);
    SortOfListing(le, keys, m.Keys);
    var sorted := Sort(le, keys);
    SortedSetFacts(le, m.Keys);
    out := [];
    ghost var pairs := SortedPairs(le, m);
    MapLinesOfNone(line);
    assert pairs[..0] == [];
    for i := 0 to |sorted|
      invariant out == MapLines(line, pairs[..i])
    {
      MapLinesStep(line, pairs, i);
      out := out + [line((sorted[i], m[sorted[i]]))];
    }
    assert pairs[..|sorted|] == pairs;
  }

  method EmitFile(file: string, f: FileCoverage) returns (out: seq<string>)
    ensures out == FileLines(file, f)
  {
    hide MapLines, SortedPairs, HitCount, Dec;
    StrLeIsTotalOrder();
    IntLeIsTotalOrder();
    ByLineIsTotalOrder(f.fnLine);
    out := ["TN:", "SF:" + file];
    var fn := EmitEntries(f.fnLine, ByLine(f.fnLine), FnLine);
    out := out + fn;
    var fnda := EmitEntries(f.fnda, StrLe, FndaLine);
    out := out + fnda;
    assert out == FunctionLines(file, f);
    var counted := [Counter("FNF", |f.fnLine|), Counter("FNH", HitCount(f.fnda))];
    var da := EmitEntries(f.da, IntLe, DaLine);
    counted := counted + da + [Counter("LF", |f.da|), Counter("LH", HitCount(f.da)), "end_of_record"];
    assert counted == CountedLines(file, f);
    out := out + counted;
  }

  /** `emitLcov`: whatever order the maps iterate in, the text is the same. */
  method EmitLcov(merged: Merged) returns (text: string)
    ensures text == EmitText(merged)
  {
    hide FileLines, Unlines, Sort, SortedSet;
    var out: seq<string> := [];
    var keys := ListOf(merged.Keys);
    StrLeIsTotalOrder();
    SortOfListing(StrLe, keys, merged.Keys);
    var files := Sort(StrLe, keys);
    assert files == Files(merged);
    for i := 0 to |files|
      invariant out == EmitLines(merged, files[..i])
    {
      var lines := EmitFile(files[i], merged[files[i]]);
      assert files[..i + 1][..i] == files[..i];
      out := out + lines;
    }
    assert files[..|files|] == files;
    text := Unlines(out);
  }

  // ----- reading one printed line -----

  lemma NotBlank(s: string)
    requires s != [] && !IsSpace(s[0])
    ensures Trim(s) != ""
  {
    assert TrimStart(s) == s;
    TrimEndNonEmpty(s);
  }

  lemma {:induction false} TrimEndNonEmpty(s: string)
    requires s != [] && !IsSpace(s[0])
    ensures TrimEnd(s) != ""
  {
    if IsSpace(s[|s| - 1]) {
      TrimEndNonEmpty(s[..|s| - 1]);
    }
  }

  lemma {:induction false} ParseMarked(number: Number, records: seq<Record>, current: Option<Record>, kind: string, rest: string)
    requires kind != "" && !IsSpace(kind[0]) && ':' !in kind
    ensures ParseLine(number, Reading(records, current), kind + ":" + rest)
         == ParseField(number, records, current, kind, StripCr(rest))
  {
    hide ParseField, IndexOf, Trim;
    var raw := kind + ":" + rest;
    var line := kind + ":" + StripCr(rest);
    assert StripCr(raw) == line;
    NotBlank(line);
    assert ':' in line && line != "end_of_record" by {
      assert line[|kind|] == ':';
      assert ':' !in "end_of_record";
    }
    IndexOfFirst(kind, ':', StripCr(rest));
    assert line[..|kind|] == kind && line[|kind| + 1..] == StripCr(rest);
  }

  lemma ReadNumberAndName(number: Number, n: int, name: string)
    requires ReadsDecimals(number)
    ensures NumberAndName(number, StripCr(Dec(n) + "," + name)) == Some((StripCr(name), n))
  {
    hide IndexOf, Dec;
    var rest := Dec(n) + "," + StripCr(name);
    assert StripCr(Dec(n) + "," + name) == rest;
    IndexOfFirst(Dec(n), ',', StripCr(name));
    assert rest[..|Dec(n)|] == Dec(n) && rest[|Dec(n)| + 1..] == StripCr(name);
  }

  lemma ReadLineAndHits(number: Number, line: int, hits: int)
    requires ReadsDecimals(number)
    ensures LineAndHits(number, StripCr(Dec(line) + "," + Dec(hits))) == Some((line, hits))
  {
    hide Split, Dec;
    var rest := Dec(line) + "," + Dec(hits);
    var last := rest[|rest| - 1];
    assert last == Dec(hits)[|Dec(hits)| - 1] && last in Dec(hits);
    assert StripCr(rest) == rest;
    SplitFirst(Dec(line), ',', Dec(hits));
    SplitWhole(Dec(hits), ',');
  }

  lemma SplitWhole(s: string, sep: char)
    requires sep !in s
    ensures Split(s, sep) == [s]
  {
  }

  // ----- reading one printed file -----

  /** A name as it comes back: a carriage return at its end is taken for the line's. */
  function NamesRead(entries: seq<(string, int)>): (r: seq<(string, int)>)
    ensures |r| == |entries| && forall i | 0 <= i < |r| :: r[i] == (StripCr(entries[i].0), entries[i].1)
  {
    seq(|entries|, i requires 0 <= i < |entries| => (StripCr(entries[i].0), entries[i].1))
  }

  function AsRead(r: Record): Record {
    Record(r.sf, r.da, NamesRead(r.fn), NamesRead(r.fnda))
  }

  lemma {:induction false} ParseDaLine(number: Number, records: seq<Record>, r: Record, e: (int, int))
    requires ReadsDecimals(number)
    ensures ParseLine(number, Reading(records, Some(r)), DaLine(e)) == Reading(records, Some(r.(da := r.da + [e])))
  {
    hide ParseLine, LineAndHits, ReadsDecimals;
    ParseMarked(number, records, Some(r), "DA", Dec(e.0) + "," + Dec(e.1));
    ReadLineAndHits(number, e.0, e.1);
    assert DaLine(e) == "DA" + ":" + (Dec(e.0) + "," + Dec(e.1));
  }

  lemma ParseFnLine(number: Number, records: seq<Record>, r: Record, e: (string, int))
    requires ReadsDecimals(number)
    ensures ParseLine(number, Reading(records, Some(r)), FnLine(e))
         == Reading(records, Some(r.(fn := r.fn + [(StripCr(e.0), e.1)])))
  {
    hide ParseLine, NumberAndName, ReadsDecimals;
    ParseMarked(number, records, Some(r), "FN", Dec(e.1) + "," + e.0);
    ReadNumberAndName(number, e.1, e.0);
    assert FnLine(e) == "FN" + ":" + (Dec(e.1) + "," + e.0);
  }

  lemma ParseFndaLine(number: Number, records: seq<Record>, r: Record, e: (string, int))
    requires ReadsDecimals(number)
    ensures ParseLine(number, Reading(records, Some(r)), FndaLine(e))
         == Reading(records, Some(r.(fnda := r.fnda + [(StripCr(e.0), e.1)])))
  {
    hide ParseLine, NumberAndName, ReadsDecimals;
    ParseMarked(number, records, Some(r), "FNDA", Dec(e.1) + "," + e.0);
    ReadNumberAndName(number, e.1, e.0);
    assert FndaLine(e) == "FNDA" + ":" + (Dec(e.1) + "," + e.0);
  }

  lemma {:induction false} ParseDaLines(number: Number, records: seq<Record>, r: Record, entries: seq<(int, int)>)
    requires ReadsDecimals(number)
    ensures Fold(Parsing(number), Reading(records, Some(r)), MapLines(DaLine, entries))
         == Reading(records, Some(r.(da := r.da + entries)))
  {
    hide ParseLine, DaLine, ReadsDecimals;
    var st := Reading(records, Some(r));
    if entries == [] {
      assert r.da + entries == r.da;
    } else {
      var front, e := entries[..|entries| - 1], entries[|entries| - 1];
      ParseDaLines(number, records, r, front);
      FoldSnoc(Parsing(number), st, MapLines(DaLine, front), DaLine(e));
      ParseDaLine(number, records, r.(da := r.da + front), e);
      assert (r.da + front) + [e] == r.da + entries;
    }
  }

  lemma {:induction false} ParseFnLines(number: Number, records: seq<Record>, r: Record, entries: seq<(string, int)>)
    requires ReadsDecimals(number)
    ensures Fold(Parsing(number), Reading(records, Some(r)), MapLines(FnLine, entries))
         == Reading(records, Some(r.(fn := r.fn + NamesRead(entries))))
  {
    hide ParseLine, FnLine, StripCr, ReadsDecimals;
    var st := Reading(records, Some(r));
    if entries == [] {
      assert r.fn + NamesRead(entries) == r.fn;
    } else {
      var front, e := entries[..|entries| - 1], entries[|entries| - 1];
      ParseFnLines(number, records, r, front);
      FoldSnoc(Parsing(number), st, MapLines(FnLine, front), FnLine(e));
      ParseFnLine(number, records, r.(fn := r.fn + NamesRead(front)), e);
      assert (r.fn + NamesRead(front)) + [(StripCr(e.0), e.1)] == r.fn + NamesRead(entries);
    }
  }

  lemma {:induction false} ParseFndaLines(number: Number, records: seq<Record>, r: Record, entries: seq<(string, int)>)
    requires ReadsDecimals(number)
    ensures Fold(Parsing(number), Reading(records, Some(r)), MapLines(FndaLine, entries))
         == Reading(records, Some(r.(fnda := r.fnda + NamesRead(entries))))
  {
    hide ParseLine, FndaLine, StripCr, ReadsDecimals;
    var st := Reading(records, Some(r));
    if entries == [] {
      assert r.fnda + NamesRead(entries) == r.fnda;
    } else {
      var front, e := entries[..|entries| - 1], entries[|entries| - 1];
      ParseFndaLines(number, records, r, front);
      FoldSnoc(Parsing(number), st, MapLines(FndaLine, front), FndaLine(e));
      ParseFndaLine(number, records, r.(fnda := r.fnda + NamesRead(front)), e);
      assert (r.fnda + NamesRead(front)) + [(StripCr(e.0), e.1)] == r.fnda + NamesRead(entries);
    }
  }

  /** A recomputed counter line is read over. */
  lemma {:induction false} ParseCounter(number: Number, records: seq<Record>, current: Option<Record>, kind: string, rest: string)
    requires IsRecomputed(kind)
    ensures ParseLine(number, Reading(records, current), kind + ":" + rest) == Reading(records, current)
  {
    hide ParseLine;
    ParseMarked(number, records, current, kind, rest);
  }

  lemma ParseFunctionLines(number: Number, records: seq<Record>, sf: string, c: FileCoverage)
    requires ReadsDecimals(number) && sf != "" && IsTrimmed(sf)
    ensures Fold(Parsing(number), Reading(records, None), FunctionLines(sf, c))
         == Reading(records, Some(AsRead(RecordOf(sf, c)).(da := [])))
  {
    hide ParseLine, MapLines, RecordOf, ReadsDecimals, IsTrimmed;
    var p, r := Parsing(number), RecordOf(sf, c);
    var st := Reading(records, None);
    var header := Record(sf, [], [], []);
    ParseHeader(number, records, sf);
    var fnLines, fndaLines := MapLines(FnLine, r.fn), MapLines(FndaLine, r.fnda);
    ParseFnLines(number, records, header, r.fn);
    ParseFndaLines(number, records, header.(fn := [] + NamesRead(r.fn)), r.fnda);
    FoldConcat(p, st, ["TN:", "SF:" + sf], fnLines);
    FoldConcat(p, st, ["TN:", "SF:" + sf] + fnLines, fndaLines);
    assert [] + NamesRead(r.fn) == NamesRead(r.fn) && [] + NamesRead(r.fnda) == NamesRead(r.fnda);
    assert r.sf == sf by { RecordName(sf, c); }
  }

  lemma RecordName(sf: string, c: FileCoverage)
    ensures RecordOf(sf, c).sf == sf
  {
  }

  lemma {:induction false} ParseSf(number: Number, records: seq<Record>, sf: string)
    requires sf != "" && IsTrimmed(sf)
    ensures ParseLine(number, Reading(records, None), "SF:" + sf) == Reading(records, Some(Record(sf, [], [], [])))
  {
    hide ParseLine, Trim;
    assert "SF:" + sf == "SF" + ":" + sf;
    ParseMarked(number, records, None, "SF", sf);
    TrimFacts(sf);
    assert StripCr(sf) == sf;
  }

  lemma ParseHeader(number: Number, records: seq<Record>, sf: string)
    requires sf != "" && IsTrimmed(sf)
    ensures Fold(Parsing(number), Reading(records, None), ["TN:", "SF:" + sf]) == Reading(records, Some(Record(sf, [], [], [])))
  {
    hide ParseLine, Fold, IsTrimmed;
    var p, st := Parsing(number), Reading(records, None);
    FoldEmpty(p, st);
    assert ["TN:"] == [] + ["TN:"] && ["TN:", "SF:" + sf] == ["TN:"] + ["SF:" + sf];
    FoldSnoc(p, st, [], "TN:");
    FoldSnoc(p, st, ["TN:"], "SF:" + sf);
    assert "TN:" == "TN" + ":" + "";
    ParseCounter(number, records, None, "TN", "");
    ParseSf(number, records, sf);
  }

  lemma {:induction false} ParseCountedLines(number: Number, records: seq<Record>, sf: string, c: FileCoverage, r: Record)
    requires ReadsDecimals(number) && r.da == []
    ensures Fold(Parsing(number), Reading(records, Some(r)), CountedLines(sf, c))
         == Reading(records + [r.(da := RecordOf(sf, c).da)], None)
  {
    hide ParseLine, MapLines, RecordOf, ReadsDecimals, HitCount, Dec;
    var p, da := Parsing(number), RecordOf(sf, c).da;
    var st := Reading(records, Some(r));
    var before := [Counter("FNF", |c.fnLine|), Counter("FNH", HitCount(c.fnda))];
    var after := [Counter("LF", |c.da|), Counter("LH", HitCount(c.da)), "end_of_record"];
    var done := r.(da := da);
    ParseTwoCounters(number, records, r, "FNF", |c.fnLine|, "FNH", HitCount(c.fnda));
    ParseDaLines(number, records, r, da);
    assert r.da + da == da;
    ParseTwoCounters(number, records, done, "LF", |c.da|, "LH", HitCount(c.da));
    assert after[..2] == [Counter("LF", |c.da|), Counter("LH", HitCount(c.da))];
    FoldConcat(p, st, before, MapLines(DaLine, da));
    FoldConcat(p, st, before + MapLines(DaLine, da), after);
    FoldSnoc(p, Reading(records, Some(done)), after[..2], after[2]);
    assert after == after[..2] + [after[2]];
    ParseEnd(number, records, done);
  }

  lemma ParseTwoCounters(number: Number, records: seq<Record>, r: Record, k1: string, n1: nat, k2: string, n2: nat)
    requires IsRecomputed(k1) && IsRecomputed(k2)
    ensures Fold(Parsing(number), Reading(records, Some(r)), [Counter(k1, n1), Counter(k2, n2)]) == Reading(records, Some(r))
  {
    hide ParseLine, IsRecomputed;
    var p, st := Parsing(number), Reading(records, Some(r));
    var a, b := Counter(k1, n1), Counter(k2, n2);
    FoldEmpty(p, st);
    assert [a] == [] + [a] && [a, b] == [a] + [b];
    FoldSnoc(p, st, [], a);
    FoldSnoc(p, st, [a], b);
    ParseCounter(number, records, Some(r), k1, Dec(n1));
    ParseCounter(number, records, Some(r), k2, Dec(n2));
  }

  lemma ParseEnd(number: Number, records: seq<Record>, r: Record)
    ensures ParseLine(number, Reading(records, Some(r)), "end_of_record") == Reading(records + [r], None)
  {
  }

  lemma {:induction false} ParseFile(number: Number, records: seq<Record>, sf: string, c: FileCoverage)
    requires ReadsDecimals(number) && sf != "" && IsTrimmed(sf)
    ensures Fold(Parsing(number), Reading(records, None), FileLines(sf, c))
         == Reading(records + [AsRead(RecordOf(sf, c))], None)
  {
    hide RecordOf, FunctionLines, CountedLines, ParseLine, ReadsDecimals;
    var r := AsRead(RecordOf(sf, c));
    ParseFunctionLines(number, records, sf, c);
    ParseCountedLines(number, records, sf, c, r.(da := []));
    FoldConcat(Parsing(number), Reading(records, None), FunctionLines(sf, c), CountedLines(sf, c));
  }
}
