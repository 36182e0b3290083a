/** scripts/merge-lcov.ts: which texts are malformed, and what a printed file looks like, line by line. */
module LcovMeaning {
  import opened Folding
  import opened Results
  import opened Sorting
  import opened Text
  import opened Lcov
  import opened LcovText
  import opened LcovRoundTrip

  // ----- malformed texts -----

  predicate IsEnd(raw: string) { StripCr(raw) == "end_of_record" }

  predicate IsStart(raw: string) {
    "SF:" <= StripCr(raw) && Trim(StripCr(raw)[3..]) != ""
  }

  /** A record is open before line `i`: its `SF` has come, and no `end_of_record` since. */
  ghost predicate OpenAt(lines: seq<string>, i: nat)
    requires i <= |lines|
  {
    exists j | 0 <= j < i :: IsStart(lines[j]) && forall m | j < m < i :: !IsEnd(lines[m])
  }

  function BeforeComma(rest: string): string {
    Split(rest, ',')[0]
  }

  /** Two comma-separated numbers at least. */
  predicate HasTwoNumbers(number: Number, rest: string) {
    var parts := Split(rest, ',');
    |parts| >= 2 && number(parts[0]).Some? && number(parts[1]).Some?
  }

  /** A line that spoils the file, given whether a record is open before it. */
  predicate Spoils(number: Number, raw: string, open: bool) {
    var line := StripCr(raw);
    Trim(line) != "" && (
      || (line == "end_of_record" && !open)
      || (line != "end_of_record" && ':' !in line)
      || ("SF:" <= line && (open || Trim(line[3..]) == ""))
      || ("DA:" <= line && (!open || !HasTwoNumbers(number, line[3..])))
      || ("FN:" <= line && (!open || number(BeforeComma(line[3..])).None?))
      || ("FNDA:" <= line && (!open || number(BeforeComma(line[5..])).None?)))
  }

  lemma KindIs(line: string, kind: string)
    requires ':' !in kind
    ensures var colon := IndexOf(line, ':');
      kind + ":" <= line <==> colon >= 0 && line[..colon] == kind
    ensures kind + ":" <= line ==> IndexOf(line, ':') == |kind| && line[|kind| + 1..] == line[IndexOf(line, ':') + 1..]
  {
    var colon := IndexOf(line, ':');
    if kind + ":" <= line {
      assert line[|kind|] == ':' && line[..|kind|] == kind;
      assert line == kind + [':'] + line[|kind| + 1..];
      IndexOfFirst(kind, ':', line[|kind| + 1..]);
    }
  }

  lemma BeforeCommaIs(rest: string)
    ensures BeforeComma(rest) == if IndexOf(rest, ',') < 0 then rest else rest[..IndexOf(rest, ',')]
  {
  }

  lemma FieldSpoils(number: Number, records: seq<Record>, current: Option<Record>, line: string)
    requires IndexOf(line, ':') >= 0 && line != "end_of_record" && Trim(line) != ""
    ensures var colon := IndexOf(line, ':');
      var st := ParseField(number, records, current, line[..colon], line[colon + 1..]);
      && (st.Malformed? <==>
        || ("SF:" <= line && (current.Some? || Trim(line[3..]) == ""))
        || ("DA:" <= line && (current.None? || !HasTwoNumbers(number, line[3..])))
        || ("FN:" <= line && (current.None? || number(BeforeComma(line[3..])).None?))
        || ("FNDA:" <= line && (current.None? || number(BeforeComma(line[5..])).None?)))
      && (st.Reading? ==> (st.current.Some? <==> current.Some? || "SF:" <= line))
  {
    hide Split, Trim, IndexOf, BeforeComma;
    var colon := IndexOf(line, ':');
    var kind, rest := line[..colon], line[colon + 1..];
    KindIs(line, "SF");
    KindIs(line, "DA");
    KindIs(line, "FN");
    KindIs(line, "FNDA");
    assert "SF" + ":" == "SF:" && "DA" + ":" == "DA:" && "FN" + ":" == "FN:" && "FNDA" + ":" == "FNDA:";
    BeforeCommaIs(rest);
  }

  lemma LineSpoils(number: Number, records: seq<Record>, current: Option<Record>, raw: string)
    ensures var st := ParseLine(number, Reading(records, current), raw);
      && (st.Malformed? <==> Spoils(number, raw, current.Some?))
      && (st.Reading? ==> (st.current.Some? <==> IsStart(raw) || (current.Some? && !IsEnd(raw))))
  {
    hide Split, IndexOf, BeforeComma, ParseField;
    var line := StripCr(raw);
    BlankIsNoField(line);
    EndIsNoField();
    hide Trim, HasTwoNumbers;
    if Trim(line) != "" && line != "end_of_record" {
      var colon := IndexOf(line, ':');
      if colon >= 0 {
        FieldSpoils(number, records, current, line);
      }
      MarkedHasColon(line);
    }
  }

  lemma EndIsNoField()
    ensures var end := "end_of_record"; !("SF:" <= end) && !("DA:" <= end) && !("FN:" <= end) && !("FNDA:" <= end)
  {
    assert "end_of_record"[0] == 'e';
  }

  lemma MarkedHasColon(line: string)
    ensures "SF:" <= line || "DA:" <= line || "FN:" <= line || "FNDA:" <= line ==> ':' in line
  {
    assert "SF:" <= line ==> line[2] == ':';
    assert "DA:" <= line ==> line[2] == ':';
    assert "FN:" <= line ==> line[2] == ':';
    assert "FNDA:" <= line ==> line[4] == ':';
  }

  lemma BlankIsNoField(line: string)
    ensures Trim(line) == "" ==> !("SF:" <= line) && line != "end_of_record"
  {
    assert !IsSpace('S') && !IsSpace('e');
    assert TrimStart(line) != "" || Trim(line) == "";
    if "SF:" <= line {
      assert line[0] == 'S' && TrimStart(line) == line;
      TrimEndKeeps(line);
    }
    if line == "end_of_record" {
      assert line[0] == 'e' && TrimStart(line) == line;
      TrimEndKeeps(line);
    }
  }

  lemma {:induction false} TrimEndKeeps(s: string)
    requires s != "" && !IsSpace(s[0])
    ensures TrimEnd(s) != ""
  {
    if |s| > 1 && IsSpace(s[|s| - 1]) {
      TrimEndKeeps(s[..|s| - 1]);
    }
  }

  lemma OpenStep(lines: seq<string>, i: nat)
    requires i < |lines|
    ensures OpenAt(lines, i + 1) <==> IsStart(lines[i]) || (OpenAt(lines, i) && !IsEnd(lines[i]))
  {
    hide IsStart, IsEnd;
    if OpenAt(lines, i) && !IsEnd(lines[i]) {
      var j :| 0 <= j < i && IsStart(lines[j]) && forall m | j < m < i :: !IsEnd(lines[m]);
      assert forall m | j < m < i + 1 :: m == i || !IsEnd(lines[m]);
    }
    if OpenAt(lines, i + 1) && !IsStart(lines[i]) {
      var j :| 0 <= j < i + 1 && IsStart(lines[j]) && forall m | j < m < i + 1 :: !IsEnd(lines[m]);
      assert j < i;
    }
  }

  /** What the parser knows before line `i`. */
  ghost predicate KnownAt(number: Number, lines: seq<string>, i: nat)
    requires i <= |lines|
  {
    var st := Fold(Parsing(number), START, lines[..i]);
    if st.Malformed? then exists j | 0 <= j < i :: Spoils(number, lines[j], OpenAt(lines, j))
    else (st.current.Some? <==> OpenAt(lines, i)) && forall j | 0 <= j < i :: !Spoils(number, lines[j], OpenAt(lines, j))
  }

  lemma KnownStep(number: Number, lines: seq<string>, i: nat)
    requires i < |lines| && KnownAt(number, lines, i)
    ensures KnownAt(number, lines, i + 1)
  {
    hide Spoils, OpenAt, IsStart, IsEnd, ParseLine;
    FoldStep(Parsing(number), START, lines, i);
    hide Fold;
    var st := Fold(Parsing(number), START, lines[..i]);
    ParseMalformed(number, lines[i]);
    if st.Reading? {
      LineSpoils(number, st.records, st.current, lines[i]);
      OpenStep(lines, i);
    }
  }

  lemma ParseMalformed(number: Number, raw: string)
    ensures ParseLine(number, Malformed, raw) == Malformed
  {
  }

  lemma KnownAtStart(number: Number, lines: seq<string>)
    ensures KnownAt(number, lines, 0)
  {
    assert lines[..0] == [];
    FoldEmpty(Parsing(number), START);
    hide Fold;
  }

  lemma {:induction false} KnownAlways(number: Number, lines: seq<string>, i: nat)
    requires i <= |lines|
    ensures KnownAt(number, lines, i)
  {
    hide KnownAt;
    if i == 0 {
      KnownAtStart(number, lines);
    } else {
      KnownAlways(number, lines, i - 1);
      KnownStep(number, lines, i - 1);
    }
  }

  /**
   * A text is malformed exactly when one of its lines spoils it, given whether a record is
   * open there, or a record is still open at its end.
   */
  lemma MalformedExactly(number: Number, text: string)
    ensures var lines := Split(text, '\n');
      ParseText(number, text) == None <==>
        || (exists i | 0 <= i < |lines| :: Spoils(number, lines[i], OpenAt(lines, i)))
        || OpenAt(lines, |lines|)
  {
    hide Split, Spoils, OpenAt, Fold;
    var lines := Split(text, '\n');
    KnownAlways(number, lines, |lines|);
    assert lines[..|lines|] == lines;
  }

  /** So a lane that breaks off before a record's end, and begins another, spoils the file. */
  lemma SecondStartSpoils(number: Number, text: string, i: nat, j: nat)
    requires var lines := Split(text, '\n');
      i < j < |lines| && IsStart(lines[i]) && IsStart(lines[j]) && forall m | i < m < j :: !IsEnd(lines[m])
    ensures ParseText(number, text) == None
  {
    var lines := Split(text, '\n');
    assert OpenAt(lines, j);
    BlankIsNoField(StripCr(lines[j]));
    assert Spoils(number, lines[j], true);
    MalformedExactly(number, text);
  }

  // ----- printed files -----

  /** Functions by line and then by name, hits by name, lines ascending. */
  ghost predicate InOrder(fns: seq<string>, hits: seq<string>, das: seq<int>, c: FileCoverage) {
    && Lists(fns, c.fnLine.Keys) && Lists(hits, c.fnda.Keys) && Lists(das, c.da.Keys)
    && (forall i, j | 0 <= i < j < |fns| ::
          c.fnLine[fns[i]] < c.fnLine[fns[j]] || (c.fnLine[fns[i]] == c.fnLine[fns[j]] && StrLe(fns[i], fns[j])))
    && (forall i, j | 0 <= i < j < |hits| :: StrLe(hits[i], hits[j]))
    && (forall i, j | 0 <= i < j < |das| :: das[i] < das[j])
  }

  function FnLines(fns: seq<string>, m: map<string, int>): seq<string>
    requires forall n | n in fns :: n in m
  {
    seq(|fns|, i requires 0 <= i < |fns| => "FN:" + (Dec(m[fns[i]]) + "," + fns[i]))
  }

  function FndaLines(hits: seq<string>, m: map<string, int>): seq<string>
    requires forall n | n in hits :: n in m
  {
    seq(|hits|, i requires 0 <= i < |hits| => "FNDA:" + (Dec(m[hits[i]]) + "," + hits[i]))
  }

  function DaLines(das: seq<int>, m: map<int, int>): seq<string>
    requires forall n | n in das :: n in m
  {
    seq(|das|, i requires 0 <= i < |das| => "DA:" + (Dec(das[i]) + "," + Dec(m[das[i]])))
  }

  lemma {:induction false} MapLinesAre<X>(f: X -> string, xs: seq<X>)
    ensures |MapLines(f, xs)| == |xs| && forall i | 0 <= i < |xs| :: MapLines(f, xs)[i] == f(xs[i])
  {
    if xs != [] {
      MapLinesAre(f, xs[..|xs| - 1]);
    }
  }

  lemma FnLinesPrinted(sf: string, c: FileCoverage) returns (fns: seq<string>)
    ensures Lists(fns, c.fnLine.Keys)
    ensures forall i, j | 0 <= i < j < |fns| ::
      c.fnLine[fns[i]] < c.fnLine[fns[j]] || (c.fnLine[fns[i]] == c.fnLine[fns[j]] && StrLe(fns[i], fns[j]))
    ensures MapLines(FnLine, RecordOf(sf, c).fn) == FnLines(fns, c.fnLine)
  {
    hide Dec, Sort, SortedSet, StrLe;
    ByLineIsTotalOrder(c.fnLine);
    fns := SortedSet(ByLine(c.fnLine), c.fnLine.Keys);
    SortedSetFacts(ByLine(c.fnLine), c.fnLine.Keys);
    var r := RecordOf(sf, c);
    assert r.fn == Pairs(fns, c.fnLine);
    forall i, j | 0 <= i < j < |fns|
      ensures c.fnLine[fns[i]] < c.fnLine[fns[j]] || (c.fnLine[fns[i]] == c.fnLine[fns[j]] && StrLe(fns[i], fns[j]))
    {
      assert fns[i] in c.fnLine && fns[j] in c.fnLine;
      assert ByLine(c.fnLine)(fns[i], fns[j]);
    }
    hide MapLines, RecordOf, ByLine, TotalOrder;
    MapLinesAre(FnLine, r.fn);
    assert forall i | 0 <= i < |fns| :: fns[i] in fns;
  }

  lemma FndaLinesPrinted(sf: string, c: FileCoverage) returns (hits: seq<string>)
    ensures Lists(hits, c.fnda.Keys) && forall i, j | 0 <= i < j < |hits| :: StrLe(hits[i], hits[j])
    ensures MapLines(FndaLine, RecordOf(sf, c).fnda) == FndaLines(hits, c.fnda)
  {
    hide Dec, Sort, SortedSet, StrLe;
    StrLeIsTotalOrder();
    hits := SortedSet(StrLe, c.fnda.Keys);
    SortedSetFacts(StrLe, c.fnda.Keys);
    var r := RecordOf(sf, c);
    assert r.fnda == Pairs(hits, c.fnda);
    hide MapLines, RecordOf, TotalOrder;
    MapLinesAre(FndaLine, r.fnda);
  }

  lemma DaLinesPrinted(sf: string, c: FileCoverage) returns (das: seq<int>)
    ensures Lists(das, c.da.Keys) && forall i, j | 0 <= i < j < |das| :: das[i] < das[j]
    ensures MapLines(DaLine, RecordOf(sf, c).da) == DaLines(das, c.da)
  {
    hide Dec, Sort, SortedSet;
    IntLeIsTotalOrder();
    das := SortedSet(IntLe, c.da.Keys);
    SortedSetFacts(IntLe, c.da.Keys);
    var r := RecordOf(sf, c);
    assert r.da == Pairs(das, c.da);
    forall i, j | 0 <= i < j < |das| ensures das[i] < das[j] {
      assert IntLe(das[i], das[j]) && das[i] != das[j];
    }
    hide MapLines, RecordOf, TotalOrder;
    MapLinesAre(DaLine, r.da);
  }

  /** A file as it is printed, with the counters that its entries give. */
  lemma FilePrints(sf: string, c: FileCoverage) returns (fns: seq<string>, hits: seq<string>, das: seq<int>)
    ensures InOrder(fns, hits, das, c)
    ensures FileLines(sf, c) ==
      ["TN:", "SF:" + sf] + FnLines(fns, c.fnLine) + FndaLines(hits, c.fnda)
      + (["FNF:" + Dec(|c.fnLine|), "FNH:" + Dec(|set n | n in c.fnda && c.fnda[n] > 0|)] + DaLines(das, c.da)
         + ["LF:" + Dec(|c.da|), "LH:" + Dec(|set l | l in c.da && c.da[l] > 0|), "end_of_record"])
  {
    hide MapLines, RecordOf, Dec, StrLe, FnLines, FndaLines, DaLines;
    fns := FnLinesPrinted(sf, c);
    hits := FndaLinesPrinted(sf, c);
    das := DaLinesPrinted(sf, c);
    assert "FNF" + ":" == "FNF:" && "FNH" + ":" == "FNH:" && "LF" + ":" == "LF:" && "LH" + ":" == "LH:";
  }

  /** Files are printed one after another in ascending order of their paths. */
  lemma FilesAscend(merged: Merged)
    ensures EmitText(merged) == Unlines(EmitLines(merged, Files(merged)))
    ensures Lists(Files(merged), merged.Keys) && forall i, j | 0 <= i < j < |Files(merged)| :: StrLe(Files(merged)[i], Files(merged)[j])
  {
    StrLeIsTotalOrder();
    SortedSetFacts(StrLe, merged.Keys);
  }
}
