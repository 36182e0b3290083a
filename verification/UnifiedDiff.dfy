/** scripts/coverage-diff-gate.ts: `parseUnifiedDiff`, which finds the lines a branch adds. */
module UnifiedDiff {
  import opened Folding
  import opened Results
  import opened Text

  type AddedLines = map<string, seq<nat>>

  // ----- the parser -----

  /** `\d+(?:,\d+)?`: the number, the count after a comma if there is one, and the text that follows. */
  function ReadRange(s: string): Option<(nat, Option<nat>, string)> {
    var k := DigitRun(s);
    if k == 0 then None else
      var rest := s[k..];
      var j := if rest != [] && rest[0] == ',' then DigitRun(rest[1..]) else 0;
      if j == 0 then Some((NatValue(s[..k]), None, rest))
      else Some((NatValue(s[..k]), Some(NatValue(rest[1..][..j])), rest[1..][j..]))
  }

  /** The new side of a hunk header `@@ -a,b +c,d @@`, `d` being 1 when left out. */
  function HunkHeader(line: string): Option<(nat, nat)> {
    if !("@@ -" <= line) then None else
      match ReadRange(line[4..])
      case None => None
      case Some((_, _, rest)) =>
        if !(" +" <= rest) then None else
          match ReadRange(rest[2..])
          case None => None
          case Some((start, count, tail)) =>
            if !(" @@" <= tail) then None
            else Some((start, if count.Some? then count.value else 1))
  }

  datatype DiffState = DiffState(current: Option<string>, out: AddedLines)

  function Get(out: AddedLines, path: string): seq<nat> {
    if path in out then out[path] else []
  }

  function Lines(start: nat, count: nat): (r: seq<nat>)
    ensures |r| == count
  {
    seq(count, i requires 0 <= i < count => start + i)
  }

  function AddRange(out: AddedLines, path: string, start: nat, count: nat): AddedLines {
    if count == 0 then out else out[path := Get(out, path) + Lines(start, count)]
  }

  /** The path named after `+++ `; none for a deleted file. */
  function TargetPath(line: string): Option<string>
    requires |line| >= 4
  {
    var p := Trim(line[4..]);
    if p == "/dev/null" then None else Some(if "b/" <= p then p[2..] else p)
  }

  function ParseDiffLine(st: DiffState, line: string): DiffState {
    if "+++ " <= line then st.(current := TargetPath(line))
    else if st.current.None? || st.current.value == "" then st
    else
      match HunkHeader(line)
      case None => st
      case Some((start, count)) => st.(out := AddRange(st.out, st.current.value, start, count))
  }

  function ParsingDiff(): (DiffState, string) -> DiffState {
    (st, line) => ParseDiffLine(st, line)
  }

  function ParseDiff(text: string): AddedLines {
    Fold(ParsingDiff(), DiffState(None, map[]), Split(text, '\n')).out
  }

  method ParseUnifiedDiff(text: string) returns (out: AddedLines)
    ensures out == ParseDiff(text)
  {
    hide Split, Trim, HunkHeader, Fold;
    out := map[];
    var current: Option<string> := None;
    var lines := Split(text, '\n');
    FoldEmpty(ParsingDiff(), DiffState(None, map[]));
    assert lines[..0] == [];
    for i := 0 to |lines|
      invariant Fold(ParsingDiff(), DiffState(None, map[]), lines[..i]) == DiffState(current, out)
    {
      var line := lines[i];
      assert lines[..i + 1] == lines[..i] + [line];
      FoldSnoc(ParsingDiff(), DiffState(None, map[]), lines[..i], line);
      if "+++ " <= line {
        var p := Trim(line[4..]);
        current := if p == "/dev/null" then None else Some(if "b/" <= p then p[2..] else p);
      } else if current.Some? && current.value != "" {
        var m := HunkHeader(line);
        if m.Some? {
          var (start, count) := m.value;
          if count > 0 {
            var arr := if current.value in out then out[current.value] else [];
            ghost var before := arr;
            for k := 0 to count
              invariant arr == before + Lines(start, k)
            {
              arr := arr + [start + k];
            }
            out := out[current.value := arr];
          }
        }
      }
    }
    assert lines[..|lines|] == lines;
  }

  // ----- diffs as git writes them -----

  /** A hunk of `git diff --unified=0`: lines taken out, lines put in, and no context. */
  datatype Hunk = Hunk(oldStart: nat, oldLines: seq<string>, newStart: nat, newLines: seq<string>, section: string, oldUnended: bool, newUnended: bool)

  datatype Target = Deleted | Path(path: string, tab: bool) | Untexted

  /** One file's part: header lines, the `+++` line if it has one, and its hunks. */
  datatype FileDiff = FileDiff(header: seq<string>, target: Target, hunks: seq<Hunk>)

  function Range(start: nat, count: nat): string {
    if count == 1 then DecNat(start) else DecNat(start) + ("," + DecNat(count))
  }

  function HeaderLine(h: Hunk): string {
    "@@ -" + (Range(h.oldStart, |h.oldLines|) + (" +" + (Range(h.newStart, |h.newLines|) + (" @@" + h.section))))
  }

  function Marked(mark: char, lines: seq<string>): (r: seq<string>)
    ensures |r| == |lines| && forall i | 0 <= i < |r| :: r[i] == [mark] + lines[i]
  {
    seq(|lines|, i requires 0 <= i < |lines| => [mark] + lines[i])
  }

  function Unended(b: bool): seq<string> {
    if b then ["\\ No newline at end of file"] else []
  }

  function BodyLines(h: Hunk): seq<string> {
    Marked('-', h.oldLines) + Unended(h.oldUnended) + Marked('+', h.newLines) + Unended(h.newUnended)
  }

  function HunkLines(h: Hunk): seq<string> {
    [HeaderLine(h)] + BodyLines(h)
  }

  function HunksLines(hs: seq<Hunk>): seq<string> {
    if hs == [] then [] else HunksLines(hs[..|hs| - 1]) + HunkLines(hs[|hs| - 1])
  }

  function TargetLines(t: Target): seq<string> {
    match t
    case Deleted => ["+++ /dev/null"]
    case Path(p, tab) => ["+++ b/" + p + (if tab then "\t" else "")]
    case Untexted => []
  }

  function FileDiffLines(d: FileDiff): seq<string> {
    d.header + TargetLines(d.target) + HunksLines(d.hunks)
  }

  function DiffLines(ds: seq<FileDiff>): seq<string> {
    if ds == [] then [] else DiffLines(ds[..|ds| - 1]) + FileDiffLines(ds[|ds| - 1])
  }

  /** A line the parser passes over: neither a `+++ ` line nor a hunk header. */
  predicate IsPassedOver(line: string) {
    !("+++ " <= line) && !("@@" <= line)
  }

  predicate NewlineFree(lines: seq<string>) {
    forall line | line in lines :: '\n' !in line
  }

  ghost predicate WellFormedHunk(h: Hunk) {
    NewlineFree(h.oldLines) && NewlineFree(h.newLines) && '\n' !in h.section
  }

  /** A file's part as git writes it, its path printed bare. */
  ghost predicate WellFormed(d: FileDiff) {
    && (forall line | line in d.header :: IsPassedOver(line) && '\n' !in line)
    && (d.target.Path? ==> d.target.path != "" && IsTrimmed(d.target.path) && '\n' !in d.target.path)
    && (d.target.Untexted? ==> d.hunks == [])
    && (!d.target.Path? ==> forall h | h in d.hunks :: h.newLines == [])
    && (forall h | h in d.hunks :: WellFormedHunk(h))
  }

  /** The file the parser has in mind after added lines; one that reads `++ name` looks, with its `+`, like a `+++ ` line. */
  function Retarget(current: Option<string>, added: seq<string>): Option<string> {
    if added == [] then current else
      var last := added[|added| - 1];
      if "++ " <= last then TargetPath("+" + last) else Retarget(current, added[..|added| - 1])
  }

  function TargetAfter(current: Option<string>, hs: seq<Hunk>): Option<string> {
    if hs == [] then current else Retarget(TargetAfter(current, hs[..|hs| - 1]), hs[|hs| - 1].newLines)
  }

  /** Where a hunk adds lines, no line added before it in the file has named another file. */
  predicate KeepsTarget(path: string, hs: seq<Hunk>) {
    hs == [] || (
      var front, h := hs[..|hs| - 1], hs[|hs| - 1];
      KeepsTarget(path, front) && (h.newLines != [] ==> TargetAfter(Some(path), front) == Some(path)))
  }

  predicate Unmistaken(d: FileDiff) {
    d.target.Path? ==> KeepsTarget(d.target.path, d.hunks)
  }

  /** The new-side line numbers of a file's added lines, hunk after hunk. */
  function HunksAdded(hs: seq<Hunk>): seq<nat> {
    if hs == [] then [] else
      var h := hs[|hs| - 1];
      HunksAdded(hs[..|hs| - 1]) + Lines(h.newStart, |h.newLines|)
  }

  function Added(ds: seq<FileDiff>, path: string): seq<nat> {
    if ds == [] then [] else
      var d := ds[|ds| - 1];
      Added(ds[..|ds| - 1], path) + (if d.target.Path? && d.target.path == path then HunksAdded(d.hunks) else [])
  }

  // ----- reading a header back -----

  lemma ReadRangeOf(start: nat, count: nat, rest: string)
    requires rest != [] && !IsDigit(rest[0]) && rest[0] != ','
    ensures ReadRange(Range(start, count) + rest) == Some((start, if count == 1 then None else Some(count), rest))
  {
    hide DigitRun, NatValue, DecNat;
    var a, b := DecNat(start), DecNat(count);
    NatValueOfDec(start);
    NatValueOfDec(count);
    var s := Range(start, count) + rest;
    if count == 1 {
      DigitRunOf(a, rest);
      assert s[..|a|] == a && s[|a|..] == rest;
    } else {
      var tail := "," + b + rest;
      assert s == a + tail;
      DigitRunOf(a, tail);
      assert s[..|a|] == a && s[|a|..] == tail;
      assert tail[1..] == b + rest;
      DigitRunOf(b, rest);
      assert tail[1..][..|b|] == b && tail[1..][|b|..] == rest;
    }
  }

  lemma HeaderReadsBack(h: Hunk)
    ensures HunkHeader(HeaderLine(h)) == Some((h.newStart, |h.newLines|))
  {
    hide ReadRange, Range;
    var tail := " @@" + h.section;
    var newPart := Range(h.newStart, |h.newLines|) + tail;
    var rest := " +" + newPart;
    var line := HeaderLine(h);
    assert line == "@@ -" + (Range(h.oldStart, |h.oldLines|) + rest);
    assert "@@ -" <= line && line[4..] == Range(h.oldStart, |h.oldLines|) + rest;
    ReadRangeOf(h.oldStart, |h.oldLines|, rest);
    assert rest[2..] == newPart;
    ReadRangeOf(h.newStart, |h.newLines|, tail);
  }

  // ----- the parser finds exactly the added lines -----

  lemma {:induction false} PassOver(st: DiffState, lines: seq<string>)
    requires forall line | line in lines :: IsPassedOver(line)
    ensures Fold(ParsingDiff(), st, lines) == st
  {
    hide HunkHeader;
    if lines != [] {
      var line := lines[|lines| - 1];
      PassOver(st, lines[..|lines| - 1]);
      assert line in lines;
      NoHeader(line);
    }
  }

  lemma NoHeader(line: string)
    requires IsPassedOver(line)
    ensures HunkHeader(line) == None
  {
  }

  lemma AddedLinePassedOver(added: string)
    requires !("++ " <= added)
    ensures IsPassedOver(['+'] + added)
  {
    var line := ['+'] + added;
    assert line[0] == '+' && forall k | 0 <= k < |added| :: line[k + 1] == added[k];
  }

  lemma {:induction false} ParseAdded(st: DiffState, added: seq<string>)
    ensures Fold(ParsingDiff(), st, Marked('+', added)) == st.(current := Retarget(st.current, added))
  {
    hide HunkHeader, TargetPath;
    if added != [] {
      var front, last := added[..|added| - 1], added[|added| - 1];
      ParseAdded(st, front);
      var line := ['+'] + last;
      assert Marked('+', added) == Marked('+', front) + [line];
      FoldSnoc(ParsingDiff(), st, Marked('+', front), line);
      var mid := st.(current := Retarget(st.current, front));
      if "++ " <= last {
        assert "+++ " <= line && "+" + last == line;
      } else {
        AddedLinePassedOver(last);
        NoHeader(line);
      }
    }
  }

  lemma ParseBody(st: DiffState, h: Hunk)
    ensures Fold(ParsingDiff(), st, BodyLines(h)) == st.(current := Retarget(st.current, h.newLines))
  {
    hide Retarget, Fold;
    var p := ParsingDiff();
    var taken, put := Marked('-', h.oldLines) + Unended(h.oldUnended), Marked('+', h.newLines);
    forall line | line in taken ensures IsPassedOver(line) {
      assert line[0] == '-' || line[0] == '\\';
    }
    PassOver(st, taken);
    ParseAdded(st, h.newLines);
    FoldConcat(p, st, taken, put);
    FoldConcat(p, st, taken + put, Unended(h.newUnended));
    forall line | line in Unended(h.newUnended) ensures IsPassedOver(line) {
      assert line[0] == '\\';
    }
    PassOver(st.(current := Retarget(st.current, h.newLines)), Unended(h.newUnended));
    assert BodyLines(h) == taken + put + Unended(h.newUnended);
  }

  /** What a hunk does to the parser: its range goes to the file in mind, and then that file may change. */
  function HunkState(st: DiffState, h: Hunk): DiffState {
    DiffState(
      Retarget(st.current, h.newLines),
      if st.current.None? || st.current.value == "" then st.out
      else AddRange(st.out, st.current.value, h.newStart, |h.newLines|))
  }

  function HunksState(st: DiffState, hs: seq<Hunk>): DiffState {
    if hs == [] then st else HunkState(HunksState(st, hs[..|hs| - 1]), hs[|hs| - 1])
  }

  lemma ParseHunk(st: DiffState, h: Hunk)
    ensures Fold(ParsingDiff(), st, HunkLines(h)) == HunkState(st, h)
  {
    hide HunkHeader, HeaderLine, BodyLines, Retarget;
    var p := ParsingDiff();
    FoldEmpty(p, st);
    FoldSnoc(p, st, [], HeaderLine(h));
    assert [] + [HeaderLine(h)] == [HeaderLine(h)];
    HeaderIsNoTarget(h);
    HeaderReadsBack(h);
    FoldConcat(p, st, [HeaderLine(h)], BodyLines(h));
    ParseBody(ParseDiffLine(st, HeaderLine(h)), h);
  }

  lemma HeaderIsNoTarget(h: Hunk)
    ensures !("+++ " <= HeaderLine(h))
  {
    assert HeaderLine(h)[0] == '@';
  }

  function AddLines(out: AddedLines, path: string, lines: seq<nat>): AddedLines {
    if lines == [] then out else out[path := Get(out, path) + lines]
  }

  lemma {:induction false} ParseHunks(st: DiffState, hs: seq<Hunk>)
    ensures Fold(ParsingDiff(), st, HunksLines(hs)) == HunksState(st, hs)
  {
    hide HunkLines, ParseDiffLine, HunkState;
    if hs != [] {
      var front, h := hs[..|hs| - 1], hs[|hs| - 1];
      ParseHunks(st, front);
      FoldConcat(ParsingDiff(), st, HunksLines(front), HunkLines(h));
      ParseHunk(HunksState(st, front), h);
    }
  }

  /** The lines, of those the hunks add, that the parser gives to their file. */
  function Reaching(path: string, hs: seq<Hunk>): seq<nat> {
    if hs == [] then [] else
      var front, h := hs[..|hs| - 1], hs[|hs| - 1];
      Reaching(path, front) + if TargetAfter(Some(path), front) == Some(path) then Lines(h.newStart, |h.newLines|) else []
  }

  lemma {:induction false} TargetInState(st: DiffState, hs: seq<Hunk>)
    ensures HunksState(st, hs).current == TargetAfter(st.current, hs)
  {
    hide Retarget, AddRange;
    if hs != [] {
      TargetInState(st, hs[..|hs| - 1]);
    }
  }

  /** A hunk read with the file `path` in mind, or with another, or none. */
  lemma HunkGoesToFile(st: DiffState, path: string, h: Hunk)
    requires path != ""
    ensures st.current == Some(path) ==> HunkState(st, h).out == AddRange(st.out, path, h.newStart, |h.newLines|)
    ensures Get(HunkState(st, h).out, path) ==
      Get(st.out, path) + if st.current == Some(path) then Lines(h.newStart, |h.newLines|) else []
  {
    hide Retarget, Lines;
  }

  /** The file's list grows by the lines that reach it. */
  lemma {:induction false} HunksReachFile(st: DiffState, path: string, hs: seq<Hunk>)
    requires path != "" && st.current == Some(path)
    ensures Get(HunksState(st, hs).out, path) == Get(st.out, path) + Reaching(path, hs)
  {
    hide Retarget, HunkState, Lines, Get;
    if hs == [] {
      assert Get(st.out, path) + [] == Get(st.out, path);
    } else {
      var front, h := hs[..|hs| - 1], hs[|hs| - 1];
      var reaching := if TargetAfter(Some(path), front) == Some(path) then Lines(h.newStart, |h.newLines|) else [];
      HunksReachFile(st, path, front);
      TargetInState(st, front);
      HunkGoesToFile(HunksState(st, front), path, h);
      assert Get(st.out, path) + (Reaching(path, front) + reaching) == (Get(st.out, path) + Reaching(path, front)) + reaching;
    }
  }

  /** Nothing else changes when each adding hunk is read with its own file in mind. */
  lemma {:induction false} HunksGoToFile(st: DiffState, path: string, hs: seq<Hunk>)
    requires path != "" && st.current == Some(path) && KeepsTarget(path, hs)
    ensures HunksState(st, hs).out == AddLines(st.out, path, HunksAdded(hs))
  {
    hide Retarget, Lines, Get, AddLines;
    if hs == [] {
      NoLinesAdded(st.out, path);
    } else {
      var front, h := hs[..|hs| - 1], hs[|hs| - 1];
      HunksGoToFile(st, path, front);
      TargetInState(st, front);
      AddLinesThenRange(st.out, path, HunksAdded(front), h.newStart, |h.newLines|);
      if h.newLines == [] {
        assert HunksAdded(hs) == HunksAdded(front) by { NoLines(h.newStart); }
      } else {
        HunkGoesToFile(HunksState(st, front), path, h);
      }
    }
  }

  lemma NoLines(start: nat)
    ensures Lines(start, 0) == []
  {
  }

  lemma NoLinesAdded(out: AddedLines, path: string)
    ensures AddLines(out, path, []) == out
  {
  }

  lemma {:induction false} SomeDoNotReach(path: string, hs: seq<Hunk>)
    ensures |Reaching(path, hs)| <= |HunksAdded(hs)|
    ensures !KeepsTarget(path, hs) ==> |Reaching(path, hs)| < |HunksAdded(hs)|
  {
    hide Retarget, TargetAfter;
    if hs != [] {
      SomeDoNotReach(path, hs[..|hs| - 1]);
    }
  }

  /** The first added line is never mistaken. */
  lemma {:induction false} FirstReaches(path: string, hs: seq<Hunk>)
    ensures HunksAdded(hs) == [] ==> TargetAfter(Some(path), hs) == Some(path)
    ensures HunksAdded(hs) != [] ==> Reaching(path, hs) != [] && Reaching(path, hs)[0] == HunksAdded(hs)[0]
  {
    if hs != [] {
      var front, h := hs[..|hs| - 1], hs[|hs| - 1];
      FirstReaches(path, front);
      var added := Lines(h.newStart, |h.newLines|);
      hide Lines;
      assert HunksAdded(hs) == HunksAdded(front) + added;
      if HunksAdded(front) == [] {
        assert Reaching(path, hs) == Reaching(path, front) + added;
        SomeDoNotReach(path, front);
      }
    }
  }

  lemma AddLinesThenRange(out: AddedLines, path: string, lines: seq<nat>, start: nat, count: nat)
    ensures AddRange(AddLines(out, path, lines), path, start, count) == AddLines(out, path, lines + Lines(start, count))
  {
    hide Lines;
    var range := Lines(start, count);
    if count == 0 {
      NoLines(start);
      assert lines + range == lines;
    } else if lines == [] {
      assert lines + range == range;
    } else {
      assert Get(out, path) + (lines + range) == (Get(out, path) + lines) + range;
    }
  }

  lemma TrimTab(q: string)
    requires q != "" && IsTrimmed(q)
    ensures Trim(q) == q && Trim(q + "\t") == q
  {
    assert (q + "\t")[..|q|] == q;
    assert TrimStart(q + "\t") == q + "\t";
    assert TrimEnd(q + "\t") == TrimEnd(q);
  }

  lemma TargetReadsBack(p: string, tab: bool)
    requires p != "" && IsTrimmed(p)
    ensures var line := "+++ b/" + p + (if tab then "\t" else "");
      "+++ " <= line && TargetPath(line) == Some(p)
  {
    var q := "b/" + p;
    var line := "+++ b/" + p + (if tab then "\t" else "");
    assert line[4..] == q + (if tab then "\t" else "");
    assert q + "" == q && q[2..] == p && q[|q| - 1] == p[|p| - 1];
    TrimTab(q);
    hide Trim, IsTrimmed;
    assert q != "/dev/null" by { assert q[0] == 'b'; }
  }

  lemma ParseTarget(st: DiffState, t: Target)
    requires t.Path? ==> t.path != "" && IsTrimmed(t.path)
    ensures Fold(ParsingDiff(), st, TargetLines(t)) == match t
      case Deleted => st.(current := None)
      case Path(p, _) => st.(current := Some(p))
      case Untexted => st
  {
    hide Trim, IsTrimmed;
    var p := ParsingDiff();
    FoldEmpty(p, st);
    match t
    case Deleted =>
      var line := "+++ /dev/null";
      FoldSnoc(p, st, [], line);
      assert [] + [line] == [line];
      DeletedTarget();
    case Path(path, tab) =>
      var line := "+++ b/" + path + (if tab then "\t" else "");
      FoldSnoc(p, st, [], line);
      assert [] + [line] == [line];
      TargetReadsBack(path, tab);
    case Untexted =>
  }

  lemma DeletedTarget()
    ensures "+++ " <= "+++ /dev/null" && TargetPath("+++ /dev/null") == None
  {
    assert "+++ /dev/null"[4..] == "/dev/null";
    TrimFacts("/dev/null");
  }

  /** The map lists, for each path with added lines, exactly those lines. */
  ghost predicate Exactly(out: AddedLines, ds: seq<FileDiff>) {
    forall path :: (path in out <==> Added(ds, path) != []) && Get(out, path) == Added(ds, path)
  }

  lemma ParseFileDiff(st: DiffState, d: FileDiff)
    requires WellFormed(d)
    ensures Fold(ParsingDiff(), st, FileDiffLines(d)).out
         == if d.target.Path? then HunksState(st.(current := Some(d.target.path)), d.hunks).out else st.out
  {
    hide ParseDiffLine, HunksLines, TargetLines, HunksState;
    var p := ParsingDiff();
    PassOver(st, d.header);
    ParseTarget(st, d.target);
    var mid := Fold(p, st, TargetLines(d.target));
    FoldConcat(p, st, d.header, TargetLines(d.target));
    FoldConcat(p, st, d.header + TargetLines(d.target), HunksLines(d.hunks));
    ParseHunks(mid, d.hunks);
    if !d.target.Path? {
      NothingAdded(mid, d.hunks);
    }
  }

  lemma {:induction false} NothingAdded(st: DiffState, hs: seq<Hunk>)
    requires forall h | h in hs :: h.newLines == []
    ensures HunksState(st, hs) == st
  {
    if hs != [] {
      assert hs[|hs| - 1] in hs;
      NothingAdded(st, hs[..|hs| - 1]);
    }
  }

  /** What a file's part of the diff should add. */
  function Expected(out: AddedLines, d: FileDiff): AddedLines {
    if d.target.Path? then AddLines(out, d.target.path, HunksAdded(d.hunks)) else out
  }

  /** A file's part is read right, whatever was read before it, exactly when none of its adding hunks is mistaken for another file's. */
  lemma FileDiffExactly(st: DiffState, d: FileDiff)
    requires WellFormed(d)
    ensures Fold(ParsingDiff(), st, FileDiffLines(d)).out == Expected(st.out, d) <==> Unmistaken(d)
  {
    hide Fold, FileDiffLines, HunksState, KeepsTarget;
    ParseFileDiff(st, d);
    if d.target.Path? {
      var start, path := st.(current := Some(d.target.path)), d.target.path;
      HunksReachFile(start, path, d.hunks);
      SomeDoNotReach(path, d.hunks);
      if KeepsTarget(path, d.hunks) {
        HunksGoToFile(start, path, d.hunks);
      }
    }
  }

  lemma {:induction false} ParseDiffLines(ds: seq<FileDiff>)
    requires forall d | d in ds :: WellFormed(d) && Unmistaken(d)
    ensures Exactly(Fold(ParsingDiff(), DiffState(None, map[]), DiffLines(ds)).out, ds)
  {
    hide FileDiffLines, ParseDiffLine, WellFormed, Unmistaken, Expected;
    if ds != [] {
      var front, d := ds[..|ds| - 1], ds[|ds| - 1];
      assert d in ds;
      ParseDiffLines(front);
      var mid := Fold(ParsingDiff(), DiffState(None, map[]), DiffLines(front));
      FoldConcat(ParsingDiff(), DiffState(None, map[]), DiffLines(front), FileDiffLines(d));
      FileDiffExactly(mid, d);
      ExactlyExtends(mid.out, front, d);
      assert ds == front + [d];
    }
  }

  lemma ExactlyExtends(out: AddedLines, ds: seq<FileDiff>, d: FileDiff)
    requires Exactly(out, ds)
    ensures Exactly(Expected(out, d), ds + [d])
  {
  }

  lemma {:induction false} DiffLinesAreLines(ds: seq<FileDiff>)
    requires forall d | d in ds :: WellFormed(d)
    ensures NewlineFree(DiffLines(ds))
  {
    if ds != [] {
      var d := ds[|ds| - 1];
      assert d in ds;
      DiffLinesAreLines(ds[..|ds| - 1]);
      HunksLinesAreLines(d.hunks);
    }
  }

  lemma {:induction false} HunksLinesAreLines(hs: seq<Hunk>)
    requires forall h | h in hs :: WellFormedHunk(h)
    ensures NewlineFree(HunksLines(hs))
  {
    if hs != [] {
      var h := hs[|hs| - 1];
      assert h in hs;
      HunksLinesAreLines(hs[..|hs| - 1]);
      HunkLinesAreLines(h);
    }
  }

  lemma RangeIsLine(start: nat, count: nat)
    ensures '\n' !in Range(start, count)
  {
    hide DecNat;
  }

  lemma HeaderIsLine(h: Hunk)
    requires WellFormedHunk(h)
    ensures '\n' !in HeaderLine(h)
  {
    RangeIsLine(h.oldStart, |h.oldLines|);
    RangeIsLine(h.newStart, |h.newLines|);
    hide Range;
  }

  lemma MarkedAreLines(mark: char, lines: seq<string>)
    requires mark != '\n' && NewlineFree(lines)
    ensures NewlineFree(Marked(mark, lines))
  {
    forall line | line in Marked(mark, lines) ensures '\n' !in line {
      var i :| 0 <= i < |lines| && Marked(mark, lines)[i] == line;
      assert lines[i] in lines;
    }
  }

  lemma HunkLinesAreLines(h: Hunk)
    requires WellFormedHunk(h)
    ensures NewlineFree(HunkLines(h))
  {
    HeaderIsLine(h);
    MarkedAreLines('-', h.oldLines);
    MarkedAreLines('+', h.newLines);
    hide HeaderLine, Marked;
  }

  lemma {:induction false} ParseDiffIsLines(ds: seq<FileDiff>)
    requires forall d | d in ds :: WellFormed(d)
    ensures ParseDiff(Unlines(DiffLines(ds))) == Fold(ParsingDiff(), DiffState(None, map[]), DiffLines(ds)).out
  {
    hide DiffLines, ParseDiffLine, Split, Unlines, WellFormed;
    var lines := DiffLines(ds);
    DiffLinesAreLines(ds);
    SplitUnlines(lines);
    FoldSnoc(ParsingDiff(), DiffState(None, map[]), lines, "");
    EmptyLinePassedOver(Fold(ParsingDiff(), DiffState(None, map[]), lines));
  }

  lemma EmptyLinePassedOver(st: DiffState)
    ensures ParseDiffLine(st, "") == st
  {
  }

  /**
   * For every diff git can write, provided no hunk is mistaken for another file's: the
   * parser returns each non-deleted file that gains lines, with exactly their new-side numbers.
   */
  lemma {:induction false} ParseDiffIsExact(ds: seq<FileDiff>)
    requires forall d | d in ds :: WellFormed(d) && Unmistaken(d)
    ensures Exactly(ParseDiff(Unlines(DiffLines(ds))), ds)
  {
    hide ParseDiff, DiffLines, Fold, WellFormed, Unmistaken, Exactly;
    ParseDiffIsLines(ds);
    ParseDiffLines(ds);
  }

  // ----- and only then -----

  ghost predicate Increasing(lines: seq<nat>) {
    forall i, j | 0 <= i < j < |lines| :: lines[i] < lines[j]
  }

  /** No two parts name the same new-side file. */
  ghost predicate DistinctTargets(ds: seq<FileDiff>) {
    forall i, j | 0 <= i < j < |ds| :: ds[i].target.Path? && ds[j].target.Path? ==> ds[i].target.path != ds[j].target.path
  }

  /** A diff as git writes it: each new-side file once, its added lines in ascending order. */
  ghost predicate GitDiff(ds: seq<FileDiff>) {
    && DistinctTargets(ds)
    && forall d | d in ds :: WellFormed(d) && Increasing(HunksAdded(d.hunks))
  }

  lemma GitDiffSnoc(front: seq<FileDiff>, d: FileDiff)
    requires GitDiff(front + [d])
    ensures GitDiff(front) && WellFormed(d) && Increasing(HunksAdded(d.hunks))
    ensures d.target.Path? ==> Added(front, d.target.path) == []
  {
    var ds := front + [d];
    hide WellFormed, Increasing, HunksAdded;
    assert d in ds && forall f | f in front :: f in ds;
    forall i, j | 0 <= i < j < |front| && front[i].target.Path? && front[j].target.Path?
      ensures front[i].target.path != front[j].target.path
    {
      assert front[i] == ds[i] && front[j] == ds[j];
    }
    if d.target.Path? {
      forall f | f in front ensures !(f.target.Path? && f.target.path == d.target.path) {
        var i :| 0 <= i < |front| && front[i] == f;
        assert ds[i] == f && ds[|front|] == d;
      }
      NoneAdded(front, d.target.path);
    }
  }

  lemma {:induction false} NoneAdded(ds: seq<FileDiff>, path: string)
    requires forall d | d in ds :: !(d.target.Path? && d.target.path == path)
    ensures Added(ds, path) == []
  {
    if ds != [] {
      assert ds == ds[..|ds| - 1] + [ds[|ds| - 1]];
      NoneAdded(ds[..|ds| - 1], path);
    }
  }

  /** The lines listed for each path are the added ones. */
  ghost predicate ListsAdded(out: AddedLines, ds: seq<FileDiff>) {
    forall path :: Get(out, path) == Added(ds, path)
  }

  lemma AddedSnoc(front: seq<FileDiff>, d: FileDiff, path: string)
    ensures Added(front + [d], path) ==
      Added(front, path) + if d.target.Path? && d.target.path == path then HunksAdded(d.hunks) else []
  {
    assert (front + [d])[..|front|] == front;
  }

  /** What was listed for a file before its part cannot make up for a line its part loses. */
  lemma NothingMakesUp(before: seq<nat>, reaching: seq<nat>, added: seq<nat>)
    requires Increasing(added) && |reaching| < |added|
    requires reaching != [] && reaching[0] == added[0]
    ensures before + reaching != added
  {
    assert before == [] ==> before + reaching == reaching;
    assert (before + reaching)[|before|] == reaching[0];
  }

  lemma LastIsUnmistaken(st: DiffState, front: seq<FileDiff>, d: FileDiff)
    requires GitDiff(front + [d])
    requires ListsAdded(Fold(ParsingDiff(), st, FileDiffLines(d)).out, front + [d])
    ensures Unmistaken(d) && ListsAdded(st.out, front)
  {
    hide FileDiffLines, Fold, HunksState, KeepsTarget, Increasing, WellFormed, GitDiff, Added, HunksAdded;
    GitDiffSnoc(front, d);
    var out := Fold(ParsingDiff(), st, FileDiffLines(d)).out;
    ParseFileDiff(st, d);
    if d.target.Path? {
      var path := d.target.path;
      assert path != "" by { TargetIsNamed(d); }
      AddedSnoc(front, d, path);
      HunksReachFile(st.(current := Some(path)), path, d.hunks);
      SomeDoNotReach(path, d.hunks);
      FirstReaches(path, d.hunks);
      if !Unmistaken(d) {
        NothingMakesUp(Get(st.out, path), Reaching(path, d.hunks), HunksAdded(d.hunks));
        assert false;
      }
    }
    FileDiffExactly(st, d);
    BeforeLast(st.out, front, d);
  }

  lemma TargetIsNamed(d: FileDiff)
    requires WellFormed(d) && d.target.Path?
    ensures d.target.path != ""
  {
  }

  lemma BeforeLast(out: AddedLines, front: seq<FileDiff>, d: FileDiff)
    requires d.target.Path? ==> Added(front, d.target.path) == []
    requires ListsAdded(Expected(out, d), front + [d])
    ensures ListsAdded(out, front)
  {
    hide Added, HunksAdded;
    forall path ensures Get(out, path) == Added(front, path) {
      AddedSnoc(front, d, path);
      assert Get(Expected(out, d), path) == Added(front + [d], path);
      if d.target.Path? && d.target.path == path {
        assert Get(out, path) + HunksAdded(d.hunks) == [] + HunksAdded(d.hunks);
      }
    }
  }

  lemma {:induction false} OnlyUnmistaken(ds: seq<FileDiff>)
    requires GitDiff(ds)
    requires ListsAdded(Fold(ParsingDiff(), DiffState(None, map[]), DiffLines(ds)).out, ds)
    ensures forall d | d in ds :: Unmistaken(d)
  {
    hide FileDiffLines, ParseDiffLine, Unmistaken, GitDiff, ListsAdded;
    if ds != [] {
      var front, d := ds[..|ds| - 1], ds[|ds| - 1];
      assert ds == front + [d];
      var mid := Fold(ParsingDiff(), DiffState(None, map[]), DiffLines(front));
      FoldConcat(ParsingDiff(), DiffState(None, map[]), DiffLines(front), FileDiffLines(d));
      LastIsUnmistaken(mid, front, d);
      GitDiffSnoc(front, d);
      OnlyUnmistaken(front);
    }
  }

  /**
   * For every diff git can write, the parser's result is exact if and only if no file has
   * a hunk that is mistaken for another file's.
   */
  lemma {:induction false} ParseDiffExactly(ds: seq<FileDiff>)
    requires GitDiff(ds)
    ensures Exactly(ParseDiff(Unlines(DiffLines(ds))), ds) <==> forall d | d in ds :: Unmistaken(d)
  {
    hide ParseDiff, DiffLines, Fold, WellFormed, Unmistaken, Unlines, Added;
    assert forall d | d in ds :: WellFormed(d);
    ParseDiffIsLines(ds);
    if forall d | d in ds :: Unmistaken(d) {
      ParseDiffIsExact(ds);
    }
    if Exactly(ParseDiff(Unlines(DiffLines(ds))), ds) {
      OnlyUnmistaken(ds);
    }
  }

  /** A diff of one file, in whatever order its hunks come. */
  lemma {:induction false} OneFileExactly(d: FileDiff)
    requires WellFormed(d)
    ensures Exactly(ParseDiff(Unlines(DiffLines([d]))), [d]) <==> Unmistaken(d)
  {
    hide ParseDiff, Fold, WellFormed, Unmistaken, FileDiffLines;
    ParseDiffIsLines([d]);
    OneFileLines(d);
    var st := DiffState(None, map[]);
    FileDiffExactly(st, d);
    ExactlyExtends(map[], [], d);
    assert [] + [d] == [d];
    ExactlyUnique(ParseDiff(Unlines(DiffLines([d]))), Expected(map[], d), [d]);
  }

  lemma OneFileLines(d: FileDiff)
    ensures DiffLines([d]) == FileDiffLines(d)
  {
    assert [d][..0] == [];
    assert DiffLines([d]) == DiffLines([]) + FileDiffLines(d);
  }

  lemma ExactlyUnique(a: AddedLines, b: AddedLines, ds: seq<FileDiff>)
    requires Exactly(b, ds)
    ensures Exactly(a, ds) <==> a == b
  {
    if Exactly(a, ds) {
      forall path ensures path in a <==> path in b {
        assert path in a <==> Added(ds, path) != [];
      }
      forall path | path in a ensures a[path] == b[path] {
        assert Get(a, path) == Added(ds, path);
      }
      assert a.Keys == b.Keys;
    }
  }

  /** No added line reads `++ …`. */
  ghost predicate NoPlusPlus(d: FileDiff) {
    forall h | h in d.hunks :: forall line | line in h.newLines :: !("++ " <= line)
  }

  /** Without an added line that reads `++ …` nothing is mistaken. */
  lemma NoPlusPlusIsUnmistaken(d: FileDiff)
    requires NoPlusPlus(d)
    ensures Unmistaken(d)
  {
    if d.target.Path? {
      TargetKept(d.target.path, d.hunks);
    }
  }

  lemma {:induction false} TargetKept(path: string, hs: seq<Hunk>)
    requires forall h | h in hs :: forall line | line in h.newLines :: !("++ " <= line)
    ensures KeepsTarget(path, hs) && TargetAfter(Some(path), hs) == Some(path)
  {
    if hs != [] {
      assert hs[|hs| - 1] in hs;
      TargetKept(path, hs[..|hs| - 1]);
      NotRetargeted(Some(path), hs[|hs| - 1].newLines);
    }
  }

  lemma {:induction false} NotRetargeted(current: Option<string>, added: seq<string>)
    requires forall line | line in added :: !("++ " <= line)
    ensures Retarget(current, added) == current
  {
    if added != [] {
      var front, last := added[..|added| - 1], added[|added| - 1];
      assert added == front + [last] && last in added;
      assert forall line | line in front :: line in added;
      NotRetargeted(current, front);
    }
  }

  /** With one, the file's next hunk is lost to the name the line spells, and the result is wrong. */
  lemma PlusPlusMisleads(path: string, name: string, start: nat, h: Hunk)
    requires path != "" && IsTrimmed(path) && '\n' !in path
    requires name != "" && IsTrimmed(name) && '\n' !in name && !("b/" <= name) && name != path
    requires WellFormedHunk(h) && h.newLines != []
    ensures var d := FileDiff([], Path(path, false), [Hunk(start, [], start + 1, ["++ " + name], "", false, false), h]);
      WellFormed(d) && !Exactly(ParseDiff(Unlines(DiffLines([d]))), [d])
  {
    var first := Hunk(start, [], start + 1, ["++ " + name], "", false, false);
    var d := FileDiff([], Path(path, false), [first, h]);
    assert WellFormed(d);
    assert !Unmistaken(d) by { SecondIsMistaken(path, name, first, h); }
    hide ParseDiff, DiffLines, Exactly, Unlines, WellFormed, Unmistaken;
    OneFileExactly(d);
  }

  lemma SecondIsMistaken(path: string, name: string, first: Hunk, h: Hunk)
    requires name != "" && IsTrimmed(name) && !("b/" <= name) && name != path
    requires first.newLines == ["++ " + name] && h.newLines != []
    ensures !KeepsTarget(path, [first, h])
  {
    assert ("+" + ("++ " + name))[4..] == name;
    TrimFacts(name);
    hide Trim, IsTrimmed;
    assert [first, h][..1] == [first] && [first][..0] == [];
    assert Retarget(Some(path), first.newLines) != Some(path);
    hide Retarget;
    assert TargetAfter(Some(path), [first]) == Retarget(Some(path), first.newLines);
  }
}
