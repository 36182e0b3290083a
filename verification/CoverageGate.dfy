/** scripts/coverage-diff-gate.ts: the verdict on a branch's added lines, given the merged line hits. */
module CoverageGate {
  import opened Folding
  import opened Results
  import opened Sorting
  import opened Text
  import opened Lcov
  import opened LcovLaws
  import opened UnifiedDiff

  /** Hits by line, for each source file that has a coverage record. */
  type LineHits = map<string, map<int, int>>

  // ----- exemptions and scope -----

  datatype Exemptions = Exemptions(exact: set<string>, prefixes: seq<string>)

  predicate IsExempt(path: string, ex: Exemptions) {
    path in ex.exact || exists p | p in ex.prefixes :: p <= path
  }

  predicate IsComment(line: string) {
    line == "" || "#" <= line
  }

  method ParseExemptions(text: string) returns (ex: Exemptions)
    ensures forall path :: IsExempt(path, ex) <==> exists raw | raw in Split(text, '\n') ::
      var line := Trim(raw);
      line != "" && !("#" <= line) && if EndsWith(line, "/") then line <= path else line == path
  {
    hide Split, Trim;
    var exact: set<string> := {};
    var prefixes: seq<string> := [];
    var lines := Split(text, '\n');
    for i := 0 to |lines|
      invariant forall line :: line in exact <==> exists j | 0 <= j < i ::
        line == Trim(lines[j]) && !IsComment(line) && !EndsWith(line, "/")
      invariant forall line :: line in prefixes <==> exists j | 0 <= j < i ::
        line == Trim(lines[j]) && !IsComment(line) && EndsWith(line, "/")
    {
      var line := Trim(lines[i]);
      if line == "" || "#" <= line {
        continue;
      }
      if EndsWith(line, "/") {
        prefixes := prefixes + [line];
      } else {
        exact := exact + {line};
      }
    }
    ex := Exemptions(exact, prefixes);
  }

  predicate IsGateScoped(path: string) {
    && "src/" <= path && EndsWith(path, ".ts")
    && !EndsWith(path, ".test.ts") && !EndsWith(path, ".generated.ts") && !EndsWith(path, ".d.ts")
  }

  // ----- one file -----

  predicate IsCovered(da: map<int, int>, line: nat) {
    line in da && da[line] > 0
  }

  predicate IsUncovered(da: map<int, int>, line: nat) {
    line in da && da[line] <= 0
  }

  predicate IsNonExecutable(da: map<int, int>, line: nat) {
    line !in da
  }

  function CoveredLines(da: map<int, int>, added: seq<nat>): nat {
    Count((line: nat) => IsCovered(da, line), added)
  }

  function UncoveredLines(da: map<int, int>, added: seq<nat>): nat {
    Count((line: nat) => IsUncovered(da, line), added)
  }

  function NonExecutableLines(da: map<int, int>, added: seq<nat>): nat {
    Count((line: nat) => IsNonExecutable(da, line), added)
  }

  /** Every added line is exactly one of covered, uncovered and non-executable. */
  lemma {:induction false} AddedLinesPartition(da: map<int, int>, added: seq<nat>)
    ensures CoveredLines(da, added) + UncoveredLines(da, added) + NonExecutableLines(da, added) == |added|
  {
    if added != [] {
      AddedLinesPartition(da, added[..|added| - 1]);
    }
  }

  method CountLines(da: map<int, int>, added: seq<nat>) returns (covered: nat, uncovered: seq<nat>)
    ensures covered == CoveredLines(da, added) && |uncovered| == UncoveredLines(da, added)
    ensures forall line | line in uncovered :: line in added && IsUncovered(da, line)
  {
    covered := 0;
    uncovered := [];
    for i := 0 to |added|
      invariant covered == CoveredLines(da, added[..i])
      invariant |uncovered| == UncoveredLines(da, added[..i])
      invariant forall line | line in uncovered :: line in added && IsUncovered(da, line)
    {
      var line := added[i];
      assert added[..i + 1][..i] == added[..i];
      if line in da {
        if da[line] > 0 {
          covered := covered + 1;
        } else {
          uncovered := uncovered + [line];
        }
      }
    }
    assert added[..|added|] == added;
  }

  // ----- the verdict -----

  datatype Summary = Summary(files: set<string>, lineHits: Option<LineHits>, degraded: bool)

  predicate HasRecord(s: Summary, file: string) {
    file in s.files || (s.lineHits.Some? && file in s.lineHits.value)
  }

  function HitsOf(s: Summary, file: string): map<int, int> {
    if s.lineHits.Some? && file in s.lineHits.value then s.lineHits.value[file] else map[]
  }

  datatype Tally = Tally(gated: nat, covered: nat, uncovered: nat, neverLoaded: nat, infra: bool)

  /** What one scoped file adds to the tally. */
  function FileTally(t: Tally, s: Summary, ex: Exemptions, file: string, added: seq<nat>): Tally {
    if t.infra || IsExempt(file, ex) then t
    else
      var u := t.(gated := t.gated + |added|);
      if !HasRecord(s, file) then u.(neverLoaded := u.neverLoaded + 1)
      else if s.lineHits.None? then u.(infra := true)
      else u.(covered := u.covered + CoveredLines(HitsOf(s, file), added),
              uncovered := u.uncovered + UncoveredLines(HitsOf(s, file), added))
  }

  ghost function ScopedFiles(changed: AddedLines): seq<string> {
    SortedSet(StrLe, set f | f in changed && IsGateScoped(f))
  }

  const NO_LINES := Tally(0, 0, 0, 0, false)

  function TallyFiles(s: Summary, ex: Exemptions, changed: AddedLines, files: seq<string>): Tally {
    if files == [] then NO_LINES else
      var f := files[|files| - 1];
      FileTally(TallyFiles(s, ex, changed, files[..|files| - 1]), s, ex, f, Get(changed, f))
  }

  /** At least 80% of the executable added lines covered, and no file never loaded. */
  predicate Passes(t: Tally) {
    5 * t.covered >= 4 * (t.covered + t.uncovered) && t.neverLoaded == 0
  }

  datatype Verdict = NotGated | InfrastructureError | Judged(pass: bool)

  function VerdictOf(t: Tally): Verdict {
    if t.infra then InfrastructureError
    else if t.gated == 0 then NotGated
    else Judged(Passes(t))
  }

  ghost function GateVerdict(s: Summary, ex: Exemptions, changed: AddedLines): Verdict {
    VerdictOf(TallyFiles(s, ex, changed, ScopedFiles(changed)))
  }

  /** The process's exit code: a verdict only bites when enforced, on sound data, without the escape hatch. */
  function ExitCode(v: Verdict, escapeHatch: bool, degraded: bool, enforcing: bool): nat {
    match v
    case NotGated => 0
    case InfrastructureError => 2
    case Judged(pass) => if escapeHatch || degraded || !enforcing || pass then 0 else 1
  }

  lemma TallyStep(s: Summary, ex: Exemptions, changed: AddedLines, files: seq<string>, i: nat)
    requires i < |files|
    ensures TallyFiles(s, ex, changed, files[..i + 1]) ==
      FileTally(TallyFiles(s, ex, changed, files[..i]), s, ex, files[i], Get(changed, files[i]))
  {
    hide FileTally;
    assert files[..i + 1][..i] == files[..i];
  }

  lemma TallyNone(s: Summary, ex: Exemptions, changed: AddedLines)
    ensures TallyFiles(s, ex, changed, []) == NO_LINES
  {
  }

  method Judge(s: Summary, ex: Exemptions, changed: AddedLines) returns (v: Verdict)
    ensures v == GateVerdict(s, ex, changed)
  {
    hide IsExempt, IsGateScoped, CoveredLines, UncoveredLines, Sort, SortedSet, TallyFiles;
    var scoped := set f | f in changed && IsGateScoped(f);
    var listing := ListOf(scoped);
    StrLeIsTotalOrder();
    SortOfListing(StrLe, listing, scoped);
    var files := Sort(StrLe, listing);
    SortedSetFacts(StrLe, scoped);
    var covered: nat, uncovered: nat, neverLoaded: nat, gated: nat := 0, 0, 0, 0;
    TallyNone(s, ex, changed);
    assert files[..0] == [];
    for i := 0 to |files|
      invariant TallyFiles(s, ex, changed, files[..i]) == Tally(gated, covered, uncovered, neverLoaded, false)
    {
      var file := files[i];
      assert file in scoped;
      var added := changed[file];
      TallyStep(s, ex, changed, files, i);
      if IsExempt(file, ex) {
        continue;
      }
      gated := gated + |added|;
      if !HasRecord(s, file) {
        neverLoaded := neverLoaded + 1;
        continue;
      }
      if s.lineHits.None? {
        InfraStays(s, ex, changed, files, i + 1);
        return InfrastructureError;
      }
      var fileCovered, fileUncovered := CountLines(HitsOf(s, file), added);
      covered := covered + fileCovered;
      uncovered := uncovered + |fileUncovered|;
    }
    assert files[..|files|] == files;
    if gated == 0 {
      return NotGated;
    }
    var denom := covered + uncovered;
    v := Judged((denom == 0 || 5 * covered >= 4 * denom) && neverLoaded == 0);
  }

  lemma {:induction false} InfraStays(s: Summary, ex: Exemptions, changed: AddedLines, files: seq<string>, i: nat)
    requires i <= |files| && TallyFiles(s, ex, changed, files[..i]).infra
    ensures TallyFiles(s, ex, changed, files).infra
    decreases |files|
  {
    if i < |files| {
      assert files[..|files| - 1][..i] == files[..i];
      InfraStays(s, ex, changed, files[..|files| - 1], i);
    } else {
      assert files[..i] == files;
    }
  }

  // ----- what the verdict depends on -----

  /** The same recorded lines, each hit at least as often. */
  ghost predicate RaisesHits(s: Summary, more: Summary) {
    && more.files == s.files && more.lineHits.Some? == s.lineHits.Some?
    && (s.lineHits.Some? ==>
        && more.lineHits.value.Keys == s.lineHits.value.Keys
        && forall f | f in s.lineHits.value ::
             && more.lineHits.value[f].Keys == s.lineHits.value[f].Keys
             && forall line | line in s.lineHits.value[f] :: more.lineHits.value[f][line] >= s.lineHits.value[f][line])
  }

  lemma {:induction false} MoreHitsCoverMore(da: map<int, int>, more: map<int, int>, added: seq<nat>)
    requires more.Keys == da.Keys && forall line | line in da :: more[line] >= da[line]
    ensures CoveredLines(more, added) >= CoveredLines(da, added)
    ensures CoveredLines(more, added) + UncoveredLines(more, added) == CoveredLines(da, added) + UncoveredLines(da, added)
  {
    if added != [] {
      MoreHitsCoverMore(da, more, added[..|added| - 1]);
    }
  }

  ghost predicate NoWorse(t: Tally, u: Tally) {
    && u.gated == t.gated && u.infra == t.infra && u.neverLoaded == t.neverLoaded
    && u.covered >= t.covered && u.covered + u.uncovered == t.covered + t.uncovered
  }

  lemma FileNoWorse(t: Tally, u: Tally, s: Summary, more: Summary, ex: Exemptions, file: string, added: seq<nat>)
    requires NoWorse(t, u) && RaisesHits(s, more)
    ensures NoWorse(FileTally(t, s, ex, file, added), FileTally(u, more, ex, file, added))
  {
    hide CoveredLines, UncoveredLines, IsExempt;
    MoreHitsCoverMore(HitsOf(s, file), HitsOf(more, file), added);
  }

  lemma {:induction false} TallyNoWorse(s: Summary, more: Summary, ex: Exemptions, changed: AddedLines, files: seq<string>)
    requires RaisesHits(s, more)
    ensures NoWorse(TallyFiles(s, ex, changed, files), TallyFiles(more, ex, changed, files))
  {
    hide FileTally, RaisesHits;
    if files != [] {
      var front, f := files[..|files| - 1], files[|files| - 1];
      TallyNoWorse(s, more, ex, changed, front);
      FileNoWorse(TallyFiles(s, ex, changed, front), TallyFiles(more, ex, changed, front), s, more, ex, f, Get(changed, f));
    }
  }

  /** More hits on recorded lines never turn a pass into a failure, whatever the run's mode. */
  lemma RaisingHitsNeverFails(s: Summary, more: Summary, ex: Exemptions, changed: AddedLines, escapeHatch: bool, enforcing: bool)
    requires RaisesHits(s, more) && more.degraded == s.degraded
    ensures GateVerdict(s, ex, changed) == Judged(true) ==> GateVerdict(more, ex, changed) == Judged(true)
    ensures ExitCode(GateVerdict(more, ex, changed), escapeHatch, more.degraded, enforcing)
         <= ExitCode(GateVerdict(s, ex, changed), escapeHatch, s.degraded, enforcing)
  {
    hide TallyFiles, ScopedFiles, RaisesHits;
    TallyNoWorse(s, more, ex, changed, ScopedFiles(changed));
  }

  // ----- the gate and the merge together -----

  /** The hits the merge hands to the gate. */
  function HitsFrom(merged: Merged): LineHits {
    map sf | sf in merged && "src/" <= sf :: merged[sf].da
  }

  function SummaryOf(merged: Merged, degraded: bool): Summary {
    Summary(HitsFrom(merged).Keys, Some(HitsFrom(merged)), degraded)
  }

  ghost predicate SameSigns(s: Summary, other: Summary) {
    && other.files == s.files && s.lineHits.Some? && other.lineHits.Some?
    && other.lineHits.value.Keys == s.lineHits.value.Keys
    && forall f | f in s.lineHits.value ::
         && other.lineHits.value[f].Keys == s.lineHits.value[f].Keys
         && forall line | line in s.lineHits.value[f] :: other.lineHits.value[f][line] > 0 <==> s.lineHits.value[f][line] > 0
  }

  lemma {:induction false} SameSignsCount(da: map<int, int>, other: map<int, int>, added: seq<nat>)
    requires other.Keys == da.Keys && forall line | line in da :: other[line] > 0 <==> da[line] > 0
    ensures CoveredLines(other, added) == CoveredLines(da, added)
    ensures UncoveredLines(other, added) == UncoveredLines(da, added)
  {
    if added != [] {
      SameSignsCount(da, other, added[..|added| - 1]);
    }
  }

  lemma {:induction false} SameSignsTally(s: Summary, other: Summary, ex: Exemptions, changed: AddedLines, files: seq<string>)
    requires SameSigns(s, other)
    ensures TallyFiles(s, ex, changed, files) == TallyFiles(other, ex, changed, files)
  {
    hide CoveredLines, UncoveredLines, IsExempt;
    if files != [] {
      var f := files[|files| - 1];
      SameSignsTally(s, other, ex, changed, files[..|files| - 1]);
      SameSignsCount(HitsOf(s, f), HitsOf(other, f), Get(changed, f));
    }
  }

  /** Re-merging the merge's own output, which doubles every hit, leaves every verdict as it was. */
  lemma SelfMergeKeepsVerdict(merged: Merged, ex: Exemptions, changed: AddedLines, degraded: bool)
    ensures GateVerdict(SummaryOf(Doubled(merged), degraded), ex, changed) == GateVerdict(SummaryOf(merged, degraded), ex, changed)
  {
    hide TallyFiles, ScopedFiles;
    var s, other := SummaryOf(merged, degraded), SummaryOf(Doubled(merged), degraded);
    assert other.files == s.files;
    SameSignsTally(s, other, ex, changed, ScopedFiles(changed));
  }
}
