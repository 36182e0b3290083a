/** scripts/coverage-diff-gate.ts: what the verdict says of the files and lines of a change, read off the change itself. */
module GateMeaning {
  import opened Counting
  import opened CoverageGate
  import opened Folding
  import opened Results
  import opened Sorting
  import opened Text
  import opened UnifiedDiff

  /** A changed TypeScript source, no test, generated or declaration file, that no exemption names or covers. */
  ghost predicate Gated(ex: Exemptions, changed: AddedLines, f: string) {
    && f in changed
    && "src/" <= f && EndsWith(f, ".ts")
    && !EndsWith(f, ".test.ts") && !EndsWith(f, ".generated.ts") && !EndsWith(f, ".d.ts")
    && f !in ex.exact && forall p | p in ex.prefixes :: !(p <= f)
  }

  predicate Recorded(s: Summary, f: string) {
    f in s.files || (s.lineHits.Some? && f in s.lineHits.value)
  }

  /** The recorded hits of a line, `None` when it is not executable. */
  function RecordedHits(s: Summary, f: string, line: int): Option<int> {
    if s.lineHits.Some? && f in s.lineHits.value && line in s.lineHits.value[f] then Some(s.lineHits.value[f][line]) else None
  }

  predicate IsHit(hits: Option<int>) { hits.Some? && hits.value > 0 }

  predicate IsMissed(hits: Option<int>) { hits.Some? && hits.value <= 0 }

  /** The added lines of gated files with positive hits, and those with none. */
  ghost function LinesHit(s: Summary, ex: Exemptions, changed: AddedLines): set<(string, int)> {
    set f, i | f in changed && 0 <= i < |changed[f]| && Gated(ex, changed, f) && IsHit(RecordedHits(s, f, changed[f][i])) :: (f, i)
  }

  ghost function LinesMissed(s: Summary, ex: Exemptions, changed: AddedLines): set<(string, int)> {
    set f, i | f in changed && 0 <= i < |changed[f]| && Gated(ex, changed, f) && IsMissed(RecordedHits(s, f, changed[f][i])) :: (f, i)
  }

  // ----- the tally as sums over files -----

  function GatedOf(ex: Exemptions, changed: AddedLines): string -> nat {
    (f: string) => if IsExempt(f, ex) then 0 else |Get(changed, f)|
  }

  function NeverOf(s: Summary, ex: Exemptions): string -> nat {
    (f: string) => if IsExempt(f, ex) || HasRecord(s, f) then 0 else 1
  }

  function CoveredOf(s: Summary, ex: Exemptions, changed: AddedLines): string -> nat {
    (f: string) => if IsExempt(f, ex) then 0 else CoveredLines(HitsOf(s, f), Get(changed, f))
  }

  function UncoveredOf(s: Summary, ex: Exemptions, changed: AddedLines): string -> nat {
    (f: string) => if IsExempt(f, ex) then 0 else UncoveredLines(HitsOf(s, f), Get(changed, f))
  }

  predicate StopsAt(s: Summary, ex: Exemptions, f: string) {
    !IsExempt(f, ex) && f in s.files && s.lineHits.None?
  }

  lemma NoRecordCountsNothing(added: seq<nat>)
    ensures CoveredLines(map[], added) == 0 == UncoveredLines(map[], added)
  {
    CountBounds((line: nat) => IsCovered(map[], line), added);
    CountBounds((line: nat) => IsUncovered(map[], line), added);
  }

  ghost predicate IsSum(t: Tally, s: Summary, ex: Exemptions, changed: AddedLines, files: seq<string>) {
    && t.gated == Total(GatedOf(ex, changed), files)
    && t.neverLoaded == Total(NeverOf(s, ex), files)
    && t.covered == Total(CoveredOf(s, ex, changed), files)
    && t.uncovered == Total(UncoveredOf(s, ex, changed), files)
  }

  lemma SumStep(t: Tally, s: Summary, ex: Exemptions, changed: AddedLines, front: seq<string>, f: string)
    requires !t.infra && IsSum(t, s, ex, changed, front)
    ensures FileTally(t, s, ex, f, Get(changed, f)).infra <==> StopsAt(s, ex, f)
    ensures !StopsAt(s, ex, f) ==> IsSum(FileTally(t, s, ex, f, Get(changed, f)), s, ex, changed, front + [f])
  {
    hide IsExempt, CoveredLines, UncoveredLines, Get;
    NoRecordCountsNothing(Get(changed, f));
    TotalSnoc(GatedOf(ex, changed), front, f);
    TotalSnoc(NeverOf(s, ex), front, f);
    TotalSnoc(CoveredOf(s, ex, changed), front, f);
    TotalSnoc(UncoveredOf(s, ex, changed), front, f);
    hide Total;
  }

  lemma {:induction false} TallySums(s: Summary, ex: Exemptions, changed: AddedLines, files: seq<string>)
    ensures TallyFiles(s, ex, changed, files).infra <==> exists f | f in files :: StopsAt(s, ex, f)
    ensures !TallyFiles(s, ex, changed, files).infra ==> IsSum(TallyFiles(s, ex, changed, files), s, ex, changed, files)
  {
    if files != [] {
      hide FileTally, IsSum, StopsAt;
      var front, f := files[..|files| - 1], files[|files| - 1];
      assert files == front + [f];
      TallySums(s, ex, changed, front);
      var t := TallyFiles(s, ex, changed, front);
      if t.infra {
        InfraStays(s, ex, changed, files, |front|);
      } else {
        SumStep(t, s, ex, changed, front, f);
      }
    }
  }

  lemma {:induction false} TotalIsZero<X>(m: X -> nat, xs: seq<X>)
    ensures Total(m, xs) == 0 <==> forall x | x in xs :: m(x) == 0
  {
    if xs != [] {
      assert xs == xs[..|xs| - 1] + [xs[|xs| - 1]];
      TotalIsZero(m, xs[..|xs| - 1]);
    }
  }

  // ----- sums as sizes of sets -----

  ghost function PlacesHit(s: Summary, ex: Exemptions, changed: AddedLines): string -> set<int> {
    (f: string) => if IsExempt(f, ex) then {} else Places((line: nat) => IsCovered(HitsOf(s, f), line), Get(changed, f))
  }

  ghost function PlacesMissed(s: Summary, ex: Exemptions, changed: AddedLines): string -> set<int> {
    (f: string) => if IsExempt(f, ex) then {} else Places((line: nat) => IsUncovered(HitsOf(s, f), line), Get(changed, f))
  }

  lemma GatedMeans(ex: Exemptions, changed: AddedLines, f: string)
    ensures Gated(ex, changed, f) <==> f in changed && IsGateScoped(f) && !IsExempt(f, ex)
  {
  }

  lemma PlacesMean(s: Summary, ex: Exemptions, changed: AddedLines, f: string, i: int)
    requires f in changed && IsGateScoped(f)
    ensures i in PlacesHit(s, ex, changed)(f) <==>
      Gated(ex, changed, f) && 0 <= i < |changed[f]| && IsHit(RecordedHits(s, f, changed[f][i]))
    ensures i in PlacesMissed(s, ex, changed)(f) <==>
      Gated(ex, changed, f) && 0 <= i < |changed[f]| && IsMissed(RecordedHits(s, f, changed[f][i]))
  {
    GatedMeans(ex, changed, f);
    hide Gated, IsExempt, IsGateScoped;
  }

  lemma PlacesSizes(s: Summary, ex: Exemptions, changed: AddedLines, f: string)
    ensures CoveredOf(s, ex, changed)(f) == |PlacesHit(s, ex, changed)(f)|
    ensures UncoveredOf(s, ex, changed)(f) == |PlacesMissed(s, ex, changed)(f)|
  {
    hide IsExempt, Places, Count, IsCovered, IsUncovered;
    CountOfPlaces((line: nat) => IsCovered(HitsOf(s, f), line), Get(changed, f));
    CountOfPlaces((line: nat) => IsUncovered(HitsOf(s, f), line), Get(changed, f));
  }

  lemma PairsAreLines(s: Summary, ex: Exemptions, changed: AddedLines, scoped: set<string>)
    requires forall f :: f in scoped <==> f in changed && IsGateScoped(f)
    ensures PairsOf(PlacesHit(s, ex, changed), scoped) == LinesHit(s, ex, changed)
    ensures PairsOf(PlacesMissed(s, ex, changed), scoped) == LinesMissed(s, ex, changed)
  {
    forall f, i | f in scoped
      ensures i in PlacesHit(s, ex, changed)(f) <==> (f, i) in LinesHit(s, ex, changed)
      ensures i in PlacesMissed(s, ex, changed)(f) <==> (f, i) in LinesMissed(s, ex, changed)
    {
      PlacesMean(s, ex, changed, f, i);
    }
    forall f, i | (f, i) in LinesHit(s, ex, changed) || (f, i) in LinesMissed(s, ex, changed) ensures f in scoped {
      GatedMeans(ex, changed, f);
    }
    hide PlacesHit, PlacesMissed, LinesHit, LinesMissed, IsGateScoped;
  }

  lemma CoveredIsHit(s: Summary, ex: Exemptions, changed: AddedLines, files: seq<string>, scoped: set<string>)
    requires Lists(files, scoped) && forall f :: f in scoped <==> f in changed && IsGateScoped(f)
    ensures Total(CoveredOf(s, ex, changed), files) == |LinesHit(s, ex, changed)|
    ensures Total(UncoveredOf(s, ex, changed), files) == |LinesMissed(s, ex, changed)|
  {
    hide CoveredOf, UncoveredOf, PlacesHit, PlacesMissed, LinesHit, LinesMissed, PairsOf, Total, IsGateScoped, Lists;
    forall f ensures CoveredOf(s, ex, changed)(f) == |PlacesHit(s, ex, changed)(f)|
      ensures UncoveredOf(s, ex, changed)(f) == |PlacesMissed(s, ex, changed)(f)|
    {
      PlacesSizes(s, ex, changed, f);
    }
    TotalOfDistinct(CoveredOf(s, ex, changed), PlacesHit(s, ex, changed), files, scoped);
    TotalOfDistinct(UncoveredOf(s, ex, changed), PlacesMissed(s, ex, changed), files, scoped);
    PairsAreLines(s, ex, changed, scoped);
  }

  /** The run breaks off at a gated file that is listed while the summary has no line hits. */
  ghost predicate BreaksOff(s: Summary, ex: Exemptions, changed: AddedLines) {
    s.lineHits.None? && exists f | f in s.files :: Gated(ex, changed, f)
  }

  lemma ScopedFilesList(changed: AddedLines)
    ensures Lists(ScopedFiles(changed), set f | f in changed && IsGateScoped(f))
  {
    StrLeIsTotalOrder();
    SortedSetFacts(StrLe, set f | f in changed && IsGateScoped(f));
  }

  lemma TallyMeans(s: Summary, ex: Exemptions, changed: AddedLines)
    ensures var t := TallyFiles(s, ex, changed, ScopedFiles(changed));
      && (t.infra <==> BreaksOff(s, ex, changed))
      && (!t.infra ==>
        && (t.gated == 0 <==> forall f | f in changed && Gated(ex, changed, f) :: changed[f] == [])
        && (t.neverLoaded == 0 <==> forall f | f in changed && Gated(ex, changed, f) :: Recorded(s, f))
        && t.covered == |LinesHit(s, ex, changed)| && t.uncovered == |LinesMissed(s, ex, changed)|)
  {
    var files := ScopedFiles(changed);
    var scoped := set f | f in changed && IsGateScoped(f);
    ScopedFilesList(changed);
    hide ScopedFiles;
    forall f ensures Gated(ex, changed, f) <==> f in files && !IsExempt(f, ex) {
      GatedMeans(ex, changed, f);
      assert f in files <==> f in scoped;
    }
    CoveredIsHit(s, ex, changed, files, scoped);
    hide Gated, IsExempt, IsGateScoped, TallyFiles, LinesHit, LinesMissed, Total;
    TallySums(s, ex, changed, files);
    TotalIsZero(GatedOf(ex, changed), files);
    TotalIsZero(NeverOf(s, ex), files);
  }

  /**
   * The verdict, exactly: it passes if and only if gated files add a line, all of them have
   * a record, and at least 80 in 100 of their executable added lines are hit.
   */
  lemma VerdictExactly(s: Summary, ex: Exemptions, changed: AddedLines)
    ensures var v, hit, missed := GateVerdict(s, ex, changed), |LinesHit(s, ex, changed)|, |LinesMissed(s, ex, changed)|;
      && (v == InfrastructureError <==> BreaksOff(s, ex, changed))
      && (v == NotGated <==> !BreaksOff(s, ex, changed) && forall f | f in changed && Gated(ex, changed, f) :: changed[f] == [])
      && (v == Judged(true) <==>
          && !BreaksOff(s, ex, changed)
          && (exists f | f in changed && Gated(ex, changed, f) :: changed[f] != [])
          && (forall f | f in changed && Gated(ex, changed, f) :: Recorded(s, f))
          && 100 * hit >= 80 * (hit + missed))
  {
    hide Gated, TallyFiles, LinesHit, LinesMissed, ScopedFiles, BreaksOff, Recorded;
    TallyMeans(s, ex, changed);
  }

  /** The exit code, exactly. */
  lemma ExitCodeExactly(v: Verdict, escapeHatch: bool, degraded: bool, enforcing: bool)
    ensures var code := ExitCode(v, escapeHatch, degraded, enforcing);
      && (code == 2 <==> v == InfrastructureError)
      && (code == 1 <==> v == Judged(false) && enforcing && !escapeHatch && !degraded)
      && code in {0, 1, 2}
  {
  }
}
