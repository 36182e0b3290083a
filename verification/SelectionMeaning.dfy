/** scripts/select-e2e.ts: which tests run for which changes, by the paths themselves. */
module SelectionMeaning {
  import opened Globs
  import opened Results
  import opened Sorting
  import opened TestSelection
  import opened Text

  predicate IsDocument(p: string) {
    || p == "README.md" || p == "CLAUDE.md" || p == "AGENTS.md" || p == "CHANGELOG.md" || p == "TODOS.md"
    || p == "LICENSE" || p == "VERSION"
    || ('/' !in p && EndsWith(p, ".md")) || "docs/" <= p
  }

  /** A path whose change can break anything. */
  predicate IsHatch(p: string) {
    || p == "src/schema.sql" || p == "src/core/migrate.ts" || p == "src/core/db.ts" || p == "src/core/engine-factory.ts"
    || p == "src/core/operations.ts" || p == "package.json" || p == "bun.lock" || p == "Dockerfile.ci"
    || p == "docker-compose.ci.yml" || p == "scripts/ci-local.sh" || p == "scripts/run-e2e.sh"
    || p == "scripts/select-e2e.ts" || p == "scripts/e2e-test-map.ts" || p == "test/e2e/helpers.ts"
    || "src/commands/migrations/" <= p || "src/core/ops/" <= p || "test/e2e/fixtures/" <= p
    || "skills/" <= p || ".github/workflows/" <= p
  }

  /** A test that is to run because it changed itself. */
  predicate IsEndToEndTest(p: string) {
    "test/e2e/" <= p && EndsWith(p, ".test.ts") && !IsDocument(p)
  }

  predicate IsSource(p: string) {
    !IsDocument(p) && !("test/e2e/" <= p && EndsWith(p, ".test.ts"))
  }

  /** A glob of the map that matches the path and lists a test. */
  ghost predicate IsMapped(m: TestMap, p: string) {
    exists glob | glob in m && m[glob] != [] :: GlobMatches(glob, p, false)
  }

  /** Nothing changed, or something that no choice of tests covers. */
  ghost predicate RunsEverything(changed: seq<string>, m: TestMap) {
    || changed == []
    || ((exists p | p in changed :: !IsDocument(p)) &&
        exists p | p in changed :: IsHatch(p) || (IsSource(p) && !IsMapped(m, p)))
  }

  /** A test that some change calls for. */
  ghost predicate IsCalledFor(changed: seq<string>, m: TestMap, t: string) {
    exists p | p in changed ::
      || (IsEndToEndTest(p) && t == p)
      || (IsSource(p) && exists glob | glob in m && t in m[glob] :: GlobMatches(glob, p, false))
  }

  lemma PathsAre(p: string)
    ensures IsDoc(p) <==> IsDocument(p)
    ensures IsEscapeHatch(p) <==> IsHatch(p)
    ensures IsTestFile(p) && !IsDoc(p) <==> IsEndToEndTest(p)
    ensures NeedsMap(p) <==> IsSource(p)
  {
    DocumentsAre(p);
    HatchesAre(p);
    hide IsDoc, IsDocument, IsEscapeHatch, IsHatch;
  }

  lemma DocumentsAre(p: string)
    ensures IsDoc(p) <==> IsDocument(p)
  {
  }

  lemma HatchesAre(p: string)
    ensures IsEscapeHatch(p) <==> IsHatch(p)
  {
    var prefixes := ESCAPE_HATCH_PREFIXES;
    assert prefixes[0] == "src/commands/migrations/" && prefixes[1] == "src/core/ops/" && prefixes[2] == "test/e2e/fixtures/"
      && prefixes[3] == "skills/" && prefixes[4] == ".github/workflows/";
    assert prefixes[0] in prefixes && prefixes[1] in prefixes && prefixes[2] in prefixes && prefixes[3] in prefixes && prefixes[4] in prefixes;
    if prefix :| prefix in prefixes && prefix <= p {
      var i :| 0 <= i < |prefixes| && prefixes[i] == prefix;
    }
  }

  lemma MapIs(m: TestMap, p: string, t: string)
    ensures Covered(m, p) <==> IsMapped(m, p)
    ensures t in MappedTests(m, p) <==> exists glob | glob in m && t in m[glob] :: GlobMatches(glob, p, false)
  {
    hide Test, Atoms, GlobMatches;
    forall glob ensures GlobHits(glob, p) <==> GlobMatches(glob, p, false) {
      TestIsGlobMeaning(glob, p);
    }
  }

  lemma CalledForAre(changed: seq<string>, m: TestMap, t: string)
    ensures t in TestsForAll(m, changed) <==> IsCalledFor(changed, m, t)
  {
    hide IsDoc, IsTestFile, IsDocument, GlobMatches, MappedTests, NeedsMap, IsSource, IsEndToEndTest;
    forall p ensures t in TestsFor(m, p) <==>
      (IsEndToEndTest(p) && t == p) || (IsSource(p) && exists glob | glob in m && t in m[glob] :: GlobMatches(glob, p, false))
    {
      TestsForAre(m, p, t);
    }
    hide TestsFor;
  }

  lemma TestsForAre(m: TestMap, p: string, t: string)
    ensures t in TestsFor(m, p) <==>
      (IsEndToEndTest(p) && t == p) || (IsSource(p) && exists glob | glob in m && t in m[glob] :: GlobMatches(glob, p, false))
  {
    hide MappedTests, GlobMatches;
    PathsAre(p);
    MapIs(m, p, t);
    hide IsDoc, IsTestFile, IsEndToEndTest, IsSource;
    assert IsSource(p) <==> !IsDoc(p) && !IsTestFile(p);
  }

  lemma EverythingIs(changed: seq<string>, m: TestMap)
    ensures ClassOf(changed) == Empty || (ClassOf(changed) == Src && MustRunAll(m, changed)) <==> RunsEverything(changed, m)
    ensures ClassOf(changed) == DocOnly <==> changed != [] && forall p | p in changed :: IsDocument(p)
  {
    hide Covered, IsMapped;
    forall p ensures (IsDoc(p) <==> IsDocument(p)) && (IsEscapeHatch(p) <==> IsHatch(p)) && (NeedsMap(p) <==> IsSource(p))
      ensures Covered(m, p) <==> IsMapped(m, p)
    {
      PathsAre(p);
      MapIs(m, p, "");
    }
    hide IsDoc, IsDocument, IsEscapeHatch, IsHatch, NeedsMap, IsSource;
  }

  /**
   * The selection, exactly, for a map without unsupported globs: everything when nothing
   * changed or some change is not covered, and otherwise the tests that some change calls for.
   */
  lemma SelectionIs(changed: seq<string>, allTests: seq<string>, m: TestMap, t: string)
    requires forall glob | glob in m :: '?' !in glob && '[' !in glob && '{' !in glob
    ensures Selection(changed, allTests, m).Ok?
    ensures t in Selection(changed, allTests, m).value <==>
      if RunsEverything(changed, m) then t in allTests else IsCalledFor(changed, m, t)
  {
    EverythingIs(changed, m);
    CalledForAre(changed, m, t);
    SortedMembers(allTests, t);
    SelectedMembers(TestsForAll(m, changed), t);
    if ClassOf(changed) == Src && !MustRunAll(m, changed) {
      SourceSelectsSomething(changed, m);
    } else if ClassOf(changed) == DocOnly {
      DocumentsCallForNothing(changed, m, t);
    }
    hide RunsEverything, IsCalledFor, MustRunAll, TestsForAll, ClassOf, Sort, SortedSet;
  }

  /** The tests come in ascending order. */
  lemma SelectionAscends(changed: seq<string>, allTests: seq<string>, m: TestMap)
    requires Selection(changed, allTests, m).Ok?
    ensures var v := Selection(changed, allTests, m).value; forall i, j | 0 <= i < j < |v| :: StrLe(v[i], v[j])
  {
    hide MustRunAll, TestsForAll, Throws, ClassOf, StrLe, Sort, SortedSet;
    StrLeIsTotalOrder();
    SortSorts(StrLe, allTests);
    SortedSetFacts(StrLe, TestsForAll(m, changed));
  }

  lemma DocumentsCallForNothing(changed: seq<string>, m: TestMap, t: string)
    requires forall p | p in changed :: IsDocument(p)
    ensures !IsCalledFor(changed, m, t)
  {
  }

  lemma ErrsAre(changed: seq<string>, allTests: seq<string>, m: TestMap)
    ensures Selection(changed, allTests, m).Err? <==> ClassOf(changed) == Src && Throws(m, changed)
  {
    hide MustRunAll, TestsForAll, Throws, ClassOf;
  }

  /** A glob the matcher does not support is reported as soon as a source is looked up and no hatch is open. */
  lemma UnsupportedIsReported(changed: seq<string>, allTests: seq<string>, m: TestMap)
    ensures Selection(changed, allTests, m).Err? <==>
      && (forall p | p in changed :: !IsHatch(p))
      && (exists p | p in changed :: IsSource(p))
      && (exists glob | glob in m :: '?' in glob || '[' in glob || '{' in glob)
  {
    ErrsAre(changed, allTests, m);
    hide Selection;
    forall p ensures (IsDoc(p) <==> IsDocument(p)) && (IsEscapeHatch(p) <==> IsHatch(p)) && (NeedsMap(p) <==> IsSource(p)) {
      PathsAre(p);
    }
    assert forall p | p in changed && IsSource(p) :: !IsDoc(p);
    hide IsDoc, IsDocument, IsEscapeHatch, IsHatch, NeedsMap, IsSource;
  }
}
