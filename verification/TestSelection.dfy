/** scripts/select-e2e.ts: which end-to-end tests a set of changed files calls for. */
module TestSelection {
  import opened Results
  import opened Sorting
  import opened Text
  import opened Globs

  const DOC_ROOT_FILES: set<string> :=
    {"README.md", "CLAUDE.md", "AGENTS.md", "CHANGELOG.md", "TODOS.md", "LICENSE", "VERSION"}

  const ESCAPE_HATCH_FILES: set<string> := {
    "src/schema.sql", "src/core/migrate.ts", "src/core/db.ts", "src/core/engine-factory.ts",
    "src/core/operations.ts", "package.json", "bun.lock", "Dockerfile.ci", "docker-compose.ci.yml",
    "scripts/ci-local.sh", "scripts/run-e2e.sh", "scripts/select-e2e.ts", "scripts/e2e-test-map.ts",
    "test/e2e/helpers.ts"}

  const ESCAPE_HATCH_PREFIXES: seq<string> :=
    ["src/commands/migrations/", "src/core/ops/", "test/e2e/fixtures/", "skills/", ".github/workflows/"]

  predicate IsDoc(p: string) {
    p in DOC_ROOT_FILES || ('/' !in p && EndsWith(p, ".md")) || "docs/" <= p
  }

  predicate IsEscapeHatch(p: string) {
    p in ESCAPE_HATCH_FILES || exists prefix | prefix in ESCAPE_HATCH_PREFIXES :: prefix <= p
  }

  predicate IsTestFile(p: string) {
    "test/e2e/" <= p && EndsWith(p, ".test.ts")
  }

  /** E2E_TEST_MAP: from a glob over sources to the tests that exercise them. */
  type TestMap = map<string, seq<string>>

  datatype Classification = Empty | DocOnly | Src

  method Classify(changed: seq<string>) returns (c: Classification)
    ensures c == ClassOf(changed)
  {
    if |changed| == 0 {
      return Empty;
    }
    for i := 0 to |changed|
      invariant forall j | 0 <= j < i :: IsDoc(changed[j])
    {
      if !IsDoc(changed[i]) {
        return Src;
      }
    }
    c := DocOnly;
  }

  function ClassOf(changed: seq<string>): Classification {
    if changed == [] then Empty
    else if forall f | f in changed :: IsDoc(f) then DocOnly
    else Src
  }

  // ----- what is selected -----

  /** A changed file looked up in the map. */
  predicate NeedsMap(f: string) {
    !IsDoc(f) && !IsTestFile(f)
  }

  predicate GlobHits(glob: string, f: string) {
    Test(Atoms(glob), f)
  }

  predicate Covered(m: TestMap, f: string) {
    exists glob | glob in m :: GlobHits(glob, f) && m[glob] != []
  }

  function MappedTests(m: TestMap, f: string): set<string> {
    set glob, t | glob in m && GlobHits(glob, f) && t in m[glob] :: t
  }

  function TestsFor(m: TestMap, f: string): set<string> {
    if IsDoc(f) then {} else if IsTestFile(f) then {f} else MappedTests(m, f)
  }

  function TestsForAll(m: TestMap, changed: seq<string>): set<string> {
    set f, t | f in changed && t in TestsFor(m, f) :: t
  }

  predicate MustRunAll(m: TestMap, changed: seq<string>) {
    exists f | f in changed :: IsEscapeHatch(f) || (NeedsMap(f) && !Covered(m, f))
  }

  /** An unsupported glob is reported once some file is looked up in the map. */
  predicate Throws(m: TestMap, changed: seq<string>) {
    && (forall f | f in changed :: !IsEscapeHatch(f))
    && (exists f | f in changed :: NeedsMap(f))
    && (exists glob | glob in m :: !Supported(glob))
  }

  /** What `selectTests` returns, told by the set of changed files alone. */
  ghost function Selection(changed: seq<string>, allTests: seq<string>, m: TestMap): Result<seq<string>, GlobError> {
    match ClassOf(changed)
    case Empty => Ok(Sort(StrLe, allTests))
    case DocOnly => Ok([])
    case Src =>
      if Throws(m, changed) then Err(UnsupportedSyntax)
      else if MustRunAll(m, changed) then Ok(Sort(StrLe, allTests))
      else if TestsForAll(m, changed) == {} then Ok(Sort(StrLe, allTests))
      else Ok(SortedSet(StrLe, TestsForAll(m, changed)))
  }

  /** The loop over the map's entries for one changed file, in whatever order they come. */
  method LookUp(m: TestMap, f: string) returns (result: Result<(bool, set<string>), GlobError>)
    ensures result ==
      if forall glob | glob in m :: Supported(glob) then Ok((Covered(m, f), MappedTests(m, f)))
      else Err(UnsupportedSyntax)
  {
    var covered := false;
    var tests: set<string> := {};
    var todo := m.Keys;
    while todo != {}
      invariant todo <= m.Keys
      invariant forall glob | glob in m.Keys - todo :: Supported(glob)
      invariant covered <==> exists glob | glob in m.Keys - todo :: GlobHits(glob, f) && m[glob] != []
      invariant tests == set glob, t | glob in m.Keys - todo && GlobHits(glob, f) && t in m[glob] :: t
    {
      var glob :| glob in todo;
      var hit := MatchGlob(glob, f);
      if hit.Err? {
        return Err(UnsupportedSyntax);
      }
      ghost var seen := m.Keys - todo;
      todo := todo - {glob};
      assert m.Keys - todo == seen + {glob};
      if hit.value {
        if |m[glob]| > 0 {
          covered := true;
        }
        tests := tests + set t | t in m[glob];
      }
    }
    assert m.Keys - todo == m.Keys;
    result := Ok((covered, tests));
  }

  lemma TestsForNone(m: TestMap)
    ensures TestsForAll(m, []) == {}
  {
  }

  lemma TestsForAllSnoc(m: TestMap, changed: seq<string>, f: string)
    ensures TestsForAll(m, changed + [f]) == TestsForAll(m, changed) + TestsFor(m, f)
  {
  }

  method SelectTests(changed: seq<string>, allTests: seq<string>, m: TestMap)
    returns (result: Result<seq<string>, GlobError>)
    ensures result == Selection(changed, allTests, m)
  {
    hide IsDoc, IsEscapeHatch, IsTestFile, MappedTests, Covered, Supported, TestsForAll, Sort;
    var cls := Classify(changed);
    var allSorted := Sort(StrLe, allTests);
    if cls == Empty {
      return Ok(allSorted);
    }
    if cls == DocOnly {
      return Ok([]);
    }
    for i := 0 to |changed|
      invariant forall j | 0 <= j < i :: !IsEscapeHatch(changed[j])
    {
      if IsEscapeHatch(changed[i]) {
        assert changed[i] in changed;
        return Ok(allSorted);
      }
    }
    assert forall f | f in changed :: !IsEscapeHatch(f);
    var chosen: set<string> := {};
    TestsForNone(m);
    assert changed[..0] == [];
    for i := 0 to |changed|
      invariant chosen == TestsForAll(m, changed[..i])
      invariant forall j | 0 <= j < i :: NeedsMap(changed[j]) ==> Covered(m, changed[j])
      invariant (exists j | 0 <= j < i :: NeedsMap(changed[j])) ==> forall glob | glob in m :: Supported(glob)
    {
      var f := changed[i];
      assert f in changed;
      TestsForAllSnoc(m, changed[..i], f);
      assert changed[..i + 1] == changed[..i] + [f];
      if IsDoc(f) {
      } else if IsTestFile(f) {
        chosen := chosen + {f};
      } else {
        var lookup := LookUp(m, f);
        if lookup.Err? {
          return Err(UnsupportedSyntax);
        }
        var (covered, tests) := lookup.value;
        if !covered {
          return Ok(allSorted);
        }
        chosen := chosen + tests;
      }
    }
    assert changed[..|changed|] == changed;
    assert !Throws(m, changed) && !MustRunAll(m, changed);
    if chosen == {} {
      return Ok(allSorted);
    }
    var listing := ListOf(chosen);
    StrLeIsTotalOrder();
    SortOfListing(StrLe, listing, chosen);
    result := Ok(Sort(StrLe, listing));
  }

  // ----- what the selection guarantees -----

  /** A source change that does not force the full set selects some test by name: the last fallback is never taken. */
  lemma SourceSelectsSomething(changed: seq<string>, m: TestMap)
    requires ClassOf(changed) == Src && !MustRunAll(m, changed)
    ensures TestsForAll(m, changed) != {}
  {
    var f :| f in changed && !IsDoc(f);
    assert !IsEscapeHatch(f);
    if IsTestFile(f) {
      assert f in TestsFor(m, f);
      assert f in TestsForAll(m, changed);
    } else {
      var glob :| glob in m && GlobHits(glob, f) && m[glob] != [];
      var t := m[glob][0];
      assert t in m[glob] && t in MappedTests(m, f);
      assert t in TestsFor(m, f) && t in TestsForAll(m, changed);
    }
  }

  /** Fail-closed: one changed path that is neither documentation, nor a test, nor covered, runs every test. */
  lemma UncoveredRunsEverything(changed: seq<string>, allTests: seq<string>, m: TestMap, f: string)
    requires f in changed && NeedsMap(f) && !Covered(m, f)
    ensures Selection(changed, allTests, m) in {Ok(Sort(StrLe, allTests)), Err(UnsupportedSyntax)}
    ensures (forall glob | glob in m :: Supported(glob)) ==> Selection(changed, allTests, m) == Ok(Sort(StrLe, allTests))
  {
  }

  /** The selection depends on which files changed, not on their order or repetition. */
  lemma {:induction false} SelectionIgnoresOrder(changed: seq<string>, others: seq<string>, allTests: seq<string>, m: TestMap)
    requires forall f :: f in changed <==> f in others
    ensures Selection(changed, allTests, m) == Selection(others, allTests, m)
  {
    assert changed == [] <==> others == [] by {
      if changed != [] { assert changed[0] in others; }
      if others != [] { assert others[0] in changed; }
    }
    assert TestsForAll(m, changed) == TestsForAll(m, others);
  }

  lemma SortedMembers(s: seq<string>, t: string)
    ensures t in Sort(StrLe, s) <==> t in s
  {
    StrLeIsTotalOrder();
    SortSorts(StrLe, s);
    assert t in Sort(StrLe, s) <==> t in multiset(Sort(StrLe, s));
    assert t in s <==> t in multiset(s);
  }

  lemma SelectedMembers(xs: set<string>, t: string)
    ensures t in SortedSet(StrLe, xs) <==> t in xs
  {
    StrLeIsTotalOrder();
    SortedSetFacts(StrLe, xs);
  }

  /** Monotone: changing more files, from a non-empty change set, drops no existing test. */
  lemma {:induction false} SelectionIsMonotone(changed: seq<string>, more: seq<string>, allTests: seq<string>, m: TestMap)
    requires changed != [] && forall f | f in changed :: f in more
    ensures var a, b := Selection(changed, allTests, m), Selection(more, allTests, m);
      a.Ok? && b.Ok? ==> forall t | t in allTests && t in a.value :: t in b.value
  {
    var a, b := Selection(changed, allTests, m), Selection(more, allTests, m);
    if a.Ok? && b.Ok? {
      forall t | t in allTests && t in a.value ensures t in b.value {
        KeptByMoreChanges(changed, more, allTests, m, t);
      }
    }
  }

  lemma {:induction false} KeptByMoreChanges(changed: seq<string>, more: seq<string>, allTests: seq<string>, m: TestMap, t: string)
    requires changed != [] && forall f | f in changed :: f in more
    requires Selection(changed, allTests, m).Ok? && Selection(more, allTests, m).Ok?
    requires t in allTests && t in Selection(changed, allTests, m).value
    ensures t in Selection(more, allTests, m).value
  {
    SortedMembers(allTests, t);
    assert changed[0] in more;
    assert ClassOf(changed) == Src ==> ClassOf(more) == Src;
    assert MustRunAll(m, changed) ==> MustRunAll(m, more);
    if !MustRunAll(m, more) {
      SourceSelectsSomething(changed, m);
      SelectedMembers(TestsForAll(m, changed), t);
      SelectedMembers(TestsForAll(m, more), t);
      assert TestsForAll(m, changed) <= TestsForAll(m, more);
    }
  }

  /** The empty change set is the exception: it selects everything, documentation alone nothing. */
  lemma EmptySelectsAll(allTests: seq<string>, m: TestMap)
    ensures Selection([], allTests, m) == Ok(Sort(StrLe, allTests))
    ensures Selection(["README.md"], allTests, m) == Ok([])
  {
  }
}
