/** scripts/select-e2e.ts: `matchGlob`, which compiles a glob to a regular expression and runs it. */
module Globs {
  import opened Folding
  import opened Results
  import opened Text

  /** `?`, `[` and `{` are refused. */
  predicate Supported(glob: string) {
    '?' !in glob && '[' !in glob && '{' !in glob
  }

  /** The characters the compiler escapes. */
  predicate IsEscaped(c: char) {
    c in ".+^${}()|\\"
  }

  /** How much of a glob one step of the compiler takes, and what it emits for it. */
  function Width(glob: string): nat {
    if "**" <= glob then 2 else 1
  }

  function Piece(glob: string): string
    requires glob != []
  {
    if "**" <= glob then ".*"
    else if glob[0] == '*' then "[^/]*"
    else if IsEscaped(glob[0]) then ['\\', glob[0]]
    else [glob[0]]
  }

  function Compile(glob: string): string {
    if glob == [] then "" else Piece(glob) + Compile(glob[Width(glob)..])
  }

  // ----- regular expressions, as far as the compiler uses them -----

  datatype Atom = AnyRun | SegmentRun | Any | Char(c: char)

  /** JavaScript's SyntaxCharacter. */
  predicate IsSyntax(c: char) {
    c in "^$\\.*+?()[]{}|"
  }

  predicate QuantifierNext(p: string) {
    p != [] && p[0] in "*+?{"
  }

  /** Reads a pattern made of literals, `.`, `.*` and `[^/]*`; `None` for any other construct. */
  function ReadPattern(p: string): Option<seq<Atom>>
    decreases |p|, 0
  {
    if p == [] then Some([])
    else if ".*" <= p then Prepend(AnyRun, p[2..])
    else if "[^/]*" <= p then Prepend(SegmentRun, p[5..])
    else if p[0] == '.' then Prepend(Any, p[1..])
    else if p[0] == '\\' then
      if |p| >= 2 && IsSyntax(p[1]) then Prepend(Char(p[1]), p[2..]) else None
    else if IsSyntax(p[0]) && p[0] != ']' then None
    else Prepend(Char(p[0]), p[1..])
  }

  function Prepend(a: Atom, rest: string): Option<seq<Atom>>
    decreases |rest|, 1
  {
    if QuantifierNext(rest) then None else
      match ReadPattern(rest)
      case None => None
      case Some(atoms) => Some([a] + atoms)
  }

  predicate NoLineTerminator(s: string) {
    forall c | c in s :: !IsLineTerminator(c)
  }

  predicate Matches(a: Atom, piece: string) {
    match a
    case AnyRun => NoLineTerminator(piece)
    case SegmentRun => '/' !in piece
    case Any => |piece| == 1 && NoLineTerminator(piece)
    case Char(c) => piece == [c]
  }

  /** The language of an anchored pattern: texts that fall into pieces, one for each atom. */
  ghost predicate Accepts(atoms: seq<Atom>, text: string) {
    exists pieces: seq<string> | |pieces| == |atoms| :: Splits(atoms, text, pieces)
  }

  ghost predicate Splits(atoms: seq<Atom>, text: string, pieces: seq<string>)
    requires |pieces| == |atoms|
  {
    Flatten(pieces) == text && forall i | 0 <= i < |atoms| :: Matches(atoms[i], pieces[i])
  }

  /** `RegExp.prototype.test`: the first atom takes some prefix, the others the rest. */
  predicate Test(atoms: seq<Atom>, text: string) {
    if atoms == [] then text == []
    else exists k | 0 <= k <= |text| :: Matches(atoms[0], text[..k]) && Test(atoms[1..], text[k..])
  }

  lemma {:induction false} FlattenFirst(pieces: seq<string>)
    requires pieces != []
    ensures Flatten(pieces) == pieces[0] + Flatten(pieces[1..])
  {
    if |pieces| > 1 {
      var last, rest := |pieces| - 1, pieces[1..];
      FlattenFirst(pieces[..last]);
      assert rest[..last - 1] == pieces[..last][1..] && rest[last - 1] == pieces[last];
      hide Flatten;
    }
  }

  lemma SplitsFirst(atoms: seq<Atom>, text: string, pieces: seq<string>)
    requires |pieces| == |atoms| > 0
    ensures Splits(atoms, text, pieces) <==>
      && |pieces[0]| <= |text| && text[..|pieces[0]|] == pieces[0] && Matches(atoms[0], pieces[0])
      && Splits(atoms[1..], text[|pieces[0]|..], pieces[1..])
  {
    hide Flatten, Matches;
    var k := |pieces[0]|;
    FlattenFirst(pieces);
    if Splits(atoms, text, pieces) {
      assert text[..k] == pieces[0] && text[k..] == Flatten(pieces[1..]);
      assert forall i | 0 <= i < |atoms| - 1 :: atoms[1..][i] == atoms[i + 1] && pieces[1..][i] == pieces[i + 1];
    } else if k <= |text| && text[..k] == pieces[0] && Matches(atoms[0], pieces[0]) && Splits(atoms[1..], text[k..], pieces[1..]) {
      assert text == text[..k] + text[k..];
      forall i | 0 <= i < |atoms| ensures Matches(atoms[i], pieces[i]) {
        assert i > 0 ==> atoms[1..][i - 1] == atoms[i] && pieces[1..][i - 1] == pieces[i];
      }
    }
  }

  lemma {:induction false} TestSplits(atoms: seq<Atom>, text: string) returns (pieces: seq<string>)
    requires Test(atoms, text)
    ensures |pieces| == |atoms| && Splits(atoms, text, pieces)
  {
    if atoms == [] {
      pieces := [];
    } else {
      hide Matches, Splits;
      var k :| 0 <= k <= |text| && Matches(atoms[0], text[..k]) && Test(atoms[1..], text[k..]);
      var rest := TestSplits(atoms[1..], text[k..]);
      pieces := [text[..k]] + rest;
      assert pieces[1..] == rest;
      SplitsFirst(atoms, text, pieces);
    }
  }

  lemma {:induction false} SplitsTest(atoms: seq<Atom>, text: string, pieces: seq<string>)
    requires |pieces| == |atoms| && Splits(atoms, text, pieces)
    ensures Test(atoms, text)
  {
    if atoms != [] {
      hide Matches, Splits;
      SplitsFirst(atoms, text, pieces);
      SplitsTest(atoms[1..], text[|pieces[0]|..], pieces[1..]);
    }
  }

  lemma TestAccepts(atoms: seq<Atom>, text: string)
    ensures Test(atoms, text) <==> Accepts(atoms, text)
  {
    if Test(atoms, text) {
      var pieces := TestSplits(atoms, text);
    }
    if Accepts(atoms, text) {
      var pieces: seq<string> :| |pieces| == |atoms| && Splits(atoms, text, pieces);
      SplitsTest(atoms, text, pieces);
    }
  }

  // ----- what a glob means -----

  /**
   * `**` any text, `*` any text without `/`, every other character itself; `crossing`
   * says whether the text for `**` may contain line breaks.
   */
  ghost predicate GlobMatches(glob: string, path: string, crossing: bool) {
    if glob == [] then path == []
    else if "**" <= glob then
      exists k | 0 <= k <= |path| :: (crossing || NoLineTerminator(path[..k])) && GlobMatches(glob[2..], path[k..], crossing)
    else if glob[0] == '*' then
      exists k | 0 <= k <= |path| :: '/' !in path[..k] && GlobMatches(glob[1..], path[k..], crossing)
    else path != [] && path[0] == glob[0] && GlobMatches(glob[1..], path[1..], crossing)
  }

  function Atoms(glob: string): seq<Atom> {
    if glob == [] then []
    else if "**" <= glob then [AnyRun] + Atoms(glob[2..])
    else if glob[0] == '*' then [SegmentRun] + Atoms(glob[1..])
    else [Char(glob[0])] + Atoms(glob[1..])
  }

  lemma CompileHead(glob: string)
    requires Supported(glob)
    ensures !QuantifierNext(Compile(glob))
  {
  }

  /** The compiled text reads back as the glob's own atoms: every special character is escaped. */
  lemma {:induction false} CompiledPattern(glob: string)
    requires Supported(glob)
    ensures ReadPattern(Compile(glob)) == Some(Atoms(glob))
  {
    if glob != [] {
      var k := Width(glob);
      var rest := glob[k..];
      assert Supported(rest);
      CompiledPattern(rest);
      CompileHead(rest);
      var p, tail := Compile(glob), Compile(rest);
      if k == 2 {
        assert p[2..] == tail;
      } else if glob[0] == '*' {
        assert p[5..] == tail;
      } else if IsEscaped(glob[0]) {
        assert p[2..] == tail;
      } else {
        assert p[1..] == tail;
        assert !(".*" <= p) && !("[^/]*" <= p);
      }
    }
  }

  lemma {:induction false} TestIsGlobMeaning(glob: string, path: string)
    ensures Test(Atoms(glob), path) <==> GlobMatches(glob, path, false)
  {
    if glob != [] {
      var atoms := Atoms(glob);
      var n := if "**" <= glob then 2 else 1;
      assert atoms[1..] == Atoms(glob[n..]);
      forall k | 0 <= k <= |path| ensures Test(atoms[1..], path[k..]) <==> GlobMatches(glob[n..], path[k..], false) {
        TestIsGlobMeaning(glob[n..], path[k..]);
      }
      if n == 1 && glob[0] != '*' {
        assert forall k | 0 <= k <= |path| :: Matches(atoms[0], path[..k]) ==> k == 1;
        assert path != [] && path[0] == glob[0] ==> path[..1] == [glob[0]];
      }
    }
  }

  /** Compiling keeps the glob's meaning on every path, `**` stopping at line breaks as `.` does. */
  lemma GlobMeaning(glob: string, path: string)
    requires Supported(glob)
    ensures ReadPattern(Compile(glob)).Some?
    ensures Accepts(ReadPattern(Compile(glob)).value, path) <==> GlobMatches(glob, path, false)
  {
    CompiledPattern(glob);
    TestAccepts(Atoms(glob), path);
    TestIsGlobMeaning(glob, path);
  }

  predicate HasDoubleStar(glob: string) {
    glob != [] && ("**" <= glob || HasDoubleStar(glob[1..]))
  }

  /** The documented meaning, in which `**` is any text, is never narrower, and the same without line breaks or without `**`. */
  lemma {:induction false} DocumentedMeaning(glob: string, path: string)
    ensures GlobMatches(glob, path, false) ==> GlobMatches(glob, path, true)
    ensures NoLineTerminator(path) || !HasDoubleStar(glob) ==> (GlobMatches(glob, path, false) <==> GlobMatches(glob, path, true))
  {
    if glob != [] {
      var n := if "**" <= glob then 2 else 1;
      forall k | 0 <= k <= |path|
        ensures GlobMatches(glob[n..], path[k..], false) ==> GlobMatches(glob[n..], path[k..], true)
        ensures NoLineTerminator(path) || !HasDoubleStar(glob) ==>
          (GlobMatches(glob[n..], path[k..], false) <==> GlobMatches(glob[n..], path[k..], true))
      {
        DocumentedMeaning(glob[n..], path[k..]);
      }
    }
  }

  /** Every glob means on a path what is documented if and only if the path has no line break. */
  lemma PathReadAsDocumented(path: string)
    ensures (forall glob | Supported(glob) :: GlobMatches(glob, path, false) <==> GlobMatches(glob, path, true))
      <==> NoLineTerminator(path)
  {
    if NoLineTerminator(path) {
      forall glob | Supported(glob) ensures GlobMatches(glob, path, false) <==> GlobMatches(glob, path, true) {
        DocumentedMeaning(glob, path);
      }
    } else {
      DoubleStarAlone(path);
      assert Supported("**");
    }
  }

  lemma DoubleStarAlone(path: string)
    ensures GlobMatches("**", path, true)
    ensures GlobMatches("**", path, false) ==> NoLineTerminator(path)
  {
    assert "**"[2..] == [] && path[|path|..] == [] && path[..|path|] == path;
    assert GlobMatches("**"[2..], path[|path|..], true);
    if GlobMatches("**", path, false) {
      var k :| 0 <= k <= |path| && NoLineTerminator(path[..k]) && GlobMatches("**"[2..], path[k..], false);
      assert path[..k] == path;
    }
  }

  /** The simplest case. */
  lemma LineBreaksDiffer()
    ensures GlobMatches("**", "\n", true) && !GlobMatches("**", "\n", false)
  {
    DoubleStarAlone("\n");
    assert '\n' in "\n";
  }

  // ----- a path on which a glob with `**` differs -----

  /** How often a line break is followed by `/`. */
  function BrokenSegments(s: string): nat {
    if |s| < 2 then 0 else (if s[..2] == "\n/" then 1 else 0) + BrokenSegments(s[1..])
  }

  lemma {:induction false} BrokenSegmentsConcat(a: string, b: string)
    ensures BrokenSegments(a) + BrokenSegments(b) <= BrokenSegments(a + b) <= BrokenSegments(a) + BrokenSegments(b) + 1
  {
    if a == [] {
      assert a + b == b;
    } else {
      BrokenSegmentsConcat(a[1..], b);
      assert (a + b)[1..] == a[1..] + b;
      if |a| > 1 {
        assert (a + b)[..2] == a[..2];
      } else {
        assert a[1..] + b == b;
      }
    }
  }

  lemma {:induction false} OnePieceHasNone(piece: string)
    requires '\n' !in piece || '/' !in piece
    ensures BrokenSegments(piece) == 0
  {
    if |piece| >= 2 {
      assert piece[0] == piece[..2][0] && piece[1] == piece[..2][1];
      OnePieceHasNone(piece[1..]);
    }
  }

  /** What the head of a glob takes, when `**` stops at line breaks. */
  lemma HeadTakes(glob: string, path: string) returns (n: nat, k: nat)
    requires glob != [] && GlobMatches(glob, path, false)
    ensures 1 <= n <= |glob| && k <= |path| && GlobMatches(glob[n..], path[k..], false)
    ensures '\n' !in path[..k] || '/' !in path[..k]
  {
    n := if "**" <= glob then 2 else 1;
    if n == 2 {
      k :| 0 <= k <= |path| && NoLineTerminator(path[..k]) && GlobMatches(glob[2..], path[k..], false);
      assert IsLineTerminator('\n');
    } else if glob[0] == '*' {
      k :| 0 <= k <= |path| && '/' !in path[..k] && GlobMatches(glob[1..], path[k..], false);
    } else {
      k := 1;
      assert path[..1] == [path[0]];
    }
  }

  /** Each character of a glob takes at most one broken segment, unless `**` may cross line breaks. */
  lemma {:induction false} FewBrokenSegments(glob: string, path: string)
    requires GlobMatches(glob, path, false)
    ensures BrokenSegments(path) <= |glob|
  {
    hide GlobMatches;
    if glob == [] {
      NothingLeft(path);
    } else {
      hide BrokenSegments;
      var n, k := HeadTakes(glob, path);
      FewBrokenSegments(glob[n..], path[k..]);
      OnePieceHasNone(path[..k]);
      BrokenSegmentsConcat(path[..k], path[k..]);
      assert path == path[..k] + path[k..];
    }
  }

  lemma NothingLeft(path: string)
    requires GlobMatches([], path, false)
    ensures path == []
  {
  }

  function BrokenPath(n: nat): string {
    if n == 0 then [] else "\n/" + BrokenPath(n - 1)
  }

  lemma {:induction false} BrokenPathCount(n: nat)
    ensures BrokenSegments(BrokenPath(n)) >= n
  {
    if n > 0 {
      BrokenPathCount(n - 1);
      BrokenSegmentsConcat("\n/", BrokenPath(n - 1));
      assert "\n/"[..2] == "\n/";
    }
  }

  /** A path of the glob's own characters, with `n` broken segments for each `**`. */
  function PathFor(glob: string, n: nat): string {
    if glob == [] then []
    else if "**" <= glob then BrokenPath(n) + PathFor(glob[2..], n)
    else if glob[0] == '*' then PathFor(glob[1..], n)
    else [glob[0]] + PathFor(glob[1..], n)
  }

  lemma {:induction false} PathForMatches(glob: string, n: nat)
    ensures GlobMatches(glob, PathFor(glob, n), true)
    ensures HasDoubleStar(glob) ==> BrokenSegments(PathFor(glob, n)) >= n
  {
    if glob != [] {
      var path := PathFor(glob, n);
      if "**" <= glob {
        var rest := PathFor(glob[2..], n);
        PathForMatches(glob[2..], n);
        assert path[|BrokenPath(n)|..] == rest;
        BrokenPathCount(n);
        BrokenSegmentsConcat(BrokenPath(n), rest);
      } else {
        var rest := PathFor(glob[1..], n);
        PathForMatches(glob[1..], n);
        if glob[0] == '*' {
          assert path[0..] == rest && path[..0] == [];
        } else {
          assert path[1..] == rest;
          BrokenSegmentsConcat([glob[0]], rest);
        }
      }
    }
  }

  /** A glob means on every path what is documented if and only if it has no `**`. */
  lemma GlobReadAsDocumented(glob: string)
    ensures (forall path :: GlobMatches(glob, path, false) <==> GlobMatches(glob, path, true)) <==> !HasDoubleStar(glob)
  {
    if HasDoubleStar(glob) {
      var n := |glob| + 1;
      PathForMatches(glob, n);
      var path := PathFor(glob, n);
      if GlobMatches(glob, path, false) {
        FewBrokenSegments(glob, path);
        assert false;
      }
      assert GlobMatches(glob, path, true);
    } else {
      forall path ensures GlobMatches(glob, path, false) <==> GlobMatches(glob, path, true) {
        DocumentedMeaning(glob, path);
      }
    }
  }

  datatype GlobError = UnsupportedSyntax

  lemma CompileUnfold(s: string)
    requires s != []
    ensures Compile(s) == Piece(s) + Compile(s[Width(s)..])
  {
  }

  lemma {:induction false} CompileStep(glob: string, i: nat, done: string)
    requires i < |glob| && done + Compile(glob[i..]) == Compile(glob)
    ensures var s := glob[i..];
      (done + Piece(s)) + Compile(glob[i + Width(s)..]) == Compile(glob)
  {
    hide Piece, Compile;
    var s := glob[i..];
    CompileUnfold(s);
    assert s[Width(s)..] == glob[i + Width(s)..];
    assert (done + Piece(s)) + Compile(s[Width(s)..]) == done + (Piece(s) + Compile(s[Width(s)..]));
  }

  method MatchGlob(glob: string, path: string) returns (result: Result<bool, GlobError>)
    ensures result == if Supported(glob) then Ok(Test(Atoms(glob), path)) else Err(UnsupportedSyntax)
    ensures Supported(glob) ==> result == Ok(GlobMatches(glob, path, false))
    ensures result.Err? <==> '?' in glob || '[' in glob || '{' in glob
  {
    hide Compile, Atoms, Test, GlobMatches, ReadPattern;
    if '?' in glob || '[' in glob || '{' in glob {
      return Err(UnsupportedSyntax);
    }
    var regex := "";
    var i := 0;
    assert glob[0..] == glob;
    while i < |glob|
      invariant 0 <= i <= |glob|
      invariant regex + Compile(glob[i..]) == Compile(glob)
    {
      CompileStep(glob, i, regex);
      var c := glob[i];
      assert "**" <= glob[i..] <==> c == '*' && i + 1 < |glob| && glob[i + 1] == '*';
      if c == '*' && i + 1 < |glob| && glob[i + 1] == '*' {
        regex := regex + ".*";
        i := i + 2;
      } else if c == '*' {
        regex := regex + "[^/]*";
        i := i + 1;
      } else if IsEscaped(c) {
        regex := regex + ['\\', c];
        i := i + 1;
      } else {
        regex := regex + [c];
        i := i + 1;
      }
    }
    CompileEmpty();
    assert glob[i..] == [] && regex == Compile(glob);
    CompiledPattern(glob);
    TestIsGlobMeaning(glob, path);
    result := Ok(Test(ReadPattern(regex).value, path));
  }

  lemma CompileEmpty()
    ensures Compile("") == ""
  {
  }
}
