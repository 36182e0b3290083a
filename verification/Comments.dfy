/**
 * scripts/generate-flag-registry.ts: `stripComments`, the scanner that removes comments
 * from dispatch-block text before flags are read from it.
 */
module Comments {
  import opened Text

  /** A piece of TypeScript source as the scanner cuts it. */
  datatype Token = Code(c: char) | Literal(text: string) | LineComment(text: string) | BlockComment(text: string) {
    function Source(): string {
      if Code? then [c] else text
    }
  }

  predicate IsQuote(c: char) {
    c == '\'' || c == '"' || c == '`'
  }

  /** Where the `//` comment that begins `s` ends: before the next newline. */
  function LineEnd(s: string): (k: nat)
    ensures k <= |s|
    ensures '\n' !in s[..k] && (k < |s| ==> s[k] == '\n')
  {
    if s == [] || s[0] == '\n' then 0 else
      var k := LineEnd(s[1..]);
      assert s[..k + 1] == [s[0]] + s[1..][..k];
      k + 1
  }

  /** `s.indexOf('*''/', from)`, or the length of `s` when absent. */
  function StarSlash(s: string, from: nat): (k: nat)
    requires from <= |s|
    ensures from <= k <= |s|
    decreases |s| - from
  {
    if from + 1 >= |s| then |s|
    else if s[from] == '*' && s[from + 1] == '/' then from
    else StarSlash(s, from + 1)
  }

  /** Where the block comment that begins `s` ends: after its terminator, or at the end of `s`. */
  function BlockEnd(s: string): (k: nat)
    requires |s| >= 2
    ensures 2 <= k <= |s|
  {
    var end := StarSlash(s, 2);
    if end == |s| then |s| else Min(end + 2, |s|)
  }

  /** The scan for the closing quote `q`: it skips escaped characters, and only a template crosses a newline. */
  function LiteralStop(s: string, q: char, j: nat): (k: nat)
    ensures k >= j
    decreases |s| - j
  {
    if j >= |s| || s[j] == q then j
    else if s[j] == '\\' then LiteralStop(s, q, j + 2)
    else if q != '`' && s[j] == '\n' then j
    else LiteralStop(s, q, j + 1)
  }

  function LiteralEnd(s: string): (k: nat)
    requires s != []
    ensures 1 <= k <= |s|
  {
    Min(|s|, LiteralStop(s, s[0], 1) + 1)
  }

  function First(s: string): (t: Token)
    requires s != []
    ensures 1 <= |t.Source()| <= |s| && t.Source() == s[..|t.Source()|]
  {
    if "//" <= s then LineEndPastSlashes(s); LineComment(s[..LineEnd(s)])
    else if "/*" <= s then BlockComment(s[..BlockEnd(s)])
    else if IsQuote(s[0]) then Literal(s[..LiteralEnd(s)])
    else Code(s[0])
  }

  lemma LineEndPastSlashes(s: string)
    requires "//" <= s
    ensures LineEnd(s) >= 2
  {
    assert s[1..][0] == '/';
  }

  function Rest(s: string): string
    requires s != []
  {
    s[|First(s).Source()|..]
  }

  function Lex(s: string): seq<Token>
    decreases |s|
  {
    if s == [] then [] else [First(s)] + Lex(Rest(s))
  }

  function Newlines(s: string): string {
    if s == [] then []
    else if s[0] == '\n' then ['\n'] + Newlines(s[1..])
    else Newlines(s[1..])
  }

  /** What is left of a token: code and literals whole, of a block comment its newlines. */
  function Render(t: Token): string {
    match t
    case Code(c) => [c]
    case Literal(text) => text
    case LineComment(_) => ""
    case BlockComment(text) => Newlines(text)
  }

  function RenderAll(ts: seq<Token>): string {
    if ts == [] then "" else Render(ts[0]) + RenderAll(ts[1..])
  }

  function Strip(s: string): string {
    RenderAll(Lex(s))
  }

  lemma StripUnfold(s: string)
    ensures Strip("") == ""
    ensures s != [] ==> Strip(s) == Render(First(s)) + Strip(Rest(s))
  {
    if s != [] {
      assert Lex(s)[1..] == Lex(Rest(s));
    }
  }

  lemma StripLineComment(s: string)
    requires "//" <= s
    ensures Strip(s) == Strip(s[LineEnd(s)..])
  {
    StripUnfold(s);
  }

  lemma StripBlockComment(s: string)
    requires "/*" <= s
    ensures Strip(s) == Newlines(s[..BlockEnd(s)]) + Strip(s[BlockEnd(s)..])
  {
    StripUnfold(s);
  }

  lemma StripLiteral(s: string)
    requires s != [] && IsQuote(s[0])
    ensures Strip(s) == s[..LiteralEnd(s)] + Strip(s[LiteralEnd(s)..])
  {
    StripUnfold(s);
  }

  lemma StripCode(s: string)
    requires s != [] && !("//" <= s) && !("/*" <= s) && !IsQuote(s[0])
    ensures Strip(s) == [s[0]] + Strip(s[1..])
  {
    StripUnfold(s);
  }

  /** Appending the rendering of the text from `i` to `k` keeps the output in step with the cursor. */
  lemma Advance(src: string, out: string, i: nat, k: nat, x: string)
    requires i <= k <= |src|
    requires Strip(src) == out + Strip(src[i..]) && Strip(src[i..]) == x + Strip(src[i..][k - i..])
    ensures Strip(src) == (out + x) + Strip(src[k..])
  {
    hide Strip;
    assert src[i..][k - i..] == src[k..];
  }

  /** The loop over a line comment. */
  method SkipLineComment(src: string, from: nat) returns (i: nat)
    requires from <= |src|
    ensures i <= |src| && i - from == LineEnd(src[from..])
  {
    i := from;
    while i < |src| && src[i] != '\n'
      invariant from <= i <= |src|
      invariant '\n' !in src[from..i]
    {
      i := i + 1;
    }
    assert src[from..][..i - from] == src[from..i];
    LineEndUnique(src[from..], i - from);
  }

  /** The loop over a literal's characters: `j` stops at the closing quote, or where the literal breaks off. */
  method ScanLiteral(src: string, i: nat) returns (j: nat)
    requires i < |src|
    ensures j - i == LiteralStop(src[i..], src[i], 1)
  {
    var quote := src[i];
    ghost var s := src[i..];
    j := i + 1;
    while j < |src| && src[j] != quote
      invariant i < j
      invariant LiteralStop(s, quote, 1) == LiteralStop(s, quote, j - i)
    {
      LiteralStopUnfold(s, quote, j - i);
      if src[j] == '\\' {
        j := j + 1;
      } else if quote != '`' && src[j] == '\n' {
        return;
      }
      j := j + 1;
    }
  }

  method StripComments(src: string) returns (out: string)
    ensures out == Strip(src)
  {
    hide LineEnd, StarSlash, BlockEnd, LiteralStop, Strip, Newlines;
    out := "";
    var i := 0;
    var n := |src|;
    assert src[0..] == src;
    while i < n
      invariant 0 <= i
      invariant Strip(src) == out + Strip(src[Min(i, n)..])
    {
      var c := src[i];
      ghost var s := src[i..];
      if c == '/' && i + 1 < n && src[i + 1] == '/' {
        var k := SkipLineComment(src, i);
        StripLineComment(s);
        Advance(src, out, i, k, "");
        i := k;
      } else if c == '/' && i + 1 < n && src[i + 1] == '*' {
        var stop := i + BlockEnd(src[i..]);
        StripBlockComment(s);
        assert src[i..stop] == s[..BlockEnd(s)];
        Advance(src, out, i, stop, Newlines(src[i..stop]));
        out := out + Newlines(src[i..stop]);
        i := stop;
      } else if IsQuote(c) {
        var j := ScanLiteral(src, i);
        var stop := Min(n, j + 1);
        StripLiteral(s);
        assert src[i..stop] == s[..LiteralEnd(s)];
        Advance(src, out, i, stop, src[i..stop]);
        out := out + src[i..stop];
        i := j + 1;
      } else {
        StripCode(s);
        Advance(src, out, i, i + 1, [c]);
        out := out + [c];
        i := i + 1;
      }
    }
    StripUnfold("");
    assert src[n..] == [];
  }

  lemma LiteralStopUnfold(s: string, q: char, j: nat)
    ensures LiteralStop(s, q, j) ==
      if j >= |s| || s[j] == q then j
      else if s[j] == '\\' then LiteralStop(s, q, j + 2)
      else if q != '`' && s[j] == '\n' then j
      else LiteralStop(s, q, j + 1)
  {
  }

  lemma {:induction false} LineEndUnique(s: string, k: nat)
    requires k <= |s| && '\n' !in s[..k] && (k < |s| ==> s[k] == '\n')
    ensures LineEnd(s) == k
  {
  }

  // ----- the tokens are the language's own -----

  function Sources(ts: seq<Token>): string {
    if ts == [] then "" else ts[0].Source() + Sources(ts[1..])
  }

  /** Characters, escaped ones in pairs, none of which ends a literal quoted by `q`. */
  predicate LiteralBody(body: string, q: char) {
    || body == []
    || (body[0] == '\\' && |body| >= 2 && LiteralBody(body[2..], q))
    || (body[0] != '\\' && body[0] != q && (q == '`' || body[0] != '\n') && LiteralBody(body[1..], q))
  }

  /** A quoted literal: closed by its own quote, or a string broken off by the end of its line. */
  predicate QuotedLiteral(text: string) {
    && |text| >= 2 && IsQuote(text[0])
    && LiteralBody(text[1..|text| - 1], text[0])
    && var end := text[|text| - 1]; end == text[0] || (text[0] != '`' && end == '\n')
  }

  predicate WellFormed(t: Token, last: bool) {
    match t
    case Code(c) => !IsQuote(c)
    case Literal(text) => text != [] && IsQuote(text[0]) && (last || QuotedLiteral(text))
    case LineComment(text) => "//" <= text && '\n' !in text
    case BlockComment(text) =>
      && "/*" <= text
      && (last || (|text| >= 4 && ClosesComment(text, |text| - 2)))
      && forall i | 2 <= i < |text| - 2 :: !ClosesComment(text, i)
  }

  predicate ClosesComment(s: string, i: nat) {
    i + 1 < |s| && s[i] == '*' && s[i + 1] == '/'
  }

  lemma {:induction false} StarSlashIsFirst(s: string, from: nat)
    requires from <= |s|
    ensures var k := StarSlash(s, from);
      && (k < |s| ==> ClosesComment(s, k))
      && forall i | from <= i < k :: !ClosesComment(s, i)
    decreases |s| - from
  {
    if from + 1 < |s| && !(s[from] == '*' && s[from + 1] == '/') {
      StarSlashIsFirst(s, from + 1);
    }
  }

  lemma {:induction false} LiteralStopBody(s: string, q: char, j: nat)
    requires j <= LiteralStop(s, q, j) < |s|
    ensures var stop := LiteralStop(s, q, j);
      LiteralBody(s[j..stop], q) && (s[stop] == q || (q != '`' && s[stop] == '\n'))
    decreases |s| - j
  {
    var stop := LiteralStop(s, q, j);
    if s[j] == q {
    } else if s[j] == '\\' {
      LiteralStopBody(s, q, j + 2);
      assert s[j..stop][2..] == s[j + 2..stop];
    } else if q != '`' && s[j] == '\n' {
    } else {
      LiteralStopBody(s, q, j + 1);
      assert s[j..stop][1..] == s[j + 1..stop];
    }
  }

  lemma BlockIsWellFormed(s: string)
    requires "/*" <= s
    ensures WellFormed(BlockComment(s[..BlockEnd(s)]), BlockEnd(s) == |s|)
  {
    hide StarSlash;
    StarSlashIsFirst(s, 2);
    var text := s[..BlockEnd(s)];
    assert forall i | 2 <= i < |text| - 2 :: ClosesComment(text, i) ==> ClosesComment(s, i);
  }

  lemma LiteralIsWellFormed(s: string)
    requires s != [] && IsQuote(s[0])
    ensures WellFormed(Literal(s[..LiteralEnd(s)]), LiteralEnd(s) == |s|)
  {
    hide LiteralStop, LiteralBody;
    var stop := LiteralStop(s, s[0], 1);
    if stop < |s| {
      LiteralStopBody(s, s[0], 1);
      assert s[..stop + 1][1..stop] == s[1..stop];
    }
  }

  lemma FirstIsWellFormed(s: string)
    requires s != []
    ensures WellFormed(First(s), Rest(s) == [])
  {
    hide LiteralEnd, BlockEnd, LineEnd;
    if "//" <= s {
      LineEndPastSlashes(s);
    } else if "/*" <= s {
      BlockIsWellFormed(s);
    } else if IsQuote(s[0]) {
      LiteralIsWellFormed(s);
    }
  }

  /** The tokens cut the text up whole, each of its own kind; only the last may break off. */
  lemma {:induction false} LexIsTokenization(s: string)
    ensures Sources(Lex(s)) == s
    ensures forall i | 0 <= i < |Lex(s)| :: WellFormed(Lex(s)[i], i == |Lex(s)| - 1)
    decreases |s|
  {
    hide First, WellFormed;
    if s != [] {
      FirstIsWellFormed(s);
      LexIsTokenization(Rest(s));
      assert Lex(s)[1..] == Lex(Rest(s));
      assert Rest(s) == [] <==> Lex(Rest(s)) == [];
      assert s == First(s).Source() + Rest(s);
    }
  }

  // ----- what survives -----

  function Repeat<T>(x: T, k: nat): (r: seq<T>)
    ensures |r| == k
  {
    if k == 0 then [] else [x] + Repeat(x, k - 1)
  }

  lemma {:induction false} NewlinesRepeat(s: string)
    ensures Newlines(s) == Repeat('\n', |Newlines(s)|)
  {
    if s != [] {
      NewlinesRepeat(s[1..]);
    }
  }

  /** What scanning again finds of a token: itself, or for a comment only the newlines it spanned. */
  function KeptOf(t: Token): seq<Token> {
    match t
    case Code(_) => [t]
    case Literal(_) => [t]
    case LineComment(_) => []
    case BlockComment(text) => Repeat(Code('\n'), |Newlines(text)|)
  }

  function Kept(ts: seq<Token>): seq<Token> {
    if ts == [] then [] else KeptOf(ts[0]) + Kept(ts[1..])
  }

  /** Text that does not begin with `/` keeps its first character. */
  lemma StripKeepsHead(s: string)
    requires s != [] && s[0] != '/'
    ensures Strip(s) != [] && Strip(s)[0] == s[0]
  {
    StripUnfold(s);
  }

  /** A `/` that begins no comment begins none in the output either. */
  lemma CodeAgain(s: string)
    requires s != [] && First(s).Code?
    ensures First([s[0]] + Strip(Rest(s))) == First(s)
  {
    var rest := Rest(s);
    StripUnfold(rest);
    if rest != [] && s[0] == '/' {
      assert rest[0] == s[1];
      StripKeepsHead(rest);
    }
  }

  lemma {:induction false} LiteralStopLocal(s: string, z: string, q: char, j: nat)
    requires LiteralStop(s, q, j) < |s| && LiteralStop(s, q, j) < |z|
    requires s[..LiteralStop(s, q, j) + 1] == z[..LiteralStop(s, q, j) + 1]
    ensures LiteralStop(z, q, j) == LiteralStop(s, q, j)
    decreases |s| - j
  {
    var stop := LiteralStop(s, q, j);
    assert s[j] == s[..stop + 1][j] == z[j];
    if s[j] == q {
    } else if s[j] == '\\' {
      LiteralStopLocal(s, z, q, j + 2);
    } else if q != '`' && s[j] == '\n' {
    } else {
      LiteralStopLocal(s, z, q, j + 1);
    }
  }

  /** A literal is cut the same whatever follows it, unless it runs to the end of the text. */
  lemma LiteralAgain(s: string, tail: string)
    requires s != [] && First(s).Literal?
    requires Rest(s) == [] ==> tail == []
    ensures First(First(s).text + tail) == First(s)
  {
    var text := First(s).text;
    var z := text + tail;
    var stop := LiteralStop(s, s[0], 1);
    assert z[0] == s[0];
    if stop < |s| {
      LiteralStopLocal(s, z, s[0], 1);
      assert z[..stop + 1] == text;
    } else {
      assert text == s && tail == [] && z == s;
    }
  }

  lemma LexUnfold(z: string, t: Token, tail: string)
    requires z == t.Source() + tail && z != [] && First(z) == t
    ensures Lex(z) == [t] + Lex(tail)
  {
    assert Rest(z) == tail;
  }

  lemma {:induction false} LexNewlines(k: nat, tail: string)
    ensures Lex(Repeat('\n', k) + tail) == Repeat(Code('\n'), k) + Lex(tail)
  {
    hide Lex;
    if k == 0 {
      assert Repeat('\n', k) + tail == tail;
    } else {
      LexNewlines(k - 1, tail);
      var y := Repeat('\n', k - 1) + tail;
      LexUnfold(['\n'] + y, Code('\n'), y);
      assert Repeat('\n', k) + tail == ['\n'] + y;
      assert Repeat(Code('\n'), k) + Lex(tail) == [Code('\n')] + (Repeat(Code('\n'), k - 1) + Lex(tail));
    }
  }

  /** Scanning the output finds exactly the tokens kept: no comment, and every literal whole. */
  lemma {:induction false} LexOfStrip(s: string)
    ensures Lex(Strip(s)) == Kept(Lex(s))
    decreases |s|
  {
    hide Strip, RenderAll;
    StripUnfold(s);
    if s != [] {
      var t, tail := First(s), Strip(Rest(s));
      LexOfStrip(Rest(s));
      assert Lex(s)[0] == t && Lex(s)[1..] == Lex(Rest(s));
      assert Kept(Lex(s)) == KeptOf(t) + Lex(tail);
      match t
      case Code(c) =>
        CodeAgain(s);
        LexUnfold([c] + tail, t, tail);
      case Literal(text) =>
        LiteralAgain(s, tail);
        LexUnfold(text + tail, t, tail);
      case LineComment(_) =>
        assert Strip(s) == tail;
      case BlockComment(text) =>
        NewlinesRepeat(text);
        LexNewlines(|Newlines(text)|, tail);
    }
  }

  /** The string and template literals of a text, in order. */
  function Literals(ts: seq<Token>): seq<string> {
    if ts == [] then [] else (if ts[0].Literal? then [ts[0].text] else []) + Literals(ts[1..])
  }

  lemma {:induction false} LiteralsConcat(a: seq<Token>, b: seq<Token>)
    ensures Literals(a + b) == Literals(a) + Literals(b)
  {
    if a == [] {
      assert a + b == b;
    } else {
      assert (a + b)[1..] == a[1..] + b;
      LiteralsConcat(a[1..], b);
    }
  }

  lemma {:induction false} NewlineTokens(k: nat)
    ensures var ts := Repeat(Code('\n'), k);
      && Literals(ts) == [] && RenderAll(ts) == Repeat('\n', k)
      && forall t | t in ts :: t.Code?
  {
    if k > 0 {
      assert Repeat(Code('\n'), k)[1..] == Repeat(Code('\n'), k - 1);
      NewlineTokens(k - 1);
    }
  }

  lemma {:induction false} RenderConcat(a: seq<Token>, b: seq<Token>)
    ensures RenderAll(a + b) == RenderAll(a) + RenderAll(b)
  {
    if a == [] {
      assert a + b == b;
    } else {
      assert (a + b)[1..] == a[1..] + b;
      RenderConcat(a[1..], b);
    }
  }

  lemma KeptOfFacts(t: Token)
    ensures Literals(KeptOf(t)) == if t.Literal? then [t.text] else []
    ensures RenderAll(KeptOf(t)) == Render(t)
    ensures forall u | u in KeptOf(t) :: u.Code? || u.Literal?
  {
    if t.BlockComment? {
      NewlineTokens(|Newlines(t.text)|);
      NewlinesRepeat(t.text);
    } else {
      assert [t][1..] == [];
    }
  }

  lemma {:induction false} KeptFacts(ts: seq<Token>)
    ensures Literals(Kept(ts)) == Literals(ts)
    ensures RenderAll(Kept(ts)) == RenderAll(ts)
    ensures forall t | t in Kept(ts) :: t.Code? || t.Literal?
  {
    if ts != [] {
      KeptFacts(ts[1..]);
      KeptOfFacts(ts[0]);
      LiteralsConcat(KeptOf(ts[0]), Kept(ts[1..]));
      RenderConcat(KeptOf(ts[0]), Kept(ts[1..]));
    }
  }

  /** Every literal of the input, terminated or not, is a literal of the output, in order; no comment is. */
  lemma StripKeepsLiterals(s: string)
    ensures Literals(Lex(Strip(s))) == Literals(Lex(s))
    ensures forall t | t in Lex(Strip(s)) :: t.Code? || t.Literal?
  {
    LexOfStrip(s);
    KeptFacts(Lex(s));
  }

  lemma StripIsIdempotent(s: string)
    ensures Strip(Strip(s)) == Strip(s)
  {
    LexOfStrip(s);
    KeptFacts(Lex(s));
  }

  // ----- line structure -----

  function CountNewlines(s: string): nat {
    |Newlines(s)|
  }

  lemma {:induction false} NewlinesConcat(a: string, b: string)
    ensures Newlines(a + b) == Newlines(a) + Newlines(b)
  {
    if a == [] {
      assert a + b == b;
    } else {
      assert (a + b)[1..] == a[1..] + b && (a + b)[0] == a[0];
      NewlinesConcat(a[1..], b);
    }
  }

  lemma {:induction false} NewlinesOfNone(s: string)
    requires '\n' !in s
    ensures Newlines(s) == []
  {
    if s != [] {
      NewlinesOfNone(s[1..]);
    }
  }

  lemma {:induction false} NewlinesOfNewlines(s: string)
    ensures Newlines(Newlines(s)) == Newlines(s)
  {
    if s != [] {
      NewlinesOfNewlines(s[1..]);
      if s[0] == '\n' {
        assert Newlines(s)[1..] == Newlines(s[1..]);
      }
    }
  }

  lemma RenderKeepsNewlines(t: Token)
    requires t.LineComment? ==> '\n' !in t.text
    ensures Newlines(Render(t)) == Newlines(t.Source())
  {
    if t.LineComment? {
      NewlinesOfNone(t.text);
    } else if t.BlockComment? {
      NewlinesOfNewlines(t.text);
    }
  }

  /** The output has the input's line structure: as many newlines, in the same order of everything kept. */
  lemma {:induction false} StripKeepsNewlines(s: string)
    ensures CountNewlines(Strip(s)) == CountNewlines(s)
    decreases |s|
  {
    hide Strip, Newlines;
    StripUnfold(s);
    if s != [] {
      var t := First(s);
      StripKeepsNewlines(Rest(s));
      RenderKeepsNewlines(t);
      assert s == t.Source() + Rest(s);
      NewlinesConcat(t.Source(), Rest(s));
      NewlinesConcat(Render(t), Strip(Rest(s)));
    } else {
      assert CountNewlines("") == CountNewlines("");
    }
  }

  /** `a` is `b` with characters left out. */
  predicate IsSubsequence(a: string, b: string) {
    a == [] || (b != [] && ((a[0] == b[0] && IsSubsequence(a[1..], b[1..])) || IsSubsequence(a, b[1..])))
  }

  lemma {:induction false} SubsequenceConcat(a: string, b: string, x: string, y: string)
    requires IsSubsequence(a, b) && IsSubsequence(x, y)
    ensures IsSubsequence(a + x, b + y)
    decreases |b|
  {
    if b == [] {
      assert a + x == x && b + y == y;
    } else {
      assert (b + y)[1..] == b[1..] + y;
      if a != [] && a[0] == b[0] && IsSubsequence(a[1..], b[1..]) {
        SubsequenceConcat(a[1..], b[1..], x, y);
        assert (a + x)[1..] == a[1..] + x;
      } else {
        SubsequenceConcat(a, b[1..], x, y);
      }
    }
  }

  lemma {:induction false} SubsequenceOfSelf(s: string)
    ensures IsSubsequence(s, s) && IsSubsequence(Newlines(s), s)
  {
    if s != [] {
      SubsequenceOfSelf(s[1..]);
      if s[0] == '\n' {
        assert Newlines(s)[1..] == Newlines(s[1..]) && Newlines(s)[0] == '\n';
      }
    }
  }

  lemma RenderOnlyRemoves(t: Token)
    ensures IsSubsequence(Render(t), t.Source())
  {
    SubsequenceOfSelf(t.Source());
  }

  /** Nothing is added or moved: the output is the input with characters left out. */
  lemma {:induction false} StripOnlyRemoves(s: string)
    ensures IsSubsequence(Strip(s), s)
    decreases |s|
  {
    hide Strip, IsSubsequence;
    StripUnfold(s);
    if s != [] {
      var t := First(s);
      StripOnlyRemoves(Rest(s));
      RenderOnlyRemoves(t);
      SubsequenceConcat(Render(t), t.Source(), Strip(Rest(s)), Rest(s));
      assert s == t.Source() + Rest(s);
    } else {
      SubsequenceOfSelf(s);
    }
  }
}
