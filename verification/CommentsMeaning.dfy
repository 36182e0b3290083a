/**
 * scripts/generate-flag-registry.ts: what `stripComments` does with each kind of text, by the
 * characters that open and close it. Every text begins with one of these kinds.
 */
module CommentsMeaning {
  import opened Comments
  import opened Text

  /** The text between two quotes `q`: escaped pairs, and other characters but `q`; only a template crosses lines. */
  predicate IsBody(q: char, body: string) {
    body == [] ||
    if body[0] == '\\' then |body| >= 2 && IsBody(q, body[2..])
    else body[0] != q && (body[0] == '\n' ==> q == '`') && IsBody(q, body[1..])
  }

  /** The scan passes over a body. */
  lemma {:induction false} BodyPassedOver(s: string, q: char, j: nat, body: string)
    requires q != '\\' && IsBody(q, body)
    requires j + |body| <= |s| && s[j..j + |body|] == body
    ensures LiteralStop(s, q, j) == LiteralStop(s, q, j + |body|)
    decreases |body|
  {
    if body != [] {
      assert s[j] == body[0];
      var k := if body[0] == '\\' then 2 else 1;
      assert s[j + k..j + |body|] == body[k..];
      BodyPassedOver(s, q, j + k, body[k..]);
    }
  }

  lemma LiteralStopAt(q: char, body: string, rest: string)
    requires q != '\\' && IsBody(q, body)
    ensures LiteralStop([q] + body + rest, q, 1) == LiteralStop([q] + body + rest, q, 1 + |body|)
  {
    var s := [q] + body + rest;
    assert s[1..1 + |body|] == body;
    BodyPassedOver(s, q, 1, body);
  }

  lemma LiteralTaken(q: char, body: string, last: string, rest: string)
    requires q == '\'' || q == '"' || q == '`'
    requires LiteralStop([q] + body + last + rest, q, 1) + 1 >= 1 + |body| + |last|
    requires rest == [] || LiteralStop([q] + body + last + rest, q, 1) + 1 == 1 + |body| + |last|
    ensures Strip([q] + body + last + rest) == [q] + body + last + Strip(rest)
  {
    hide LiteralStop, Strip;
    var s := [q] + body + last + rest;
    var k := 1 + |body| + |last|;
    assert s[0] == q;
    StripLiteral(s);
    assert LiteralEnd(s) == k;
    assert s[..k] == [q] + body + last && s[k..] == rest;
  }

  /** A quoted text, whichever of the three quotes it has, is kept whole, comment marks in it and all. */
  lemma LiteralKept(q: char, body: string, rest: string)
    requires q == '\'' || q == '"' || q == '`'
    requires IsBody(q, body)
    ensures Strip([q] + body + [q] + rest) == [q] + body + [q] + Strip(rest)
  {
    hide Strip;
    var s := [q] + body + [q] + rest;
    assert s == [q] + body + ([q] + rest);
    LiteralStopAt(q, body, [q] + rest);
    assert s[1 + |body|] == q;
    LiteralTaken(q, body, [q], rest);
  }

  /** A string that is not closed on its line is kept to the end of the line, and no further. */
  lemma BrokenLiteralKept(q: char, body: string, rest: string)
    requires q == '\'' || q == '"'
    requires IsBody(q, body)
    ensures Strip([q] + body + "\n" + rest) == [q] + body + "\n" + Strip(rest)
  {
    hide Strip;
    var s := [q] + body + "\n" + rest;
    assert s == [q] + body + ("\n" + rest);
    LiteralStopAt(q, body, "\n" + rest);
    assert s[1 + |body|] == '\n';
    LiteralTaken(q, body, "\n", rest);
  }

  /** A literal that is never closed is kept to the end, a final backslash included. */
  lemma OpenLiteralKept(q: char, body: string, escape: bool)
    requires q == '\'' || q == '"' || q == '`'
    requires IsBody(q, body)
    ensures var tail := if escape then "\\" else ""; Strip([q] + body + tail) == [q] + body + tail
  {
    hide Strip;
    var tail := if escape then "\\" else "";
    var s := [q] + body + tail;
    assert s + [] == s;
    LiteralStopAt(q, body, tail);
    LiteralTaken(q, body, tail, []);
    StripUnfold("");
  }

  /** Every other character is code, and kept, but for a `/` that begins a comment. */
  lemma CodeKept(c: char, rest: string)
    requires c != '\'' && c != '"' && c != '`'
    requires !(c == '/' && rest != [] && (rest[0] == '/' || rest[0] == '*'))
    ensures Strip([c] + rest) == [c] + Strip(rest)
  {
    hide Strip;
    var s := [c] + rest;
    assert s[0] == c && s[1..] == rest && (rest != [] ==> s[1] == rest[0]);
    StripCode(s);
  }

  /** A line comment is dropped, its newline kept. */
  lemma LineCommentDropped(text: string, rest: string)
    requires '\n' !in text
    ensures Strip("//" + text + "\n" + rest) == "\n" + Strip(rest)
    ensures Strip("//" + text) == ""
  {
    hide Strip;
    var s, t := "//" + text + "\n" + rest, "//" + text;
    assert s[..|t|] == t && s[|t|] == '\n' && s[|t|..] == ['\n'] + rest;
    LineEndUnique(s, |t|);
    StripLineComment(s);
    CodeKept('\n', rest);
    assert t[..|t|] == t && t[|t|..] == [];
    LineEndUnique(t, |t|);
    StripLineComment(t);
    StripUnfold("");
  }

  predicate NoClose(text: string) {
    forall i | 0 <= i && i + 1 < |text| :: !(text[i] == '*' && text[i + 1] == '/')
  }

  lemma {:induction false} StarSlashFrom(s: string, from: nat, end: nat)
    requires from <= end <= |s|
    requires forall i | from <= i < end && i + 1 < |s| :: !(s[i] == '*' && s[i + 1] == '/')
    ensures StarSlash(s, from) == StarSlash(s, end)
    decreases end - from
  {
    if from < end && from + 1 < |s| {
      StarSlashFrom(s, from + 1, end);
    }
  }

  /** Of a block comment the newlines are kept. */
  lemma BlockCommentDropped(text: string, rest: string)
    requires NoClose(text)
    ensures Strip("/*" + text + "*/" + rest) == Newlines(text) + Strip(rest)
  {
    hide Strip, Newlines, StarSlash;
    var s := "/*" + text + "*/" + rest;
    var k := 2 + |text|;
    assert s[2..k] == text && s[k] == '*' && s[k + 1] == '/';
    forall i | 2 <= i < k && i + 1 < |s| ensures !(s[i] == '*' && s[i + 1] == '/') {
      assert s[i] == text[i - 2] && (i + 1 < k ==> s[i + 1] == text[i - 1]);
    }
    StarSlashFrom(s, 2, k);
    StarSlashHere(s, k);
    StripBlockComment(s);
    assert s[..k + 2] == "/*" + text + "*/" && s[k + 2..] == rest;
    NewlinesInside(text);
  }

  lemma StarSlashHere(s: string, k: nat)
    requires k <= |s|
    ensures k + 1 < |s| && s[k] == '*' && s[k + 1] == '/' ==> StarSlash(s, k) == k
    ensures k + 1 >= |s| ==> StarSlash(s, k) == |s|
  {
  }

  lemma NewlinesInside(text: string)
    ensures Newlines("/*" + text + "*/") == Newlines(text) == Newlines("/*" + text)
  {
    NewlinesConcat("/*", text);
    NewlinesConcat("/*" + text, "*/");
    assert Newlines("/*") == Newlines("*") == Newlines("") && Newlines("*/") == Newlines("/") == Newlines("");
  }

  /** A block comment that is never closed takes the rest. */
  lemma OpenBlockCommentDropped(text: string)
    requires NoClose(text)
    ensures Strip("/*" + text) == Newlines(text)
  {
    hide Strip, Newlines, StarSlash;
    var s := "/*" + text;
    forall i | 2 <= i < |s| && i + 1 < |s| ensures !(s[i] == '*' && s[i + 1] == '/') {
      assert s[i] == text[i - 2] && s[i + 1] == text[i - 1];
    }
    StarSlashFrom(s, 2, |s|);
    StarSlashHere(s, |s|);
    StripBlockComment(s);
    assert s[..|s|] == s && s[|s|..] == [];
    StripUnfold("");
    NewlinesInside(text);
  }

  /** What is kept of a comment: as many newlines as it has, and nothing else. */
  lemma {:induction false} NewlinesMean(text: string)
    ensures (forall c | c in Newlines(text) :: c == '\n') && |Newlines(text)| == multiset(text)['\n']
  {
    if text != [] {
      NewlinesMean(text[1..]);
      assert text == [text[0]] + text[1..];
    }
  }
}
