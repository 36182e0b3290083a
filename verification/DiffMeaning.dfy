/** scripts/coverage-diff-gate.ts: which lines are hunk headers, by the pattern that is matched. */
module DiffMeaning {
  import opened Results
  import opened Text
  import opened UnifiedDiff

  /** `\d+(?:,\d+)?`, the start and the count that the text gives. */
  predicate IsRange(r: string, a: string, b: Option<string>) {
    && AllDigits(a)
    && match b
       case None => r == a
       case Some(count) => AllDigits(count) && r == a + ("," + count)
  }

  function CountOf(b: Option<string>): nat
    requires b.Some? ==> AllDigits(b.value)
  {
    if b.Some? then NatValue(b.value) else 1
  }

  function Counted(b: Option<string>): Option<nat>
    requires b.Some? ==> AllDigits(b.value)
  {
    if b.Some? then Some(NatValue(b.value)) else None
  }

  /** A range before a blank is read whole. */
  lemma RangeRead(r: string, a: string, b: Option<string>, rest: string)
    requires IsRange(r, a, b) && rest != "" && rest[0] == ' '
    ensures ReadRange(r + rest) == Some((NatValue(a), Counted(b), rest))
  {
    hide DigitRun, NatValue;
    var s := r + rest;
    if b.None? {
      DigitRunOf(a, rest);
      assert s[..|a|] == a && s[|a|..] == rest;
    } else {
      var tail := "," + b.value + rest;
      assert s == a + tail;
      DigitRunOf(a, tail);
      assert s[..|a|] == a && s[|a|..] == tail && tail[1..] == b.value + rest;
      DigitRunOf(b.value, rest);
      assert tail[1..][..|b.value|] == b.value && tail[1..][|b.value|..] == rest;
    }
  }

  /** What is read as a range is one. */
  lemma RangeOfRead(s: string) returns (r: string, a: string, b: Option<string>)
    requires ReadRange(s).Some?
    ensures IsRange(r, a, b) && s == r + ReadRange(s).value.2
    ensures ReadRange(s).value.0 == NatValue(a) && ReadRange(s).value.1 == Counted(b)
  {
    hide DigitRun, NatValue;
    var k := DigitRun(s);
    a := s[..k];
    var rest := s[k..];
    var j := if rest != [] && rest[0] == ',' then DigitRun(rest[1..]) else 0;
    if j == 0 {
      b, r := None, a;
    } else {
      var count := rest[1..][..j];
      b, r := Some(count), a + ("," + count);
      assert rest == "," + (count + rest[1..][j..]);
    }
  }

  ghost predicate HasForm(line: string, a: string, b: Option<string>) {
    exists was, fromA, fromB, now, tail ::
      FormOf(line, was, fromA, fromB, now, a, b, tail)
  }

  predicate FormOf(line: string, was: string, fromA: string, fromB: Option<string>, now: string, a: string, b: Option<string>, tail: string) {
    && IsRange(was, fromA, fromB) && IsRange(now, a, b)
    && line == "@@ -" + (was + (" +" + (now + (" @@" + tail))))
  }

  lemma FormRead(line: string, was: string, fromA: string, fromB: Option<string>, now: string, a: string, b: Option<string>, tail: string)
    requires FormOf(line, was, fromA, fromB, now, a, b, tail)
    ensures HunkHeader(line) == Some((NatValue(a), CountOf(b)))
  {
    hide ReadRange, NatValue;
    var end := " @@" + tail;
    var rest := " +" + (now + end);
    assert line[4..] == was + rest && "@@ -" <= line;
    RangeRead(was, fromA, fromB, rest);
    assert rest[2..] == now + end && " +" <= rest;
    RangeRead(now, a, b, end);
  }

  lemma HeaderForm(line: string) returns (a: string, b: Option<string>)
    requires HunkHeader(line).Some?
    ensures HasForm(line, a, b) && AllDigits(a) && (b.Some? ==> AllDigits(b.value))
    ensures HunkHeader(line) == Some((NatValue(a), CountOf(b)))
  {
    hide ReadRange, NatValue;
    var was, fromA, fromB := RangeOfRead(line[4..]);
    var rest := ReadRange(line[4..]).value.2;
    var now;
    now, a, b := RangeOfRead(rest[2..]);
    var end := ReadRange(rest[2..]).value.2;
    var tail := end[3..];
    assert end == " @@" + tail && rest == " +" + (now + end) && line == "@@ -" + (was + rest);
    assert FormOf(line, was, fromA, fromB, now, a, b, tail);
  }

  /** A line is a hunk header exactly when it has the form `@@ -a,b +c,d @@…`, counts left out or not; it gives `c`, and `d` or 1. */
  lemma HeadersAre(line: string, start: nat, count: nat)
    ensures HunkHeader(line) == Some((start, count)) <==>
      exists a, b | HasForm(line, a, b) :: AllDigits(a) && (b.Some? ==> AllDigits(b.value)) && start == NatValue(a) && count == CountOf(b)
  {
    hide HunkHeader, NatValue;
    if HunkHeader(line) == Some((start, count)) {
      var a, b := HeaderForm(line);
      assert HasForm(line, a, b);
    } else if a, b :| HasForm(line, a, b) && AllDigits(a) && (b.Some? ==> AllDigits(b.value)) && start == NatValue(a) && count == CountOf(b) {
      var was, fromA, fromB, now, tail :| FormOf(line, was, fromA, fromB, now, a, b, tail);
      FormRead(line, was, fromA, fromB, now, a, b, tail);
      assert false;
    }
  }
}
