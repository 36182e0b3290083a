/** Strings as JavaScript's string methods see them. */
module Text {
  import opened Results

  /** `Math.min` on positions in a text. */
  function Min(a: nat, b: nat): nat { if a < b then a else b }

  /** `s.indexOf(c)` for a single character: -1 when absent. */
  function IndexOf(s: string, c: char): (i: int)
    ensures -1 <= i < |s|
    ensures i < 0 ==> c !in s
    ensures i >= 0 ==> s[i] == c && c !in s[..i]
  {
    if s == [] then -1
    else if s[0] == c then 0
    else
      var i := IndexOf(s[1..], c);
      if i < 0 then -1 else
        assert s[..i + 1] == [s[0]] + s[1..][..i];
        i + 1
  }

  /** The characters a regular expression's `.` does not match. */
  predicate IsLineTerminator(c: char) {
    c == '\n' || c == '\r' || c == '\U{2028}' || c == '\U{2029}'
  }

  predicate IsDigit(c: char) { '0' <= c <= '9' }

  predicate AllDigits(s: string) {
    s != "" && forall c | c in s :: IsDigit(c)
  }

  predicate IsLower(c: char) { 'a' <= c <= 'z' }

  predicate IsUpper(c: char) { 'A' <= c <= 'Z' }

  /** `s.endsWith(suffix)`. */
  predicate EndsWith(s: string, suffix: string) {
    |suffix| <= |s| && s[|s| - |suffix|..] == suffix
  }

  // ----- lines -----

  /** `s.split(sep)` for a one-character separator. */
  function Split(s: string, sep: char): (parts: seq<string>)
    ensures parts != []
  {
    var i := IndexOf(s, sep);
    if i < 0 then [s] else [s[..i]] + Split(s[i + 1..], sep)
  }

  /** The lines, each ended by a newline. */
  function Unlines(lines: seq<string>): string {
    if lines == [] then "" else lines[0] + "\n" + Unlines(lines[1..])
  }

  lemma {:induction false} SplitParts(s: string, sep: char)
    ensures forall part | part in Split(s, sep) :: sep !in part
  {
    var i := IndexOf(s, sep);
    if i >= 0 {
      SplitParts(s[i + 1..], sep);
    }
  }

  lemma IndexOfFirst(a: string, sep: char, b: string)
    requires sep !in a
    ensures IndexOf(a + [sep] + b, sep) == |a|
  {
    var s := a + [sep] + b;
    assert s[|a|] == sep && s[..|a|] == a;
  }

  lemma SplitFirst(a: string, sep: char, b: string)
    requires sep !in a
    ensures Split(a + [sep] + b, sep) == [a] + Split(b, sep)
  {
    IndexOfFirst(a, sep, b);
    var s := a + [sep] + b;
    assert s[..|a|] == a && s[|a| + 1..] == b;
  }

  lemma SplitNothing(sep: char)
    ensures Split("", sep) == [""]
  {
    assert IndexOf("", sep) == -1;
  }

  lemma UnlinesFirst(lines: seq<string>)
    requires lines != []
    ensures Unlines(lines) == lines[0] + ['\n'] + Unlines(lines[1..])
  {
  }

  /** Splitting at newlines undoes ending each line with one. */
  lemma {:induction false} SplitUnlines(lines: seq<string>)
    requires forall line | line in lines :: '\n' !in line
    ensures Split(Unlines(lines), '\n') == lines + [""]
  {
    if lines == [] {
      SplitNothing('\n');
    } else {
      hide Split, Unlines;
      var first, rest := lines[0], lines[1..];
      assert lines == [first] + rest;
      SplitUnlines(rest);
      UnlinesFirst(lines);
      SplitFirst(first, '\n', Unlines(rest));
    }
  }

  // ----- white space -----

  /** JavaScript's WhiteSpace and LineTerminator. */
  predicate IsSpace(c: char) {
    || '\t' <= c <= '\r' || c == ' ' || c == '\U{A0}' || c == '\U{1680}'
    || '\U{2000}' <= c <= '\U{200A}' || c == '\U{2028}' || c == '\U{2029}'
    || c == '\U{202F}' || c == '\U{205F}' || c == '\U{3000}' || c == '\U{FEFF}'
  }

  function TrimStart(s: string): (r: string)
    ensures |r| <= |s| && (r != [] ==> !IsSpace(r[0]))
  {
    if s != [] && IsSpace(s[0]) then TrimStart(s[1..]) else s
  }

  function TrimEnd(s: string): (r: string)
    ensures |r| <= |s| && r == s[..|r|] && (r != [] ==> !IsSpace(r[|r| - 1]))
  {
    if s != [] && IsSpace(s[|s| - 1]) then
      var r := TrimEnd(s[..|s| - 1]);
      assert s[..|r|] == s[..|s| - 1][..|r|];
      r
    else s
  }

  /** `s.trim()`. */
  function Trim(s: string): string {
    TrimEnd(TrimStart(s))
  }

  /** Text that neither begins nor ends with white space. */
  predicate IsTrimmed(s: string) {
    s != [] ==> !IsSpace(s[0]) && !IsSpace(s[|s| - 1])
  }

  lemma TrimFacts(s: string)
    ensures IsTrimmed(Trim(s)) && (IsTrimmed(s) ==> Trim(s) == s)
    ensures forall c | c in Trim(s) :: c in s
  {
    TrimStartMembers(s);
  }

  lemma {:induction false} TrimStartMembers(s: string)
    ensures forall c | c in TrimStart(s) :: c in s
  {
    if s != [] && IsSpace(s[0]) {
      TrimStartMembers(s[1..]);
    }
  }

  /** `parts.map(s => s.trim()).filter(Boolean)`. */
  function NonEmptyTrimmed(parts: seq<string>): (r: seq<string>) {
    if parts == [] then [] else
      var t := Trim(parts[|parts| - 1]);
      NonEmptyTrimmed(parts[..|parts| - 1]) + if t == [] then [] else [t]
  }

  lemma {:induction false} NonEmptyTrimmedMembers(parts: seq<string>, id: string)
    ensures id in NonEmptyTrimmed(parts) <==> id != "" && exists part | part in parts :: Trim(part) == id
  {
    hide Trim;
    if parts != [] {
      assert parts == parts[..|parts| - 1] + [parts[|parts| - 1]];
      NonEmptyTrimmedMembers(parts[..|parts| - 1], id);
    }
  }

  // ----- numbers -----

  function DigitChar(d: nat): (c: char)
    requires d < 10
    ensures IsDigit(c)
  {
    "0123456789"[d]
  }

  function DecNat(n: nat): (s: string)
    ensures s != [] && forall c | c in s :: IsDigit(c)
  {
    if n < 10 then [DigitChar(n)] else DecNat(n / 10) + [DigitChar(n % 10)]
  }

  /** The decimal numeral JavaScript prints for an integer. */
  function Dec(n: int): (s: string)
    ensures s != [] && forall c | c in s :: IsDigit(c) || c == '-'
  {
    if n < 0 then ['-'] + DecNat(-n) else DecNat(n)
  }

  /** A conversion like `Number`, `None` standing for a result that is not finite, that reads integers as they are printed. */
  ghost predicate ReadsDecimals(number: string -> Option<int>) {
    forall n :: number(Dec(n)) == Some(n)
  }

  /** How many digits a text begins with. */
  function DigitRun(s: string): (k: nat)
    ensures k <= |s| && forall c | c in s[..k] :: IsDigit(c)
  {
    if s == [] || !IsDigit(s[0]) then 0 else
      var k := DigitRun(s[1..]);
      assert s[..k + 1] == [s[0]] + s[1..][..k];
      k + 1
  }

  lemma {:induction false} DigitRunOf(a: string, rest: string)
    requires forall c | c in a :: IsDigit(c)
    requires rest == [] || !IsDigit(rest[0])
    ensures DigitRun(a + rest) == |a|
  {
    if a == [] {
      assert a + rest == rest;
    } else {
      DigitRunOf(a[1..], rest);
      assert (a + rest)[1..] == a[1..] + rest && (a + rest)[0] == a[0] && a[0] in a;
    }
  }

  function DigitValue(c: char): nat
    requires IsDigit(c)
  {
    (c - '0') as nat
  }

  /** `parseInt` on a run of digits. */
  function NatValue(s: string): nat
    requires forall c | c in s :: IsDigit(c)
  {
    if s == [] then 0 else 10 * NatValue(s[..|s| - 1]) + DigitValue(s[|s| - 1])
  }

  lemma {:induction false} NatValueOfDec(n: nat)
    ensures NatValue(DecNat(n)) == n
  {
    var s := DecNat(n);
    if n >= 10 {
      NatValueOfDec(n / 10);
      assert s[..|s| - 1] == DecNat(n / 10);
    } else {
      assert s[..0] == [];
    }
  }

  /** The simplest such conversion, which shows there is one. */
  function ReadDecimal(s: string): Option<int> {
    if s != [] && forall c | c in s :: IsDigit(c) then Some(NatValue(s))
    else if |s| > 1 && s[0] == '-' && forall c | c in s[1..] :: IsDigit(c) then
      var value: int := NatValue(s[1..]);
      Some(-value)
    else None
  }

  lemma ReadDecimalOfDec(n: int)
    ensures ReadDecimal(Dec(n)) == Some(n)
  {
    hide DecNat, NatValue;
    if n < 0 {
      NatValueOfDec(-n);
      assert Dec(n)[0] == '-' && Dec(n)[1..] == DecNat(-n);
      assert Dec(n)[0] in Dec(n);
    } else {
      NatValueOfDec(n);
    }
  }

  lemma {:induction false} ReadDecimalReadsDecimals()
    ensures ReadsDecimals(ReadDecimal)
  {
    forall n ensures ReadDecimal(Dec(n)) == Some(n) {
      ReadDecimalOfDec(n);
    }
  }
}
