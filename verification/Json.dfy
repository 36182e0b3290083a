/** JSON texts as RFC 8259 defines them: values, objects, numbers and strings (its sections 3, 4, 6 and 7). */
module Json {
  import opened Results
  import opened Text

  /** A parsed value; numbers keep their text, objects their members in order. */
  datatype Value =
    | Null
    | Bool(b: bool)
    | Num(text: string)
    | Str(s: string)
    | Arr(items: seq<Value>)
    | Obj(members: seq<(string, Value)>)

  predicate IsWs(c: char) { c == ' ' || c == '\t' || c == '\n' || c == '\r' }

  function SkipWs(s: string): (r: string)
    ensures |r| <= |s|
  {
    if s != [] && IsWs(s[0]) then SkipWs(s[1..]) else s
  }

  // ----- strings -----

  function HexValue(c: char): Option<nat> {
    if IsDigit(c) then Some((c - '0') as nat)
    else if 'a' <= c <= 'f' then Some((c - 'a') as nat + 10)
    else if 'A' <= c <= 'F' then Some((c - 'A') as nat + 10)
    else None
  }

  function Hex4(s: string): Option<nat> {
    if |s| < 4 then None else
      match (HexValue(s[0]), HexValue(s[1]), HexValue(s[2]), HexValue(s[3]))
      case (Some(a), Some(b), Some(c), Some(d)) => Some(4096 * a + 256 * b + 16 * c + d)
      case _ => None
  }

  /** The character an escape stands for, the text beginning after the backslash; surrogates are not modelled. */
  function ReadEscape(s: string): (r: Option<(char, string)>)
    ensures r.Some? ==> |r.value.1| < |s|
  {
    if s == [] then None
    else if s[0] == '"' || s[0] == '\\' || s[0] == '/' then Some((s[0], s[1..]))
    else if s[0] == 'b' then Some(('\U{8}', s[1..]))
    else if s[0] == 'f' then Some(('\U{C}', s[1..]))
    else if s[0] == 'n' then Some(('\n', s[1..]))
    else if s[0] == 'r' then Some(('\r', s[1..]))
    else if s[0] == 't' then Some(('\t', s[1..]))
    else if s[0] == 'u' then
      match Hex4(s[1..])
      case Some(code) => if code < 0xD800 || 0xE000 <= code < 0x10000 then Some((code as char, s[5..])) else None
      case None => None
    else None
  }

  /** The string whose opening quote has just been read, and the text after its closing quote. */
  function ReadString(s: string): (r: Option<(string, string)>)
    ensures r.Some? ==> |r.value.1| < |s|
  {
    if s == [] || s[0] < ' ' then None
    else if s[0] == '"' then Some(("", s[1..]))
    else if s[0] == '\\' then
      match ReadEscape(s[1..])
      case None => None
      case Some((c, rest)) =>
        match ReadString(rest)
        case None => None
        case Some((tail, after)) => Some(([c] + tail, after))
    else
      match ReadString(s[1..])
      case None => None
      case Some((tail, after)) => Some(([s[0]] + tail, after))
  }

  function HexDigit(d: nat): char
    requires d < 16
  {
    "0123456789abcdef"[d]
  }

  /** A character inside a JSON string, as `JSON.stringify` writes it. */
  function Escaped(c: char): string {
    if c == '"' then "\\\""
    else if c == '\\' then "\\\\"
    else if c == '\U{8}' then "\\b"
    else if c == '\U{C}' then "\\f"
    else if c == '\n' then "\\n"
    else if c == '\r' then "\\r"
    else if c == '\t' then "\\t"
    else if c < ' ' then
      var code := c as int;
      "\\u00" + [HexDigit(code / 16), HexDigit(code % 16)]
    else [c]
  }

  function EscapedAll(s: string): string {
    if s == [] then [] else Escaped(s[0]) + EscapedAll(s[1..])
  }

  lemma HexDigitValue(d: nat)
    requires d < 16
    ensures HexValue(HexDigit(d)) == Some(d)
  {
  }

  lemma ControlEscape(c: char, rest: string)
    requires c < ' '
    ensures var code := c as int;
      ReadEscape("u00" + [HexDigit(code / 16), HexDigit(code % 16)] + rest) == Some((c, rest))
  {
    var code := c as int;
    var hex := [HexDigit(code / 16), HexDigit(code % 16)];
    HexDigitValue(code / 16);
    HexDigitValue(code % 16);
    var s := "u00" + hex + rest;
    assert s[1..][0] == '0' && s[1..][1] == '0' && s[1..][2] == hex[0] && s[1..][3] == hex[1];
    assert Hex4(s[1..]) == Some(code);
    assert s[5..] == rest;
    assert code as char == c;
  }

  /** What reading a string that goes on with the character `c` gives. */
  function Prepend(c: char, r: Option<(string, string)>): Option<(string, string)> {
    match r
    case None => None
    case Some((tail, after)) => Some(([c] + tail, after))
  }

  lemma EscapeReads(escape: string, c: char, rest: string)
    requires ReadEscape(escape + rest) == Some((c, rest))
    ensures ReadString("\\" + escape + rest) == Prepend(c, ReadString(rest))
  {
  }

  lemma PlainReads(c: char, rest: string)
    requires c >= ' ' && c != '"' && c != '\\'
    ensures ReadString([c] + rest) == Prepend(c, ReadString(rest))
  {
  }

  lemma EscapedReadsBack(c: char, rest: string)
    ensures ReadString(Escaped(c) + rest) == Prepend(c, ReadString(rest))
  {
    hide ReadString;
    if Escaped(c) == [c] {
      PlainReads(c, rest);
    } else if |Escaped(c)| == 2 {
      var e := Escaped(c)[1];
      assert Escaped(c) == "\\" + [e];
      assert ([e] + rest)[1..] == rest;
      EscapeReads([e], c, rest);
    } else {
      ControlEscape(c, rest);
      var escape := "u00" + [HexDigit(c as int / 16), HexDigit(c as int % 16)];
      assert Escaped(c) == "\\" + escape;
      EscapeReads(escape, c, rest);
    }
  }

  lemma QuoteCloses(rest: string)
    ensures ReadString(EscapedAll([]) + ("\"" + rest)) == Some(([], rest))
  {
    assert EscapedAll([]) + ("\"" + rest) == "\"" + rest;
    assert ("\"" + rest)[1..] == rest;
  }

  lemma EscapedAllSplits(s: string, end: string)
    requires s != []
    ensures EscapedAll(s) + end == Escaped(s[0]) + (EscapedAll(s[1..]) + end)
  {
  }

  /** Reading a quoted string back gives the string, whatever its characters. */
  lemma {:induction false} QuotedReadsBack(s: string, rest: string)
    ensures ReadString(EscapedAll(s) + ("\"" + rest)) == Some((s, rest))
  {
    hide ReadString, Escaped, EscapedAll;
    if s == [] {
      QuoteCloses(rest);
    } else {
      var end := "\"" + rest;
      QuotedReadsBack(s[1..], rest);
      EscapedReadsBack(s[0], EscapedAll(s[1..]) + end);
      EscapedAllSplits(s, end);
      assert s == [s[0]] + s[1..];
    }
  }

  // ----- numbers -----

  /** The length of a fraction part, 0 when there is none. */
  function FracLen(s: string): (k: nat)
    ensures k <= |s|
  {
    if s != [] && s[0] == '.' && DigitRun(s[1..]) > 0 then 1 + DigitRun(s[1..]) else 0
  }

  function ExpLen(s: string): (k: nat)
    ensures k <= |s|
  {
    if s == [] || (s[0] != 'e' && s[0] != 'E') then 0 else
      var sign := if |s| > 1 && (s[1] == '+' || s[1] == '-') then 1 else 0;
      var digits := DigitRun(s[1 + sign..]);
      if digits == 0 then 0 else 1 + sign + digits
  }

  function IntLen(s: string): (k: nat)
    ensures k <= |s|
  {
    if s == [] then 0 else if s[0] == '0' then 1 else DigitRun(s)
  }

  /** A number token and the text after it. */
  function ReadNumber(s: string): (r: Option<(string, string)>)
    ensures r.Some? ==> |r.value.1| < |s|
  {
    var sign := if s != [] && s[0] == '-' then 1 else 0;
    var n := IntLen(s[sign..]);
    if n == 0 then None else
      var f := FracLen(s[sign + n..]);
      var e := ExpLen(s[sign + n + f..]);
      var k := sign + n + f + e;
      Some((s[..k], s[k..]))
  }

  lemma {:induction false} NoLeadingZero(n: nat)
    ensures n > 0 ==> DecNat(n)[0] != '0'
    ensures n == 0 ==> DecNat(n) == "0"
  {
    if n >= 10 {
      NoLeadingZero(n / 10);
    }
  }

  lemma NumeralReadsBack(n: nat, rest: string)
    requires rest != [] && !IsDigit(rest[0]) && rest[0] != '.' && rest[0] != 'e' && rest[0] != 'E'
    ensures ReadNumber(DecNat(n) + rest) == Some((DecNat(n), rest))
  {
    hide DecNat;
    var s, k := DecNat(n) + rest, |DecNat(n)|;
    NoLeadingZero(n);
    DigitRunOf(DecNat(n), rest);
    assert s[0] == DecNat(n)[0] && s[0] in DecNat(n);
    assert s[0..] == s && s[..k] == DecNat(n) && s[k..] == rest;
    assert n == 0 ==> k == 1;
    assert IntLen(s) == k;
  }

  // ----- values -----

  function ReadValue(text: string): (r: Option<(Value, string)>)
    ensures r.Some? ==> |r.value.1| < |text|
    decreases |text|, 1
  {
    var s := SkipWs(text);
    if s == [] then None
    else if s[0] == '{' then
      var t := SkipWs(s[1..]);
      if t != [] && t[0] == '}' then Some((Obj([]), t[1..])) else
        match ReadMembers(t)
        case None => None
        case Some((ms, rest)) => Some((Obj(ms), rest))
    else if s[0] == '[' then
      var t := SkipWs(s[1..]);
      if t != [] && t[0] == ']' then Some((Arr([]), t[1..])) else
        match ReadItems(t)
        case None => None
        case Some((items, rest)) => Some((Arr(items), rest))
    else if s[0] == '"' then
      match ReadString(s[1..])
      case None => None
      case Some((str, rest)) => Some((Str(str), rest))
    else if "true" <= s then Some((Bool(true), s[4..]))
    else if "false" <= s then Some((Bool(false), s[5..]))
    else if "null" <= s then Some((Null, s[4..]))
    else
      match ReadNumber(s)
      case None => None
      case Some((num, rest)) => Some((Num(num), rest))
  }

  function ReadItems(text: string): (r: Option<(seq<Value>, string)>)
    ensures r.Some? ==> |r.value.1| < |text|
    decreases |text|, 2
  {
    match ReadValue(text)
    case None => None
    case Some((v, rest)) =>
      var t := SkipWs(rest);
      if t == [] then None
      else if t[0] == ']' then Some(([v], t[1..]))
      else if t[0] == ',' then
        match ReadItems(t[1..])
        case None => None
        case Some((vs, after)) => Some(([v] + vs, after))
      else None
  }

  /** One member, and the text after its value. */
  function ReadMember(text: string): (r: Option<((string, Value), string)>)
    ensures r.Some? ==> |r.value.1| < |text|
    decreases |text|, 2
  {
    var s := SkipWs(text);
    if s == [] || s[0] != '"' then None else
      match ReadString(s[1..])
      case None => None
      case Some((key, rest)) =>
        var t := SkipWs(rest);
        if t == [] || t[0] != ':' then None else
          match ReadValue(t[1..])
          case None => None
          case Some((v, after)) => Some(((key, v), after))
  }

  function ReadMembers(text: string): (r: Option<(seq<(string, Value)>, string)>)
    ensures r.Some? ==> |r.value.1| < |text|
    decreases |text|, 3
  {
    match ReadMember(text)
    case None => None
    case Some((m, rest)) =>
      var t := SkipWs(rest);
      if t == [] then None
      else if t[0] == '}' then Some(([m], t[1..]))
      else if t[0] == ',' then
        match ReadMembers(t[1..])
        case None => None
        case Some((ms, after)) => Some(([m] + ms, after))
      else None
  }

  /** `JSON.parse`. */
  function Parse(text: string): Option<Value> {
    match ReadValue(text)
    case None => None
    case Some((v, rest)) => if SkipWs(rest) == [] then Some(v) else None
  }
}
