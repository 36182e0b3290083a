/** RFC 8259, sections 3 to 7: every value, written without white space or with it before any token, is read back. */
module JsonMeaning {
  import opened Json
  import opened Results
  import opened Text

  // ----- numbers, by the grammar of section 6 -----

  predicate IsIntPart(s: string) {
    AllDigits(s) && (s[0] == '0' ==> s == "0")
  }

  predicate IsFrac(s: string) {
    s == "" || (s[0] == '.' && AllDigits(s[1..]))
  }

  predicate IsExp(s: string) {
    s == "" || (
      && (s[0] == 'e' || s[0] == 'E')
      && (AllDigits(s[1..]) || (|s| > 1 && (s[1] == '+' || s[1] == '-') && AllDigits(s[2..]))))
  }

  /** An integer part up to `k`, a fraction up to `m`, and an exponent. */
  predicate IsCut(t: string, k: nat, m: nat) {
    k <= m <= |t| && IsIntPart(t[..k]) && IsFrac(t[k..m]) && IsExp(t[m..])
  }

  ghost predicate IsUnsigned(t: string) {
    exists k, m :: IsCut(t, k, m)
  }

  ghost predicate IsNumber(text: string) {
    IsUnsigned(if text != "" && text[0] == '-' then text[1..] else text)
  }

  /** What can follow a value inside a text. */
  predicate Ends(rest: string) {
    rest == "" || rest[0] == ',' || rest[0] == ']' || rest[0] == '}' || IsWs(rest[0])
  }

  lemma RunOf(a: string, rest: string)
    requires AllDigits(a) && (rest == "" || !IsDigit(rest[0]))
    ensures DigitRun(a + rest) == |a| && (a + rest)[0] == a[0] && IsDigit(a[0])
  {
    hide DigitRun;
    DigitRunOf(a, rest);
    assert a[0] in a;
  }

  lemma ExpRead(exp: string, rest: string)
    requires IsExp(exp) && Ends(rest)
    ensures ExpLen(exp + rest) == |exp|
  {
    hide DigitRun;
    var s := exp + rest;
    if exp == "" {
      assert s == rest;
    } else if AllDigits(exp[1..]) {
      assert s[1..] == exp[1..] + rest;
      RunOf(exp[1..], rest);
      assert s[1] == exp[1..][0];
    } else {
      assert s[2..] == exp[2..] + rest && s[1] == exp[1];
      RunOf(exp[2..], rest);
    }
  }

  lemma FracRead(frac: string, rest: string)
    requires IsFrac(frac) && (rest == "" || (rest[0] != '.' && !IsDigit(rest[0])))
    ensures FracLen(frac + rest) == |frac|
  {
    hide DigitRun;
    var s := frac + rest;
    if frac == "" {
      assert s == rest;
    } else {
      assert s[1..] == frac[1..] + rest;
      RunOf(frac[1..], rest);
    }
  }

  lemma IntRead(int_: string, rest: string)
    requires IsIntPart(int_) && (rest == "" || !IsDigit(rest[0]))
    ensures IntLen(int_ + rest) == |int_| > 0 && IsDigit((int_ + rest)[0])
  {
    hide DigitRun;
    RunOf(int_, rest);
  }

  lemma CutRead(t: string, k: nat, m: nat, rest: string)
    requires IsCut(t, k, m) && Ends(rest)
    ensures t != "" && IsDigit(t[0])
    ensures IntLen(t + rest) == k > 0 && FracLen((t + rest)[k..]) == m - k && ExpLen((t + rest)[m..]) == |t| - m
  {
    hide IntLen, FracLen, ExpLen;
    var s := t + rest;
    assert s[m..] == t[m..] + rest;
    ExpRead(t[m..], rest);
    assert s[k..] == t[k..m] + s[m..];
    FracRead(t[k..m], s[m..]);
    assert s == t[..k] + s[k..];
    IntRead(t[..k], s[k..]);
    assert s[0] == t[0];
  }

  lemma SlicePast(text: string, rest: string, n: nat, i: nat)
    requires n + i <= |text|
    ensures (text + rest)[n + i..] == (text[n..] + rest)[i..]
  {
  }

  lemma SignedRead(text: string, rest: string, n: nat, k: nat, m: nat)
    requires n <= |text| && n == (if text != "" && text[0] == '-' then 1 else 0)
    requires text[n..] != "" && IsDigit(text[n..][0]) && k <= m <= |text[n..]|
    requires var s := text[n..] + rest;
      IntLen(s) == k > 0 && FracLen(s[k..]) == m - k && ExpLen(s[m..]) == |text[n..]| - m
    ensures ReadNumber(text + rest) == Some((text, rest))
  {
    hide IntLen, FracLen, ExpLen;
    SlicePast(text, rest, n, 0);
    SlicePast(text, rest, n, k);
    SlicePast(text, rest, n, m);
    var s := text + rest;
    assert (text[n..] + rest)[0..] == text[n..] + rest;
    assert s[0] == text[0] && s[..|text|] == text && s[|text|..] == rest;
  }

  lemma NumberRead(text: string, rest: string)
    requires IsNumber(text) && Ends(rest)
    ensures text != "" && (text[0] == '-' || IsDigit(text[0]))
    ensures ReadNumber(text + rest) == Some((text, rest))
  {
    hide IntLen, FracLen, ExpLen, ReadNumber, IsIntPart, IsFrac, IsExp, Ends, IsDigit;
    var n := if text != "" && text[0] == '-' then 1 else 0;
    var t := text[n..];
    assert n == 0 ==> t == text;
    var k: nat, m: nat :| IsCut(t, k, m);
    CutRead(t, k, m, rest);
    SignedRead(text, rest, n, k, m);
  }

  // ----- writing -----

  /** White space before a token. */
  type Blank = w: string | forall c | c in w :: IsWs(c)

  ghost predicate Writable(v: Value) {
    match v
    case Num(text) => IsNumber(text)
    case Arr(items) => forall i | 0 <= i < |items| :: Writable(items[i])
    case Obj(members) => forall i | 0 <= i < |members| :: Writable(members[i].1)
    case _ => true
  }

  function Size(v: Value): nat {
    if v.Arr? then |v.items| else if v.Obj? then |v.members| else 0
  }

  /** A value with the white space `w` before each of its tokens. */
  function Write(v: Value, w: Blank): string
    decreases v, Size(v) + 1
  {
    match v
    case Null => w + "null"
    case Bool(b) => w + if b then "true" else "false"
    case Num(text) => w + text
    case Str(s) => w + ("\"" + (EscapedAll(s) + "\""))
    case Arr(items) => if items == [] then w + ("[" + (w + "]")) else w + ("[" + WriteItems(v, 0, w))
    case Obj(members) => if members == [] then w + ("{" + (w + "}")) else w + ("{" + WriteMembers(v, 0, w))
  }

  function WriteItems(v: Value, i: nat, w: Blank): string
    requires v.Arr? && i < |v.items|
    decreases v, |v.items| - i
  {
    Write(v.items[i], w) + (w + if i + 1 == |v.items| then "]" else "," + WriteItems(v, i + 1, w))
  }

  function WriteMembers(v: Value, i: nat, w: Blank): string
    requires v.Obj? && i < |v.members|
    decreases v, |v.members| - i
  {
    (w + ("\"" + (EscapedAll(v.members[i].0) + "\""))) + ((w + ":") + (Write(v.members[i].1, w)
      + (w + if i + 1 == |v.members| then "}" else "," + WriteMembers(v, i + 1, w))))
  }

  // ----- reading back -----

  lemma {:induction false} BlankSkipped(w: Blank, s: string)
    ensures SkipWs(w + s) == SkipWs(s)
  {
    if w == "" {
      assert w + s == s;
    } else {
      assert (w + s)[1..] == w[1..] + s && (w + s)[0] == w[0] && w[0] in w;
      BlankSkipped(w[1..], s);
    }
  }

  lemma TokenKept(s: string)
    requires s != "" && !IsWs(s[0])
    ensures SkipWs(s) == s
  {
  }

  lemma BlankThenToken(w: Blank, s: string)
    requires s != "" && !IsWs(s[0])
    ensures SkipWs(w + s) == s
  {
    hide SkipWs;
    BlankSkipped(w, s);
    TokenKept(s);
  }

  lemma EndsAfterBlank(w: Blank, c: char, s: string)
    requires c == ',' || c == ']' || c == '}'
    ensures Ends(w + ([c] + s))
  {
    if w != "" {
      assert (w + ([c] + s))[0] == w[0] && w[0] in w;
    }
  }

  lemma WordRead(v: Value, word: string, w: Blank, rest: string)
    requires (v == Null && word == "null") || (v == Bool(true) && word == "true") || (v == Bool(false) && word == "false")
    ensures ReadValue(w + (word + rest)) == Some((v, rest))
  {
    hide SkipWs, ReadNumber, ReadString, ReadMembers, ReadItems;
    var s := word + rest;
    assert s[|word|..] == rest && s[0] == word[0] && word <= s;
    BlankThenToken(w, s);
  }

  lemma NumRead(text: string, w: Blank, rest: string)
    requires IsNumber(text) && Ends(rest)
    ensures ReadValue(w + (text + rest)) == Some((Num(text), rest))
  {
    hide SkipWs, ReadNumber, ReadString, ReadMembers, ReadItems, IsNumber;
    NumberRead(text, rest);
    var s := text + rest;
    assert s[0] == text[0];
    BlankThenToken(w, s);
  }

  lemma StrRead(str: string, w: Blank, rest: string)
    ensures ReadValue(w + ("\"" + (EscapedAll(str) + ("\"" + rest)))) == Some((Str(str), rest))
  {
    hide SkipWs, ReadNumber, ReadString, EscapedAll, ReadMembers, ReadItems;
    var s := "\"" + (EscapedAll(str) + ("\"" + rest));
    assert s[1..] == EscapedAll(str) + ("\"" + rest) && s[0] == '"';
    BlankThenToken(w, s);
    QuotedReadsBack(str, rest);
  }

  lemma ScalarRead(v: Value, w: Blank, rest: string)
    requires (v.Null? || v.Bool? || v.Num? || v.Str?) && Writable(v) && Ends(rest)
    ensures ReadValue(Write(v, w) + rest) == Some((v, rest))
  {
    hide ReadValue, EscapedAll, IsNumber;
    match v {
      case Null =>
        WordRead(v, "null", w, rest);
        assert Write(v, w) + rest == w + ("null" + rest);
      case Bool(b) =>
        var word := if b then "true" else "false";
        WordRead(v, word, w, rest);
        assert Write(v, w) + rest == w + (word + rest);
      case Num(text) =>
        NumRead(text, w, rest);
        assert Write(v, w) + rest == w + (text + rest);
      case Str(str) =>
        StrRead(str, w, rest);
        assert Write(v, w) + rest == w + ("\"" + (EscapedAll(str) + ("\"" + rest)));
    }
  }

  lemma {:induction false} ValueRead(v: Value, w: Blank, rest: string)
    requires Writable(v) && Ends(rest)
    ensures ReadValue(Write(v, w) + rest) == Some((v, rest))
    decreases v, 1, 0
  {
    match v {
      case Arr(items) =>
        if items == [] {
          EmptyRead(v, w, rest);
        } else {
          ItemsRead(v, 0, w, rest);
          assert items[0..] == items;
          ItemsBegin(v, w, rest);
          ArrayRead(v, w, rest);
        }
      case Obj(members) =>
        if members == [] {
          EmptyRead(v, w, rest);
        } else {
          MembersRead(v, 0, w, rest);
          assert members[0..] == members;
          ObjectRead(v, w, rest);
        }
      case _ => ScalarRead(v, w, rest);
    }
  }

  lemma EmptyRead(v: Value, w: Blank, rest: string)
    requires v == Arr([]) || v == Obj([])
    ensures ReadValue(Write(v, w) + rest) == Some((v, rest))
  {
    hide SkipWs, ReadNumber, ReadString, ReadMembers, ReadItems;
    var open, close := if v.Arr? then "[" else "{", if v.Arr? then "]" else "}";
    var s, t := open + (w + (close + rest)), close + rest;
    assert Write(v, w) + rest == w + s;
    BlankThenToken(w, s);
    assert s[1..] == w + t && t[0] == close[0] && t[1..] == rest;
    BlankThenToken(w, t);
  }

  /** No value begins with a bracket that closes, nor is it empty. */
  lemma ItemsBegin(v: Value, w: Blank, rest: string)
    requires v.Arr? && v.items != [] && Writable(v.items[0])
    ensures var t := SkipWs(WriteItems(v, 0, w) + rest); t != "" && t[0] != ']'
  {
    hide SkipWs, WriteItems;
    var tail := w + if |v.items| == 1 then "]" else "," + WriteItems(v, 1, w);
    WriteItemsUnfold(v, w);
    assert WriteItems(v, 0, w) + rest == Write(v.items[0], w) + (tail + rest);
    ValueBegins(v.items[0], w, tail + rest);
  }

  lemma WriteItemsUnfold(v: Value, w: Blank)
    requires v.Arr? && v.items != []
    ensures WriteItems(v, 0, w) == Write(v.items[0], w) + (w + if |v.items| == 1 then "]" else "," + WriteItems(v, 1, w))
  {
  }

  lemma ValueBegins(v: Value, w: Blank, rest: string)
    requires Writable(v)
    ensures var t := SkipWs(Write(v, w) + rest); t != "" && t[0] != ']' && t[0] != '}'
  {
    hide SkipWs, EscapedAll, WriteItems, WriteMembers, IsNumber;
    var token: string;
    match v {
      case Null => token := "null";
      case Bool(b) => token := if b then "true" else "false";
      case Num(text) => token := text; NumberRead(text, "");
      case Str(s) => token := "\"" + (EscapedAll(s) + "\"");
      case Arr(items) => token := "[" + if items == [] then w + "]" else WriteItems(v, 0, w);
      case Obj(members) => token := "{" + if members == [] then w + "}" else WriteMembers(v, 0, w);
    }
    assert Write(v, w) == w + token;
    assert Write(v, w) + rest == w + (token + rest);
    assert (token + rest)[0] == token[0];
    BlankThenToken(w, token + rest);
  }

  lemma ArrayRead(v: Value, w: Blank, rest: string)
    requires v.Arr? && v.items != []
    requires ReadItems(WriteItems(v, 0, w) + rest) == Some((v.items, rest))
    requires var t := SkipWs(WriteItems(v, 0, w) + rest); t != "" && t[0] != ']'
    ensures ReadValue(Write(v, w) + rest) == Some((v, rest))
  {
    hide SkipWs, ReadNumber, ReadString, ReadMembers, ReadItems, WriteItems;
    var body := WriteItems(v, 0, w) + rest;
    var s := "[" + body;
    assert Write(v, w) + rest == w + s && s[1..] == body;
    BlankThenToken(w, s);
    ReadItemsSkips(body);
  }

  lemma ReadItemsSkips(s: string)
    ensures ReadItems(SkipWs(s)) == ReadItems(s)
  {
    SkipsTwice(s);
    assert ReadValue(SkipWs(s)) == ReadValue(s);
  }

  lemma {:induction false} SkipsTwice(s: string)
    ensures SkipWs(SkipWs(s)) == SkipWs(s)
  {
    if s != [] && IsWs(s[0]) {
      SkipsTwice(s[1..]);
    }
  }

  lemma ObjectRead(v: Value, w: Blank, rest: string)
    requires v.Obj? && v.members != []
    requires ReadMembers(WriteMembers(v, 0, w) + rest) == Some((v.members, rest))
    ensures ReadValue(Write(v, w) + rest) == Some((v, rest))
  {
    hide SkipWs, ReadNumber, ReadString, ReadMembers, ReadItems;
    var body := WriteMembers(v, 0, w) + rest;
    var s := "{" + body;
    assert Write(v, w) + rest == w + s && s[1..] == body;
    BlankThenToken(w, s);
    MembersBegin(v, w, rest);
    ReadMembersSkips(body);
  }

  lemma MembersBegin(v: Value, w: Blank, rest: string)
    requires v.Obj? && v.members != []
    ensures var t := SkipWs(WriteMembers(v, 0, w) + rest); t != "" && t[0] == '"'
  {
    hide SkipWs, EscapedAll;
    var body := WriteMembers(v, 0, w) + rest;
    var t := body[|w|..];
    assert body == w + t && t[0] == '"';
    BlankThenToken(w, t);
  }

  lemma ReadMembersSkips(s: string)
    ensures ReadMembers(SkipWs(s)) == ReadMembers(s)
  {
    SkipsTwice(s);
    assert ReadMember(SkipWs(s)) == ReadMember(s);
  }

  lemma LastItem(text: string, x: Value, tail: string, rest: string)
    requires ReadValue(text) == Some((x, tail)) && SkipWs(tail) == "]" + rest
    ensures ReadItems(text) == Some(([x], rest))
  {
    hide ReadValue, SkipWs;
    assert ("]" + rest)[1..] == rest;
  }

  lemma NextItem(text: string, x: Value, tail: string, more: string, xs: seq<Value>, rest: string)
    requires ReadValue(text) == Some((x, tail)) && SkipWs(tail) == "," + more
    requires ReadItems(more) == Some((xs, rest))
    ensures ReadItems(text) == Some(([x] + xs, rest))
  {
    hide ReadValue, SkipWs;
    assert ("," + more)[1..] == more && ("," + more)[0] == ',';
  }

  lemma {:induction false} ItemsRead(v: Value, i: nat, w: Blank, rest: string)
    requires v.Arr? && i < |v.items| && Writable(v) && Ends(rest)
    ensures ReadItems(WriteItems(v, i, w) + rest) == Some((v.items[i..], rest))
    decreases v, 0, |v.items| - i
  {
    hide ReadValue, ReadItems, SkipWs, Write;
    var x := v.items[i];
    var text := WriteItems(v, i, w) + rest;
    if i + 1 == |v.items| {
      var tail := w + ("]" + rest);
      assert text == Write(x, w) + tail;
      EndsAfterBlank(w, ']', rest);
      ValueRead(x, w, tail);
      BlankThenToken(w, "]" + rest);
      LastItem(text, x, tail, rest);
      assert v.items[i..] == [x];
    } else {
      var more := WriteItems(v, i + 1, w) + rest;
      var tail := w + ("," + more);
      assert text == Write(x, w) + tail;
      EndsAfterBlank(w, ',', more);
      ValueRead(x, w, tail);
      BlankThenToken(w, "," + more);
      ItemsRead(v, i + 1, w, rest);
      NextItem(text, x, tail, more, v.items[i + 1..], rest);
      assert v.items[i..] == [x] + v.items[i + 1..];
    }
  }

  lemma MemberRead(key: string, x: Value, w: Blank, value: string, tail: string)
    requires ReadValue(value) == Some((x, tail))
    ensures ReadMember((w + ("\"" + (EscapedAll(key) + "\""))) + ((w + ":") + value)) == Some(((key, x), tail))
  {
    hide ReadValue, SkipWs, ReadString, EscapedAll;
    var afterKey := w + (":" + value);
    var s := "\"" + (EscapedAll(key) + ("\"" + afterKey));
    assert (w + ("\"" + (EscapedAll(key) + "\""))) + ((w + ":") + value) == w + s;
    BlankThenToken(w, s);
    assert s[1..] == EscapedAll(key) + ("\"" + afterKey);
    QuotedReadsBack(key, afterKey);
    BlankThenToken(w, ":" + value);
    assert (":" + value)[1..] == value;
  }

  lemma LastMember(text: string, m: (string, Value), tail: string, rest: string)
    requires ReadMember(text) == Some((m, tail)) && SkipWs(tail) == "}" + rest
    ensures ReadMembers(text) == Some(([m], rest))
  {
    hide ReadMember, SkipWs;
    assert ("}" + rest)[1..] == rest;
  }

  lemma NextMember(text: string, m: (string, Value), tail: string, more: string, ms: seq<(string, Value)>, rest: string)
    requires ReadMember(text) == Some((m, tail)) && SkipWs(tail) == "," + more
    requires ReadMembers(more) == Some((ms, rest))
    ensures ReadMembers(text) == Some(([m] + ms, rest))
  {
    hide ReadMember, SkipWs;
    assert ("," + more)[1..] == more && ("," + more)[0] == ',';
  }

  lemma {:induction false} MembersRead(v: Value, i: nat, w: Blank, rest: string)
    requires v.Obj? && i < |v.members| && Writable(v) && Ends(rest)
    ensures ReadMembers(WriteMembers(v, i, w) + rest) == Some((v.members[i..], rest))
    decreases v, 0, |v.members| - i
  {
    hide ReadValue, ReadMember, ReadMembers, SkipWs, Write, EscapedAll;
    var (key, x) := v.members[i];
    assert v.members[i].1 == x;
    var text := WriteMembers(v, i, w) + rest;
    var quoted := w + ("\"" + (EscapedAll(key) + "\""));
    if i + 1 == |v.members| {
      var tail := w + ("}" + rest);
      assert text == quoted + ((w + ":") + (Write(x, w) + tail));
      EndsAfterBlank(w, '}', rest);
      ValueRead(x, w, tail);
      MemberRead(key, x, w, Write(x, w) + tail, tail);
      BlankThenToken(w, "}" + rest);
      LastMember(text, (key, x), tail, rest);
      assert v.members[i..] == [(key, x)];
    } else {
      var more := WriteMembers(v, i + 1, w) + rest;
      var tail := w + ("," + more);
      assert text == quoted + ((w + ":") + (Write(x, w) + tail));
      EndsAfterBlank(w, ',', more);
      ValueRead(x, w, tail);
      MemberRead(key, x, w, Write(x, w) + tail, tail);
      BlankThenToken(w, "," + more);
      MembersRead(v, i + 1, w, rest);
      NextMember(text, (key, x), tail, more, v.members[i + 1..], rest);
      assert v.members[i..] == [(key, x)] + v.members[i + 1..];
    }
  }

  /** Every value is parsed from what is written of it, whatever white space stands before its tokens and at the end. */
  lemma WrittenIsParsed(v: Value, w: Blank, end: Blank)
    requires Writable(v)
    ensures Parse(Write(v, w) + end) == Some(v)
  {
    if end != "" {
      assert end[0] in end;
    }
    ValueRead(v, w, end);
    hide ReadValue, Write;
    BlankSkipped(end, "");
    assert end + "" == end && SkipWs("") == "";
  }
}
