/**
 * src/cli.ts: the two loops over an operation's argument vector. `parseOpArgs` fills
 * the parameter map; `findUnknownOpFlag` walks the same tokens beforehand, looking for
 * flags the operation does not declare, and must consume what the parser consumes.
 */
module Argv {
  import opened Results
  import opened Text

  datatype ParamType = BooleanParam | NumberParam | OtherParam

  /** `params` is the lookup `op.params[key]`; `positional` the order of bare tokens. */
  datatype Operation = Operation(params: map<string, ParamType>, positional: seq<string>)

  /** A parsed value; `Numeric(s)` stands for JavaScript's `Number(s)`. */
  datatype Value = Flag(on: bool) | Word(text: string) | Numeric(text: string)

  /** Parameter names are identifiers: none contains `=`. */
  ghost predicate WellNamed(op: Operation) {
    forall k | k in op.params :: '=' !in k
  }

  /** `s.replace(/-/g, '_')`. */
  function Underscored(s: string): (r: string)
    ensures |r| == |s|
    ensures '=' in r <==> '=' in s
  {
    if s == [] then [] else
      assert s == [s[0]] + s[1..];
      [if s[0] == '-' then '_' else s[0]] + Underscored(s[1..])
  }

  predicate IsBoolean(op: Operation, key: string) {
    key in op.params && op.params[key] == BooleanParam
  }

  /** The formatter and rehearsal switches every operation takes. */
  predicate IsLocalSwitch(key: string) {
    key == "json" || key == "dry_run"
  }

  predicate IsFlagToken(arg: string) {
    "--" <= arg
  }

  predicate IsBooleanLiteral(next: Option<string>) {
    next == Some("true") || next == Some("false")
  }

  function TokenAt(args: seq<string>, i: nat): Option<string> {
    if i < |args| then Some(args[i]) else None
  }

  // ----- one flag token, as the parser reads it -----

  /** How many tokens the parser consumes at a flag, and the parameter it sets. */
  datatype Reading = Reading(width: nat, sets: Option<(string, Value)>)

  /** The `--key=value` form, when the key is one the parser knows. */
  function InlineReading(op: Operation, arg: string): Option<Reading> {
    var eq := IndexOf(arg, '=');
    if eq <= 2 then None else
      var key, raw := Underscored(arg[2..eq]), arg[eq + 1..];
      if IsLocalSwitch(key) then Some(Reading(1, Some((key, Flag(raw != "false")))))
      else if key !in op.params then None
      else Some(Reading(1, Some((key, match op.params[key]
        case BooleanParam => Flag(raw != "false")
        case NumberParam => Numeric(raw)
        case OtherParam => Word(raw)))))
  }

  predicate IsNegation(op: Operation, arg: string) {
    "--no-" <= arg && IsBoolean(op, Underscored(arg[5..]))
  }

  function ParseFlag(op: Operation, arg: string, next: Option<string>): (r: Reading)
    requires IsFlagToken(arg)
    ensures 1 <= r.width <= if next.None? then 1 else 2
  {
    if InlineReading(op, arg).Some? then InlineReading(op, arg).value
    else if IsNegation(op, arg) then Reading(1, Some((Underscored(arg[5..]), Flag(false))))
    else
      var key := Underscored(arg[2..]);
      if IsBoolean(op, key) || IsLocalSwitch(key) then
        if IsBooleanLiteral(next) then Reading(2, Some((key, Flag(next == Some("true")))))
        else Reading(1, Some((key, Flag(true))))
      else match next
        case None => Reading(1, None)
        case Some(v) =>
          Reading(2, Some((key, if key in op.params && op.params[key] == NumberParam then Numeric(v) else Word(v))))
  }

  // ----- the parser's loop -----

  function Set(params: map<string, Value>, sets: Option<(string, Value)>): map<string, Value> {
    if sets.None? then params else params[sets.value.0 := sets.value.1]
  }

  function Positional(op: Operation, arg: string, posIdx: nat): Option<(string, Value)> {
    if posIdx >= |op.positional| then None else
      var key := op.positional[posIdx];
      Some((key, if key in op.params && op.params[key] == NumberParam then Numeric(arg) else Word(arg)))
  }

  function ParseFrom(op: Operation, args: seq<string>, i: nat, posIdx: nat, params: map<string, Value>): map<string, Value>
    decreases |args| - i
  {
    if i >= |args| then params
    else if IsFlagToken(args[i]) then
      var r := ParseFlag(op, args[i], TokenAt(args, i + 1));
      ParseFrom(op, args, i + r.width, posIdx, Set(params, r.sets))
    else
      var sets := Positional(op, args[i], posIdx);
      ParseFrom(op, args, i + 1, if sets.Some? then posIdx + 1 else posIdx, Set(params, sets))
  }

  lemma {:induction false} ParseUnfold(op: Operation, args: seq<string>, i: nat, posIdx: nat, params: map<string, Value>)
    requires i < |args|
    ensures ParseFrom(op, args, i, posIdx, params) ==
      if IsFlagToken(args[i]) then
        var r := ParseFlag(op, args[i], TokenAt(args, i + 1));
        ParseFrom(op, args, i + r.width, posIdx, Set(params, r.sets))
      else
        var sets := Positional(op, args[i], posIdx);
        ParseFrom(op, args, i + 1, if sets.Some? then posIdx + 1 else posIdx, Set(params, sets))
  {
    hide ParseFlag, Positional, Set;
  }

  lemma ParseEnd(op: Operation, args: seq<string>, posIdx: nat, params: map<string, Value>)
    ensures ParseFrom(op, args, |args|, posIdx, params) == params
  {
  }

  /** The parser's loop at a flag; `last` is the last token it takes. */
  method ParseFlagAt(op: Operation, args: seq<string>, i: nat, before: map<string, Value>)
    returns (last: nat, params: map<string, Value>)
    requires i < |args| && IsFlagToken(args[i])
    ensures var r := ParseFlag(op, args[i], TokenAt(args, i + 1));
      last + 1 == i + r.width && params == Set(before, r.sets)
  {
    hide Underscored, IndexOf;
    last, params := i, before;
    var arg := args[i];
    var eq := IndexOf(arg, '=');
    if eq > 2 {
      var key := Underscored(arg[2..eq]);
      if key == "json" || key == "dry_run" {
        params := params[key := Flag(arg[eq + 1..] != "false")];
        return;
      }
      if key in op.params {
        var raw := arg[eq + 1..];
        var value := match op.params[key]
          case BooleanParam => Flag(raw != "false")
          case NumberParam => Numeric(raw)
          case OtherParam => Word(raw);
        params := params[key := value];
        return;
      }
    }
    if "--no-" <= arg && IsBoolean(op, Underscored(arg[5..])) {
      params := params[Underscored(arg[5..]) := Flag(false)];
      return;
    }
    var key := Underscored(arg[2..]);
    if IsBoolean(op, key) || key == "json" || key == "dry_run" {
      if IsBooleanLiteral(TokenAt(args, i + 1)) {
        last := i + 1;
        params := params[key := Flag(args[last] == "true")];
      } else {
        params := params[key := Flag(true)];
      }
    } else if i + 1 < |args| {
      last := i + 1;
      params := params[key := if key in op.params && op.params[key] == NumberParam then Numeric(args[last]) else Word(args[last])];
    }
  }

  /** The parser's loop; `spans` are the tokens it takes together. */
  method ParseOpArgs(op: Operation, args: seq<string>) returns (params: map<string, Value>, ghost spans: seq<Span>)
    ensures params == ParseFrom(op, args, 0, 0, map[])
    ensures spans == ParserSpans(op, args, 0)
  {
    hide ParseFlag, ParseFrom, ParserSpans;
    params, spans := map[], [];
    var posIdx := 0;
    var i := 0;
    while i < |args|
      invariant 0 <= i <= |args| && 0 <= posIdx
      invariant ParseFrom(op, args, i, posIdx, params) == ParseFrom(op, args, 0, 0, map[])
      invariant spans + ParserSpans(op, args, i) == ParserSpans(op, args, 0)
    {
      var arg := args[i];
      ghost var from := i;
      ParseUnfold(op, args, i, posIdx, params);
      ParserSpansUnfold(op, args, i);
      if "--" <= arg {
        i, params := ParseFlagAt(op, args, i, params);
      } else if posIdx < |op.positional| {
        var key := op.positional[posIdx];
        posIdx := posIdx + 1;
        params := params[key := if key in op.params && op.params[key] == NumberParam then Numeric(arg) else Word(arg)];
      }
      i := i + 1;
      spans := spans + [Span(from, i)];
    }
    ParseEnd(op, args, posIdx, params);
    ParserSpansEnd(op, args);
  }

  // ----- one token, as the validator reads it -----

  /** What the validator does at a token: end the scan, go on past `width` tokens, or report a flag. */
  datatype Verdict = Stop | Pass(width: nat) | Unknown(flag: string)

  predicate IsNameChar(c: char) {
    IsLower(c) || IsUpper(c) || IsDigit(c) || c == '-'
  }

  /** The pattern `--name` or `--name=value`: a name led by a letter or digit, a value free of line breaks. */
  function FlagShape(arg: string): Option<(string, Option<string>)> {
    if !IsFlagToken(arg) then None else
      var eq := IndexOf(arg, '=');
      var name := if eq < 0 then arg[2..] else if eq < 2 then "" else arg[2..eq];
      if name == "" || name[0] == '-' || exists c | c in name :: !IsNameChar(c) then None
      else if eq < 0 then Some((name, None))
      else if exists c | c in arg[eq + 1..] :: IsLineTerminator(c) then None
      else Some((name, Some(arg[eq + 1..])))
  }

  predicate HasUpper(s: string) {
    exists c | c in s :: IsUpper(c)
  }

  function Inspect(op: Operation, arg: string, next: Option<string>): (v: Verdict)
    ensures v.Pass? ==> 1 <= v.width <= 2
  {
    if arg == "--" then Stop else
      match FlagShape(arg)
      case None => Pass(1)
      case Some((name, inline)) =>
        var bare := inline.None?;
        var literalWidth := if bare && IsBooleanLiteral(next) then 2 else 1;
        if HasUpper(name) then Unknown("--" + name)
        else if name == "json" then Pass(literalWidth)
        else if (name == "explain" || name == "help") && bare then Pass(1)
        else if name == "source" then Pass(if bare then 2 else 1)
        else if name == "dry-run" then Pass(literalWidth)
        else if "no-" <= name && IsBoolean(op, Underscored(name[3..])) then Pass(1)
        else
          var key := Underscored(name);
          if key !in op.params then Unknown("--" + name)
          else if op.params[key] != BooleanParam then Pass(if bare then 2 else 1)
          else Pass(literalWidth)
  }

  function FindUnknownFrom(op: Operation, args: seq<string>, i: nat): Option<string>
    decreases |args| - i
  {
    if i >= |args| then None else
      match Inspect(op, args[i], TokenAt(args, i + 1))
      case Stop => None
      case Pass(width) => FindUnknownFrom(op, args, i + width)
      case Unknown(flag) => Some(flag)
  }

  /** The validator's loop at a token that has the shape of a flag: the last token it takes, or the flag it reports. */
  method InspectFlagAt(op: Operation, args: seq<string>, i: nat) returns (last: nat, unknown: Option<string>)
    requires i < |args| && args[i] != "--" && FlagShape(args[i]).Some?
    ensures last >= i
    ensures Inspect(op, args[i], TokenAt(args, i + 1)) ==
      if unknown.Some? then Unknown(unknown.value) else Pass(last + 1 - i)
  {
    hide Underscored, FlagShape;
    last, unknown := i, None;
    var literalNext := IsBooleanLiteral(TokenAt(args, i + 1));
    var (name, inline) := FlagShape(args[i]).value;
    if HasUpper(name) {
      return last, Some("--" + name);
    }
    if name == "json" {
      if inline.None? && literalNext {
        last := i + 1;
      }
    } else if (name == "explain" || name == "help") && inline.None? {
    } else if name == "source" || name == "dry-run" {
      if name == "source" && inline.None? {
        last := i + 1;
      }
      if name == "dry-run" && inline.None? && literalNext {
        last := i + 1;
      }
    } else if "no-" <= name && IsBoolean(op, Underscored(name[3..])) {
    } else {
      var key := Underscored(name);
      if key !in op.params {
        return last, Some("--" + name);
      }
      if op.params[key] != BooleanParam && inline.None? {
        last := i + 1;
      } else if op.params[key] == BooleanParam && inline.None? && literalNext {
        last := i + 1;
      }
    }
  }

  /** The validator's loop; `spans` are the tokens it takes together. */
  method FindUnknownOpFlag(op: Operation, args: seq<string>) returns (unknown: Option<string>, ghost spans: seq<Span>)
    ensures unknown == FindUnknownFrom(op, args, 0)
    ensures spans == ValidatorSpans(op, args, 0)
  {
    hide Inspect, FlagShape, ValidatorSpans, FindUnknownFrom;
    unknown, spans := None, [];
    var i := 0;
    while i < |args|
      invariant 0 <= i && unknown == None
      invariant FindUnknownFrom(op, args, i) == FindUnknownFrom(op, args, 0)
      invariant spans + ValidatorSpans(op, args, Min(i, |args|)) == ValidatorSpans(op, args, 0)
    {
      var a := args[i];
      ghost var from := i;
      InspectIgnored(op, a, TokenAt(args, i + 1));
      FindUnknownUnfold(op, args, i);
      ValidatorSpansUnfold(op, args, i);
      if a == "--" {
        return;
      }
      if FlagShape(a).Some? {
        i, unknown := InspectFlagAt(op, args, i);
        if unknown.Some? {
          return;
        }
      }
      i := i + 1;
      spans := spans + [Span(from, Min(i, |args|))];
    }
    FindUnknownUnfold(op, args, i);
    ValidatorSpansEnd(op, args);
  }

  lemma {:induction false} FindUnknownUnfold(op: Operation, args: seq<string>, i: nat)
    ensures FindUnknownFrom(op, args, i) ==
      if i >= |args| then None else
        match Inspect(op, args[i], TokenAt(args, i + 1))
        case Stop => None
        case Pass(width) => FindUnknownFrom(op, args, i + width)
        case Unknown(flag) => Some(flag)
  {
    hide Inspect;
  }

  lemma InspectIgnored(op: Operation, arg: string, next: Option<string>)
    ensures arg == "--" ==> Inspect(op, arg, next) == Stop
    ensures arg != "--" && FlagShape(arg).None? ==> Inspect(op, arg, next) == Pass(1)
  {
  }

  // ----- lockstep -----

  /** The tokens from `from` up to `to`, consumed together: a flag with its value, or a bare token. */
  datatype Span = Span(from: nat, to: nat)

  function ParserWidth(op: Operation, arg: string, next: Option<string>): nat {
    if IsFlagToken(arg) then ParseFlag(op, arg, next).width else 1
  }

  function ParserSpans(op: Operation, args: seq<string>, i: nat): seq<Span>
    decreases |args| - i
  {
    if i >= |args| then [] else
      var to := i + ParserWidth(op, args[i], TokenAt(args, i + 1));
      [Span(i, to)] + ParserSpans(op, args, to)
  }

  /** What the validator consumes before it ends; a value it expects past the end is not there to consume. */
  function ValidatorSpans(op: Operation, args: seq<string>, i: nat): seq<Span>
    decreases |args| - i
  {
    if i >= |args| then [] else
      match Inspect(op, args[i], TokenAt(args, i + 1))
      case Stop => []
      case Unknown(_) => []
      case Pass(width) =>
        var to := Min(i + width, |args|);
        [Span(i, to)] + ValidatorSpans(op, args, to)
  }

  lemma ParserSpansUnfold(op: Operation, args: seq<string>, i: nat)
    requires i < |args|
    ensures var to := i + ParserWidth(op, args[i], TokenAt(args, i + 1));
      ParserSpans(op, args, i) == [Span(i, to)] + ParserSpans(op, args, to)
  {
    hide ParserWidth;
  }

  lemma ParserSpansEnd(op: Operation, args: seq<string>)
    ensures ParserSpans(op, args, |args|) == []
  {
  }

  lemma ValidatorSpansUnfold(op: Operation, args: seq<string>, i: nat)
    requires i < |args|
    ensures ValidatorSpans(op, args, i) ==
      match Inspect(op, args[i], TokenAt(args, i + 1))
      case Stop => []
      case Unknown(_) => []
      case Pass(width) => [Span(i, Min(i + width, |args|))] + ValidatorSpans(op, args, Min(i + width, |args|))
  {
    hide Inspect;
  }

  lemma ValidatorSpansEnd(op: Operation, args: seq<string>)
    ensures ValidatorSpans(op, args, |args|) == []
  {
  }

  /**
   * Where the two readings of one token differ, told by what the caller can see: the
   * terminator; a token the validator's pattern ignores but after which the parser takes
   * a value; bare `--explain` and `--help` before a token the parser takes; `--source`
   * declared a boolean; an inline value whose key the parser does not know.
   */
  predicate SameReach(op: Operation, arg: string, next: Option<string>) {
    || !IsFlagToken(arg)
    || (arg != "--" &&
        (next.None? ||
         match FlagShape(arg)
         case None => !TakesNext(op, arg, next)
         case Some((name, inline)) =>
           if inline.Some? then
             name == "json" || name == "dry-run" || Underscored(name) in op.params
           else if name == "explain" || name == "help" then
             IsBoolean(op, name) && !IsBooleanLiteral(next)
           else if name == "source" then
             IsBoolean(op, name) ==> IsBooleanLiteral(next)
           else true))
  }

  /** The parser takes `next` as the value of a flag it reads by name. */
  predicate TakesNext(op: Operation, arg: string, next: Option<string>)
    requires IsFlagToken(arg)
  {
    var eq := IndexOf(arg, '=');
    var key := Underscored(arg[2..]);
    && !(eq > 2 && (IsLocalSwitch(Underscored(arg[2..eq])) || Underscored(arg[2..eq]) in op.params))
    && !IsNegation(op, arg)
    && ((IsBoolean(op, key) || IsLocalSwitch(key)) ==> IsBooleanLiteral(next))
  }

  /** Every token the validator stops at is one both loops read alike. */
  predicate InStep(op: Operation, args: seq<string>, i: nat)
    decreases |args| - i
  {
    i >= |args| ||
    match Inspect(op, args[i], TokenAt(args, i + 1))
    case Stop => false
    case Unknown(_) => false
    case Pass(width) => SameReach(op, args[i], TokenAt(args, i + 1)) && InStep(op, args, i + width)
  }

  lemma NameFacts(arg: string)
    requires FlagShape(arg).Some?
    ensures var (name, inline) := FlagShape(arg).value;
      && name != "" && '=' !in name && IsFlagToken(arg)
      && var eq := IndexOf(arg, '=');
      && (inline.None? ==> eq < 0 && name == arg[2..])
      && (inline.Some? ==> eq > 2 && name == arg[2..eq])
  {
  }

  lemma {:induction false} UnderscoredInjective(a: string, b: string)
    requires '_' !in a && '_' !in b && Underscored(a) == Underscored(b)
    ensures a == b
  {
    if a != [] {
      assert a == [a[0]] + a[1..] && b == [b[0]] + b[1..];
      assert Underscored(a)[0] == Underscored(b)[0] && Underscored(a)[1..] == Underscored(a[1..]);
      assert Underscored(b)[1..] == Underscored(b[1..]);
      UnderscoredInjective(a[1..], b[1..]);
    }
  }

  lemma UnderscoredSwitches(name: string)
    requires forall c | c in name :: IsNameChar(c)
    ensures Underscored(name) == "json" <==> name == "json"
    ensures Underscored(name) == "dry_run" <==> name == "dry-run"
    ensures name == "source" || name == "explain" || name == "help" ==> Underscored(name) == name
  {
    hide Underscored;
    SwitchNames();
    if Underscored(name) == "json" {
      UnderscoredInjective(name, "json");
    }
    if Underscored(name) == "dry_run" {
      UnderscoredInjective(name, "dry-run");
    }
  }

  lemma {:induction false} UnderscoredAt(s: string)
    ensures forall i | 0 <= i < |s| :: Underscored(s)[i] == if s[i] == '-' then '_' else s[i]
  {
    if s != [] {
      UnderscoredAt(s[1..]);
    }
  }

  lemma SwitchNames()
    ensures Underscored("json") == "json" && Underscored("dry-run") == "dry_run"
    ensures Underscored("source") == "source" && Underscored("explain") == "explain" && Underscored("help") == "help"
  {
    hide Underscored;
    UnderscoredAt("json");
    UnderscoredAt("dry-run");
    UnderscoredAt("source");
    UnderscoredAt("explain");
    UnderscoredAt("help");
  }

  /** A bare flag: the two agree unless `explain`, `help` or `source` is read differently. */
  lemma BareFlagReach(op: Operation, arg: string, next: Option<string>)
    requires WellNamed(op) && Inspect(op, arg, next).Pass?
    requires FlagShape(arg).Some? && FlagShape(arg).value.1.None?
    ensures SameReach(op, arg, next)
      <==> ParserWidth(op, arg, next) == if next.None? then 1 else Inspect(op, arg, next).width
  {
    hide Underscored;
    var name := FlagShape(arg).value.0;
    NameFacts(arg);
    UnderscoredSwitches(name);
    assert InlineReading(op, arg).None?;
    if "--no-" <= arg {
      assert arg[5..] == name[3..] && "no-" <= name;
    } else {
      assert arg == "--" + name;
    }
  }

  /** An inline value: both consume one token unless the parser does not know the key. */
  lemma InlineFlagReach(op: Operation, arg: string, next: Option<string>)
    requires WellNamed(op) && Inspect(op, arg, next).Pass?
    requires FlagShape(arg).Some? && FlagShape(arg).value.1.Some?
    ensures SameReach(op, arg, next)
      <==> ParserWidth(op, arg, next) == if next.None? then 1 else Inspect(op, arg, next).width
  {
    hide Underscored;
    var name := FlagShape(arg).value.0;
    NameFacts(arg);
    UnderscoredSwitches(name);
    assert '=' in arg[2..] by { assert arg[2..][IndexOf(arg, '=') - 2] == '='; }
    if "--no-" <= arg {
      assert '=' in arg[5..] by {
        assert IndexOf(arg, '=') >= 5;
        assert arg[5..][IndexOf(arg, '=') - 5] == '=';
      }
    }
  }

  /** The two loops read one token alike exactly when `SameReach` says so. */
  lemma SameReachIsExact(op: Operation, arg: string, next: Option<string>)
    requires WellNamed(op) && Inspect(op, arg, next).Pass?
    ensures SameReach(op, arg, next)
      <==> ParserWidth(op, arg, next) == if next.None? then 1 else Inspect(op, arg, next).width
  {
    if FlagShape(arg).Some? {
      if FlagShape(arg).value.1.None? {
        BareFlagReach(op, arg, next);
      } else {
        InlineFlagReach(op, arg, next);
      }
    }
  }

  /**
   * When the validator reports nothing, the two loops consume the same spans of tokens
   * if and only if every token they meet is one they read alike.
   */
  lemma {:induction false} Lockstep(op: Operation, args: seq<string>, i: nat)
    requires WellNamed(op) && FindUnknownFrom(op, args, i) == None
    ensures ParserSpans(op, args, i) == ValidatorSpans(op, args, i) <==> InStep(op, args, i)
    decreases |args| - i
  {
    hide SameReach, ParseFlag, Inspect;
    if i < |args| {
      var next := TokenAt(args, i + 1);
      var v := Inspect(op, args[i], next);
      if v.Pass? {
        SameReachIsExact(op, args[i], next);
        var to := Min(i + v.width, |args|);
        Lockstep(op, args, to);
        if SameReach(op, args[i], next) {
          assert i + ParserWidth(op, args[i], next) == to;
          assert ParserSpans(op, args, i)[1..] == ParserSpans(op, args, to);
          assert ValidatorSpans(op, args, i)[1..] == ValidatorSpans(op, args, to);
        } else {
          assert ParserSpans(op, args, i)[0] != ValidatorSpans(op, args, i)[0];
        }
      }
    }
  }

  const NO_PARAMS := Operation(map[], [])

  const IGNORED := ["--a_b", "x"]

  lemma IgnoredKey()
    ensures "--a_b"[2..] == "a_b" == Underscored("a_b") && IndexOf("--a_b", '=') == -1
  {
    assert "--a_b"[2..] == "a_b" && "a_b"[1..] == "_b" && "_b"[1..] == "b" && "b"[1..] == "";
    hide IndexOf;
    NoEquals("--a_b");
  }

  lemma IgnoredTokenParsed()
    ensures ParseFlag(NO_PARAMS, "--a_b", Some("x")) == Reading(2, Some(("a_b", Word("x"))))
  {
    hide Underscored, IndexOf;
    IgnoredKey();
    assert "--a_b"[2] == 'a' && !("--no-" <= "--a_b");
  }

  lemma IgnoredTokenInspected()
    ensures Inspect(NO_PARAMS, "--a_b", Some("x")) == Pass(1) && Inspect(NO_PARAMS, "x", None) == Pass(1)
  {
    hide Underscored, IndexOf;
    IgnoredKey();
    assert "a_b"[1] == '_' && !IsNameChar('_') && '_' in "a_b";
    assert FlagShape("--a_b") == None && FlagShape("x") == None;
  }

  /** Out of step: a token the validator's pattern ignores takes the next one as its value, and sets a key nobody declared. */
  lemma IgnoredTokenTakesNext()
    ensures FindUnknownFrom(NO_PARAMS, IGNORED, 0) == None && !InStep(NO_PARAMS, IGNORED, 0)
    ensures ParserSpans(NO_PARAMS, IGNORED, 0) == [Span(0, 2)]
    ensures ValidatorSpans(NO_PARAMS, IGNORED, 0) == [Span(0, 1), Span(1, 2)]
    ensures "a_b" in ParseFrom(NO_PARAMS, IGNORED, 0, 0, map[]) && !Expected(NO_PARAMS, "a_b")
  {
    IgnoredTokenParsed();
    IgnoredTokenInspected();
    assert !("--" <= "x") && "--" <= "--a_b";
    hide ParseFlag, Inspect, FlagShape, ParseFrom, ParserSpans, ValidatorSpans, SameReach;
    ParseUnfold(NO_PARAMS, IGNORED, 0, 0, map[]);
    ParseEnd(NO_PARAMS, IGNORED, 0, map["a_b" := Word("x")]);
    ParserSpansUnfold(NO_PARAMS, IGNORED, 0);
    ParserSpansEnd(NO_PARAMS, IGNORED);
    ValidatorSpansUnfold(NO_PARAMS, IGNORED, 0);
    ValidatorSpansUnfold(NO_PARAMS, IGNORED, 1);
    ValidatorSpansEnd(NO_PARAMS, IGNORED);
    assert FindUnknownFrom(NO_PARAMS, IGNORED, 1) == None;
    Lockstep(NO_PARAMS, IGNORED, 0);
  }

  lemma NoEquals(s: string)
    requires '=' !in s
    ensures IndexOf(s, '=') == -1
  {
  }

  /** A key a validated command line may set. */
  predicate Expected(op: Operation, key: string) {
    key in op.params || key in op.positional || key == "json" || key == "dry_run" || key == "source"
  }

  lemma FlagSetsExpected(op: Operation, arg: string, next: Option<string>)
    requires WellNamed(op) && IsFlagToken(arg)
    requires Inspect(op, arg, next).Pass? && SameReach(op, arg, next)
    ensures var sets := ParseFlag(op, arg, next).sets; sets.Some? ==> Expected(op, sets.value.0)
  {
    if FlagShape(arg).None? {
      IgnoredTokenSetsExpected(op, arg, next);
    } else {
      MatchedFlagSetsExpected(op, arg, next);
    }
  }

  lemma IgnoredTokenSetsExpected(op: Operation, arg: string, next: Option<string>)
    requires IsFlagToken(arg) && (next.None? || !TakesNext(op, arg, next))
    ensures var sets := ParseFlag(op, arg, next).sets; sets.Some? ==> Expected(op, sets.value.0)
  {
  }

  lemma MatchedFlagSetsExpected(op: Operation, arg: string, next: Option<string>)
    requires WellNamed(op) && FlagShape(arg).Some?
    requires Inspect(op, arg, next).Pass? && SameReach(op, arg, next)
    ensures var sets := ParseFlag(op, arg, next).sets; sets.Some? ==> Expected(op, sets.value.0)
  {
    hide Underscored, IndexOf;
    NameFacts(arg);
    UnderscoredSwitches(FlagShape(arg).value.0);
  }

  /** What validation is for: in step, the parser sets no key the operation does not know. */
  lemma {:induction false} ValidatedKeysAreExpected(op: Operation, args: seq<string>, i: nat, posIdx: nat, params: map<string, Value>)
    requires WellNamed(op) && FindUnknownFrom(op, args, i) == None && InStep(op, args, i)
    requires forall k | k in params :: Expected(op, k)
    ensures forall k | k in ParseFrom(op, args, i, posIdx, params) :: Expected(op, k)
    decreases |args| - i
  {
    hide SameReach, ParseFlag, Inspect;
    if i < |args| {
      var next := TokenAt(args, i + 1);
      SameReachIsExact(op, args[i], next);
      var to := i + ParserWidth(op, args[i], next);
      if IsFlagToken(args[i]) {
        FlagSetsExpected(op, args[i], next);
        ValidatedKeysAreExpected(op, args, to, posIdx, Set(params, ParseFlag(op, args[i], next).sets));
      } else {
        var sets := Positional(op, args[i], posIdx);
        ValidatedKeysAreExpected(op, args, to, if sets.Some? then posIdx + 1 else posIdx, Set(params, sets));
      }
    }
  }
}
