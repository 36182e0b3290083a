/**
 * src/cli.ts: what an operation's arguments mean. Every argument vector is written by a list
 * of settings, and `parseOpArgs` gives each its value.
 */
module ArgvMeaning {
  import opened Argv
  import opened Results
  import opened Text

  /** One or two tokens that belong together; names as they are written, without the leading dashes. */
  datatype Setting =
    | On(name: string)
    | Negated(name: string)
    | Literal(name: string, on: bool)
    | Inline(name: string, raw: string)
    | Spaced(name: string, raw: string)
    | Dangling(name: string)
    | Bare(text: string)

  function Tokens(s: Setting): seq<string> {
    match s
    case On(name) => ["--" + name]
    case Negated(name) => ["--no-" + name]
    case Literal(name, on) => ["--" + name, if on then "true" else "false"]
    case Inline(name, raw) => ["--" + (name + ("=" + raw))]
    case Spaced(name, raw) => ["--" + name, raw]
    case Dangling(name) => ["--" + name]
    case Bare(text) => [text]
  }

  function AllTokens(settings: seq<Setting>): seq<string> {
    if settings == [] then [] else Tokens(settings[0]) + AllTokens(settings[1..])
  }

  /** The key a name stands for: its hyphens as underscores. */
  function KeyOf(name: string): string {
    seq(|name|, i requires 0 <= i < |name| => if name[i] == '-' then '_' else name[i])
  }

  predicate DeclaredBoolean(op: Operation, key: string) {
    key in op.params && op.params[key] == BooleanParam
  }

  /** A declared boolean, or one of the two switches that every operation takes. */
  predicate TakesNoValue(op: Operation, key: string) {
    DeclaredBoolean(op, key) || key == "json" || key == "dry_run"
  }

  /** Not of the form `key=value` with a known key before the first `=`. */
  ghost predicate NotInline(op: Operation, name: string) {
    forall m, v | m != "" && '=' !in m && name == m + ("=" + v) ::
      KeyOf(m) !in op.params && KeyOf(m) != "json" && KeyOf(m) != "dry_run"
  }

  /** A name read as a whole: neither `key=value` of a known key nor the negation of a declared boolean. */
  ghost predicate Plain(op: Operation, name: string) {
    NotInline(op, name) && forall m | name == "no-" + m :: !DeclaredBoolean(op, KeyOf(m))
  }

  ghost predicate Valid(op: Operation, s: Setting) {
    match s
    case On(name) => Plain(op, name) && TakesNoValue(op, KeyOf(name))
    case Negated(name) => NotInline(op, "no-" + name) && DeclaredBoolean(op, KeyOf(name))
    case Literal(name, _) => Plain(op, name) && TakesNoValue(op, KeyOf(name))
    case Inline(name, _) =>
      name != "" && '=' !in name && (KeyOf(name) in op.params || KeyOf(name) == "json" || KeyOf(name) == "dry_run")
    case Spaced(name, _) => Plain(op, name) && !TakesNoValue(op, KeyOf(name))
    case Dangling(name) => Plain(op, name) && !TakesNoValue(op, KeyOf(name))
    case Bare(text) => !("--" <= text)
  }

  /** Settings that read back one by one: a switch is not followed by `true` or `false`, only the last may lack its value. */
  ghost predicate WellWritten(op: Operation, settings: seq<Setting>) {
    settings == [] || (
      && Valid(op, settings[0])
      && (settings[0].On? && |settings| > 1 ==> settings[1] != Bare("true") && settings[1] != Bare("false"))
      && (settings[0].Dangling? ==> |settings| == 1)
      && WellWritten(op, settings[1..]))
  }

  /** A word, or the number it spells for a parameter declared a number. */
  function ByType(op: Operation, key: string, raw: string): Value {
    if key in op.params && op.params[key] == NumberParam then Numeric(raw) else Word(raw)
  }

  /** What the settings assign, a later one over an earlier; bare tokens fill the positional parameters in turn. */
  function Meaning(op: Operation, settings: seq<Setting>, posIdx: nat, params: map<string, Value>): map<string, Value> {
    if settings == [] then params else
      var rest := settings[1..];
      match settings[0]
      case On(name) => Meaning(op, rest, posIdx, params[KeyOf(name) := Flag(true)])
      case Negated(name) => Meaning(op, rest, posIdx, params[KeyOf(name) := Flag(false)])
      case Literal(name, on) => Meaning(op, rest, posIdx, params[KeyOf(name) := Flag(on)])
      case Inline(name, raw) =>
        Meaning(op, rest, posIdx,
          params[KeyOf(name) := if TakesNoValue(op, KeyOf(name)) then Flag(raw != "false") else ByType(op, KeyOf(name), raw)])
      case Spaced(name, raw) => Meaning(op, rest, posIdx, params[KeyOf(name) := ByType(op, KeyOf(name), raw)])
      case Dangling(_) => Meaning(op, rest, posIdx, params)
      case Bare(text) =>
        if posIdx < |op.positional| then
          Meaning(op, rest, posIdx + 1, params[op.positional[posIdx] := ByType(op, op.positional[posIdx], text)])
        else Meaning(op, rest, posIdx, params)
  }

  // ----- names and keys -----

  lemma {:induction false} UnderscoredIsKey(name: string)
    ensures Underscored(name) == KeyOf(name)
  {
    if name != [] {
      UnderscoredIsKey(name[1..]);
      assert KeyOf(name)[1..] == KeyOf(name[1..]);
    }
  }

  lemma NameOf(name: string)
    ensures "--" <= "--" + name && ("--" + name)[2..] == name
  {
  }

  /** The first `=` splits a text one way. */
  lemma FirstEquals(s: string)
    ensures var eq := IndexOf(s, '=');
      eq >= 0 ==> s == s[..eq] + ("=" + s[eq + 1..]) && '=' !in s[..eq]
  {
  }

  lemma SplitsAt(m: string, v: string)
    requires '=' !in m
    ensures var arg, eq := "--" + (m + ("=" + v)), 2 + |m|;
      IndexOf(arg, '=') == eq && arg[2..eq] == m && arg[eq + 1..] == v
  {
    var arg := "--" + (m + ("=" + v));
    assert arg == ("--" + m) + ['='] + v && '=' !in "--" + m;
    hide IndexOf;
    IndexOfFirst("--" + m, '=', v);
  }

  lemma InlineSplits(name: string) returns (m: string, v: string)
    requires IndexOf("--" + name, '=') > 2
    ensures m != "" && '=' !in m && name == m + ("=" + v)
    ensures var arg := "--" + name; m == arg[2..IndexOf(arg, '=')] && v == arg[IndexOf(arg, '=') + 1..]
  {
    var arg := "--" + name;
    var eq := IndexOf(arg, '=');
    hide IndexOf;
    m, v := arg[2..eq], arg[eq + 1..];
    assert arg[..eq] == "--" + m;
    assert arg == arg[..eq] + ([arg[eq]] + v);
    assert name == arg[2..];
  }

  lemma InlineNone(op: Operation, name: string)
    ensures InlineReading(op, "--" + name) == None <==> NotInline(op, name)
  {
    hide IndexOf, Underscored;
    if InlineReading(op, "--" + name) == None {
      forall m, v | m != "" && '=' !in m && name == m + ("=" + v)
        ensures KeyOf(m) !in op.params && KeyOf(m) != "json" && KeyOf(m) != "dry_run"
      {
        SplitsAt(m, v);
        UnderscoredIsKey(m);
      }
    } else {
      var m, v := InlineSplits(name);
      UnderscoredIsKey(m);
    }
  }

  lemma NegationNone(op: Operation, name: string)
    ensures !IsNegation(op, "--" + name) <==> forall m | name == "no-" + m :: !DeclaredBoolean(op, KeyOf(m))
  {
    hide Underscored;
    var arg := "--" + name;
    forall m | name == "no-" + m ensures "--no-" <= arg && arg[5..] == m && Underscored(m) == KeyOf(m) {
      assert arg == "--no-" + m;
      UnderscoredIsKey(m);
    }
    if "--no-" <= arg {
      assert name == arg[2..] && arg[2..5] == "no-" && arg[2..] == arg[2..5] + arg[5..];
    }
  }

  // ----- what the parser reads at each setting -----

  lemma PlainReading(op: Operation, name: string, next: Option<string>)
    requires Plain(op, name)
    ensures var key := KeyOf(name);
      ParseFlag(op, "--" + name, next) ==
      if TakesNoValue(op, key) then
        if next == Some("true") || next == Some("false") then Reading(2, Some((key, Flag(next == Some("true")))))
        else Reading(1, Some((key, Flag(true))))
      else match next
        case None => Reading(1, None)
        case Some(v) => Reading(2, Some((key, ByType(op, key, v))))
  {
    hide InlineReading, IsNegation, NotInline, Underscored;
    InlineNone(op, name);
    NegationNone(op, name);
    UnderscoredIsKey(name);
    NameOf(name);
  }

  lemma NegatedReading(op: Operation, name: string, next: Option<string>)
    requires NotInline(op, "no-" + name) && DeclaredBoolean(op, KeyOf(name))
    ensures ParseFlag(op, "--no-" + name, next) == Reading(1, Some((KeyOf(name), Flag(false))))
  {
    var arg := "--no-" + name;
    assert arg[5..] == name && "--" <= arg && "--no-" <= arg && arg == "--" + ("no-" + name);
    hide InlineReading, Underscored, NotInline;
    InlineNone(op, "no-" + name);
    UnderscoredIsKey(name);
  }

  lemma InlineReads(op: Operation, name: string, raw: string, next: Option<string>)
    requires Valid(op, Inline(name, raw))
    ensures var key := KeyOf(name);
      ParseFlag(op, "--" + (name + ("=" + raw)), next)
      == Reading(1, Some((key, if TakesNoValue(op, key) then Flag(raw != "false") else ByType(op, key, raw))))
  {
    hide IndexOf, Underscored;
    var arg := "--" + (name + ("=" + raw));
    var eq := 2 + |name|;
    assert arg == ("--" + name) + ['='] + raw && '=' !in "--" + name;
    IndexOfFirst("--" + name, '=', raw);
    assert arg[2..eq] == name && arg[eq + 1..] == raw && "--" <= arg;
    UnderscoredIsKey(name);
  }

  // ----- every list of settings is parsed to its meaning -----

  lemma NextToken(args: seq<string>, i: nat, s: Setting, rest: seq<Setting>)
    requires i <= |args| && args[i..] == Tokens(s) + AllTokens(rest)
    ensures i < |args| && i + |Tokens(s)| <= |args| && args[i] == Tokens(s)[0] && args[i + |Tokens(s)|..] == AllTokens(rest)
    ensures |Tokens(s)| == 2 ==> TokenAt(args, i + 1) == Some(Tokens(s)[1])
    ensures |Tokens(s)| == 1 ==> TokenAt(args, i + 1) == if rest == [] then None else Some(Tokens(rest[0])[0])
  {
    assert |args[i..]| == |args| - i;
    assert args[i..][0] == args[i];
    var k := |Tokens(s)|;
    assert args[i..][k..] == args[i + k..];
    if k == 2 {
      assert args[i..][1] == args[i + 1];
    } else if rest != [] {
      assert AllTokens(rest) == Tokens(rest[0]) + AllTokens(rest[1..]);
      assert args[i + 1..][0] == args[i + 1];
    }
  }

  /** The first token of a setting is `true` or `false` only if the setting is that bare word. */
  lemma FirstToken(op: Operation, s: Setting)
    requires Valid(op, s)
    ensures Tokens(s)[0] == "true" || Tokens(s)[0] == "false" ==> s == Bare(Tokens(s)[0])
    ensures !s.Bare? ==> "--" <= Tokens(s)[0]
  {
    assert !s.Bare? ==> Tokens(s)[0][0] == '-';
  }

  lemma SettingReads(op: Operation, s: Setting, next: Option<string>)
    requires Valid(op, s) && !s.Bare?
    requires |Tokens(s)| == 2 ==> next == Some(Tokens(s)[1])
    requires s.On? ==> next != Some("true") && next != Some("false")
    requires s.Dangling? ==> next == None
    ensures IsFlagToken(Tokens(s)[0])
    ensures ParseFlag(op, Tokens(s)[0], next).width == |Tokens(s)|
    ensures forall rest, posIdx, params ::
      Meaning(op, [s] + rest, posIdx, params) == Meaning(op, rest, posIdx, Set(params, ParseFlag(op, Tokens(s)[0], next).sets))
  {
    FirstToken(op, s);
    match s {
      case On(name) => PlainReading(op, name, next);
      case Negated(name) => NegatedReading(op, name, next);
      case Literal(name, on) => PlainReading(op, name, next);
      case Inline(name, raw) => InlineReads(op, name, raw, next);
      case Spaced(name, raw) => PlainReading(op, name, next);
      case Dangling(name) => PlainReading(op, name, next);
    }
    hide ParseFlag, Plain, KeyOf, TakesNoValue;
    assert forall rest: seq<Setting> :: ([s] + rest)[1..] == rest;
  }

  lemma BareReads(op: Operation, text: string, rest: seq<Setting>, posIdx: nat, params: map<string, Value>)
    ensures Meaning(op, [Bare(text)] + rest, posIdx, params) == Meaning(op, rest,
      if Positional(op, text, posIdx).Some? then posIdx + 1 else posIdx, Set(params, Positional(op, text, posIdx)))
  {
    assert ([Bare(text)] + rest)[1..] == rest;
  }

  lemma NothingMeant(op: Operation, posIdx: nat, params: map<string, Value>)
    ensures Meaning(op, [], posIdx, params) == params
  {
  }

  lemma WellWrittenFirst(op: Operation, s: Setting, rest: seq<Setting>)
    requires WellWritten(op, [s] + rest)
    ensures Valid(op, s) && WellWritten(op, rest) && (s.Dangling? ==> rest == [])
    ensures s.On? && rest != [] ==> rest[0] != Bare("true") && rest[0] != Bare("false")
    ensures rest != [] ==> Valid(op, rest[0])
  {
    hide Valid;
    assert ([s] + rest)[1..] == rest;
  }

  lemma BareStep(op: Operation, args: seq<string>, i: nat, s: Setting, rest: seq<Setting>, posIdx: nat, params: map<string, Value>)
    returns (nextIdx: nat, after: map<string, Value>)
    requires i < |args| && s.Bare? && args[i] == s.text && Valid(op, s)
    ensures ParseFrom(op, args, i, posIdx, params) == ParseFrom(op, args, i + 1, nextIdx, after)
    ensures Meaning(op, [s] + rest, posIdx, params) == Meaning(op, rest, nextIdx, after)
  {
    hide ParseFlag, ParseFrom, Meaning, Positional, Set;
    ParseUnfold(op, args, i, posIdx, params);
    BareReads(op, s.text, rest, posIdx, params);
    var sets := Positional(op, s.text, posIdx);
    nextIdx, after := if sets.Some? then posIdx + 1 else posIdx, Set(params, sets);
  }

  lemma FlagStep(op: Operation, args: seq<string>, i: nat, s: Setting, rest: seq<Setting>, posIdx: nat, params: map<string, Value>)
    returns (after: map<string, Value>)
    requires i < |args| && !s.Bare? && args[i] == Tokens(s)[0] && Valid(op, s)
    requires |Tokens(s)| == 2 ==> TokenAt(args, i + 1) == Some(Tokens(s)[1])
    requires s.On? ==> TokenAt(args, i + 1) != Some("true") && TokenAt(args, i + 1) != Some("false")
    requires s.Dangling? ==> TokenAt(args, i + 1) == None
    ensures ParseFrom(op, args, i, posIdx, params) == ParseFrom(op, args, i + |Tokens(s)|, posIdx, after)
    ensures Meaning(op, [s] + rest, posIdx, params) == Meaning(op, rest, posIdx, after)
  {
    hide ParseFlag, ParseFrom, Meaning, Positional, Set, Valid, Tokens;
    var next := TokenAt(args, i + 1);
    SettingReads(op, s, next);
    ParseUnfold(op, args, i, posIdx, params);
    after := Set(params, ParseFlag(op, args[i], next).sets);
  }

  lemma SettingStep(op: Operation, args: seq<string>, i: nat, s: Setting, rest: seq<Setting>, posIdx: nat, params: map<string, Value>)
    returns (nextIdx: nat, after: map<string, Value>)
    requires i <= |args| && args[i..] == Tokens(s) + AllTokens(rest) && WellWritten(op, [s] + rest)
    ensures i + |Tokens(s)| <= |args| && args[i + |Tokens(s)|..] == AllTokens(rest) && WellWritten(op, rest)
    ensures ParseFrom(op, args, i, posIdx, params) == ParseFrom(op, args, i + |Tokens(s)|, nextIdx, after)
    ensures Meaning(op, [s] + rest, posIdx, params) == Meaning(op, rest, nextIdx, after)
  {
    hide ParseFrom, Meaning, WellWritten, Valid;
    WellWrittenFirst(op, s, rest);
    NextToken(args, i, s, rest);
    FirstToken(op, s);
    SettingWidth(s);
    if s.Bare? {
      nextIdx, after := BareStep(op, args, i, s, rest, posIdx, params);
    } else {
      if rest != [] {
        FirstToken(op, rest[0]);
      }
      hide Tokens;
      nextIdx := posIdx;
      after := FlagStep(op, args, i, s, rest, posIdx, params);
    }
  }

  lemma {:induction false} SettingsFrom(op: Operation, args: seq<string>, i: nat, settings: seq<Setting>, posIdx: nat, params: map<string, Value>)
    requires i <= |args| && args[i..] == AllTokens(settings) && WellWritten(op, settings)
    ensures ParseFrom(op, args, i, posIdx, params) == Meaning(op, settings, posIdx, params)
    decreases |settings|
  {
    hide Tokens, ParseFrom, Meaning, WellWritten;
    if settings == [] {
      assert i == |args|;
      ParseEnd(op, args, posIdx, params);
      NothingMeant(op, posIdx, params);
    } else {
      var s, rest := settings[0], settings[1..];
      assert settings == [s] + rest;
      var nextIdx, after := SettingStep(op, args, i, s, rest, posIdx, params);
      SettingsFrom(op, args, i + |Tokens(s)|, rest, nextIdx, after);
    }
  }

  lemma SettingWidth(s: Setting)
    ensures |Tokens(s)| == if s.Literal? || s.Spaced? then 2 else 1
  {
  }

  /** `parseOpArgs` gives every list of settings its meaning. */
  lemma SettingsAreParsed(op: Operation, settings: seq<Setting>)
    requires WellWritten(op, settings)
    ensures ParseFrom(op, AllTokens(settings), 0, 0, map[]) == Meaning(op, settings, 0, map[])
  {
    var args := AllTokens(settings);
    assert args[0..] == args;
    SettingsFrom(op, args, 0, settings, 0, map[]);
  }

  // ----- every argument vector is such a list -----

  lemma SettingAt(op: Operation, args: seq<string>, i: nat) returns (s: Setting)
    requires i < |args|
    ensures Valid(op, s) && i + |Tokens(s)| <= |args| && args[i..i + |Tokens(s)|] == Tokens(s)
    ensures s.On? ==> TokenAt(args, i + 1) != Some("true") && TokenAt(args, i + 1) != Some("false")
    ensures s.Dangling? ==> i + 1 == |args|
  {
    var arg := args[i];
    if !("--" <= arg) {
      s := Bare(arg);
    } else {
      var name := arg[2..];
      assert arg == "--" + name;
      if !NotInline(op, name) {
        var m, v :| m != "" && '=' !in m && name == m + ("=" + v) &&
          !(KeyOf(m) !in op.params && KeyOf(m) != "json" && KeyOf(m) != "dry_run");
        s := Inline(m, v);
      } else if m :| name == "no-" + m && DeclaredBoolean(op, KeyOf(m)) {
        s := Negated(m);
        assert "--no-" + m == "--" + name;
      } else {
        s := PlainSetting(op, name, TokenAt(args, i + 1));
        assert |Tokens(s)| == 2 ==> args[i..i + 2] == [args[i], args[i + 1]];
      }
    }
    assert args[i..i + 1] == [arg];
  }

  lemma PlainSetting(op: Operation, name: string, next: Option<string>) returns (s: Setting)
    requires Plain(op, name)
    ensures Valid(op, s) && Tokens(s)[0] == "--" + name
    ensures |Tokens(s)| == 2 ==> next == Some(Tokens(s)[1])
    ensures !s.Inline? && !s.Negated? && !s.Bare?
    ensures s.On? ==> next != Some("true") && next != Some("false")
    ensures s.Dangling? ==> next == None
  {
    if TakesNoValue(op, KeyOf(name)) {
      s := if next == Some("true") then Literal(name, true)
        else if next == Some("false") then Literal(name, false) else On(name);
    } else {
      s := if next == None then Dangling(name) else Spaced(name, next.value);
    }
  }

  lemma {:induction false} SettingsOf(op: Operation, args: seq<string>, i: nat) returns (settings: seq<Setting>)
    requires i <= |args|
    ensures WellWritten(op, settings) && AllTokens(settings) == args[i..]
    decreases |args| - i
  {
    hide Valid;
    settings := [];
    if i < |args| {
      var s := SettingAt(op, args, i);
      hide Tokens;
      SettingWidth(s);
      var k := i + |Tokens(s)|;
      var rest := SettingsOf(op, args, k);
      settings := [s] + rest;
      assert settings[1..] == rest;
      assert args[i..] == args[i..k] + args[k..];
      if rest != [] {
        RestBegins(op, args, k, rest);
      }
      assert k == |args| ==> rest == [] by {
        if rest != [] {
          assert |args[k..]| > 0;
        }
      }
    }
  }

  lemma RestBegins(op: Operation, args: seq<string>, k: nat, rest: seq<Setting>)
    requires k <= |args| && AllTokens(rest) == args[k..] && rest != []
    ensures k < |args| && Tokens(rest[0])[0] == args[k]
    ensures rest[0].Bare? ==> args[k] == rest[0].text
  {
    assert AllTokens(rest)[0] == Tokens(rest[0])[0];
    assert args[k..][0] == args[k];
  }

  /** So the meaning of settings is all that `parseOpArgs` does: every argument vector is written by some. */
  lemma EveryVectorIsSettings(op: Operation, args: seq<string>)
    ensures exists settings ::
      && WellWritten(op, settings) && AllTokens(settings) == args
      && ParseFrom(op, args, 0, 0, map[]) == Meaning(op, settings, 0, map[])
  {
    var settings := SettingsOf(op, args, 0);
    assert args[0..] == args;
    SettingsAreParsed(op, settings);
  }

  // ----- which flags the validator reports -----

  /** A letter or digit, then letters, digits and hyphens. */
  predicate IsFlagName(name: string) {
    && name != "" && name[0] != '-'
    && forall c | c in name :: 'a' <= c <= 'z' || 'A' <= c <= 'Z' || '0' <= c <= '9' || c == '-'
  }

  /** Written in lower case, and a switch handled elsewhere, a negated boolean, or a declared parameter. */
  ghost predicate IsExpectedFlag(op: Operation, name: string, bare: bool) {
    && (forall c | c in name :: !('A' <= c <= 'Z'))
    && (|| name == "json" || name == "dry-run" || name == "source"
        || (bare && (name == "explain" || name == "help"))
        || (exists m :: name == "no-" + m && DeclaredBoolean(op, KeyOf(m)))
        || KeyOf(name) in op.params)
  }

  lemma FlagIsShaped(name: string, raw: string)
    requires IsFlagName(name)
    ensures FlagShape("--" + name) == Some((name, None))
    ensures (forall c | c in raw :: !IsLineTerminator(c)) ==>
      FlagShape("--" + (name + ("=" + raw))) == Some((name, Some(raw)))
  {
    hide IndexOf;
    assert '=' !in name;
    NameOf(name);
    assert '=' !in "--" + name && IndexOf("--" + name, '=') < 0;
    SplitsAt(name, raw);
    assert "--" <= "--" + (name + ("=" + raw));
    assert forall c | c in name :: IsNameChar(c);
  }

  lemma NegationExpected(op: Operation, name: string)
    ensures "no-" <= name && IsBoolean(op, Underscored(name[3..])) <==>
      exists m :: name == "no-" + m && DeclaredBoolean(op, KeyOf(m))
  {
    hide Underscored, KeyOf;
    if "no-" <= name {
      UnderscoredIsKey(name[3..]);
      assert name == "no-" + name[3..];
    }
    assert forall m | name == "no-" + m :: m == name[3..];
  }

  lemma InspectsFlag(op: Operation, arg: string, name: string, inline: Option<string>, next: Option<string>)
    requires arg != "--" && FlagShape(arg) == Some((name, inline))
    ensures Inspect(op, arg, next).Unknown? <==> !IsExpectedFlag(op, name, inline.None?)
    ensures Inspect(op, arg, next).Unknown? ==> Inspect(op, arg, next) == Unknown("--" + name)
  {
    NegationExpected(op, name);
    UnderscoredIsKey(name);
    hide FlagShape, Underscored, KeyOf;
  }

  /** A flag is reported, by its name, exactly when it is not expected. */
  lemma ReportedExactly(op: Operation, name: string, raw: string, next: Option<string>)
    requires IsFlagName(name) && forall c | c in raw :: !IsLineTerminator(c)
    ensures Inspect(op, "--" + name, next) == Unknown("--" + name) <==> !IsExpectedFlag(op, name, true)
    ensures Inspect(op, "--" + (name + ("=" + raw)), next) == Unknown("--" + name) <==> !IsExpectedFlag(op, name, false)
  {
    FlagIsShaped(name, raw);
    assert ("--" + name)[2..] == name && ("--" + (name + ("=" + raw)))[2] == name[0];
    hide Inspect, FlagShape, IsExpectedFlag, IsFlagName;
    InspectsFlag(op, "--" + name, name, None, next);
    InspectsFlag(op, "--" + (name + ("=" + raw)), name, Some(raw), next);
  }

  /** Other tokens never are. */
  lemma OthersNeverReported(op: Operation, arg: string, next: Option<string>) returns (name: string, raw: string)
    requires Inspect(op, arg, next).Unknown?
    ensures IsFlagName(name) && (arg == "--" + name || arg == "--" + (name + ("=" + raw)))
  {
    var shape := FlagShape(arg).value;
    name, raw := shape.0, if shape.1.None? then "" else shape.1.value;
    NameChars(arg);
    hide IndexOf;
    var eq := IndexOf(arg, '=');
    if eq >= 0 {
      assert arg == arg[..2] + (arg[2..eq] + ([arg[eq]] + arg[eq + 1..]));
      assert arg[..2] == "--";
    } else {
      assert arg == "--" + arg[2..];
    }
  }

  lemma NameChars(arg: string)
    requires FlagShape(arg).Some?
    ensures IsFlagName(FlagShape(arg).value.0)
  {
    hide IndexOf;
    var name := FlagShape(arg).value.0;
    forall c | c in name ensures IsNameChar(c) {
    }
  }

  /** A rehearsal is one: a bare `--dry-run` at the end sets the switch, whatever comes before it. */
  lemma DryRunIsSet(op: Operation, settings: seq<Setting>)
    requires WellWritten(op, settings + [On("dry-run")])
    ensures var params := ParseFrom(op, AllTokens(settings + [On("dry-run")]), 0, 0, map[]);
      "dry_run" in params && params["dry_run"] == Flag(true)
  {
    SettingsAreParsed(op, settings + [On("dry-run")]);
    LastSwitchSet(op, settings, "dry-run", 0, map[]);
    assert KeyOf("dry-run") == "dry_run";
  }

  lemma {:induction false} LastSwitchSet(op: Operation, settings: seq<Setting>, name: string, posIdx: nat, params: map<string, Value>)
    ensures var m := Meaning(op, settings + [On(name)], posIdx, params); KeyOf(name) in m && m[KeyOf(name)] == Flag(true)
    decreases |settings|
  {
    hide KeyOf, TakesNoValue, ByType;
    var all := settings + [On(name)];
    if settings == [] {
      assert all[1..] == [];
    } else {
      assert all[1..] == settings[1..] + [On(name)] && all[0] == settings[0];
      var rest := settings[1..];
      forall p: nat, ps ensures var m := Meaning(op, rest + [On(name)], p, ps); KeyOf(name) in m && m[KeyOf(name)] == Flag(true) {
        LastSwitchSet(op, rest, name, p, ps);
      }
    }
  }
}
