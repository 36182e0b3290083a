/** src/commands/agent.ts: the arguments of `agent run`, split into settings and a prompt. */
module RunFlags {
  import opened Results
  import opened Text

  datatype Name =
    | SubagentDef | Model | MaxTurns | Tools | TimeoutMs | Source | FanoutManifest
    | Follow | NoFollow | Detach

  function Spelling(n: Name): string {
    match n
    case SubagentDef => "--subagent-def"
    case Model => "--model"
    case MaxTurns => "--max-turns"
    case Tools => "--tools"
    case TimeoutMs => "--timeout-ms"
    case Source => "--source"
    case FanoutManifest => "--fanout-manifest"
    case Follow => "--follow"
    case NoFollow => "--no-follow"
    case Detach => "--detach"
  }

  function Named(a: string): (r: Option<Name>)
    ensures r.Some? ==> Spelling(r.value) == a
  {
    if a == "--subagent-def" then Some(SubagentDef)
    else if a == "--model" then Some(Model)
    else if a == "--max-turns" then Some(MaxTurns)
    else if a == "--tools" then Some(Tools)
    else if a == "--timeout-ms" then Some(TimeoutMs)
    else if a == "--source" then Some(Source)
    else if a == "--fanout-manifest" then Some(FanoutManifest)
    else if a == "--follow" then Some(Follow)
    else if a == "--no-follow" then Some(NoFollow)
    else if a == "--detach" then Some(Detach)
    else None
  }

  lemma NamedSpelling(n: Name)
    ensures Named(Spelling(n)) == Some(n) && "--" < Spelling(n)
  {
  }

  predicate IsSwitch(n: Name) { n == Follow || n == NoFollow || n == Detach }

  predicate IsNumeric(n: Name) { n == MaxTurns || n == TimeoutMs }

  predicate IsSwitchToken(a: string) {
    Named(a).Some? && IsSwitch(Named(a).value)
  }

  datatype Flags = Flags(
    subagentDef: Option<string>, model: Option<string>, maxTurns: Option<int>, tools: Option<seq<string>>,
    timeoutMs: Option<int>, source: Option<string>, fanoutManifest: Option<string>, follow: bool, detach: bool)

  datatype UsageError = MissingValue(name: Name) | NotANumber(name: Name, text: string)

  /** `parseInt(v, 10)`: white space, a sign, and the digits the rest begins with. */
  function ParseInt(v: string): Option<int> {
    var t := TrimStart(v);
    var signed := t != [] && (t[0] == '-' || t[0] == '+');
    var u := if signed then t[1..] else t;
    var k := DigitRun(u);
    if k == 0 then None
    else
      var value: int := NatValue(u[..k]);
      Some(if signed && t[0] == '-' then -value else value)
  }

  function ToolList(v: string): seq<string> {
    NonEmptyTrimmed(Split(v, ','))
  }

  // ----- settings -----

  /** One flag of the leading zone with its value, if it takes one. */
  datatype Setting = Valued(name: Name, text: string) | Switch(name: Name)

  /** A value that cannot be taken for a flag, and is a number where one is needed. */
  predicate GoodValue(n: Name, v: string) {
    !("--" <= v) && (IsNumeric(n) ==> ParseInt(v).Some?)
  }

  predicate GoodSetting(s: Setting) {
    match s
    case Valued(n, v) => !IsSwitch(n) && GoodValue(n, v)
    case Switch(n) => IsSwitch(n)
  }

  function Tokens(s: Setting): seq<string> {
    match s
    case Valued(n, v) => [Spelling(n), v]
    case Switch(n) => [Spelling(n)]
  }

  function AllTokens(settings: seq<Setting>): seq<string> {
    if settings == [] then [] else Tokens(settings[0]) + AllTokens(settings[1..])
  }

  /** `applyBooleanFlag`. */
  function ApplySwitch(f: Flags, n: Name): Flags
    requires IsSwitch(n)
  {
    if n == Follow then f.(follow := true)
    else if n == NoFollow then f.(follow := false)
    else f.(detach := true, follow := false)
  }

  function ApplyValue(f: Flags, n: Name, v: string): Flags
    requires !IsSwitch(n) && GoodValue(n, v)
  {
    match n
    case SubagentDef => f.(subagentDef := Some(v))
    case Model => f.(model := Some(v))
    case MaxTurns => f.(maxTurns := Some(ParseInt(v).value))
    case Tools => f.(tools := Some(ToolList(v)))
    case TimeoutMs => f.(timeoutMs := Some(ParseInt(v).value))
    case Source => f.(source := Some(v))
    case FanoutManifest => f.(fanoutManifest := Some(v))
  }

  function Apply(f: Flags, s: Setting): Flags
    requires GoodSetting(s)
  {
    match s
    case Valued(n, v) => ApplyValue(f, n, v)
    case Switch(n) => ApplySwitch(f, n)
  }

  function ApplyAll(f: Flags, settings: seq<Setting>): Flags
    requires forall s | s in settings :: GoodSetting(s)
    decreases |settings|
  {
    if settings == [] then f else ApplyAll(Apply(f, settings[0]), settings[1..])
  }

  function ApplyToken(f: Flags, a: string): Flags
    requires IsSwitchToken(a)
  {
    ApplySwitch(f, Named(a).value)
  }

  /** The switches after the prompt, taken from the right. */
  function ApplyBackward(f: Flags, hoisted: seq<string>): Flags
    requires forall a | a in hoisted :: IsSwitchToken(a)
    decreases |hoisted|
  {
    if hoisted == [] then f else
      var last := |hoisted| - 1;
      ApplyBackward(ApplyToken(f, hoisted[last]), hoisted[..last])
  }

  // ----- what an argument list means -----

  /** The four parts of an argument list: leading settings, an escape, the prompt, trailing switches. */
  datatype Parts = Parts(settings: seq<Setting>, escaped: bool, prompt: seq<string>, hoisted: seq<string>)

  function Written(p: Parts): seq<string> {
    AllTokens(p.settings) + ((if p.escaped then ["--"] else []) + (p.prompt + p.hoisted))
  }

  /** A token that ends the leading zone: anything but a known flag or the escape. */
  predicate EndsZone(a: string) {
    a != "--" && Named(a).None?
  }

  /** Parts as the parser splits them. */
  predicate WellFormed(p: Parts) {
    && (forall s | s in p.settings :: GoodSetting(s))
    && (forall a | a in p.hoisted :: IsSwitchToken(a))
    && (p.escaped ==> p.hoisted == [])
    && (!p.escaped ==>
      && (p.prompt != [] ==> EndsZone(p.prompt[0]))
      && (p.prompt == [] ==> p.hoisted == [])
      && ("--" in p.prompt ==> p.hoisted == [])
      && ("--" !in p.prompt && p.prompt != [] ==> !IsSwitchToken(p.prompt[|p.prompt| - 1])))
  }

  function Meaning(start: Flags, p: Parts): Flags
    requires WellFormed(p)
  {
    ApplyBackward(ApplyAll(start, p.settings), p.hoisted)
  }

  // ----- the parser -----

  datatype Zone = Zone(flags: Flags, escaped: bool, rest: seq<string>)

  /** Reading the leading zone from its first token. */
  function ReadZone(f: Flags, args: seq<string>): Result<Zone, UsageError>
    decreases |args|
  {
    if args == [] then Ok(Zone(f, false, []))
    else if args[0] == "--" then Ok(Zone(f, true, args[1..]))
    else
      match Named(args[0])
      case None => Ok(Zone(f, false, args))
      case Some(n) =>
        if IsSwitch(n) then ReadZone(ApplySwitch(f, n), args[1..])
        else if |args| == 1 || "--" <= args[1] then Err(MissingValue(n))
        else if !GoodValue(n, args[1]) then Err(NotANumber(n, args[1]))
        else ReadZone(ApplyValue(f, n, args[1]), args[2..])
  }

  /** Popping trailing switches off the prompt. */
  function Hoist(f: Flags, rest: seq<string>): (Flags, seq<string>)
    decreases |rest|
  {
    if rest != [] && IsSwitchToken(rest[|rest| - 1]) then
      Hoist(ApplyToken(f, rest[|rest| - 1]), rest[..|rest| - 1])
    else (f, rest)
  }

  function Parse(start: Flags, args: seq<string>): Result<(Flags, seq<string>), UsageError> {
    match ReadZone(start, args)
    case Err(e) => Err(e)
    case Ok(z) => Ok(if z.escaped || "--" in z.rest then (z.flags, z.rest) else Hoist(z.flags, z.rest))
  }

  /** The flags of a run with no arguments. */
  function Defaults(tty: bool): Flags {
    Flags(None, None, None, None, None, None, None, tty, false)
  }

  /** `parseRunFlags`. */
  method ParseRunFlags(args: seq<string>, tty: bool) returns (result: Result<(Flags, seq<string>), UsageError>)
    ensures result == Parse(Defaults(tty), args)
  {
    hide Named, ApplyValue, GoodValue, Hoist;
    var flags := Defaults(tty);
    var i, escaped := 0, false;
    ghost var whole := ReadZone(flags, args);
    assert args[0..] == args;
    while i < |args|
      invariant 0 <= i <= |args| && !escaped
      invariant whole == ReadZone(flags, args[i..])
    {
      var a := args[i];
      ReadZoneStep(flags, args, i);
      if a == "--" {
        i, escaped := i + 1, true;
        break;
      }
      var name := Named(a);
      if name.None? {
        break;
      }
      var n := name.value;
      if IsSwitch(n) {
        flags := ApplySwitch(flags, n);
      } else {
        i := i + 1;
        if i == |args| || "--" <= args[i] {
          return Err(MissingValue(n));
        }
        if !GoodValue(n, args[i]) {
          return Err(NotANumber(n, args[i]));
        }
        flags := ApplyValue(flags, n, args[i]);
      }
      i := i + 1;
    }
    var rest := args[i..];
    assert whole == Ok(Zone(flags, escaped, rest));
    if !escaped && "--" !in rest {
      ghost var hoisted := Hoist(flags, rest);
      while rest != [] && IsSwitchToken(rest[|rest| - 1])
        invariant Hoist(flags, rest) == hoisted
        decreases |rest|
      {
        HoistStep(flags, rest);
        flags := ApplyToken(flags, rest[|rest| - 1]);
        rest := rest[..|rest| - 1];
      }
      HoistStep(flags, rest);
    }
    result := Ok((flags, rest));
  }

  lemma HoistStep(f: Flags, rest: seq<string>)
    ensures Hoist(f, rest) ==
      if rest != [] && IsSwitchToken(rest[|rest| - 1]) then
        Hoist(ApplyToken(f, rest[|rest| - 1]), rest[..|rest| - 1])
      else (f, rest)
  {
  }

  lemma ReadZoneStep(f: Flags, args: seq<string>, i: nat)
    requires i < |args|
    ensures ReadZone(f, args[i..]) ==
      if args[i] == "--" then Ok(Zone(f, true, args[i + 1..])) else
        match Named(args[i])
        case None => Ok(Zone(f, false, args[i..]))
        case Some(n) =>
          if IsSwitch(n) then ReadZone(ApplySwitch(f, n), args[i + 1..])
          else if i + 1 == |args| || "--" <= args[i + 1] then Err(MissingValue(n))
          else if !GoodValue(n, args[i + 1]) then Err(NotANumber(n, args[i + 1]))
          else ReadZone(ApplyValue(f, n, args[i + 1]), args[i + 2..])
  {
  }

  // ----- completeness: well-formed parts are parsed to their meaning -----

  lemma {:induction false} ReadZoneOfSettings(f: Flags, settings: seq<Setting>, tail: seq<string>)
    requires forall s | s in settings :: GoodSetting(s)
    ensures ReadZone(f, AllTokens(settings) + tail) == ReadZone(ApplyAll(f, settings), tail)
    decreases |settings|
  {
    hide Named, ApplyValue, GoodValue, Spelling;
    if settings == [] {
      assert AllTokens(settings) + tail == tail;
    } else {
      var s := settings[0];
      var more := AllTokens(settings[1..]) + tail;
      assert AllTokens(settings) + tail == Tokens(s) + more;
      ReadZoneOfSetting(f, s, more);
      ReadZoneOfSettings(Apply(f, s), settings[1..], tail);
    }
  }

  lemma ReadZoneOfSetting(f: Flags, s: Setting, more: seq<string>)
    requires GoodSetting(s)
    ensures ReadZone(f, Tokens(s) + more) == ReadZone(Apply(f, s), more)
  {
    NamedSpelling(s.name);
    hide Named, ApplyValue, Spelling, ParseInt;
    var args := Tokens(s) + more;
    assert args[0..] == args;
    ReadZoneStep(f, args, 0);
    assert args[|Tokens(s)|..] == more;
  }

  lemma {:induction false} HoistAll(f: Flags, prompt: seq<string>, hoisted: seq<string>)
    requires forall a | a in hoisted :: IsSwitchToken(a)
    requires prompt != [] ==> !IsSwitchToken(prompt[|prompt| - 1])
    ensures Hoist(f, prompt + hoisted) == (ApplyBackward(f, hoisted), prompt)
    decreases |hoisted|
  {
    hide IsSwitchToken;
    if hoisted == [] {
      assert prompt + hoisted == prompt;
    } else {
      var last := |hoisted| - 1;
      assert (prompt + hoisted)[..|prompt| + last] == prompt + hoisted[..last];
      HoistAll(ApplyToken(f, hoisted[last]), prompt, hoisted[..last]);
    }
  }

  lemma ZoneOfEscaped(f: Flags, prompt: seq<string>)
    ensures ReadZone(f, ["--"] + prompt) == Ok(Zone(f, true, prompt))
  {
    hide Named;
    assert (["--"] + prompt)[1..] == prompt;
  }

  lemma ZoneOfPrompt(f: Flags, body: seq<string>)
    requires body != [] ==> EndsZone(body[0])
    ensures ReadZone(f, body) == Ok(Zone(f, false, body))
  {
    hide Named;
  }

  lemma PromptBegins(p: Parts)
    requires WellFormed(p) && !p.escaped
    ensures p.prompt + p.hoisted != [] ==> EndsZone((p.prompt + p.hoisted)[0])
    ensures "--" in p.prompt + p.hoisted <==> "--" in p.prompt
    ensures "--" in p.prompt ==> p.prompt + p.hoisted == p.prompt && p.hoisted == []
  {
    hide Named, GoodSetting;
    SwitchesAreNotEscapes(p.hoisted);
  }

  /** Every argument list written from well-formed parts is parsed to exactly their meaning. */
  lemma WrittenIsParsed(start: Flags, p: Parts)
    requires WellFormed(p)
    ensures Parse(start, Written(p)) == Ok((Meaning(start, p), p.prompt))
  {
    hide ApplyAll, AllTokens, ApplyBackward, Hoist, GoodSetting, ReadZone, EndsZone, IsSwitchToken;
    var f := ApplyAll(start, p.settings);
    NothingHoisted(f);
    var body := p.prompt + p.hoisted;
    if p.escaped {
      assert body == p.prompt;
      ReadZoneOfSettings(start, p.settings, ["--"] + body);
      ZoneOfEscaped(f, body);
    } else {
      assert [] + body == body;
      ReadZoneOfSettings(start, p.settings, body);
      PromptBegins(p);
      ZoneOfPrompt(f, body);
      if "--" !in p.prompt {
        HoistAll(f, p.prompt, p.hoisted);
      }
    }
  }

  lemma SwitchesAreNotEscapes(hoisted: seq<string>)
    requires forall a | a in hoisted :: IsSwitchToken(a)
    ensures "--" !in hoisted
  {
  }

  // ----- soundness: whatever parses was written from well-formed parts -----

  function Unread(z: Zone): seq<string> {
    (if z.escaped then ["--"] else []) + z.rest
  }

  /** The first setting of an argument list that begins with one. */
  lemma {:induction false} FirstSetting(f: Flags, args: seq<string>) returns (s: Setting, more: seq<string>)
    requires ReadZone(f, args).Ok? && StartsWithSetting(args)
    ensures GoodSetting(s) && args == Tokens(s) + more && |more| < |args|
    ensures ReadZone(f, args) == ReadZone(Apply(f, s), more)
  {
    hide Named, ApplyValue, Spelling, ParseInt;
    var n := Named(args[0]).value;
    s := if IsSwitch(n) then Switch(n) else Valued(n, args[1]);
    more := args[|Tokens(s)|..];
    ReadZoneOfSetting(f, s, more);
  }

  lemma NoSettings(f: Flags)
    ensures AllTokens([]) == [] && ApplyAll(f, []) == f
  {
  }

  lemma MoreSettings(f: Flags, s: Setting, more: seq<Setting>)
    requires GoodSetting(s) && forall t | t in more :: GoodSetting(t)
    ensures AllTokens([s] + more) == Tokens(s) + AllTokens(more)
    ensures ApplyAll(f, [s] + more) == ApplyAll(Apply(f, s), more)
  {
  }

  predicate StartsWithSetting(args: seq<string>) {
    args != [] && args[0] != "--" && Named(args[0]).Some?
  }

  lemma ZoneEnds(f: Flags, args: seq<string>)
    requires !StartsWithSetting(args)
    ensures ReadZone(f, args).Ok?
    ensures var z := ReadZone(f, args).value;
      z.flags == f && args == Unread(z) && (!z.escaped && z.rest != [] ==> EndsZone(z.rest[0]))
  {
  }

  /** The settings of an argument list whose leading zone the parser accepts. */
  lemma {:induction false} SplitZone(f: Flags, args: seq<string>) returns (settings: seq<Setting>)
    requires ReadZone(f, args).Ok?
    ensures forall s | s in settings :: GoodSetting(s)
    ensures var z := ReadZone(f, args).value;
      && z.flags == ApplyAll(f, settings)
      && args == AllTokens(settings) + Unread(z)
      && (!z.escaped && z.rest != [] ==> EndsZone(z.rest[0]))
    decreases |args|
  {
    hide Named, Spelling, GoodSetting, Apply, Tokens, ApplyAll, AllTokens, ReadZone, EndsZone, Unread;
    settings := [];
    if StartsWithSetting(args) {
      var s, tail := FirstSetting(f, args);
      var more := SplitZone(Apply(f, s), tail);
      settings := [s] + more;
      MoreSettings(f, s, more);
    } else {
      NoSettings(f);
      ZoneEnds(f, args);
    }
  }

  lemma {:induction false} SplitHoisted(f: Flags, rest: seq<string>) returns (hoisted: seq<string>)
    ensures forall a | a in hoisted :: IsSwitchToken(a)
    ensures var (g, prompt) := Hoist(f, rest);
      && g == ApplyBackward(f, hoisted) && rest == prompt + hoisted
      && (prompt != [] ==> !IsSwitchToken(prompt[|prompt| - 1]))
    decreases |rest|
  {
    NothingHoisted(f);
    HoistStep(f, rest);
    hide IsSwitchToken, Hoist, ApplyToken;
    hoisted := [];
    var last := |rest| - 1;
    if rest != [] && IsSwitchToken(rest[last]) {
      var front := SplitHoisted(ApplyToken(f, rest[last]), rest[..last]);
      hoisted := front + [rest[last]];
      assert hoisted[..|front|] == front;
    }
  }

  /** Nothing is lost or invented: an accepted list is its settings, escape, prompt and trailing switches, in order. */
  lemma ParsedIsWritten(start: Flags, args: seq<string>) returns (p: Parts)
    requires Parse(start, args).Ok?
    ensures WellFormed(p) && Written(p) == args
    ensures Parse(start, args) == Ok((Meaning(start, p), p.prompt))
  {
    hide Named, GoodSetting, ReadZone, Hoist, ApplyAll, ApplyBackward, AllTokens;
    var settings := SplitZone(start, args);
    var z := ReadZone(start, args).value;
    if z.escaped || "--" in z.rest {
      p := Parts(settings, z.escaped, z.rest, []);
      assert z.rest + [] == z.rest;
      NothingHoisted(z.flags);
    } else {
      var hoisted := SplitHoisted(z.flags, z.rest);
      var prompt := Hoist(z.flags, z.rest).1;
      p := Parts(settings, false, prompt, hoisted);
      assert [] + z.rest == z.rest;
      assert prompt == [] ==> z.rest == hoisted;
      assert hoisted != [] ==> IsSwitchToken(hoisted[0]);
      assert prompt != [] ==> z.rest[0] == prompt[0];
      assert "--" in prompt ==> "--" in z.rest;
    }
  }

  lemma NothingHoisted(f: Flags)
    ensures ApplyBackward(f, []) == f
  {
  }

  /** `parseRunFlags` accepts exactly the lists that can be written from well-formed parts. */
  lemma AcceptsExactly(start: Flags, args: seq<string>)
    ensures Parse(start, args).Ok? <==> exists p :: WellFormed(p) && Written(p) == args
  {
    if Parse(start, args).Ok? {
      var p := ParsedIsWritten(start, args);
    } else if p :| WellFormed(p) && Written(p) == args {
      WrittenIsParsed(start, p);
    }
  }

  /** A list is refused exactly when, after good settings, a flag's value is missing, looks like a flag, or is no number. */
  lemma RefusesExactly(start: Flags, args: seq<string>, e: UsageError)
    ensures Parse(start, args) == Err(e) <==>
      exists settings, n, tail :: RefusedAt(settings, n, tail, args) && e == Complaint(n, tail)
  {
    if Parse(start, args) == Err(e) {
      var settings, n, tail := Refusal(start, args);
      RefusedIsErr(start, settings, n, tail, args);
    } else if settings, n, tail :| RefusedAt(settings, n, tail, args) && e == Complaint(n, tail) {
      RefusedIsErr(start, settings, n, tail, args);
    }
  }

  function Complaint(n: Name, tail: seq<string>): UsageError {
    if tail == [] || "--" <= tail[0] then MissingValue(n) else NotANumber(n, tail[0])
  }

  lemma RefusedIsErr(start: Flags, settings: seq<Setting>, n: Name, tail: seq<string>, args: seq<string>)
    requires RefusedAt(settings, n, tail, args)
    ensures Parse(start, args) == Err(Complaint(n, tail))
  {
    var rest := [Spelling(n)] + tail;
    ReadZoneOfSettings(start, settings, rest);
    NamedSpelling(n);
    assert rest[0..] == rest;
    ReadZoneStep(ApplyAll(start, settings), rest, 0);
  }

  ghost predicate RefusedAt(settings: seq<Setting>, n: Name, tail: seq<string>, args: seq<string>) {
    && (forall s | s in settings :: GoodSetting(s))
    && !IsSwitch(n) && args == AllTokens(settings) + ([Spelling(n)] + tail)
    && (tail == [] || !GoodValue(n, tail[0]))
  }

  lemma {:induction false} Refusal(f: Flags, args: seq<string>) returns (settings: seq<Setting>, n: Name, tail: seq<string>)
    requires ReadZone(f, args).Err?
    ensures RefusedAt(settings, n, tail, args)
    decreases |args|
  {
    hide Named, ApplyValue, Spelling, ParseInt;
    n := Named(args[0]).value;
    if IsSwitch(n) || (|args| > 1 && GoodValue(n, args[1])) {
      var s := if IsSwitch(n) then Switch(n) else Valued(n, args[1]);
      var k := |Tokens(s)|;
      assert args == Tokens(s) + args[k..];
      var more;
      more, n, tail := Refusal(Apply(f, s), args[k..]);
      settings := [s] + more;
      assert settings[1..] == more;
      assert AllTokens(settings) + ([Spelling(n)] + tail) == Tokens(s) + (AllTokens(more) + ([Spelling(n)] + tail));
    } else {
      settings, tail := [], args[1..];
      assert args == AllTokens([]) + ([Spelling(n)] + tail);
    }
  }

  // ----- the prompt after an escape, and which switch wins -----

  /** After an explicit `--` the prompt is verbatim, whatever it holds. */
  lemma EscapedPromptIsVerbatim(start: Flags, settings: seq<Setting>, prompt: seq<string>)
    requires forall s | s in settings :: GoodSetting(s)
    ensures Parse(start, AllTokens(settings) + (["--"] + prompt)) == Ok((ApplyAll(start, settings), prompt))
  {
    var p := Parts(settings, true, prompt, []);
    assert WellFormed(p);
    assert prompt + [] == prompt;
    WrittenIsParsed(start, p);
  }

  /** Among trailing switches the leftmost decides whether to follow; any `--detach` detaches. */
  lemma {:induction false} LeftmostTrailingSwitchWins(f: Flags, hoisted: seq<string>)
    requires hoisted != [] && forall a | a in hoisted :: IsSwitchToken(a)
    ensures var g := ApplyBackward(f, hoisted);
      && g.follow == (Named(hoisted[0]) == Some(Follow))
      && g.detach == (f.detach || exists a | a in hoisted :: Named(a) == Some(Detach))
    decreases |hoisted|
  {
    hide Named;
    var last := |hoisted| - 1;
    assert hoisted == hoisted[..last] + [hoisted[last]];
    if last > 0 {
      LeftmostTrailingSwitchWins(ApplyToken(f, hoisted[last]), hoisted[..last]);
    }
  }

  /** Among leading switches the rightmost decides: the two zones read one list of switches in opposite ways. */
  lemma {:induction false} RightmostLeadingSwitchWins(f: Flags, settings: seq<Setting>)
    requires settings != [] && forall s | s in settings :: s.Switch? && IsSwitch(s.name)
    ensures var g := ApplyAll(f, settings);
      && g.follow == (settings[|settings| - 1].name == Follow)
      && g.detach == (f.detach || exists s | s in settings :: s.name == Detach)
    decreases |settings|
  {
    if |settings| > 1 {
      assert settings == [settings[0]] + settings[1..];
      RightmostLeadingSwitchWins(Apply(f, settings[0]), settings[1..]);
    }
  }

  // ----- what each flag means -----

  lemma SettingIsParsed(start: Flags, s: Setting, rest: seq<string>)
    requires GoodSetting(s)
    ensures Parse(start, Tokens(s) + rest) == Parse(Apply(start, s), rest)
  {
    ReadZoneOfSetting(start, s, rest);
    hide ReadZone, Hoist, Tokens, Apply;
  }

  /** A flag that takes a value fills its own field, and no other. */
  lemma ValuesFill(start: Flags, v: string, rest: seq<string>)
    requires !("--" <= v)
    ensures Parse(start, ["--subagent-def", v] + rest) == Parse(start.(subagentDef := Some(v)), rest)
    ensures Parse(start, ["--model", v] + rest) == Parse(start.(model := Some(v)), rest)
    ensures Parse(start, ["--source", v] + rest) == Parse(start.(source := Some(v)), rest)
    ensures Parse(start, ["--fanout-manifest", v] + rest) == Parse(start.(fanoutManifest := Some(v)), rest)
    ensures Parse(start, ["--tools", v] + rest) == Parse(start.(tools := Some(NonEmptyTrimmed(Split(v, ',')))), rest)
  {
    hide Parse, ParseInt, NonEmptyTrimmed, Split;
    SettingIsParsed(start, Valued(SubagentDef, v), rest);
    SettingIsParsed(start, Valued(Model, v), rest);
    SettingIsParsed(start, Valued(Source, v), rest);
    SettingIsParsed(start, Valued(FanoutManifest, v), rest);
    SettingIsParsed(start, Valued(Tools, v), rest);
  }

  lemma NumbersFill(start: Flags, v: string, n: int, rest: seq<string>)
    requires !("--" <= v) && ParseInt(v) == Some(n)
    ensures Parse(start, ["--max-turns", v] + rest) == Parse(start.(maxTurns := Some(n)), rest)
    ensures Parse(start, ["--timeout-ms", v] + rest) == Parse(start.(timeoutMs := Some(n)), rest)
  {
    hide Parse, ParseInt;
    SettingIsParsed(start, Valued(MaxTurns, v), rest);
    SettingIsParsed(start, Valued(TimeoutMs, v), rest);
  }

  lemma SwitchesSet(start: Flags, rest: seq<string>)
    ensures Parse(start, ["--follow"] + rest) == Parse(start.(follow := true), rest)
    ensures Parse(start, ["--no-follow"] + rest) == Parse(start.(follow := false), rest)
    ensures Parse(start, ["--detach"] + rest) == Parse(start.(detach := true, follow := false), rest)
    ensures Parse(start, ["--"] + rest) == Ok((start, rest))
  {
    EscapeEnds(start, rest);
    hide Parse;
    SettingIsParsed(start, Switch(Follow), rest);
    SettingIsParsed(start, Switch(NoFollow), rest);
    SettingIsParsed(start, Switch(Detach), rest);
  }

  lemma EscapeEnds(start: Flags, rest: seq<string>)
    ensures Parse(start, ["--"] + rest) == Ok((start, rest))
  {
    EscapedPromptIsVerbatim(start, [], rest);
    hide Parse;
    assert AllTokens([]) + (["--"] + rest) == ["--"] + rest;
  }

  /** A number that is asked for and not given is refused, whichever flag asks. */
  lemma NoNumberIsRefused(start: Flags, v: string, rest: seq<string>)
    requires !("--" <= v) && ParseInt(v) == None
    ensures Parse(start, ["--max-turns", v] + rest) == Err(NotANumber(MaxTurns, v))
    ensures Parse(start, ["--timeout-ms", v] + rest) == Err(NotANumber(TimeoutMs, v))
  {
    hide ParseInt;
    assert AllTokens([]) == [];
    assert [] + (["--max-turns"] + ([v] + rest)) == ["--max-turns", v] + rest;
    assert [] + (["--timeout-ms"] + ([v] + rest)) == ["--timeout-ms", v] + rest;
    RefusedIsErr(start, [], MaxTurns, [v] + rest, ["--max-turns", v] + rest);
    RefusedIsErr(start, [], TimeoutMs, [v] + rest, ["--timeout-ms", v] + rest);
  }

  lemma DigitsAreRead(m: nat, suffix: string)
    requires suffix == "" || !IsDigit(suffix[0])
    ensures var s := DecNat(m) + suffix;
      s != "" && IsDigit(s[0]) && DigitRun(s) == |DecNat(m)| > 0 && NatValue(s[..DigitRun(s)]) == m
  {
    hide NatValue, DecNat, DigitRun;
    var digits := DecNat(m);
    NatValueOfDec(m);
    DigitRunOf(digits, suffix);
    assert (digits + suffix)[..|digits|] == digits;
    assert digits[0] in digits && IsDigit(digits[0]);
  }

  lemma TrimStartKeeps(s: string)
    requires s != "" && !IsSpace(s[0])
    ensures TrimStart(s) == s == TrimStart(" " + s)
  {
    assert (" " + s)[1..] == s;
  }

  lemma SignedIsRead(sign: string, m: nat, suffix: string)
    requires suffix == "" || !IsDigit(suffix[0])
    requires sign == "" || sign == "+" || sign == "-"
    ensures var k: int := m; var n := if sign == "-" then -k else k;
      ParseInt(sign + (DecNat(m) + suffix)) == Some(n) == ParseInt(" " + (sign + (DecNat(m) + suffix)))
  {
    hide NatValue, DecNat, DigitRun, TrimStart;
    var s := DecNat(m) + suffix;
    DigitsAreRead(m, suffix);
    assert (sign + s)[0] == if sign == "" then s[0] else sign[0];
    TrimStartKeeps(sign + s);
    assert sign != "" ==> (sign + s)[1..] == s;
    assert "" + s == s;
  }

  /** A numeral is read up to its last digit, a leading blank or plus sign skipped. */
  lemma NumeralsAreRead(n: int, suffix: string)
    requires suffix == "" || !IsDigit(suffix[0])
    ensures ParseInt(Dec(n) + suffix) == Some(n) == ParseInt(" " + (Dec(n) + suffix))
    ensures n >= 0 ==> ParseInt("+" + (Dec(n) + suffix)) == Some(n)
  {
    hide ParseInt, DecNat;
    var m: nat := if n < 0 then -n else n;
    if n < 0 {
      SignedIsRead("-", m, suffix);
      assert Dec(n) + suffix == "-" + (DecNat(m) + suffix);
    } else {
      SignedIsRead("", m, suffix);
      SignedIsRead("+", m, suffix);
      assert "" + (Dec(n) + suffix) == Dec(n) + suffix;
    }
  }

  /** And only a text with a digit there is a number. */
  lemma NumbersHaveDigits(v: string)
    ensures ParseInt(v).Some? <==>
      var t := TrimStart(v);
      var u := if t != "" && (t[0] == '-' || t[0] == '+') then t[1..] else t;
      u != "" && '0' <= u[0] <= '9'
  {
  }
}
