/** scripts/merge-lcov.ts: the lcov text format, read by `parseLcovText` and printed by `emitLcov`. */
module LcovText {
  import opened Folding
  import opened Results
  import opened Text
  import opened Lcov

  /** JavaScript's `Number(s)`, `None` standing for NaN and the infinities. */
  type Number = string -> Option<int>

  // ----- reading -----

  datatype ParseState = Reading(records: seq<Record>, current: Option<Record>) | Malformed

  const START := Reading([], None)

  /** A raw line without its carriage return. */
  function StripCr(raw: string): string {
    if raw != [] && raw[|raw| - 1] == '\r' then raw[..|raw| - 1] else raw
  }

  /** Reads `number,rest`; without a comma, all of it as the number and an empty rest. */
  function NumberAndName(number: Number, rest: string): Option<(string, int)> {
    var comma := IndexOf(rest, ',');
    match number(if comma < 0 then rest else rest[..comma])
    case None => None
    case Some(n) => Some((if comma < 0 then "" else rest[comma + 1..], n))
  }

  /** Reads `line,hits`, ignoring any further field. */
  function LineAndHits(number: Number, rest: string): Option<(int, int)> {
    var parts := Split(rest, ',');
    if |parts| < 2 then None else
      match (number(parts[0]), number(parts[1]))
      case (Some(line), Some(hits)) => Some((line, hits))
      case _ => None
  }

  predicate IsRecomputed(kind: string) {
    kind == "TN" || kind == "FNF" || kind == "FNH" || kind == "LF" || kind == "LH"
  }

  function ParseField(number: Number, records: seq<Record>, current: Option<Record>, kind: string, rest: string): ParseState {
    if kind == "SF" then
      if current.Some? || Trim(rest) == "" then Malformed
      else Reading(records, Some(Record(Trim(rest), [], [], [])))
    else if IsRecomputed(kind) then Reading(records, current)
    else if kind == "DA" then
      if current.None? then Malformed else
        match LineAndHits(number, rest)
        case None => Malformed
        case Some(e) => Reading(records, Some(current.value.(da := current.value.da + [e])))
    else if kind == "FN" then
      if current.None? then Malformed else
        match NumberAndName(number, rest)
        case None => Malformed
        case Some(e) => Reading(records, Some(current.value.(fn := current.value.fn + [e])))
    else if kind == "FNDA" then
      if current.None? then Malformed else
        match NumberAndName(number, rest)
        case None => Malformed
        case Some(e) => Reading(records, Some(current.value.(fnda := current.value.fnda + [e])))
    else Reading(records, current)
  }

  function ParseLine(number: Number, st: ParseState, raw: string): ParseState {
    if st.Malformed? then Malformed else
      var line := StripCr(raw);
      if Trim(line) == "" then st
      else if line == "end_of_record" then
        if st.current.None? then Malformed else Reading(st.records + [st.current.value], None)
      else
        var colon := IndexOf(line, ':');
        if colon < 0 then Malformed
        else ParseField(number, st.records, st.current, line[..colon], line[colon + 1..])
  }

  function Parsing(number: Number): (ParseState, string) -> ParseState {
    (st, raw) => ParseLine(number, st, raw)
  }

  /** `parseLcovText`: the records, or `None` for a malformed file, which is dropped whole. */
  function ParseText(number: Number, text: string): Option<seq<Record>> {
    var st := Fold(Parsing(number), START, Split(text, '\n'));
    if st.Malformed? || st.current.Some? then None else Some(st.records)
  }

  lemma {:induction false} MalformedStays(number: Number, lines: seq<string>)
    ensures Fold(Parsing(number), Malformed, lines) == Malformed
  {
    if lines != [] {
      MalformedStays(number, lines[..|lines| - 1]);
    }
  }

  lemma MalformedAt(number: Number, text: string, i: nat)
    requires i < |Split(text, '\n')|
    requires var lines := Split(text, '\n'); ParseLine(number, Fold(Parsing(number), START, lines[..i]), lines[i]).Malformed?
    ensures ParseText(number, text) == None
  {
    hide Split, ParseLine;
    var lines := Split(text, '\n');
    var head, tail := lines[..i] + [lines[i]], lines[i + 1..];
    FoldSnoc(Parsing(number), START, lines[..i], lines[i]);
    MalformedStays(number, tail);
    FoldConcat(Parsing(number), START, head, tail);
    assert lines == head + tail;
  }

  lemma ParsedText(number: Number, text: string, st: ParseState)
    requires Fold(Parsing(number), START, Split(text, '\n')) == st && st.Reading?
    ensures ParseText(number, text) == if st.current.Some? then None else Some(st.records)
  {
  }

  /** The branches on a record's type, for a line `kind:rest`. */
  method ReadField(number: Number, current: Option<Record>, kind: string, rest: string, ghost records: seq<Record>)
    returns (failed: bool, next: Option<Record>)
    ensures ParseField(number, records, current, kind, rest) == if failed then Malformed else Reading(records, next)
  {
    hide Split, Trim, IndexOf, NumberAndName, LineAndHits;
    failed := false;
    next := current;
    if kind == "SF" {
      if current.Some? {
        return true, current;
      }
      if Trim(rest) == "" {
        return true, current;
      }
      next := Some(Record(Trim(rest), [], [], []));
    } else if IsRecomputed(kind) {
    } else if kind == "DA" {
      var e := LineAndHits(number, rest);
      if current.None? || e.None? {
        return true, current;
      }
      next := Some(current.value.(da := current.value.da + [e.value]));
    } else if kind == "FN" {
      var e := NumberAndName(number, rest);
      if current.None? || e.None? {
        return true, current;
      }
      next := Some(current.value.(fn := current.value.fn + [e.value]));
    } else if kind == "FNDA" {
      var e := NumberAndName(number, rest);
      if current.None? || e.None? {
        return true, current;
      }
      next := Some(current.value.(fnda := current.value.fnda + [e.value]));
    }
  }

  method ParseLcovText(number: Number, text: string) returns (result: Option<seq<Record>>)
    ensures result == ParseText(number, text)
  {
    hide Split, Trim, IndexOf, Fold, NumberAndName, LineAndHits, ParseText;
    var records: seq<Record> := [];
    var current: Option<Record> := None;
    var lines := Split(text, '\n');
    FoldEmpty(Parsing(number), START);
    assert lines[..0] == [];
    for i := 0 to |lines|
      invariant Fold(Parsing(number), START, lines[..i]) == Reading(records, current)
    {
      ghost var before := Reading(records, current);
      assert lines[..i + 1] == lines[..i] + [lines[i]];
      FoldSnoc(Parsing(number), START, lines[..i], lines[i]);
      var failed := false;
      var raw := lines[i];
      var line := if raw != [] && raw[|raw| - 1] == '\r' then raw[..|raw| - 1] else raw;
      if Trim(line) == "" {
      } else if line == "end_of_record" {
        if current.None? {
          failed := true;
        } else {
          records := records + [current.value];
          current := None;
        }
      } else {
        var colon := IndexOf(line, ':');
        if colon < 0 {
          failed := true;
        } else {
          failed, current := ReadField(number, current, line[..colon], line[colon + 1..], records);
        }
      }
      if failed {
        MalformedAt(number, text, i);
        return None;
      }
      assert ParseLine(number, before, raw) == Reading(records, current);
    }
    assert lines[..|lines|] == lines;
    ParsedText(number, text, Reading(records, current));
    if current.Some? {
      return None;
    }
    result := Some(records);
  }
}
