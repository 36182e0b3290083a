/** evals/takes-bootstrap/scorer.ts: scoring the claims a classifier made against a corpus of expected ones. */
module Scorer {
  import opened Results
  import opened Folding

  datatype Kind = Fact | Take | Bet | Hunch

  const KINDS: seq<Kind> := [Fact, Take, Bet, Hunch]

  function Label(k: Kind): string {
    match k
    case Fact => "fact"
    case Take => "take"
    case Bet => "bet"
    case Hunch => "hunch"
  }

  datatype Expectation = Expectation(claimRe: string, kind: Kind, weightMin: real, weightMax: real)

  datatype Case = Case(id: string, expected: seq<Expectation>, forbid: seq<string>)

  /** A claim as the model returned it; its kind is any text. */
  datatype Claim = Claim(text: string, kind: string, weight: real)

  /** `None` when the classifier gave nothing that parses. */
  datatype Prediction = Prediction(id: string, claims: Option<seq<Claim>>)

  /** Whether a pattern matches a text, case ignored. */
  type Matcher = (string, string) -> bool

  datatype Tally = Tally(expected: nat, matched: nat, predicted: nat, precise: nat) {
    function Plus(t: Tally): Tally {
      Tally(expected + t.expected, matched + t.matched, predicted + t.predicted, precise + t.precise)
    }

    predicate LowPrecision() { predicted > 0 && 5 * precise < 4 * predicted }

    predicate LowRecall() { expected > 0 && 10 * matched < 7 * expected }
  }

  const ZERO := Tally(0, 0, 0, 0)

  datatype Violation = Violation(id: string, forbidRe: string, text: string)

  datatype Failure = Malformed(cases: nat) | Forbidden(count: nat) | Imprecise(kind: Kind) | Unrecalled(kind: Kind)

  datatype Report = Report(
    malformed: seq<string>,
    violations: seq<Violation>,
    byKind: seq<Tally>,
    overall: Tally,
    failures: seq<Failure>,
    graduated: bool)

  // ----- what is counted -----

  /** What was predicted for a case: of several predictions with its id, the last counts. */
  function ClaimsFor(preds: seq<Prediction>, id: string): Option<seq<Claim>> {
    if preds == [] then None else
      var last := preds[|preds| - 1];
      if last.id == id then last.claims else ClaimsFor(preds[..|preds| - 1], id)
  }

  predicate Hits(re: Matcher, e: Expectation, cl: Claim) {
    cl.kind == Label(e.kind) && re(e.claimRe, cl.text) && e.weightMin <= cl.weight <= e.weightMax
  }

  function Owed(k: Kind): Expectation -> bool {
    (e: Expectation) => e.kind == k
  }

  predicate IsMet(re: Matcher, claims: seq<Claim>, e: Expectation) {
    exists cl | cl in claims :: Hits(re, e, cl)
  }

  function Met(re: Matcher, k: Kind, claims: seq<Claim>): Expectation -> bool {
    (e: Expectation) => e.kind == k && IsMet(re, claims, e)
  }

  function Made(k: Kind): Claim -> bool {
    (cl: Claim) => cl.kind == Label(k)
  }

  /** A claim is right when some expectation of its kind matches it, whatever its weight. */
  predicate IsRight(re: Matcher, k: Kind, expected: seq<Expectation>, cl: Claim) {
    exists e | e in expected :: e.kind == k && re(e.claimRe, cl.text)
  }

  function Right(re: Matcher, k: Kind, expected: seq<Expectation>): Claim -> bool {
    (cl: Claim) => cl.kind == Label(k) && IsRight(re, k, expected, cl)
  }

  function ExpectedIn(k: Kind): Case -> nat {
    (c: Case) => Count(Owed(k), c.expected)
  }

  function MatchedIn(re: Matcher, preds: seq<Prediction>, k: Kind): Case -> nat {
    (c: Case) => match ClaimsFor(preds, c.id)
      case None => 0
      case Some(claims) => Count(Met(re, k, claims), c.expected)
  }

  function PredictedIn(preds: seq<Prediction>, k: Kind): Case -> nat {
    (c: Case) => match ClaimsFor(preds, c.id)
      case None => 0
      case Some(claims) => Count(Made(k), claims)
  }

  function PreciseIn(re: Matcher, preds: seq<Prediction>, k: Kind): Case -> nat {
    (c: Case) => match ClaimsFor(preds, c.id)
      case None => 0
      case Some(claims) => Count(Right(re, k, c.expected), claims)
  }

  /** A kind's tally over the whole corpus. */
  function Tallied(re: Matcher, corpus: seq<Case>, preds: seq<Prediction>, k: Kind): Tally {
    Tally(
      Total(ExpectedIn(k), corpus), Total(MatchedIn(re, preds, k), corpus),
      Total(PredictedIn(preds, k), corpus), Total(PreciseIn(re, preds, k), corpus))
  }

  function Unanswered(corpus: seq<Case>, preds: seq<Prediction>): seq<string> {
    if corpus == [] then [] else
      var c := corpus[|corpus| - 1];
      Unanswered(corpus[..|corpus| - 1], preds) + if ClaimsFor(preds, c.id).None? then [c.id] else []
  }

  function Matching(re: Matcher, id: string, pattern: string, claims: seq<Claim>): seq<Violation> {
    if claims == [] then [] else
      var cl := claims[|claims| - 1];
      Matching(re, id, pattern, claims[..|claims| - 1])
      + if re(pattern, cl.text) then [Violation(id, pattern, cl.text)] else []
  }

  function ViolationsOf(re: Matcher, id: string, forbid: seq<string>, claims: seq<Claim>): seq<Violation> {
    if forbid == [] then [] else
      ViolationsOf(re, id, forbid[..|forbid| - 1], claims) + Matching(re, id, forbid[|forbid| - 1], claims)
  }

  function Violations(re: Matcher, corpus: seq<Case>, preds: seq<Prediction>): seq<Violation> {
    if corpus == [] then [] else
      var c := corpus[|corpus| - 1];
      var before := Violations(re, corpus[..|corpus| - 1], preds);
      match ClaimsFor(preds, c.id)
      case None => before
      case Some(claims) => before + ViolationsOf(re, c.id, c.forbid, claims)
  }

  function Sum(ts: seq<Tally>): Tally {
    if ts == [] then ZERO else Sum(ts[..|ts| - 1]).Plus(ts[|ts| - 1])
  }

  function FailuresOf(t: Tally, k: Kind): seq<Failure> {
    (if t.LowPrecision() then [Imprecise(k)] else []) + (if t.LowRecall() then [Unrecalled(k)] else [])
  }

  function KindFailures(ts: seq<Tally>): seq<Failure>
    requires |ts| <= |KINDS|
  {
    if ts == [] then [] else
      var n := |ts| - 1;
      KindFailures(ts[..n]) + FailuresOf(ts[n], KINDS[n])
  }

  function CaseFailures(malformed: nat, violations: nat): seq<Failure> {
    (if malformed > 0 then [Malformed(malformed)] else []) + (if violations > 0 then [Forbidden(violations)] else [])
  }

  function AllFailures(malformed: nat, violations: nat, ts: seq<Tally>): seq<Failure>
    requires |ts| <= |KINDS|
  {
    CaseFailures(malformed, violations) + KindFailures(ts)
  }

  /** The tallies in the order of `KINDS`. */
  function ByKind(re: Matcher, corpus: seq<Case>, preds: seq<Prediction>): (ts: seq<Tally>)
    ensures |ts| == |KINDS| && forall i | 0 <= i < |ts| :: ts[i] == Tallied(re, corpus, preds, KINDS[i])
  {
    [Tallied(re, corpus, preds, Fact), Tallied(re, corpus, preds, Take),
     Tallied(re, corpus, preds, Bet), Tallied(re, corpus, preds, Hunch)]
  }

  /** The report of `scoreCorpus`. */
  function Score(re: Matcher, corpus: seq<Case>, preds: seq<Prediction>): Report {
    var malformed := Unanswered(corpus, preds);
    var violations := Violations(re, corpus, preds);
    var ts := ByKind(re, corpus, preds);
    var failures := AllFailures(|malformed|, |violations|, ts);
    Report(malformed, violations, ts, Sum(ts), failures, failures == [])
  }

  // ----- the loops -----

  const NoTallies := map k: Kind :: ZERO

  type Tallies = m: map<Kind, Tally> | forall k: Kind :: k in m
    witness NoTallies

  function FromLabel(text: string): (r: Option<Kind>)
    ensures r.Some? ==> Label(r.value) == text
    ensures r.None? ==> forall k :: Label(k) != text
  {
    if text == "fact" then Some(Fact)
    else if text == "take" then Some(Take)
    else if text == "bet" then Some(Bet)
    else if text == "hunch" then Some(Hunch)
    else None
  }

  /** What one case adds to a kind's expected and matched counts. */
  function ExpectedTally(re: Matcher, claims: seq<Claim>, expected: seq<Expectation>, k: Kind): Tally {
    Tally(Count(Owed(k), expected), Count(Met(re, k, claims), expected), 0, 0)
  }

  /** What one case adds to a kind's predicted and precise counts. */
  function ClaimsTally(re: Matcher, claims: seq<Claim>, expected: seq<Expectation>, k: Kind): Tally {
    Tally(0, 0, Count(Made(k), claims), Count(Right(re, k, expected), claims))
  }

  /** A malformed case claims nothing. */
  const SILENCE: seq<Claim> := []

  /** What one case adds to a kind's tally. */
  function CaseTally(re: Matcher, answer: Option<seq<Claim>>, c: Case, k: Kind): Tally {
    match answer
    case None => ExpectedTally(re, SILENCE, c.expected, k)
    case Some(claims) => ExpectedTally(re, claims, c.expected, k).Plus(ClaimsTally(re, claims, c.expected, k))
  }

  lemma CountSnoc<X>(p: X -> bool, xs: seq<X>, i: nat)
    requires i < |xs|
    ensures Count(p, xs[..i + 1]) == Count(p, xs[..i]) + if p(xs[i]) then 1 else 0
  {
    assert xs[..i + 1] == xs[..i] + [xs[i]];
    TotalSnoc(Indicator(p), xs[..i], xs[i]);
  }

  function Owing(met: bool): Tally { Tally(1, if met then 1 else 0, 0, 0) }

  function Making(right: bool): Tally { Tally(0, 0, 1, if right then 1 else 0) }

  /** What a kind gets from an amount credited to the kind `to`. */
  function Credit(to: Kind, amount: Tally, k: Kind): Tally {
    if k == to then amount else ZERO
  }

  method AddTo(start: Tallies, to: Kind, amount: Tally) returns (tally: Tallies)
    ensures forall k :: tally[k] == start[k].Plus(Credit(to, amount, k))
  {
    tally := start[to := start[to].Plus(amount)];
  }

  lemma PlusAssociates(a: Tally, b: Tally, c: Tally)
    ensures a.Plus(b).Plus(c) == a.Plus(b.Plus(c)) && a.Plus(ZERO) == a
  {
  }

  lemma ExpectedTallySnoc(re: Matcher, claims: seq<Claim>, expected: seq<Expectation>, i: nat, k: Kind)
    requires i < |expected|
    ensures ExpectedTally(re, claims, expected[..i + 1], k) ==
      ExpectedTally(re, claims, expected[..i], k).Plus(Credit(expected[i].kind, Owing(IsMet(re, claims, expected[i])), k))
  {
    hide Count, IsMet;
    CountSnoc(Owed(k), expected, i);
    CountSnoc(Met(re, k, claims), expected, i);
  }

  lemma ClaimsTallySnoc(re: Matcher, claims: seq<Claim>, expected: seq<Expectation>, i: nat, k: Kind)
    requires i < |claims|
    ensures ClaimsTally(re, claims[..i + 1], expected, k) ==
      ClaimsTally(re, claims[..i], expected, k).Plus(
        if claims[i].kind == Label(k) then Making(IsRight(re, k, expected, claims[i])) else ZERO)
  {
    hide Count, IsRight;
    CountSnoc(Made(k), claims, i);
    CountSnoc(Right(re, k, expected), claims, i);
  }

  lemma {:induction false} NoneMet(re: Matcher, expected: seq<Expectation>, k: Kind)
    ensures Count(Met(re, k, SILENCE), expected) == 0
  {
    CountBounds(Met(re, k, SILENCE), expected);
  }

  lemma CountNone(re: Matcher, claims: seq<Claim>, expected: seq<Expectation>, k: Kind)
    ensures ExpectedTally(re, claims, expected[..0], k) == ZERO == ClaimsTally(re, claims[..0], expected, k)
  {
  }

  lemma SilenceMeetsNothing(re: Matcher, e: Expectation)
    ensures !IsMet(re, SILENCE, e)
  {
  }

  /** What a malformed case expected stays owed. */
  method TallyOwed(re: Matcher, c: Case, start: Tallies) returns (tally: Tallies)
    ensures forall k :: tally[k] == start[k].Plus(ExpectedTally(re, SILENCE, c.expected, k))
  {
    tally := start;
    forall k { CountNone(re, SILENCE, c.expected, k); }
    hide ExpectedTally, IsMet, Credit, Tally.Plus, Owing, SILENCE;
    forall k ensures start[k] == start[k].Plus(ExpectedTally(re, SILENCE, c.expected[..0], k)) {
      PlusAssociates(start[k], ZERO, ZERO);
    }
    for j := 0 to |c.expected|
      invariant forall k :: tally[k] == start[k].Plus(ExpectedTally(re, SILENCE, c.expected[..j], k))
    {
      var e := c.expected[j];
      var amount := Owing(false);
      SilenceMeetsNothing(re, e);
      tally := AddTo(tally, e.kind, amount);
      forall k ensures tally[k] == start[k].Plus(ExpectedTally(re, SILENCE, c.expected[..j + 1], k)) {
        ExpectedTallySnoc(re, SILENCE, c.expected, j, k);
        PlusAssociates(start[k], ExpectedTally(re, SILENCE, c.expected[..j], k), Credit(e.kind, amount, k));
      }
    }
    assert c.expected[..|c.expected|] == c.expected;
  }

  method TallyExpected(re: Matcher, c: Case, claims: seq<Claim>, start: Tallies) returns (tally: Tallies)
    ensures forall k :: tally[k] == start[k].Plus(ExpectedTally(re, claims, c.expected, k))
  {
    tally := start;
    forall k { CountNone(re, claims, c.expected, k); }
    hide ExpectedTally, IsMet, Credit, Tally.Plus, Owing;
    forall k ensures start[k] == start[k].Plus(ExpectedTally(re, claims, c.expected[..0], k)) {
      PlusAssociates(start[k], ZERO, ZERO);
    }
    for j := 0 to |c.expected|
      invariant forall k :: tally[k] == start[k].Plus(ExpectedTally(re, claims, c.expected[..j], k))
    {
      var e := c.expected[j];
      var amount := Owing(IsMet(re, claims, e));
      tally := AddTo(tally, e.kind, amount);
      forall k ensures tally[k] == start[k].Plus(ExpectedTally(re, claims, c.expected[..j + 1], k)) {
        ExpectedTallySnoc(re, claims, c.expected, j, k);
        PlusAssociates(start[k], ExpectedTally(re, claims, c.expected[..j], k), Credit(e.kind, amount, k));
      }
    }
    assert c.expected[..|c.expected|] == c.expected;
  }

  method TallyClaims(re: Matcher, c: Case, claims: seq<Claim>, start: Tallies) returns (tally: Tallies)
    ensures forall k :: tally[k] == start[k].Plus(ClaimsTally(re, claims, c.expected, k))
  {
    tally := start;
    forall k { CountNone(re, claims, c.expected, k); }
    hide ClaimsTally, IsRight, Tally.Plus, Making;
    forall k ensures start[k] == start[k].Plus(ClaimsTally(re, claims[..0], c.expected, k)) {
      PlusAssociates(start[k], ZERO, ZERO);
    }
    for j := 0 to |claims|
      invariant forall k :: tally[k] == start[k].Plus(ClaimsTally(re, claims[..j], c.expected, k))
    {
      var cl := claims[j];
      ghost var before := tally;
      var kind := FromLabel(cl.kind);
      if kind.Some? {
        tally := AddTo(tally, kind.value, Making(IsRight(re, kind.value, c.expected, cl)));
      }
      forall k ensures tally[k] == start[k].Plus(ClaimsTally(re, claims[..j + 1], c.expected, k)) {
        var made := if cl.kind == Label(k) then Making(IsRight(re, k, c.expected, cl)) else ZERO;
        SameLabel(k, cl.kind);
        PlusAssociates(before[k], ZERO, ZERO);
        ClaimsTallySnoc(re, claims, c.expected, j, k);
        PlusAssociates(start[k], ClaimsTally(re, claims[..j], c.expected, k), made);
      }
    }
    assert claims[..|claims|] == claims;
  }

  lemma SameLabel(k: Kind, text: string)
    ensures FromLabel(text) == Some(k) <==> Label(k) == text
  {
  }

  method TallyCase(re: Matcher, answer: Option<seq<Claim>>, c: Case, start: Tallies) returns (tally: Tallies)
    ensures forall k :: tally[k] == start[k].Plus(CaseTally(re, answer, c, k))
  {
    hide ExpectedTally, ClaimsTally;
    if answer.None? {
      tally := TallyOwed(re, c, start);
    } else {
      tally := TallyExpected(re, c, answer.value, start);
      tally := TallyClaims(re, c, answer.value, tally);
    }
  }

  method FindViolations(re: Matcher, c: Case, claims: seq<Claim>) returns (found: seq<Violation>)
    ensures found == ViolationsOf(re, c.id, c.forbid, claims)
  {
    found := [];
    for i := 0 to |c.forbid|
      invariant found == ViolationsOf(re, c.id, c.forbid[..i], claims)
    {
      var pattern := c.forbid[i];
      ghost var before := found;
      for j := 0 to |claims|
        invariant found == before + Matching(re, c.id, pattern, claims[..j])
      {
        assert claims[..j + 1][..j] == claims[..j];
        if re(pattern, claims[j].text) {
          found := found + [Violation(c.id, pattern, claims[j].text)];
        }
      }
      assert claims[..|claims|] == claims;
      assert c.forbid[..i + 1][..i] == c.forbid[..i];
    }
    assert c.forbid[..|c.forbid|] == c.forbid;
  }

  method ById(preds: seq<Prediction>) returns (byId: map<string, Option<seq<Claim>>>)
    ensures forall id :: ClaimsFor(preds, id) == if id in byId then byId[id] else None
  {
    byId := map[];
    for i := 0 to |preds|
      invariant forall id :: ClaimsFor(preds[..i], id) == if id in byId then byId[id] else None
    {
      assert preds[..i + 1][..i] == preds[..i];
      byId := byId[preds[i].id := preds[i].claims];
    }
    assert preds[..|preds|] == preds;
  }

  lemma TalliedSnoc(re: Matcher, corpus: seq<Case>, preds: seq<Prediction>, k: Kind, i: nat)
    requires i < |corpus|
    ensures Tallied(re, corpus[..i + 1], preds, k) ==
      Tallied(re, corpus[..i], preds, k).Plus(CaseTally(re, ClaimsFor(preds, corpus[i].id), corpus[i], k))
  {
    hide Count, ClaimsFor;
    assert corpus[..i + 1][..i] == corpus[..i];
    NoneMet(re, corpus[i].expected, k);
  }

  lemma ScoreOfNothing(re: Matcher, preds: seq<Prediction>)
    ensures Unanswered([], preds) == [] && Violations(re, [], preds) == []
    ensures forall k :: Tallied(re, [], preds, k) == ZERO
  {
  }

  lemma ReportedSnoc(re: Matcher, corpus: seq<Case>, preds: seq<Prediction>, i: nat)
    requires i < |corpus|
    ensures var c := corpus[i];
      match ClaimsFor(preds, c.id)
      case None =>
        && Unanswered(corpus[..i + 1], preds) == Unanswered(corpus[..i], preds) + [c.id]
        && Violations(re, corpus[..i + 1], preds) == Violations(re, corpus[..i], preds)
      case Some(claims) =>
        && Unanswered(corpus[..i + 1], preds) == Unanswered(corpus[..i], preds)
        && Violations(re, corpus[..i + 1], preds) ==
           Violations(re, corpus[..i], preds) + ViolationsOf(re, c.id, c.forbid, claims)
  {
    hide ClaimsFor, ViolationsOf;
    assert corpus[..i + 1][..i] == corpus[..i];
  }

  /** `scoreCorpus` computes the report it promises. */
  method ScoreCorpus(re: Matcher, corpus: seq<Case>, preds: seq<Prediction>) returns (report: Report)
    ensures report == Score(re, corpus, preds)
  {
    var byId := ById(preds);
    var malformed: seq<string> := [];
    var violations: seq<Violation> := [];
    var tally: Tallies := NoTallies;
    ScoreOfNothing(re, preds);
    assert corpus[..0] == [];
    hide ClaimsFor, ViolationsOf, Count, CaseTally, Tallied, Score, Tally.Plus, Violations, Unanswered;
    for i := 0 to |corpus|
      invariant malformed == Unanswered(corpus[..i], preds)
      invariant violations == Violations(re, corpus[..i], preds)
      invariant forall k :: tally[k] == Tallied(re, corpus[..i], preds, k)
    {
      var c := corpus[i];
      forall k {
        TalliedSnoc(re, corpus, preds, k, i);
      }
      ReportedSnoc(re, corpus, preds, i);
      var answer := if c.id in byId then byId[c.id] else None;
      if answer.None? {
        malformed := malformed + [c.id];
      } else {
        var found := FindViolations(re, c, answer.value);
        violations := violations + found;
      }
      tally := TallyCase(re, answer, c, tally);
    }
    assert corpus[..|corpus|] == corpus;
    report := Finish(re, corpus, preds, malformed, violations, tally);
  }

  method Finish(re: Matcher, corpus: seq<Case>, preds: seq<Prediction>,
                malformed: seq<string>, violations: seq<Violation>, tally: Tallies) returns (report: Report)
    requires malformed == Unanswered(corpus, preds) && violations == Violations(re, corpus, preds)
    requires forall k :: tally[k] == Tallied(re, corpus, preds, k)
    ensures report == Score(re, corpus, preds)
  {
    hide Tallied, Violations, Unanswered, Sum, KindFailures;
    var byKind := [tally[Fact], tally[Take], tally[Bet], tally[Hunch]];
    assert byKind == ByKind(re, corpus, preds);
    var overall := Reduce(byKind);
    var failures := ListFailures(|malformed|, |violations|, byKind);
    report := Report(malformed, violations, byKind, overall, failures, failures == []);
  }

  method Reduce(byKind: seq<Tally>) returns (overall: Tally)
    ensures overall == Sum(byKind)
  {
    overall := ZERO;
    for i := 0 to |byKind|
      invariant overall == Sum(byKind[..i])
    {
      assert byKind[..i + 1][..i] == byKind[..i];
      overall := overall.Plus(byKind[i]);
    }
    assert byKind[..|byKind|] == byKind;
  }

  method ListFailures(malformed: nat, violations: nat, byKind: seq<Tally>) returns (failures: seq<Failure>)
    requires |byKind| <= |KINDS|
    ensures failures == AllFailures(malformed, violations, byKind)
  {
    NoKindsFail();
    hide KindFailures, FailuresOf, CaseFailures;
    failures := ListCaseFailures(malformed, violations);
    ghost var before := failures;
    for i := 0 to |byKind|
      invariant failures == before + KindFailures(byKind[..i])
    {
      KindFailuresStep(byKind, i);
      failures := AddFailuresOf(byKind[i], KINDS[i], failures);
    }
    assert byKind[..|byKind|] == byKind;
  }

  lemma NoKindsFail()
    ensures KindFailures([]) == []
  {
  }

  method ListCaseFailures(malformed: nat, violations: nat) returns (failures: seq<Failure>)
    ensures failures == CaseFailures(malformed, violations)
  {
    failures := [];
    if malformed > 0 {
      failures := failures + [Malformed(malformed)];
    }
    if violations > 0 {
      failures := failures + [Forbidden(violations)];
    }
  }

  /** The loop over kinds, at one kind. */
  method AddFailuresOf(t: Tally, k: Kind, before: seq<Failure>) returns (failures: seq<Failure>)
    ensures failures == before + FailuresOf(t, k)
  {
    failures := before;
    if t.LowPrecision() {
      failures := failures + [Imprecise(k)];
    }
    if t.LowRecall() {
      failures := failures + [Unrecalled(k)];
    }
  }

  lemma KindFailuresStep(ts: seq<Tally>, i: nat)
    requires i < |ts| <= |KINDS|
    ensures KindFailures(ts[..i + 1]) == KindFailures(ts[..i]) + FailuresOf(ts[i], KINDS[i])
  {
    hide FailuresOf;
    assert ts[..i + 1][..i] == ts[..i];
  }

  // ----- conservation -----

  lemma {:induction false} CountMonotone<X>(p: X -> bool, q: X -> bool, xs: seq<X>)
    requires forall x | x in xs :: p(x) ==> q(x)
    ensures Count(p, xs) <= Count(q, xs)
  {
    TotalMonotone(Indicator(p), Indicator(q), xs);
  }

  /** What is owed depends on the corpus alone, and no numerator passes its denominator. */
  lemma TalliesConserve(re: Matcher, corpus: seq<Case>, preds: seq<Prediction>, others: seq<Prediction>, k: Kind)
    ensures var t := Tallied(re, corpus, preds, k);
      && t.expected == Tallied(re, corpus, others, k).expected
      && t.matched <= t.expected && t.precise <= t.predicted
  {
    forall c | c in corpus ensures MatchedIn(re, preds, k)(c) <= ExpectedIn(k)(c) {
      if ClaimsFor(preds, c.id).Some? {
        CountMonotone(Met(re, k, ClaimsFor(preds, c.id).value), Owed(k), c.expected);
      }
    }
    TotalMonotone(MatchedIn(re, preds, k), ExpectedIn(k), corpus);
    forall c | c in corpus ensures PreciseIn(re, preds, k)(c) <= PredictedIn(preds, k)(c) {
      if ClaimsFor(preds, c.id).Some? {
        CountMonotone(Right(re, k, c.expected), Made(k), ClaimsFor(preds, c.id).value);
      }
    }
    TotalMonotone(PreciseIn(re, preds, k), PredictedIn(preds, k), corpus);
  }

  function ExpectationsOf(): Case -> nat {
    (c: Case) => |c.expected|
  }

  /** Every expected instance is counted under exactly one kind. */
  lemma OverallCountsEverything(re: Matcher, corpus: seq<Case>, preds: seq<Prediction>)
    ensures Score(re, corpus, preds).overall.expected == Total(ExpectationsOf(), corpus)
  {
    hide Violations, Unanswered, Count, AllFailures, Sum, Total;
    var ts := ByKind(re, corpus, preds);
    SumOfFour(ts);
    assert Sum(ts).expected == ts[0].expected + ts[1].expected + ts[2].expected + ts[3].expected;
    OwedByKind(corpus);
  }

  lemma SumOfFour(ts: seq<Tally>)
    requires |ts| == 4
    ensures Sum(ts) == ts[0].Plus(ts[1]).Plus(ts[2]).Plus(ts[3])
  {
    assert ts[..3][..2] == ts[..2] && ts[..2][..1] == ts[..1] && ts[..1][..0] == [];
    assert Sum(ts[..1]) == ts[0];
    assert Sum(ts[..2]) == Sum(ts[..1]).Plus(ts[1]);
    assert Sum(ts[..3]) == Sum(ts[..2]).Plus(ts[2]);
  }

  lemma {:induction false} OwedByKindIn(expected: seq<Expectation>)
    ensures Count(Owed(Fact), expected) + Count(Owed(Take), expected)
      + Count(Owed(Bet), expected) + Count(Owed(Hunch), expected) == |expected|
  {
    if expected != [] {
      OwedByKindIn(expected[..|expected| - 1]);
    }
  }

  lemma {:induction false} OwedByKind(corpus: seq<Case>)
    ensures Total(ExpectedIn(Fact), corpus) + Total(ExpectedIn(Take), corpus)
      + Total(ExpectedIn(Bet), corpus) + Total(ExpectedIn(Hunch), corpus) == Total(ExpectationsOf(), corpus)
  {
    if corpus != [] {
      OwedByKindIn(corpus[|corpus| - 1].expected);
      OwedByKind(corpus[..|corpus| - 1]);
    }
  }

  /** Recall is never earned without precision: a kind with a matched instance has a right claim. */
  lemma MatchedNeedsRightClaim(re: Matcher, corpus: seq<Case>, preds: seq<Prediction>, k: Kind)
    ensures var t := Tallied(re, corpus, preds, k); t.matched > 0 ==> t.precise > 0
  {
    if Total(MatchedIn(re, preds, k), corpus) > 0 {
      var c := Contributor(MatchedIn(re, preds, k), corpus);
      var claims := ClaimsFor(preds, c.id).value;
      var e := Contributor(Indicator(Met(re, k, claims)), c.expected);
      var cl :| cl in claims && Hits(re, e, cl);
      assert Right(re, k, c.expected)(cl);
      Contributes(Indicator(Right(re, k, c.expected)), claims, cl);
      Contributes(PreciseIn(re, preds, k), corpus, c);
    }
  }

  lemma {:induction false} Contributor<X>(m: X -> nat, xs: seq<X>) returns (x: X)
    requires Total(m, xs) > 0
    ensures x in xs && m(x) > 0
  {
    var n := |xs| - 1;
    if m(xs[n]) > 0 {
      x := xs[n];
    } else {
      x := Contributor(m, xs[..n]);
    }
  }

  lemma {:induction false} Contributes<X>(m: X -> nat, xs: seq<X>, x: X)
    requires x in xs
    ensures Total(m, xs) >= m(x)
  {
    var n := |xs| - 1;
    if xs[n] != x {
      assert xs == xs[..n] + [xs[n]];
      Contributes(m, xs[..n], x);
    }
  }

  // ----- malformed output -----

  /** `fewer` answers no case that `preds` does not answer the same way. */
  ghost predicate AnswersLess(fewer: seq<Prediction>, preds: seq<Prediction>) {
    forall id :: ClaimsFor(fewer, id).None? || ClaimsFor(fewer, id) == ClaimsFor(preds, id)
  }

  /** Appending an unparseable prediction makes that one case malformed. */
  lemma Silenced(preds: seq<Prediction>, id: string)
    ensures ClaimsFor(preds + [Prediction(id, None)], id).None?
    ensures forall other | other != id :: ClaimsFor(preds + [Prediction(id, None)], other) == ClaimsFor(preds, other)
    ensures AnswersLess(preds + [Prediction(id, None)], preds)
  {
  }

  /** A lost answer costs: the same is owed, no numerator grows, so recall cannot rise. */
  lemma LostAnswersNeverRaiseRecall(re: Matcher, corpus: seq<Case>, fewer: seq<Prediction>, preds: seq<Prediction>, k: Kind)
    requires AnswersLess(fewer, preds)
    ensures var t, u := Tallied(re, corpus, preds, k), Tallied(re, corpus, fewer, k);
      && u.expected == t.expected && u.matched <= t.matched
      && u.predicted <= t.predicted && u.precise <= t.precise
      && (t.LowRecall() ==> u.LowRecall())
  {
    TotalMonotone(MatchedIn(re, fewer, k), MatchedIn(re, preds, k), corpus);
    TotalMonotone(PredictedIn(fewer, k), PredictedIn(preds, k), corpus);
    TotalMonotone(PreciseIn(re, fewer, k), PreciseIn(re, preds, k), corpus);
  }

  lemma LostAnswersNeverRaiseOverallRecall(re: Matcher, corpus: seq<Case>, fewer: seq<Prediction>, preds: seq<Prediction>)
    requires AnswersLess(fewer, preds)
    ensures var t, u := Score(re, corpus, preds).overall, Score(re, corpus, fewer).overall;
      u.expected == t.expected && u.matched <= t.matched
  {
    forall k ensures
      && Tallied(re, corpus, fewer, k).expected == Tallied(re, corpus, preds, k).expected
      && Tallied(re, corpus, fewer, k).matched <= Tallied(re, corpus, preds, k).matched
    {
      LostAnswersNeverRaiseRecall(re, corpus, fewer, preds, k);
    }
    SumOfFour(ByKind(re, corpus, preds));
    SumOfFour(ByKind(re, corpus, fewer));
  }

  lemma {:induction false} UnansweredIsReported(corpus: seq<Case>, preds: seq<Prediction>)
    ensures Unanswered(corpus, preds) == [] <==> forall c | c in corpus :: ClaimsFor(preds, c.id).Some?
    ensures forall c | c in corpus && ClaimsFor(preds, c.id).None? :: c.id in Unanswered(corpus, preds)
  {
    if corpus != [] {
      var n := |corpus| - 1;
      assert corpus == corpus[..n] + [corpus[n]];
      UnansweredIsReported(corpus[..n], preds);
    }
  }

  // ----- graduation -----

  lemma {:induction false} NoKindFailures(ts: seq<Tally>)
    requires |ts| <= |KINDS|
    ensures KindFailures(ts) == [] <==> forall t | t in ts :: !t.LowPrecision() && !t.LowRecall()
  {
    if ts != [] {
      var n := |ts| - 1;
      assert ts == ts[..n] + [ts[n]];
      NoKindFailures(ts[..n]);
    }
  }

  lemma {:induction false} NoMatches(re: Matcher, id: string, pattern: string, claims: seq<Claim>)
    ensures Matching(re, id, pattern, claims) == [] <==> forall cl | cl in claims :: !re(pattern, cl.text)
  {
    if claims != [] {
      var n := |claims| - 1;
      assert claims == claims[..n] + [claims[n]];
      NoMatches(re, id, pattern, claims[..n]);
    }
  }

  ghost predicate Leaks(re: Matcher, c: Case, claims: seq<Claim>) {
    exists p | p in c.forbid :: Matches(re, p, claims)
  }

  predicate Matches(re: Matcher, pattern: string, claims: seq<Claim>) {
    exists cl | cl in claims :: re(pattern, cl.text)
  }

  lemma {:induction false} NoViolationsOf(re: Matcher, id: string, forbid: seq<string>, claims: seq<Claim>)
    ensures ViolationsOf(re, id, forbid, claims) == [] <==> forall p | p in forbid :: !Matches(re, p, claims)
  {
    if forbid != [] {
      var n := |forbid| - 1;
      assert forbid == forbid[..n] + [forbid[n]];
      NoViolationsOf(re, id, forbid[..n], claims);
      NoMatches(re, id, forbid[n], claims);
      var before, last := ViolationsOf(re, id, forbid[..n], claims), Matching(re, id, forbid[n], claims);
      assert last == [] <==> !Matches(re, forbid[n], claims);
      assert before + last == [] <==> before == [] && last == [];
      assert forall p :: p in forbid <==> p in forbid[..n] || p == forbid[n];
    }
  }

  lemma {:induction false} NoViolations(re: Matcher, corpus: seq<Case>, preds: seq<Prediction>)
    ensures Violations(re, corpus, preds) == [] <==>
      forall c | c in corpus && ClaimsFor(preds, c.id).Some? :: !Leaks(re, c, ClaimsFor(preds, c.id).value)
  {
    if corpus != [] {
      var n := |corpus| - 1;
      var c := corpus[n];
      assert corpus == corpus[..n] + [c];
      NoViolations(re, corpus[..n], preds);
      if ClaimsFor(preds, c.id).Some? {
        NoViolationsOf(re, c.id, c.forbid, ClaimsFor(preds, c.id).value);
      }
    }
  }

  /** A run graduates exactly when every case is answered, nothing leaks and every kind clears both bars. */
  lemma GraduatesExactly(re: Matcher, corpus: seq<Case>, preds: seq<Prediction>)
    ensures Score(re, corpus, preds).graduated <==>
      && (forall c | c in corpus ::
            ClaimsFor(preds, c.id).Some? && !Leaks(re, c, ClaimsFor(preds, c.id).value))
      && (forall k :: !Tallied(re, corpus, preds, k).LowPrecision() && !Tallied(re, corpus, preds, k).LowRecall())
  {
    hide Tallied, Violations, Unanswered, KindFailures, Leaks;
    var ts := ByKind(re, corpus, preds);
    UnansweredIsReported(corpus, preds);
    NoViolations(re, corpus, preds);
    NoKindFailures(ts);
    EveryKind(re, corpus, preds);
  }

  lemma EveryKind(re: Matcher, corpus: seq<Case>, preds: seq<Prediction>)
    ensures forall t | t in ByKind(re, corpus, preds) :: exists k :: t == Tallied(re, corpus, preds, k)
    ensures forall k :: Tallied(re, corpus, preds, k) in ByKind(re, corpus, preds)
  {
    hide Tallied;
    var ts := ByKind(re, corpus, preds);
    forall k ensures Tallied(re, corpus, preds, k) in ts {
      var i := match k case Fact => 0 case Take => 1 case Bet => 2 case Hunch => 3;
      assert ts[i] == Tallied(re, corpus, preds, k);
    }
  }

  /** A malformed case always blocks graduation. */
  lemma MalformedBlocksGraduation(re: Matcher, corpus: seq<Case>, preds: seq<Prediction>, c: Case)
    requires c in corpus
    ensures !Score(re, corpus, preds + [Prediction(c.id, None)]).graduated
  {
    Silenced(preds, c.id);
    GraduatesExactly(re, corpus, preds + [Prediction(c.id, None)]);
  }

  /** Kinds that each clear the bars clear them together: overall precision is at least 0.8 and recall at least 0.7. */
  lemma GraduatedClearsOverall(re: Matcher, corpus: seq<Case>, preds: seq<Prediction>)
    requires Score(re, corpus, preds).graduated
    ensures var t := Score(re, corpus, preds).overall;
      5 * t.precise >= 4 * t.predicted && 10 * t.matched >= 7 * t.expected
  {
    hide Tallied;
    GraduatesExactly(re, corpus, preds);
    SumOfFour(ByKind(re, corpus, preds));
  }

  /** The order of the corpus changes no tally, and not whether a run graduates. */
  lemma CorpusOrderIrrelevant(re: Matcher, corpus: seq<Case>, shuffled: seq<Case>, preds: seq<Prediction>)
    requires multiset(corpus) == multiset(shuffled)
    ensures ByKind(re, corpus, preds) == ByKind(re, shuffled, preds)
    ensures Score(re, corpus, preds).graduated == Score(re, shuffled, preds).graduated
  {
    forall k ensures Tallied(re, corpus, preds, k) == Tallied(re, shuffled, preds, k) {
      TotalPermutation(ExpectedIn(k), corpus, shuffled);
      TotalPermutation(MatchedIn(re, preds, k), corpus, shuffled);
      TotalPermutation(PredictedIn(preds, k), corpus, shuffled);
      TotalPermutation(PreciseIn(re, preds, k), corpus, shuffled);
    }
    hide Tallied;
    GraduatesExactly(re, corpus, preds);
    GraduatesExactly(re, shuffled, preds);
    forall c ensures c in corpus <==> c in shuffled {
      assert c in multiset(corpus) <==> c in multiset(shuffled);
    }
  }
}
