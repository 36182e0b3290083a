/** evals/takes-bootstrap/scorer.ts: what each number of the report counts, and what graduation asks. */
module ScorerMeaning {
  import opened Counting
  import opened Folding
  import opened Results
  import opened Scorer

  /** The claims of the last prediction with that id, when it has any that parse. */
  ghost predicate Answers(preds: seq<Prediction>, id: string, claims: seq<Claim>) {
    exists i | 0 <= i < |preds| ::
      preds[i].id == id && preds[i].claims == Some(claims) && forall j | i < j < |preds| :: preds[j].id != id
  }

  lemma {:induction false} AnswersAre(preds: seq<Prediction>, id: string, claims: seq<Claim>)
    ensures ClaimsFor(preds, id) == Some(claims) <==> Answers(preds, id, claims)
  {
    if preds != [] {
      var n := |preds| - 1;
      AnswersAre(preds[..n], id, claims);
      if preds[n].id == id {
        assert preds[n].claims == Some(claims) ==> Answers(preds, id, claims);
      } else {
        if i :| 0 <= i < n && preds[..n][i].id == id && preds[..n][i].claims == Some(claims) && forall j | i < j < n :: preds[..n][j].id != id {
          assert preds[i].id == id && forall j | i < j < |preds| :: j == n || preds[..n][j].id != id;
        }
        if i :| 0 <= i < |preds| && preds[i].id == id && preds[i].claims == Some(claims) && forall j | i < j < |preds| :: preds[j].id != id {
          assert i < n && preds[..n][i] == preds[i];
        }
      }
    }
  }

  predicate IsKind(text: string, k: Kind) {
    match k
    case Fact => text == "fact"
    case Take => text == "take"
    case Bet => text == "bet"
    case Hunch => text == "hunch"
  }

  ghost function ClaimsOf(preds: seq<Prediction>, id: string): seq<Claim> {
    if claims :| Answers(preds, id, claims) then claims else []
  }

  /** The expectation is met: a claim of its kind matches it with a weight in its range. */
  ghost predicate MetBy(re: Matcher, e: Expectation, claims: seq<Claim>) {
    exists cl | cl in claims ::
      IsKind(cl.kind, e.kind) && re(e.claimRe, cl.text) && e.weightMin <= cl.weight && cl.weight <= e.weightMax
  }

  /** The claim is right: an expectation of that kind matches it, whatever the weight. */
  ghost predicate RightFor(re: Matcher, k: Kind, expected: seq<Expectation>, cl: Claim) {
    IsKind(cl.kind, k) && exists e | e in expected :: e.kind == k && re(e.claimRe, cl.text)
  }

  ghost function ExpectedAt(corpus: seq<Case>, k: Kind): set<(int, int)> {
    set i, j | 0 <= i < |corpus| && 0 <= j < |corpus[i].expected| && corpus[i].expected[j].kind == k :: (i, j)
  }

  ghost function MatchedAt(re: Matcher, corpus: seq<Case>, preds: seq<Prediction>, k: Kind): set<(int, int)> {
    set i, j | 0 <= i < |corpus| && 0 <= j < |corpus[i].expected| && corpus[i].expected[j].kind == k
      && MetBy(re, corpus[i].expected[j], ClaimsOf(preds, corpus[i].id)) :: (i, j)
  }

  ghost function PredictedAt(corpus: seq<Case>, preds: seq<Prediction>, k: Kind): set<(int, int)> {
    set i, j | 0 <= i < |corpus| && 0 <= j < |ClaimsOf(preds, corpus[i].id)|
      && IsKind(ClaimsOf(preds, corpus[i].id)[j].kind, k) :: (i, j)
  }

  ghost function PreciseAt(re: Matcher, corpus: seq<Case>, preds: seq<Prediction>, k: Kind): set<(int, int)> {
    set i, j | 0 <= i < |corpus| && 0 <= j < |ClaimsOf(preds, corpus[i].id)|
      && RightFor(re, k, corpus[i].expected, ClaimsOf(preds, corpus[i].id)[j]) :: (i, j)
  }

  // ----- one case -----

  lemma ClaimsAre(preds: seq<Prediction>, id: string)
    ensures ClaimsFor(preds, id) == None ==> ClaimsOf(preds, id) == []
    ensures ClaimsFor(preds, id).Some? ==> ClaimsOf(preds, id) == ClaimsFor(preds, id).value
  {
    forall claims ensures ClaimsFor(preds, id) == Some(claims) <==> Answers(preds, id, claims) {
      AnswersAre(preds, id, claims);
    }
    hide ClaimsFor, Answers;
    assert ClaimsFor(preds, id).Some? ==> Answers(preds, id, ClaimsFor(preds, id).value);
  }

  lemma LabelsAre(text: string, k: Kind)
    ensures text == Label(k) <==> IsKind(text, k)
  {
  }

  ghost function OwedPlaces(k: Kind): Case -> set<int> {
    (c: Case) => Places(Owed(k), c.expected)
  }

  ghost function MetPlaces(re: Matcher, preds: seq<Prediction>, k: Kind): Case -> set<int> {
    (c: Case) => if ClaimsFor(preds, c.id).None? then {} else Places(Met(re, k, ClaimsFor(preds, c.id).value), c.expected)
  }

  ghost function MadePlaces(preds: seq<Prediction>, k: Kind): Case -> set<int> {
    (c: Case) => if ClaimsFor(preds, c.id).None? then {} else Places(Made(k), ClaimsFor(preds, c.id).value)
  }

  ghost function RightPlaces(re: Matcher, preds: seq<Prediction>, k: Kind): Case -> set<int> {
    (c: Case) => if ClaimsFor(preds, c.id).None? then {} else Places(Right(re, k, c.expected), ClaimsFor(preds, c.id).value)
  }

  lemma SizesOf(re: Matcher, preds: seq<Prediction>, k: Kind, c: Case)
    ensures ExpectedIn(k)(c) == |OwedPlaces(k)(c)|
    ensures MatchedIn(re, preds, k)(c) == |MetPlaces(re, preds, k)(c)|
    ensures PredictedIn(preds, k)(c) == |MadePlaces(preds, k)(c)|
    ensures PreciseIn(re, preds, k)(c) == |RightPlaces(re, preds, k)(c)|
  {
    hide Count, Places, ClaimsFor, Owed, Met, Made, Right;
    CountOfPlaces(Owed(k), c.expected);
    if ClaimsFor(preds, c.id).Some? {
      var claims := ClaimsFor(preds, c.id).value;
      CountOfPlaces(Met(re, k, claims), c.expected);
      CountOfPlaces(Made(k), claims);
      CountOfPlaces(Right(re, k, c.expected), claims);
    }
  }

  lemma PlacesAre(re: Matcher, preds: seq<Prediction>, k: Kind, c: Case, j: int)
    ensures j in OwedPlaces(k)(c) <==> 0 <= j < |c.expected| && c.expected[j].kind == k
    ensures j in MetPlaces(re, preds, k)(c) <==>
      0 <= j < |c.expected| && c.expected[j].kind == k && MetBy(re, c.expected[j], ClaimsOf(preds, c.id))
    ensures j in MadePlaces(preds, k)(c) <==>
      0 <= j < |ClaimsOf(preds, c.id)| && IsKind(ClaimsOf(preds, c.id)[j].kind, k)
    ensures j in RightPlaces(re, preds, k)(c) <==>
      0 <= j < |ClaimsOf(preds, c.id)| && RightFor(re, k, c.expected, ClaimsOf(preds, c.id)[j])
  {
    hide ClaimsFor, ClaimsOf, Label, IsKind;
    ClaimsAre(preds, c.id);
    forall text, l ensures text == Label(l) <==> IsKind(text, l) {
      LabelsAre(text, l);
    }
  }

  lemma PairsAre(re: Matcher, corpus: seq<Case>, preds: seq<Prediction>, k: Kind)
    ensures PairsAt(OwedPlaces(k), corpus) == ExpectedAt(corpus, k)
    ensures PairsAt(MetPlaces(re, preds, k), corpus) == MatchedAt(re, corpus, preds, k)
    ensures PairsAt(MadePlaces(preds, k), corpus) == PredictedAt(corpus, preds, k)
    ensures PairsAt(RightPlaces(re, preds, k), corpus) == PreciseAt(re, corpus, preds, k)
  {
    hide OwedPlaces, MetPlaces, MadePlaces, RightPlaces, MetBy, RightFor, ClaimsOf, IsKind;
    forall i, j | 0 <= i < |corpus|
      ensures j in OwedPlaces(k)(corpus[i]) <==> (i, j) in ExpectedAt(corpus, k)
      ensures j in MetPlaces(re, preds, k)(corpus[i]) <==> (i, j) in MatchedAt(re, corpus, preds, k)
      ensures j in MadePlaces(preds, k)(corpus[i]) <==> (i, j) in PredictedAt(corpus, preds, k)
      ensures j in RightPlaces(re, preds, k)(corpus[i]) <==> (i, j) in PreciseAt(re, corpus, preds, k)
    {
      PlacesAre(re, preds, k, corpus[i], j);
    }
  }

  /** A kind's tally, as what it counts. */
  lemma TalliesAre(re: Matcher, corpus: seq<Case>, preds: seq<Prediction>, k: Kind)
    ensures Tallied(re, corpus, preds, k) == Tally(
      |ExpectedAt(corpus, k)|, |MatchedAt(re, corpus, preds, k)|,
      |PredictedAt(corpus, preds, k)|, |PreciseAt(re, corpus, preds, k)|)
  {
    hide ExpectedIn, MatchedIn, PredictedIn, PreciseIn, OwedPlaces, MetPlaces, MadePlaces, RightPlaces, Total, PairsAt;
    hide ExpectedAt, MatchedAt, PredictedAt, PreciseAt;
    forall c
      ensures ExpectedIn(k)(c) == |OwedPlaces(k)(c)|
      ensures MatchedIn(re, preds, k)(c) == |MetPlaces(re, preds, k)(c)|
      ensures PredictedIn(preds, k)(c) == |MadePlaces(preds, k)(c)|
      ensures PreciseIn(re, preds, k)(c) == |RightPlaces(re, preds, k)(c)|
    {
      SizesOf(re, preds, k, c);
    }
    TotalOfPlaces(ExpectedIn(k), OwedPlaces(k), corpus);
    TotalOfPlaces(MatchedIn(re, preds, k), MetPlaces(re, preds, k), corpus);
    TotalOfPlaces(PredictedIn(preds, k), MadePlaces(preds, k), corpus);
    TotalOfPlaces(PreciseIn(re, preds, k), RightPlaces(re, preds, k), corpus);
    PairsAre(re, corpus, preds, k);
  }

  /** No claim of the case matches a pattern it forbids. */
  ghost predicate KeepsQuiet(re: Matcher, c: Case, claims: seq<Claim>) {
    forall p, cl | p in c.forbid && cl in claims :: !re(p, cl.text)
  }

  /**
   * A run graduates if and only if every case has an answer that parses and leaks nothing,
   * and each kind is right in at least 80 of 100 claims and met in at least 70 of 100
   * expectations, as far as there are any.
   */
  lemma GraduationAsks(re: Matcher, corpus: seq<Case>, preds: seq<Prediction>)
    ensures Score(re, corpus, preds).graduated <==>
      && (forall c | c in corpus :: exists claims :: Answers(preds, c.id, claims) && KeepsQuiet(re, c, claims))
      && (forall k ::
            && 100 * |PreciseAt(re, corpus, preds, k)| >= 80 * |PredictedAt(corpus, preds, k)|
            && 100 * |MatchedAt(re, corpus, preds, k)| >= 70 * |ExpectedAt(corpus, k)|)
  {
    hide PreciseAt, PredictedAt, MatchedAt, ExpectedAt, Score, Answers, KeepsQuiet, Leaks, Tallied, ClaimsFor;
    GraduatesExactly(re, corpus, preds);
    forall k ensures Tallied(re, corpus, preds, k) == Tally(
      |ExpectedAt(corpus, k)|, |MatchedAt(re, corpus, preds, k)|, |PredictedAt(corpus, preds, k)|, |PreciseAt(re, corpus, preds, k)|)
    {
      TalliesAre(re, corpus, preds, k);
    }
    forall c | c in corpus
      ensures (exists claims :: Answers(preds, c.id, claims) && KeepsQuiet(re, c, claims)) <==>
        ClaimsFor(preds, c.id).Some? && !Leaks(re, c, ClaimsFor(preds, c.id).value)
    {
      AnswersQuietly(re, c, preds);
    }
  }

  lemma AnswersQuietly(re: Matcher, c: Case, preds: seq<Prediction>)
    ensures (exists claims :: Answers(preds, c.id, claims) && KeepsQuiet(re, c, claims)) <==>
      ClaimsFor(preds, c.id).Some? && !Leaks(re, c, ClaimsFor(preds, c.id).value)
  {
    forall claims ensures ClaimsFor(preds, c.id) == Some(claims) <==> Answers(preds, c.id, claims) {
      AnswersAre(preds, c.id, claims);
    }
    forall claims ensures KeepsQuiet(re, c, claims) <==> !Leaks(re, c, claims) {
      QuietIsNoLeak(re, c, claims);
    }
    hide ClaimsFor, Answers, KeepsQuiet, Leaks;
    if ClaimsFor(preds, c.id).Some? {
      assert Answers(preds, c.id, ClaimsFor(preds, c.id).value);
    }
  }

  lemma QuietIsNoLeak(re: Matcher, c: Case, claims: seq<Claim>)
    ensures KeepsQuiet(re, c, claims) <==> !Leaks(re, c, claims)
  {
    if !Leaks(re, c, claims) {
      forall p, cl | p in c.forbid && cl in claims ensures !re(p, cl.text) {
        assert !Matches(re, p, claims);
      }
    } else {
      var p :| p in c.forbid && Matches(re, p, claims);
      var cl :| cl in claims && re(p, cl.text);
    }
  }

  /** An expectation that is matched only outside its weight range is not met. */
  lemma OffRangeIsNotMet(re: Matcher, e: Expectation, claims: seq<Claim>)
    requires forall cl | cl in claims && re(e.claimRe, cl.text) :: cl.weight < e.weightMin || e.weightMax < cl.weight
    ensures !IsMet(re, claims, e)
  {
  }

  // ----- the rest of the report -----

  lemma {:induction false} MatchingAre(re: Matcher, id: string, pattern: string, claims: seq<Claim>, v: Violation)
    ensures v in Matching(re, id, pattern, claims) <==>
      v.id == id && v.forbidRe == pattern && exists cl | cl in claims :: re(pattern, cl.text) && v.text == cl.text
  {
    if claims != [] {
      assert claims == claims[..|claims| - 1] + [claims[|claims| - 1]];
      MatchingAre(re, id, pattern, claims[..|claims| - 1], v);
    }
  }

  lemma {:induction false} ViolationsOfAre(re: Matcher, id: string, forbid: seq<string>, claims: seq<Claim>, v: Violation)
    ensures v in ViolationsOf(re, id, forbid, claims) <==>
      v.id == id && v.forbidRe in forbid && exists cl | cl in claims :: re(v.forbidRe, cl.text) && v.text == cl.text
  {
    hide Matching;
    if forbid != [] {
      var front, last := forbid[..|forbid| - 1], forbid[|forbid| - 1];
      assert forbid == front + [last];
      ViolationsOfAre(re, id, front, claims, v);
      MatchingAre(re, id, last, claims, v);
    }
  }

  /** A violation is reported for every claim of a case that matches a pattern the case forbids. */
  lemma {:induction false} ViolationsAre(re: Matcher, corpus: seq<Case>, preds: seq<Prediction>, v: Violation)
    ensures v in Violations(re, corpus, preds) <==>
      exists c | c in corpus :: v.id == c.id && v.forbidRe in c.forbid
        && exists cl | cl in ClaimsOf(preds, c.id) :: re(v.forbidRe, cl.text) && v.text == cl.text
  {
    hide ViolationsOf, ClaimsFor, ClaimsOf;
    if corpus != [] {
      var front, c := corpus[..|corpus| - 1], corpus[|corpus| - 1];
      assert corpus == front + [c];
      ViolationsAre(re, front, preds, v);
      ClaimsAre(preds, c.id);
      if ClaimsFor(preds, c.id).Some? {
        ViolationsOfAre(re, c.id, c.forbid, ClaimsFor(preds, c.id).value, v);
      }
    }
  }

  /** Overall, each number is the sum over the four kinds. */
  lemma OverallIs(re: Matcher, corpus: seq<Case>, preds: seq<Prediction>)
    ensures var t, f, a, b, h := Score(re, corpus, preds).overall,
        Tallied(re, corpus, preds, Fact), Tallied(re, corpus, preds, Take),
        Tallied(re, corpus, preds, Bet), Tallied(re, corpus, preds, Hunch);
      && t.expected == f.expected + a.expected + b.expected + h.expected
      && t.matched == f.matched + a.matched + b.matched + h.matched
      && t.predicted == f.predicted + a.predicted + b.predicted + h.predicted
      && t.precise == f.precise + a.precise + b.precise + h.precise
  {
    hide Tallied, Violations, Unanswered, AllFailures, Sum;
    SumOfFour(ByKind(re, corpus, preds));
  }
}
