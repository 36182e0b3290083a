/** The weights file between scripts/mine-shard-weights.ts, which writes it, and scripts/sharding.ts, which loads it. */
module WeightsFile {
  import opened Results
  import opened Sorting
  import opened Text
  import opened Json
  import opened JsonMeaning

  /** The value of a JSON number token, `None` when it overflows to infinity. */
  type NumberValue = string -> Option<int>

  // ----- loading -----

  datatype LoadError = MalformedJson | NotAnObject | BadWeight

  /** An object's own properties: of members with one name, the last counts. */
  function Properties(members: seq<(string, Value)>): map<string, Value> {
    if members == [] then map[] else
      var (k, v) := members[|members| - 1];
      Properties(members[..|members| - 1])[k := v]
  }

  predicate IsWeight(number: NumberValue, v: Value) {
    v.Num? && number(v.text).Some? && number(v.text).value >= 0
  }

  function Load(number: NumberValue, text: string): Result<map<string, nat>, LoadError> {
    match Parse(text)
    case None => Err(MalformedJson)
    case Some(v) =>
      if !v.Obj? then Err(NotAnObject) else
        var props := Properties(v.members);
        if forall k | k in props :: IsWeight(number, props[k]) then
          Ok(map k | k in props :: number(props[k].text).value as nat)
        else Err(BadWeight)
  }

  /** `loadWeights` on a file that exists. */
  method LoadWeights(number: NumberValue, text: string) returns (result: Result<map<string, nat>, LoadError>)
    ensures result == Load(number, text)
  {
    hide Parse, Properties;
    var parsed := Parse(text);
    if parsed.None? {
      return Err(MalformedJson);
    }
    if !parsed.value.Obj? {
      return Err(NotAnObject);
    }
    var props := Properties(parsed.value.members);
    var out: map<string, nat> := map[];
    var todo := props.Keys;
    while todo != {}
      invariant todo <= props.Keys
      invariant out.Keys == props.Keys - todo
      invariant forall k | k in out :: IsWeight(number, props[k]) && out[k] == number(props[k].text).value
    {
      var k :| k in todo;
      var v := props[k];
      if !IsWeight(number, v) {
        assert !IsWeight(number, props[k]);
        return Err(BadWeight);
      }
      out := out[k := number(v.text).value];
      todo := todo - {k};
    }
    assert out == map k | k in props :: number(props[k].text).value as nat;
    result := Ok(out);
  }

  /** Of the members with that name, the last has this value. */
  ghost predicate LastMemberIs(members: seq<(string, Value)>, k: string, v: Value) {
    exists i | 0 <= i < |members| :: members[i] == (k, v) && forall j | i < j < |members| :: members[j].0 != k
  }

  lemma LastMemberSnoc(front: seq<(string, Value)>, m: (string, Value), k: string, v: Value)
    ensures LastMemberIs(front + [m], k, v) <==> m == (k, v) || (m.0 != k && LastMemberIs(front, k, v))
  {
    var members := front + [m];
    if m == (k, v) {
      assert members[|front|] == (k, v);
    } else if i :| m.0 != k && 0 <= i < |front| && front[i] == (k, v) && forall j | i < j < |front| :: front[j].0 != k {
      assert members[i] == (k, v) && forall j | i < j < |members| :: j == |front| || members[j] == front[j];
    }
    if i :| 0 <= i < |members| && members[i] == (k, v) && forall j | i < j < |members| :: members[j].0 != k {
      assert i < |front| ==> members[|front|].0 != k && front[i] == (k, v) && forall j | i < j < |front| :: front[j] == members[j];
    }
  }

  lemma {:induction false} PropertiesAre(members: seq<(string, Value)>, k: string, v: Value)
    ensures k in Properties(members) && Properties(members)[k] == v <==> LastMemberIs(members, k, v)
  {
    hide LastMemberIs;
    if members == [] {
      NoMembers(k, v);
    } else {
      var front, m := members[..|members| - 1], members[|members| - 1];
      assert members == front + [m];
      PropertiesAre(front, k, v);
      LastMemberSnoc(front, m, k, v);
    }
  }

  lemma NoMembers(k: string, v: Value)
    ensures !LastMemberIs([], k, v)
  {
  }

  /**
   * What is loaded, exactly: an object whose members, the last of each name, are all
   * numbers and none negative, with their values; and what is wrong with anything else.
   */
  lemma LoadsExactly(number: NumberValue, text: string)
    ensures Load(number, text) == Err(MalformedJson) <==> Parse(text) == None
    ensures Load(number, text) == Err(NotAnObject) <==> Parse(text).Some? && !Parse(text).value.Obj?
    ensures Parse(text).Some? && Parse(text).value.Obj? ==>
      var members, r := Parse(text).value.members, Load(number, text);
      && (r == Err(BadWeight) <==>
          exists k, v | LastMemberIs(members, k, v) :: !(v.Num? && number(v.text).Some? && number(v.text).value >= 0))
      && (r.Ok? ==> forall k, v | LastMemberIs(members, k, v) :: k in r.value && number(v.text) == Some(r.value[k]))
      && (r.Ok? ==> forall k | k in r.value :: exists v :: LastMemberIs(members, k, v))
  {
    hide Parse, Properties, LastMemberIs;
    if Parse(text).Some? && Parse(text).value.Obj? {
      var members := Parse(text).value.members;
      var props := Properties(members);
      forall k, v ensures k in props && props[k] == v <==> LastMemberIs(members, k, v) {
        PropertiesAre(members, k, v);
      }
      assert forall k | k in props :: LastMemberIs(members, k, props[k]);
    }
  }

  // ----- serializing -----

  /** Assigning a number to `__proto__` on a plain object creates no property. */
  const PROTO := "__proto__"

  /** One line of `JSON.stringify(obj, null, 2)`. */
  function Member(k: string, w: nat): string {
    "  \"" + (EscapedAll(k) + ("\"" + (": " + DecNat(w))))
  }

  function Members(keys: seq<string>, weights: map<string, nat>): string
    requires keys != [] && forall k | k in keys :: k in weights
  {
    if |keys| == 1 then Member(keys[0], weights[keys[0]]) + "\n}"
    else Member(keys[0], weights[keys[0]]) + (",\n" + Members(keys[1..], weights))
  }

  function Render(keys: seq<string>, weights: map<string, nat>): string
    requires forall k | k in keys :: k in weights
  {
    if keys == [] then "{}\n" else "{\n" + (Members(keys, weights) + "\n")
  }

  /** A decimal numeral below 2^32 - 1 without leading zeros: an object lists such keys first, in numeric order. */
  predicate IsArrayIndex(k: string) {
    && k != [] && (forall c | c in k :: IsDigit(c))
    && (k[0] == '0' ==> k == "0") && NatValue(k) < 0xFFFF_FFFF
  }

  function IndexValue(k: string): nat {
    if IsArrayIndex(k) then NatValue(k) else 0
  }

  predicate IndexLe(a: string, b: string) { IndexValue(a) <= IndexValue(b) }

  predicate IsPlainKey(k: string) { !IsArrayIndex(k) }

  /** The order in which an object lists its keys, given the order in which they were assigned. */
  function OwnKeys(inserted: seq<string>): seq<string> {
    Sort(IndexLe, Filter(IsArrayIndex, inserted)) + Filter(IsPlainKey, inserted)
  }

  /** The text written: every weight whose key the object keeps, assigned in sorted order. */
  ghost function Serialized(weights: map<string, nat>): string {
    OwnKeysList(weights.Keys - {PROTO});
    Render(OwnKeys(SortedSet(StrLe, weights.Keys - {PROTO})), weights)
  }

  lemma OwnKeysList(keys: set<string>)
    ensures Lists(OwnKeys(SortedSet(StrLe, keys)), keys)
  {
    StrLeIsTotalOrder();
    SortedSetFacts(StrLe, keys);
    var inserted := SortedSet(StrLe, keys);
    OwnKeysPermute(inserted);
    hide Sort, SortedSet, OwnKeys;
    NoDupOfPermutation(inserted, OwnKeys(inserted));
    forall k ensures k in OwnKeys(inserted) <==> k in inserted {
      assert k in OwnKeys(inserted) <==> k in multiset(OwnKeys(inserted));
      assert k in inserted <==> k in multiset(inserted);
    }
  }

  lemma OwnKeysPermute(inserted: seq<string>)
    ensures multiset(OwnKeys(inserted)) == multiset(inserted)
  {
    hide IndexLe, IsArrayIndex;
    assert TotalPreorder(IndexLe) by { IndexLeIsTotal(); }
    SortSorts(IndexLe, Filter(IsArrayIndex, inserted));
    FilterSplits(IsArrayIndex, IsPlainKey, inserted);
  }

  lemma IndexLeIsTotal()
    ensures TotalPreorder(IndexLe)
  {
  }

  /** When no key is an array index the lines come in sorted order, so that files differ little from one run to the next. */
  lemma LinesAreSorted(weights: map<string, nat>)
    requires forall k | k in weights :: !IsArrayIndex(k)
    ensures forall k | k in SortedSet(StrLe, weights.Keys - {PROTO}) :: k in weights
    ensures Serialized(weights) == Render(SortedSet(StrLe, weights.Keys - {PROTO}), weights)
  {
    StrLeIsTotalOrder();
    SortedSetFacts(StrLe, weights.Keys - {PROTO});
    var sorted := SortedSet(StrLe, weights.Keys - {PROTO});
    hide IsArrayIndex;
    FilterNone(IsArrayIndex, sorted);
    FilterAll(IsPlainKey, sorted);
    assert [] + sorted == sorted;
  }

  /** Array indices are the numerals of the numbers below 2^32 - 1. */
  lemma ArrayIndicesAre(k: string)
    ensures IsArrayIndex(k) <==> exists n: nat :: n < 4294967295 && k == DecNat(n)
  {
    if IsArrayIndex(k) {
      NumeralOf(k);
    } else if n: nat :| n < 4294967295 && k == DecNat(n) {
      NatValueOfDec(n);
      NoLeadingZero(n);
      hide DecNat, NatValue;
      assert false;
    }
  }

  lemma {:induction false} NumeralOf(k: string)
    requires k != "" && (forall c | c in k :: IsDigit(c)) && (k[0] == '0' ==> k == "0")
    ensures DecNat(NatValue(k)) == k
    ensures k[0] != '0' ==> NatValue(k) > 0
  {
    var front, last := k[..|k| - 1], k[|k| - 1];
    assert k == front + [last];
    if front == "" {
      assert NatValue(front) == 0;
      assert DecNat(DigitValue(last)) == [last];
    } else {
      assert front[0] == k[0] && front != "0";
      NumeralOf(front);
      assert NatValue(k) == 10 * NatValue(front) + DigitValue(last) >= 10;
      assert DigitChar(DigitValue(last)) == last;
    }
  }

  /** One line for each entry, indented by two spaces. */
  function EntryLines(keys: seq<string>, weights: map<string, nat>): seq<string>
    requires forall k | k in keys :: k in weights
  {
    seq(|keys|, i requires 0 <= i < |keys| =>
      "  \"" + EscapedAll(keys[i]) + "\": " + DecNat(weights[keys[i]]) + if i + 1 < |keys| then "," else "")
  }

  /** The text by lines. */
  lemma RenderIsLines(keys: seq<string>, weights: map<string, nat>)
    requires forall k | k in keys :: k in weights
    ensures Render(keys, weights) == if keys == [] then "{}\n" else Unlines(["{"] + EntryLines(keys, weights) + ["}"])
  {
    if keys != [] {
      var rest := EntryLines(keys, weights) + ["}"];
      MembersAreLines(keys, weights);
      assert ["{"] + EntryLines(keys, weights) + ["}"] == ["{"] + rest;
      assert (["{"] + rest)[1..] == rest;
      hide Members, EntryLines;
      assert Unlines(["{"] + rest) == "{" + "\n" + Unlines(rest);
      assert "{" + "\n" == "{\n";
    }
  }

  lemma {:induction false} MembersAreLines(keys: seq<string>, weights: map<string, nat>)
    requires keys != [] && forall k | k in keys :: k in weights
    ensures Members(keys, weights) + "\n" == Unlines(EntryLines(keys, weights) + ["}"])
    decreases |keys|
  {
    hide EscapedAll, DecNat;
    var lines := EntryLines(keys, weights) + ["}"];
    var entry := Member(keys[0], weights[keys[0]]);
    if |keys| == 1 {
      assert lines[0] == entry + "" == entry;
      assert lines == [entry, "}"];
      assert lines[1..] == ["}"] && ["}"][1..] == [];
      assert Unlines(["}"]) == "}\n";
      assert entry + "\n}" + "\n" == entry + "\n" + "}\n";
    } else {
      var rest := keys[1..];
      MembersAreLines(rest, weights);
      assert lines[0] == entry + "," && lines[1..] == EntryLines(rest, weights) + ["}"];
      assert entry + (",\n" + Members(rest, weights)) + "\n" == entry + "," + "\n" + (Members(rest, weights) + "\n");
    }
  }

  predicate IsKept(k: string) { k != PROTO }

  method SerializeWeights(weights: map<string, nat>) returns (text: string)
    ensures text == Serialized(weights)
  {
    hide Sort, SortedSet, OwnKeys, Filter;
    var keys := ListOf(weights.Keys);
    var sorted := Sort(StrLe, keys);
    StrLeIsTotalOrder();
    SortOfListing(StrLe, keys, weights.Keys);
    SortedSetFacts(StrLe, weights.Keys);
    var kept := KeepProperties(sorted);
    FilterKeepsSorted(StrLe, IsKept, sorted);
    FilterKeepsNoDup(IsKept, sorted);
    SortedListing(kept, weights.Keys - {PROTO});
    OwnKeysList(weights.Keys - {PROTO});
    text := Render(OwnKeys(kept), weights);
  }

  /** The loop that assigns the entries to a plain object, and the properties that object then has. */
  method KeepProperties(sorted: seq<string>) returns (kept: seq<string>)
    ensures kept == Filter(IsKept, sorted)
  {
    kept := [];
    for i := 0 to |sorted|
      invariant kept == Filter(IsKept, sorted[..i])
    {
      assert sorted[..i + 1][..i] == sorted[..i];
      if sorted[i] != PROTO {
        kept := kept + [sorted[i]];
      }
    }
    assert sorted[..|sorted|] == sorted;
  }

  lemma SortedListing(s: seq<string>, keys: set<string>)
    requires SortedBy(StrLe, s) && Lists(s, keys)
    ensures s == SortedSet(StrLe, keys)
  {
    hide SortedSet;
    StrLeIsTotalOrder();
    SortedSetFacts(StrLe, keys);
    ListsSameMultiset(s, SortedSet(StrLe, keys), keys);
    SortedUnique(StrLe, s, SortedSet(StrLe, keys));
  }

  // ----- round trip -----

  function MemberValues(keys: seq<string>, weights: map<string, nat>): (r: seq<(string, Value)>)
    requires forall k | k in keys :: k in weights
    ensures |r| == |keys| && forall i | 0 <= i < |r| :: r[i] == (keys[i], Num(DecNat(weights[keys[i]])))
  {
    seq(|keys|, i requires 0 <= i < |keys| => (keys[i], Num(DecNat(weights[keys[i]]))))
  }

  lemma {:induction false} MemberReadsBack(k: string, w: nat, rest: string)
    requires rest != [] && !IsDigit(rest[0]) && rest[0] != '.' && rest[0] != 'e' && rest[0] != 'E'
    ensures ReadMember(Member(k, w) + rest) == Some(((k, Num(DecNat(w))), rest))
  {
    hide ReadString, EscapedAll, DecNat, ReadNumber, ReadValue, SkipWs;
    var number := DecNat(w) + rest;
    var afterKey := ": " + number;
    var s := "\"" + (EscapedAll(k) + ("\"" + afterKey));
    assert Member(k, w) + rest == "  " + s;
    SkipSpaces(s);
    assert s[1..] == EscapedAll(k) + ("\"" + afterKey);
    QuotedReadsBack(k, afterKey);
    TokenKept(afterKey);
    assert afterKey[1..] == " " + number;
    NumberValueReadsBack(w, rest);
  }

  lemma SkipSpaces(s: string)
    requires s != [] && !IsWs(s[0])
    ensures SkipWs("  " + s) == s
  {
    var t, u := "  " + s, " " + s;
    assert t[1..] == u && u[1..] == s && t[0] == ' ' && u[0] == ' ';
    assert SkipWs(u) == SkipWs(s) == s;
  }

  lemma NumberValueReadsBack(w: nat, rest: string)
    requires rest != [] && !IsDigit(rest[0]) && rest[0] != '.' && rest[0] != 'e' && rest[0] != 'E'
    ensures ReadValue(" " + (DecNat(w) + rest)) == Some((Num(DecNat(w)), rest))
  {
    hide DecNat, ReadNumber, ReadMembers, ReadItems, ReadString;
    var s := DecNat(w) + rest;
    assert s[0] == DecNat(w)[0] && s[0] in DecNat(w) && IsDigit(s[0]);
    assert (" " + s)[1..] == s;
    assert SkipWs(s) == s;
    NumeralReadsBack(w, rest);
  }

  lemma CloseAfterNewline(rest: string)
    ensures SkipWs("\n}" + rest) == "}" + rest
  {
    assert "\n}" + rest == "\n" + ("}" + rest);
    BlankThenToken("\n", "}" + rest);
  }

  lemma {:induction false} MembersReadBack(keys: seq<string>, weights: map<string, nat>, rest: string)
    requires keys != [] && forall k | k in keys :: k in weights
    ensures ReadMembers("\n" + (Members(keys, weights) + rest)) == Some((MemberValues(keys, weights), rest))
    decreases |keys|
  {
    hide ReadMember, ReadMembers, Member, DecNat;
    var k := keys[0];
    var w := weights[k];
    var text := "\n" + (Members(keys, weights) + rest);
    if |keys| == 1 {
      var tail := "\n}" + rest;
      MemberAfterNewline(k, w, tail);
      assert text == "\n" + (Member(k, w) + tail);
      CloseAfterNewline(rest);
      LastMember(text, (k, Num(DecNat(w))), tail, rest);
      assert MemberValues(keys, weights) == [(k, Num(DecNat(w)))];
    } else {
      var more := "\n" + (Members(keys[1..], weights) + rest);
      MemberAfterNewline(k, w, "," + more);
      assert text == "\n" + (Member(k, w) + ("," + more));
      MembersReadBack(keys[1..], weights, rest);
      TokenKept("," + more);
      NextMember(text, (k, Num(DecNat(w))), "," + more, more, MemberValues(keys[1..], weights), rest);
      assert MemberValues(keys, weights) == [(k, Num(DecNat(w)))] + MemberValues(keys[1..], weights);
    }
  }

  lemma MemberAfterNewline(k: string, w: nat, rest: string)
    requires rest != [] && !IsDigit(rest[0]) && rest[0] != '.' && rest[0] != 'e' && rest[0] != 'E'
    ensures ReadMember("\n" + (Member(k, w) + rest)) == Some(((k, Num(DecNat(w))), rest))
  {
    hide ReadValue, ReadString, EscapedAll, DecNat;
    MemberReadsBack(k, w, rest);
    var s := Member(k, w) + rest;
    assert ("\n" + s)[1..] == s;
    assert SkipWs("\n" + s) == SkipWs(s);
  }

  lemma EmptyObjectParses()
    ensures Parse("{}\n") == Some(Obj([]))
  {
    var text := "{}\n";
    assert text[1..] == "}\n" && "}\n"[1..] == "\n" && "\n"[1..] == "";
    hide ReadMembers, ReadItems, ReadString, ReadNumber;
    TokenKept(text);
    TokenKept("}\n");
    assert SkipWs("\n") == SkipWs("");
  }

  /** An object parses when its member list does. */
  lemma ObjectParses(text: string, ms: seq<(string, Value)>, rest: string)
    requires text != [] && text[0] == '{' && SkipWs(rest) == []
    requires ReadMembers(text[1..]) == Some((ms, rest))
    requires var t := SkipWs(text[1..]); t != [] && t[0] == '"'
    ensures Parse(text) == Some(Obj(ms))
  {
    hide ReadMembers, ReadItems, ReadString, ReadNumber;
    TokenKept(text);
    ReadMembersSkips(text[1..]);
  }

  lemma RenderParses(keys: seq<string>, weights: map<string, nat>)
    requires forall k | k in keys :: k in weights
    ensures Parse(Render(keys, weights)) == Some(Obj(MemberValues(keys, weights)))
  {
    hide Parse, Members, ReadMembers;
    if keys == [] {
      EmptyObjectParses();
      assert MemberValues(keys, weights) == [];
    } else {
      var text := Render(keys, weights);
      MembersReadBack(keys, weights, "\n");
      assert text[1..] == "\n" + (Members(keys, weights) + "\n");
      MembersBegin(keys, weights);
      assert "\n"[1..] == "" && SkipWs("\n") == SkipWs("");
      ObjectParses(text, MemberValues(keys, weights), "\n");
    }
  }

  lemma MembersBegin(keys: seq<string>, weights: map<string, nat>)
    requires keys != [] && forall k | k in keys :: k in weights
    ensures var t := SkipWs("\n" + (Members(keys, weights) + "\n")); t != [] && t[0] == '"'
  {
    var s := Members(keys, weights) + "\n";
    assert s[0] == ' ' && s[1] == ' ' && s[2] == '"';
    assert ("\n" + s)[1..] == s && s[1..][0] == ' ' && s[1..][1..] == s[2..] && s[2..][0] == '"';
    assert SkipWs(s[2..]) == s[2..];
    assert SkipWs(s[1..]) == s[2..];
  }

  lemma {:induction false} PropertiesOfMembers(keys: seq<string>, weights: map<string, nat>)
    requires NoDup(keys) && forall k | k in keys :: k in weights
    ensures Properties(MemberValues(keys, weights)) == map k | k in keys :: Num(DecNat(weights[k]))
  {
    hide DecNat;
    if keys != [] {
      var front, last := keys[..|keys| - 1], keys[|keys| - 1];
      PropertiesOfMembers(front, weights);
      assert MemberValues(keys, weights)[..|keys| - 1] == MemberValues(front, weights);
      assert keys == front + [last];
    }
  }

  /** What is written is read back, but for a weight under `__proto__`, which the writer loses. */
  lemma LoadOfSerialized(number: NumberValue, weights: map<string, nat>)
    requires ReadsDecimals(number)
    ensures Load(number, Serialized(weights)) == Ok(weights - {PROTO})
  {
    hide Parse, Render, DecNat, Properties, OwnKeys, SortedSet;
    var keys := OwnKeys(SortedSet(StrLe, weights.Keys - {PROTO}));
    OwnKeysList(weights.Keys - {PROTO});
    RenderParses(keys, weights);
    PropertiesOfMembers(keys, weights);
    forall n: nat ensures number(DecNat(n)) == Some(n) {
      assert Dec(n) == DecNat(n);
    }
    var props := Properties(MemberValues(keys, weights));
    assert props.Keys == (weights - {PROTO}).Keys;
    assert (map k | k in props :: number(props[k].text).value as nat) == weights - {PROTO};
  }

  /** The weights file round trips exactly when no weight is filed under `__proto__`; no test file is. */
  lemma WeightsRoundTripExactly(number: NumberValue, weights: map<string, nat>)
    requires ReadsDecimals(number)
    ensures Load(number, Serialized(weights)) == Ok(weights) <==> PROTO !in weights
  {
    hide Load, Serialized;
    LoadOfSerialized(number, weights);
    assert PROTO !in weights ==> weights - {PROTO} == weights;
  }

  /** The one key that is lost. */
  lemma ProtoIsLost(number: NumberValue, w: nat)
    requires ReadsDecimals(number)
    ensures Serialized(map[PROTO := w]) == "{}\n" && Load(number, "{}\n") == Ok(map[])
  {
    var weights := map[PROTO := w];
    assert weights.Keys - {PROTO} == {} && weights - {PROTO} == map[];
    LoadOfSerialized(number, weights);
    hide OwnKeys, SortedSet, Load;
    OwnKeysList({});
    var keys := OwnKeys(SortedSet(StrLe, {}));
  }
}
