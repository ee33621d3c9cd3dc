/**
 The validator of the contract runtime. It throws two kinds of error: a ContractDecodeError, which
 `accepts` turns into a mismatch, and any other error, which no combinator catches.
 */
module SchemaValidator {
  import opened Optional
  import opened Utf16Text
  import opened NumberText
  import opened JsonText
  import opened CanonicalJson
  import opened JsonPointer
  import opened SchemaMeaning

  /** `Reject` is a thrown ContractDecodeError, `Crash` any other thrown error. */
  datatype Verdict = Accept | Reject | Crash

  // ----- The schemas the validator supports -----

  predicate IsSchema(j: Json) { j.JBool? || j.JObj? }

  predicate AllStrings(items: seq<Json>)
  {
    forall i :: 0 <= i < |items| ==> items[i].JStr?
  }

  predicate HoldsArray(rule: seq<Member>, name: string)
  {
    Keyword(rule, name).Some? ==> Keyword(rule, name).value.JArr?
  }

  /** The keywords hold values of the types the JsonSchema declaration gives them. */
  predicate Shaped(rule: seq<Member>)
  {
    && HoldsArray(rule, "allOf") && HoldsArray(rule, "anyOf") && HoldsArray(rule, "oneOf") && HoldsArray(rule, "enum")
    && HoldsArray(rule, "required") && AllStrings(Branches(rule, "required"))
    && (Keyword(rule, "type").Some? ==>
          Keyword(rule, "type").value.JStr? ||
            (Keyword(rule, "type").value.JArr? && AllStrings(Keyword(rule, "type").value.items)))
    && (Keyword(rule, "items").Some? ==> IsSchema(Keyword(rule, "items").value))
    && (Keyword(rule, "additionalProperties").Some? ==> IsSchema(Keyword(rule, "additionalProperties").value))
    && (Keyword(rule, "properties").Some? ==> Keyword(rule, "properties").value.JObj?)
    && (Keyword(rule, "pattern").Some? ==> Keyword(rule, "pattern").value.JStr?)
    && (Keyword(rule, "format").Some? ==> Keyword(rule, "format").value.JStr?)
    && NumericLimits(rule)
  }

  predicate HoldsNumber(rule: seq<Member>, name: string)
  {
    Keyword(rule, name).Some? ==> Keyword(rule, name).value.JNum?
  }

  predicate NumericLimits(rule: seq<Member>)
  {
    && HoldsNumber(rule, "minLength") && HoldsNumber(rule, "maxLength")
    && HoldsNumber(rule, "minItems") && HoldsNumber(rule, "maxItems")
    && HoldsNumber(rule, "minimum") && HoldsNumber(rule, "maximum")
  }

  /** Everything the rule mentions is known: its reference, its types, its format and its pattern. */
  ghost predicate Supported(env: Env, rule: Json)
  {
    match rule
    case JBool(_) => true
    case JObj(r) =>
      && Shaped(r)
      && (Keyword(r, "$ref").Some? ==> Target(env, r).Found?)
      && UnknownType !in Types(r)
      && !RuleBounds(r).UnknownFormat?
      && (Keyword(r, "pattern").Some? ==> forall s :: !env.regex(Keyword(r, "pattern").value.s, s).Malformed?)
    case _ => false
  }

  /** Every rule that validation can come to is supported. */
  ghost predicate SupportedThroughout(env: Env, rule: Json)
  {
    forall x :: LeadsTo(env, rule, x) ==> Supported(env, x)
  }

  lemma SupportedNext(env: Env, rule: Json)
    requires SupportedThroughout(env, rule)
    ensures Supported(env, rule)
    ensures forall next :: Leads(env, rule, next) ==> SupportedThroughout(env, next)
  {
    hide Supported;
    hide Leads;
    hide LeadsTo;
    LeadsToParts(env, rule);
    forall next | Leads(env, rule, next) ensures SupportedThroughout(env, next) {
      LeadsOn(env, rule, next);
    }
  }

  // ----- The validator -----

  /** `accepts`: a mismatch is an answer, any other error is passed on. */
  datatype Answer = Yes | No | Thrown

  function Catch(verdict: Verdict): Answer
  {
    match verdict
    case Accept => Yes
    case Reject => No
    case Crash => Thrown
  }

  method Accepts(env: Env, rule: Json, value: Json) returns (answer: Answer)
    requires Guarded(env, rule)
    ensures answer.Yes? ==> Valid(env, true, rule, value)
    ensures answer.No? ==> !Valid(env, true, rule, value)
    ensures SupportedThroughout(env, rule) ==> !answer.Thrown?
    decreases value, Rank(env, rule), 4, 0
  {
    var verdict := Validate(env, rule, value);
    return Catch(verdict);
  }

  /**
   `validate`: accepting means the value satisfies the schema, rejecting means it does not, and on
   supported schemas there is no third outcome.
   */
  method Validate(env: Env, rule: Json, value: Json) returns (verdict: Verdict)
    requires Guarded(env, rule)
    ensures verdict.Accept? ==> Valid(env, true, rule, value)
    ensures verdict.Reject? ==> !Valid(env, true, rule, value)
    ensures SupportedThroughout(env, rule) ==> !verdict.Crash?
    decreases value, Rank(env, rule), 3, 0
  {
    if rule.JBool? {
      return if rule.b then Accept else Reject;
    }
    if SupportedThroughout(env, rule) {
      SupportedNext(env, rule);
    }
    if !rule.JObj? || !Shaped(rule.members) {
      return Crash;
    }
    if Keyword(rule.members, "$ref").Some? {
      verdict := ValidateReference(env, rule, value);
      return;
    }
    verdict := ValidateCombinators(env, rule, value);
    if !verdict.Accept? {
      return;
    }
    var constant := ValidateConstants(rule.members, value);
    if !constant {
      return Reject;
    }
    verdict := ValidateType(rule.members, value);
    if !verdict.Accept? {
      return;
    }
    verdict := ValidateValue(env, rule, value);
  }

  /** A rule with `$ref` is its target: the keywords beside `$ref` are ignored. */
  method ValidateReference(env: Env, rule: Json, value: Json) returns (verdict: Verdict)
    requires Guarded(env, rule) && rule.JObj? && Keyword(rule.members, "$ref").Some?
    ensures verdict.Accept? ==> Valid(env, true, rule, value)
    ensures verdict.Reject? ==> !Valid(env, true, rule, value)
    ensures SupportedThroughout(env, rule) ==> !verdict.Crash?
    decreases value, Rank(env, rule), 2, 0
  {
    if SupportedThroughout(env, rule) {
      SupportedNext(env, rule);
    }
    RankDecreases(env, rule);
    var reference := Keyword(rule.members, "$ref").value;
    if !reference.JStr? {
      return Crash;
    }
    var target := ResolveReference(env.root, reference.s);
    if !target.Found? {
      return Crash;
    }
    assert target.schema in InPlace(env, rule);
    verdict := Validate(env, target.schema, value);
  }

  method ValidateValue(env: Env, rule: Json, value: Json) returns (verdict: Verdict)
    requires Guarded(env, rule) && Direct(rule) && Shaped(rule.members)
    ensures verdict.Accept? ==> ValueHolds(env, true, rule, value)
    ensures verdict.Reject? ==> !ValueHolds(env, true, rule, value)
    ensures SupportedThroughout(env, rule) ==> !verdict.Crash?
    decreases value, Rank(env, rule), 2, 0
  {
    if SupportedThroughout(env, rule) {
      SupportedNext(env, rule);
    }
    match value {
      case JStr(s) => verdict := ValidateString(env, rule.members, s);
      case JNum(n) => verdict := ValidateNumber(rule.members, n);
      case JArr(_) => verdict := ValidateArray(env, rule, value);
      case JObj(_) => verdict := ValidateObject(env, rule, value);
      case _ => return Accept;
    }
  }

  /** The `allOf`, `anyOf` and `oneOf` steps, in the order the validator takes them. */
  method ValidateCombinators(env: Env, rule: Json, value: Json) returns (verdict: Verdict)
    requires Guarded(env, rule) && Direct(rule) && Shaped(rule.members)
    ensures verdict.Accept? ==>
      AllOfHolds(env, true, rule, value) && AnyOfHolds(env, true, rule, value) && OneOfHolds(env, true, rule, value)
    ensures verdict.Reject? ==>
      !(AllOfHolds(env, true, rule, value) && AnyOfHolds(env, true, rule, value) && OneOfHolds(env, true, rule, value))
    ensures SupportedThroughout(env, rule) ==> !verdict.Crash?
    decreases value, Rank(env, rule), 2, 0
  {
    verdict := ValidateAllOf(env, rule, value);
    if !verdict.Accept? {
      return;
    }
    verdict := ValidateAnyOf(env, rule, value);
    if !verdict.Accept? {
      return;
    }
    verdict := ValidateOneOf(env, rule, value);
  }

  method ValidateAllOf(env: Env, rule: Json, value: Json) returns (verdict: Verdict)
    requires Guarded(env, rule) && Direct(rule)
    ensures verdict.Accept? ==> AllOfHolds(env, true, rule, value)
    ensures verdict.Reject? ==> !AllOfHolds(env, true, rule, value)
    ensures SupportedThroughout(env, rule) ==> !verdict.Crash?
    decreases value, Rank(env, rule), 1, 1
  {
    BranchFacts(env, rule);
    verdict := ValidateAll(env, Branches(rule.members, "allOf"), value, Rank(env, rule),
      SupportedThroughout(env, rule));
  }

  method ValidateAnyOf(env: Env, rule: Json, value: Json) returns (verdict: Verdict)
    requires Guarded(env, rule) && Direct(rule)
    ensures verdict.Accept? ==> AnyOfHolds(env, true, rule, value)
    ensures verdict.Reject? ==> !AnyOfHolds(env, true, rule, value)
    ensures SupportedThroughout(env, rule) ==> !verdict.Crash?
    decreases value, Rank(env, rule), 1, 1
  {
    if Keyword(rule.members, "anyOf").None? {
      return Accept;
    }
    BranchFacts(env, rule);
    verdict := ValidateAny(env, Branches(rule.members, "anyOf"), value, Rank(env, rule),
      SupportedThroughout(env, rule));
  }

  method ValidateOneOf(env: Env, rule: Json, value: Json) returns (verdict: Verdict)
    requires Guarded(env, rule) && Direct(rule)
    ensures verdict.Accept? ==> OneOfHolds(env, true, rule, value)
    ensures verdict.Reject? ==> !OneOfHolds(env, true, rule, value)
    ensures SupportedThroughout(env, rule) ==> !verdict.Crash?
    decreases value, Rank(env, rule), 1, 1
  {
    if Keyword(rule.members, "oneOf").None? {
      return Accept;
    }
    BranchFacts(env, rule);
    verdict := ValidateOne(env, Branches(rule.members, "oneOf"), value, Rank(env, rule),
      SupportedThroughout(env, rule));
  }

  lemma BranchFacts(env: Env, rule: Json)
    requires Guarded(env, rule) && Direct(rule)
    ensures var supported := SupportedThroughout(env, rule);
            && BranchesOf(env, Branches(rule.members, "allOf"), Rank(env, rule), supported)
            && BranchesOf(env, Branches(rule.members, "anyOf"), Rank(env, rule), supported)
            && BranchesOf(env, Branches(rule.members, "oneOf"), Rank(env, rule), supported)
  {
    BranchesDecrease(env, rule);
    if SupportedThroughout(env, rule) {
      SupportedNext(env, rule);
    }
    hide SupportedThroughout;
    hide Guarded;
    hide Rank;
    hide Descends;
    var r := rule.members;
    assert forall m :: m in Branches(r, "allOf") ==> m in InPlace(env, rule) && Leads(env, rule, m);
    assert forall m :: m in Branches(r, "anyOf") ==> m in InPlace(env, rule) && Leads(env, rule, m);
    assert forall m :: m in Branches(r, "oneOf") ==> m in InPlace(env, rule) && Leads(env, rule, m);
  }

  /** The branches of a rule of that rank, and whether everything they lead to is supported. */
  ghost predicate BranchesOf(env: Env, branches: seq<Json>, rank: nat, supported: bool)
  {
    Lower(env, branches, rank) && (supported ==> forall m :: m in branches ==> SupportedThroughout(env, m))
  }

  method ValidateAll(env: Env, branches: seq<Json>, value: Json, ghost rank: nat, ghost supported: bool)
    returns (verdict: Verdict)
    requires BranchesOf(env, branches, rank, supported)
    ensures verdict.Accept? ==> forall m :: m in branches ==> Valid(env, true, m, value)
    ensures verdict.Reject? ==> exists m :: m in branches && !Valid(env, true, m, value)
    ensures supported ==> !verdict.Crash?
    decreases value, rank, 1, 0
  {
    hide Rank;
    hide Valid;
    for i := 0 to |branches|
      invariant forall j :: 0 <= j < i ==> Valid(env, true, branches[j], value)
    {
      verdict := Validate(env, branches[i], value);
      if !verdict.Accept? {
        return;
      }
    }
    return Accept;
  }

  method ValidateAny(env: Env, branches: seq<Json>, value: Json, ghost rank: nat, ghost supported: bool)
    returns (verdict: Verdict)
    requires BranchesOf(env, branches, rank, supported)
    ensures verdict.Accept? ==> exists m :: m in branches && Valid(env, true, m, value)
    ensures verdict.Reject? ==> forall m :: m in branches ==> !Valid(env, true, m, value)
    ensures supported ==> !verdict.Crash?
    decreases value, rank, 1, 0
  {
    hide Rank;
    hide Valid;
    hide Guarded;
    hide SupportedThroughout;
    for i := 0 to |branches|
      invariant forall j :: 0 <= j < i ==> !Valid(env, true, branches[j], value)
    {
      var answer := Accepts(env, branches[i], value);
      match answer {
        case Yes => return Accept;
        case Thrown => return Crash;
        case No =>
      }
    }
    return Reject;
  }

  method ValidateOne(env: Env, branches: seq<Json>, value: Json, ghost rank: nat, ghost supported: bool)
    returns (verdict: Verdict)
    requires BranchesOf(env, branches, rank, supported)
    ensures verdict.Accept? ==> exists i :: OnlyBranch(env, true, branches, rank, value, i)
    ensures verdict.Reject? ==> !exists i :: OnlyBranch(env, true, branches, rank, value, i)
    ensures supported ==> !verdict.Crash?
    decreases value, rank, 1, 0
  {
    hide Rank;
    hide Valid;
    var matches := 0;
    ghost var outcomes: seq<bool> := [];
    for i := 0 to |branches|
      invariant |outcomes| == i && matches == CountTrue(outcomes)
      invariant forall j :: 0 <= j < i ==> outcomes[j] == Valid(env, true, branches[j], value)
    {
      var answer := Accepts(env, branches[i], value);
      if answer.Thrown? {
        return Crash;
      }
      outcomes := outcomes + [answer.Yes?];
      CountTrueAppend(outcomes[..i], answer.Yes?);
      assert outcomes[..i] + [answer.Yes?] == outcomes;
      if answer.Yes? {
        matches := matches + 1;
      }
    }
    OneTrue(outcomes);
    assert forall i :: OnlyBranch(env, true, branches, rank, value, i) <==> OnlyTrue(outcomes, i);
    return if matches == 1 then Accept else Reject;
  }

  ghost function CountTrue(outcomes: seq<bool>): nat
  {
    if outcomes == [] then 0 else (if outcomes[0] then 1 else 0) + CountTrue(outcomes[1..])
  }

  ghost predicate OnlyTrue(outcomes: seq<bool>, i: int)
  {
    0 <= i < |outcomes| && forall j :: 0 <= j < |outcomes| ==> (outcomes[j] <==> i == j)
  }

  lemma {:induction false} CountTrueAppend(outcomes: seq<bool>, b: bool)
    ensures CountTrue(outcomes + [b]) == CountTrue(outcomes) + if b then 1 else 0
  {
    if outcomes == [] {
      assert (outcomes + [b])[1..] == [];
    } else {
      assert (outcomes + [b])[1..] == outcomes[1..] + [b];
      CountTrueAppend(outcomes[1..], b);
    }
  }

  lemma {:induction false} NoneTrue(outcomes: seq<bool>)
    ensures CountTrue(outcomes) == 0 <==> forall j :: 0 <= j < |outcomes| ==> !outcomes[j]
  {
    if outcomes != [] {
      NoneTrue(outcomes[1..]);
      assert forall j :: 1 <= j < |outcomes| ==> outcomes[j] == outcomes[1..][j - 1];
    }
  }

  /** Counting one match is having exactly one matching branch. */
  lemma {:induction false} OneTrue(outcomes: seq<bool>)
    ensures CountTrue(outcomes) == 1 <==> exists i :: OnlyTrue(outcomes, i)
  {
    if outcomes != [] {
      var rest := outcomes[1..];
      assert forall j :: 1 <= j < |outcomes| ==> outcomes[j] == rest[j - 1];
      NoneTrue(rest);
      OneTrue(rest);
      if CountTrue(outcomes) == 1 {
        if outcomes[0] {
          assert OnlyTrue(outcomes, 0);
        } else {
          var i :| OnlyTrue(rest, i);
          assert OnlyTrue(outcomes, i + 1);
        }
      }
      if i :| OnlyTrue(outcomes, i) {
        if i > 0 {
          assert !outcomes[0] && OnlyTrue(rest, i - 1);
        }
      }
    }
  }

  /** `const` and `enum`, which compare printed texts. */
  method ValidateConstants(rule: seq<Member>, value: Json) returns (ok: bool)
    requires Shaped(rule)
    ensures ok <==> ConstantHolds(rule, value)
  {
    if Keyword(rule, "const").Some? {
      SameJsonIffNormalEqual(value, Keyword(rule, "const").value);
      if !SameJson(value, Keyword(rule, "const").value) {
        return false;
      }
    }
    if Keyword(rule, "enum").Some? {
      ok := EqualsSome(value, Branches(rule, "enum"));
      return;
    }
    return true;
  }

  method EqualsSome(value: Json, allowed: seq<Json>) returns (found: bool)
    ensures found <==> exists m :: m in allowed && Normal(value) == Normal(m)
  {
    for i := 0 to |allowed|
      invariant forall j :: 0 <= j < i ==> Normal(value) != Normal(allowed[j])
    {
      SameJsonIffNormalEqual(value, allowed[i]);
      if SameJson(value, allowed[i]) {
        return true;
      }
    }
    return false;
  }

  /** `hasJsonType` over the allowed types; an unknown name throws an error that is not a mismatch. */
  method ValidateType(rule: seq<Member>, value: Json) returns (verdict: Verdict)
    ensures verdict.Accept? ==> TypeAllowed(rule, value)
    ensures verdict.Reject? ==> !TypeAllowed(rule, value)
    ensures UnknownType !in Types(rule) ==> !verdict.Crash?
  {
    if Keyword(rule, "type").None? {
      return Accept;
    }
    verdict := HasSomeType(value, Types(rule));
  }

  method HasSomeType(value: Json, types: seq<JsonType>) returns (verdict: Verdict)
    ensures verdict.Accept? ==> exists t :: t in types && TypeHolds(value, t)
    ensures verdict.Reject? ==> forall t :: t in types ==> !TypeHolds(value, t)
    ensures UnknownType !in types ==> !verdict.Crash?
  {
    for i := 0 to |types|
      invariant forall j :: 0 <= j < i ==> !TypeHolds(value, types[j])
    {
      if types[i].UnknownType? {
        return Crash;
      }
      if TypeHolds(value, types[i]) {
        return Accept;
      }
    }
    return Reject;
  }

  method ValidateString(env: Env, rule: seq<Member>, s: Text) returns (verdict: Verdict)
    requires Shaped(rule)
    ensures verdict.Accept? ==> StringHolds(env, rule, s)
    ensures verdict.Reject? ==> !StringHolds(env, rule, s)
    ensures (Keyword(rule, "pattern").Some? ==> !env.regex(Keyword(rule, "pattern").value.s, s).Malformed?) ==>
      !verdict.Crash?
  {
    var wellFormed := RequireWellFormedUnicode(s);
    if !wellFormed || !LengthHolds(rule, "minLength", "maxLength", |s|) {
      return Reject;
    }
    if Keyword(rule, "pattern").Some? {
      match env.regex(Keyword(rule, "pattern").value.s, s) {
        case Malformed => return Crash;
        case NoMatch => return Reject;
        case Match(index, matched) => return if index == 0 && matched == s then Accept else Reject;
      }
    }
    return Accept;
  }

  method ValidateNumber(rule: seq<Member>, n: Num) returns (verdict: Verdict)
    requires Shaped(rule)
    ensures verdict.Accept? ==> NumberHolds(rule, n)
    ensures verdict.Reject? ==> !NumberHolds(rule, n)
    ensures verdict.Crash? <==> RuleBounds(rule).UnknownFormat?
  {
    match RuleBounds(rule) {
      case UnknownFormat => return Crash;
      case Unbounded =>
      case Range(low, high) =>
        if !InRange(n, low, high) {
          return Reject;
        }
    }
    if Limit(rule, "minimum").Some? && Less(n, Limit(rule, "minimum").value) {
      return Reject;
    }
    if Limit(rule, "maximum").Some? && Less(Limit(rule, "maximum").value, n) {
      return Reject;
    }
    return Accept;
  }

  /** Whether the printed texts of the items form a set as large as the array. */
  method UniqueTexts(items: seq<Json>) returns (unique: bool)
    ensures unique <==> forall i, j :: 0 <= i < j < |items| ==> Normal(items[i]) != Normal(items[j])
  {
    var texts: set<Text> := {};
    for k := 0 to |items|
      invariant forall t :: t in texts <==> exists i :: 0 <= i < k && Stringify(items[i]) == t
      invariant forall i, j :: 0 <= i < j < k ==> Normal(items[i]) != Normal(items[j])
    {
      var text := Stringify(items[k]);
      forall i | 0 <= i < k ensures Stringify(items[i]) == text <==> Normal(items[i]) == Normal(items[k]) {
        SameJsonIffNormalEqual(items[i], items[k]);
      }
      if text in texts {
        return false;
      }
      texts := texts + {text};
    }
    return true;
  }

  method ValidateArray(env: Env, rule: Json, value: Json) returns (verdict: Verdict)
    requires Guarded(env, rule) && Direct(rule) && value.JArr? && Shaped(rule.members)
    ensures verdict.Accept? ==>
      ArrayHolds(rule.members, value.items) && ItemsHold(env, true, rule, value)
    ensures verdict.Reject? ==>
      !(ArrayHolds(rule.members, value.items) && ItemsHold(env, true, rule, value))
    ensures SupportedThroughout(env, rule) ==> !verdict.Crash?
    decreases value, 0, 1, 1
  {
    var r := rule.members;
    var sized := ValidateSize(r, value.items);
    if !sized {
      return Reject;
    }
    if SupportedThroughout(env, rule) {
      SupportedNext(env, rule);
    }
    if Keyword(r, "items").Some? {
      assert Leads(env, rule, Keyword(r, "items").value);
      GuardedNext(env, rule, Keyword(r, "items").value);
      verdict := ValidateItems(env, Keyword(r, "items").value, value);
      return;
    }
    return Accept;
  }

  method ValidateSize(rule: seq<Member>, items: seq<Json>) returns (ok: bool)
    requires Shaped(rule)
    ensures ok <==> ArrayHolds(rule, items)
  {
    if !LengthHolds(rule, "minItems", "maxItems", |items|) {
      return false;
    }
    if Keyword(rule, "uniqueItems") == Some(JBool(true)) {
      ok := UniqueTexts(items);
      return;
    }
    return true;
  }

  method ValidateItems(env: Env, items: Json, value: Json) returns (verdict: Verdict)
    requires Guarded(env, items) && value.JArr?
    ensures verdict.Accept? ==> forall i :: 0 <= i < |value.items| ==> Valid(env, true, items, value.items[i])
    ensures verdict.Reject? ==> exists i :: 0 <= i < |value.items| && !Valid(env, true, items, value.items[i])
    ensures SupportedThroughout(env, items) ==> !verdict.Crash?
    decreases value, 0, 1, 0
  {
    hide Valid;
    hide Guarded;
    hide SupportedThroughout;
    hide Rank;
    for i := 0 to |value.items|
      invariant forall j :: 0 <= j < i ==> Valid(env, true, items, value.items[j])
    {
      verdict := Validate(env, items, value.items[i]);
      if !verdict.Accept? {
        return;
      }
    }
    return Accept;
  }

  method ValidateObject(env: Env, rule: Json, value: Json) returns (verdict: Verdict)
    requires Guarded(env, rule) && Direct(rule) && value.JObj? && Shaped(rule.members)
    ensures verdict.Accept? ==>
      RequiredHolds(rule.members, value.members, true) && MembersHold(env, true, rule, value)
    ensures verdict.Reject? ==>
      !(RequiredHolds(rule.members, value.members, true) && MembersHold(env, true, rule, value))
    ensures SupportedThroughout(env, rule) ==> !verdict.Crash?
    decreases value, 0, 1, 2
  {
    var present := HasRequired(Strings(Branches(rule.members, "required")), value.members);
    if !present {
      return Reject;
    }
    verdict := ValidateMembers(env, rule, value);
  }

  method ValidateMembers(env: Env, rule: Json, value: Json) returns (verdict: Verdict)
    requires Guarded(env, rule) && Direct(rule) && value.JObj? && Shaped(rule.members)
    ensures verdict.Accept? ==> MembersHold(env, true, rule, value)
    ensures verdict.Reject? ==> !MembersHold(env, true, rule, value)
    ensures SupportedThroughout(env, rule) ==> !verdict.Crash?
    decreases value, 0, 1, 1
  {
    hide Guarded;
    hide MemberHolds;
    hide Shaped;
    hide SupportedThroughout;
    for i := 0 to |value.members|
      invariant forall j :: 0 <= j < i ==> MemberHolds(env, true, rule, value, j)
    {
      verdict := ValidateMember(env, rule, value, i);
      if !verdict.Accept? {
        return;
      }
    }
    return Accept;
  }

  /** The `required` loop; JavaScript's `in` also finds inherited names. */
  method HasRequired(required: seq<Text>, members: seq<Member>) returns (present: bool)
    ensures present <==> forall name :: name in required ==> name in Keys(members) || IsInheritedName(name)
  {
    for i := 0 to |required|
      invariant forall j :: 0 <= j < i ==> required[j] in Keys(members) || IsInheritedName(required[j])
    {
      if required[i] !in Keys(members) && !IsInheritedName(required[i]) {
        return false;
      }
    }
    return true;
  }

  /** One turn of the entry loop: the property rule first, then `additionalProperties`. */
  method ValidateMember(env: Env, rule: Json, value: Json, i: nat) returns (verdict: Verdict)
    requires Guarded(env, rule) && Direct(rule) && value.JObj? && i < |value.members| && Shaped(rule.members)
    ensures verdict.Accept? ==> MemberHolds(env, true, rule, value, i)
    ensures verdict.Reject? ==> !MemberHolds(env, true, rule, value, i)
    ensures SupportedThroughout(env, rule) ==> !verdict.Crash?
    decreases value, 0, 1, 0
  {
    var member := value.members[i];
    var propertyRule := PropertyRule(rule.members, member.key, true);
    var additional := Keyword(rule.members, "additionalProperties");
    if SupportedThroughout(env, rule) {
      SupportedNext(env, rule);
    }
    ghost var applied := MemberRule(rule.members, member.key, true);
    if applied.Some? {
      assert Leads(env, rule, applied.value);
      GuardedNext(env, rule, applied.value);
    }
    if propertyRule.Some? {
      verdict := Validate(env, propertyRule.value, member.value);
    } else if additional == Some(JBool(false)) {
      return Reject;
    } else if additional.Some? && additional.value.JObj? {
      verdict := Validate(env, additional.value, member.value);
    } else {
      return Accept;
    }
  }

  /** `validateContract`: the root document is the schema. */
  method ValidateContract(env: Env, value: Json) returns (verdict: Verdict)
    requires Guarded(env, env.root)
    ensures verdict.Accept? ==> Valid(env, true, env.root, value)
    ensures verdict.Reject? ==> !Valid(env, true, env.root, value)
    ensures SupportedThroughout(env, env.root) ==> !verdict.Crash?
  {
    verdict := Validate(env, env.root, value);
  }

  /** The reference to one definition of the document. */
  function DefinitionReference(name: Text): Json
  {
    JObj([Member(Ascii("$ref"), JStr(DefinitionPath(name)))])
  }

  function DefinitionPath(name: Text): Text
  {
    Ascii("#/$defs/") + name
  }

  lemma LoneReferenceIsShaped(rule: seq<Member>)
    requires |rule| == 1 && rule[0].key == Ascii("$ref")
    ensures Keyword(rule, "$ref") == Some(rule[0].value)
    ensures Shaped(rule) && Types(rule) == [] && RuleBounds(rule) == Unbounded && Keyword(rule, "pattern") == None
  {
    OnlyKeyword(rule, "$ref");
    hide Keyword;
  }

  lemma DefinitionRule(env: Env, name: Text)
    ensures var rule, target := DefinitionReference(name), Resolve(env.root, DefinitionPath(name));
            && Keyword(rule.members, "$ref").Some? && Target(env, rule.members) == target
            && Supported(env, rule) == target.Found?
            && forall next :: Leads(env, rule, next) <==> target == Found(next)
  {
    LoneReferenceIsShaped(DefinitionReference(name).members);
    hide Keyword;
    hide Shaped;
    hide Types;
    hide RuleBounds;
    hide Resolve;
    hide PropertyRule;
  }

  lemma DefinitionLeads(env: Env, name: Text)
    requires Guarded(env, DefinitionReference(name))
    ensures var target := Resolve(env.root, DefinitionPath(name));
            && (target.Found? ==> Guarded(env, target.schema))
            && (forall inherits, value :: Valid(env, inherits, DefinitionReference(name), value) <==>
                  target.Found? && Valid(env, inherits, target.schema, value))
            && (target.Found? && SupportedThroughout(env, target.schema) ==>
              SupportedThroughout(env, DefinitionReference(name)))
  {
    var rule, target := DefinitionReference(name), Resolve(env.root, DefinitionPath(name));
    DefinitionRule(env, name);
    hide Supported;
    hide Leads;
    hide LeadsTo;
    LeadsToParts(env, rule);
    if target.Found? {
      GuardedNext(env, rule, target.schema);
    }
  }

  /** `validateContractDefinition`. */
  method ValidateContractDefinition(env: Env, name: Text, value: Json) returns (verdict: Verdict)
    requires Guarded(env, DefinitionReference(name))
    ensures var target := Resolve(env.root, DefinitionPath(name));
            && (target.Found? ==> Guarded(env, target.schema))
            && (verdict.Accept? ==> target.Found? && Valid(env, true, target.schema, value))
            && (verdict.Reject? ==> !(target.Found? && Valid(env, true, target.schema, value)))
            && (target.Found? && SupportedThroughout(env, target.schema) ==> !verdict.Crash?)
  {
    DefinitionLeads(env, name);
    verdict := Validate(env, DefinitionReference(name), value);
  }
}
