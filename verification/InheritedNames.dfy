/**
 Where the validator parts from its schemas: JavaScript's `in` and property reads also find the names
 every object inherits. The values on which no document can show the difference are characterised exactly.
 */
module InheritedNames {
  import opened Optional
  import opened Utf16Text
  import opened JsonText
  import opened CanonicalJson
  import opened JsonPointer
  import opened SchemaMeaning
  import opened SchemaValidator

  /** The validator's verdict is the meaning of the rule over own properties alone. */
  ghost predicate ReadsAlike(env: Env, rule: Json, value: Json)
    requires Guarded(env, rule)
  {
    Valid(env, true, rule, value) <==> Valid(env, false, rule, value)
  }

  predicate IllFormedString(value: Json)
  {
    value.JStr? && !AllPaired(value.s)
  }

  /** Some object in the value holds an inherited name, and no array around it holds an ill-formed string. */
  ghost predicate Exposed(value: Json)
  {
    match value
    case JArr(items) =>
      && (exists i :: 0 <= i < |items| && Exposed(items[i]))
      && forall i :: 0 <= i < |items| ==> !IllFormedString(items[i])
    case JObj(members) =>
      exists i :: 0 <= i < |members| && (IsInheritedName(members[i].key) || Exposed(members[i].value))
    case _ => false
  }

  /** The rule does not require an inherited name. */
  ghost predicate PlainRequired(rule: Json)
  {
    rule.JObj? ==> forall name :: name in Strings(Branches(rule.members, "required")) ==> !IsInheritedName(name)
  }

  ghost predicate PlainThroughout(env: Env, rule: Json)
  {
    forall x :: LeadsTo(env, rule, x) ==> PlainRequired(x)
  }

  lemma PlainNext(env: Env, rule: Json)
    requires PlainThroughout(env, rule)
    ensures PlainRequired(rule) && forall next :: Leads(env, rule, next) ==> PlainThroughout(env, next)
  {
    hide PlainRequired;
    hide Leads;
    hide LeadsTo;
    LeadsToParts(env, rule);
    forall next | Leads(env, rule, next) ensures PlainThroughout(env, next) {
      LeadsOn(env, rule, next);
    }
  }

  // ----- Unexposed values are read alike -----

  /** A rule that accepts an ill-formed string is `true`, however many references away: it accepts everything. */
  lemma {:induction false} AcceptsIllFormed(env: Env, inherits: bool, rule: Json, value: Json)
    requires Guarded(env, rule) && IllFormedString(value) && Valid(env, inherits, rule, value)
    ensures forall either, any :: Valid(env, either, rule, any)
    decreases Rank(env, rule)
  {
    if rule.JObj? {
      if Keyword(rule.members, "$ref").Some? {
        RankDecreases(env, rule);
        AcceptsIllFormed(env, inherits, Target(env, rule.members).schema, value);
      } else {
        WellFormedIffPaired(value.s);
      }
    }
  }

  lemma {:induction false} UnexposedReadsAlike(env: Env, rule: Json, value: Json)
    requires Guarded(env, rule) && PlainThroughout(env, rule) && !Exposed(value)
    ensures ReadsAlike(env, rule, value)
    decreases value, Rank(env, rule), 2
  {
    PlainNext(env, rule);
    if rule.JObj? {
      RankDecreases(env, rule);
      forall next | next in InPlace(env, rule) ensures ReadsAlike(env, next, value) {
        assert Leads(env, rule, next);
        UnexposedReadsAlike(env, next, value);
      }
      if Keyword(rule.members, "$ref").Some? {
        assert Target(env, rule.members).Found? ==> Target(env, rule.members).schema in InPlace(env, rule);
      } else {
        CombinatorsReadAlike(env, rule, value);
        ValueReadsAlike(env, rule, value);
      }
    }
  }

  lemma CombinatorsReadAlike(env: Env, rule: Json, value: Json)
    requires Guarded(env, rule) && Direct(rule)
    requires forall next :: next in InPlace(env, rule) ==> Guarded(env, next) && ReadsAlike(env, next, value)
    ensures AllOfHolds(env, true, rule, value) <==> AllOfHolds(env, false, rule, value)
    ensures AnyOfHolds(env, true, rule, value) <==> AnyOfHolds(env, false, rule, value)
    ensures OneOfHolds(env, true, rule, value) <==> OneOfHolds(env, false, rule, value)
  {
    var r := rule.members;
    BranchesDecrease(env, rule);
    assert forall m :: m in Branches(r, "allOf") ==> m in InPlace(env, rule);
    assert forall m :: m in Branches(r, "anyOf") ==> m in InPlace(env, rule);
    assert forall m :: m in Branches(r, "oneOf") ==> m in InPlace(env, rule);
    BranchReadsAlike(env, Branches(r, "oneOf"), Rank(env, rule), value);
  }

  lemma BranchReadsAlike(env: Env, branches: seq<Json>, rank: nat, value: Json)
    requires Lower(env, branches, rank) && forall m :: m in branches ==> ReadsAlike(env, m, value)
    ensures forall i :: OnlyBranch(env, true, branches, rank, value, i) <==>
      OnlyBranch(env, false, branches, rank, value, i)
  {
    assert forall j :: 0 <= j < |branches| ==> branches[j] in branches;
  }

  lemma {:induction false} ValueReadsAlike(env: Env, rule: Json, value: Json)
    requires Guarded(env, rule) && Direct(rule) && PlainThroughout(env, rule) && !Exposed(value)
    ensures ValueHolds(env, true, rule, value) <==> ValueHolds(env, false, rule, value)
    decreases value, Rank(env, rule), 1
  {
    PlainNext(env, rule);
    if value.JArr? && Keyword(rule.members, "items").Some? {
      ItemsReadAlike(env, rule, value);
    } else if value.JObj? {
      forall i | 0 <= i < |value.members|
        ensures MemberHolds(env, true, rule, value, i) <==> MemberHolds(env, false, rule, value, i)
      {
        var applied := MemberRule(rule.members, value.members[i].key, true);
        assert applied == MemberRule(rule.members, value.members[i].key, false);
        if applied.Some? {
          assert Leads(env, rule, applied.value);
          GuardedNext(env, rule, applied.value);
          UnexposedReadsAlike(env, applied.value, value.members[i].value);
        }
      }
      assert MembersHold(env, true, rule, value) <==> MembersHold(env, false, rule, value);
      assert RequiredHolds(rule.members, value.members, true) <==> RequiredHolds(rule.members, value.members, false);
    }
  }

  /** An ill-formed item settles the verdict for both readings; otherwise each item is read alike. */
  lemma {:induction false} ItemsReadAlike(env: Env, rule: Json, value: Json)
    requires Guarded(env, rule) && Direct(rule) && PlainThroughout(env, rule) && !Exposed(value)
    requires value.JArr? && Keyword(rule.members, "items").Some?
    ensures ItemsHold(env, true, rule, value) <==> ItemsHold(env, false, rule, value)
    decreases value, 0, 0
  {
    var items := Keyword(rule.members, "items").value;
    assert Leads(env, rule, items);
    GuardedNext(env, rule, items);
    PlainNext(env, rule);
    if i :| 0 <= i < |value.items| && IllFormedString(value.items[i]) {
      forall inherits | Valid(env, inherits, items, value.items[i])
        ensures forall either, any :: Valid(env, either, items, any)
      {
        AcceptsIllFormed(env, inherits, items, value.items[i]);
      }
      assert Valid(env, true, items, value.items[i]) <==> Valid(env, false, items, value.items[i]);
    } else {
      forall i | 0 <= i < |value.items| ensures ReadsAlike(env, items, value.items[i]) {
        UnexposedReadsAlike(env, items, value.items[i]);
      }
    }
  }

  // ----- Rules that show the difference -----

  /** Guarded, supported and plain throughout. */
  ghost predicate Usable(env: Env, rule: Json)
  {
    Guarded(env, rule) && SupportedThroughout(env, rule) && PlainThroughout(env, rule)
  }

  lemma UsableByParts(env: Env, rule: Json)
    requires Supported(env, rule) && PlainRequired(rule)
    requires forall next :: Leads(env, rule, next) ==> Usable(env, next)
    ensures Usable(env, rule)
  {
    hide Supported;
    hide PlainRequired;
    hide Leads;
    GuardedByParts(env, rule);
    LeadsToParts(env, rule);
    hide LeadsTo;
  }

  const EMPTY_RULE := JObj([])

  /** What the empty rule accepts, given that it also applies to every inherited name. */
  ghost predicate EmptyAccepts(value: Json)
  {
    match value
    case JStr(s) => AllPaired(s)
    case JObj(members) => forall i :: 0 <= i < |members| && IsInheritedName(members[i].key) ==>
      EmptyAccepts(members[i].value)
    case _ => true
  }

  lemma {:induction false} EmptyAcceptsNormal(v: Json, w: Json)
    requires Normal(v) == Normal(w)
    ensures EmptyAccepts(v) <==> EmptyAccepts(w)
  {
    if v.JObj? && w.JObj? {
      SameMembers(v.members, w.members);
      forall i | 0 <= i < |v.members| ensures EmptyAccepts(v.members[i].value) <==> EmptyAccepts(w.members[i].value) {
        EmptyAcceptsNormal(v.members[i].value, w.members[i].value);
      }
    }
  }

  lemma SameMembers(v: seq<Member>, w: seq<Member>)
    requires NormalMembers(v) == NormalMembers(w)
    ensures |v| == |w|
    ensures forall i :: 0 <= i < |v| ==> v[i].key == w[i].key && Normal(v[i].value) == Normal(w[i].value)
  {
    assert forall i :: 0 <= i < |v| ==> NormalMembers(v)[i] == NormalMembers(w)[i];
  }

  lemma EmptyRuleUsable(env: Env)
    ensures Usable(env, EMPTY_RULE)
  {
    var rule := EMPTY_RULE;
    EmptyRuleLeads(env);
    EmptyRuleSettles(env);
    hide Supported;
    hide PlainRequired;
    hide Settles;
    hide Leads;
    hide InPlace;
    forall n: nat, x | LeadsIn(env, rule, x, n) ensures x == rule {
      OnlyItself(env, rule, x, n);
    }
    hide LeadsIn;
  }

  /** The empty rule leads to no other rule. */
  lemma EmptyRuleLeads(env: Env)
    ensures InPlace(env, EMPTY_RULE) == [] && forall next :: Leads(env, EMPTY_RULE, next) ==> next == EMPTY_RULE
    ensures Supported(env, EMPTY_RULE) && PlainRequired(EMPTY_RULE)
  {
    NoKeyword();
    hide Keyword;
  }

  lemma EmptyRuleSettles(env: Env)
    ensures Settles(env, EMPTY_RULE)
  {
    EmptyRuleLeads(env);
    hide InPlace;
  }

  lemma {:induction false} OnlyItself(env: Env, rule: Json, x: Json, n: nat)
    requires LeadsIn(env, rule, x, n) && forall next :: Leads(env, rule, next) ==> next == rule
    ensures x == rule
  {
    hide Leads;
    if n > 0 {
      OnlyItself(env, rule, x, n - 1);
    }
  }

  lemma NoKeyword()
    ensures forall k: string {:trigger Keyword([], k)} :: Keyword([], k) == None
  {
    assert Keys([]) == [];
  }

  lemma BoolRuleUsable(env: Env, b: bool)
    ensures Usable(env, JBool(b))
  {
    UsableByParts(env, JBool(b));
  }

  // ----- Four shapes of rules -----

  /** Of the keywords, the rule holds none but these: properties, additionalProperties, items, anyOf, enum. */
  ghost predicate Quiet(r: seq<Member>)
  {
    && Keyword(r, "$ref").None? && Keyword(r, "allOf").None? && Keyword(r, "oneOf").None? && Keyword(r, "const").None?
    && Keyword(r, "type").None? && Keyword(r, "required").None? && Keyword(r, "pattern").None? &&
      Keyword(r, "format").None?
    && Keyword(r, "minLength").None? && Keyword(r, "maxLength").None? && Keyword(r, "minItems").None?
    && Keyword(r, "maxItems").None? && Keyword(r, "uniqueItems").None? && Keyword(r, "minimum").None?
    && Keyword(r, "maximum").None?
  }

  /** The name is not one of those a quiet rule lacks. */
  predicate Quieting(name: string)
  {
    && Differs("$ref", name) && Differs("allOf", name) && Differs("oneOf", name) && Differs("const", name)
    && Differs("type", name) && Differs("required", name) && Differs("pattern", name) && Differs("format", name)
    && Differs("minLength", name) && Differs("maxLength", name) && Differs("minItems", name)
    && Differs("maxItems", name) && Differs("uniqueItems", name) && Differs("minimum", name) && Differs("maximum", name)
  }

  lemma QuietWithout(r: seq<Member>, first: string, second: string)
    requires forall k: string {:trigger Keyword(r, k)} :: Differs(k, first) && Differs(k, second) ==>
      Keyword(r, k) == None
    requires Quieting(first) && Quieting(second)
    ensures Quiet(r)
  {
    hide Differs;
    hide Keyword;
  }

  lemma TwoKeywords(first: string, a: Json, second: string, b: Json)
    requires AsciiName(first) && AsciiName(second) && Differs(first, second) && Quieting(first) && Quieting(second)
    ensures var r := [Member(Ascii(first), a), Member(Ascii(second), b)];
            && Quiet(r) && DistinctKeys(r) && Keyword(r, first) == Some(a) && Keyword(r, second) == Some(b)
            && forall k: string {:trigger Keyword(r, k)} :: Differs(k, first) && Differs(k, second) ==>
              Keyword(r, k) == None
  {
    var r := [Member(Ascii(first), a), Member(Ascii(second), b)];
    OnlyKeywords(r, first, second);
    hide Differs;
    hide Quieting;
    hide Quiet;
    hide Keyword;
    QuietWithout(r, first, second);
  }

  lemma ShapeNames()
    ensures Quieting("properties") && Quieting("additionalProperties") && Quieting("items")
  {
  }

  lemma ChoiceName()
    ensures Quieting("anyOf")
  {
  }

  lemma EqualName()
    ensures Quieting("enum")
  {
  }

  lemma QuietMeans(env: Env, inherits: bool, rule: Json, w: Json)
    requires Guarded(env, rule) && rule.JObj? && Quiet(rule.members)
    ensures Valid(env, inherits, rule, w) <==>
      && AnyOfHolds(env, inherits, rule, w) && ConstantHolds(rule.members, w)
      && (w.JStr? ==> AllPaired(w.s))
      && (w.JArr? ==> ItemsHold(env, inherits, rule, w))
      && (w.JObj? ==> MembersHold(env, inherits, rule, w))
  {
    hide Keyword;
    if w.JStr? {
      WellFormedIffPaired(w.s);
    }
    assert OneOfHolds(env, inherits, rule, w) && AllOfHolds(env, inherits, rule, w);
  }

  /** A quiet rule whose own keywords are shaped. */
  lemma QuietSupported(env: Env, rule: Json)
    requires rule.JObj? && Quiet(rule.members) && HoldsArray(rule.members, "anyOf") && HoldsArray(rule.members, "enum")
    requires Keyword(rule.members, "items").Some? ==> IsSchema(Keyword(rule.members, "items").value)
    requires Keyword(rule.members, "additionalProperties").Some? ==>
      IsSchema(Keyword(rule.members, "additionalProperties").value)
    requires Keyword(rule.members, "properties").Some? ==> Keyword(rule.members, "properties").value.JObj?
    ensures Supported(env, rule) && PlainRequired(rule)
  {
    hide Keyword;
  }

  /** Declared properties with their rules, and a rule for all others. */
  function Sieve(properties: seq<Member>, rest: bool): Json
  {
    JObj([Member(Ascii("properties"), JObj(properties)), Member(Ascii("additionalProperties"), JBool(rest))])
  }

  /** Declared properties, and a choice of rules for the whole value. */
  function Choice(properties: seq<Member>, branches: seq<Json>): Json
  {
    JObj([Member(Ascii("properties"), JObj(properties)), Member(Ascii("anyOf"), JArr(branches))])
  }

  /** Declared properties, and one value to be equal to. */
  function Equal(properties: seq<Member>, value: Json): Json
  {
    JObj([Member(Ascii("properties"), JObj(properties)), Member(Ascii("enum"), JArr([value]))])
  }

  function Each(rule: Json): Json
  {
    JObj([Member(Ascii("properties"), JObj([])), Member(Ascii("items"), rule)])
  }

  lemma SieveKeywords(properties: seq<Member>, rest: bool)
    ensures var r := Sieve(properties, rest).members;
            && Quiet(r) && DistinctKeys(r) && Keyword(r, "properties") == Some(JObj(properties))
            && Keyword(r, "additionalProperties") == Some(JBool(rest))
            && Keyword(r, "items").None? && Keyword(r, "anyOf").None? && Keyword(r, "enum").None?
  {
    hide Ascii;
    hide Quiet;
    hide Keyword;
    ShapeNames();
    TwoKeywords("properties", JObj(properties), "additionalProperties", JBool(rest));
  }

  lemma ChoiceKeywords(properties: seq<Member>, branches: seq<Json>)
    ensures var r := Choice(properties, branches).members;
            && Quiet(r) && DistinctKeys(r) && Keyword(r, "properties") == Some(JObj(properties))
            && Keyword(r, "anyOf") == Some(JArr(branches))
            && Keyword(r, "items").None? && Keyword(r, "additionalProperties").None? && Keyword(r, "enum").None?
  {
    hide Ascii;
    hide Quiet;
    hide Keyword;
    ShapeNames();
    ChoiceName();
    TwoKeywords("properties", JObj(properties), "anyOf", JArr(branches));
  }

  lemma EqualKeywords(properties: seq<Member>, value: Json)
    ensures var r := Equal(properties, value).members;
            && Quiet(r) && DistinctKeys(r) && Keyword(r, "properties") == Some(JObj(properties))
            && Keyword(r, "enum") == Some(JArr([value]))
            && Keyword(r, "items").None? && Keyword(r, "additionalProperties").None? && Keyword(r, "anyOf").None?
  {
    hide Ascii;
    hide Quiet;
    hide Keyword;
    ShapeNames();
    EqualName();
    TwoKeywords("properties", JObj(properties), "enum", JArr([value]));
  }

  lemma EachKeywords(rule: Json)
    ensures var r := Each(rule).members;
            && Quiet(r) && DistinctKeys(r) && Keyword(r, "properties") == Some(JObj([])) &&
              Keyword(r, "items") == Some(rule)
            && Keyword(r, "additionalProperties").None? && Keyword(r, "anyOf").None? && Keyword(r, "enum").None?
  {
    hide Ascii;
    hide Quiet;
    hide Keyword;
    ShapeNames();
    TwoKeywords("properties", JObj([]), "items", rule);
  }

  /** A quiet rule is usable when its branches, items and properties are. */
  lemma QuietUsable(env: Env, rule: Json)
    requires rule.JObj? && Quiet(rule.members) && Supported(env, rule) && PlainRequired(rule)
    requires forall m :: m in Branches(rule.members, "anyOf") ==> Usable(env, m)
    requires Keyword(rule.members, "items").Some? ==> Usable(env, Keyword(rule.members, "items").value)
    requires Keyword(rule.members, "additionalProperties").Some? ==>
      Usable(env, Keyword(rule.members, "additionalProperties").value)
    requires forall key, inherits :: PropertyRule(rule.members, key, inherits).Some? ==>
      Usable(env, PropertyRule(rule.members, key, inherits).value)
    ensures Usable(env, rule)
  {
    hide Usable;
    hide Supported;
    hide PlainRequired;
    hide PropertyRule;
    hide Keyword;
    assert InPlace(env, rule) == Branches(rule.members, "anyOf");
    UsableByParts(env, rule);
  }

  /** Properties whose rules are usable. */
  lemma PropertiesUsable(env: Env, r: seq<Member>, properties: seq<Member>)
    requires Keyword(r, "properties") == Some(JObj(properties))
    requires forall i :: 0 <= i < |properties| ==> Usable(env, properties[i].value)
    ensures forall key, inherits :: PropertyRule(r, key, inherits).Some? ==>
      Usable(env, PropertyRule(r, key, inherits).value)
  {
    hide Usable;
    hide Keyword;
    EmptyRuleUsable(env);
    forall key | key in Keys(properties) ensures Usable(env, Get(properties, key)) {
      assert Get(properties, key) == properties[IndexOfKey(properties, key)].value;
    }
  }

  /** The keys, each declared with the rule `true`, on top of properties that are declared already. */
  function Declare(properties: seq<Member>, members: seq<Member>): (r: seq<Member>)
    decreases |members|
  {
    if members == [] then properties
    else
      var key := members[0].key;
      Declare(if key in Keys(properties) then properties else properties + [Member(key, JBool(true))], members[1..])
  }

  /** Only the rule `true`, each key once. */
  ghost predicate AllTrue(properties: seq<Member>)
  {
    DistinctKeys(properties) && forall i :: 0 <= i < |properties| ==> properties[i].value == JBool(true)
  }

  lemma {:induction false} DeclareKeys(properties: seq<Member>, members: seq<Member>)
    requires AllTrue(properties)
    ensures AllTrue(Declare(properties, members))
    ensures forall key :: key in Keys(Declare(properties, members)) <==> key in Keys(properties) || key in Keys(members)
    decreases |members|
  {
    if members != [] {
      var key := members[0].key;
      var next := if key in Keys(properties) then properties else properties + [Member(key, JBool(true))];
      assert forall k :: k in Keys(members) <==> k == key || k in Keys(members[1..]) by {
        assert Keys(members) == [key] + Keys(members[1..]);
      }
      assert Keys(properties + [Member(key, JBool(true))]) == Keys(properties) + [key];
      if key !in Keys(properties) {
        assert forall i :: 0 <= i < |properties| ==> Keys(properties)[i] == properties[i].key;
      }
      DeclareKeys(next, members[1..]);
    }
  }

  lemma DeclareAllTrue(members: seq<Member>)
    ensures AllTrue(Declare([], members))
    ensures forall key :: key in Keys(members) ==> key in Keys(Declare([], members))
  {
    DeclareKeys([], members);
  }

  function DeclareAll(items: seq<Json>): seq<Member>
  {
    if items == [] then []
    else Declare(DeclareAll(items[1..]), if items[0].JObj? then items[0].members else [])
  }

  lemma {:induction false} DeclareAllKeys(items: seq<Json>)
    ensures AllTrue(DeclareAll(items))
    ensures forall i :: 0 <= i < |items| && items[i].JObj? ==> forall key :: key in Keys(items[i].members) ==>
      key in Keys(DeclareAll(items))
  {
    if items != [] {
      DeclareAllKeys(items[1..]);
      DeclareKeys(DeclareAll(items[1..]), if items[0].JObj? then items[0].members else []);
      forall i, key | 0 <= i < |items| && items[i].JObj? && key in Keys(items[i].members)
        ensures key in Keys(DeclareAll(items))
      {
        if i > 0 {
          assert items[1..][i - 1] == items[i];
        }
      }
    }
  }

  /** An object whose keys are all declared with `true` obeys every reading of its member rules. */
  lemma DeclaredMembersHold(env: Env, inherits: bool, rule: Json, properties: seq<Member>, w: Json)
    requires Guarded(env, rule) && Direct(rule) && w.JObj?
    requires Keyword(rule.members, "properties") == Some(JObj(properties)) && AllTrue(properties)
    requires forall key :: key in Keys(w.members) ==> key in Keys(properties)
    ensures MembersHold(env, inherits, rule, w)
  {
    hide Keyword;
    forall i | 0 <= i < |w.members| ensures MemberHolds(env, inherits, rule, w, i) {
      var key := w.members[i].key;
      assert Keys(w.members)[i] == key;
      assert Get(properties, key) == properties[IndexOfKey(properties, key)].value == JBool(true);
      assert MemberRule(rule.members, key, inherits) == Some(JBool(true));
    }
  }

  // ----- The rule that shows the difference on one value -----

  /** Where the value is exposed: at a member with an inherited name if there is one, or else below. */
  ghost function Spot(value: Json): (i: nat)
    requires Exposed(value)
    ensures value.JArr? ==> i < |value.items| && Exposed(value.items[i])
    ensures value.JObj? ==>
      i < |value.members| && (IsInheritedName(value.members[i].key) || Exposed(value.members[i].value))
    ensures value.JObj? && !IsInheritedName(value.members[i].key) ==>
      forall j :: 0 <= j < |value.members| ==> !IsInheritedName(value.members[j].key)
  {
    match value
    case JArr(items) =>
      var i :| 0 <= i < |items| && Exposed(items[i]); i
    case JObj(members) =>
      if exists j :: 0 <= j < |members| && IsInheritedName(members[j].key) then
        var i :| 0 <= i < |members| && IsInheritedName(members[i].key); i
      else
        var i :| 0 <= i < |members| && Exposed(members[i].value); i
  }

  /** The reading, with inherited names or without, under which the showing rule accepts. */
  ghost function Accepting(value: Json): bool
    requires Exposed(value)
  {
    match value
    case JArr(items) => Accepting(items[Spot(value)])
    case JObj(members) =>
      var m := members[Spot(value)];
      if IsInheritedName(m.key) then EmptyAccepts(m.value) else Accepting(m.value)
  }

  /** For each item unlike the target, a rule that only values like that item obey. */
  function Twins(items: seq<Json>, target: Json): seq<Json>
  {
    if items == [] then []
    else
      (if Normal(items[0]) == Normal(target) then []
       else [Equal(Declare([], if items[0].JObj? then items[0].members else []), items[0])]) + Twins(items[1..], target)
  }

  /** All members but one declared with `true`. */
  function AllBut(members: seq<Member>, i: nat): (r: seq<Member>)
    requires i < |members|
  {
    Declare([], members[..i] + members[i + 1..])
  }

  /** All members declared with `true`, but one with the given rule. */
  function Except(members: seq<Member>, i: nat, rule: Json): (r: seq<Member>)
    ensures |r| == |members|
    ensures forall j :: 0 <= j < |r| ==> r[j] == Member(members[j].key, if j == i then rule else JBool(true))
  {
    seq(|members|, j requires 0 <= j < |members| => Member(members[j].key, if j == i then rule else JBool(true)))
  }

  ghost function Showing(value: Json): Json
    requires Exposed(value)
  {
    var i := Spot(value);
    match value
    case JArr(items) => Each(Choice(DeclareAll(items), [Showing(items[i])] + Twins(items, items[i])))
    case JObj(members) =>
      if IsInheritedName(members[i].key) then Sieve(AllBut(members, i), !EmptyAccepts(members[i].value))
      else Sieve(Except(members, i, Showing(members[i].value)), true)
  }

  // ----- It is a usable rule -----

  lemma AllTrueUsable(env: Env, properties: seq<Member>)
    requires AllTrue(properties)
    ensures forall i :: 0 <= i < |properties| ==> Usable(env, properties[i].value)
    ensures Proper(JObj(properties))
  {
    hide Usable;
    BoolRuleUsable(env, true);
  }

  lemma SieveUsable(env: Env, properties: seq<Member>, rest: bool)
    requires DistinctKeys(properties)
    requires forall i :: 0 <= i < |properties| ==> Usable(env, properties[i].value) && Proper(properties[i].value)
    ensures Usable(env, Sieve(properties, rest)) && Proper(Sieve(properties, rest))
  {
    hide Usable;
    var rule := Sieve(properties, rest);
    SieveKeywords(properties, rest);
    BoolRuleUsable(env, rest);
    PropertiesUsable(env, rule.members, properties);
    QuietSupported(env, rule);
    QuietUsable(env, rule);
  }

  lemma ChoiceUsable(env: Env, properties: seq<Member>, branches: seq<Json>)
    requires AllTrue(properties)
    requires forall b :: b in branches ==> Usable(env, b) && Proper(b)
    ensures Usable(env, Choice(properties, branches)) && Proper(Choice(properties, branches))
  {
    hide Usable;
    var rule := Choice(properties, branches);
    ChoiceKeywords(properties, branches);
    AllTrueUsable(env, properties);
    assert forall i :: 0 <= i < |branches| ==> branches[i] in branches;
    PropertiesUsable(env, rule.members, properties);
    QuietSupported(env, rule);
    QuietUsable(env, rule);
  }

  lemma EqualUsable(env: Env, properties: seq<Member>, value: Json)
    requires AllTrue(properties) && Proper(value)
    ensures Usable(env, Equal(properties, value)) && Proper(Equal(properties, value))
  {
    hide Usable;
    var rule := Equal(properties, value);
    EqualKeywords(properties, value);
    AllTrueUsable(env, properties);
    PropertiesUsable(env, rule.members, properties);
    QuietSupported(env, rule);
    QuietUsable(env, rule);
  }

  lemma EachUsable(env: Env, rule: Json)
    requires Usable(env, rule) && Proper(rule) && IsSchema(rule)
    ensures Usable(env, Each(rule)) && Proper(Each(rule))
  {
    hide Usable;
    EachKeywords(rule);
    PropertiesUsable(env, Each(rule).members, []);
    QuietSupported(env, Each(rule));
    QuietUsable(env, Each(rule));
  }

  lemma {:induction false} TwinsUsable(env: Env, items: seq<Json>, target: Json)
    requires forall i :: 0 <= i < |items| ==> Proper(items[i])
    ensures forall b :: b in Twins(items, target) ==> Usable(env, b) && Proper(b)
  {
    hide Usable;
    if items != [] {
      TwinsUsable(env, items[1..], target);
      var members := if items[0].JObj? then items[0].members else [];
      DeclareKeys([], members);
      EqualUsable(env, Declare([], members), items[0]);
    }
  }

  lemma {:induction false} ShowingUsable(env: Env, value: Json)
    requires Exposed(value) && Proper(value)
    ensures Usable(env, Showing(value)) && Proper(Showing(value)) && IsSchema(Showing(value))
  {
    hide Usable;
    var i := Spot(value);
    match value
    case JArr(items) =>
      ShowingUsable(env, items[i]);
      DeclareAllKeys(items);
      TwinsUsable(env, items, items[i]);
      ChoiceUsable(env, DeclareAll(items), [Showing(items[i])] + Twins(items, items[i]));
      EachUsable(env, Choice(DeclareAll(items), [Showing(items[i])] + Twins(items, items[i])));
    case JObj(members) =>
      if IsInheritedName(members[i].key) {
        DeclareKeys([], members[..i] + members[i + 1..]);
        AllTrueUsable(env, AllBut(members, i));
        SieveUsable(env, AllBut(members, i), !EmptyAccepts(members[i].value));
      } else {
        ShowingUsable(env, members[i].value);
        BoolRuleUsable(env, true);
        SieveUsable(env, Except(members, i, Showing(members[i].value)), true);
      }
  }

  // ----- It is accepted under one reading only -----

  /** The rule is accepted with inherited names, or without, but not both. */
  ghost predicate Separates(env: Env, accepting: bool, rule: Json, w: Json)
    requires Guarded(env, rule)
  {
    Valid(env, accepting, rule, w) && !Valid(env, !accepting, rule, w)
  }

  lemma SieveMeans(env: Env, inherits: bool, properties: seq<Member>, rest: bool, w: Json)
    requires Guarded(env, Sieve(properties, rest)) && w.JObj?
    ensures Direct(Sieve(properties, rest))
    ensures Valid(env, inherits, Sieve(properties, rest), w) <==> MembersHold(env, inherits, Sieve(properties, rest), w)
  {
    var rule := Sieve(properties, rest);
    SieveKeywords(properties, rest);
    QuietMeans(env, inherits, rule, w);
    hide Quiet;
    hide Keyword;
    hide Sieve;
  }

  /** The rule a sieve applies to one member. */
  lemma SieveMember(env: Env, inherits: bool, properties: seq<Member>, rest: bool, w: Json, i: nat)
    requires Guarded(env, Sieve(properties, rest)) && Direct(Sieve(properties, rest)) && w.JObj? && i < |w.members|
    ensures var key, v := w.members[i].key, w.members[i].value;
            var holds := MemberHolds(env, inherits, Sieve(properties, rest), w, i);
            && (key in Keys(properties) ==>
              Guarded(env, Get(properties, key)) && (holds <==> Valid(env, inherits, Get(properties, key), v)))
            && (key !in Keys(properties) && !(inherits && IsInheritedName(key)) ==> (holds <==> rest))
            && (key !in Keys(properties) && inherits && IsInheritedName(key) ==> (holds <==> EmptyAccepts(v)))
  {
    var rule := Sieve(properties, rest);
    SieveKeywords(properties, rest);
    var key := w.members[i].key;
    var applied := MemberRule(rule.members, key, inherits);
    assert applied.Some?;
    assert Leads(env, rule, applied.value);
    GuardedNext(env, rule, applied.value);
    EmptyRuleUsable(env);
    EmptyRuleMeans(env, w.members[i].value);
    hide Keyword;
    hide Quiet;
    hide EmptyAccepts;
  }

  lemma {:induction false} EmptyRuleMeans(env: Env, v: Json)
    requires Guarded(env, EMPTY_RULE)
    ensures Valid(env, true, EMPTY_RULE, v) <==> EmptyAccepts(v)
  {
    var rule := EMPTY_RULE;
    NoKeyword();
    assert Quiet(rule.members);
    QuietMeans(env, true, rule, v);
    if v.JObj? {
      forall i | 0 <= i < |v.members|
        ensures MemberHolds(env, true, rule, v, i) <==>
          (IsInheritedName(v.members[i].key) ==> EmptyAccepts(v.members[i].value))
      {
        if IsInheritedName(v.members[i].key) {
          EmptyRuleMeans(env, v.members[i].value);
          assert MemberRule(rule.members, v.members[i].key, true) == Some(EMPTY_RULE);
        }
      }
    }
  }

  lemma AllButKeys(members: seq<Member>, i: nat)
    requires DistinctKeys(members) && i < |members|
    ensures AllTrue(AllBut(members, i))
    ensures forall j :: 0 <= j < |members| ==> (members[j].key in Keys(AllBut(members, i)) <==> j != i)
  {
    var others := members[..i] + members[i + 1..];
    DeclareKeys([], others);
    forall j | 0 <= j < |members| ensures members[j].key in Keys(others) <==> j != i {
      if j != i {
        assert Keys(others)[if j < i then j else j - 1] == members[j].key;
      } else {
        assert forall k :: 0 <= k < |others| ==> others[k].key == members[if k < i then k else k + 1].key;
      }
    }
  }

  lemma TrueProperty(env: Env, inherits: bool, properties: seq<Member>, key: Text, v: Json)
    requires AllTrue(properties) && key in Keys(properties)
    ensures Get(properties, key) == JBool(true) && Guarded(env, JBool(true)) && Valid(env, inherits, JBool(true), v)
  {
    BoolRuleUsable(env, true);
    assert Get(properties, key) == properties[IndexOfKey(properties, key)].value;
  }

  /** Member `j` of a value whose keys are all declared with `true`, but one undeclared inherited name. */
  lemma UndeclaredMember(env: Env, inherits: bool, members: seq<Member>, i: nat, w: Json, j: nat)
    requires DistinctKeys(members) && i < |members| && IsInheritedName(members[i].key)
    requires w.JObj? && NormalMembers(w.members) == NormalMembers(members) && j < |members|
    requires Guarded(env, Sieve(AllBut(members, i), !EmptyAccepts(members[i].value)))
    ensures var rule := Sieve(AllBut(members, i), !EmptyAccepts(members[i].value));
            && Direct(rule) && |w.members| == |members|
            && (MemberHolds(env, inherits, rule, w, j) <==> (j == i ==> inherits == EmptyAccepts(members[i].value)))
  {
    hide Valid;
    hide AllTrue;
    var accepts := EmptyAccepts(members[i].value);
    SameMembers(w.members, members);
    EmptyAcceptsNormal(w.members[i].value, members[i].value);
    AllButKeys(members, i);
    hide EmptyAccepts;
    hide AllBut;
    SieveMeans(env, inherits, AllBut(members, i), !accepts, w);
    SieveMember(env, inherits, AllBut(members, i), !accepts, w, j);
    hide Guarded;
    hide Sieve;
    hide MemberHolds;
    if j != i {
      TrueProperty(env, inherits, AllBut(members, i), members[j].key, w.members[j].value);
    }
  }

  lemma UndeclaredMeans(env: Env, inherits: bool, members: seq<Member>, i: nat, w: Json)
    requires DistinctKeys(members) && i < |members| && IsInheritedName(members[i].key)
    requires w.JObj? && NormalMembers(w.members) == NormalMembers(members)
    requires Guarded(env, Sieve(AllBut(members, i), !EmptyAccepts(members[i].value)))
    ensures Valid(env, inherits, Sieve(AllBut(members, i), !EmptyAccepts(members[i].value)), w)
       <==> inherits == EmptyAccepts(members[i].value)
  {
    var accepts := EmptyAccepts(members[i].value);
    var rule := Sieve(AllBut(members, i), !accepts);
    SieveMeans(env, inherits, AllBut(members, i), !accepts, w);
    SameMembers(w.members, members);
    hide Valid;
    hide EmptyAccepts;
    hide MemberHolds;
    hide Sieve;
    hide AllBut;
    forall j: nat | j < |w.members|
      ensures MemberHolds(env, inherits, rule, w, j) <==> (j == i ==> inherits == accepts)
    {
      UndeclaredMember(env, inherits, members, i, w, j);
    }
    assert MemberHolds(env, inherits, rule, w, i) <==> inherits == accepts;
  }

  lemma ExceptKeys(members: seq<Member>, i: nat, rule: Json, j: nat)
    requires DistinctKeys(members) && j < |members|
    ensures var properties := Except(members, i, rule);
            members[j].key in Keys(properties) &&
              Get(properties, members[j].key) == if j == i then rule else JBool(true)
  {
    assert DistinctKeys(Except(members, i, rule));
    GetAt(Except(members, i, rule), j);
  }

  lemma TrueRule(env: Env, inherits: bool, v: Json)
    ensures Guarded(env, JBool(true)) && Valid(env, inherits, JBool(true), v)
  {
    BoolRuleUsable(env, true);
  }

  /** Member `j` of a value whose keys are all declared, one with a rule and the others with `true`. */
  lemma DeclaredMember(env: Env, inherits: bool, members: seq<Member>, i: nat, rule: Json, w: Json, j: nat)
    requires DistinctKeys(members) && i < |members| && j < |members|
    requires w.JObj? && NormalMembers(w.members) == NormalMembers(members)
    requires Guarded(env, rule) && Guarded(env, Sieve(Except(members, i, rule), true))
    ensures var sieve := Sieve(Except(members, i, rule), true);
            && Direct(sieve) && |w.members| == |members|
            && (MemberHolds(env, inherits, sieve, w, j) <==>
              (j == i ==> Valid(env, inherits, rule, w.members[i].value)))
  {
    SameMembers(w.members, members);
    hide Guarded;
    hide MemberHolds;
    hide Valid;
    hide Except;
    hide Sieve;
    hide DistinctKeys;
    hide NormalMembers;
    TrueRule(env, inherits, w.members[j].value);
    ExceptKeys(members, i, rule, j);
    SieveMeans(env, inherits, Except(members, i, rule), true, w);
    SieveMember(env, inherits, Except(members, i, rule), true, w, j);
  }

  lemma DeclaredMeans(env: Env, inherits: bool, members: seq<Member>, i: nat, rule: Json, w: Json)
    requires DistinctKeys(members) && i < |members|
    requires w.JObj? && NormalMembers(w.members) == NormalMembers(members)
    requires Guarded(env, rule) && Guarded(env, Sieve(Except(members, i, rule), true))
    ensures |w.members| == |members|
    ensures Valid(env, inherits, Sieve(Except(members, i, rule), true), w) <==>
      Valid(env, inherits, rule, w.members[i].value)
  {
    var sieve := Sieve(Except(members, i, rule), true);
    SieveMeans(env, inherits, Except(members, i, rule), true, w);
    SameMembers(w.members, members);
    hide Valid;
    hide MemberHolds;
    hide Sieve;
    hide Except;
    forall j: nat | j < |w.members|
      ensures MemberHolds(env, inherits, sieve, w, j) <==> (j == i ==> Valid(env, inherits, rule, w.members[i].value))
    {
      DeclaredMember(env, inherits, members, i, rule, w, j);
    }
    assert MemberHolds(env, inherits, sieve, w, i) <==> Valid(env, inherits, rule, w.members[i].value);
  }

  lemma ChoiceMeans(env: Env, inherits: bool, properties: seq<Member>, branches: seq<Json>, w: Json)
    requires Guarded(env, Choice(properties, branches)) && AllTrue(properties) && !IllFormedString(w)
    requires w.JObj? ==> forall key :: key in Keys(w.members) ==> key in Keys(properties)
    requires forall b :: b in branches ==> Guarded(env, b)
    ensures Valid(env, inherits, Choice(properties, branches), w) <==>
      exists b :: b in branches && Valid(env, inherits, b, w)
  {
    var rule := Choice(properties, branches);
    ChoiceKeywords(properties, branches);
    QuietMeans(env, inherits, rule, w);
    if w.JObj? {
      DeclaredMembersHold(env, inherits, rule, properties, w);
    }
    hide Quiet;
    hide Keyword;
    hide Choice;
  }

  lemma EqualMeans(env: Env, inherits: bool, properties: seq<Member>, value: Json, w: Json)
    requires Guarded(env, Equal(properties, value)) && AllTrue(properties) && !IllFormedString(w)
    requires w.JObj? && Normal(w) == Normal(value) ==> forall key :: key in Keys(w.members) ==> key in Keys(properties)
    ensures Valid(env, inherits, Equal(properties, value), w) <==> Normal(w) == Normal(value)
  {
    var rule := Equal(properties, value);
    EqualKeywords(properties, value);
    QuietMeans(env, inherits, rule, w);
    if w.JObj? && Normal(w) == Normal(value) {
      DeclaredMembersHold(env, inherits, rule, properties, w);
    }
    assert Branches(rule.members, "enum") == [value];
    hide Quiet;
    hide Keyword;
    hide Equal;
  }

  lemma EachMeans(env: Env, inherits: bool, rule: Json, w: Json)
    requires Guarded(env, Each(rule)) && Guarded(env, rule) && w.JArr?
    ensures Valid(env, inherits, Each(rule), w) <==>
      forall m :: 0 <= m < |w.items| ==> Valid(env, inherits, rule, w.items[m])
  {
    EachKeywords(rule);
    QuietMeans(env, inherits, Each(rule), w);
    hide Quiet;
    hide Keyword;
    hide Each;
  }

  lemma NormalKeys(v: Json, w: Json)
    requires Normal(v) == Normal(w) && v.JObj? && w.JObj?
    ensures Keys(v.members) == Keys(w.members)
  {
    SameMembers(v.members, w.members);
  }

  /** Twins: an item unlike the target has one that accepts it, and none accepts an item like the target. */
  lemma {:induction false} TwinsMean(env: Env, inherits: bool, items: seq<Json>, target: Json, w: Json)
    requires forall b :: b in Twins(items, target) ==> Guarded(env, b)
    requires !IllFormedString(w)
    ensures (exists b :: b in Twins(items, target) && Valid(env, inherits, b, w)) <==>
      Normal(w) != Normal(target) && exists m :: 0 <= m < |items| && Normal(w) == Normal(items[m])
  {
    hide Guarded;
    hide Valid;
    hide Equal;
    hide AllTrue;
    hide Declare;
    if items != [] {
      var rest := Twins(items[1..], target);
      TwinsMean(env, inherits, items[1..], target, w);
      var members := if items[0].JObj? then items[0].members else [];
      assert forall m :: 1 <= m < |items| ==> items[m] == items[1..][m - 1];
      if Normal(items[0]) != Normal(target) {
        var b := Equal(Declare([], members), items[0]);
        assert Twins(items, target) == [b] + rest && b in Twins(items, target);
        DeclareAllTrue(members);
        if w.JObj? && Normal(w) == Normal(items[0]) {
          NormalKeys(w, items[0]);
        }
        EqualMeans(env, inherits, Declare([], members), items[0], w);
      }
    }
  }

  lemma FirstBranch(env: Env, inherits: bool, rule: Json, others: seq<Json>, w: Json)
    requires Guarded(env, rule) && forall b :: b in others ==> Guarded(env, b)
    ensures forall b :: b in [rule] + others ==> Guarded(env, b)
    ensures (exists b :: b in [rule] + others && Valid(env, inherits, b, w)) <==>
      Valid(env, inherits, rule, w) || exists b :: b in others && Valid(env, inherits, b, w)
  {
    hide Guarded;
    hide Valid;
    assert forall b :: b in [rule] + others <==> b == rule || b in others;
  }

  /** Every key of a value like some item is declared. */
  lemma ItemDeclared(items: seq<Json>, m: nat, w: Json)
    requires m < |items| && Normal(w) == Normal(items[m]) && w.JObj?
    ensures forall key :: key in Keys(w.members) ==> key in Keys(DeclareAll(items))
  {
    DeclareAllKeys(items);
    NormalKeys(w, items[m]);
  }

  /** An item under the choice: items like the spotted one face its rule, all others have a twin. */
  lemma ItemMeans(env: Env, inherits: bool, items: seq<Json>, i: nat, rule: Json, m: nat, w: Json)
    requires i < |items| && m < |items| && Normal(w) == Normal(items[m]) && !IllFormedString(items[m])
    requires Guarded(env, Choice(DeclareAll(items), [rule] + Twins(items, items[i])))
    requires Guarded(env, rule) && forall b :: b in Twins(items, items[i]) ==> Guarded(env, b)
    ensures Valid(env, inherits, Choice(DeclareAll(items), [rule] + Twins(items, items[i])), w) <==>
      Valid(env, inherits, rule, w) || Normal(w) != Normal(items[i])
  {
    var twins := Twins(items, items[i]);
    assert !IllFormedString(w);
    hide Normal;
    hide IllFormedString;
    hide Guarded;
    hide Valid;
    hide Choice;
    hide Twins;
    DeclareAllKeys(items);
    if w.JObj? {
      ItemDeclared(items, m, w);
    }
    hide DeclareAll;
    hide AllTrue;
    hide Keys;
    FirstBranch(env, inherits, rule, twins, w);
    ChoiceMeans(env, inherits, DeclareAll(items), [rule] + twins, w);
    TwinsMean(env, inherits, items, items[i], w);
  }

  lemma ArraySeparates(env: Env, items: seq<Json>, i: nat, rule: Json, accepting: bool, w: Json)
    requires i < |items| && w.JArr? && NormalItems(w.items) == NormalItems(items)
    requires forall m :: 0 <= m < |items| ==> !IllFormedString(items[m])
    requires Guarded(env, rule) && forall b :: b in Twins(items, items[i]) ==> Guarded(env, b)
    requires Guarded(env, Choice(DeclareAll(items), [rule] + Twins(items, items[i])))
    requires Guarded(env, Each(Choice(DeclareAll(items), [rule] + Twins(items, items[i]))))
    requires forall x :: Normal(x) == Normal(items[i]) ==> Separates(env, accepting, rule, x)
    ensures Separates(env, accepting, Each(Choice(DeclareAll(items), [rule] + Twins(items, items[i]))), w)
  {
    hide Guarded;
    var choice := Choice(DeclareAll(items), [rule] + Twins(items, items[i]));
    hide Valid;
    assert forall m :: 0 <= m < |items| ==> NormalItems(w.items)[m] == NormalItems(items)[m];
    EachMeans(env, true, choice, w);
    EachMeans(env, false, choice, w);
    hide Twins;
    hide Choice;
    hide DeclareAll;
    hide Each;
    forall m: nat | m < |items| ensures Valid(env, accepting, choice, w.items[m]) {
      ItemMeans(env, accepting, items, i, rule, m, w.items[m]);
    }
    ItemMeans(env, !accepting, items, i, rule, i, w.items[i]);
  }

  /** On every exposed value, and on every value that prints like it, the showing rule parts the two readings. */
  lemma {:induction false} ShowingSeparates(env: Env, value: Json, w: Json)
    requires Exposed(value) && Proper(value) && Normal(w) == Normal(value)
    requires Guarded(env, Showing(value))
    ensures Separates(env, Accepting(value), Showing(value), w)
    decreases value
  {
    hide Usable;
    hide Separates;
    var i := Spot(value);
    match value
    case JArr(items) =>
      var rule := Showing(items[i]);
      SpottedArrayUsable(env, items, i);
      forall x | Normal(x) == Normal(items[i]) ensures Separates(env, Accepting(items[i]), rule, x) {
        ShowingSeparates(env, items[i], x);
      }
      ArraySeparates(env, items, i, rule, Accepting(items[i]), w);
    case JObj(members) =>
      if IsInheritedName(members[i].key) {
        UndeclaredSeparates(env, members, i, w);
      } else {
        SameMembers(w.members, members);
        UsableGuarded(env, members[i].value);
        ShowingSeparates(env, members[i].value, w.members[i].value);
        DeclaredSeparates(env, members, i, Showing(members[i].value), Accepting(members[i].value), w);
      }
  }

  lemma UsableGuarded(env: Env, value: Json)
    requires Exposed(value) && Proper(value)
    ensures Guarded(env, Showing(value))
  {
    ShowingUsable(env, value);
  }

  lemma SpottedArrayUsable(env: Env, items: seq<Json>, i: nat)
    requires i < |items| && Exposed(items[i]) && Proper(JArr(items))
    ensures Guarded(env, Showing(items[i])) && forall b :: b in Twins(items, items[i]) ==> Guarded(env, b)
    ensures Guarded(env, Choice(DeclareAll(items), [Showing(items[i])] + Twins(items, items[i])))
  {
    hide Guarded;
    hide SupportedThroughout;
    hide PlainThroughout;
    hide Showing;
    ShowingUsable(env, items[i]);
    DeclareAllKeys(items);
    TwinsUsable(env, items, items[i]);
    ChoiceUsable(env, DeclareAll(items), [Showing(items[i])] + Twins(items, items[i]));
  }

  lemma UndeclaredSeparates(env: Env, members: seq<Member>, i: nat, w: Json)
    requires DistinctKeys(members) && i < |members| && IsInheritedName(members[i].key)
    requires w.JObj? && NormalMembers(w.members) == NormalMembers(members)
    requires Guarded(env, Sieve(AllBut(members, i), !EmptyAccepts(members[i].value)))
    ensures var accepts := EmptyAccepts(members[i].value);
            Separates(env, accepts, Sieve(AllBut(members, i), !accepts), w)
  {
    hide Valid;
    UndeclaredMeans(env, true, members, i, w);
    UndeclaredMeans(env, false, members, i, w);
  }

  lemma DeclaredSeparates(env: Env, members: seq<Member>, i: nat, rule: Json, accepting: bool, w: Json)
    requires DistinctKeys(members) && i < |members|
    requires w.JObj? && NormalMembers(w.members) == NormalMembers(members) && |w.members| == |members|
    requires Guarded(env, rule) && Guarded(env, Sieve(Except(members, i, rule), true))
    requires Separates(env, accepting, rule, w.members[i].value)
    ensures Separates(env, accepting, Sieve(Except(members, i, rule), true), w)
  {
    hide Valid;
    DeclaredMeans(env, true, members, i, rule, w);
    DeclaredMeans(env, false, members, i, rule, w);
  }

  // ----- Exactly when -----

  /** A document a caller may validate against: proper, guarded, supported, and requiring no inherited name. */
  ghost predicate UsableDocument(env: Env)
  {
    Proper(env.root) && Usable(env, env.root)
  }

  /**
   On an unexposed value the verdict of every usable document is its meaning over own properties, and on
   every exposed value some usable document gives another verdict.
   */
  lemma OwnPropertiesDecideExactly(regex: (Text, Text) -> RegexOutcome, value: Json)
    requires Proper(value)
    ensures !Exposed(value) <==>
      forall root {:trigger Env(root, regex)} :: UsableDocument(Env(root, regex)) ==>
        ReadsAlike(Env(root, regex), root, value)
  {
    if Exposed(value) {
      var env := Env(Showing(value), regex);
      ShowingUsable(env, value);
      ShowingSeparates(env, value, value);
      assert UsableDocument(Env(Showing(value), regex)) && !ReadsAlike(env, Showing(value), value);
    } else {
      forall root | UsableDocument(Env(root, regex)) ensures ReadsAlike(Env(root, regex), root, value) {
        UnexposedReadsAlike(Env(root, regex), root, value);
      }
    }
  }

  /** An object that owns exactly those of the names that no object inherits. */
  function PlainOwner(names: seq<Text>): seq<Member>
  {
    Declare([], PlainMembers(names))
  }

  function PlainMembers(names: seq<Text>): seq<Member>
  {
    if names == [] then []
    else (if IsInheritedName(names[0]) then [] else [Member(names[0], JNull)]) + PlainMembers(names[1..])
  }

  lemma {:induction false} PlainMemberKeys(names: seq<Text>)
    ensures forall name :: name in Keys(PlainMembers(names)) <==> name in names && !IsInheritedName(name)
  {
    if names != [] {
      PlainMemberKeys(names[1..]);
      var first := if IsInheritedName(names[0]) then [] else [Member(names[0], JNull)];
      assert Keys(PlainMembers(names)) == Keys(first) + Keys(PlainMembers(names[1..]));
      assert forall name :: name in names <==> name == names[0] || name in names[1..];
    }
  }

  /**
   `required` means owning the names, for all objects, exactly for rules that require no inherited name: the
   object that owns the others passes every rule that does.
   */
  lemma RequiredNamesDecideExactly(rule: seq<Member>)
    ensures PlainRequired(JObj(rule)) <==>
      forall members :: DistinctKeys(members) ==>
        (RequiredHolds(rule, members, true) <==> RequiredHolds(rule, members, false))
  {
    hide Keyword;
    var names := Strings(Branches(rule, "required"));
    if !PlainRequired(JObj(rule)) {
      var members := PlainOwner(names);
      PlainMemberKeys(names);
      DeclareKeys([], PlainMembers(names));
      assert RequiredHolds(rule, members, true) && !RequiredHolds(rule, members, false);
    }
  }

  /** `required` is met by the empty object for every inherited name, although the object owns no property. */
  lemma RequiredNamesSlipThrough(env: Env, name: Text)
    requires IsInheritedName(name)
    ensures var rule := JObj([Member(Ascii("required"), JArr([JStr(name)]))]);
            && Guarded(env, rule) && Valid(env, true, rule, JObj([])) && !Valid(env, false, rule, JObj([]))
  {
    var rule := JObj([Member(Ascii("required"), JArr([JStr(name)]))]);
    RequiredRule(env, rule, name);
    hide Keyword;
    assert AllOfHolds(env, true, rule, JObj([]));
  }

  lemma RequiredRule(env: Env, rule: Json, name: Text)
    requires rule == JObj([Member(Ascii("required"), JArr([JStr(name)]))])
    ensures var r := rule.members;
            && Guarded(env, rule) && Direct(rule) && Strings(Branches(r, "required")) == [name]
            && Keyword(r, "allOf").None? && Keyword(r, "anyOf").None? && Keyword(r, "oneOf").None?
            && Keyword(r, "const").None? && Keyword(r, "enum").None? && Keyword(r, "type").None?
  {
    OnlyKeyword(rule.members, "required");
    assert Strings([JStr(name)]) == [name];
    hide Keyword;
    assert Branches(rule.members, "required") == [JStr(name)];
    hide Guarded;
    hide Strings;
    assert Direct(rule);
    RequiredLeads(env, rule, name);
    hide Leads;
    EmptyRuleUsable(env);
    GuardedByParts(env, rule);
  }

  lemma RequiredLeads(env: Env, rule: Json, name: Text)
    requires rule == JObj([Member(Ascii("required"), JArr([JStr(name)]))])
    ensures forall next :: Leads(env, rule, next) ==> next == EMPTY_RULE
  {
    OnlyKeyword(rule.members, "required");
    hide Keyword;
    assert InPlace(env, rule) == [];
  }
}
