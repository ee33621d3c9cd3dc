/**
 What a contract schema means. `Valid` reads the keywords declaratively; it is well-founded because no
 rule that the schema leads to comes back to itself without descending into a property or an item.
 */
module SchemaMeaning {
  import opened Optional
  import opened Utf16Text
  import opened NumberText
  import opened JsonText
  import opened CanonicalJson
  import opened JsonPointer
  import opened TextSplit

  /** Outcome of compiling and running a pattern; the regular-expression engine is a parameter. */
  datatype RegexOutcome = Malformed | NoMatch | Match(index: nat, matched: Text)

  datatype Env = Env(root: Json, regex: (Text, Text) -> RegexOutcome)

  // ----- Keywords -----

  function Keyword(rule: seq<Member>, name: string): Option<Json>
  {
    if Ascii(name) in Keys(rule) then Some(Get(rule, Ascii(name))) else None
  }

  function Branches(rule: seq<Member>, name: string): seq<Json>
  {
    match Keyword(rule, name)
    case Some(JArr(items)) => items
    case _ => []
  }

  /** The names differ in their length or in one of their first two letters. */
  predicate Differs(a: string, b: string)
  {
    |a| != |b| || (|a| >= 2 && (a[0] != b[0] || a[1] != b[1]))
  }

  predicate AsciiName(name: string)
  {
    |name| >= 2 && name[0] < '\U{80}' && name[1] < '\U{80}'
  }

  lemma DifferentKeys(a: string, b: string)
    requires AsciiName(b) && Differs(a, b)
    ensures Ascii(a) != Ascii(b)
  {
    if |a| == |b| {
      assert Ascii(a)[0] != Ascii(b)[0] || Ascii(a)[1] != Ascii(b)[1];
    }
  }

  /** A rule holding one keyword holds no other. */
  lemma OnlyKeyword(rule: seq<Member>, name: string)
    requires |rule| == 1 && rule[0].key == Ascii(name) && AsciiName(name)
    ensures Keyword(rule, name) == Some(rule[0].value)
    ensures forall k: string {:trigger Keyword(rule, k)} :: Differs(k, name) ==> Keyword(rule, k) == None
  {
    assert Keys(rule) == [Ascii(name)];
    forall k: string | Differs(k, name) ensures Ascii(k) !in Keys(rule) {
      DifferentKeys(k, name);
    }
  }

  /** A rule holding two keywords holds no third. */
  lemma OnlyKeywords(rule: seq<Member>, first: string, second: string)
    requires |rule| == 2 && rule[0].key == Ascii(first) && rule[1].key == Ascii(second)
    requires AsciiName(first) && AsciiName(second) && Differs(first, second)
    ensures Keyword(rule, first) == Some(rule[0].value) && Keyword(rule, second) == Some(rule[1].value)
    ensures DistinctKeys(rule)
    ensures forall k: string {:trigger Keyword(rule, k)} :: Differs(k, first) && Differs(k, second) ==>
      Keyword(rule, k) == None
  {
    assert Keys(rule) == [Ascii(first), Ascii(second)];
    forall k: string | Differs(k, first) && Differs(k, second) ensures Ascii(k) !in Keys(rule) {
      DifferentKeys(k, first);
      DifferentKeys(k, second);
    }
    DifferentKeys(first, second);
    GetAt(rule, 0);
    GetAt(rule, 1);
  }

  /** The schema a rule with `$ref` stands for. */
  function Target(env: Env, rule: seq<Member>): Resolution
  {
    match Keyword(rule, "$ref")
    case Some(JStr(reference)) => Resolve(env.root, reference)
    case _ => Unsupported
  }

  datatype JsonType = NullType | BooleanType | NumberType | IntegerType | StringType | ArrayType | ObjectType
    | UnknownType

  function TypeNamed(name: Text): JsonType
  {
    if name == Ascii("null") then NullType
    else if name == Ascii("boolean") then BooleanType
    else if name == Ascii("number") then NumberType
    else if name == Ascii("integer") then IntegerType
    else if name == Ascii("string") then StringType
    else if name == Ascii("array") then ArrayType
    else if name == Ascii("object") then ObjectType
    else UnknownType
  }

  /** The types a rule allows, in the order it lists them. */
  function Types(rule: seq<Member>): seq<JsonType>
  {
    match Keyword(rule, "type")
    case Some(JStr(name)) => [TypeNamed(name)]
    case Some(JArr(items)) => TypesNamed(Strings(items))
    case _ => []
  }

  function TypesNamed(names: seq<Text>): seq<JsonType>
  {
    if names == [] then [] else [TypeNamed(names[0])] + TypesNamed(names[1..])
  }

  function Strings(items: seq<Json>): seq<Text>
  {
    if items == [] then [] else (if items[0].JStr? then [items[0].s] else []) + Strings(items[1..])
  }

  /**
   The rule for one property. With `inherits`, `properties[key]` also finds the functions every object
   inherits, which carry no keyword and act as the empty schema.
   */
  function PropertyRule(rule: seq<Member>, key: Text, inherits: bool): Option<Json>
  {
    match Keyword(rule, "properties")
    case Some(JObj(properties)) =>
      if key in Keys(properties) then Some(Get(properties, key))
      else if inherits && IsInheritedName(key) then Some(JObj([]))
      else None
    case _ => if inherits && IsInheritedName(key) then Some(JObj([])) else None
  }

  // ----- Steps that keep the value -----

  /** The rules that a rule applies to the very same value. */
  function InPlace(env: Env, rule: Json): seq<Json>
  {
    if !rule.JObj? then []
    else if Keyword(rule.members, "$ref").Some? then
      match Target(env, rule.members)
      case Found(schema) => [schema]
      case _ => []
    else
      Branches(rule.members, "allOf") + Branches(rule.members, "anyOf") + Branches(rule.members, "oneOf")
  }

  /** `b` is reached from `a` in exactly `n` in-place steps. */
  ghost predicate ReachIn(env: Env, a: Json, b: Json, n: nat)
    decreases n
  {
    if n == 0 then a == b else exists m :: m in InPlace(env, a) && ReachIn(env, m, b, n - 1)
  }

  function SubValues(j: Json): (s: set<Json>)
    ensures j in s
  {
    match j
    case JArr(items) => {j} + set i, x | 0 <= i < |items| && x in SubValues(items[i]) :: x
    case JObj(members) => {j} + set i, x | 0 <= i < |members| && x in SubValues(members[i].value) :: x
    case _ => {j}
  }

  /** Everything a reference can resolve to. */
  function RootNodes(env: Env): set<Json>
  {
    SubValues(env.root) + {JObj([])}
  }

  // ----- The rules a rule leads to -----

  /** An object rule that is read keyword by keyword; a rule with `$ref` stands for its target alone. */
  predicate Direct(rule: Json)
  {
    rule.JObj? && Keyword(rule.members, "$ref").None?
  }

  /** A rule that a rule applies to some property or item of the value. */
  ghost predicate Descends(rule: Json, next: Json)
  {
    && Direct(rule)
    && (|| Keyword(rule.members, "items") == Some(next)
        || Keyword(rule.members, "additionalProperties") == Some(next)
        || exists key, inherits :: PropertyRule(rule.members, key, inherits) == Some(next))
  }

  ghost predicate Leads(env: Env, rule: Json, next: Json)
  {
    next in InPlace(env, rule) || Descends(rule, next)
  }

  ghost predicate LeadsIn(env: Env, a: Json, b: Json, n: nat)
    decreases n
  {
    if n == 0 then a == b else exists m :: Leads(env, a, m) && LeadsIn(env, m, b, n - 1)
  }

  /** `b` is the rule itself or one its validation can come to. */
  ghost predicate LeadsTo(env: Env, a: Json, b: Json)
  {
    exists n: nat :: LeadsIn(env, a, b, n)
  }

  lemma LeadsOn(env: Env, rule: Json, next: Json)
    requires Leads(env, rule, next)
    ensures forall x :: LeadsTo(env, next, x) ==> LeadsTo(env, rule, x)
  {
    forall x | LeadsTo(env, next, x) ensures LeadsTo(env, rule, x) {
      var n: nat :| LeadsIn(env, next, x, n);
      assert LeadsIn(env, rule, x, n + 1);
    }
  }

  lemma LeadsToParts(env: Env, rule: Json)
    ensures LeadsTo(env, rule, rule)
    ensures forall x :: LeadsTo(env, rule, x) ==>
      x == rule || exists next :: Leads(env, rule, next) && LeadsTo(env, next, x)
  {
    assert LeadsIn(env, rule, rule, 0);
    forall x | LeadsTo(env, rule, x) && x != rule
      ensures exists next :: Leads(env, rule, next) && LeadsTo(env, next, x)
    {
      var n: nat :| LeadsIn(env, rule, x, n);
      var next :| Leads(env, rule, next) && LeadsIn(env, next, x, n - 1);
      assert LeadsTo(env, next, x);
    }
  }

  /** The rule does not come back to itself in place. */
  ghost predicate Settles(env: Env, rule: Json)
  {
    forall n: nat :: n > 0 ==> !ReachIn(env, rule, rule, n)
  }

  /** No rule that the rule leads to comes back to itself without descending into a property or an item. */
  ghost predicate Guarded(env: Env, rule: Json)
  {
    forall x :: LeadsTo(env, rule, x) ==> Settles(env, x)
  }

  lemma GuardedNext(env: Env, rule: Json, next: Json)
    requires Guarded(env, rule) && Leads(env, rule, next)
    ensures Guarded(env, next) && Settles(env, next)
  {
    LeadsOn(env, rule, next);
    LeadsToParts(env, next);
  }

  /** A rule is guarded as soon as everything it leads to in one step is. */
  lemma GuardedByParts(env: Env, rule: Json)
    requires forall next :: Leads(env, rule, next) ==> Guarded(env, next)
    ensures Guarded(env, rule)
  {
    SettlesByParts(env, rule);
    LeadsToParts(env, rule);
    hide Leads;
    hide LeadsTo;
    hide Settles;
  }

  lemma SettlesByParts(env: Env, rule: Json)
    requires forall next :: Leads(env, rule, next) ==> Guarded(env, next)
    ensures Settles(env, rule)
  {
    hide InPlace;
    hide Descends;
    hide LeadsTo;
    if n: nat :| n > 0 && ReachIn(env, rule, rule, n) {
      var m :| m in InPlace(env, rule) && ReachIn(env, m, rule, n - 1);
      assert Leads(env, rule, m);
      ReachOneMore(env, m, rule, m, n - 1);
      LeadsToParts(env, m);
    }
  }

  lemma {:induction false} ReachOneMore(env: Env, a: Json, b: Json, c: Json, n: nat)
    requires ReachIn(env, a, b, n) && c in InPlace(env, b)
    ensures ReachIn(env, a, c, n + 1)
    decreases n
  {
    hide InPlace;
    if n == 0 {
      assert ReachIn(env, c, c, 0);
    } else {
      var m :| m in InPlace(env, a) && ReachIn(env, m, b, n - 1);
      ReachOneMore(env, m, b, c, n - 1);
    }
  }

  lemma {:induction false} SubValuesTransitive(j: Json, x: Json, y: Json)
    requires x in SubValues(j) && y in SubValues(x)
    ensures y in SubValues(j)
  {
    if x != j {
      match j
      case JArr(items) =>
        var i :| 0 <= i < |items| && x in SubValues(items[i]);
        SubValuesTransitive(items[i], x, y);
      case JObj(members) =>
        var i :| 0 <= i < |members| && x in SubValues(members[i].value);
        SubValuesTransitive(members[i].value, x, y);
    }
  }

  /** A named member is a smaller part of the object, and so are the items of an array it holds. */
  lemma MemberIsPart(members: seq<Member>, key: Text)
    requires key in Keys(members)
    ensures var v := Get(members, key);
            && v < JObj(members) && v in SubValues(JObj(members))
            && (v.JArr? ==> forall x :: x in v.items ==> x < JObj(members) && x in SubValues(JObj(members)))
  {
    var v := Get(members, key);
    assert v in SubValues(v);
    if v.JArr? {
      forall x | x in v.items ensures x in SubValues(JObj(members)) {
        var i :| 0 <= i < |v.items| && v.items[i] == x;
        assert x in SubValues(x);
        SubValuesTransitive(JObj(members), v, x);
      }
    }
  }

  lemma {:induction false} FollowStaysInside(current: Cursor, parts: seq<Text>, root: Json)
    requires current.Own? ==> current.value in SubValues(root) + {JNull}
    ensures var end := FollowAll(current, parts);
            end.Some? && end.value.Own? ==> end.value.value in SubValues(root) + {JNull}
    decreases |parts|
  {
    if parts != [] && Follow(current, parts[0]).Some? {
      if current.Own? && parts[0] in Keys(current.value.members) {
        MemberIsPart(current.value.members, parts[0]);
        SubValuesTransitive(root, current.value, Get(current.value.members, parts[0]));
      }
      FollowStaysInside(Follow(current, parts[0]).value, parts[1..], root);
    }
  }

  lemma ResolveStaysInside(env: Env, reference: Text)
    ensures Resolve(env.root, reference).Found? ==> Resolve(env.root, reference).schema in RootNodes(env)
  {
    if Resolve(env.root, reference).Found? {
      FollowStaysInside(Own(env.root), DecodeAll(Split(reference[2..], SLASH)), env.root);
    }
  }

  /** `b` belongs to the document, or is a proper part of `a`. */
  ghost predicate Inside(env: Env, a: Json, b: Json)
  {
    b in RootNodes(env) || (b < a && b in SubValues(a))
  }

  lemma StepInside(env: Env, rule: Json, next: Json)
    requires next in InPlace(env, rule)
    ensures Inside(env, rule, next)
  {
    var rm := rule.members;
    if Keyword(rm, "$ref").Some? {
      ResolveStaysInside(env, Keyword(rm, "$ref").value.s);
    } else if next in Branches(rm, "allOf") {
      MemberIsPart(rm, Ascii("allOf"));
    } else if next in Branches(rm, "anyOf") {
      MemberIsPart(rm, Ascii("anyOf"));
    } else {
      MemberIsPart(rm, Ascii("oneOf"));
    }
  }

  lemma InsideTransitive(env: Env, a: Json, m: Json, b: Json)
    requires Inside(env, a, m) && Inside(env, m, b)
    ensures Inside(env, a, b)
    ensures m in RootNodes(env) ==> b in RootNodes(env)
  {
    if b !in RootNodes(env) {
      if m in RootNodes(env) {
        SubValuesTransitive(if m in SubValues(env.root) then env.root else JObj([]), m, b);
      } else {
        SubValuesTransitive(a, m, b);
      }
    }
  }

  lemma {:induction false} ReachInside(env: Env, a: Json, b: Json, n: nat)
    requires ReachIn(env, a, b, n) && n > 0
    ensures Inside(env, a, b)
    ensures a in RootNodes(env) ==> b in RootNodes(env)
    decreases n
  {
    hide InPlace;
    hide SubValues;
    hide RootNodes;
    var m :| m in InPlace(env, a) && ReachIn(env, m, b, n - 1);
    StepInside(env, a, m);
    if n > 1 {
      ReachInside(env, m, b, n - 1);
      InsideTransitive(env, a, m, b);
    }
    if a in RootNodes(env) {
      assert Inside(env, env.root, a);
      InsideTransitive(env, env.root, a, b);
    }
  }

  /** If no part of the document comes back to itself in place, every rule whatever is guarded under it. */
  lemma NoCycle(env: Env, rule: Json)
    requires forall part :: part in RootNodes(env) ==> Settles(env, part)
    ensures Guarded(env, rule)
  {
    forall x ensures Settles(env, x) {
      forall n: nat | n > 0 ensures !ReachIn(env, x, x, n) {
        if ReachIn(env, x, x, n) {
          ReachInside(env, x, x, n);
        }
      }
    }
  }

  ghost function Reachable(env: Env, rule: Json): set<Json>
  {
    set x | x in SubValues(rule) + RootNodes(env) && exists n: nat :: n > 0 && ReachIn(env, rule, x, n)
  }

  /** How far a rule is from settling: the number of rules it can reach in place. */
  ghost function Rank(env: Env, rule: Json): nat
  {
    |Reachable(env, rule)|
  }

  lemma Shrinks<T>(a: set<T>, b: set<T>, x: T)
    requires a <= b && x in b && x !in a
    ensures |a| < |b|
  {
    assert a + (b - a) == b && x in b - a;
  }

  /** Every rule applied to the same value ranks lower. */
  lemma RankDecreases(env: Env, rule: Json)
    requires Guarded(env, rule)
    ensures forall next :: next in InPlace(env, rule) ==> Guarded(env, next) && Rank(env, next) < Rank(env, rule)
  {
    forall next | next in InPlace(env, rule) ensures Guarded(env, next) && Rank(env, next) < Rank(env, rule) {
      var a, b := Reachable(env, next), Reachable(env, rule);
      GuardedNext(env, rule, next);
      assert ReachIn(env, next, next, 0) && ReachIn(env, rule, next, 1);
      StepInside(env, rule, next);
      forall x | x in a ensures x in b {
        var n: nat :| n > 0 && ReachIn(env, next, x, n);
        assert ReachIn(env, rule, x, n + 1);
        ReachInside(env, rule, x, n + 1);
      }
      Shrinks(a, b, next);
    }
  }

  /** A branch of a rule: guarded, and below the rule's rank. */
  ghost predicate Lower(env: Env, branches: seq<Json>, rank: nat)
  {
    forall m :: m in branches ==> Guarded(env, m) && Rank(env, m) < rank
  }

  lemma BranchesDecrease(env: Env, rule: Json)
    requires Guarded(env, rule) && Direct(rule)
    ensures Lower(env, Branches(rule.members, "allOf"), Rank(env, rule))
    ensures Lower(env, Branches(rule.members, "anyOf"), Rank(env, rule))
    ensures Lower(env, Branches(rule.members, "oneOf"), Rank(env, rule))
  {
    RankDecreases(env, rule);
    hide Guarded;
    hide Rank;
    var r := rule.members;
    assert forall m :: m in Branches(r, "allOf") ==> m in InPlace(env, rule);
    assert forall m :: m in Branches(r, "anyOf") ==> m in InPlace(env, rule);
    assert forall m :: m in Branches(r, "oneOf") ==> m in InPlace(env, rule);
  }

  // ----- Assertions about the value alone -----

  predicate TypeHolds(value: Json, t: JsonType)
  {
    match t
    case NullType => value.JNull?
    case BooleanType => value.JBool?
    case NumberType => value.JNum? && value.n.IsFinite()
    case IntegerType => value.JNum? && IsSafeInteger(value.n)
    case StringType => value.JStr?
    case ArrayType => value.JArr?
    case ObjectType => value.JObj?
    case UnknownType => false
  }

  /** `n < bound`, for a length. */
  predicate NatBelow(n: nat, bound: Num)
  {
    if bound.IsFinite() then n as real < Value(bound) else bound.Infinity? && !bound.negative
  }

  /** `n > bound`, for a length. */
  predicate NatAbove(n: nat, bound: Num)
  {
    if bound.IsFinite() then n as real > Value(bound) else bound.Infinity? && bound.negative
  }

  /** The number a limit keyword holds; no rule whose limits are anything else is supported. */
  function Limit(rule: seq<Member>, name: string): Option<Num>
  {
    match Keyword(rule, name)
    case Some(JNum(n)) => Some(n)
    case _ => None
  }

  predicate LengthHolds(rule: seq<Member>, least: string, most: string, n: nat)
  {
    && (Limit(rule, least).Some? ==> !NatBelow(n, Limit(rule, least).value))
    && (Limit(rule, most).Some? ==> !NatAbove(n, Limit(rule, most).value))
  }

  datatype Bounds = Unbounded | UnknownFormat | Range(low: real, high: real)

  function FormatBounds(format: Text): Bounds
  {
    if format == Ascii("int8") then Range(-128.0, 127.0)
    else if format == Ascii("uint8") then Range(0.0, 255.0)
    else if format == Ascii("int16") then Range(-32768.0, 32767.0)
    else if format == Ascii("uint16") then Range(0.0, 65535.0)
    else if format == Ascii("int32") then Range(-2147483648.0, 2147483647.0)
    else if format == Ascii("uint") then Range(0.0, 9007199254740991.0)
    else if format == Ascii("uint32") then Range(0.0, 4294967295.0)
    else if format == Ascii("uint64") then Range(0.0, 9007199254740991.0)
    else if format == Ascii("double") || IsInheritedName(format) then Unbounded
    else UnknownFormat
  }

  function RuleBounds(rule: seq<Member>): Bounds
  {
    match Keyword(rule, "format")
    case Some(JStr(format)) => FormatBounds(format)
    case _ => Unbounded
  }

  /** JavaScript comparison puts NaN inside every range. */
  predicate InRange(x: Num, low: real, high: real)
  {
    x.NaN? || (x.IsFinite() && low <= Value(x) <= high)
  }

  predicate NumberHolds(rule: seq<Member>, n: Num)
  {
    && (match RuleBounds(rule)
        case Unbounded => true
        case UnknownFormat => false
        case Range(low, high) => InRange(n, low, high))
    && (Limit(rule, "minimum").Some? ==> !Less(n, Limit(rule, "minimum").value))
    && (Limit(rule, "maximum").Some? ==> !Less(Limit(rule, "maximum").value, n))
  }

  ghost predicate StringHolds(env: Env, rule: seq<Member>, s: Text)
  {
    && WellFormed(s)
    && LengthHolds(rule, "minLength", "maxLength", |s|)
    && match Keyword(rule, "pattern")
       case Some(JStr(pattern)) => env.regex(pattern, s) == Match(0, s)
       case _ => true
  }

  ghost predicate ArrayHolds(rule: seq<Member>, items: seq<Json>)
  {
    && LengthHolds(rule, "minItems", "maxItems", |items|)
    && (Keyword(rule, "uniqueItems") == Some(JBool(true)) ==>
          forall i, j :: 0 <= i < j < |items| ==> Normal(items[i]) != Normal(items[j]))
  }

  /** Every required name is a key; with `inherits`, JavaScript's `in` also sees inherited names. */
  predicate RequiredHolds(rule: seq<Member>, members: seq<Member>, inherits: bool)
  {
    forall name :: name in Strings(Branches(rule, "required")) ==>
      name in Keys(members) || (inherits && IsInheritedName(name))
  }

  ghost predicate ConstantHolds(rule: seq<Member>, value: Json)
  {
    && (Keyword(rule, "const").Some? ==> Normal(value) == Normal(Keyword(rule, "const").value))
    && (Keyword(rule, "enum").Some? ==> exists m :: m in Branches(rule, "enum") && Normal(value) == Normal(m))
  }

  ghost predicate TypeAllowed(rule: seq<Member>, value: Json)
  {
    Keyword(rule, "type").Some? ==> exists t :: t in Types(rule) && TypeHolds(value, t)
  }

  // ----- The meaning -----

  ghost predicate Valid(env: Env, inherits: bool, rule: Json, value: Json)
    requires Guarded(env, rule)
    decreases value, Rank(env, rule), 2
  {
    match rule
    case JBool(b) => b
    case JObj(r) =>
      if Keyword(r, "$ref").Some? then
        RankDecreases(env, rule);
        Target(env, r).Found? && Valid(env, inherits, Target(env, r).schema, value)
      else
        && AllOfHolds(env, inherits, rule, value)
        && AnyOfHolds(env, inherits, rule, value)
        && OneOfHolds(env, inherits, rule, value)
        && ConstantHolds(r, value)
        && TypeAllowed(r, value)
        && ValueHolds(env, inherits, rule, value)
    case _ => false
  }

  /** The assertions that apply to values of one type only. */
  ghost predicate ValueHolds(env: Env, inherits: bool, rule: Json, value: Json)
    requires Guarded(env, rule) && Direct(rule)
    decreases value, 0, 1
  {
    && (value.JStr? ==> StringHolds(env, rule.members, value.s))
    && (value.JNum? ==> NumberHolds(rule.members, value.n))
    && (value.JArr? ==> ArrayHolds(rule.members, value.items) && ItemsHold(env, inherits, rule, value))
    && (value.JObj? ==> RequiredHolds(rule.members, value.members, inherits) && MembersHold(env, inherits, rule, value))
  }

  /** The value satisfies every branch. */
  ghost predicate AllOfHolds(env: Env, inherits: bool, rule: Json, value: Json)
    requires Guarded(env, rule) && Direct(rule)
    decreases value, Rank(env, rule), 0
  {
    BranchesDecrease(env, rule);
    forall m :: m in Branches(rule.members, "allOf") ==> Valid(env, inherits, m, value)
  }

  /** The value satisfies some branch. */
  ghost predicate AnyOfHolds(env: Env, inherits: bool, rule: Json, value: Json)
    requires Guarded(env, rule) && Direct(rule)
    decreases value, Rank(env, rule), 0
  {
    BranchesDecrease(env, rule);
    Keyword(rule.members, "anyOf").Some? ==>
      exists m :: m in Branches(rule.members, "anyOf") && Valid(env, inherits, m, value)
  }

  /** The value satisfies exactly one branch. */
  ghost predicate OneOfHolds(env: Env, inherits: bool, rule: Json, value: Json)
    requires Guarded(env, rule) && Direct(rule)
    decreases value, Rank(env, rule), 1
  {
    BranchesDecrease(env, rule);
    Keyword(rule.members, "oneOf").Some? ==>
      exists i :: OnlyBranch(env, inherits, Branches(rule.members, "oneOf"), Rank(env, rule), value, i)
  }

  /** Branch `i` accepts the value and no other branch does; all branches rank below `rank`. */
  ghost predicate OnlyBranch(env: Env, inherits: bool, branches: seq<Json>, rank: nat, value: Json, i: int)
    requires Lower(env, branches, rank)
    decreases value, rank, 0
  {
    && 0 <= i < |branches|
    && forall j :: 0 <= j < |branches| ==> (Valid(env, inherits, branches[j], value) <==> i == j)
  }

  ghost predicate ItemsHold(env: Env, inherits: bool, rule: Json, value: Json)
    requires Guarded(env, rule) && Direct(rule) && value.JArr?
    decreases value, 0, 0, 2
  {
    match Keyword(rule.members, "items")
    case None => true
    case Some(items) =>
      GuardedNext(env, rule, items);
      forall i :: 0 <= i < |value.items| ==> Valid(env, inherits, items, value.items[i])
  }

  /** Each member obeys its property rule, or else the rule for additional properties. */
  ghost predicate MembersHold(env: Env, inherits: bool, rule: Json, value: Json)
    requires Guarded(env, rule) && Direct(rule) && value.JObj?
    decreases value, 0, 0, 1
  {
    forall i :: 0 <= i < |value.members| ==> MemberHolds(env, inherits, rule, value, i)
  }

  ghost predicate MemberHolds(env: Env, inherits: bool, rule: Json, value: Json, i: nat)
    requires Guarded(env, rule) && Direct(rule) && value.JObj? && i < |value.members|
    decreases value, 0, 0, 0
  {
    match MemberRule(rule.members, value.members[i].key, inherits)
    case None => true
    case Some(applied) =>
      GuardedNext(env, rule, applied);
      Valid(env, inherits, applied, value.members[i].value)
  }

  /** The rule a member must obey: its property rule, or the schema of `additionalProperties`. */
  function MemberRule(rule: seq<Member>, key: Text, inherits: bool): Option<Json>
  {
    if PropertyRule(rule, key, inherits).Some? then PropertyRule(rule, key, inherits)
    else Keyword(rule, "additionalProperties")
  }
}
