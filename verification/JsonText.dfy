/**
 JSON values and the text `JSON.stringify` prints for them. Member order is the order in which
 the engine enumerates an object's own keys. The main result is that the printed text determines
 the value up to what JSON cannot say: the sign of zero, and non-finite numbers, which print as null.
 */
module JsonText {
  import opened Utf16Text
  import opened NumberText

  datatype Json =
    | JNull
    | JBool(b: bool)
    | JNum(n: Num)
    | JStr(s: Text)
    | JArr(items: seq<Json>)
    | JObj(members: seq<Member>)

  datatype Member = Member(key: Text, value: Json)

  ghost predicate DistinctKeys(members: seq<Member>)
  {
    forall i, j :: 0 <= i < j < |members| ==> members[i].key != members[j].key
  }

  /** An object holds each of its own keys once; every JavaScript value is proper. */
  ghost predicate Proper(j: Json)
  {
    match j
    case JArr(items) => forall i :: 0 <= i < |items| ==> Proper(items[i])
    case JObj(members) => DistinctKeys(members) && forall i :: 0 <= i < |members| ==> Proper(members[i].value)
    case _ => true
  }

  const QUOTE: Unit := '"' as int
  const BACKSLASH: Unit := '\\' as int
  const COMMA: Unit := ',' as int
  const COLON: Unit := ':' as int
  const OPEN_ARRAY: Unit := '[' as int
  const CLOSE_ARRAY: Unit := ']' as int
  const OPEN_OBJECT: Unit := '{' as int
  const CLOSE_OBJECT: Unit := '}' as int

  // ----- Strings -----

  function HexDigit(d: int): Unit
    requires 0 <= d < 16
  {
    if d < 10 then 0x30 + d else 0x57 + d
  }

  function UnicodeEscape(u: Unit): (t: Text)
    ensures |t| == 6 && t[0] == BACKSLASH && t[1] == 'u' as int
  {
    [BACKSLASH, 'u' as int, HexDigit(u / 0x1000), HexDigit(u / 0x100 % 0x10), HexDigit(u / 0x10 % 0x10),
     HexDigit(u % 0x10)]
  }

  /** The letter of a two-character escape, or 0 where the standard defines none. */
  function ShortEscape(u: Unit): Unit
  {
    if u == 0x08 then 'b' as int
    else if u == 0x09 then 't' as int
    else if u == 0x0A then 'n' as int
    else if u == 0x0C then 'f' as int
    else if u == 0x0D then 'r' as int
    else if u == QUOTE || u == BACKSLASH then u
    else 0
  }

  /** The printed form of the first code point of a non-empty text. */
  function EscapeHead(s: Text): (t: Text)
    requires s != []
    ensures t != []
  {
    if HeadLength(s) == 2 then s[..2]
    else if ShortEscape(s[0]) != 0 then [BACKSLASH, ShortEscape(s[0])]
    else if s[0] < 0x20 || LoneHead(s) then UnicodeEscape(s[0])
    else [s[0]]
  }

  function QuoteBody(s: Text): Text
  {
    if s == [] then [] else EscapeHead(s) + QuoteBody(s[HeadLength(s)..])
  }

  function Quote(s: Text): Text
  {
    [QUOTE] + QuoteBody(s) + [QUOTE]
  }

  // ----- Values -----

  function Stringify(j: Json): Text
    decreases j, 1
  {
    match j
    case JNull => Ascii("null")
    case JBool(b) => if b then Ascii("true") else Ascii("false")
    case JNum(n) => if n.IsFinite() then NumberToString(n) else Ascii("null")
    case JStr(s) => Quote(s)
    case JArr(items) => [OPEN_ARRAY] + StringifyItems(items, true) + [CLOSE_ARRAY]
    case JObj(members) => [OPEN_OBJECT] + StringifyMembers(members, true) + [CLOSE_OBJECT]
  }

  /** Items joined by commas; all but the first of an array are preceded by one. */
  function StringifyItems(items: seq<Json>, first: bool): Text
    decreases items, 0
  {
    if items == [] then []
    else Separator(first) + Stringify(items[0]) + StringifyItems(items[1..], false)
  }

  function StringifyMembers(members: seq<Member>, first: bool): Text
    decreases members, 0
  {
    if members == [] then []
    else
      Separator(first) + (Quote(members[0].key) + [COLON] + Stringify(members[0].value))
      + StringifyMembers(members[1..], false)
  }

  function Separator(first: bool): Text { if first then [] else [COMMA] }

  // ----- What the text can say -----

  /** The value a text round-trips to: zeros lose their sign and non-finite numbers become null. */
  function Normal(j: Json): Json
    decreases j, 1
  {
    match j
    case JNum(n) => if n.IsFinite() then JNum(NormalNum(n)) else JNull
    case JArr(items) => JArr(NormalItems(items))
    case JObj(members) => JObj(NormalMembers(members))
    case _ => j
  }

  function NormalItems(items: seq<Json>): (r: seq<Json>)
    ensures |r| == |items|
    ensures forall i :: 0 <= i < |items| ==> r[i] == Normal(items[i])
    decreases items, 0
  {
    if items == [] then [] else [Normal(items[0])] + NormalItems(items[1..])
  }

  function NormalMembers(members: seq<Member>): (r: seq<Member>)
    ensures |r| == |members|
    ensures forall i :: 0 <= i < |members| ==> r[i].key == members[i].key && r[i].value == Normal(members[i].value)
    decreases members, 0
  {
    if members == [] then []
    else [Member(members[0].key, Normal(members[0].value))] + NormalMembers(members[1..])
  }

  // ----- The printed form is unambiguous -----

  /** What may follow a complete value: the end, a comma, or a closing bracket. */
  predicate Stops(x: Text)
  {
    x == [] || x[0] == COMMA || x[0] == CLOSE_ARRAY || x[0] == CLOSE_OBJECT
  }

  lemma SameLengthPrefix(p: Text, x: Text, q: Text, y: Text)
    requires p + x == q + y && |p| == |q|
    ensures p == q && x == y
  {
    assert p == (p + x)[..|p|] && q == (q + y)[..|q|];
    assert x == (p + x)[|p|..] && y == (q + y)[|q|..];
  }

  lemma Assoc(p: Text, q: Text, r: Text)
    ensures p + q + r == p + (q + r)
  {
  }

  /** Stripping the same opening bracket from two texts. */
  lemma Unwrap(open: Text, p: Text, q: Text, close: Text, x: Text, y: Text)
    requires open + p + close + x == open + q + close + y
    ensures p + close + x == q + close + y
  {
    Assoc(open + p, close, x);
    Assoc(open, p, close + x);
    Assoc(p, close, x);
    Assoc(open + q, close, y);
    Assoc(open, q, close + y);
    Assoc(q, close, y);
    SameLengthPrefix(open, p + (close + x), open, q + (close + y));
  }

  lemma HexInjective(u: Unit, v: Unit)
    requires UnicodeEscape(u) == UnicodeEscape(v)
    ensures u == v
  {
    var s, t := UnicodeEscape(u), UnicodeEscape(v);
    HexDigitInjective(u / 0x1000, v / 0x1000, s[2], t[2]);
    HexDigitInjective(u / 0x100 % 0x10, v / 0x100 % 0x10, s[3], t[3]);
    HexDigitInjective(u / 0x10 % 0x10, v / 0x10 % 0x10, s[4], t[4]);
    HexDigitInjective(u % 0x10, v % 0x10, s[5], t[5]);
    FourDigits(u);
    FourDigits(v);
  }

  lemma FourDigits(u: int)
    ensures u == 0x1000 * (u / 0x1000) + 0x100 * (u / 0x100 % 0x10) + 0x10 * (u / 0x10 % 0x10) + u % 0x10
  {
    assert u / 0x100 == 0x10 * (u / 0x1000) + u / 0x100 % 0x10;
    assert u / 0x10 == 0x10 * (u / 0x100) + u / 0x10 % 0x10;
  }

  lemma HexDigitInjective(d: int, e: int, x: Unit, y: Unit)
    requires 0 <= d < 16 && 0 <= e < 16
    requires x == HexDigit(d) && y == HexDigit(e) && x == y
    ensures d == e
  {}

  /** How many units of output the first code point takes is visible in the output. */
  lemma EscapeVisible(s: Text, x: Text)
    requires s != []
    ensures var o := EscapeHead(s) + x;
            && o[0] != QUOTE
            && (HeadLength(s) == 2 <==> IsHigh(o[0]))
            && (|EscapeHead(s)| == 1 <==> o[0] != BACKSLASH && !IsHigh(o[0]))
            && (HeadLength(s) == 1 && |EscapeHead(s)| == 6 <==> o[0] == BACKSLASH && |o| > 1 && o[1] == 'u' as int)
            && (|EscapeHead(s)| in {1, 2, 6})
  {
    var h := EscapeHead(s);
    assert (h + x)[..|h|] == h;
    assert forall i :: 0 <= i < |h| ==> (h + x)[i] == h[i];
  }

  lemma EscapeHeadUnambiguous(s: Text, t: Text, x: Text, y: Text)
    requires s != [] && t != []
    requires EscapeHead(s) + x == EscapeHead(t) + y
    ensures HeadLength(s) == HeadLength(t)
    ensures s[..HeadLength(s)] == t[..HeadLength(t)] && x == y
  {
    EscapeVisible(s, x);
    EscapeVisible(t, y);
    var h, k := EscapeHead(s), EscapeHead(t);
    assert |h| == |k|;
    SameLengthPrefix(h, x, k, y);
    if |h| == 6 {
      HexInjective(s[0], t[0]);
    } else if |h| == 2 && HeadLength(s) == 1 {
      assert h[1] == k[1];
    } else {
      assert h[0] == k[0];
    }
  }

  lemma QuotePeel(s: Text, x: Text)
    requires s != []
    ensures QuoteBody(s) + [QUOTE] + x == EscapeHead(s) + (QuoteBody(s[HeadLength(s)..]) + [QUOTE] + x)
    ensures (QuoteBody(s) + [QUOTE] + x)[0] != QUOTE
  {
    var h, t := EscapeHead(s), QuoteBody(s[HeadLength(s)..]);
    assert h + t + [QUOTE] + x == h + (t + [QUOTE] + x);
    EscapeVisible(s, t + [QUOTE] + x);
  }

  lemma QuoteEnd(x: Text)
    ensures QuoteBody([]) + [QUOTE] + x == [QUOTE] + x
  {
  }

  lemma {:induction false} QuoteBodyUnambiguous(s: Text, t: Text, x: Text, y: Text)
    requires QuoteBody(s) + [QUOTE] + x == QuoteBody(t) + [QUOTE] + y
    ensures s == t && x == y
  {
    if s != [] { QuotePeel(s, x); } else { QuoteEnd(x); }
    if t != [] { QuotePeel(t, y); } else { QuoteEnd(y); }
    if s == [] {
      SameLengthPrefix([QUOTE], x, [QUOTE], y);
    } else {
      var s', t' := s[HeadLength(s)..], t[HeadLength(t)..];
      EscapeHeadUnambiguous(s, t, QuoteBody(s') + [QUOTE] + x, QuoteBody(t') + [QUOTE] + y);
      QuoteBodyUnambiguous(s', t', x, y);
      assert s == s[..HeadLength(s)] + s' && t == t[..HeadLength(t)] + t';
    }
  }

  /** A quoted string ends where its own closing quote says, whatever follows. */
  lemma QuoteUnambiguous(s: Text, t: Text, x: Text, y: Text)
    requires Quote(s) + x == Quote(t) + y
    ensures s == t && x == y
  {
    Unwrap([QUOTE], QuoteBody(s), QuoteBody(t), [QUOTE], x, y);
    QuoteBodyUnambiguous(s, t, x, y);
  }

  /** Length of the longest prefix of units that occur in printed numbers. */
  function NumberRun(o: Text): nat
  {
    if o == [] || !IsNumberUnit(o[0]) then 0 else 1 + NumberRun(o[1..])
  }

  lemma {:induction false} RunLength(s: Text, x: Text)
    requires forall u :: u in s ==> IsNumberUnit(u)
    requires Stops(x)
    ensures NumberRun(s + x) == |s|
  {
    if s == [] {
      assert s + x == x;
    } else {
      assert (s + x)[1..] == s[1..] + x;
      RunLength(s[1..], x);
    }
  }

  lemma NumberUnambiguous(m: Num, n: Num, x: Text, y: Text)
    requires m.IsFinite() && n.IsFinite()
    requires NumberToString(m) + x == NumberToString(n) + y
    requires Stops(x) && Stops(y)
    ensures NormalNum(m) == NormalNum(n) && x == y
  {
    var s, t := NumberToString(m), NumberToString(n);
    NumberShape(m);
    NumberShape(n);
    RunLength(s, x);
    RunLength(t, y);
    SameLengthPrefix(s, x, t, y);
    NumberToStringInjective(m, n);
  }

  datatype Kind = Literal | Number | String | Array | Object

  function KindOf(j: Json): Kind
  {
    match j
    case JNull => Literal
    case JBool(_) => Literal
    case JNum(n) => if n.IsFinite() then Number else Literal
    case JStr(_) => String
    case JArr(_) => Array
    case JObj(_) => Object
  }

  function KindOfUnit(u: Unit): Kind
  {
    if u == QUOTE then String
    else if u == OPEN_ARRAY then Array
    else if u == OPEN_OBJECT then Object
    else if u == MINUS || IsDigitUnit(u) then Number
    else Literal
  }

  /** The first unit of a printed value tells its kind. */
  lemma FirstUnit(j: Json)
    ensures var t := Stringify(j);
            && t != [] && KindOfUnit(t[0]) == KindOf(j)
            && !(t[0] in {COMMA, CLOSE_ARRAY, CLOSE_OBJECT})
  {
    if j.JNum? && j.n.IsFinite() {
      NumberShape(j.n);
    }
  }

  lemma {:induction false} StringifyUnambiguous(a: Json, b: Json, x: Text, y: Text)
    requires Stringify(a) + x == Stringify(b) + y
    requires Stops(x) && Stops(y)
    ensures Normal(a) == Normal(b) && x == y
    decreases a, 1
  {
    FirstUnit(a);
    FirstUnit(b);
    assert (Stringify(a) + x)[0] == Stringify(a)[0] == Stringify(b)[0];
    match KindOf(a)
    case Literal => LiteralUnambiguous(a, b, x, y);
    case Number => NumberUnambiguous(a.n, b.n, x, y);
    case String => QuoteUnambiguous(a.s, b.s, x, y);
    case Array =>
      Unwrap([OPEN_ARRAY], StringifyItems(a.items, true), StringifyItems(b.items, true), [CLOSE_ARRAY], x, y);
      ItemsUnambiguous(a.items, b.items, true, x, y);
    case Object =>
      Unwrap([OPEN_OBJECT], StringifyMembers(a.members, true), StringifyMembers(b.members, true), [CLOSE_OBJECT], x, y);
      MembersUnambiguous(a.members, b.members, true, x, y);
  }

  lemma LiteralUnambiguous(a: Json, b: Json, x: Text, y: Text)
    requires KindOf(a) == KindOf(b) == Literal
    requires Stringify(a) + x == Stringify(b) + y
    ensures Normal(a) == Normal(b) && x == y
  {
    var s, t := Stringify(a), Stringify(b);
    assert (s + x)[0] == s[0] && (t + y)[0] == t[0];
    assert s[0] == (if Normal(a) == JNull then 'n' else if Normal(a) == JBool(true) then 't' else 'f') as int;
    assert t[0] == (if Normal(b) == JNull then 'n' else if Normal(b) == JBool(true) then 't' else 'f') as int;
    SameLengthPrefix(s, x, t, y);
  }

  /** Texts that start differently: a closing bracket is neither a comma nor the start of a value. */
  lemma Regroup(p: Text, q: Text, t: Text, close: Text, x: Text)
    ensures p + q + t + close + x == p + (q + (t + close + x))
  {
    Assoc(p + q + t, close, x);
    Assoc(p + q, t, close + x);
    Assoc(p, q, t + (close + x));
    Assoc(t, close, x);
  }

  lemma ItemsPeel(items: seq<Json>, first: bool, x: Text)
    requires items != []
    ensures StringifyItems(items, first) + [CLOSE_ARRAY] + x
         == Separator(first) + (Stringify(items[0]) + (StringifyItems(items[1..], false) + [CLOSE_ARRAY] + x))
  {
    var p, q, t := Separator(first), Stringify(items[0]), StringifyItems(items[1..], false);
    Regroup(p, q, t, [CLOSE_ARRAY], x);
  }

  lemma ItemsStart(items: seq<Json>, first: bool, x: Text)
    ensures var o := StringifyItems(items, first) + [CLOSE_ARRAY] + x;
            && (items == [] <==> o[0] == CLOSE_ARRAY)
            && (!first ==> Stops(o))
  {
    if items != [] {
      FirstUnit(items[0]);
      ItemsPeel(items, first, x);
    }
  }

  lemma {:induction false} ItemsUnambiguous(a: seq<Json>, b: seq<Json>, first: bool, x: Text, y: Text)
    requires StringifyItems(a, first) + [CLOSE_ARRAY] + x == StringifyItems(b, first) + [CLOSE_ARRAY] + y
    ensures NormalItems(a) == NormalItems(b) && x == y
    decreases a, 0
  {
    ItemsStart(a, first, x);
    ItemsStart(b, first, y);
    if a == [] {
      assert StringifyItems(a, first) + [CLOSE_ARRAY] + x == [CLOSE_ARRAY] + x;
      assert StringifyItems(b, first) + [CLOSE_ARRAY] + y == [CLOSE_ARRAY] + y;
      SameLengthPrefix([CLOSE_ARRAY], x, [CLOSE_ARRAY], y);
    } else {
      var p := StringifyItems(a[1..], false) + [CLOSE_ARRAY] + x;
      var q := StringifyItems(b[1..], false) + [CLOSE_ARRAY] + y;
      ItemsStart(a[1..], false, x);
      ItemsStart(b[1..], false, y);
      ItemsPeel(a, first, x);
      ItemsPeel(b, first, y);
      SameLengthPrefix(Separator(first), Stringify(a[0]) + p, Separator(first), Stringify(b[0]) + q);
      StringifyUnambiguous(a[0], b[0], p, q);
      ItemsUnambiguous(a[1..], b[1..], false, x, y);
    }
  }

  lemma MemberPeel(members: seq<Member>, first: bool, x: Text)
    requires members != []
    ensures StringifyMembers(members, first) + [CLOSE_OBJECT] + x
         == Separator(first) + (Quote(members[0].key)
            + ([COLON] + (Stringify(members[0].value) + (StringifyMembers(members[1..], false) + [CLOSE_OBJECT] + x))))
  {
    var p, k, v := Separator(first), Quote(members[0].key), Stringify(members[0].value);
    var t := StringifyMembers(members[1..], false);
    Regroup(p, k + [COLON] + v, t, [CLOSE_OBJECT], x);
    Assoc(k + [COLON], v, t + [CLOSE_OBJECT] + x);
    Assoc(k, [COLON], v + (t + [CLOSE_OBJECT] + x));
  }

  lemma MembersStart(members: seq<Member>, first: bool, x: Text)
    ensures var o := StringifyMembers(members, first) + [CLOSE_OBJECT] + x;
            && (members == [] <==> o[0] == CLOSE_OBJECT)
            && (!first ==> Stops(o))
  {
    if members != [] {
      MemberPeel(members, first, x);
    }
  }

  lemma {:induction false} MembersUnambiguous(a: seq<Member>, b: seq<Member>, first: bool, x: Text, y: Text)
    requires StringifyMembers(a, first) + [CLOSE_OBJECT] + x == StringifyMembers(b, first) + [CLOSE_OBJECT] + y
    ensures NormalMembers(a) == NormalMembers(b) && x == y
    decreases a, 0
  {
    MembersStart(a, first, x);
    MembersStart(b, first, y);
    if a == [] {
      assert StringifyMembers(a, first) + [CLOSE_OBJECT] + x == [CLOSE_OBJECT] + x;
      assert StringifyMembers(b, first) + [CLOSE_OBJECT] + y == [CLOSE_OBJECT] + y;
      SameLengthPrefix([CLOSE_OBJECT], x, [CLOSE_OBJECT], y);
    } else {
      var p := StringifyMembers(a[1..], false) + [CLOSE_OBJECT] + x;
      var q := StringifyMembers(b[1..], false) + [CLOSE_OBJECT] + y;
      MembersStart(a[1..], false, x);
      MembersStart(b[1..], false, y);
      MemberPeel(a, first, x);
      MemberPeel(b, first, y);
      var s, t := [COLON] + (Stringify(a[0].value) + p), [COLON] + (Stringify(b[0].value) + q);
      SameLengthPrefix(Separator(first), Quote(a[0].key) + s, Separator(first), Quote(b[0].key) + t);
      QuoteUnambiguous(a[0].key, b[0].key, s, t);
      SameLengthPrefix([COLON], Stringify(a[0].value) + p, [COLON], Stringify(b[0].value) + q);
      StringifyUnambiguous(a[0].value, b[0].value, p, q);
      MembersUnambiguous(a[1..], b[1..], false, x, y);
    }
  }

  lemma {:induction false} NormalPrintsAlike(j: Json)
    ensures Stringify(Normal(j)) == Stringify(j)
    decreases j, 1
  {
    match j
    case JArr(items) => NormalItemsPrintAlike(items, true);
    case JObj(members) => NormalMembersPrintAlike(members, true);
    case _ =>
  }

  lemma {:induction false} NormalItemsPrintAlike(items: seq<Json>, first: bool)
    ensures StringifyItems(NormalItems(items), first) == StringifyItems(items, first)
    decreases items, 0
  {
    if items != [] {
      NormalPrintsAlike(items[0]);
      NormalItemsPrintAlike(items[1..], false);
    }
  }

  lemma {:induction false} NormalMembersPrintAlike(members: seq<Member>, first: bool)
    ensures StringifyMembers(NormalMembers(members), first) == StringifyMembers(members, first)
    decreases members, 0
  {
    if members != [] {
      NormalPrintsAlike(members[0].value);
      NormalMembersPrintAlike(members[1..], false);
    }
  }

  /**
   `sameJson` of the contract runtime, used by the `const` and `enum` keywords: equality of printed texts.
   */
  predicate SameJson(left: Json, right: Json)
  {
    Stringify(left) == Stringify(right)
  }

  /** Printed texts are equal exactly when the values agree member by member, in order, after normalising. */
  lemma SameJsonIffNormalEqual(left: Json, right: Json)
    ensures SameJson(left, right) <==> Normal(left) == Normal(right)
  {
    if SameJson(left, right) {
      assert Stringify(left) + [] == Stringify(right) + [];
      StringifyUnambiguous(left, right, [], []);
    }
    if Normal(left) == Normal(right) {
      NormalPrintsAlike(left);
      NormalPrintsAlike(right);
    }
  }
}
