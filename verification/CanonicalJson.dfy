/**
 The canonical printer behind contract digests: object keys in code-unit order, every string
 well-formed UTF-16. Its text decides equality of values whose objects are read as unordered maps.
 */
module CanonicalJson {
  import opened Optional
  import opened Utf16Text
  import opened NumberText
  import opened JsonText
  import opened StrictSort

  // ----- Keys in code-unit order -----

  predicate Below(a: Text, b: Text)
  {
    b != [] && (a == [] || a[0] < b[0] || (a[0] == b[0] && Below(a[1..], b[1..])))
  }

  lemma {:induction false} BelowTotal(a: Text, b: Text)
    ensures a == b || Below(a, b) || Below(b, a)
    ensures !(Below(a, b) && Below(b, a)) && !Below(a, a)
  {
    if a != [] && b != [] && a[0] == b[0] {
      BelowTotal(a[1..], b[1..]);
      assert a == [a[0]] + a[1..] && b == [b[0]] + b[1..];
    }
    if a != [] {
      BelowTotal(a[1..], a[1..]);
    }
  }

  lemma {:induction false} BelowTransitive(a: Text, b: Text, c: Text)
    requires Below(a, b) && Below(b, c)
    ensures Below(a, c)
  {
    if a != [] && a[0] == b[0] == c[0] {
      BelowTransitive(a[1..], b[1..], c[1..]);
    }
  }

  lemma BelowIsOrder()
    ensures IsOrder(Below)
  {
    forall a: Text, b: Text ensures Below(a, b) ==> !Below(b, a) {
      BelowTotal(a, b);
    }
    forall a: Text, b: Text, c: Text | Below(a, b) && Below(b, c) ensures Below(a, c) {
      BelowTransitive(a, b, c);
    }
  }

  /** `Object.keys(value).sort()`. */
  function SortKeys(keys: seq<Text>): (r: seq<Text>)
    ensures |r| == |keys|
    ensures forall x :: x in r <==> x in keys
  {
    Sort(Below, keys)
  }

  lemma SortKeysAscending(members: seq<Member>)
    requires DistinctKeys(members)
    ensures Ascending(Below, SortKeys(Keys(members)))
  {
    var keys := Keys(members);
    BelowIsOrder();
    forall i, j | 0 <= i < j < |keys| ensures Below(keys[i], keys[j]) || Below(keys[j], keys[i]) {
      BelowTotal(keys[i], keys[j]);
    }
    SortAscending(Below, keys);
  }

  // ----- Objects -----

  function Keys(members: seq<Member>): (r: seq<Text>)
    ensures |r| == |members| && forall i :: 0 <= i < |r| ==> r[i] == members[i].key
  {
    seq(|members|, i requires 0 <= i < |members| => members[i].key)
  }

  /** Position of a key, or the number of members when the object does not hold it. */
  function IndexOfKey(members: seq<Member>, key: Text): (i: nat)
    ensures i <= |members|
    ensures i < |members| ==> members[i].key == key
    ensures i < |members| <==> key in Keys(members)
  {
    if members == [] then 0
    else if members[0].key == key then
      assert Keys(members)[0] == key;
      0
    else
      assert Keys(members) == [members[0].key] + Keys(members[1..]);
      1 + IndexOfKey(members[1..], key)
  }

  /** `value[key]` for an own key. */
  function Get(members: seq<Member>, key: Text): (v: Json)
    requires key in Keys(members)
    ensures v == members[IndexOfKey(members, key)].value
  {
    members[IndexOfKey(members, key)].value
  }

  lemma GetAt(members: seq<Member>, i: nat)
    requires DistinctKeys(members) && i < |members|
    ensures members[i].key in Keys(members) && Get(members, members[i].key) == members[i].value
  {
    assert Keys(members)[i] == members[i].key;
  }

  // ----- The printer -----

  /** `None` stands for the ContractDecodeError the printer throws. */
  function CanonicalJson(value: Json): Option<Text>
    decreases value, 1, 0
  {
    match value
    case JArr(items) =>
      (match CanonicalItems(items, true)
       case None => None
       case Some(t) => Some([OPEN_ARRAY] + t + [CLOSE_ARRAY]))
    case JObj(members) =>
      (match CanonicalMembers(value, SortKeys(Keys(members)), true)
       case None => None
       case Some(t) => Some([OPEN_OBJECT] + t + [CLOSE_OBJECT]))
    case JStr(s) => if AllPaired(s) then Some(Stringify(value)) else None
    case _ => Some(Stringify(value))
  }

  function CanonicalItems(items: seq<Json>, first: bool): Option<Text>
    decreases items, 0, 0
  {
    if items == [] then Some([])
    else
      match (CanonicalJson(items[0]), CanonicalItems(items[1..], false))
      case (Some(t), Some(rest)) => Some(Separator(first) + t + rest)
      case _ => None
  }

  function CanonicalMembers(value: Json, keys: seq<Text>, first: bool): Option<Text>
    requires value.JObj? && forall k :: k in keys ==> k in Keys(value.members)
    decreases value, 0, |keys|
  {
    if keys == [] then Some([])
    else if !AllPaired(keys[0]) then None
    else
      match (CanonicalJson(Get(value.members, keys[0])), CanonicalMembers(value, keys[1..], false))
      case (Some(t), Some(rest)) => Some(Separator(first) + (Quote(keys[0]) + [COLON] + t) + rest)
      case _ => None
  }

  // ----- It fails exactly on ill-formed text -----

  /** Every string and every key, at any depth, is well-formed UTF-16. */
  ghost predicate TextWellFormed(value: Json)
  {
    match value
    case JStr(s) => WellFormed(s)
    case JArr(items) => forall i :: 0 <= i < |items| ==> TextWellFormed(items[i])
    case JObj(members) =>
      forall i :: 0 <= i < |members| ==> WellFormed(members[i].key) && TextWellFormed(members[i].value)
    case _ => true
  }

  lemma {:induction false} FailsIffIllFormed(value: Json)
    requires Proper(value)
    ensures CanonicalJson(value).Some? <==> TextWellFormed(value)
    decreases value, 1, 0
  {
    match value
    case JStr(s) => WellFormedIffPaired(s);
    case JArr(items) => ItemsFailIff(items, true);
    case JObj(members) =>
      var keys := SortKeys(Keys(members));
      MembersFailIff(value, keys, true);
      forall i | 0 <= i < |members|
        ensures members[i].key in keys && Get(members, members[i].key) == members[i].value
      {
        GetAt(members, i);
      }
    case _ =>
  }

  lemma {:induction false} ItemsFailIff(items: seq<Json>, first: bool)
    requires forall i :: 0 <= i < |items| ==> Proper(items[i])
    ensures CanonicalItems(items, first).Some? <==> forall i :: 0 <= i < |items| ==> TextWellFormed(items[i])
    decreases items, 0, 0
  {
    if items != [] {
      FailsIffIllFormed(items[0]);
      ItemsFailIff(items[1..], false);
      assert forall i :: 1 <= i < |items| ==> items[i] == items[1..][i - 1];
    }
  }

  lemma {:induction false} MembersFailIff(value: Json, keys: seq<Text>, first: bool)
    requires value.JObj? && Proper(value) && forall k :: k in keys ==> k in Keys(value.members)
    ensures CanonicalMembers(value, keys, first).Some?
      <==> forall k :: k in keys ==> WellFormed(k) && TextWellFormed(Get(value.members, k))
    decreases value, 0, |keys|
  {
    if keys != [] {
      WellFormedIffPaired(keys[0]);
      FailsIffIllFormed(Get(value.members, keys[0]));
      MembersFailIff(value, keys[1..], false);
      assert forall k :: k in keys <==> k == keys[0] || k in keys[1..];
    }
  }

  // ----- The canonical text is the plain text of the value with its keys sorted -----

  function SortDeep(value: Json): Json
    decreases value, 1, 0
  {
    match value
    case JArr(items) => JArr(SortItems(items))
    case JObj(members) => JObj(SortMembers(value, SortKeys(Keys(members))))
    case _ => value
  }

  function SortItems(items: seq<Json>): (r: seq<Json>)
    ensures |r| == |items|
    ensures forall i :: 0 <= i < |r| ==> r[i] == SortDeep(items[i])
    decreases items, 0, 0
  {
    if items == [] then [] else [SortDeep(items[0])] + SortItems(items[1..])
  }

  function SortMembers(value: Json, keys: seq<Text>): (r: seq<Member>)
    requires value.JObj? && forall k :: k in keys ==> k in Keys(value.members)
    ensures |r| == |keys|
    ensures forall i :: 0 <= i < |r| ==> r[i] == Member(keys[i], SortDeep(Get(value.members, keys[i])))
    decreases value, 0, |keys|
  {
    if keys == [] then []
    else [Member(keys[0], SortDeep(Get(value.members, keys[0])))] + SortMembers(value, keys[1..])
  }

  lemma {:induction false} CanonicalIsSortedText(value: Json)
    requires CanonicalJson(value).Some?
    ensures CanonicalJson(value).value == Stringify(SortDeep(value))
    decreases value, 1, 0
  {
    match value
    case JArr(items) => CanonicalItemsText(items, true);
    case JObj(members) => CanonicalMembersText(value, SortKeys(Keys(members)), true);
    case _ =>
  }

  lemma {:induction false} CanonicalItemsText(items: seq<Json>, first: bool)
    requires CanonicalItems(items, first).Some?
    ensures CanonicalItems(items, first).value == StringifyItems(SortItems(items), first)
    decreases items, 0, 0
  {
    if items != [] {
      CanonicalIsSortedText(items[0]);
      CanonicalItemsText(items[1..], false);
    }
  }

  lemma {:induction false} CanonicalMembersText(value: Json, keys: seq<Text>, first: bool)
    requires value.JObj? && forall k :: k in keys ==> k in Keys(value.members)
    requires CanonicalMembers(value, keys, first).Some?
    ensures CanonicalMembers(value, keys, first).value == StringifyMembers(SortMembers(value, keys), first)
    decreases value, 0, |keys|
  {
    if keys != [] {
      CanonicalIsSortedText(Get(value.members, keys[0]));
      CanonicalMembersText(value, keys[1..], false);
    }
  }

  // ----- Equality with objects read as unordered maps -----

  ghost predicate SameValue(a: Json, b: Json)
    decreases a
  {
    match a
    case JNum(n) =>
      if n.IsFinite() then b.JNum? && b.n.IsFinite() && NormalNum(n) == NormalNum(b.n)
      else b == JNull || (b.JNum? && !b.n.IsFinite())
    case JNull => b == JNull || (b.JNum? && !b.n.IsFinite())
    case JArr(items) =>
      b.JArr? && |items| == |b.items| && forall i :: 0 <= i < |items| ==> SameValue(items[i], b.items[i])
    case JObj(members) =>
      && b.JObj?
      && (forall k :: k in Keys(members) <==> k in Keys(b.members))
      && forall k :: k in Keys(members) ==> SameValue(Get(members, k), Get(b.members, k))
    case _ => a == b
  }

  lemma {:induction false} SortedEqualIffSame(a: Json, b: Json)
    requires Proper(a) && Proper(b)
    ensures Normal(SortDeep(a)) == Normal(SortDeep(b)) <==> SameValue(a, b)
    decreases a, 1
  {
    if a.JArr? && b.JArr? && |a.items| == |b.items| {
      forall i | 0 <= i < |a.items|
        ensures Normal(SortDeep(a.items[i])) == Normal(SortDeep(b.items[i])) <==> SameValue(a.items[i], b.items[i])
      {
        SortedEqualIffSame(a.items[i], b.items[i]);
      }
      ItemsEqualIff(a.items, b.items);
    } else if a.JArr? && b.JArr? {
      assert |NormalItems(SortItems(a.items))| == |a.items| && |NormalItems(SortItems(b.items))| == |b.items|;
    } else if a.JObj? && b.JObj? {
      ObjectsEqualIffSame(a, b);
    }
  }

  lemma {:induction false} ObjectsEqualIffSame(a: Json, b: Json)
    requires a.JObj? && b.JObj? && Proper(a) && Proper(b)
    ensures Normal(SortDeep(a)) == Normal(SortDeep(b)) <==> SameValue(a, b)
    decreases a, 0
  {
    var m, n := a.members, b.members;
    MembersEqualIff(a, b);
    SameKeysIffSameOrder(m, n);
    if SortKeys(Keys(m)) == SortKeys(Keys(n)) {
      forall k | k in Keys(m)
        ensures Agree(a, b, k) <==> SameValue(Get(m, k), Get(n, k))
      {
        ProperGet(m, k);
        ProperGet(n, k);
        SortedEqualIffSame(Get(m, k), Get(n, k));
      }
    }
  }

  /** The two objects hold values with the same normal sorted form under `key`. */
  ghost predicate Agree(a: Json, b: Json, key: Text)
    requires a.JObj? && b.JObj? && key in Keys(a.members) && key in Keys(b.members)
  {
    Normal(SortDeep(Get(a.members, key))) == Normal(SortDeep(Get(b.members, key)))
  }

  lemma SameKeysIffSameOrder(m: seq<Member>, n: seq<Member>)
    requires DistinctKeys(m) && DistinctKeys(n)
    ensures SortKeys(Keys(m)) == SortKeys(Keys(n)) <==> forall k :: k in Keys(m) <==> k in Keys(n)
  {
    var ka, kb := SortKeys(Keys(m)), SortKeys(Keys(n));
    SortKeysAscending(m);
    SortKeysAscending(n);
    BelowIsOrder();
    if forall k :: k in Keys(m) <==> k in Keys(n) {
      AscendingUnique(Below, ka, kb);
    }
    assert forall k :: k in ka <==> k in Keys(m);
    assert forall k :: k in kb <==> k in Keys(n);
  }

  lemma ProperGet(members: seq<Member>, key: Text)
    requires Proper(JObj(members)) && key in Keys(members)
    ensures Proper(Get(members, key))
  {
  }

  lemma ItemsEqualIff(a: seq<Json>, b: seq<Json>)
    requires |a| == |b|
    ensures Normal(SortDeep(JArr(a))) == Normal(SortDeep(JArr(b)))
      <==> forall i :: 0 <= i < |a| ==> Normal(SortDeep(a[i])) == Normal(SortDeep(b[i]))
  {
    var x, y := NormalItems(SortItems(a)), NormalItems(SortItems(b));
    assert forall i :: 0 <= i < |a| ==> x[i] == Normal(SortDeep(a[i])) && y[i] == Normal(SortDeep(b[i]));
  }

  lemma MembersEqualIff(a: Json, b: Json)
    requires a.JObj? && b.JObj?
    ensures var ka, kb := SortKeys(Keys(a.members)), SortKeys(Keys(b.members));
            Normal(SortDeep(a)) == Normal(SortDeep(b)) <==> ka == kb && forall k :: k in ka ==> Agree(a, b, k)
  {
    hide SortKeys;
    var ka, kb := SortKeys(Keys(a.members)), SortKeys(Keys(b.members));
    var x, y := NormalSorted(a, ka), NormalSorted(b, kb);
    assert Normal(SortDeep(a)) == JObj(x) && Normal(SortDeep(b)) == JObj(y);
    PointwiseMembers(x, y, ka, kb);
    if x == y {
      forall k | k in ka ensures Agree(a, b, k) {
        var i :| 0 <= i < |ka| && ka[i] == k;
        assert x[i].value == y[i].value;
      }
    } else if ka == kb {
      var i :| 0 <= i < |ka| && x[i].value != y[i].value;
      assert ka[i] in ka && !Agree(a, b, ka[i]);
    }
  }

  lemma PointwiseMembers(x: seq<Member>, y: seq<Member>, ka: seq<Text>, kb: seq<Text>)
    requires |x| == |ka| && |y| == |kb|
    requires forall i :: 0 <= i < |x| ==> x[i].key == ka[i]
    requires forall i :: 0 <= i < |y| ==> y[i].key == kb[i]
    ensures x == y <==> ka == kb && forall i :: 0 <= i < |ka| ==> x[i].value == y[i].value
  {
    if x == y {
      assert forall i :: 0 <= i < |ka| ==> ka[i] == x[i].key == y[i].key == kb[i];
    }
  }

  ghost function NormalSorted(value: Json, keys: seq<Text>): (r: seq<Member>)
    requires value.JObj? && forall k :: k in keys ==> k in Keys(value.members)
    ensures r == NormalMembers(SortMembers(value, keys))
    ensures |r| == |keys|
    ensures forall i :: 0 <= i < |keys| ==>
      r[i].key == keys[i] && r[i].value == Normal(SortDeep(Get(value.members, keys[i])))
  {
    NormalMembers(SortMembers(value, keys))
  }

  /**
   Canonical text decides equality, for all values: two values print alike exactly when they are the same
   with objects read as unordered maps (non-finite numbers counting as null, as JSON prints them).
   */
  lemma CanonicalTextDecidesEquality(a: Json, b: Json)
    requires Proper(a) && Proper(b)
    requires TextWellFormed(a) && TextWellFormed(b)
    ensures CanonicalJson(a).Some? && CanonicalJson(b).Some?
    ensures CanonicalJson(a) == CanonicalJson(b) <==> SameValue(a, b)
  {
    FailsIffIllFormed(a);
    FailsIffIllFormed(b);
    CanonicalIsSortedText(a);
    CanonicalIsSortedText(b);
    SameJsonIffNormalEqual(SortDeep(a), SortDeep(b));
    SortedEqualIffSame(a, b);
  }
}
