/**
 Local schema references: `#/` followed by RFC 6901 reference tokens. A step uses JavaScript's `in`
 and property access, so it also sees the properties every object inherits from Object.prototype.
 */
module JsonPointer {
  import opened Optional
  import opened Utf16Text
  import opened JsonText
  import opened CanonicalJson
  import opened TextSplit

  const SLASH: Unit := '/' as int
  const TILDE: Unit := '~' as int
  const PROTO := Ascii("__proto__")

  /** The names every object literal and every parsed object inherits. */
  predicate IsInheritedName(name: Text)
  {
    || name == PROTO
    || name == Ascii("constructor")
    || name == Ascii("hasOwnProperty")
    || name == Ascii("isPrototypeOf")
    || name == Ascii("propertyIsEnumerable")
    || name == Ascii("toLocaleString")
    || name == Ascii("toString")
    || name == Ascii("valueOf")
    || name == Ascii("__defineGetter__")
    || name == Ascii("__defineSetter__")
    || name == Ascii("__lookupGetter__")
    || name == Ascii("__lookupSetter__")
  }

  // ----- Tokens -----

  /** `replaceAll` of the two units `a b` by one unit. */
  function ReplacePair(t: Text, a: Unit, b: Unit, to: Unit): Text
  {
    if t == [] then []
    else if |t| > 1 && t[0] == a && t[1] == b then [to] + ReplacePair(t[2..], a, b, to)
    else [t[0]] + ReplacePair(t[1..], a, b, to)
  }

  function DecodeToken(part: Text): Text
  {
    ReplacePair(ReplacePair(part, TILDE, '1' as int, SLASH), TILDE, '0' as int, TILDE)
  }

  /** RFC 6901 escaping of one key. */
  function EscapeToken(key: Text): Text
  {
    if key == [] then []
    else
      (if key[0] == TILDE then [TILDE, '0' as int] else if key[0] == SLASH then [TILDE, '1' as int] else [key[0]])
      + EscapeToken(key[1..])
  }

  function EscapeAll(keys: seq<Text>): (tokens: seq<Text>)
    ensures |tokens| == |keys| && forall i :: 0 <= i < |tokens| ==> tokens[i] == EscapeToken(keys[i])
  {
    seq(|keys|, i requires 0 <= i < |keys| => EscapeToken(keys[i]))
  }

  function Reference(keys: seq<Text>): Text
    requires keys != []
  {
    Ascii("#/") + Join(EscapeAll(keys), SLASH)
  }

  // ----- Following a reference -----

  /** What `current` can hold: a JSON value, Object.prototype, or one of its functions. */
  datatype Cursor = Own(value: Json) | Prototype | BuiltinFunction

  function Follow(current: Cursor, part: Text): Option<Cursor>
  {
    match current
    case Own(JObj(members)) =>
      if part in Keys(members) then Some(Own(Get(members, part)))
      else if part == PROTO then Some(Prototype)
      else if IsInheritedName(part) then Some(BuiltinFunction)
      else None
    case Prototype =>
      if part == PROTO then Some(Own(JNull))
      else if IsInheritedName(part) then Some(BuiltinFunction)
      else None
    case _ => None
  }

  function FollowAll(current: Cursor, parts: seq<Text>): Option<Cursor>
    decreases |parts|
  {
    if parts == [] then Some(current)
    else
      match Follow(current, parts[0])
      case None => None
      case Some(next) => FollowAll(next, parts[1..])
  }

  datatype Resolution = Found(schema: Json) | Unresolved | Invalid | Unsupported

  /** Object.prototype read as a schema has no keyword, so it stands for the empty schema. */
  function AsSchema(current: Cursor): Resolution
  {
    match current
    case Own(JBool(_)) => Found(current.value)
    case Own(JObj(_)) => Found(current.value)
    case Prototype => Found(JObj([]))
    case _ => Invalid
  }

  function Resolve(root: Json, reference: Text): Resolution
  {
    if |reference| < 2 || reference[..2] != Ascii("#/") then Unsupported
    else
      match FollowAll(Own(root), DecodeAll(Split(reference[2..], SLASH)))
      case None => Unresolved
      case Some(current) => AsSchema(current)
  }

  function DecodeAll(parts: seq<Text>): (keys: seq<Text>)
    ensures |keys| == |parts| && forall i :: 0 <= i < |keys| ==> keys[i] == DecodeToken(parts[i])
  {
    seq(|parts|, i requires 0 <= i < |parts| => DecodeToken(parts[i]))
  }

  /** The loop of `resolveReference`. */
  method ResolveReference(root: Json, reference: Text) returns (resolution: Resolution)
    ensures resolution == Resolve(root, reference)
  {
    if |reference| < 2 || reference[..2] != Ascii("#/") {
      return Unsupported;
    }
    var current := Own(root);
    var parts := Split(reference[2..], SLASH);
    assert DecodeAll(parts[0..]) == DecodeAll(parts);
    for i := 0 to |parts|
      invariant FollowAll(Own(root), DecodeAll(parts)) == FollowAll(current, DecodeAll(parts[i..]))
    {
      assert DecodeAll(parts[i..])[1..] == DecodeAll(parts[i + 1..]);
      var next := Follow(current, DecodeToken(parts[i]));
      if next.None? {
        return Unresolved;
      }
      current := next.value;
    }
    return AsSchema(current);
  }

  // ----- Round trip -----

  lemma {:induction false} DecodeInvertsEscape(key: Text)
    ensures DecodeToken(EscapeToken(key)) == key
  {
    SlashesDecoded(key);
    TildesDecoded(key);
  }

  function EscapeTildes(key: Text): Text
  {
    if key == [] then []
    else (if key[0] == TILDE then [TILDE, '0' as int] else [key[0]]) + EscapeTildes(key[1..])
  }

  lemma ReplaceHit(rest: Text, a: Unit, b: Unit, to: Unit)
    ensures ReplacePair([a, b] + rest, a, b, to) == [to] + ReplacePair(rest, a, b, to)
  {
    assert ([a, b] + rest)[2..] == rest;
  }

  lemma ReplaceKeep(u: Unit, rest: Text, a: Unit, b: Unit, to: Unit)
    requires u != a || (rest != [] && rest[0] != b)
    ensures ReplacePair([u] + rest, a, b, to) == [u] + ReplacePair(rest, a, b, to)
  {
    assert ([u] + rest)[1..] == rest;
  }

  lemma {:induction false} SlashesDecoded(key: Text)
    ensures ReplacePair(EscapeToken(key), TILDE, '1' as int, SLASH) == EscapeTildes(key)
  {
    if key != [] {
      var rest := EscapeToken(key[1..]);
      SlashesDecoded(key[1..]);
      if key[0] == TILDE {
        assert [TILDE, '0' as int] + rest == [TILDE] + (['0' as int] + rest);
        ReplaceKeep(TILDE, ['0' as int] + rest, TILDE, '1' as int, SLASH);
        ReplaceKeep('0' as int, rest, TILDE, '1' as int, SLASH);
      } else if key[0] == SLASH {
        ReplaceHit(rest, TILDE, '1' as int, SLASH);
      } else {
        ReplaceKeep(key[0], rest, TILDE, '1' as int, SLASH);
      }
    }
  }

  lemma {:induction false} TildesDecoded(key: Text)
    ensures ReplacePair(EscapeTildes(key), TILDE, '0' as int, TILDE) == key
  {
    if key != [] {
      var rest := EscapeTildes(key[1..]);
      TildesDecoded(key[1..]);
      if key[0] == TILDE {
        ReplaceHit(rest, TILDE, '0' as int, TILDE);
      } else {
        ReplaceKeep(key[0], rest, TILDE, '0' as int, TILDE);
      }
      assert key == [key[0]] + key[1..];
    }
  }

  /** Decoding `~0` before `~1` would not invert the escaping. */
  lemma TokenOrderMatters()
    ensures exists key ::
      ReplacePair(ReplacePair(EscapeToken(key), TILDE, '0' as int, TILDE), TILDE, '1' as int, SLASH) != key
  {
    var one: Unit := '1' as int;
    var key: Text := [TILDE, one];
    assert key[1..] == [one] && key[1..][1..] == [];
    assert EscapeToken([one]) == [one];
    var e := EscapeToken(key);
    assert e == [TILDE, '0' as int, one];
    assert e[2..] == [one] && [one][1..] == [];
    assert ReplacePair([one], TILDE, '0' as int, TILDE) == [one];
    assert ReplacePair(e, TILDE, '0' as int, TILDE) == [TILDE, one];
    assert [TILDE, one][2..] == [];
    assert ReplacePair([TILDE, one], TILDE, one, SLASH) == [SLASH];
    assert [SLASH] != key;
  }

  lemma {:induction false} EscapeHasNoSlash(key: Text)
    ensures SLASH !in EscapeToken(key)
  {
    if key != [] {
      EscapeHasNoSlash(key[1..]);
    }
  }

  lemma ReferenceParts(keys: seq<Text>)
    requires keys != []
    ensures |Reference(keys)| >= 2 && Reference(keys)[..2] == Ascii("#/")
    ensures DecodeAll(Split(Reference(keys)[2..], SLASH)) == keys
  {
    var tokens := EscapeAll(keys);
    forall i | 0 <= i < |keys| ensures SLASH !in tokens[i] && DecodeToken(tokens[i]) == keys[i] {
      EscapeHasNoSlash(keys[i]);
      DecodeInvertsEscape(keys[i]);
    }
    assert Reference(keys)[2..] == Join(tokens, SLASH);
    SplitInvertsJoin(tokens, SLASH);
  }

  // ----- What a reference reaches -----

  /** The subschema named by a list of keys, through own members only. */
  ghost function Named(root: Json, keys: seq<Text>): Option<Json>
  {
    if keys == [] then Some(root)
    else if root.JObj? && keys[0] in Keys(root.members) then Named(Get(root.members, keys[0]), keys[1..])
    else None
  }

  /** The reference stops one step early, at an object, and its last key is the inherited `__proto__`. */
  ghost predicate EndsAtPrototype(root: Json, keys: seq<Text>)
    requires keys != []
  {
    keys[|keys| - 1] == PROTO && Named(root, keys[..|keys| - 1]).Some? && Named(root, keys[..|keys| - 1]).value.JObj?
  }

  lemma {:induction false} FollowNamed(root: Json, keys: seq<Text>)
    ensures Named(root, keys).Some? ==> FollowAll(Own(root), keys) == Some(Own(Named(root, keys).value))
    ensures Named(root, keys).None? && keys != [] ==>
      ((FollowAll(Own(root), keys).Some? && AsSchema(FollowAll(Own(root), keys).value).Found?) <==>
        EndsAtPrototype(root, keys))
  {
    if keys != [] && root.JObj? {
      if keys[0] in Keys(root.members) {
        var next := Get(root.members, keys[0]);
        FollowNamed(next, keys[1..]);
        if |keys| > 1 {
          assert keys[..|keys| - 1][1..] == keys[1..][..|keys| - 2];
        }
      } else {
        FirstStepInherited(root.members, keys);
      }
    }
    if |keys| > 1 {
      assert keys[..|keys| - 1][0] == keys[0];
    }
  }

  /** Once a step has used an inherited name, nothing but Object.prototype itself is a schema. */
  lemma AfterInherited(keys: seq<Text>)
    requires keys != []
    ensures FollowAll(BuiltinFunction, keys) == None
    ensures FollowAll(Own(JNull), keys) == None
    ensures FollowAll(Prototype, keys).Some? ==> !AsSchema(FollowAll(Prototype, keys).value).Found?
  {
    assert Follow(BuiltinFunction, keys[0]) == None && Follow(Own(JNull), keys[0]) == None;
    if |keys| > 1 {
      assert Follow(BuiltinFunction, keys[1]) == None && Follow(Own(JNull), keys[1]) == None;
    }
  }

  /** A first step that is not an own member leads to Object.prototype, one of its functions, or nowhere. */
  lemma FirstStepInherited(members: seq<Member>, keys: seq<Text>)
    requires keys != [] && keys[0] !in Keys(members)
    ensures var end := FollowAll(Own(JObj(members)), keys);
            (end.Some? && AsSchema(end.value).Found?) <==> keys == [PROTO]
  {
    if |keys| > 1 {
      AfterInherited(keys[1..]);
    }
  }

  /**
   Escaping and joining keys reaches exactly the subschema they name. When a step is missing the
   reference still resolves in one case only: the last key is `__proto__`, taken from Object.prototype.
   */
  lemma PointerRoundTrip(root: Json, keys: seq<Text>)
    requires keys != []
    ensures var r := Resolve(root, Reference(keys));
            && (Named(root, keys).Some? ==> r == AsSchema(Own(Named(root, keys).value)))
            && (Named(root, keys).None? ==> (r.Found? <==> EndsAtPrototype(root, keys)))
  {
    ReferenceParts(keys);
    FollowNamed(root, keys);
  }

  /** The promise "unresolved when a step is missing" fails: `#/__proto__` resolves in the empty schema. */
  lemma MissingStepCanResolve()
    ensures exists root, keys: seq<Text> ::
      keys != [] && Named(root, keys).None? && Resolve(root, Reference(keys)).Found?
  {
    var root, keys := JObj([]), [PROTO];
    assert keys[..0] == [];
    PointerRoundTrip(root, keys);
  }
}
