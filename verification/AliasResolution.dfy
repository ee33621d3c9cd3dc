/**
 The visited-set alias resolvers of the lint plugin. A resolver follows parentheses, union members and
 local type aliases towards one keyword, and gives up on an alias it is already inside of.
 */
module AliasResolution {
  import opened Optional

  datatype Keyword = ObjectKeyword | UnknownKeyword

  datatype TypeNode =
    | KeywordType(keyword: Keyword)
    | Parenthesized(inner: TypeNode)
    | Union(members: seq<TypeNode>)
    | Reference(name: string, arguments: seq<TypeNode>)
    | OtherType

  datatype Declaration = Declaration(name: string, parameterised: bool, body: TypeNode)

  /** Top-level statements; an export may carry no declaration. */
  datatype Statement = TypeAlias(declaration: Declaration) | Export(exported: Option<Declaration>) | OtherStatement

  /**
   What one resolver looks for and follows. `no-object-parameters` follows unions, `no-unknown-returns`
   follows unions and the first argument of a promise, `no-unknown-type-aliases` follows neither.
   */
  datatype Rule = Rule(target: Keyword, unions: bool, promises: bool, shadowed: set<string>,
                       aliases: map<string, Declaration>)

  const PROMISES: set<string> := {"Promise", "PromiseLike"}

  function NoObjectParameters(aliases: map<string, Declaration>, shadowed: set<string>): Rule
  {
    Rule(ObjectKeyword, true, false, shadowed, aliases)
  }

  function NoUnknownReturns(aliases: map<string, Declaration>, shadowed: set<string>): Rule
  {
    Rule(UnknownKeyword, true, true, shadowed, aliases)
  }

  function NoUnknownTypeAliases(aliases: map<string, Declaration>): Rule
  {
    Rule(UnknownKeyword, false, false, {}, aliases)
  }

  predicate IsPromise(rule: Rule, t: TypeNode)
  {
    rule.promises && t.Reference? && t.name in PROMISES
  }

  /** A reference the rule may replace by its definition. */
  predicate IsAliasUse(rule: Rule, t: TypeNode)
  {
    && t.Reference? && !IsPromise(rule, t) && t.arguments == [] && t.name !in rule.shadowed
    && t.name in rule.aliases && !rule.aliases[t.name].parameterised
  }

  /** The resolvers, with their visited set. */
  predicate Resolves(rule: Rule, t: TypeNode, visited: set<string>)
    decreases rule.aliases.Keys - visited, t
  {
    match t
    case KeywordType(keyword) => keyword == rule.target
    case Parenthesized(inner) => Resolves(rule, inner, visited)
    case Union(members) => rule.unions && exists i :: 0 <= i < |members| && Resolves(rule, members[i], visited)
    case Reference(name, arguments) =>
      if IsPromise(rule, t) then arguments != [] && Resolves(rule, arguments[0], visited)
      else if name in visited || !IsAliasUse(rule, t) then false
      else Resolves(rule, rule.aliases[name].body, visited + {name})
    case OtherType => false
  }

  // ----- The meaning: some finite chain of steps reaches the keyword -----

  ghost predicate Step(rule: Rule, t: TypeNode, next: TypeNode)
  {
    match t
    case Parenthesized(inner) => next == inner
    case Union(members) => rule.unions && next in members
    case Reference(name, arguments) =>
      if IsPromise(rule, t) then arguments != [] && next == arguments[0]
      else IsAliasUse(rule, t) && next == rule.aliases[name].body
    case _ => false
  }

  ghost predicate Chain(rule: Rule, c: seq<TypeNode>)
  {
    && c != [] && c[|c| - 1] == KeywordType(rule.target)
    && forall i :: 0 <= i < |c| - 1 ==> Step(rule, c[i], c[i + 1])
  }

  ghost predicate Reaches(rule: Rule, t: TypeNode)
  {
    exists c :: Chain(rule, c) && c[0] == t
  }

  ghost predicate Avoids(rule: Rule, c: seq<TypeNode>, visited: set<string>)
  {
    forall t :: t in c && IsAliasUse(rule, t) ==> t.name !in visited
  }

  /** No alias is used twice. */
  ghost predicate Simple(rule: Rule, c: seq<TypeNode>)
  {
    forall i, j :: 0 <= i < j < |c| && IsAliasUse(rule, c[i]) && IsAliasUse(rule, c[j]) ==> c[i].name != c[j].name
  }

  /** A step in front of a chain; an alias it uses must be new to the chain. */
  lemma Prepend(rule: Rule, t: TypeNode, c: seq<TypeNode>, visited: set<string>)
    requires Chain(rule, c) && Simple(rule, c) && Step(rule, t, c[0])
    requires Avoids(rule, c, visited)
    requires IsAliasUse(rule, t) ==> t.name !in visited && Avoids(rule, c, {t.name})
    ensures Chain(rule, [t] + c) && Simple(rule, [t] + c) && Avoids(rule, [t] + c, visited)
  {
    var d := [t] + c;
    assert forall i :: 0 < i < |d| ==> d[i] == c[i - 1] && d[i] in c;
    forall i | 0 <= i < |d| - 1 ensures Step(rule, d[i], d[i + 1]) {
      assert d[i + 1] == c[i];
    }
  }

  lemma ChainTail(rule: Rule, c: seq<TypeNode>, i: nat)
    requires Chain(rule, c) && i < |c|
    ensures Chain(rule, c[i..]) && c[i..][0] == c[i]
  {
    var d := c[i..];
    forall k | 0 <= k < |d| - 1 ensures Step(rule, d[k], d[k + 1]) {
      assert d[k] == c[i + k] && d[k + 1] == c[i + k + 1];
    }
  }

  /** A resolver that answers yes has followed a chain, entering no visited alias and no alias twice. */
  lemma {:induction false} ResolvesFollowsChain(rule: Rule, t: TypeNode, visited: set<string>)
    returns (c: seq<TypeNode>)
    requires Resolves(rule, t, visited)
    ensures Chain(rule, c) && c[0] == t && Avoids(rule, c, visited) && Simple(rule, c)
    decreases rule.aliases.Keys - visited, t
  {
    match t {
      case KeywordType(_) =>
        c := [t];
      case Parenthesized(inner) =>
        c := ResolvesFollowsChain(rule, inner, visited);
        Prepend(rule, t, c, visited);
        c := [t] + c;
      case Union(members) =>
        var i :| 0 <= i < |members| && Resolves(rule, members[i], visited);
        c := ResolvesFollowsChain(rule, members[i], visited);
        Prepend(rule, t, c, visited);
        c := [t] + c;
      case Reference(name, arguments) =>
        if IsPromise(rule, t) {
          c := ResolvesFollowsChain(rule, arguments[0], visited);
        } else {
          c := ResolvesFollowsChain(rule, rule.aliases[name].body, visited + {name});
        }
        Prepend(rule, t, c, visited);
        c := [t] + c;
    }
  }

  /** Cuts a chain after its last use of an alias: what is left starts at the definition and avoids the alias. */
  lemma {:induction false} CutAtLastUse(rule: Rule, c: seq<TypeNode>, name: string) returns (rest: seq<TypeNode>)
    requires Chain(rule, c) && exists t :: t in c && IsAliasUse(rule, t) && t.name == name
    ensures Chain(rule, rest) && rest[0] == rule.aliases[name].body && |rest| < |c|
    ensures Avoids(rule, rest, {name}) && forall t :: t in rest ==> t in c
  {
    assert |c| > 1;
    assert Step(rule, c[0], c[1]);
    ChainTail(rule, c, 1);
    if Avoids(rule, c[1..], {name}) {
      assert c == [c[0]] + c[1..];
      rest := c[1..];
    } else {
      rest := CutAtLastUse(rule, c[1..], name);
    }
  }

  /** Cutting alias cycles loses nothing: a chain that avoids the visited aliases is found. */
  lemma {:induction false} ChainIsResolved(rule: Rule, t: TypeNode, visited: set<string>, c: seq<TypeNode>)
    requires Chain(rule, c) && c[0] == t && Avoids(rule, c, visited)
    ensures Resolves(rule, t, visited)
    decreases rule.aliases.Keys - visited, t
  {
    if |c| > 1 {
      assert Step(rule, c[0], c[1]);
      ChainTail(rule, c, 1);
      if IsAliasUse(rule, t) {
        assert t in c;
        var rest := CutAtLastUse(rule, c, t.name);
        ChainIsResolved(rule, rule.aliases[t.name].body, visited + {t.name}, rest);
      } else {
        ChainIsResolved(rule, c[1], visited, c[1..]);
      }
    }
  }

  /** Every resolver terminates on every alias table, cyclic ones included, and finds exactly what is reachable. */
  lemma ResolvesIffReaches(rule: Rule, t: TypeNode)
    ensures Resolves(rule, t, {}) <==> Reaches(rule, t)
  {
    if Resolves(rule, t, {}) {
      var c := ResolvesFollowsChain(rule, t, {});
    }
    if Reaches(rule, t) {
      var c :| Chain(rule, c) && c[0] == t;
      ChainIsResolved(rule, t, {}, c);
    }
  }

  /** What can be reached at all can be reached without using an alias twice. */
  lemma ReachableSimply(rule: Rule, t: TypeNode)
    requires Reaches(rule, t)
    ensures exists c :: Chain(rule, c) && c[0] == t && Simple(rule, c)
  {
    ResolvesIffReaches(rule, t);
    var c := ResolvesFollowsChain(rule, t, {});
  }

  // ----- The `Program` handlers that fill the alias table -----

  function Declared(s: Statement): Option<Declaration>
  {
    match s
    case TypeAlias(d) => Some(d)
    case Export(d) => d
    case OtherStatement => None
  }

  /** The statement puts a declaration of the name into the table. */
  predicate Declares(s: Statement, name: string, withParameters: bool)
  {
    Declared(s).Some? && Declared(s).value.name == name && (withParameters || !Declared(s).value.parameterised)
  }

  /** The table holds, for each declared name, its last declaration. */
  ghost predicate LastDeclarations(body: seq<Statement>, withParameters: bool, aliases: map<string, Declaration>)
  {
    forall name :: if name in aliases then
      exists i :: IsLast(body, withParameters, name, i) && Declared(body[i]) == Some(aliases[name])
    else
      forall s :: s in body ==> !Declares(s, name, withParameters)
  }

  ghost predicate IsLast(body: seq<Statement>, withParameters: bool, name: string, i: int)
  {
    && 0 <= i < |body| && Declares(body[i], name, withParameters)
    && forall j :: i < j < |body| ==> !Declares(body[j], name, withParameters)
  }

  /** The table after one more statement. */
  function WithDeclaration(aliases: map<string, Declaration>, s: Statement,
                           withParameters: bool): map<string, Declaration>
  {
    match Declared(s)
    case None => aliases
    case Some(d) => if withParameters || !d.parameterised then aliases[d.name := d] else aliases
  }

  /** `no-object-parameters` skips parameterised aliases; the `unknown` rules store them and refuse them on use. */
  method CollectAliases(body: seq<Statement>, withParameters: bool) returns (aliases: map<string, Declaration>)
    ensures LastDeclarations(body, withParameters, aliases)
  {
    aliases := map[];
    for n := 0 to |body|
      invariant LastDeclarations(body[..n], withParameters, aliases)
    {
      ghost var before := aliases;
      match Declared(body[n]) {
        case Some(d) =>
          if withParameters || !d.parameterised {
            aliases := aliases[d.name := d];
          }
        case None =>
      }
      OneMoreStatement(body, withParameters, n, before, aliases);
    }
    assert body[..|body|] == body;
  }

  lemma OneMoreStatement(body: seq<Statement>, withParameters: bool, n: nat, before: map<string, Declaration>,
                         after: map<string, Declaration>)
    requires n < |body| && LastDeclarations(body[..n], withParameters, before)
    requires after == WithDeclaration(before, body[n], withParameters)
    ensures LastDeclarations(body[..n + 1], withParameters, after)
  {
    var s, t := body[..n], body[..n + 1];
    assert t == s + [body[n]];
    forall name | name in after
      ensures exists i :: IsLast(t, withParameters, name, i) && Declared(t[i]) == Some(after[name])
    {
      if Declares(body[n], name, withParameters) {
        assert IsLast(t, withParameters, name, n);
      } else {
        assert name in before;
        var i :| IsLast(s, withParameters, name, i) && Declared(s[i]) == Some(before[name]);
        assert IsLast(t, withParameters, name, i);
      }
    }
    forall name | name !in after ensures forall u :: u in t ==> !Declares(u, name, withParameters) {
      assert name !in before;
    }
  }

  /** The last declarations of a program are one table, the one `CollectAliases` returns. */
  lemma OneTable(body: seq<Statement>, withParameters: bool, a: map<string, Declaration>, b: map<string, Declaration>)
    requires LastDeclarations(body, withParameters, a) && LastDeclarations(body, withParameters, b)
    ensures a == b
  {
    forall name ensures name in a <==> name in b
                ensures name in a && name in b ==> a[name] == b[name]
    {
      if name in a {
        var i :| IsLast(body, withParameters, name, i) && Declared(body[i]) == Some(a[name]);
        assert body[i] in body;
      }
      if name in b {
        var j :| IsLast(body, withParameters, name, j) && Declared(body[j]) == Some(b[name]);
        assert body[j] in body;
      }
    }
  }

  /** `checkParameters`: the annotated parameters of one function that are reported, in order. */
  method CheckParameters(body: seq<Statement>, shadowed: set<string>, annotations: seq<Option<TypeNode>>)
    returns (reported: seq<nat>)
    ensures forall aliases: map<string, Declaration> :: LastDeclarations(body, false, aliases) ==>
      forall i: nat :: i in reported <==>
        i < |annotations| && annotations[i].Some? &&
          Reaches(NoObjectParameters(aliases, shadowed), annotations[i].value)
    ensures forall i, j :: 0 <= i < j < |reported| ==> reported[i] < reported[j]
  {
    var aliases := CollectAliases(body, false);
    reported := [];
    for n := 0 to |annotations|
      invariant forall i: nat :: i in reported <==>
        i < n && annotations[i].Some? && Reaches(NoObjectParameters(aliases, shadowed), annotations[i].value)
      invariant forall i, j :: 0 <= i < j < |reported| ==> reported[i] < reported[j]
    {
      if annotations[n].Some? {
        ResolvesIffReaches(NoObjectParameters(aliases, shadowed), annotations[n].value);
        if Resolves(NoObjectParameters(aliases, shadowed), annotations[n].value, {}) {
          assert forall i :: 0 <= i < |reported| ==> reported[i] in reported;
          reported := reported + [n];
        }
      }
    }
    forall other | LastDeclarations(body, false, other) ensures other == aliases {
      OneTable(body, false, other, aliases);
    }
  }

  /** `checkReturnType`: one function's annotation is reported exactly when `unknown` can be reached from it. */
  method CheckReturnType(body: seq<Statement>, shadowed: set<string>, annotation: Option<TypeNode>)
    returns (reported: bool)
    ensures forall aliases: map<string, Declaration> :: LastDeclarations(body, true, aliases) ==>
      (reported <==> annotation.Some? && Reaches(NoUnknownReturns(aliases, shadowed), annotation.value))
  {
    var aliases := CollectAliases(body, true);
    if annotation.None? {
      return false;
    }
    ResolvesIffReaches(NoUnknownReturns(aliases, shadowed), annotation.value);
    reported := Resolves(NoUnknownReturns(aliases, shadowed), annotation.value, {});
    forall other | LastDeclarations(body, true, other) ensures other == aliases {
      OneTable(body, true, other, aliases);
    }
  }

  /** Starting inside an alias loses nothing: a chain from its definition that comes back to it can be cut there. */
  lemma ResolvesInsideAlias(rule: Rule, name: string)
    requires name in rule.aliases
    ensures Resolves(rule, rule.aliases[name].body, {name}) <==> Reaches(rule, rule.aliases[name].body)
  {
    var body := rule.aliases[name].body;
    if Resolves(rule, body, {name}) {
      var c := ResolvesFollowsChain(rule, body, {name});
    }
    if c :| Chain(rule, c) && c[0] == body {
      if Avoids(rule, c, {name}) {
        ChainIsResolved(rule, body, {name}, c);
      } else {
        var rest := CutAtLastUse(rule, c, name);
        ChainIsResolved(rule, body, {name}, rest);
      }
    }
  }

  /** `no-unknown-type-aliases`: the aliases from whose definition `unknown` can be reached. */
  method CheckTypeAliases(body: seq<Statement>) returns (reported: set<string>)
    ensures forall aliases: map<string, Declaration> :: LastDeclarations(body, true, aliases) ==>
      forall name :: name in reported <==> name in aliases && Reaches(NoUnknownTypeAliases(aliases), aliases[name].body)
  {
    var aliases := CollectAliases(body, true);
    reported := {};
    var pending := aliases.Keys;
    while pending != {}
      invariant pending <= aliases.Keys
      invariant forall name :: name in reported <==>
        name in aliases && name !in pending && Reaches(NoUnknownTypeAliases(aliases), aliases[name].body)
      decreases pending
    {
      var name :| name in pending;
      ResolvesInsideAlias(NoUnknownTypeAliases(aliases), name);
      if Resolves(NoUnknownTypeAliases(aliases), aliases[name].body, {name}) {
        reported := reported + {name};
      }
      pending := pending - {name};
    }
    forall other | LastDeclarations(body, true, other) ensures other == aliases {
      OneTable(body, true, other, aliases);
    }
  }
}
