/**
 The engine-vs-human comparison arrows. Two boards draw them: one from the Critical Moment's own moves,
 one from the arrows a presentation carries. Merging gives one arrow per pair of squares.
 */
module ComparisonArrows {
  import opened Optional
  import opened Utf16Text
  import opened NumberText
  import opened UciText

  datatype Kind = EngineBest | Maia

  datatype PresentationKind = Compared(kind: Kind) | BestReply

  datatype Tone = EngineTone | PeerTone

  datatype Pair = Pair(from: Square, to: Square)

  datatype Source = Source(pair: Pair, kind: Kind, legacyKinds: seq<Kind>)

  datatype PresentationArrow = PresentationArrow(pair: Pair, kind: PresentationKind, caption: Text)

  datatype BoardArrow = BoardArrow(pair: Pair, caption: Text, tone: Tone)

  // ----- What merged arrows say -----

  /** Every kind a source stands for. */
  function KindsOfSource(s: Source): set<Kind>
  {
    {s.kind} + set k | k in s.legacyKinds
  }

  /** Every kind some source of the pair stands for. */
  function KindsOf(sources: seq<Source>, pair: Pair): set<Kind>
  {
    if sources == [] then {}
    else
      var last := sources[|sources| - 1];
      KindsOf(sources[..|sources| - 1], pair) + if last.pair == pair then KindsOfSource(last) else {}
  }

  /** The pairs, in the order of their first source. */
  function Pairs(sources: seq<Source>): seq<Pair>
  {
    if sources == [] then []
    else
      var rest, pair := Pairs(sources[..|sources| - 1]), sources[|sources| - 1].pair;
      if pair in rest then rest else rest + [pair]
  }

  const ENGINE_LABEL: Text := Ascii("Engine")
  const JOINER: Text := Ascii(" + ")

  /** `Elo ${elo ?? "matched"} player`. */
  function PlayerLabel(elo: Option<Num>): Text
  {
    Ascii("Elo ") + (if elo.Some? then NumberToString(elo.value) else Ascii("matched")) + Ascii(" player")
  }

  function Label(kinds: set<Kind>, elo: Option<Num>): Text
  {
    if EngineBest in kinds && Maia in kinds then ENGINE_LABEL + JOINER + PlayerLabel(elo)
    else if EngineBest in kinds then ENGINE_LABEL
    else if Maia in kinds then PlayerLabel(elo)
    else []
  }

  function ArrowFor(pair: Pair, kinds: set<Kind>, elo: Option<Num>): BoardArrow
  {
    BoardArrow(pair, Label(kinds, elo), if EngineBest in kinds then EngineTone else PeerTone)
  }

  /** One arrow per pair, for all the kinds of its sources. */
  function Merged(sources: seq<Source>, elo: Option<Num>): (r: seq<BoardArrow>)
    ensures |r| == |Pairs(sources)|
    ensures forall i :: 0 <= i < |r| ==> r[i] == ArrowFor(Pairs(sources)[i], KindsOf(sources, Pairs(sources)[i]), elo)
  {
    seq(|Pairs(sources)|, i requires 0 <= i < |Pairs(sources)| =>
      ArrowFor(Pairs(sources)[i], KindsOf(sources, Pairs(sources)[i]), elo))
  }

  // ----- Merging with a keyed map -----

  datatype Group = Group(pair: Pair, kinds: set<Kind>)

  function Key(pair: Pair): string
  {
    pair.from + ":" + pair.to
  }

  /** Squares have two characters, so the key tells pairs apart. */
  lemma KeyTellsPairs(a: Pair, b: Pair)
    requires Key(a) == Key(b)
    ensures a == b
  {
    assert Key(a)[..2] == a.from && Key(b)[..2] == b.from && Key(a)[3..] == a.to && Key(b)[3..] == b.to;
  }

  function KeysOf(pairs: seq<Pair>): (r: seq<string>)
    ensures |r| == |pairs| && forall i :: 0 <= i < |r| ==> r[i] == Key(pairs[i])
  {
    seq(|pairs|, i requires 0 <= i < |pairs| => Key(pairs[i]))
  }

  /** The map holds one group per pair seen so far, in the order of insertion. */
  ghost predicate Grouped(sources: seq<Source>, order: seq<string>, groups: map<string, Group>)
  {
    && order == KeysOf(Pairs(sources))
    && (forall p :: Key(p) in groups <==> p in Pairs(sources))
    && forall p :: p in Pairs(sources) ==> groups[Key(p)] == Group(p, KindsOf(sources, p))
  }

  /** `mergeComparisonArrows`. */
  method MergeComparisonArrows(sources: seq<Source>, elo: Option<Num>) returns (r: seq<BoardArrow>)
    ensures r == Merged(sources, elo)
  {
    hide Label;
    hide KindsOfSource;
    var order: seq<string> := [];
    var groups: map<string, Group> := map[];
    for n := 0 to |sources|
      invariant Grouped(sources[..n], order, groups)
    {
      hide Pairs;
      hide KindsOf;
      var source := sources[n];
      var key := Key(source.pair);
      var group := if key in groups then groups[key] else Group(source.pair, {});
      var kinds := AddKinds(group.kinds, source);
      GroupSoFar(sources[..n], source.pair, order, groups);
      GroupOneMore(sources[..n], source, order, groups);
      assert sources[..n + 1] == sources[..n] + [source];
      if key !in groups {
        order := order + [key];
      }
      groups := groups[key := Group(group.pair, kinds)];
    }
    hide Pairs;
    hide KindsOf;
    assert sources[..|sources|] == sources;
    r := [];
    for i := 0 to |order|
      invariant r == Merged(sources, elo)[..i]
    {
      assert Pairs(sources)[i] in Pairs(sources);
      r := r + [ArrowFor(groups[order[i]].pair, groups[order[i]].kinds, elo)];
    }
  }

  /** The group takes the source's own kind and its legacy kinds. */
  method AddKinds(before: set<Kind>, source: Source) returns (kinds: set<Kind>)
    ensures kinds == before + KindsOfSource(source)
  {
    kinds := before + {source.kind};
    for i := 0 to |source.legacyKinds|
      invariant kinds == before + {source.kind} + set k | k in source.legacyKinds[..i]
    {
      kinds := kinds + {source.legacyKinds[i]};
    }
  }

  /** One source more changes the pairs and the kinds as follows. */
  lemma OneMoreSource(seen: seq<Source>, source: Source)
    ensures Pairs(seen + [source]) == if source.pair in Pairs(seen) then Pairs(seen) else Pairs(seen) + [source.pair]
    ensures forall p ::
      KindsOf(seen + [source], p) == KindsOf(seen, p) + if source.pair == p then KindsOfSource(source) else {}
  {
    assert (seen + [source])[..|seen|] == seen;
  }

  /** What `groups.get(key) ?? ...` finds for the next source: the kinds its pair has so far. */
  lemma GroupSoFar(seen: seq<Source>, pair: Pair, order: seq<string>, groups: map<string, Group>)
    requires Grouped(seen, order, groups)
    ensures Key(pair) in groups <==> pair in Pairs(seen)
    ensures (if Key(pair) in groups then groups[Key(pair)] else Group(pair, {})) == Group(pair, KindsOf(seen, pair))
  {
    if pair !in Pairs(seen) {
      NoKinds(seen, pair);
    }
  }

  /** Reading the next source into the map. */
  lemma GroupOneMore(seen: seq<Source>, source: Source, order: seq<string>, groups: map<string, Group>)
    requires Grouped(seen, order, groups)
    ensures var key := Key(source.pair);
            var kinds := KindsOf(seen, source.pair) + KindsOfSource(source);
            var grown := if source.pair in Pairs(seen) then order else order + [key];
            Grouped(seen + [source], grown, groups[key := Group(source.pair, kinds)])
  {
    OneMoreSource(seen, source);
    OtherKeys(source.pair);
    OneMoreKey(Pairs(seen), source.pair);
    hide KindsOfSource;
    hide Pairs;
    hide KindsOf;
    hide KeysOf;
    hide Key;
    var key, all := Key(source.pair), seen + [source];
    var grown := groups[key := Group(source.pair, KindsOf(all, source.pair))];
    assert forall p :: p in Pairs(all) <==> p in Pairs(seen) || p == source.pair;
    forall p ensures Key(p) in grown <==> p in Pairs(all) {
      assert Key(p) in grown <==> Key(p) in groups || p == source.pair;
    }
    forall p | p in Pairs(all) ensures grown[Key(p)] == Group(p, KindsOf(all, p)) {
      if p != source.pair {
        assert grown[Key(p)] == groups[Key(p)] && KindsOf(all, p) == KindsOf(seen, p);
      }
    }
  }

  lemma OtherKeys(pair: Pair)
    ensures forall p :: Key(p) == Key(pair) ==> p == pair
  {
    hide Key;
    forall p | Key(p) == Key(pair) ensures p == pair {
      KeyTellsPairs(p, pair);
    }
  }

  lemma OneMoreKey(pairs: seq<Pair>, pair: Pair)
    ensures KeysOf(pairs + [pair]) == KeysOf(pairs) + [Key(pair)]
  {
  }

  // ----- The order of the merged arrows -----

  /** The position of the first source of a pair, or the number of sources. */
  function FirstIndex(sources: seq<Source>, pair: Pair): (k: nat)
    ensures k <= |sources| && (k < |sources| ==> sources[k].pair == pair)
    ensures forall i :: 0 <= i < k ==> sources[i].pair != pair
  {
    if sources == [] then 0
    else
      var n := |sources| - 1;
      var k := FirstIndex(sources[..n], pair);
      if k < n || sources[n].pair == pair then k else n + 1
  }

  /** Each pair with a source appears, once, and pairs stand in the order of their first sources. */
  lemma {:induction false} PairsAreFirstSeen(sources: seq<Source>)
    ensures forall p :: p in Pairs(sources) <==> FirstIndex(sources, p) < |sources|
    ensures forall i, j :: 0 <= i < j < |Pairs(sources)| ==>
      FirstIndex(sources, Pairs(sources)[i]) < FirstIndex(sources, Pairs(sources)[j])
  {
    if sources != [] {
      var front := sources[..|sources| - 1];
      PairsAreFirstSeen(front);
      var ps := Pairs(front);
      assert forall i :: 0 <= i < |ps| ==> ps[i] in ps;
      assert forall p :: p in ps ==> FirstIndex(sources, p) == FirstIndex(front, p);
    }
  }

  lemma {:induction false} NoKinds(sources: seq<Source>, pair: Pair)
    requires pair !in Pairs(sources)
    ensures KindsOf(sources, pair) == {}
  {
    if sources != [] {
      NoKinds(sources[..|sources| - 1], pair);
    }
  }

  /** A kind is drawn for a pair exactly when some source of the pair stands for it. */
  lemma {:induction false} KindsAreTheSources(sources: seq<Source>, pair: Pair, kind: Kind)
    ensures kind in KindsOf(sources, pair) <==>
      exists i :: 0 <= i < |sources| && sources[i].pair == pair && kind in KindsOfSource(sources[i])
  {
    if sources != [] {
      var front := sources[..|sources| - 1];
      KindsAreTheSources(front, pair, kind);
      assert forall i :: 0 <= i < |front| ==> front[i] == sources[i];
    }
  }

  // ----- Labels -----

  /** Lower-casing, as far as ASCII letters go: no other character becomes one of the letters searched for. */
  function LowerUnit(u: Unit): Unit
  {
    if 'A' as int <= u <= 'Z' as int then u + 32 else u
  }

  function LowerCase(t: Text): (r: Text)
    ensures |r| == |t| && forall i :: 0 <= i < |r| ==> r[i] == LowerUnit(t[i])
  {
    seq(|t|, i requires 0 <= i < |t| => LowerUnit(t[i]))
  }

  predicate IsAt(t: Text, word: Text, i: nat)
  {
    i + |word| <= |t| && t[i..i + |word|] == word
  }

  predicate Includes(t: Text, word: Text)
  {
    exists i :: 0 <= i <= |t| && IsAt(t, word, i)
  }

  /** An included word brings its letters. */
  lemma IncludedLetters(t: Text, word: Text)
    requires Includes(t, word)
    ensures forall i :: 0 <= i < |word| ==> word[i] in t
  {
    var k :| 0 <= k <= |t| && IsAt(t, word, k);
    forall i | 0 <= i < |word| ensures word[i] in t {
      assert t[k..k + |word|][i] == t[k + i];
    }
  }

  /** Neither a number nor the words around it hold a `g` or an `m`, in either case. */
  lemma RatingLetters(rating: Num)
    ensures 'g' as int !in LowerCase(PlayerLabel(Some(rating))) && 'm' as int !in LowerCase(PlayerLabel(Some(rating)))
  {
    var t, n := PlayerLabel(Some(rating)), NumberToString(rating);
    if rating.IsFinite() {
      NumberShape(rating);
    }
    forall i | 0 <= i < |n| ensures LowerUnit(n[i]) !in {'g' as int, 'm' as int} {
      assert n[i] in n;
    }
    forall i | 0 <= i < |t| ensures LowerUnit(t[i]) !in {'g' as int, 'm' as int} {
      if 4 <= i < 4 + |n| {
        assert t[i] == n[i - 4];
      } else if i < 4 {
        assert t[i] == Ascii("Elo ")[i];
      } else {
        assert t[i] == Ascii(" player")[i - 4 - |n|];
      }
    }
  }

  const PLAYER_WORD: Text := Ascii(" player")

  /**
   A label names the engine exactly when the engine is a source, the player exactly when the player is, and
   the tone follows it.
   */
  lemma LabelNamesSources(pair: Pair, kinds: set<Kind>, elo: Option<Num>)
    ensures EngineBest in kinds <==> ENGINE_LABEL <= Label(kinds, elo)
    ensures Maia in kinds <==> Includes(Label(kinds, elo), PLAYER_WORD)
    ensures ArrowFor(pair, kinds, elo).tone.EngineTone? <==> ENGINE_LABEL <= ArrowFor(pair, kinds, elo).caption
    ensures kinds == {EngineBest, Maia} ==> Label(kinds, elo) == Label({EngineBest}, elo) + JOINER + Label({Maia}, elo)
  {
    hide PlayerLabel;
    var t, p := Label(kinds, elo), PlayerLabel(elo);
    PlayerLabelShape(elo);
    assert ENGINE_LABEL[1] == 'n' as int;
    assert PLAYER_WORD[1] == 'p' as int && 'p' as int !in ENGINE_LABEL;
    if Maia in kinds {
      assert EngineBest in kinds ==> t[|t| - |PLAYER_WORD|..] == PLAYER_WORD;
      EndsInclude(t, PLAYER_WORD);
    } else if Includes(t, PLAYER_WORD) {
      IncludedLetters(t, PLAYER_WORD);
    }
  }

  lemma PlayerLabelShape(elo: Option<Num>)
    ensures |PlayerLabel(elo)| > |PLAYER_WORD| && PlayerLabel(elo)[1] == 'l' as int
    ensures PlayerLabel(elo)[|PlayerLabel(elo)| - |PLAYER_WORD|..] == PLAYER_WORD
  {
    hide NumberToString;
    assert Ascii("Elo ")[1] == 'l' as int;
  }

  lemma EndsInclude(t: Text, word: Text)
    requires |word| <= |t| && t[|t| - |word|..] == word
    ensures Includes(t, word)
  {
    assert IsAt(t, word, |t| - |word|);
  }

  // ----- The two boards -----

  function MoveSquares(uci: string): Option<Pair>
  {
    if CanonicalUci(uci) then Some(Pair(uci[..2], uci[2..4])) else None
  }

  function AsList<T>(o: Option<T>): seq<T>
  {
    if o.Some? then [o.value] else []
  }

  /** `moveArrowSource`: an absent, empty or misspelt move draws nothing. */
  function MoveArrowSource(uci: Option<string>, kind: Kind): Option<Source>
  {
    if uci.None? || uci.value == "" then None
    else
      match MoveSquares(uci.value)
      case None => None
      case Some(pair) => Some(Source(pair, kind, []))
  }

  /** `presentationArrowSource`: the arrow's own kind, and every kind its label names. */
  function PresentationArrowSource(arrow: PresentationArrow): Option<Source>
  {
    match arrow.kind
    case BestReply => None
    case Compared(kind) =>
      var caption := LowerCase(arrow.caption);
      Some(Source(arrow.pair, kind, (if Includes(caption, Ascii("engine")) then [EngineBest] else []) +
                                    (if Includes(caption, Ascii("maia")) then [Maia] else [])))
  }

  function MomentSources(best: Option<string>, likely: Option<string>): seq<Source>
  {
    AsList(MoveArrowSource(best, EngineBest)) + AsList(MoveArrowSource(likely, Maia))
  }

  function PresentationSources(arrows: seq<PresentationArrow>): seq<Source>
  {
    if arrows == [] then [] else AsList(PresentationArrowSource(arrows[0])) + PresentationSources(arrows[1..])
  }

  /** One arrow of `projectArrows`. */
  function ProjectArrow(uci: Option<string>, kind: Kind, caption: Text): Option<PresentationArrow>
  {
    if uci.None? || uci.value == "" then None
    else
      match MoveSquares(uci.value)
      case None => None
      case Some(pair) => Some(PresentationArrow(pair, Compared(kind), caption))
  }

  function ProjectArrows(best: Option<string>, likely: Option<string>, rating: Num): seq<PresentationArrow>
  {
    AsList(ProjectArrow(best, EngineBest, ENGINE_LABEL)) + AsList(ProjectArrow(likely, Maia, PlayerLabel(Some(rating))))
  }

  /** Two source lists with the same pairs and, source by source, the same kinds merge alike. */
  lemma {:induction false} SameKindsMergeAlike(a: seq<Source>, b: seq<Source>, elo: Option<Num>)
    requires |a| == |b|
    requires forall i :: 0 <= i < |a| ==> a[i].pair == b[i].pair && KindsOfSource(a[i]) == KindsOfSource(b[i])
    ensures Pairs(a) == Pairs(b) && (forall p :: KindsOf(a, p) == KindsOf(b, p))
    ensures Merged(a, elo) == Merged(b, elo)
  {
    if a != [] {
      SameKindsMergeAlike(a[..|a| - 1], b[..|b| - 1], elo);
    }
    forall i | 0 <= i < |Pairs(a)| ensures Merged(a, elo)[i] == Merged(b, elo)[i] {
      assert KindsOf(a, Pairs(a)[i]) == KindsOf(b, Pairs(a)[i]);
    }
  }

  /** The engine's label names no player model, and a player's label names neither. */
  lemma LabelWords(rating: Num)
    ensures !Includes(LowerCase(ENGINE_LABEL), Ascii("maia"))
    ensures !Includes(LowerCase(PlayerLabel(Some(rating))), Ascii("engine"))
    ensures !Includes(LowerCase(PlayerLabel(Some(rating))), Ascii("maia"))
  {
    RatingLetters(rating);
    hide PlayerLabel;
    hide Includes;
    assert Ascii("engine")[2] == 'g' as int && Ascii("maia")[0] == 'm' as int;
    assert 'm' as int !in LowerCase(ENGINE_LABEL);
    if Includes(LowerCase(ENGINE_LABEL), Ascii("maia")) {
      IncludedLetters(LowerCase(ENGINE_LABEL), Ascii("maia"));
    }
    var caption := LowerCase(PlayerLabel(Some(rating)));
    if Includes(caption, Ascii("engine")) {
      IncludedLetters(caption, Ascii("engine"));
    }
    if Includes(caption, Ascii("maia")) {
      IncludedLetters(caption, Ascii("maia"));
    }
  }

  /** An arrow of `projectArrows` stands for the kind it was made for, whatever its label. */
  lemma ProjectedSource(uci: Option<string>, kind: Kind, rating: Num)
    ensures var caption := if kind.EngineBest? then ENGINE_LABEL else PlayerLabel(Some(rating));
            var arrow, source := ProjectArrow(uci, kind, caption), MoveArrowSource(uci, kind);
            && (arrow.Some? <==> source.Some?)
            && (arrow.Some? ==>
                 && PresentationArrowSource(arrow.value).Some?
                 && PresentationArrowSource(arrow.value).value.pair == source.value.pair
                 && KindsOfSource(PresentationArrowSource(arrow.value).value) == KindsOfSource(source.value) == {kind})
  {
    LabelWords(rating);
    hide PlayerLabel;
    hide Includes;
    hide LowerCase;
    hide CanonicalUci;
  }

  /** The two boards cannot disagree, for any two moves, any rating projected and any rating shown. */
  lemma BoardsAgree(best: Option<string>, likely: Option<string>, rating: Num, elo: Option<Num>)
    ensures Merged(PresentationSources(ProjectArrows(best, likely, rating)), elo) ==
      Merged(MomentSources(best, likely), elo)
  {
    hide KindsOfSource;
    hide MoveArrowSource;
    hide ProjectArrow;
    hide PresentationArrowSource;
    ProjectedSource(best, EngineBest, rating);
    ProjectedSource(likely, Maia, rating);
    var x, y := ProjectArrow(best, EngineBest, ENGINE_LABEL), ProjectArrow(likely, Maia, PlayerLabel(Some(rating)));
    SourcesOfTwo(x, y);
    SameKindsMergeAlike(PresentationSources(AsList(x) + AsList(y)), MomentSources(best, likely), elo);
  }

  lemma SourcesOfTwo(x: Option<PresentationArrow>, y: Option<PresentationArrow>)
    ensures PresentationSources(AsList(x) + AsList(y)) ==
      PresentationSources(AsList(x)) + PresentationSources(AsList(y))
    ensures x.Some? ==> PresentationSources(AsList(x)) == AsList(PresentationArrowSource(x.value))
    ensures y.Some? ==> PresentationSources(AsList(y)) == AsList(PresentationArrowSource(y.value))
  {
    hide PresentationArrowSource;
    if x.Some? {
      assert (AsList(x) + AsList(y))[1..] == AsList(y);
      assert AsList(x)[1..] == [];
    }
    if y.Some? {
      assert AsList(y)[1..] == [];
    }
  }

  /** `criticalMomentComparisonArrows`. */
  method CriticalMomentComparisonArrows(best: Option<string>, likely: Option<string>, elo: Option<Num>)
    returns (r: seq<BoardArrow>)
    ensures r == Merged(MomentSources(best, likely), elo)
  {
    r := MergeComparisonArrows(MomentSources(best, likely), elo);
  }

  /**
   `presentationComparisonArrows`, for any arrows a presentation carries; `BoardsAgree` says what it draws of
   projected ones.
   */
  method PresentationComparisonArrows(arrows: seq<PresentationArrow>, elo: Option<Num>) returns (r: seq<BoardArrow>)
    ensures r == Merged(PresentationSources(arrows), elo)
  {
    var sources: seq<Source> := [];
    for i := 0 to |arrows|
      invariant PresentationSources(arrows) == sources + PresentationSources(arrows[i..])
    {
      assert arrows[i..][1..] == arrows[i + 1..];
      var source := PresentationArrowSource(arrows[i]);
      sources := sources + AsList(source);
    }
    assert sources + [] == sources;
    r := MergeComparisonArrows(sources, elo);
  }

  /** A kind is drawn for a pair exactly when some arrow of the pair is of that kind or names it in its label. */
  lemma {:induction false} DrawnKinds(arrows: seq<PresentationArrow>, pair: Pair, kind: Kind)
    ensures kind in KindsOf(PresentationSources(arrows), pair) <==>
      exists i :: 0 <= i < |arrows| && arrows[i].pair == pair && StandsFor(arrows[i], kind)
  {
    if arrows != [] {
      var first := AsList(PresentationArrowSource(arrows[0]));
      DrawnKinds(arrows[1..], pair, kind);
      KindsJoin(first, PresentationSources(arrows[1..]), pair);
      OneSourceKinds(arrows[0], pair, kind);
      assert forall i :: 0 <= i < |arrows[1..]| ==> arrows[1..][i] == arrows[i + 1];
    }
  }

  /** Best replies stand for nothing; other arrows for their own kind and the kinds their label names. */
  predicate StandsFor(arrow: PresentationArrow, kind: Kind)
  {
    arrow.kind.Compared? && (arrow.kind.kind == kind ||
      Includes(LowerCase(arrow.caption), if kind.EngineBest? then Ascii("engine") else Ascii("maia")))
  }

  lemma OneSourceKinds(arrow: PresentationArrow, pair: Pair, kind: Kind)
    ensures kind in KindsOf(AsList(PresentationArrowSource(arrow)), pair) <==>
      arrow.pair == pair && StandsFor(arrow, kind)
  {
    hide Includes;
    hide LowerCase;
    var source := PresentationArrowSource(arrow);
    if source.Some? {
      assert [source.value][..0] == [];
    }
  }

  lemma {:induction false} KindsJoin(a: seq<Source>, b: seq<Source>, pair: Pair)
    ensures KindsOf(a + b, pair) == KindsOf(a, pair) + KindsOf(b, pair)
    decreases |b|
  {
    if b == [] {
      assert a + b == a;
    } else {
      assert (a + b)[..|a + b| - 1] == a + b[..|b| - 1];
      KindsJoin(a, b[..|b| - 1], pair);
    }
  }

  /** `engineMoveArrow`: a board with one engine line draws the arrow that merging would draw. */
  function EngineMoveArrow(uci: Option<string>): Option<BoardArrow>
  {
    match MoveArrowSource(uci, EngineBest)
    case None => None
    case Some(source) => Some(BoardArrow(source.pair, ENGINE_LABEL, EngineTone))
  }

  lemma EngineArrowIsMerged(uci: Option<string>, elo: Option<Num>)
    ensures AsList(EngineMoveArrow(uci)) == Merged(MomentSources(uci, None), elo)
  {
    var source := MoveArrowSource(uci, EngineBest);
    if source.Some? {
      var s := [source.value];
      assert MomentSources(uci, None) == s && s[..0] == [];
      assert Pairs(s[..0]) == [] && KindsOf(s[..0], source.value.pair) == {};
      assert Pairs(s) == [source.value.pair] && KindsOf(s, source.value.pair) == {EngineBest};
    }
  }
}
