/**
 The canonical continuations of a Review Moment: UCI paths replayed from one position, with notation
 recomputed on the way. The chess library is a parameter; what is modelled is the replay.
 */
module MoveSequenceLines {
  import opened Optional
  import opened FenPlacement
  import opened TextSplit
  import opened BlankText
  import opened UciText

  datatype LineMove = LineMove(san: string, uci: string)

  /**
   A chess library: positions `P`, moves `M`, and the notations of both. Reading a FEN includes checking its
   setup.
   */
  datatype Rules<!P, !M> = Rules(
    read: string -> Option<P>,
    parseUci: string -> Option<M>,
    legal: (P, M) -> bool,
    play: (P, M) -> P,
    san: (P, M) -> string,
    fen: P -> string,
    board: P -> seq<seq<Cell>>,
    turn: P -> string,
    isCheck: P -> bool,
    kingSquare: P -> Option<string>)

  /** The UCI text starts with the names of two different squares. */
  predicate NamesTwoSquares(uci: string)
  {
    |uci| >= 4 && IsSquare(uci[..2]) && IsSquare(uci[2..4]) && uci[..2] != uci[2..4]
  }

  /** A legal move is written by its two squares and has a notation; the position it leads to survives its FEN. */
  ghost predicate LawfulMove<P(!new), M(!new)>(rules: Rules<P, M>, p: P, uci: string)
  {
    match rules.parseUci(uci)
    case None => true
    case Some(m) => rules.legal(p, m) ==> (
      && NamesTwoSquares(uci) && !Blank(rules.san(p, m))
      && rules.fen(rules.play(p, m)) != ""
      && rules.read(rules.fen(rules.play(p, m))) == Some(rules.play(p, m)))
  }

  /** What is assumed of the library. */
  ghost predicate Lawful<P(!new), M(!new)>(rules: Rules<P, M>)
  {
    && (forall p, uci :: LawfulMove(rules, p, uci))
    && forall p :: IsBoard(rules.board(p)) && Split(rules.fen(p), ' ')[0] == PrintBoard(rules.board(p))
  }

  // ----- Replaying -----

  /** The position after a list of moves, or none when one of them is not a legal move. */
  function After<P, M>(rules: Rules<P, M>, p: P, ucis: seq<string>): Option<P>
  {
    if ucis == [] then Some(p)
    else
      match rules.parseUci(ucis[0])
      case None => None
      case Some(m) => if rules.legal(p, m) then After(rules, rules.play(p, m), ucis[1..]) else None
  }

  /** The same moves, each with the notation it has where it is played. */
  function Canonical<P, M>(rules: Rules<P, M>, p: P, ucis: seq<string>): Option<seq<LineMove>>
  {
    if ucis == [] then Some([])
    else
      match rules.parseUci(ucis[0])
      case None => None
      case Some(m) =>
        if !rules.legal(p, m) then None
        else
          match Canonical(rules, rules.play(p, m), ucis[1..])
          case None => None
          case Some(rest) => Some([LineMove(rules.san(p, m), ucis[0])] + rest)
  }

  function Ucis(moves: seq<LineMove>): (r: seq<string>)
    ensures |r| == |moves| && forall i :: 0 <= i < |r| ==> r[i] == moves[i].uci
  {
    seq(|moves|, i requires 0 <= i < |moves| => moves[i].uci)
  }

  /** The path is playable from the position a FEN describes. */
  predicate Replays<P, M>(rules: Rules<P, M>, fen: string, ucis: seq<string>)
  {
    rules.read(fen).Some? && After(rules, rules.read(fen).value, ucis).Some?
  }

  lemma {:induction false} AfterSplits<P, M>(rules: Rules<P, M>, p: P, a: seq<string>, b: seq<string>)
    ensures After(rules, p, a + b) ==
            if After(rules, p, a).None? then None else After(rules, After(rules, p, a).value, b)
  {
    if a == [] {
      assert a + b == b;
    } else {
      assert (a + b)[1..] == a[1..] + b;
      var m := rules.parseUci(a[0]);
      if m.Some? && rules.legal(p, m.value) {
        AfterSplits(rules, rules.play(p, m.value), a[1..], b);
      }
    }
  }

  function Concat<T>(a: Option<seq<T>>, b: Option<seq<T>>): Option<seq<T>>
  {
    if a.Some? && b.Some? then Some(a.value + b.value) else None
  }

  /** Canonicalising splits over concatenation: the second part continues where the first one ends. */
  lemma {:induction false} CanonicalSplits<P, M>(rules: Rules<P, M>, p: P, a: seq<string>, b: seq<string>)
    ensures Canonical(rules, p, a).Some? <==> After(rules, p, a).Some?
    ensures Canonical(rules, p, a + b) ==
            if After(rules, p, a).None? then None
            else Concat(Canonical(rules, p, a), Canonical(rules, After(rules, p, a).value, b))
  {
    if a == [] {
      assert a + b == b;
      var r := Canonical(rules, p, b);
      assert r.Some? ==> [] + r.value == r.value;
    } else {
      assert (a + b)[1..] == a[1..] + b;
      var m := rules.parseUci(a[0]);
      if m.Some? && rules.legal(p, m.value) {
        var q := rules.play(p, m.value);
        CanonicalSplits(rules, q, a[1..], b);
        var head := [LineMove(rules.san(p, m.value), a[0])];
        if After(rules, p, a).Some? && Canonical(rules, After(rules, p, a).value, b).Some? {
          var x, y := Canonical(rules, q, a[1..]).value, Canonical(rules, After(rules, p, a).value, b).value;
          assert head + (x + y) == (head + x) + y;
        }
      }
    }
  }

  /** The notation of one move is the one it has after all the moves before it. */
  ghost predicate NotatedAt<P, M>(rules: Rules<P, M>, p: P, ucis: seq<string>, i: nat, move: LineMove)
    requires i < |ucis|
  {
    var before, m := After(rules, p, ucis[..i]), rules.parseUci(ucis[i]);
    before.Some? && m.Some? && rules.legal(before.value, m.value) &&
      move == LineMove(rules.san(before.value, m.value), ucis[i])
  }

  /** Canonical moves are exactly the given moves, notated in place; canonicalising them again changes nothing. */
  lemma CanonicalNotates<P, M>(rules: Rules<P, M>, p: P, ucis: seq<string>)
    requires Canonical(rules, p, ucis).Some?
    ensures |Canonical(rules, p, ucis).value| == |ucis|
    ensures forall i :: 0 <= i < |ucis| ==> NotatedAt(rules, p, ucis, i, Canonical(rules, p, ucis).value[i])
    ensures Canonical(rules, p, Ucis(Canonical(rules, p, ucis).value)) == Canonical(rules, p, ucis)
  {
    var r := Canonical(rules, p, ucis).value;
    CanonicalLength(rules, p, ucis);
    forall i | 0 <= i < |ucis| ensures NotatedAt(rules, p, ucis, i, r[i]) {
      assert ucis == ucis[..i] + ([ucis[i]] + ucis[i + 1..]);
      CanonicalSplits(rules, p, ucis[..i], [ucis[i]] + ucis[i + 1..]);
      CanonicalLength(rules, p, ucis[..i]);
      assert ([ucis[i]] + ucis[i + 1..])[0] == ucis[i];
    }
    assert Ucis(r) == ucis;
  }

  lemma {:induction false} CanonicalLength<P, M>(rules: Rules<P, M>, p: P, ucis: seq<string>)
    requires Canonical(rules, p, ucis).Some?
    ensures |Canonical(rules, p, ucis).value| == |ucis|
  {
    if ucis != [] {
      CanonicalLength(rules, rules.play(p, rules.parseUci(ucis[0]).value), ucis[1..]);
    }
  }

  /** One more move at the end. */
  lemma OneMoreMove<P, M>(rules: Rules<P, M>, p: P, ucis: seq<string>, n: nat, q: P, canonical: seq<LineMove>)
    requires n < |ucis| && After(rules, p, ucis[..n]) == Some(q) && Canonical(rules, p, ucis[..n]) == Some(canonical)
    ensures var m := rules.parseUci(ucis[n]);
            if m.None? || !rules.legal(q, m.value) then After(rules, p, ucis[..n + 1]).None?
            else && After(rules, p, ucis[..n + 1]) == Some(rules.play(q, m.value))
                 && Canonical(rules, p, ucis[..n + 1]) == Some(canonical + [LineMove(rules.san(q, m.value), ucis[n])])
  {
    assert ucis[..n + 1] == ucis[..n] + [ucis[n]];
    AfterSplits(rules, p, ucis[..n], [ucis[n]]);
    CanonicalSplits(rules, p, ucis[..n], [ucis[n]]);
    var m := rules.parseUci(ucis[n]);
    if m.Some? && rules.legal(q, m.value) {
      var last := [LineMove(rules.san(q, m.value), ucis[n])];
      assert last + [] == last;
      assert Canonical(rules, rules.play(q, m.value), [ucis[n]][1..]) == Some([]);
      assert Canonical(rules, q, [ucis[n]]) == Some(last);
    }
  }

  /** A position reached by at least one move survives being written as a FEN and read back. */
  lemma {:induction false} ReachedReadsBack<P(!new), M(!new)>(rules: Rules<P, M>, p: P, ucis: seq<string>)
    requires Lawful(rules) && ucis != [] && After(rules, p, ucis).Some?
    ensures rules.read(rules.fen(After(rules, p, ucis).value)) == After(rules, p, ucis)
    ensures rules.fen(After(rules, p, ucis).value) != ""
  {
    assert LawfulMove(rules, p, ucis[0]);
    if |ucis| > 1 {
      ReachedReadsBack(rules, rules.play(p, rules.parseUci(ucis[0]).value), ucis[1..]);
    }
  }

  /** Cutting a path in two and going on from the FEN of the position between the parts changes nothing. */
  lemma CanonicalSplitsAtFen<P(!new), M(!new)>(rules: Rules<P, M>, p: P, a: seq<string>, b: seq<string>)
    requires Lawful(rules) && a != [] && After(rules, p, a).Some?
    ensures var middle := rules.read(rules.fen(After(rules, p, a).value));
            && middle.Some?
            && Canonical(rules, p, a + b) == Concat(Canonical(rules, p, a), Canonical(rules, middle.value, b))
  {
    ReachedReadsBack(rules, p, a);
    CanonicalSplits(rules, p, a, b);
  }

  /** `canonicalMovesFromFen`. */
  method CanonicalMovesFromFen<P, M>(rules: Rules<P, M>, fen: string, ucis: seq<string>)
    returns (r: Option<seq<LineMove>>)
    ensures r == if rules.read(fen).None? then None else Canonical(rules, rules.read(fen).value, ucis)
    ensures r.Some? <==> Replays(rules, fen, ucis)
  {
    var start := rules.read(fen);
    if start.None? {
      return None;
    }
    var position := start.value;
    CanonicalSplits(rules, start.value, ucis, []);
    var canonical: seq<LineMove> := [];
    for i := 0 to |ucis|
      invariant After(rules, start.value, ucis[..i]) == Some(position)
      invariant Canonical(rules, start.value, ucis[..i]) == Some(canonical)
    {
      OneMoreMove(rules, start.value, ucis, i, position, canonical);
      var move := rules.parseUci(ucis[i]);
      if move.None? || !rules.legal(position, move.value) {
        assert ucis == ucis[..i + 1] + ucis[i + 1..];
        AfterSplits(rules, start.value, ucis[..i + 1], ucis[i + 1..]);
        return None;
      }
      canonical := canonical + [LineMove(rules.san(position, move.value), ucis[i])];
      position := rules.play(position, move.value);
    }
    assert ucis[..|ucis|] == ucis;
    return Some(canonical);
  }

  // ----- The lines of a Review Moment -----

  datatype Side = White | Black | Both

  datatype Origin = Origin(fen: string, sideToMove: Side, reviewSide: Side, reviewedMoveUci: Option<string>)

  datatype ObjectiveLines = ObjectiveLines(best: seq<LineMove>, refutation: seq<LineMove>)

  datatype LineKind = EngineBest | PlayedMoveRefutation

  datatype MomentLine = MomentLine(initialFen: string, kind: LineKind, moves: seq<LineMove>, orientation: Side,
                                   title: string)

  const MINIMUM_RENDERABLE_MOVES: nat := 2

  function SequenceOrientation(origin: Origin): Side
  {
    if origin.reviewSide.Both? then origin.sideToMove else origin.reviewSide
  }

  /** `fenAfterMove`. */
  function FenAfterMove<P, M>(rules: Rules<P, M>, fen: string, uci: string): Option<string>
  {
    match (rules.read(fen), rules.parseUci(uci))
    case (Some(p), Some(m)) => if rules.legal(p, m) then Some(rules.fen(rules.play(p, m))) else None
    case _ => None
  }

  function Title(kind: LineKind): string
  {
    if kind.EngineBest? then "Engine line" else "Reply to your move"
  }

  /** Where a kind of continuation starts; an absent or empty reviewed move has no refutation. */
  function InitialFen<P, M>(rules: Rules<P, M>, origin: Origin, kind: LineKind): Option<string>
  {
    if kind.EngineBest? then Some(origin.fen)
    else if origin.reviewedMoveUci.None? || origin.reviewedMoveUci.value == "" then None
    else FenAfterMove(rules, origin.fen, origin.reviewedMoveUci.value)
  }

  function StoredMoves(lines: ObjectiveLines, kind: LineKind): seq<LineMove>
  {
    if kind.EngineBest? then lines.best else lines.refutation
  }

  /** A stored line is offered when it starts somewhere, shows at least two moves and replays. */
  predicate Offered<P, M>(rules: Rules<P, M>, origin: Origin, lines: ObjectiveLines, kind: LineKind)
  {
    var start := InitialFen(rules, origin, kind);
    && start.Some? && start.value != ""
    && |StoredMoves(lines, kind)| >= MINIMUM_RENDERABLE_MOVES
    && Replays(rules, start.value, Ucis(StoredMoves(lines, kind)))
  }

  /** The offered line keeps the stored path and replaces whatever notation was stored beside it. */
  ghost predicate IsOfferedLine<P, M>(rules: Rules<P, M>, origin: Origin, lines: ObjectiveLines, line: MomentLine)
  {
    && Offered(rules, origin, lines, line.kind)
    && InitialFen(rules, origin, line.kind) == Some(line.initialFen)
    && Some(line.moves) == Canonical(rules, rules.read(line.initialFen).value, Ucis(StoredMoves(lines, line.kind)))
    && line.orientation == SequenceOrientation(origin) && line.title == Title(line.kind)
  }

  method CanonicalLine<P, M>(rules: Rules<P, M>, origin: Origin, lines: ObjectiveLines, kind: LineKind)
    returns (r: seq<MomentLine>)
    ensures |r| <= 1 && (r != [] <==> Offered(rules, origin, lines, kind))
    ensures r != [] ==> r[0].kind == kind && IsOfferedLine(rules, origin, lines, r[0])
  {
    var start := InitialFen(rules, origin, kind);
    if start.None? || start.value == "" || |StoredMoves(lines, kind)| < MINIMUM_RENDERABLE_MOVES {
      return [];
    }
    var moves := CanonicalMovesFromFen(rules, start.value, Ucis(StoredMoves(lines, kind)));
    if moves.None? {
      return [];
    }
    return [MomentLine(start.value, kind, moves.value, SequenceOrientation(origin), Title(kind))];
  }

  /** `canonicalLinesFrom`: the offered lines, the engine's before the refutation. */
  method CanonicalLinesFrom<P, M>(rules: Rules<P, M>, origin: Origin, lines: Option<ObjectiveLines>)
    returns (r: seq<MomentLine>)
    ensures lines.None? ==> r == []
    ensures lines.Some? ==> forall line :: line in r ==> IsOfferedLine(rules, origin, lines.value, line)
    ensures lines.Some? && Offered(rules, origin, lines.value, EngineBest) ==> r != [] && r[0].kind.EngineBest?
    ensures lines.Some? && Offered(rules, origin, lines.value, PlayedMoveRefutation) ==>
      r != [] && r[|r| - 1].kind.PlayedMoveRefutation?
    ensures |r| <= 2 && (|r| == 2 ==> r[0].kind.EngineBest? && r[1].kind.PlayedMoveRefutation?)
  {
    hide *;
    if lines.None? {
      return [];
    }
    var best := CanonicalLine(rules, origin, lines.value, EngineBest);
    var refutation := CanonicalLine(rules, origin, lines.value, PlayedMoveRefutation);
    r := best + refutation;
  }

  /** Every offered line replays from its own starting position. */
  lemma OfferedLineReplays<P(!new), M(!new)>(rules: Rules<P, M>, origin: Origin, lines: ObjectiveLines,
                                             line: MomentLine)
    requires IsOfferedLine(rules, origin, lines, line)
    ensures Replays(rules, line.initialFen, Ucis(line.moves))
    ensures Canonical(rules, rules.read(line.initialFen).value, Ucis(line.moves)) == Some(line.moves)
    ensures Ucis(line.moves) == Ucis(StoredMoves(lines, line.kind)) && |line.moves| >= MINIMUM_RENDERABLE_MOVES
  {
    var p, ucis := rules.read(line.initialFen).value, Ucis(StoredMoves(lines, line.kind));
    CanonicalNotates(rules, p, ucis);
    assert Ucis(line.moves) == ucis;
  }

  /** A refutation continues the game: it replays from the moment itself once the reviewed move is played. */
  lemma RefutationContinuesTheMove<P(!new), M(!new)>(rules: Rules<P, M>, origin: Origin, lines: ObjectiveLines,
                                                     line: MomentLine)
    requires Lawful(rules) && IsOfferedLine(rules, origin, lines, line) && line.kind.PlayedMoveRefutation?
    ensures origin.reviewedMoveUci.Some?
    ensures Replays(rules, origin.fen, [origin.reviewedMoveUci.value] + Ucis(line.moves))
  {
    var uci := origin.reviewedMoveUci.value;
    var p := rules.read(origin.fen).value;
    OfferedLineReplays(rules, origin, lines, line);
    assert LawfulMove(rules, p, uci);
    assert ([uci] + Ucis(line.moves))[1..] == Ucis(line.moves);
  }
}
