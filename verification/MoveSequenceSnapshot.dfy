/**
 One continuation of a Review Moment played out board by board, and the decoder's check of the result.
 The moves come from a frozen review or from an evaluated Player Line; the boards never do.
 */
module MoveSequenceSnapshot {
  import opened Optional
  import opened BlankText
  import opened TextSplit
  import opened FenPlacement
  import opened UciText
  import opened MoveSequenceLines
  import Animation = PresentationAnimation

  /** What a call does: a value, `undefined`, or an exception. */
  datatype Outcome<+T> = Returned(value: T) | Missing | Thrown

  datatype SequenceBoard = SequenceBoard(
    announcement: string, checkSquare: Option<string>, from: string, to: string, pieces: seq<PresentationPiece>)

  datatype SequenceMove = SequenceMove(board: SequenceBoard, index: int, san: string)

  datatype Detail = Detail(gameImportId: string, reviewMomentId: string, continuation: Origin,
                           objectiveLines: Option<ObjectiveLines>)

  datatype SnapshotKind = Line(kind: LineKind) | PlayerLine(uci: seq<string>)

  datatype Snapshot = Snapshot(
    gameImportId: string, kind: SnapshotKind, moves: seq<SequenceMove>, orientation: Side, reviewMomentId: string,
    title: string)

  // ----- Playing a line out -----

  /** Everything a board shows about the position `after` a move. */
  function Showing<P, M>(rules: Rules<P, M>, after: P, move: LineMove, index: nat, count: nat,
                         pieces: seq<PresentationPiece>): SequenceMove
    requires |move.uci| >= 4
  {
    var announcement := "Move " + Decimal(index) + " of " + Decimal(count) + ": " + move.san + ". " +
                        rules.turn(after) + " to move" + (if rules.isCheck(after) then " in check" else "") + ".";
    SequenceMove(
      SequenceBoard(announcement, if rules.isCheck(after) then rules.kingSquare(after) else None,
                    move.uci[..2], move.uci[2..4], pieces),
      index, move.san)
  }

  function Shown<P, M>(rules: Rules<P, M>, after: P, move: LineMove, index: nat, count: nat): SequenceMove
    requires |move.uci| >= 4 && IsBoard(rules.board(after))
  {
    Showing(rules, after, move, index, count, PresentedAll(BoardPieces(rules.board(after), 8)))
  }

  /** Board `i` shows the position after the first `i + 1` moves. */
  ghost predicate ShownAt<P, M>(rules: Rules<P, M>, start: P, moves: seq<LineMove>, i: nat, shown: SequenceMove)
    requires i < |moves|
  {
    var after := After(rules, start, Ucis(moves)[..i + 1]);
    && after.Some? && NamesTwoSquares(moves[i].uci) && IsBoard(rules.board(after.value))
    && shown == Shown(rules, after.value, moves[i], i + 1, |moves|)
  }

  /** The boards of a whole line. */
  ghost predicate PlayedOut<P, M>(rules: Rules<P, M>, fen: string, moves: seq<LineMove>, shown: seq<SequenceMove>)
  {
    && rules.read(fen).Some? && |shown| == |moves|
    && forall i :: 0 <= i < |moves| ==> ShownAt(rules, rules.read(fen).value, moves, i, shown[i])
  }

  /** `presentationPiecesFromFen` of a position's own FEN reads the position's board. */
  method PiecesOfPosition<P(!new), M(!new)>(rules: Rules<P, M>, p: P) returns (pieces: Option<seq<PresentationPiece>>)
    requires Lawful(rules)
    ensures IsBoard(rules.board(p)) && pieces == Some(PresentedAll(BoardPieces(rules.board(p), 8)))
  {
    var placement := Split(rules.fen(p), ' ')[0];
    hide BoardPieces;
    hide PresentedAll;
    PrintedBoardReadsBack(rules.board(p));
    CanonicalIffPrinted(placement);
    var ok, read := PresentationPieces(placement);
    if !ok {
      return None;
    }
    return Some(read);
  }

  /** Move `i` of a path: either the path stops there, or it goes on from the position the move leads to. */
  lemma NextPosition<P(!new), M(!new)>(rules: Rules<P, M>, start: P, ucis: seq<string>, i: nat, position: P)
    requires Lawful(rules) && i < |ucis| && After(rules, start, ucis[..i]) == Some(position)
    ensures var m := rules.parseUci(ucis[i]);
            if m.None? || !rules.legal(position, m.value) then After(rules, start, ucis).None?
            else
              && After(rules, start, ucis[..i + 1]) == Some(rules.play(position, m.value))
              && NamesTwoSquares(ucis[i]) && |ucis[i]| >= 4
  {
    assert ucis[..i + 1] == ucis[..i] + [ucis[i]] && ucis == ucis[..i + 1] + ucis[i + 1..];
    AfterSplits(rules, start, ucis[..i], [ucis[i]]);
    AfterSplits(rules, start, ucis[..i + 1], ucis[i + 1..]);
    assert LawfulMove(rules, position, ucis[i]);
  }

  lemma ShowsMove<P, M>(rules: Rules<P, M>, start: P, moves: seq<LineMove>, i: nat, after: P)
    requires i < |moves| && After(rules, start, Ucis(moves)[..i + 1]) == Some(after)
    requires NamesTwoSquares(moves[i].uci) && IsBoard(rules.board(after))
    ensures ShownAt(rules, start, moves, i,
                    Showing(rules, after, moves[i], i + 1, |moves|, PresentedAll(BoardPieces(rules.board(after), 8))))
  {
  }

  /** `projectSequenceMoves`: it throws exactly when the line does not replay. */
  method ProjectSequenceMoves<P(!new), M(!new)>(rules: Rules<P, M>, initialFen: string, moves: seq<LineMove>)
    returns (r: Outcome<seq<SequenceMove>>)
    requires Lawful(rules)
    ensures r.Returned? <==> Replays(rules, initialFen, Ucis(moves))
    ensures r.Returned? ==> PlayedOut(rules, initialFen, moves, r.value)
    ensures !r.Returned? ==> r.Thrown?
  {
    hide Canonical;
    hide Lawful;
    hide LawfulMove;
    hide NamesTwoSquares;
    hide ShownAt;
    hide Showing;
    hide PresentedAll;
    hide BoardPieces;
    var start := rules.read(initialFen);
    if start.None? {
      return Thrown;
    }
    var position := start.value;
    ghost var ucis := Ucis(moves);
    var shown: seq<SequenceMove> := [];
    for i := 0 to |moves|
      invariant After(rules, start.value, ucis[..i]) == Some(position)
      invariant |shown| == i
      invariant forall k :: 0 <= k < i ==> ShownAt(rules, start.value, moves, k, shown[k])
    {
      NextPosition(rules, start.value, ucis, i, position);
      var move := rules.parseUci(moves[i].uci);
      if move.None? || !rules.legal(position, move.value) {
        return Thrown;
      }
      position := rules.play(position, move.value);
      var pieces := PiecesOfPosition(rules, position);
      if pieces.None? {
        return Thrown;
      }
      shown := shown + [Showing(rules, position, moves[i], i + 1, |moves|, pieces.value)];
      ShowsMove(rules, start.value, moves, i, position);
    }
    assert ucis[..|moves|] == ucis;
    return Returned(shown);
  }

  // ----- The decoder's check of the played-out moves -----

  function PieceIds(ps: seq<PresentationPiece>): (r: seq<string>)
    ensures |r| == |ps| && forall i :: 0 <= i < |r| ==> r[i] == ps[i].pieceId
  {
    seq(|ps|, i requires 0 <= i < |ps| => ps[i].pieceId)
  }

  function PieceSquares(ps: seq<PresentationPiece>): (r: seq<string>)
    ensures |r| == |ps| && forall i :: 0 <= i < |r| ==> r[i] == ps[i].square
  {
    seq(|ps|, i requires 0 <= i < |ps| => ps[i].square)
  }

  /** No two pieces share an id or a square, and no id is blank. */
  ghost predicate ProperPieces(ps: seq<PresentationPiece>)
  {
    && (forall i, j :: 0 <= i < j < |ps| ==> ps[i].pieceId != ps[j].pieceId && ps[i].square != ps[j].square)
    && forall i :: 0 <= i < |ps| ==> !Blank(ps[i].pieceId)
  }

  /**
   The index is the expected one, the texts say something, the pieces are proper, and the squares of the move
   differ.
   */
  ghost predicate RealMove(move: SequenceMove, index: int)
  {
    && move.index == index && !Blank(move.san) && !Blank(move.board.announcement)
    && ProperPieces(move.board.pieces) && move.board.from != move.board.to
  }

  /** Move `i` has index `i + 1`, and there is at least one. */
  ghost predicate RealSequence(moves: seq<SequenceMove>)
  {
    moves != [] && forall i :: 0 <= i < |moves| ==> RealMove(moves[i], i + 1)
  }

  /** `validateSequenceMoves`. */
  method ValidateSequenceMoves(moves: seq<SequenceMove>) returns (ok: bool)
    ensures ok <==> RealSequence(moves)
  {
    if moves == [] {
      return false;
    }
    for n := 0 to |moves|
      invariant forall i :: 0 <= i < n ==> RealMove(moves[i], i + 1)
    {
      var move := moves[n];
      var ids, squares := PieceIds(move.board.pieces), PieceSquares(move.board.pieces);
      Animation.UniqueIffDistinct(ids);
      Animation.UniqueIffDistinct(squares);
      var blank := exists i :: 0 <= i < |ids| && Blank(ids[i]);
      if move.index != n + 1 || Blank(move.san) || Blank(move.board.announcement)
         || !Animation.Unique(ids) || !Animation.Unique(squares) || blank || move.board.from == move.board.to {
        assert !RealMove(moves[n], n + 1);
        return false;
      }
    }
    return true;
  }

  /** The pieces read from a board have different squares and so different ids. */
  lemma BoardPiecesDiffer(board: seq<seq<Cell>>)
    requires IsBoard(board)
    ensures ProperPieces(PresentedAll(BoardPieces(board, 8)))
  {
    hide BoardPieces;
    var os := BoardPieces(board, 8);
    var ps := PresentedAll(os);
    BoardPiecesOrder(board, 8);
    forall i | 0 <= i < |ps|
      ensures |ps[i].square| == 2 && !Blank(ps[i].pieceId) && EndsWith(ps[i].pieceId, ps[i].square)
    {
      assert os[i] in os;
      PieceIdShape(os[i]);
    }
    forall i, j | 0 <= i < j < |ps| ensures ps[i].pieceId != ps[j].pieceId && ps[i].square != ps[j].square {
      assert SquareBelow(os[i], os[j]) || SquareBelow(os[j], os[i]);
    }
  }

  predicate EndsWith(text: string, end: string)
  {
    |end| <= |text| && text[|text| - |end|..] == end
  }

  lemma PieceIdShape(o: OccupiedSquare)
    ensures !Blank(Presented(o).pieceId) && EndsWith(Presented(o).pieceId, o.square)
  {
    var head := ColorName(o.piece.color) + ":" + RoleName(o.piece.role) + ":";
    assert Presented(o).pieceId == head + o.square;
    assert (head + o.square)[|head|..] == o.square;
    assert (head + o.square)[0] == ColorName(o.piece.color)[0];
  }

  lemma ShownIsReal<P, M>(rules: Rules<P, M>, after: P, move: LineMove, index: nat, count: nat)
    requires IsBoard(rules.board(after)) && NamesTwoSquares(move.uci) && !Blank(move.san)
    ensures RealMove(Shown(rules, after, move, index, count), index)
  {
    hide BoardPieces;
    hide PresentedAll;
    hide ProperPieces;
    BoardPiecesDiffer(rules.board(after));
    assert Shown(rules, after, move, index, count).board.announcement[0] == 'M';
  }

  /** Whatever is played out passes the decoder's check. */
  lemma PlayedOutIsReal<P, M>(rules: Rules<P, M>, fen: string, moves: seq<LineMove>, shown: seq<SequenceMove>)
    requires PlayedOut(rules, fen, moves, shown) && moves != []
    requires forall i :: 0 <= i < |moves| ==> !Blank(moves[i].san)
    ensures RealSequence(shown)
  {
    hide Shown;
    hide RealMove;
    forall i | 0 <= i < |shown| ensures RealMove(shown[i], i + 1) {
      assert ShownAt(rules, rules.read(fen).value, moves, i, shown[i]);
      ShownIsReal(rules, After(rules, rules.read(fen).value, Ucis(moves)[..i + 1]).value, moves[i], i + 1, |moves|);
    }
  }

  /** Canonical notation is never blank. */
  lemma CanonicalIsNotBlank<P(!new), M(!new)>(rules: Rules<P, M>, p: P, ucis: seq<string>)
    requires Lawful(rules) && Canonical(rules, p, ucis).Some?
    ensures var r := Canonical(rules, p, ucis).value; forall i :: 0 <= i < |r| ==> !Blank(r[i].san)
  {
    CanonicalNotates(rules, p, ucis);
    var r := Canonical(rules, p, ucis).value;
    forall i | 0 <= i < |r| ensures !Blank(r[i].san) {
      assert NotatedAt(rules, p, ucis, i, r[i]);
      assert LawfulMove(rules, After(rules, p, ucis[..i]).value, ucis[i]);
    }
  }

  // ----- The two snapshots -----

  /** The kind is among the moment's lines. */
  predicate Offers<P, M>(rules: Rules<P, M>, detail: Detail, kind: LineKind)
  {
    detail.objectiveLines.Some? && Offered(rules, detail.continuation, detail.objectiveLines.value, kind)
  }

  /** A canonical line played out and decoded: neither step throws. */
  method PlayOutAndDecode<P(!new), M(!new)>(rules: Rules<P, M>, fen: string, line: seq<LineMove>)
    returns (moves: Outcome<seq<SequenceMove>>)
    requires Lawful(rules) && line != []
    requires rules.read(fen).Some? && Canonical(rules, rules.read(fen).value, Ucis(line)) == Some(line)
    ensures moves.Returned? && PlayedOut(rules, fen, line, moves.value)
  {
    CanonicalSplits(rules, rules.read(fen).value, Ucis(line), []);
    CanonicalIsNotBlank(rules, rules.read(fen).value, Ucis(line));
    assert Replays(rules, fen, Ucis(line));
    hide *;
    moves := ProjectSequenceMoves(rules, fen, line);
    if moves.Thrown? {
      return Thrown;
    }
    PlayedOutIsReal(rules, fen, line, moves.value);
    var ok := ValidateSequenceMoves(moves.value);
    if !ok {
      return Thrown;
    }
  }

  /** The snapshot of one offered line. */
  ghost predicate ShowsLine<P, M>(rules: Rules<P, M>, detail: Detail, line: MomentLine, r: Snapshot)
  {
    && detail.objectiveLines.Some? && IsOfferedLine(rules, detail.continuation, detail.objectiveLines.value, line)
    && PlayedOut(rules, line.initialFen, line.moves, r.moves)
    && r == Snapshot(detail.gameImportId, Line(line.kind), r.moves, line.orientation, detail.reviewMomentId, line.title)
  }

  /** The first line of a kind. */
  method FindLine(lines: seq<MomentLine>, kind: LineKind) returns (r: Option<MomentLine>)
    ensures r.Some? ==> r.value in lines && r.value.kind == kind
    ensures r.None? ==> forall line :: line in lines ==> line.kind != kind
  {
    for i := 0 to |lines|
      invariant forall k :: 0 <= k < i ==> lines[k].kind != kind
    {
      if lines[i].kind == kind {
        return Some(lines[i]);
      }
    }
    return None;
  }

  /** There is one snapshot of a kind: the line, its boards and its title are all determined. */
  lemma ShownOnce<P(!new), M(!new)>(rules: Rules<P, M>, detail: Detail, line: MomentLine, r: Snapshot,
                                    other: MomentLine, s: Snapshot)
    requires ShowsLine(rules, detail, line, r) && ShowsLine(rules, detail, other, s) && line.kind == other.kind
    ensures r == s
  {
    hide Shown;
    hide Offered;
    forall i | 0 <= i < |line.moves| ensures r.moves[i] == s.moves[i] {
      assert ShownAt(rules, rules.read(line.initialFen).value, line.moves, i, r.moves[i]);
      assert ShownAt(rules, rules.read(line.initialFen).value, line.moves, i, s.moves[i]);
    }
  }

  /**
   `projectMoveSequenceSnapshot`: absent exactly when the kind is not offered; of the offered kinds, exactly
   those whose snapshot the contract schema refuses throw.
   */
  method ProjectMoveSequenceSnapshot<P(!new), M(!new)>(rules: Rules<P, M>, schema: Snapshot -> bool, detail: Detail,
                                                       kind: LineKind)
    returns (r: Outcome<Snapshot>)
    requires Lawful(rules)
    ensures r.Missing? <==> !Offers(rules, detail, kind)
    ensures r.Returned? ==>
      exists line: MomentLine :: line.kind == kind && ShowsLine(rules, detail, line, r.value) && schema(r.value)
    ensures r.Thrown? ==>
      exists line: MomentLine, s :: line.kind == kind && ShowsLine(rules, detail, line, s) && !schema(s)
  {
    hide Lawful;
    hide Offered;
    hide IsOfferedLine;
    hide PlayedOut;
    hide Canonical;
    hide Blank;
    var lines := CanonicalLinesFrom(rules, detail.continuation, detail.objectiveLines);
    var found := FindLine(lines, kind);
    if found.None? {
      return Missing;
    }
    var line := found.value;
    assert IsOfferedLine(rules, detail.continuation, detail.objectiveLines.value, line);
    LineIsCanonical(rules, detail.continuation, detail.objectiveLines.value, line);
    var moves := PlayOutAndDecode(rules, line.initialFen, line.moves);
    if moves.Thrown? || Blank(line.title) {
      return Thrown;
    }
    var snapshot := Snapshot(detail.gameImportId, Line(kind), moves.value, line.orientation, detail.reviewMomentId,
      line.title);
    assert ShowsLine(rules, detail, line, snapshot);
    return if schema(snapshot) then Returned(snapshot) else Thrown;
  }

  lemma LineIsCanonical<P(!new), M(!new)>(rules: Rules<P, M>, origin: Origin, lines: ObjectiveLines, line: MomentLine)
    requires IsOfferedLine(rules, origin, lines, line)
    ensures Offered(rules, origin, lines, line.kind) && line.moves != [] && !Blank(line.title)
    ensures rules.read(line.initialFen).Some?
    ensures Canonical(rules, rules.read(line.initialFen).value, Ucis(line.moves)) == Some(line.moves)
  {
    OfferedLineReplays(rules, origin, lines, line);
    assert line.title[0] == Title(line.kind)[0];
  }

  /** `isUciLine`, on a path whose length is already checked. */
  predicate UciLine(uci: seq<string>)
  {
    forall i :: 0 <= i < |uci| ==> CanonicalUci(uci[i])
  }

  /** The snapshot of a Player Line: its own path, canonical notation, and the boards of the replay. */
  ghost predicate ShowsPlayerLine<P, M>(rules: Rules<P, M>, detail: Detail, uci: seq<string>, line: seq<LineMove>,
                                        r: Snapshot)
  {
    && rules.read(detail.continuation.fen).Some?
    && Canonical(rules, rules.read(detail.continuation.fen).value, uci) == Some(line)
    && PlayedOut(rules, detail.continuation.fen, line, r.moves)
    && r == Snapshot(detail.gameImportId, PlayerLine(uci), r.moves,
                     SequenceOrientation(detail.continuation), detail.reviewMomentId, "Your line")
  }

  /** What the shared decoder sees of a Player Line: the snapshot as an engine line's, without the path. */
  function AsEngineLine(s: Snapshot): Snapshot
  {
    s.(kind := Line(EngineBest))
  }

  /**
   `projectPlayerLineSequenceSnapshot`. A path of the wrong length, or one that does not replay, is absent.
   A path that replays is shown, unless the address pattern refuses the spelling of one of its moves or the
   contract schema refuses the snapshot.
   */
  method ProjectPlayerLineSequenceSnapshot<P(!new), M(!new)>(rules: Rules<P, M>, schema: Snapshot -> bool,
                                                             detail: Detail, uci: seq<string>)
    returns (r: Outcome<Snapshot>)
    requires Lawful(rules)
    ensures r.Missing? <==> !(1 <= |uci| <= 12 && Replays(rules, detail.continuation.fen, uci))
    ensures r.Returned? ==>
      UciLine(uci) && exists line :: ShowsPlayerLine(rules, detail, uci, line, r.value) && schema(AsEngineLine(r.value))
    ensures r.Thrown? ==>
      !UciLine(uci) || exists line, s :: ShowsPlayerLine(rules, detail, uci, line, s) && !schema(AsEngineLine(s))
  {
    hide Lawful;
    hide Replays;
    hide PlayedOut;
    hide Canonical;
    hide UciLine;
    hide NotatedAt;
    if |uci| < 1 || |uci| > 12 {
      return Missing;
    }
    var canonical := CanonicalMovesFromFen(rules, detail.continuation.fen, uci);
    if canonical.None? {
      return Missing;
    }
    var line := canonical.value;
    CanonicalNotates(rules, rules.read(detail.continuation.fen).value, uci);
    SamePath(rules, rules.read(detail.continuation.fen).value, uci, line);
    var moves := PlayOutAndDecode(rules, detail.continuation.fen, line);
    if moves.Thrown? || !UciLine(uci) {
      return Thrown;
    }
    var snapshot := Snapshot(detail.gameImportId, PlayerLine(Ucis(line)), moves.value,
                             SequenceOrientation(detail.continuation), detail.reviewMomentId, "Your line");
    assert ShowsPlayerLine(rules, detail, uci, line, snapshot);
    return if schema(AsEngineLine(snapshot)) then Returned(snapshot) else Thrown;
  }

  lemma SamePath<P, M>(rules: Rules<P, M>, p: P, ucis: seq<string>, line: seq<LineMove>)
    requires Canonical(rules, p, ucis) == Some(line)
    ensures Ucis(line) == ucis && |line| == |ucis|
  {
    CanonicalNotates(rules, p, ucis);
    forall i | 0 <= i < |ucis| ensures line[i].uci == ucis[i] {
      assert NotatedAt(rules, p, ucis, i, line[i]);
    }
  }

  // ----- A legal move whose spelling the address pattern refuses -----

  /** A lone pawn on e7, or the queen it has become on e8. */
  ghost function PromotionBoard(promoted: bool): seq<seq<Cell>>
  {
    var rank := Empties(4) + [Holds(Piece(Color.White, if promoted then Queen else Pawn))] + Empties(3);
    var empty := Empties(8);
    [if promoted then rank else empty, if promoted then empty else rank, empty, empty, empty, empty, empty, empty]
  }

  ghost function PromotionFen(promoted: bool): string
  {
    PrintBoard(PromotionBoard(promoted)) + [' '] + (if promoted then "b" else "w")
  }

  const UPPER_CASE_PROMOTION := "e7e8Q"

  /** A library that knows these two positions and reads an upper-case promotion letter. */
  ghost function PromotionRules(): Rules<bool, bool>
  {
    Rules(
      fen => if fen == PromotionFen(false) then Some(false) else if fen == PromotionFen(true) then Some(true) else None,
      uci => if uci == UPPER_CASE_PROMOTION then Some(true) else None,
      (p, _) => !p,
      (_, _) => true,
      (_, _) => "e8=Q",
      PromotionFen,
      PromotionBoard,
      p => if p then "black" else "white",
      _ => false,
      _ => None)
  }

  lemma PromotionFenPrintsBoard(promoted: bool)
    ensures IsBoard(PromotionBoard(promoted))
    ensures Split(PromotionFen(promoted), ' ')[0] == PrintBoard(PromotionBoard(promoted))
  {
    PromotionBoardIsBoard(promoted);
    hide PromotionBoard;
    PrintedBoardAvoids(PromotionBoard(promoted), ' ');
    hide PrintBoard;
    SplitFirst(PrintBoard(PromotionBoard(promoted)), if promoted then "b" else "w", ' ');
  }

  lemma PromotionFensDiffer()
    ensures PromotionFen(false) != PromotionFen(true) && PromotionFen(true) != ""
  {
    hide PrintBoard;
    hide PromotionBoard;
    var before, after := PromotionFen(false), PromotionFen(true);
    assert before[|before| - 1] == 'w' && after[|after| - 1] == 'b';
  }

  lemma PromotionMoveIsLawful(p: bool, uci: string)
    ensures LawfulMove(PromotionRules(), p, uci)
  {
    PromotionFensDiffer();
    hide PromotionFen;
    hide PromotionBoard;
    assert UPPER_CASE_PROMOTION[..2] == "e7" && UPPER_CASE_PROMOTION[2..4] == "e8";
    assert IsSquare("e7") && IsSquare("e8") && "e7"[1] != "e8"[1];
    assert "e8=Q"[0] == 'e' && !IsBlankChar('e');
  }

  lemma PromotionRulesAreLawful()
    ensures Lawful(PromotionRules())
  {
    var rules := PromotionRules();
    forall p ensures IsBoard(rules.board(p)) && Split(rules.fen(p), ' ')[0] == PrintBoard(rules.board(p)) {
      PromotionFenPrintsBoard(p);
    }
    hide LawfulMove;
    hide PromotionFen;
    hide PromotionBoard;
    hide PrintBoard;
    forall p, uci ensures LawfulMove(rules, p, uci) {
      PromotionMoveIsLawful(p, uci);
    }
  }

  lemma PromotionBoardIsBoard(promoted: bool)
    ensures IsBoard(PromotionBoard(promoted))
  {
  }

  /** Under lawful rules a one-move path can replay and still be refused by the address pattern. */
  lemma UpperCasePromotionIsRefused()
    ensures Lawful(PromotionRules())
    ensures Replays(PromotionRules(), PromotionFen(false), [UPPER_CASE_PROMOTION]) && !UciLine([UPPER_CASE_PROMOTION])
  {
    PromotionRulesAreLawful();
    hide PromotionFen;
    hide Lawful;
    assert PromotionRules().read(PromotionFen(false)) == Some(false);
    assert After(PromotionRules(), true, [UPPER_CASE_PROMOTION][1..]) == Some(true);
    assert UPPER_CASE_PROMOTION[4] == 'Q';
    assert [UPPER_CASE_PROMOTION][0] == UPPER_CASE_PROMOTION && !CanonicalUci(UPPER_CASE_PROMOTION);
  }
}
