/**
 The piece placement field of a FEN (section 16.1.3.1 of the PGN Specification and Implementation
 Guide) and its two readers: the contract decoder, which reprints every rank to enforce the canonical
 form, and the presentation parser, which only reads.
 */
module FenPlacement {
  import opened Optional
  import opened StrictSort
  import opened TextSplit

  datatype Color = White | Black

  datatype Role = Pawn | Knight | Bishop | Rook | Queen | King

  datatype Piece = Piece(color: Color, role: Role)

  datatype Cell = Empty | Holds(piece: Piece)

  /** Eight ranks of eight cells, the eighth rank first and each from the a-file on. */
  ghost predicate IsBoard(board: seq<seq<Cell>>)
  {
    |board| == 8 && forall r :: 0 <= r < 8 ==> |board[r]| == 8
  }

  // ----- Tokens -----

  /** The one character outside ASCII that lower-cases to a piece letter. */
  const KELVIN_SIGN: char := '\U{212A}'

  predicate IsDigit(c: char) { '1' <= c <= '8' }

  function DigitValue(c: char): nat
    requires IsDigit(c)
  {
    c as int - '0' as int
  }

  function Letter(p: Piece): char
  {
    match p.role
    case Pawn => if p.color.White? then 'P' else 'p'
    case Knight => if p.color.White? then 'N' else 'n'
    case Bishop => if p.color.White? then 'B' else 'b'
    case Rook => if p.color.White? then 'R' else 'r'
    case Queen => if p.color.White? then 'Q' else 'q'
    case King => if p.color.White? then 'K' else 'k'
  }

  /** The piece of a token, by its lower-case form and its case; the Kelvin sign reads as a white king. */
  function TokenPiece(c: char): Option<Piece>
  {
    match c
    case 'p' => Some(Piece(Black, Pawn))
    case 'P' => Some(Piece(White, Pawn))
    case 'n' => Some(Piece(Black, Knight))
    case 'N' => Some(Piece(White, Knight))
    case 'b' => Some(Piece(Black, Bishop))
    case 'B' => Some(Piece(White, Bishop))
    case 'r' => Some(Piece(Black, Rook))
    case 'R' => Some(Piece(White, Rook))
    case 'q' => Some(Piece(Black, Queen))
    case 'Q' => Some(Piece(White, Queen))
    case 'k' => Some(Piece(Black, King))
    case 'K' => Some(Piece(White, King))
    case _ => if c == KELVIN_SIGN then Some(Piece(White, King)) else None
  }

  /** The text with every Kelvin sign read as the letter it stands for. */
  function Fold(text: string): (r: string)
    ensures |r| == |text| && forall i :: 0 <= i < |r| ==> r[i] == FoldChar(text[i])
  {
    seq(|text|, i requires 0 <= i < |text| => FoldChar(text[i]))
  }

  function FoldChar(c: char): char
  {
    if c == KELVIN_SIGN then 'K' else c
  }

  // ----- Printing and reading one rank -----

  function Decimal(n: nat): string
  {
    if n < 10 then [('0' as int + n) as char] else Decimal(n / 10) + [('0' as int + n % 10) as char]
  }

  /** The number of empty cells, when there are any. */
  function Run(empty: nat): string
  {
    if empty == 0 then "" else Decimal(empty)
  }

  function PrintRank(cells: seq<Cell>, empty: nat): string
  {
    if cells == [] then Run(empty)
    else if cells[0].Empty? then PrintRank(cells[1..], empty + 1)
    else Run(empty) + [Letter(cells[0].piece)] + PrintRank(cells[1..], 0)
  }

  function Empties(n: nat): (cells: seq<Cell>)
    ensures |cells| == n && forall i :: 0 <= i < n ==> cells[i].Empty?
  {
    seq(n, _ => Empty)
  }

  /** The cells one token stands for; `None` for a foreign token. */
  function TokenCells(c: char): Option<seq<Cell>>
  {
    if IsDigit(c) then Some(Empties(DigitValue(c)))
    else if TokenPiece(c).Some? then Some([Holds(TokenPiece(c).value)])
    else None
  }

  /** The cells of a rank text, token by token; `None` when a token is foreign. */
  function Expand(text: string): Option<seq<Cell>>
  {
    if text == [] then Some([]) else Both(TokenCells(text[0]), Expand(text[1..]))
  }

  function Both(a: Option<seq<Cell>>, b: Option<seq<Cell>>): Option<seq<Cell>>
  {
    if a.Some? && b.Some? then Some(a.value + b.value) else None
  }

  /** What the reprinting loop builds from a text, with `empty` cells not yet written. */
  function Reprint(text: string, empty: nat): string
  {
    if text == [] then Run(empty)
    else if IsDigit(text[0]) then Reprint(text[1..], empty + DigitValue(text[0]))
    else Run(empty) + [text[0]] + Reprint(text[1..], 0)
  }

  ghost predicate CanonicalRank(text: string)
  {
    Expand(text).Some? && |Expand(text).value| == 8 && Reprint(text, 0) == text
  }

  // ----- Squares -----

  datatype OccupiedSquare = OccupiedSquare(square: string, piece: Piece)

  function SquareName(file: nat, rankIndex: nat): string
    requires file < 8 && rankIndex < 8
  {
    [('a' as int + file) as char, ('8' as int - rankIndex) as char]
  }

  /** `squareIndex`: a1 is 0, h1 is 7, a8 is 56. */
  function SquareIndex(square: string): int
    requires |square| == 2
  {
    (square[1] as int - '1' as int) * 8 + square[0] as int - 'a' as int
  }

  lemma SquareIndexOf(file: nat, rankIndex: nat)
    requires file < 8 && rankIndex < 8
    ensures SquareIndex(SquareName(file, rankIndex)) == (7 - rankIndex) * 8 + file
  {
  }

  /** The occupied squares of a rank, from `file` on. */
  function RankPieces(cells: seq<Cell>, file: nat, rankIndex: nat): seq<OccupiedSquare>
    requires file + |cells| <= 8 && rankIndex < 8
  {
    if cells == [] then []
    else CellPieces(cells[0], file, rankIndex) + RankPieces(cells[1..], file + 1, rankIndex)
  }

  function CellPieces(cell: Cell, file: nat, rankIndex: nat): seq<OccupiedSquare>
    requires file < 8 && rankIndex < 8
  {
    if cell.Holds? then [OccupiedSquare(SquareName(file, rankIndex), cell.piece)] else []
  }

  /** Reading order: from the eighth rank down. */
  function BoardPieces(board: seq<seq<Cell>>, n: nat): seq<OccupiedSquare>
    requires |board| <= 8 && n <= |board| && forall r :: 0 <= r < |board| ==> |board[r]| == 8
  {
    if n == 0 then [] else BoardPieces(board, n - 1) + RankPieces(board[n - 1], 0, n - 1)
  }

  /** Square order: from the first rank up. */
  function AscendingPieces(board: seq<seq<Cell>>, from: nat): seq<OccupiedSquare>
    requires |board| == 8 && from <= 8 && forall r :: 0 <= r < 8 ==> |board[r]| == 8
    decreases 8 - from
  {
    if from == 8 then [] else AscendingPieces(board, from + 1) + RankPieces(board[from], 0, from)
  }

  // ----- Reading one rank -----

  lemma {:induction false} ExpandAppend(a: string, b: string)
    ensures Expand(a + b) == Both(Expand(a), Expand(b))
  {
    if a == [] {
      assert a + b == b;
      assert Expand(b).Some? ==> [] + Expand(b).value == Expand(b).value;
    } else {
      assert (a + b)[1..] == a[1..] + b;
      ExpandAppend(a[1..], b);
      BothAssociates(TokenCells(a[0]), Expand(a[1..]), Expand(b));
    }
  }

  lemma BothAssociates(a: Option<seq<Cell>>, b: Option<seq<Cell>>, c: Option<seq<Cell>>)
    ensures Both(Both(a, b), c) == Both(a, Both(b, c))
  {
    if a.Some? && b.Some? && c.Some? {
      assert a.value + b.value + c.value == a.value + (b.value + c.value);
    }
  }

  lemma {:induction false} RankPiecesAppend(a: seq<Cell>, b: seq<Cell>, file: nat, rankIndex: nat)
    requires file + |a| + |b| <= 8 && rankIndex < 8
    ensures RankPieces(a + b, file, rankIndex) == RankPieces(a, file, rankIndex) + RankPieces(b, file + |a|, rankIndex)
  {
    if a == [] {
      assert a + b == b;
    } else {
      assert (a + b)[1..] == a[1..] + b;
      RankPiecesAppend(a[1..], b, file + 1, rankIndex);
      var x, y, z := CellPieces(a[0], file, rankIndex), RankPieces(a[1..], file + 1, rankIndex),
        RankPieces(b, file + |a|, rankIndex);
      assert x + (y + z) == x + y + z;
    }
  }

  lemma {:induction false} NoPieces(n: nat, file: nat, rankIndex: nat)
    requires file + n <= 8 && rankIndex < 8
    ensures RankPieces(Empties(n), file, rankIndex) == []
  {
    if n > 0 {
      assert Empties(n)[1..] == Empties(n - 1);
      NoPieces(n - 1, file + 1, rankIndex);
    }
  }

  /** Once a rank is too long or holds a foreign token, no continuation makes it canonical. */
  lemma Hopeless(text: string, i: nat)
    requires i <= |text|
    requires Expand(text[..i]).None? || |Expand(text[..i]).value| > 8
    ensures Expand(text).None? || |Expand(text).value| > 8
  {
    assert text == text[..i] + text[i..];
    ExpandAppend(text[..i], text[i..]);
  }

  lemma OneToken(c: char)
    ensures Expand([c]) == TokenCells(c)
  {
    assert [c][1..] == [] && Expand([]) == Some([]);
    assert TokenCells(c).Some? ==> TokenCells(c).value + [] == TokenCells(c).value;
  }

  lemma OnePiece(cell: Cell, file: nat, rankIndex: nat)
    requires file < 8 && rankIndex < 8
    ensures RankPieces([cell], file, rankIndex) == CellPieces(cell, file, rankIndex)
  {
    assert [cell][1..] == [];
  }

  lemma NextToken(text: string, i: nat)
    requires i < |text|
    ensures text[..i + 1] == text[..i] + [text[i]] && text[i..] == [text[i]] + text[i + 1..]
  {
  }

  /** The state of the rank loop after reading `seen`. */
  ghost predicate Reading(seen: string, rest: string, rank: string, file: nat, empty: nat, canonicalRank: string)
  {
    && Expand(seen).Some? && |Expand(seen).value| == file
    && Reprint(rank, 0) == canonicalRank + Reprint(rest, empty)
  }

  lemma ReadDigit(seen: string, c: char, rest: string, rank: string, file: nat, empty: nat, canonicalRank: string,
                  rankIndex: nat)
    requires Reading(seen, [c] + rest, rank, file, empty, canonicalRank) && IsDigit(c) && rankIndex < 8
    ensures Reading(seen + [c], rest, rank, file + DigitValue(c), empty + DigitValue(c), canonicalRank)
    ensures file + DigitValue(c) <= 8 ==>
      RankPieces(Expand(seen + [c]).value, 0, rankIndex) == RankPieces(Expand(seen).value, 0, rankIndex)
  {
    ExpandAppend(seen, [c]);
    OneToken(c);
    assert ([c] + rest)[1..] == rest;
    if file + DigitValue(c) <= 8 {
      RankPiecesAppend(Expand(seen).value, Empties(DigitValue(c)), 0, rankIndex);
      NoPieces(DigitValue(c), file, rankIndex);
    }
  }

  lemma ReadPiece(seen: string, c: char, rest: string, rank: string, file: nat, empty: nat, canonicalRank: string,
                  rankIndex: nat)
    requires Reading(seen, [c] + rest, rank, file, empty, canonicalRank)
    requires !IsDigit(c) && TokenPiece(c).Some? && file < 8 && rankIndex < 8
    ensures Reading(seen + [c], rest, rank, file + 1, 0, canonicalRank + Run(empty) + [c])
    ensures RankPieces(Expand(seen + [c]).value, 0, rankIndex)
         == RankPieces(Expand(seen).value, 0, rankIndex) +
           [OccupiedSquare(SquareName(file, rankIndex), TokenPiece(c).value)]
  {
    var cell := Holds(TokenPiece(c).value);
    ExpandAppend(seen, [c]);
    OneToken(c);
    assert ([c] + rest)[1..] == rest;
    assert canonicalRank + (Run(empty) + [c] + Reprint(rest, 0)) == canonicalRank + Run(empty) + [c] + Reprint(rest, 0);
    RankPiecesAppend(Expand(seen).value, [cell], 0, rankIndex);
    OnePiece(cell, file, rankIndex);
  }

  /** The rank loop of `validateCanonicalPositionFields`: false stands for a thrown ContractDecodeError. */
  method ValidateRank(rank: string, rankIndex: nat, before: seq<OccupiedSquare>)
    returns (ok: bool, occupied: seq<OccupiedSquare>)
    requires rankIndex < 8
    ensures ok <==> CanonicalRank(rank)
    ensures ok ==> occupied == before + RankPieces(Expand(rank).value, 0, rankIndex)
  {
    hide RankPieces;
    hide Expand;
    hide Reprint;
    var file, empty := 0, 0;
    var canonicalRank := "";
    occupied := before;
    StartReading(rank, rankIndex);
    for i := 0 to |rank|
      invariant Reading(rank[..i], rank[i..], rank, file, empty, canonicalRank)
      invariant file <= 8 ==> occupied == before + RankPieces(Expand(rank[..i]).value, 0, rankIndex)
    {
      var token := rank[i];
      NextToken(rank, i);
      if IsDigit(token) {
        ReadDigit(rank[..i], token, rank[i + 1..], rank, file, empty, canonicalRank, rankIndex);
        var count := DigitValue(token);
        file := file + count;
        empty := empty + count;
        continue;
      }
      if TokenPiece(token).None? || file >= 8 {
        ForeignOrTooLong(rank[..i], token);
        Hopeless(rank, i + 1);
        return false, occupied;
      }
      ReadPiece(rank[..i], token, rank[i + 1..], rank, file, empty, canonicalRank, rankIndex);
      if empty > 0 {
        canonicalRank := canonicalRank + Decimal(empty);
      }
      empty := 0;
      canonicalRank := canonicalRank + [token];
      occupied := occupied + [OccupiedSquare(SquareName(file, rankIndex), TokenPiece(token).value)];
      file := file + 1;
    }
    EndReading(rank, file, empty, canonicalRank);
    if empty > 0 {
      canonicalRank := canonicalRank + Decimal(empty);
    }
    if file != 8 || canonicalRank != rank {
      return false, occupied;
    }
    return true, occupied;
  }

  lemma StartReading(rank: string, rankIndex: nat)
    requires rankIndex < 8
    ensures Reading(rank[..0], rank[0..], rank, 0, 0, "") && RankPieces(Expand(rank[..0]).value, 0, rankIndex) == []
  {
    assert rank[..0] == [] && rank[0..] == rank;
    assert "" + Reprint(rank, 0) == Reprint(rank, 0);
  }

  lemma EndReading(rank: string, file: nat, empty: nat, canonicalRank: string)
    requires Reading(rank[..|rank|], rank[|rank|..], rank, file, empty, canonicalRank)
    ensures Expand(rank).Some? && |Expand(rank).value| == file && rank[..|rank|] == rank
    ensures Reprint(rank, 0) == canonicalRank + Run(empty)
  {
    assert rank[..|rank|] == rank && rank[|rank|..] == [];
  }

  lemma ForeignOrTooLong(seen: string, c: char)
    requires Expand(seen).Some? && !IsDigit(c)
    ensures Expand(seen + [c]).None? || |Expand(seen + [c]).value| == |Expand(seen).value| + 1
    ensures TokenPiece(c).None? ==> Expand(seen + [c]).None?
  {
    ExpandAppend(seen, [c]);
    OneToken(c);
  }

  // ----- The canonical rank texts are exactly the printed ranks -----

  lemma {:induction false} PrintThenExpand(cells: seq<Cell>, empty: nat)
    requires empty + |cells| <= 8
    ensures Expand(PrintRank(cells, empty)) == Some(Empties(empty) + cells)
  {
    hide Run;
    hide Expand;
    if cells == [] {
      ExpandRun(empty);
      assert Empties(empty) + [] == Empties(empty);
    } else if cells[0].Empty? {
      PrintThenExpand(cells[1..], empty + 1);
      assert Empties(empty + 1) + cells[1..] == Empties(empty) + cells;
    } else {
      PrintThenExpand(cells[1..], 0);
      assert Empties(0) + cells[1..] == cells[1..];
      ExpandAroundLetter(empty, cells[0].piece, PrintRank(cells[1..], 0));
      assert Empties(empty) + [cells[0]] + cells[1..] == Empties(empty) + cells;
    }
  }

  lemma ExpandAroundLetter(empty: nat, p: Piece, rest: string)
    requires empty <= 8 && Expand(rest).Some?
    ensures Expand(Run(empty) + [Letter(p)] + rest) == Some(Empties(empty) + [Holds(p)] + Expand(rest).value)
  {
    ExpandRun(empty);
    LetterReads(p);
    OneToken(Letter(p));
    ExpandAppend(Run(empty), [Letter(p)]);
    ExpandAppend(Run(empty) + [Letter(p)], rest);
  }

  lemma LetterReads(p: Piece)
    ensures !IsDigit(Letter(p)) && TokenPiece(Letter(p)) == Some(p) && Letter(p) != KELVIN_SIGN
  {
  }

  lemma ExpandRun(empty: nat)
    requires empty <= 8
    ensures Expand(Run(empty)) == Some(Empties(empty))
    ensures |Run(empty)| == if empty > 0 then 1 else 0
    ensures forall c :: c in Run(empty) ==> IsDigit(c)
  {
    if empty == 0 {
      assert Empties(0) == [];
    } else {
      var c := ('0' as int + empty) as char;
      assert Run(empty) == [c] && IsDigit(c) && DigitValue(c) == empty;
      OneToken(c);
    }
  }

  lemma {:induction false} PrintEmpties(n: nat, cells: seq<Cell>, empty: nat)
    ensures PrintRank(Empties(n) + cells, empty) == PrintRank(cells, empty + n)
  {
    if n == 0 {
      assert Empties(0) + cells == cells;
    } else {
      assert (Empties(n) + cells)[1..] == Empties(n - 1) + cells;
      PrintEmpties(n - 1, cells, empty + 1);
    }
  }

  lemma FoldAppend(a: string, b: string)
    ensures Fold(a + b) == Fold(a) + Fold(b)
  {
  }

  lemma {:induction false} FoldReads(text: string)
    ensures Expand(Fold(text)) == Expand(text)
  {
    if text != [] {
      assert Fold(text)[1..] == Fold(text[1..]);
      FoldReads(text[1..]);
    }
  }

  /** The reprinted text is the canonical print of what was read. */
  lemma {:induction false} ReprintPrints(text: string, empty: nat)
    requires Expand(text).Some? && empty + |Expand(text).value| <= 8
    ensures Fold(Reprint(text, empty)) == PrintRank(Expand(text).value, empty)
  {
    if text == [] {
      RunFolds(empty);
    } else {
      var c, rest := text[0], text[1..];
      if IsDigit(c) {
        ReprintPrints(rest, empty + DigitValue(c));
        PrintEmpties(DigitValue(c), Expand(rest).value, empty);
      } else {
        ReprintPrints(rest, 0);
        RunFolds(empty);
        FoldAppend(Run(empty) + [c], Reprint(rest, 0));
        FoldAppend(Run(empty), [c]);
        assert Fold([c]) == [Letter(TokenPiece(c).value)];
        assert Expand(text).value[1..] == Expand(rest).value;
      }
    }
  }

  lemma RunFolds(empty: nat)
    requires empty <= 8
    ensures Fold(Run(empty)) == Run(empty)
  {
  }

  /** Reprinting never lengthens a text, and shortens it unless it changes nothing. */
  lemma {:induction false} ReprintShortens(text: string, empty: nat)
    requires Expand(text).Some? && empty + |Expand(text).value| <= 8
    ensures empty == 0 ==>
      |Reprint(text, empty)| <= |text| && (|Reprint(text, empty)| == |text| ==> Reprint(text, empty) == text)
    ensures empty > 0 ==>
      |Reprint(text, empty)| <= |text| + 1 &&
        (|Reprint(text, empty)| == |text| + 1 ==> Reprint(text, empty) == Run(empty) + text)
  {
    ExpandRun(empty);
    if text != [] {
      var c, rest := text[0], text[1..];
      assert text == [c] + rest;
      if IsDigit(c) {
        ReprintShortens(rest, empty + DigitValue(c));
        assert Run(DigitValue(c)) == [c];
      } else {
        ReprintShortens(rest, 0);
        assert Run(empty) + [c] + rest == Run(empty) + text;
      }
    }
  }

  /** The rank loop accepts exactly the printed ranks, reading the Kelvin sign as K. */
  lemma CanonicalRankIffPrinted(text: string)
    ensures CanonicalRank(text) <==> exists cells :: |cells| == 8 && Fold(text) == PrintRank(cells, 0)
    ensures CanonicalRank(text) ==> Fold(text) == PrintRank(Expand(text).value, 0)
  {
    if CanonicalRank(text) {
      ReprintPrints(text, 0);
      assert |Expand(text).value| == 8 && Fold(text) == PrintRank(Expand(text).value, 0);
    }
    if cells :| |cells| == 8 && Fold(text) == PrintRank(cells, 0) {
      PrintThenExpand(cells, 0);
      assert Empties(0) + cells == cells;
      FoldReads(text);
      ReprintPrints(text, 0);
      ReprintShortens(text, 0);
    }
  }

  // ----- Whole boards -----

  ghost function PrintRanks(board: seq<seq<Cell>>): (texts: seq<string>)
    ensures |texts| == |board| && forall r :: 0 <= r < |board| ==> texts[r] == PrintRank(board[r], 0)
  {
    seq(|board|, r requires 0 <= r < |board| => PrintRank(board[r], 0))
  }

  ghost function PrintBoard(board: seq<seq<Cell>>): string
    requires board != []
  {
    Join(PrintRanks(board), '/')
  }

  function Ranks(text: string): (ranks: seq<string>)
    ensures ranks != []
  {
    Split(text, '/')
  }

  /** Eight rank texts that both readers can read. */
  ghost predicate Readable(text: string)
  {
    |Ranks(text)| == 8 && forall r :: 0 <= r < 8 ==> Expand(Ranks(text)[r]).Some? && |Expand(Ranks(text)[r]).value| == 8
  }

  ghost function BoardOf(text: string): (board: seq<seq<Cell>>)
    requires Readable(text)
    ensures IsBoard(board) && forall r :: 0 <= r < 8 ==> board[r] == Expand(Ranks(text)[r]).value
  {
    seq(8, r requires 0 <= r < 8 => Expand(Ranks(text)[r]).value)
  }

  ghost predicate CanonicalPlacement(text: string)
  {
    |Ranks(text)| == 8 && forall r :: 0 <= r < 8 ==> CanonicalRank(Ranks(text)[r])
  }

  /** The characters of a printed rank: digits and piece letters. */
  predicate IsPlacementChar(c: char)
  {
    IsDigit(c) || (c != KELVIN_SIGN && TokenPiece(c).Some?)
  }

  lemma {:induction false} PrintedChars(cells: seq<Cell>, empty: nat)
    requires empty + |cells| <= 8
    ensures forall c :: c in PrintRank(cells, empty) ==> IsPlacementChar(c)
  {
    ExpandRun(empty);
    if cells != [] {
      if cells[0].Empty? {
        PrintedChars(cells[1..], empty + 1);
      } else {
        LetterReads(cells[0].piece);
        PrintedChars(cells[1..], 0);
      }
    }
  }

  lemma {:induction false} RanksOfFold(text: string)
    ensures |Ranks(Fold(text))| == |Ranks(text)|
    ensures forall r :: 0 <= r < |Ranks(text)| ==> Ranks(Fold(text))[r] == Fold(Ranks(text)[r])
  {
    if text != [] {
      assert Fold(text)[1..] == Fold(text[1..]);
      RanksOfFold(text[1..]);
      assert Fold([]) == [];
    }
  }

  lemma PrintedBoardSplits(board: seq<seq<Cell>>)
    requires IsBoard(board)
    ensures Ranks(PrintBoard(board)) == PrintRanks(board)
  {
    forall r | 0 <= r < 8 ensures '/' !in PrintRanks(board)[r] {
      PrintedChars(board[r], 0);
    }
    SplitInvertsJoin(PrintRanks(board), '/');
  }

  /**
   The rank loop alone accepts a placement text exactly when it is the canonical print of a board with some
   of its white kings perhaps written as Kelvin signs; the board is the one both readers read.
   */
  lemma CanonicalIffPrinted(text: string)
    ensures CanonicalPlacement(text) <==> exists board :: IsBoard(board) && Fold(text) == PrintBoard(board)
    ensures CanonicalPlacement(text) ==> Readable(text) && Fold(text) == PrintBoard(BoardOf(text))
  {
    RanksOfFold(text);
    if CanonicalPlacement(text) {
      var board := BoardOf(text);
      forall r | 0 <= r < 8 ensures Ranks(Fold(text))[r] == PrintRanks(board)[r] {
        CanonicalRankIffPrinted(Ranks(text)[r]);
      }
      assert Ranks(Fold(text)) == PrintRanks(board);
      JoinInvertsSplit(Fold(text), '/');
    }
    if board :| IsBoard(board) && Fold(text) == PrintBoard(board) {
      PrintedBoardSplits(board);
      forall r | 0 <= r < 8 ensures CanonicalRank(Ranks(text)[r]) {
        assert Fold(Ranks(text)[r]) == PrintRank(board[r], 0);
        CanonicalRankIffPrinted(Ranks(text)[r]);
      }
    }
  }

  /** Every board printed canonically is accepted and reads back as itself. */
  lemma PrintedBoardReadsBack(board: seq<seq<Cell>>)
    requires IsBoard(board)
    ensures CanonicalPlacement(PrintBoard(board)) && BoardOf(PrintBoard(board)) == board
  {
    PrintedBoardSplits(board);
    forall r | 0 <= r < 8
      ensures CanonicalRank(PrintRanks(board)[r]) && Expand(PrintRanks(board)[r]) == Some(board[r])
    {
      PrintThenExpand(board[r], 0);
      assert Empties(0) + board[r] == board[r];
      PlainFold(PrintRanks(board)[r], board[r]);
      CanonicalRankIffPrinted(PrintRanks(board)[r]);
    }
  }

  lemma PlainFold(text: string, cells: seq<Cell>)
    requires |cells| == 8 && text == PrintRank(cells, 0)
    ensures Fold(text) == text
  {
    PrintedChars(cells, 0);
    assert forall i :: 0 <= i < |text| ==> text[i] in text;
  }

  /** A printed board holds no character but digits, piece letters and slashes. */
  lemma PrintedBoardAvoids(board: seq<seq<Cell>>, c: char)
    requires IsBoard(board) && !IsPlacementChar(c) && c != '/'
    ensures c !in PrintBoard(board)
  {
    forall p | p in PrintRanks(board) ensures c !in p {
      var r :| 0 <= r < 8 && PrintRanks(board)[r] == p;
      PrintedChars(board[r], 0);
    }
    JoinAvoids(PrintRanks(board), '/', c);
  }

  /** What the rank loop alone accepts is literally a printed board exactly when it holds no Kelvin sign. */
  lemma PrintedIffNoKelvin(text: string)
    requires CanonicalPlacement(text)
    ensures (exists board :: IsBoard(board) && text == PrintBoard(board)) <==> KELVIN_SIGN !in text
  {
    CanonicalIffPrinted(text);
    if board :| IsBoard(board) && text == PrintBoard(board) {
      PrintedBoardAvoids(board, KELVIN_SIGN);
    }
    if KELVIN_SIGN !in text {
      assert Fold(text) == text;
    }
  }

  /** The rank loop alone does take such a text: a lone white king written with the Kelvin sign. */
  lemma RankLoopTakesKelvin()
    ensures exists text :: CanonicalPlacement(text) && KELVIN_SIGN in text
  {
    var first := [Holds(Piece(White, King))] + Empties(7);
    var empty := Empties(8);
    var board := [first, empty, empty, empty, empty, empty, empty, empty];
    var printed := PrintBoard(board);
    PrintedBoardAvoids(board, KELVIN_SIGN);
    assert PrintRanks(board)[0] == PrintRank(first, 0) && PrintRank(first, 0)[0] == 'K';
    assert printed[0] == 'K';
    var text := [KELVIN_SIGN] + printed[1..];
    forall i | 0 <= i < |text| ensures Fold(text)[i] == printed[i] {
      assert printed[i] in printed;
    }
    assert Fold(text) == printed;
    CanonicalIffPrinted(text);
    assert text[0] == KELVIN_SIGN;
  }

  // ----- Square order -----

  predicate SquareBelow(a: OccupiedSquare, b: OccupiedSquare)
  {
    |a.square| == 2 && |b.square| == 2 && SquareIndex(a.square) < SquareIndex(b.square)
  }

  lemma SquareOrder()
    ensures IsOrder(SquareBelow)
  {
  }

  /** The piece of one cell of a rank. */
  ghost predicate OnRank(cells: seq<Cell>, i: nat, file: nat, rankIndex: nat, o: OccupiedSquare)
    requires file + |cells| <= 8 && rankIndex < 8
  {
    i < |cells| && cells[i].Holds? && o == OccupiedSquare(SquareName(file + i, rankIndex), cells[i].piece)
  }

  /** The listed squares of a rank are exactly its occupied cells. */
  lemma {:induction false} RankMembers(cells: seq<Cell>, file: nat, rankIndex: nat, o: OccupiedSquare)
    requires file + |cells| <= 8 && rankIndex < 8
    ensures o in RankPieces(cells, file, rankIndex) <==> exists i: nat :: OnRank(cells, i, file, rankIndex, o)
  {
    if cells != [] {
      RankMembers(cells[1..], file + 1, rankIndex, o);
      if o in RankPieces(cells[1..], file + 1, rankIndex) {
        var i: nat :| OnRank(cells[1..], i, file + 1, rankIndex, o);
        assert OnRank(cells, i + 1, file, rankIndex, o);
      } else if o in CellPieces(cells[0], file, rankIndex) {
        assert OnRank(cells, 0, file, rankIndex, o);
      } else if i: nat :| OnRank(cells, i, file, rankIndex, o) {
        assert i > 0 ==> OnRank(cells[1..], i - 1, file + 1, rankIndex, o);
      }
    }
  }

  /** The squares of a rank are listed in square order and stay on the rank. */
  lemma {:induction false} RankAscending(cells: seq<Cell>, file: nat, rankIndex: nat)
    requires file + |cells| <= 8 && rankIndex < 8
    ensures forall o :: o in RankPieces(cells, file, rankIndex) ==>
      |o.square| == 2 && (7 - rankIndex) * 8 + file <= SquareIndex(o.square) < (7 - rankIndex) * 8 + 8
    ensures Ascending(SquareBelow, RankPieces(cells, file, rankIndex))
  {
    if cells != [] {
      var rest := RankPieces(cells[1..], file + 1, rankIndex);
      RankAscending(cells[1..], file + 1, rankIndex);
      SquareIndexOf(file, rankIndex);
      if cells[0].Holds? {
        var head := OccupiedSquare(SquareName(file, rankIndex), cells[0].piece);
        assert forall o :: o in rest ==> SquareBelow(head, o);
        AscendingCons(SquareBelow, head, rest);
      } else {
        assert RankPieces(cells, file, rankIndex) == rest;
      }
    }
  }

  lemma AscendingJoin(a: seq<OccupiedSquare>, b: seq<OccupiedSquare>)
    requires Ascending(SquareBelow, a) && Ascending(SquareBelow, b)
    requires forall x, y :: x in a && y in b ==> SquareBelow(x, y)
    ensures Ascending(SquareBelow, a + b)
  {
  }

  lemma ComparableJoin(a: seq<OccupiedSquare>, b: seq<OccupiedSquare>)
    requires Comparable(SquareBelow, a) && Comparable(SquareBelow, b)
    requires forall x, y :: x in a && y in b ==> SquareBelow(y, x)
    ensures Comparable(SquareBelow, a + b)
  {
  }

  lemma {:induction false} AscendingPiecesOrder(board: seq<seq<Cell>>, from: nat)
    requires IsBoard(board) && from <= 8
    ensures Ascending(SquareBelow, AscendingPieces(board, from))
    ensures forall o :: o in AscendingPieces(board, from) ==> |o.square| == 2 && SquareIndex(o.square) < (8 - from) * 8
    ensures forall o :: o in AscendingPieces(board, from) <==>
      exists r :: from <= r < 8 && o in RankPieces(board[r], 0, r)
    decreases 8 - from
  {
    hide RankPieces;
    hide SquareIndex;
    if from < 8 {
      AscendingPiecesOrder(board, from + 1);
      RankAscending(board[from], 0, from);
      AscendingJoin(AscendingPieces(board, from + 1), RankPieces(board[from], 0, from));
    }
  }

  lemma {:induction false} BoardPiecesOrder(board: seq<seq<Cell>>, n: nat)
    requires IsBoard(board) && n <= 8
    ensures Comparable(SquareBelow, BoardPieces(board, n))
    ensures forall o :: o in BoardPieces(board, n) ==> |o.square| == 2 && SquareIndex(o.square) >= (8 - n) * 8
    ensures forall o :: o in BoardPieces(board, n) <==> exists r :: 0 <= r < n && o in RankPieces(board[r], 0, r)
  {
    hide RankPieces;
    hide SquareIndex;
    if n > 0 {
      BoardPiecesOrder(board, n - 1);
      RankAscending(board[n - 1], 0, n - 1);
      ComparableJoin(BoardPieces(board, n - 1), RankPieces(board[n - 1], 0, n - 1));
    }
  }

  /** Sorting the squares as read, from the eighth rank down, lists them from a1 to h8. */
  lemma SortedIsAscending(board: seq<seq<Cell>>)
    requires IsBoard(board)
    ensures Sort(SquareBelow, BoardPieces(board, 8)) == AscendingPieces(board, 0)
  {
    SquareOrder();
    AscendingPiecesOrder(board, 0);
    BoardPiecesOrder(board, 8);
    SortAscending(SquareBelow, BoardPieces(board, 8));
    AscendingUnique(SquareBelow, Sort(SquareBelow, BoardPieces(board, 8)), AscendingPieces(board, 0));
  }

  /** The ascending list holds exactly the occupied cells of the board. */
  lemma AscendingPiecesAreTheOccupied(board: seq<seq<Cell>>, o: OccupiedSquare)
    requires IsBoard(board)
    ensures o in AscendingPieces(board, 0) <==>
      exists r: nat, i: nat :: r < 8 && OnRank(board[r], i, 0, r, o)
  {
    AscendingPiecesOrder(board, 0);
    if o in AscendingPieces(board, 0) {
      var r: nat :| r < 8 && o in RankPieces(board[r], 0, r);
      RankMembers(board[r], 0, r, o);
    }
    if r: nat, i: nat :| r < 8 && OnRank(board[r], i, 0, r, o) {
      RankMembers(board[r], 0, r, o);
      assert o in RankPieces(board[r], 0, r);
    }
  }

  // ----- The two readers -----

  /**
   The rank loop of `validateCanonicalPositionFields`: it accepts exactly the canonical texts, and then the
   occupied squares are listed from a1 to h8.
   */
  method ValidatePlacement(boardField: string) returns (ok: bool, occupied: seq<OccupiedSquare>)
    ensures ok <==> CanonicalPlacement(boardField)
    ensures ok ==> Readable(boardField) && occupied == AscendingPieces(BoardOf(boardField), 0)
  {
    hide Expand;
    hide Reprint;
    hide RankPieces;
    hide PiecesOf;
    hide BoardPieces;
    hide AscendingPieces;
    var ranks := Ranks(boardField);
    occupied := [];
    NoPiecesYet(ranks);
    if |ranks| != 8 {
      return false, occupied;
    }
    for rankIndex := 0 to 8
      invariant forall r :: 0 <= r < rankIndex ==> CanonicalRank(ranks[r])
      invariant occupied == PiecesOf(ranks, rankIndex)
    {
      ok, occupied := ValidateRank(ranks[rankIndex], rankIndex, occupied);
      if !ok {
        return;
      }
      MorePieces(ranks, rankIndex);
    }
    PiecesOfBoard(boardField, 8);
    SortedIsAscending(BoardOf(boardField));
    return true, Sort(SquareBelow, occupied);
  }

  /** What is assumed of the chess library: what it prints is the canonical print of a board. */
  ghost predicate PrintsBoards(reprint: string -> Option<string>)
  {
    forall text :: reprint(text).Some? ==> exists board :: IsBoard(board) && reprint(text).value == PrintBoard(board)
  }

  /**
   The decoder's whole look at the placement: the chess library must read it and print it back unchanged,
   and then the rank loop runs. The comparison leaves the loop nothing to refuse, no Kelvin sign passes it,
   and the occupied squares are those of the one board that prints as the text.
   */
  method DecodePlacement(reprint: string -> Option<string>, boardField: string)
    returns (ok: bool, occupied: seq<OccupiedSquare>)
    requires PrintsBoards(reprint)
    ensures ok <==> reprint(boardField) == Some(boardField)
    ensures ok ==> KELVIN_SIGN !in boardField
    ensures ok ==> forall board :: IsBoard(board) && boardField == PrintBoard(board) ==>
      occupied == AscendingPieces(board, 0)
    ensures ok ==> exists board :: IsBoard(board) && boardField == PrintBoard(board)
  {
    hide AscendingPieces;
    hide BoardOf;
    hide CanonicalPlacement;
    if reprint(boardField) != Some(boardField) {
      return false, [];
    }
    ghost var board :| IsBoard(board) && boardField == PrintBoard(board);
    PrintedBoardReadsBack(board);
    PrintedIffNoKelvin(boardField);
    forall other | IsBoard(other) && boardField == PrintBoard(other) ensures other == board {
      PrintedBoardReadsBack(other);
    }
    ok, occupied := ValidatePlacement(boardField);
  }

  lemma NoPiecesYet(ranks: seq<string>)
    ensures PiecesOf(ranks, 0) == []
  {
  }

  lemma MorePieces(ranks: seq<string>, n: nat)
    requires n < |ranks| && n < 8 && Expand(ranks[n]).Some? && |Expand(ranks[n]).value| == 8
    ensures PiecesOf(ranks, n + 1) == PiecesOf(ranks, n) + RankPieces(Expand(ranks[n]).value, 0, n)
    ensures PresentedAll(PiecesOf(ranks, n + 1)) ==
      PresentedAll(PiecesOf(ranks, n)) + PresentedAll(RankPieces(Expand(ranks[n]).value, 0, n))
  {
  }

  /** The squares of the first `n` rank texts, as far as they read. */
  ghost function PiecesOf(ranks: seq<string>, n: nat): seq<OccupiedSquare>
    requires n <= |ranks| && n <= 8
  {
    if n == 0 then []
    else
      var cells := Expand(ranks[n - 1]);
      PiecesOf(ranks, n - 1) + if cells.Some? && |cells.value| <= 8 then RankPieces(cells.value, 0, n - 1) else []
  }

  lemma {:induction false} PiecesOfBoard(text: string, n: nat)
    requires Readable(text) && n <= 8
    ensures PiecesOf(Ranks(text), n) == BoardPieces(BoardOf(text), n)
  {
    if n > 0 {
      PiecesOfBoard(text, n - 1);
    }
  }

  datatype PresentationPiece = PresentationPiece(pieceId: string, square: string, piece: Piece)

  function ColorName(c: Color): string { if c.White? then "white" else "black" }

  function RoleName(r: Role): string
  {
    match r
    case Pawn => "pawn"
    case Knight => "knight"
    case Bishop => "bishop"
    case Rook => "rook"
    case Queen => "queen"
    case King => "king"
  }

  function Presented(o: OccupiedSquare): PresentationPiece
  {
    PresentationPiece(ColorName(o.piece.color) + ":" + RoleName(o.piece.role) + ":" + o.square, o.square, o.piece)
  }

  function PresentedAll(os: seq<OccupiedSquare>): (ps: seq<PresentationPiece>)
    ensures |ps| == |os| && forall i :: 0 <= i < |ps| ==> ps[i] == Presented(os[i])
  {
    seq(|os|, i requires 0 <= i < |os| => Presented(os[i]))
  }

  /** `presentationPiecesFromFen` on the placement field: it reads eight full ranks, canonical or not. */
  method PresentationPieces(placement: string) returns (ok: bool, pieces: seq<PresentationPiece>)
    ensures ok <==> Readable(placement)
    ensures ok ==> pieces == PresentedAll(BoardPieces(BoardOf(placement), 8))
  {
    hide Expand;
    hide RankPieces;
    hide PiecesOf;
    hide BoardPieces;
    hide Presented;
    var ranks := Ranks(placement);
    pieces := [];
    NoPiecesYet(ranks);
    if |ranks| != 8 {
      return false, pieces;
    }
    for rankIndex := 0 to 8
      invariant forall r :: 0 <= r < rankIndex ==> Expand(ranks[r]).Some? && |Expand(ranks[r]).value| == 8
      invariant pieces == PresentedAll(PiecesOf(ranks, rankIndex))
    {
      ok, pieces := PresentRank(ranks[rankIndex], rankIndex, pieces);
      if !ok {
        return;
      }
      MorePieces(ranks, rankIndex);
    }
    PiecesOfBoard(placement, 8);
    return true, pieces;
  }

  method PresentRank(symbols: string, rankIndex: nat, before: seq<PresentationPiece>)
    returns (ok: bool, pieces: seq<PresentationPiece>)
    requires rankIndex < 8
    ensures ok <==> Expand(symbols).Some? && |Expand(symbols).value| == 8
    ensures ok ==> pieces == before + PresentedAll(RankPieces(Expand(symbols).value, 0, rankIndex))
  {
    hide RankPieces;
    hide Expand;
    hide Reprint;
    var fileIndex: nat := 0;
    pieces := before;
    StartReading(symbols, rankIndex);
    ghost var empty: nat := 0;
    ghost var canonicalRank := "";
    for i := 0 to |symbols|
      invariant Reading(symbols[..i], symbols[i..], symbols, fileIndex, empty, canonicalRank)
      invariant fileIndex <= 8 ==> pieces == before + PresentedAll(RankPieces(Expand(symbols[..i]).value, 0, rankIndex))
    {
      var symbol := symbols[i];
      NextToken(symbols, i);
      if IsDigit(symbol) {
        ReadDigit(symbols[..i], symbol, symbols[i + 1..], symbols, fileIndex, empty, canonicalRank, rankIndex);
        fileIndex, empty := fileIndex + DigitValue(symbol), empty + DigitValue(symbol);
        continue;
      }
      if TokenPiece(symbol).None? || fileIndex > 7 {
        ForeignOrTooLong(symbols[..i], symbol);
        Hopeless(symbols, i + 1);
        return false, pieces;
      }
      ReadPiece(symbols[..i], symbol, symbols[i + 1..], symbols, fileIndex, empty, canonicalRank, rankIndex);
      canonicalRank, empty := canonicalRank + Run(empty) + [symbol], 0;
      pieces := pieces + [Presented(OccupiedSquare(SquareName(fileIndex, rankIndex), TokenPiece(symbol).value))];
      fileIndex := fileIndex + 1;
    }
    EndReading(symbols, fileIndex, empty, canonicalRank);
    return fileIndex == 8, pieces;
  }

  /**
   On every text the decoder accepts, the two readers list the same pieces: one in square order, one in
   reading order.
   */
  lemma ReadersAgree(text: string, o: OccupiedSquare)
    requires CanonicalPlacement(text)
    ensures Readable(text)
    ensures o in AscendingPieces(BoardOf(text), 0) <==> Presented(o) in PresentedAll(BoardPieces(BoardOf(text), 8))
    ensures |PresentedAll(BoardPieces(BoardOf(text), 8))| == |AscendingPieces(BoardOf(text), 0)|
  {
    CanonicalIffPrinted(text);
    hide CanonicalPlacement;
    hide Readable;
    hide BoardPieces;
    hide AscendingPieces;
    hide Sort;
    var board := BoardOf(text);
    var read := BoardPieces(board, 8);
    SortedIsAscending(board);
    assert o in AscendingPieces(board, 0) <==> o in read;
    if o in read {
      var i :| 0 <= i < |read| && read[i] == o;
      assert PresentedAll(read)[i] == Presented(o);
    }
    if Presented(o) in PresentedAll(read) {
      var i :| 0 <= i < |read| && PresentedAll(read)[i] == Presented(o);
      assert read[i].square == o.square && read[i].piece == o.piece;
    }
  }
}
