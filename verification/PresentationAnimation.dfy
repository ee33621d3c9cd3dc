/**
 The frame-by-frame check of a presentation animation. A board is a map from piece id to square;
 every frame lists the placements it ends with and the removals and motions that lead there.
 */
module PresentationAnimation {
  import opened BlankText

  datatype Placement = Placement(pieceId: string, square: string)

  datatype Motion = Motion(pieceId: string, from: string, to: string)

  datatype Frame = Frame(
    index: int, moveLabel: string, durationMs: int,
    motions: seq<Motion>, removedPieceIds: seq<string>, placements: seq<Placement>)

  datatype Animation = Animation(version: string, lineId: string, reviewMomentId: string, frames: seq<Frame>)

  datatype Moment = Moment(momentId: string, pieces: seq<Placement>)

  datatype Presentation = Presentation(version: string, moments: seq<Moment>)

  type Board = map<string, string>

  // ----- Sequences as sets and maps -----

  function PlacementIds(ps: seq<Placement>): (r: seq<string>)
    ensures |r| == |ps| && forall i :: 0 <= i < |r| ==> r[i] == ps[i].pieceId
  {
    seq(|ps|, i requires 0 <= i < |ps| => ps[i].pieceId)
  }

  function PlacementSquares(ps: seq<Placement>): (r: seq<string>)
    ensures |r| == |ps| && forall i :: 0 <= i < |r| ==> r[i] == ps[i].square
  {
    seq(|ps|, i requires 0 <= i < |ps| => ps[i].square)
  }

  function MotionIds(ms: seq<Motion>): (r: seq<string>)
    ensures |r| == |ms| && forall i :: 0 <= i < |r| ==> r[i] == ms[i].pieceId
  {
    seq(|ms|, i requires 0 <= i < |ms| => ms[i].pieceId)
  }

  predicate Distinct(values: seq<string>)
  {
    forall i, j :: 0 <= i < j < |values| ==> values[i] != values[j]
  }

  /** `new Map(placements.map(p => [p.pieceId, p]))`: the last placement of an id wins. */
  function BoardOf(ps: seq<Placement>): Board
  {
    if ps == [] then map[] else BoardOf(ps[..|ps| - 1])[ps[|ps| - 1].pieceId := ps[|ps| - 1].square]
  }

  // ----- What a frame says -----

  /** Pieces that vanish. */
  function Vanished(before: Board, after: Board): set<string>
  {
    before.Keys - after.Keys
  }

  /** The one motion of each surviving piece whose square changed. */
  function Changes(before: Board, after: Board): set<Motion>
  {
    set id | id in before.Keys && id in after.Keys && before[id] != after[id] :: Motion(id, before[id], after[id])
  }

  function SetOf<T(==)>(values: seq<T>): set<T>
  {
    set v | v in values
  }

  /** The deltas of a frame are exactly the difference of two boards, each listed once, and no piece appears. */
  ghost predicate ExactDeltas(before: Board, frame: Frame)
  {
    var after := BoardOf(frame.placements);
    && Distinct(PlacementIds(frame.placements)) && Distinct(PlacementSquares(frame.placements))
    && Distinct(MotionIds(frame.motions)) && Distinct(frame.removedPieceIds)
    && SetOf(frame.removedPieceIds) == Vanished(before, after)
    && SetOf(frame.motions) == Changes(before, after)
    && after.Keys <= before.Keys
  }

  ghost predicate FrameOk(before: Board, frame: Frame, index: int)
  {
    frame.index == index && !Blank(frame.moveLabel) && 100 <= frame.durationMs <= 2_000 && ExactDeltas(before, frame)
  }

  /** Board before frame `i`. */
  function BoardBefore(initial: Board, frames: seq<Frame>, i: nat): Board
    requires i <= |frames|
  {
    if i == 0 then initial else BoardOf(frames[i - 1].placements)
  }

  function TotalDuration(frames: seq<Frame>): int
  {
    if frames == [] then 0 else TotalDuration(frames[..|frames| - 1]) + frames[|frames| - 1].durationMs
  }

  ghost predicate FramesOk(initial: Board, frames: seq<Frame>)
  {
    forall i :: 0 <= i < |frames| ==> FrameOk(BoardBefore(initial, frames, i), frames[i], i)
  }

  // ----- The validator -----

  /** `requireUnique`: the set of the values is as large as the list. */
  predicate Unique(values: seq<string>)
  {
    |SetOf(values)| == |values|
  }

  lemma {:induction false} UniqueIffDistinct(values: seq<string>)
    ensures |SetOf(values)| <= |values|
    ensures Unique(values) <==> Distinct(values)
  {
    if values == [] {
      assert SetOf(values) == {};
    } else {
      var n := |values| - 1;
      var front, last := values[..n], values[n];
      UniqueIffDistinct(front);
      assert values == front + [last];
      assert SetOf(values) == SetOf(front) + {last};
      if last in SetOf(front) {
        var i :| 0 <= i < n && front[i] == last;
        assert values[i] == values[n];
        assert SetOf(values) == SetOf(front);
      } else {
        assert forall i :: 0 <= i < n ==> values[i] in SetOf(front);
        assert Distinct(front) ==> Distinct(values);
        assert forall i, j :: 0 <= i < j < n ==> front[i] == values[i] && front[j] == values[j];
      }
    }
  }

  /** One frame against the board before it; false stands for a thrown ContractDecodeError. */
  method ValidateDeltas(before: Board, frame: Frame) returns (ok: bool)
    ensures ok <==> ExactDeltas(before, frame)
  {
    UniqueIffDistinct(PlacementIds(frame.placements));
    UniqueIffDistinct(PlacementSquares(frame.placements));
    UniqueIffDistinct(MotionIds(frame.motions));
    UniqueIffDistinct(frame.removedPieceIds);
    if !Unique(PlacementIds(frame.placements)) || !Unique(PlacementSquares(frame.placements)) {
      return false;
    }
    if !Unique(MotionIds(frame.motions)) || !Unique(frame.removedPieceIds) {
      return false;
    }
    var after := BoardOf(frame.placements);
    ok := MotionsMove(before, after, frame.motions);
    if !ok {
      MotionMissing(before, after, frame.motions);
      return;
    }
    ok := RemovalsVanish(before, after, frame.removedPieceIds);
    if !ok {
      assert exists id ::
        id in frame.removedPieceIds && id in SetOf(frame.removedPieceIds) && id !in Vanished(before, after);
      return;
    }
    AccountedIffExact(before, after, frame.motions, frame.removedPieceIds);
    ok := EveryPieceAccounted(before, after, SetOf(MotionIds(frame.motions)), SetOf(frame.removedPieceIds));
    if !ok {
      return;
    }
    ok := NoPieceAppears(before, after);
  }

  /** The motion moves a piece from its prior square to its new one. */
  predicate Moves(before: Board, after: Board, m: Motion)
  {
    m.pieceId in before && m.pieceId in after && before[m.pieceId] == m.from && after[m.pieceId] == m.to &&
      m.from != m.to
  }

  method MotionsMove(before: Board, after: Board, motions: seq<Motion>) returns (ok: bool)
    ensures ok <==> forall m :: m in motions ==> Moves(before, after, m)
  {
    for i := 0 to |motions|
      invariant forall j :: 0 <= j < i ==> Moves(before, after, motions[j])
    {
      if !Moves(before, after, motions[i]) {
        return false;
      }
    }
    return true;
  }

  method RemovalsVanish(before: Board, after: Board, removed: seq<string>) returns (ok: bool)
    ensures ok <==> forall id :: id in removed ==> id in before && id !in after
  {
    for i := 0 to |removed|
      invariant forall j :: 0 <= j < i ==> removed[j] in before && removed[j] !in after
    {
      if removed[i] !in before || removed[i] in after {
        return false;
      }
    }
    return true;
  }

  /** A vanished piece is listed as removed; a surviving one is listed as moving just when its square changed. */
  predicate Accounted(before: Board, after: Board, motionIds: set<string>, removedIds: set<string>, id: string)
    requires id in before
  {
    if id !in after then id in removedIds
    else if before[id] == after[id] then id !in motionIds
    else id in motionIds
  }

  method EveryPieceAccounted(before: Board, after: Board, motionIds: set<string>, removedIds: set<string>)
    returns (ok: bool)
    ensures ok <==> forall id :: id in before ==> Accounted(before, after, motionIds, removedIds, id)
  {
    var pending := before.Keys;
    while pending != {}
      invariant pending <= before.Keys
      invariant forall id :: id in before && id !in pending ==> Accounted(before, after, motionIds, removedIds, id)
      decreases pending
    {
      var id :| id in pending;
      if !Accounted(before, after, motionIds, removedIds, id) {
        return false;
      }
      pending := pending - {id};
    }
    return true;
  }

  method NoPieceAppears(before: Board, after: Board) returns (ok: bool)
    ensures ok <==> after.Keys <= before.Keys
  {
    var pending := after.Keys;
    while pending != {}
      invariant pending <= after.Keys
      invariant forall id :: id in after && id !in pending ==> id in before
      decreases pending
    {
      var id :| id in pending;
      if id !in before {
        return false;
      }
      pending := pending - {id};
    }
    return true;
  }

  /** The three scans together say that removals and motions are exactly the difference of the boards. */
  lemma AccountedIffExact(before: Board, after: Board, motions: seq<Motion>, removed: seq<string>)
    requires forall m :: m in motions ==> Moves(before, after, m)
    requires forall id :: id in removed ==> id in before && id !in after
    ensures (forall id :: id in before ==> Accounted(before, after, SetOf(MotionIds(motions)), SetOf(removed), id))
       <==> SetOf(removed) == Vanished(before, after) && SetOf(motions) == Changes(before, after)
  {
    var ids := SetOf(MotionIds(motions));
    forall id ensures id in ids <==> exists m :: m in motions && m.pieceId == id {
      if id in ids {
        var i :| 0 <= i < |motions| && MotionIds(motions)[i] == id;
        assert motions[i] in motions;
      }
      if m :| m in motions && m.pieceId == id {
        var i :| 0 <= i < |motions| && motions[i] == m;
        assert MotionIds(motions)[i] == id;
      }
    }
    if forall id :: id in before ==> Accounted(before, after, ids, SetOf(removed), id) {
      forall id | id in Vanished(before, after) ensures id in SetOf(removed) {
        assert Accounted(before, after, ids, SetOf(removed), id);
      }
      forall c | c in Changes(before, after) ensures c in SetOf(motions) {
        assert Accounted(before, after, ids, SetOf(removed), c.pieceId);
        var m :| m in motions && m.pieceId == c.pieceId;
        assert m == c;
      }
    }
    if SetOf(removed) == Vanished(before, after) && SetOf(motions) == Changes(before, after) {
      forall id | id in before ensures Accounted(before, after, ids, SetOf(removed), id) {
        if id in after && before[id] != after[id] {
          assert Motion(id, before[id], after[id]) in Changes(before, after);
        }
      }
    }
  }

  /** A motion that does not move its piece is not a change. */
  lemma MotionMissing(before: Board, after: Board, motions: seq<Motion>)
    requires exists m :: m in motions && !Moves(before, after, m)
    ensures SetOf(motions) != Changes(before, after)
  {
    var m :| m in motions && !Moves(before, after, m);
    assert m in SetOf(motions) && m !in Changes(before, after);
  }

  method ValidateFrame(before: Board, frame: Frame, index: int) returns (ok: bool)
    ensures ok <==> FrameOk(before, frame, index)
  {
    if frame.index != index || Blank(frame.moveLabel) || frame.durationMs < 100 || frame.durationMs > 2_000 {
      return false;
    }
    ok := ValidateDeltas(before, frame);
  }

  /** The moment the animation starts from; the source looks up the first of that id. */
  function InitialMoment(moments: seq<Moment>, id: string): (m: Moment)
    requires exists i :: 0 <= i < |moments| && moments[i].momentId == id
    ensures m in moments && m.momentId == id
  {
    if moments[0].momentId == id then moments[0] else InitialMoment(moments[1..], id)
  }

  /** What makes an animation acceptable. */
  ghost predicate AnimationOk(p: Presentation, a: Animation)
  {
    && !Blank(a.lineId) && a.version == p.version
    && (exists i :: 0 <= i < |p.moments| && p.moments[i].momentId == a.reviewMomentId)
    && 1 <= |a.frames| <= 8 && TotalDuration(a.frames) <= 8_000
    && FramesOk(BoardOf(InitialMoment(p.moments, a.reviewMomentId).pieces), a.frames)
  }

  /** `validatePresentationAnimation`. */
  method ValidatePresentationAnimation(p: Presentation, a: Animation) returns (ok: bool)
    ensures ok <==> AnimationOk(p, a)
  {
    if Blank(a.lineId) || a.version != p.version {
      return false;
    }
    if !exists i :: 0 <= i < |p.moments| && p.moments[i].momentId == a.reviewMomentId {
      return false;
    }
    if |a.frames| == 0 || |a.frames| > 8 {
      return false;
    }
    if TotalDuration(a.frames) > 8_000 {
      return false;
    }
    ok := ValidateFrames(InitialMoment(p.moments, a.reviewMomentId).pieces, a.frames);
  }

  /** The loop over the frames, which carries the placements of the frame before. */
  method ValidateFrames(pieces: seq<Placement>, frames: seq<Frame>) returns (ok: bool)
    ensures ok <==> FramesOk(BoardOf(pieces), frames)
  {
    hide FrameOk;
    ghost var initial := BoardOf(pieces);
    var previousPlacements := pieces;
    for index := 0 to |frames|
      invariant BoardOf(previousPlacements) == BoardBefore(initial, frames, index)
      invariant forall i :: 0 <= i < index ==> FrameOk(BoardBefore(initial, frames, i), frames[i], i)
    {
      ok := ValidateFrame(BoardOf(previousPlacements), frames[index], index);
      if !ok {
        return;
      }
      previousPlacements := frames[index].placements;
    }
    return true;
  }

  // ----- Replaying the deltas -----

  /** The board after removing the listed pieces and moving each listed piece to its target. */
  function ApplyDeltas(board: Board, frame: Frame): Board
  {
    ApplyMotions(board - SetOf(frame.removedPieceIds), frame.motions)
  }

  function ApplyMotions(board: Board, motions: seq<Motion>): Board
    decreases |motions|
  {
    if motions == [] then board else ApplyMotions(board[motions[0].pieceId := motions[0].to], motions[1..])
  }

  function Replay(board: Board, frames: seq<Frame>): Board
  {
    if frames == [] then board else ApplyDeltas(Replay(board, frames[..|frames| - 1]), frames[|frames| - 1])
  }

  /** No two pieces share a square. */
  ghost predicate OnePiecePerSquare(board: Board)
  {
    forall a, b :: a in board && b in board && a != b ==> board[a] != board[b]
  }

  lemma {:induction false} Untouched(board: Board, motions: seq<Motion>, id: string)
    requires forall m :: m in motions ==> m.pieceId != id
    ensures var r := ApplyMotions(board, motions);
            (id in r <==> id in board) && (id in board ==> r[id] == board[id])
    decreases |motions|
  {
    if motions != [] {
      Untouched(board[motions[0].pieceId := motions[0].to], motions[1..], id);
    }
  }

  lemma {:induction false} Placed(board: Board, motions: seq<Motion>, i: nat)
    requires Distinct(MotionIds(motions)) && i < |motions|
    ensures var r := ApplyMotions(board, motions);
            motions[i].pieceId in r && r[motions[i].pieceId] == motions[i].to
    decreases |motions|
  {
    var m, rest := motions[0], motions[1..];
    assert forall k :: 0 <= k < |motions| ==> MotionIds(motions)[k] == motions[k].pieceId;
    if i == 0 {
      Untouched(board[m.pieceId := m.to], rest, m.pieceId);
    } else {
      assert Distinct(MotionIds(rest)) by {
        assert forall k :: 0 <= k < |rest| ==> MotionIds(rest)[k] == MotionIds(motions)[k + 1];
      }
      Placed(board[m.pieceId := m.to], rest, i - 1);
    }
  }

  /** Exact deltas carry the board before the frame to the frame's own placements. */
  lemma DeltasReachPlacements(before: Board, frame: Frame)
    requires ExactDeltas(before, frame)
    ensures ApplyDeltas(before, frame) == BoardOf(frame.placements)
  {
    var after, r := BoardOf(frame.placements), ApplyDeltas(before, frame);
    forall id ensures (id in r <==> id in after) && (id in after ==> r[id] == after[id]) {
      SamePiece(before, frame, id);
    }
    assert r.Keys == after.Keys;
  }

  lemma UnlistedUnchanged(before: Board, after: Board, motions: seq<Motion>, id: string)
    requires SetOf(motions) == Changes(before, after)
    requires forall i :: 0 <= i < |motions| ==> motions[i].pieceId != id
    ensures id in before && id in after ==> before[id] == after[id]
  {
    if id in before && id in after {
      var change := Motion(id, before[id], after[id]);
      assert change !in SetOf(motions);
    }
  }

  lemma SamePiece(before: Board, frame: Frame, id: string)
    requires ExactDeltas(before, frame)
    ensures var after, r := BoardOf(frame.placements), ApplyDeltas(before, frame);
            (id in r <==> id in after) && (id in after ==> r[id] == after[id])
  {
    var after := BoardOf(frame.placements);
    var kept := before - SetOf(frame.removedPieceIds);
    if i :| 0 <= i < |frame.motions| && frame.motions[i].pieceId == id {
      Placed(kept, frame.motions, i);
      assert frame.motions[i] in SetOf(frame.motions);
    } else {
      UnlistedUnchanged(before, after, frame.motions, id);
      Untouched(kept, frame.motions, id);
    }
  }

  lemma {:induction false} BoardIds(ps: seq<Placement>, id: string)
    requires id in BoardOf(ps)
    ensures exists i :: 0 <= i < |ps| && ps[i].pieceId == id
  {
    var n := |ps| - 1;
    if ps[n].pieceId != id {
      BoardIds(ps[..n], id);
      var i :| 0 <= i < n && ps[..n][i].pieceId == id;
      assert ps[i].pieceId == id;
    }
  }

  lemma {:induction false} BoardAt(ps: seq<Placement>, i: nat)
    requires Distinct(PlacementIds(ps)) && i < |ps|
    ensures ps[i].pieceId in BoardOf(ps) && BoardOf(ps)[ps[i].pieceId] == ps[i].square
  {
    var n := |ps| - 1;
    if i < n {
      assert forall k :: 0 <= k < |ps| ==> PlacementIds(ps)[k] == ps[k].pieceId;
      assert forall k :: 0 <= k < n ==> PlacementIds(ps[..n])[k] == PlacementIds(ps)[k];
      BoardAt(ps[..n], i);
    }
  }

  lemma DistinctSquares(ps: seq<Placement>)
    requires Distinct(PlacementIds(ps)) && Distinct(PlacementSquares(ps))
    ensures OnePiecePerSquare(BoardOf(ps))
  {
    forall a, b | a in BoardOf(ps) && b in BoardOf(ps) && a != b ensures BoardOf(ps)[a] != BoardOf(ps)[b] {
      BoardIds(ps, a);
      BoardIds(ps, b);
      var i: nat :| i < |ps| && ps[i].pieceId == a;
      var j: nat :| j < |ps| && ps[j].pieceId == b;
      BoardAt(ps, i);
      BoardAt(ps, j);
      assert PlacementSquares(ps)[i] == ps[i].square && PlacementSquares(ps)[j] == ps[j].square;
    }
  }

  /** The last frame is applied to the board the frames before it lead to. */
  lemma ReplayLast(initial: Board, frames: seq<Frame>, n: nat)
    requires 0 < n <= |frames|
    ensures Replay(initial, frames[..n]) == ApplyDeltas(Replay(initial, frames[..n - 1]), frames[n - 1])
  {
    hide ApplyDeltas;
    assert frames[..n][..n - 1] == frames[..n - 1] && frames[..n][n - 1] == frames[n - 1];
  }

  lemma FrameReaches(before: Board, frame: Frame, index: int)
    requires FrameOk(before, frame, index)
    ensures ApplyDeltas(before, frame) == BoardOf(frame.placements)
  {
    DeltasReachPlacements(before, frame);
  }

  lemma {:induction false} ReplayReaches(initial: Board, frames: seq<Frame>, n: nat)
    requires FramesOk(initial, frames) && n <= |frames|
    ensures Replay(initial, frames[..n]) == BoardBefore(initial, frames, n)
  {
    hide FrameOk;
    hide ApplyDeltas;
    hide BoardOf;
    if n > 0 {
      ReplayReaches(initial, frames, n - 1);
      ReplayLast(initial, frames, n);
      FrameReaches(BoardBefore(initial, frames, n - 1), frames[n - 1], n - 1);
    }
  }

  /**
   Acceptance means the deltas replay: folding the first n frames over the initial board gives exactly the
   placements of frame n, with one piece per square and no piece the initial board does not hold.
   */
  lemma AcceptedAnimationReplays(p: Presentation, a: Animation, n: nat)
    requires AnimationOk(p, a) && 1 <= n <= |a.frames|
    ensures var initial := BoardOf(InitialMoment(p.moments, a.reviewMomentId).pieces);
            var board := Replay(initial, a.frames[..n]);
            && board == BoardOf(a.frames[n - 1].placements)
            && OnePiecePerSquare(board)
            && board.Keys <= initial.Keys
  {
    var initial := BoardOf(InitialMoment(p.moments, a.reviewMomentId).pieces);
    ReplayReaches(initial, a.frames, n);
    assert FrameOk(BoardBefore(initial, a.frames, n - 1), a.frames[n - 1], n - 1);
    DistinctSquares(a.frames[n - 1].placements);
    PiecesOnlyVanish(initial, a.frames, n);
  }

  lemma FrameKeepsPieces(before: Board, frame: Frame, index: int)
    requires FrameOk(before, frame, index)
    ensures BoardOf(frame.placements).Keys <= before.Keys
  {
  }

  lemma {:induction false} PiecesOnlyVanish(initial: Board, frames: seq<Frame>, n: nat)
    requires FramesOk(initial, frames) && n <= |frames|
    ensures BoardBefore(initial, frames, n).Keys <= initial.Keys
  {
    hide FrameOk;
    if n > 0 {
      PiecesOnlyVanish(initial, frames, n - 1);
      FrameKeepsPieces(BoardBefore(initial, frames, n - 1), frames[n - 1], n - 1);
    }
  }
}
