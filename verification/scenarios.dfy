/** Whole games. `TopRowWin` and `FullBoardDraw` chain board-level clicks, passing
    the player to move by hand; `ThreeMoves` and `JumpDiscardsFuture` play through
    the controller from the initial state. */
module Scenarios {
  import opened Squares
  import opened WinEvaluator
  import opened BoardLogic
  import opened GameController

  /** None of the eight lines is complete, spelled out line by line. */
  predicate NoLine(b: Board)
  {
    && !Same(b, 0, 1, 2) && !Same(b, 3, 4, 5) && !Same(b, 6, 7, 8)
    && !Same(b, 0, 3, 6) && !Same(b, 1, 4, 7) && !Same(b, 2, 5, 8)
    && !Same(b, 0, 4, 8) && !Same(b, 2, 4, 6)
  }

  /** The spelled-out test agrees with the evaluator's list of lines. */
  lemma NoLineHasNoWinner(b: Board)
    requires NoLine(b)
    ensures !HasCompleteLine(b)
  {
  }

  /** With position `cm` (holding `before`) on display, a click on an empty square
      of a board with no complete line keeps entries `0..cm`, appends `after` and
      points at it. */
  lemma AcceptedAt(hs: seq<Board>, cm: nat, before: Board, i: nat, after: Board)
    requires cm < |hs| && hs[cm] == before
    requires i < |before| && before[i] == Empty && NoLine(before)
    requires after == before[i := Mark(cm % 2 == 0)]
    ensures Click(Game(hs, cm), i) == Game(hs[..cm + 1] + [after], cm + 1)
  {
  }

  /** The same, when the last entry of the history is on display. */
  lemma Accepted(hs: seq<Board>, before: Board, i: nat, after: Board)
    requires |hs| > 0 && hs[|hs| - 1] == before
    requires i < |before| && before[i] == Empty && NoLine(before)
    requires after == before[i := Mark((|hs| - 1) % 2 == 0)]
    ensures Click(Game(hs, |hs| - 1), i) == Game(hs + [after], |hs|)
  {
  }

  /** On a board with no complete line, a click on an empty square writes the mover's mark. */
  lemma ClickAccepted(b: Board, xIsNext: bool, i: nat, after: Board)
    requires i < |b| && b[i] == Empty && NoLine(b)
    requires after == b[i := Mark(xIsNext)]
    ensures HandleClick(b, xIsNext, i) == Some(after)
  {
  }

  const E := Empty

  /** X takes 0, O takes 3, X takes 1, O takes 4, X takes 2: every click is
      accepted, X completes the top row, the status names X, and a further
      click is ignored. */
  lemma TopRowWin()
    ensures var b0, b1, b2 := EmptyBoard, [X, E, E, E, E, E, E, E, E], [X, E, E, O, E, E, E, E, E];
      var b3, b4, b5 := [X, X, E, O, E, E, E, E, E], [X, X, E, O, O, E, E, E, E], [X, X, X, O, O, E, E, E, E];
      && HandleClick(b0, true, 0) == Some(b1)
      && HandleClick(b1, false, 3) == Some(b2)
      && HandleClick(b2, true, 1) == Some(b3)
      && HandleClick(b3, false, 4) == Some(b4)
      && HandleClick(b4, true, 2) == Some(b5)
      && CalculateWinner(b5) == Some(Line(0, 1, 2))
      && GameStatus(b5, false) == Winner(X)
      && HandleClick(b5, false, 8) == None
  {
    var b0, b1, b2 := EmptyBoard, [X, E, E, E, E, E, E, E, E], [X, E, E, O, E, E, E, E, E];
    var b3, b4, b5 := [X, X, E, O, E, E, E, E, E], [X, X, E, O, O, E, E, E, E], [X, X, X, O, O, E, E, E, E];
    ClickAccepted(b0, true, 0, b1);
    ClickAccepted(b1, false, 3, b2);
    ClickAccepted(b2, true, 1, b3);
    ClickAccepted(b3, false, 4, b4);
    ClickAccepted(b4, true, 2, b5);
    FirstCompleteIsWinner(b5, 0);
  }

  /** Nine accepted clicks, ending in X O X / X O O / O X X with no complete line:
      the status is a draw. */
  lemma FullBoardDraw()
    ensures var b0, b1, b2 := EmptyBoard, [X, E, E, E, E, E, E, E, E], [X, O, E, E, E, E, E, E, E];
      var b3, b4, b5 := [X, O, X, E, E, E, E, E, E], [X, O, X, E, O, E, E, E, E], [X, O, X, X, O, E, E, E, E];
      var b6, b7, b8 := [X, O, X, X, O, O, E, E, E], [X, O, X, X, O, O, E, X, E], [X, O, X, X, O, O, O, X, E];
      var b9 := [X, O, X, X, O, O, O, X, X];
      && HandleClick(b0, true, 0) == Some(b1)
      && HandleClick(b1, false, 1) == Some(b2)
      && HandleClick(b2, true, 2) == Some(b3)
      && HandleClick(b3, false, 4) == Some(b4)
      && HandleClick(b4, true, 3) == Some(b5)
      && HandleClick(b5, false, 5) == Some(b6)
      && HandleClick(b6, true, 7) == Some(b7)
      && HandleClick(b7, false, 6) == Some(b8)
      && HandleClick(b8, true, 8) == Some(b9)
      && CalculateWinner(b9) == None
      && GameStatus(b9, false) == Draw
  {
    var b0, b1, b2 := EmptyBoard, [X, E, E, E, E, E, E, E, E], [X, O, E, E, E, E, E, E, E];
    var b3, b4, b5 := [X, O, X, E, E, E, E, E, E], [X, O, X, E, O, E, E, E, E], [X, O, X, X, O, E, E, E, E];
    var b6, b7, b8 := [X, O, X, X, O, O, E, E, E], [X, O, X, X, O, O, E, X, E], [X, O, X, X, O, O, O, X, E];
    var b9 := [X, O, X, X, O, O, O, X, X];
    ClickAccepted(b0, true, 0, b1);
    ClickAccepted(b1, false, 1, b2);
    ClickAccepted(b2, true, 2, b3);
    ClickAccepted(b3, false, 4, b4);
    ClickAccepted(b4, true, 3, b5);
    ClickAccepted(b5, false, 5, b6);
    ClickAccepted(b6, true, 7, b7);
    ClickAccepted(b7, false, 6, b8);
    ClickAccepted(b8, true, 8, b9);
    NoLineHasNoWinner(b9);
  }

  /** X takes 0, O takes 4, X takes 8: four snapshots, the last one on display. */
  lemma ThreeMoves()
    ensures Click(Click(Click(Initial(), 0), 4), 8) == Game([
      EmptyBoard,
      [X, E, E, E, E, E, E, E, E],
      [X, E, E, E, O, E, E, E, E],
      [X, E, E, E, O, E, E, E, X]], 3)
  {
    var b0, b1 := EmptyBoard, [X, E, E, E, E, E, E, E, E];
    var b2, b3 := [X, E, E, E, O, E, E, E, E], [X, E, E, E, O, E, E, E, X];
    Accepted([b0], b0, 0, b1);
    assert Click(Initial(), 0) == Game([b0, b1], 1);
    Accepted([b0, b1], b1, 4, b2);
    assert Click(Game([b0, b1], 1), 4) == Game([b0, b1, b2], 2);
    Accepted([b0, b1, b2], b2, 8, b3);
  }

  /** After those three moves, jumping back to move 1 and playing square 2 drops
      the old moves 2 and 3 and records the new board as move 2. */
  lemma JumpDiscardsFuture()
    ensures var g := Click(Click(Click(Initial(), 0), 4), 8);
      && |g.history| == 4 && g.currentMove == 3
      && var j := JumpTo(g, 1);
      && CurrentSquares(j) == g.history[1]
      && var r := Click(j, 2);
      && |r.history| == 3
      && r.currentMove == 2
      && r.history[..2] == g.history[..2]
      && r.history[2] == [X, E, O, E, E, E, E, E, E]
  {
    var b0, b1 := EmptyBoard, [X, E, E, E, E, E, E, E, E];
    var b2, b3 := [X, E, E, E, O, E, E, E, E], [X, E, E, E, O, E, E, E, X];
    ThreeMoves();
    AcceptedAt([b0, b1, b2, b3], 1, b1, 2, [X, E, O, E, E, E, E, E, E]);
    assert [b0, b1, b2, b3][..2] == [b0, b1];
  }
}
