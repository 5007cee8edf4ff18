/** The board component's logic: what a click on a square does, and the status line. */
module BoardLogic {
  import opened Squares
  import opened WinEvaluator

  /** A click on square `i` of `squares`. `None` means the click is ignored and
      `onPlay` is not called; `Some(next)` means `onPlay(next)` is called with
      a fresh copy of the board carrying the acting player's mark at `i`. */
  function HandleClick(squares: Board, xIsNext: bool, i: nat): (r: Option<Board>)
    requires i < |squares|
    ensures r.None? <==> squares[i] != Empty || HasCompleteLine(squares)
    ensures r.Some? ==> && |r.value| == |squares|
                        && r.value[i] == Mark(xIsNext)
                        && forall j :: 0 <= j < |squares| && j != i ==> r.value[j] == squares[j]
  {
    if squares[i] != Empty || CalculateWinner(squares).Some? then
      None
    else
      var nextSquares := squares;
      Some(nextSquares[i := Mark(xIsNext)])
  }

  /** An accepted click marks exactly one previously empty square. */
  lemma ClickMarksOneSquare(squares: Board, xIsNext: bool, i: nat)
    requires i < |squares|
    requires HandleClick(squares, xIsNext, i).Some?
    ensures squares[i] == Empty
    ensures Filled(HandleClick(squares, xIsNext, i).value) == Filled(squares) + 1
  {
    FilledAfterMark(squares, i, Mark(xIsNext));
  }

  /** The status line: "Winner: <mark>", "Draw the Game!!" or "Next player: <mark>". */
  datatype Status = Winner(mark: Cell) | Draw | Next(mark: Cell)

  /** The status the board shows. The draw test only looks at the number of
      squares, so a nine-square board with no complete line always reads as a
      draw, whether or not empty squares remain. */
  function GameStatus(squares: Board, xIsNext: bool): (r: Status)
    ensures r.Winner? <==> HasCompleteLine(squares)
    ensures r.Winner? ==> r.mark != Empty && exists k: nat :: FirstComplete(squares, k) && r.mark == At(squares, Lines[k].a)
    ensures r.Draw? <==> !HasCompleteLine(squares) && |squares| == Size
    ensures r.Next? <==> !HasCompleteLine(squares) && |squares| != Size
    ensures r.Next? ==> r.mark == Mark(xIsNext)
  {
    var winner := CalculateWinner(squares);
    var status := if winner.Some? then Winner(At(squares, winner.value.a)) else Next(Mark(xIsNext));
    if winner.None? && |squares| == Size then Draw else status
  }

  /** On a nine-square board the "Next player" status is never shown: without a
      complete line the status is a draw, even while empty squares remain. */
  lemma NextPlayerNeverShown(squares: Board, xIsNext: bool)
    requires |squares| == Size
    ensures !GameStatus(squares, xIsNext).Next?
    ensures !HasCompleteLine(squares) ==> GameStatus(squares, xIsNext) == Draw
  {
  }

  /** At the start of the game the empty board already reads as a draw. */
  lemma DrawAtGameStart()
    ensures GameStatus(EmptyBoard, true) == Draw
  {
  }

  /** The winner named in the status is the mark on the line the evaluator returns. */
  lemma StatusNamesWinningMark(squares: Board, xIsNext: bool)
    requires CalculateWinner(squares).Some?
    ensures GameStatus(squares, xIsNext) == Winner(At(squares, CalculateWinner(squares).value.b))
    ensures GameStatus(squares, xIsNext) == Winner(At(squares, CalculateWinner(squares).value.c))
  {
  }
}
