/** The win evaluator: which of the eight fixed lines, if any, is fully marked. */
module WinEvaluator {
  import opened Squares

  /** Three square indices that form a line on the board. */
  datatype Line = Line(a: nat, b: nat, c: nat)

  /** The eight lines in the order the evaluator tries them:
      three rows, three columns, then the two diagonals. */
  const Lines: seq<Line> := [
    Line(0, 1, 2), Line(3, 4, 5), Line(6, 7, 8),
    Line(0, 3, 6), Line(1, 4, 7), Line(2, 5, 8),
    Line(0, 4, 8), Line(2, 4, 6)
  ]

  /** Squares `i`, `j`, `k` all hold the same mark (the first one is not empty). */
  predicate Same(squares: Board, i: nat, j: nat, k: nat)
  {
    At(squares, i) != Empty && At(squares, i) == At(squares, j) && At(squares, i) == At(squares, k)
  }

  /** A line is complete when its three squares hold the same mark. */
  predicate Complete(squares: Board, l: Line)
  {
    Same(squares, l.a, l.b, l.c)
  }

  /** Some listed line is complete. */
  predicate HasCompleteLine(squares: Board)
  {
    exists k :: 0 <= k < |Lines| && Complete(squares, Lines[k])
  }

  /** `k` is the position of the first complete line in the listed order. */
  predicate FirstComplete(squares: Board, k: nat)
  {
    && k < |Lines|
    && Complete(squares, Lines[k])
    && forall j :: 0 <= j < k ==> !Complete(squares, Lines[j])
  }

  /** The evaluator's loop, from position `i` of the line list onwards:
      the position of the first complete line at or after `i`, if there is one. */
  function ScanFrom(squares: Board, i: nat): (r: Option<nat>)
    requires i <= |Lines|
    ensures r.Some? ==> i <= r.value && FirstCompleteFrom(squares, i, r.value)
    ensures r.None? ==> forall j :: i <= j < |Lines| ==> !Complete(squares, Lines[j])
    decreases |Lines| - i
  {
    if i == |Lines| then None
    else if Complete(squares, Lines[i]) then Some(i)
    else ScanFrom(squares, i + 1)
  }

  /** `k` is the first complete line among the positions from `i` on. */
  predicate FirstCompleteFrom(squares: Board, i: nat, k: nat)
  {
    && k < |Lines|
    && Complete(squares, Lines[k])
    && forall j :: i <= j < k ==> !Complete(squares, Lines[j])
  }

  /** The winning line of a board, or `None` when no line is complete.
      When several lines are complete the first one in the listed order wins. */
  function CalculateWinner(squares: Board): (r: Option<Line>)
    ensures r.None? <==> !HasCompleteLine(squares)
    ensures r.Some? ==> exists k: nat :: FirstComplete(squares, k) && r.value == Lines[k]
  {
    match ScanFrom(squares, 0)
    case None => None
    case Some(k) => Some(Lines[k])
  }

  /** The first complete line is the one the evaluator returns. */
  lemma FirstCompleteIsWinner(squares: Board, k: nat)
    requires FirstComplete(squares, k)
    ensures CalculateWinner(squares) == Some(Lines[k])
  {
  }

  /** The winning line's three squares hold the winner's mark. */
  lemma WinnerLineIsMarked(squares: Board)
    requires CalculateWinner(squares).Some?
    ensures var l := CalculateWinner(squares).value;
      && l in Lines
      && At(squares, l.a) != Empty
      && At(squares, l.b) == At(squares, l.a)
      && At(squares, l.c) == At(squares, l.a)
  {
  }

  // An independent, geometric description of a win: a full row, column or diagonal.

  predicate RowWon(squares: Board, row: nat)
  {
    row < 3 && Same(squares, 3 * row, 3 * row + 1, 3 * row + 2)
  }

  predicate ColumnWon(squares: Board, col: nat)
  {
    col < 3 && Same(squares, col, col + 3, col + 6)
  }

  predicate DiagonalWon(squares: Board)
  {
    Same(squares, 0, 4, 8) || Same(squares, 2, 4, 6)
  }

  /** Three equal marks in a row, a column or a diagonal of the 3x3 grid. */
  predicate ThreeInARow(squares: Board)
  {
    (exists row :: row < 3 && RowWon(squares, row)) || (exists col :: col < 3 && ColumnWon(squares, col)) || DiagonalWon(squares)
  }

  /** The eight listed lines are exactly the rows, columns and diagonals of the grid. */
  lemma LinesAreRowsColumnsDiagonals(squares: Board)
    ensures HasCompleteLine(squares) <==> ThreeInARow(squares)
  {
    if HasCompleteLine(squares) {
      var k :| 0 <= k < |Lines| && Complete(squares, Lines[k]);
      if k == 0 { assert RowWon(squares, 0); }
      else if k == 1 { assert RowWon(squares, 1); }
      else if k == 2 { assert RowWon(squares, 2); }
      else if k == 3 { assert ColumnWon(squares, 0); }
      else if k == 4 { assert ColumnWon(squares, 1); }
      else if k == 5 { assert ColumnWon(squares, 2); }
    }
    if ThreeInARow(squares) {
      if row: nat :| row < 3 && RowWon(squares, row) {
        if row == 0 { assert Complete(squares, Lines[0]); }
        else if row == 1 { assert Complete(squares, Lines[1]); }
        else { assert Complete(squares, Lines[2]); }
      } else if col: nat :| col < 3 && ColumnWon(squares, col) {
        if col == 0 { assert Complete(squares, Lines[3]); }
        else if col == 1 { assert Complete(squares, Lines[4]); }
        else { assert Complete(squares, Lines[5]); }
      } else if Same(squares, 0, 4, 8) {
        assert Complete(squares, Lines[6]);
      } else {
        assert Complete(squares, Lines[7]);
      }
    }
  }

  /** The evaluator reports a winner exactly when the board shows three in a row. */
  lemma WinnerIffThreeInARow(squares: Board)
    ensures CalculateWinner(squares).Some? <==> ThreeInARow(squares)
  {
    LinesAreRowsColumnsDiagonals(squares);
  }
}
