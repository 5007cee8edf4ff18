/** Squares and board snapshots shared by every part of the game. */
module Squares {

  /** The content of one square: empty (`null` in the application) or one of the two marks. */
  datatype Cell = Empty | X | O

  /** A board snapshot in row-major order: square (row, col) sits at index `3 * row + col`.
      Every snapshot the game creates has exactly `Size` squares. */
  type Board = seq<Cell>

  /** The value `null` stands for in the application: no winning line, no result. */
  datatype Option<T> = None | Some(value: T)

  const Size: nat := 9

  /** The board the game starts from: nine empty squares. */
  const EmptyBoard: Board := [Empty, Empty, Empty, Empty, Empty, Empty, Empty, Empty, Empty]

  /** Reads a square. Reading past the end of a snapshot yields `undefined`,
      which every test in the application treats like an empty square. */
  function At(b: Board, i: nat): Cell
  {
    if i < |b| then b[i] else Empty
  }

  /** The mark the acting player writes: X when X is next, O otherwise. */
  function Mark(xIsNext: bool): (c: Cell)
    ensures c != Empty
    ensures c == X <==> xIsNext
  {
    if xIsNext then X else O
  }

  /** Number of marked squares on a board. */
  function Filled(b: Board): nat
  {
    if |b| == 0 then 0 else (if b[0] == Empty then 0 else 1) + Filled(b[1..])
  }

  /** Writing a mark into an empty square raises the number of marked squares by exactly one. */
  lemma {:induction false} FilledAfterMark(b: Board, i: nat, m: Cell)
    requires i < |b| && b[i] == Empty && m != Empty
    ensures Filled(b[i := m]) == Filled(b) + 1
    decreases |b|
  {
    if i == 0 {
      assert b[i := m][1..] == b[1..];
    } else {
      assert b[i := m][1..] == b[1..][i - 1 := m];
      FilledAfterMark(b[1..], i - 1, m);
    }
  }

  /** A board has at most as many marked squares as it has squares, and all of
      them are marked exactly when the count reaches its length. */
  lemma {:induction false} FilledBounds(b: Board)
    ensures Filled(b) <= |b|
    ensures Filled(b) == |b| <==> forall i :: 0 <= i < |b| ==> b[i] != Empty
    decreases |b|
  {
    if |b| > 0 {
      FilledBounds(b[1..]);
      if Filled(b) == |b| {
        forall i | 0 <= i < |b| ensures b[i] != Empty {
          if i > 0 { assert b[i] == b[1..][i - 1]; }
        }
      }
      if forall i :: 0 <= i < |b| ==> b[i] != Empty {
        forall i | 0 <= i < |b| - 1 ensures b[1..][i] != Empty {
          assert b[1..][i] == b[i + 1];
        }
      }
    }
  }
}
