/** The game controller: the history of board snapshots, the pointer to the
    displayed one, and the transitions the user can trigger. */
module GameController {
  import opened Squares
  import opened WinEvaluator
  import opened BoardLogic

  /** The controller's state: every snapshot so far and the index of the one shown. */
  datatype Game = Game(history: seq<Board>, currentMove: nat)

  /** The pointer designates an existing snapshot (so the history is never empty). */
  predicate Valid(g: Game)
  {
    g.currentMove < |g.history|
  }

  /** The state at start-up: one empty board, and it is shown. */
  function Initial(): (g: Game)
    ensures Valid(g)
    ensures |g.history| == 1 && CurrentSquares(g) == EmptyBoard
    ensures XIsNext(g)
  {
    Game([EmptyBoard], 0)
  }

  /** X moves on even positions, O on odd ones: the mark written by the next
      click is X exactly when the pointer is even. */
  function XIsNext(g: Game): (b: bool)
    ensures b <==> g.currentMove % 2 == 0
    ensures Mark(b) == (if g.currentMove % 2 == 0 then X else O)
  {
    g.currentMove % 2 == 0
  }

  /** The snapshot on display: the history entry the pointer designates. */
  function CurrentSquares(g: Game): (s: Board)
    requires Valid(g)
    ensures s in g.history
    ensures s == g.history[g.currentMove]
  {
    g.history[g.currentMove]
  }

  /** `slice(0, n)` on an array of length `len` keeps `min(n, len)` elements. */
  function SliceEnd(n: nat, len: nat): (r: nat)
    ensures r <= len
    ensures r == n || (r == len && len < n)
  {
    if n < len then n else len
  }

  /** Records a new snapshot: keeps the history up to and including the current
      position, discards every later entry, appends `nextSquares`, and points at it. */
  function HandlePlay(g: Game, nextSquares: Board): (r: Game)
    ensures Valid(r)
    ensures r.currentMove == |r.history| - 1 && r.history[r.currentMove] == nextSquares
    ensures Valid(g) ==> && |r.history| == g.currentMove + 2
                         && r.currentMove == g.currentMove + 1
                         && r.history[..g.currentMove + 1] == g.history[..g.currentMove + 1]
    ensures !Valid(g) ==> r.history == g.history + [nextSquares]
  {
    var nextHistory := g.history[..SliceEnd(g.currentMove + 1, |g.history|)] + [nextSquares];
    Game(nextHistory, |nextHistory| - 1)
  }

  /** Recording a move hands the turn to the other player. */
  lemma PlayAlternatesTurn(g: Game, nextSquares: Board)
    requires Valid(g)
    ensures XIsNext(HandlePlay(g, nextSquares)) <==> !XIsNext(g)
  {
  }

  /** Shows an earlier (or later) snapshot without touching the history. */
  function JumpTo(g: Game, nextMove: nat): (r: Game)
    requires Valid(g) && nextMove < |g.history|
    ensures Valid(r)
    ensures r.history == g.history
    ensures r.currentMove == nextMove
    ensures CurrentSquares(r) == g.history[nextMove]
    ensures XIsNext(r) <==> nextMove % 2 == 0
  {
    g.(currentMove := nextMove)
  }

  /** A move made after a jump to `k` replaces everything after position `k`. */
  lemma JumpThenPlay(g: Game, k: nat, s: Board)
    requires Valid(g) && k < |g.history|
    ensures var r := HandlePlay(JumpTo(g, k), s);
      && |r.history| == k + 2
      && r.history[k + 1] == s
      && r.currentMove == k + 1
      && forall j :: 0 <= j <= k ==> r.history[j] == g.history[j]
  {
  }

  /** The sequence in reverse order. */
  function Reverse<T>(s: seq<T>): (r: seq<T>)
    ensures |r| == |s|
    ensures forall i :: 0 <= i < |s| ==> r[i] == s[|s| - 1 - i]
    decreases |s|
  {
    if |s| == 0 then [] else Reverse(s[1..]) + [s[0]]
  }

  /** Reversing twice gives back the original sequence. */
  lemma ReverseReverse<T>(s: seq<T>)
    ensures Reverse(Reverse(s)) == s
  {
  }

  /** Reverses the stored history and mirrors the pointer, so the snapshot on
      display stays the same. */
  function ToggleSortOrder(g: Game): (r: Game)
    requires Valid(g)
    ensures Valid(r)
    ensures |r.history| == |g.history|
    ensures forall i :: 0 <= i < |g.history| ==> r.history[i] == g.history[|g.history| - 1 - i]
    ensures r.currentMove == |g.history| - 1 - g.currentMove
    ensures CurrentSquares(r) == CurrentSquares(g)
  {
    Game(Reverse(g.history), |g.history| - 1 - g.currentMove)
  }

  /** Toggling the order twice restores the state exactly. */
  lemma ToggleTwiceRestores(g: Game)
    requires Valid(g)
    ensures ToggleSortOrder(ToggleSortOrder(g)) == g
  {
    var t := Game(Reverse(g.history), |g.history| - 1 - g.currentMove);
    assert ToggleSortOrder(g) == t;
    ReverseReverse(g.history);
    assert ToggleSortOrder(t) == Game(Reverse(Reverse(g.history)), |g.history| - 1 - t.currentMove);
  }

  /** The turn is recomputed from the mirrored pointer, so toggling keeps the
      player to move only when the history has an odd number of entries. */
  lemma ToggleTurnParity(g: Game)
    requires Valid(g)
    ensures XIsNext(ToggleSortOrder(g)) == XIsNext(g) <==> |g.history| % 2 == 1
  {
  }

  /** One entry of the move list. `GoToStart` and `GoToMove` are buttons that
      jump to their move; `YouAreAt` is the plain-text entry for the current move.
      `row` and `col` come from the move number, not from the square played. */
  datatype Label =
    | GoToStart
    | GoToMove(move: nat, row: nat, col: nat)
    | YouAreAt(move: nat, row: nat, col: nat)

  /** The move-list entry for history position `move`. */
  function MoveLabel(move: nat, currentMove: nat): (r: Label)
    ensures r.YouAreAt? <==> move == currentMove
    ensures r.GoToStart? <==> move == 0 && move != currentMove
    ensures !r.GoToStart? ==> && r.move == move
                              && 1 <= r.row && 1 <= r.col <= 3
                              && 3 * (r.row - 1) + (r.col - 1) == move
    ensures !r.GoToStart? && move < Size ==> r.row <= 3
  {
    var row := move / 3 + 1;
    var col := move % 3 + 1;
    if move == currentMove then YouAreAt(move, row, col)
    else if move > 0 then GoToMove(move, row, col)
    else GoToStart
  }

  /** The whole move list, one entry per history position, in stored order. */
  function Moves(g: Game): (r: seq<Label>)
    ensures |r| == |g.history|
    ensures forall m :: 0 <= m < |r| ==> r[m] == MoveLabel(m, g.currentMove)
    ensures forall m :: 0 <= m < |r| ==> (r[m].YouAreAt? <==> m == g.currentMove)
    ensures forall m :: 0 <= m < |r| ==> (r[m].GoToStart? <==> m == 0 && m != g.currentMove)
  {
    seq(|g.history|, m requires 0 <= m => MoveLabel(m, g.currentMove))
  }

  /** In a valid state exactly one entry of the move list is the current one. */
  lemma ExactlyOneCurrentLabel(g: Game)
    requires Valid(g)
    ensures Moves(g)[g.currentMove].YouAreAt?
    ensures forall m :: 0 <= m < |g.history| && m != g.currentMove ==> !Moves(g)[m].YouAreAt?
  {
  }

  /** A click on square `i` of the displayed board: the board decides whether
      the click counts, and the controller records the resulting snapshot. */
  function Click(g: Game, i: nat): (r: Game)
    requires Valid(g) && i < |CurrentSquares(g)|
    ensures Valid(r)
    ensures r == g <==> CurrentSquares(g)[i] != Empty || HasCompleteLine(CurrentSquares(g))
    ensures r != g ==> r == HandlePlay(g, CurrentSquares(g)[i := Mark(XIsNext(g))])
  {
    match HandleClick(CurrentSquares(g), XIsNext(g), i)
    case None => g
    case Some(nextSquares) => HandlePlay(g, nextSquares)
  }

  // Chronological histories: what the history looks like when it is built
  // only by clicks and jumps, never reversed.

  /** `after` is `before` with one empty square now holding `mark`. */
  predicate OneMove(before: Board, after: Board, mark: Cell)
  {
    exists i :: 0 <= i < |before| && before[i] == Empty && after == before[i := mark]
  }

  /** Entry 0 is the empty board and each later entry adds one mark, X on the
      moves from even positions and O on the moves from odd ones. */
  predicate Chronological(h: seq<Board>)
  {
    && |h| > 0
    && h[0] == EmptyBoard
    && forall k :: 0 <= k < |h| - 1 ==> OneMove(h[k], h[k + 1], Mark(k % 2 == 0))
  }

  /** A click keeps the history chronological. */
  lemma ClickKeepsChronological(g: Game, i: nat)
    requires Valid(g) && i < |CurrentSquares(g)|
    ensures Chronological(g.history) ==> Chronological(Click(g, i).history)
  {
  }

  /** Each entry of a chronological history carries as many marks as its position. */
  lemma {:induction false} ChronologicalFilled(h: seq<Board>, k: nat)
    requires Chronological(h) && k < |h|
    ensures Filled(h[k]) == k
    ensures |h[k]| == Size
  {
    if k == 0 {
      assert Filled(EmptyBoard) == 0;
    } else {
      ChronologicalFilled(h, k - 1);
      assert OneMove(h[k - 1], h[k], Mark((k - 1) % 2 == 0));
      var i :| 0 <= i < |h[k - 1]| && h[k - 1][i] == Empty && h[k] == h[k - 1][i := Mark((k - 1) % 2 == 0)];
      FilledAfterMark(h[k - 1], i, Mark((k - 1) % 2 == 0));
    }
  }

  /** A chronological history holds at most ten snapshots: nine moves fill the board. */
  lemma ChronologicalLength(h: seq<Board>)
    requires Chronological(h)
    ensures |h| <= Size + 1
  {
    ChronologicalFilled(h, |h| - 1);
    FilledBounds(h[|h| - 1]);
  }

  /** Without reversals, X is to move exactly when the displayed board carries an
      even number of marks. */
  lemma TurnMatchesMarks(g: Game)
    requires Valid(g) && Chronological(g.history)
    ensures Filled(CurrentSquares(g)) == g.currentMove
    ensures XIsNext(g) <==> Filled(CurrentSquares(g)) % 2 == 0
  {
    ChronologicalFilled(g.history, g.currentMove);
  }

  /** A user action: a click on a square of the board, a click on an entry of
      the move list, or a click on the sort-order button. */
  datatype Event = ClickSquare(square: nat) | JumpToMove(move: nat) | ToggleOrder

  /** The effect of one action. Only squares of the displayed board and entries
      of the move list can be clicked; anything else leaves the state alone. */
  function Step(g: Game, e: Event): (r: Game)
    requires Valid(g)
    ensures Valid(r)
    ensures !e.ToggleOrder? && Chronological(g.history) ==> Chronological(r.history)
  {
    match e
    case ClickSquare(i) =>
      if i < |CurrentSquares(g)| then
        ClickKeepsChronological(g, i);
        Click(g, i)
      else g
    case JumpToMove(k) => if k < |g.history| then JumpTo(g, k) else g
    case ToggleOrder => ToggleSortOrder(g)
  }

  /** A run of actions from state `g`. */
  function Run(g: Game, es: seq<Event>): (r: Game)
    requires Valid(g)
    ensures Valid(r)
    ensures (forall j :: 0 <= j < |es| ==> !es[j].ToggleOrder?) && Chronological(g.history) ==> Chronological(r.history)
    decreases |es|
  {
    if |es| == 0 then g else Run(Step(g, es[0]), es[1..])
  }

  /** Reversing the history breaks chronology: after the first move and a
      toggle, entry 0 is no longer the empty board. */
  lemma ToggleBreaksChronological()
    ensures var g := Click(Initial(), 0);
      && Chronological(g.history)
      && !Chronological(ToggleSortOrder(g).history)
  {
  }
}
