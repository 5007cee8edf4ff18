# Tic-tac-toe game logic in Dafny

This project models the game logic of a browser tic-tac-toe application, written in
React and TypeScript: the win evaluator `calculateWinner`, the board's click handling
and status line, and the `Game` controller. The controller keeps a history of board
snapshots and a pointer to the displayed one. It records moves, jumps back in time,
and reverses the stored history to change the display order. Rendering is not modelled.

Modules, leaf first:

- `Squares` (`squares.dfy`): the square type `Cell = Empty | X | O` and board
  snapshots as `seq<Cell>` in row-major order. Reading past the end of a snapshot
  gives `Empty`, just as JavaScript's `undefined` is falsy in every test the
  application makes. Also the count of marked squares.
- `WinEvaluator` (`win_evaluator.dfy`): the eight lines, in the listed order, and
  `CalculateWinner`. It is proved against two independent descriptions: "the earliest
  complete line" and the geometric "three in a row, column or diagonal".
- `BoardLogic` (`board.dfy`): `HandleClick`, where `None` means the click is ignored
  and `Some(next)` means `onPlay(next)`. Also `GameStatus`, whose `Status`
  datatype (`Winner(mark) | Draw | Next(mark)`) stands in for the status text.
- `GameController` (`game.dfy`): the state `Game(history, currentMove)` in place of the
  two `useState` hooks, with pure transitions `HandlePlay`, `JumpTo` and
  `ToggleSortOrder`. Also the move-list labels (`Label` datatype), a whole click
  (`Click`), and user events (`Step`, `Run`). `Chronological` states the
  history's shape when it is built only by clicks and jumps.
- `Scenarios` (`scenarios.dfy`): whole games. A top-row win and a nine-move draw,
  played as chains of board-level clicks, and three controller moves followed by a
  jump back and a move that discards the later entries.

Behaviour the model reproduces as written:

- The draw test looks only at the number of squares (`squares.length === 9`), not at
  whether any square is still empty. So every nine-square board without a complete
  line reports "Draw the Game!!", including the empty board at the start of the game
  (`DrawAtGameStart`). "Next player" is never shown for such a board
  (`NextPlayerNeverShown`). The status therefore cannot tell an unfinished board
  from a full one.
- The sort-order toggle reverses the stored history, not just its presentation.
  The snapshot on display stays the same, but whose turn it is comes from the
  mirrored pointer. With an even number of entries, toggling hands the turn to the
  other player (`ToggleTurnParity`). A reversed history is no longer chronological
  (`ToggleBreaksChronological`), and a later move truncates the reversed sequence.
- Move-list labels compute row and column from the move number (`m / 3 + 1`,
  `m % 3 + 1`), not from the square that was played.

## Model

| member | source | states |
|---|---|---|
| WinEvaluator.CalculateWinner | src/App.tsx:126-146 | no winner exactly when none of the eight lines is complete; a returned line is the earliest complete line in the listed order |
| WinEvaluator.ScanFrom | src/App.tsx:138-145 | the loop over the lines from position i returns the first complete line at or after i, or reports that none from i on is complete |
| WinEvaluator.FirstCompleteIsWinner | src/App.tsx:138-142 | whenever line k is the first complete one, the evaluator returns line k (tie-break by list order) |
| WinEvaluator.WinnerLineIsMarked | src/App.tsx:139-141 | the returned triple is one of the listed lines and its three squares hold the same non-empty mark |
| WinEvaluator.LinesAreRowsColumnsDiagonals | src/App.tsx:127-136 | some listed line is complete exactly when the grid shows three equal marks in a row, a column or a diagonal |
| WinEvaluator.WinnerIffThreeInARow | src/App.tsx:126-146 | the evaluator finds a winner exactly when the board has three in a row geometrically |
| BoardLogic.HandleClick | src/App.tsx:24-31 | a click is ignored exactly when the square is filled or a line is complete; otherwise the new board has the same length, the mover's mark (X when X is next) at i, and every other square unchanged |
| BoardLogic.ClickMarksOneSquare | src/App.tsx:28-30 | an accepted click fills a square that was empty and raises the number of marks by one |
| BoardLogic.GameStatus | src/App.tsx:33-43 | Winner exactly when a line is complete, naming a non-empty mark of the earliest complete line; Draw exactly when no line is complete and the board has nine squares; Next player (X when X is next) otherwise |
| BoardLogic.NextPlayerNeverShown | src/App.tsx:41-43 | on a nine-square board the status is never "Next player"; without a complete line it is a draw |
| BoardLogic.DrawAtGameStart | src/App.tsx:41-43 | the empty starting board already reports a draw |
| BoardLogic.StatusNamesWinningMark | src/App.tsx:35-36 | the winner named in the status is the mark on every square of the winning line |
| GameController.Initial | src/App.tsx:67-68 | the game starts with one empty board, on display, and X to move |
| GameController.XIsNext | src/App.tsx:70 | X moves exactly when currentMove is even, so the next click writes X on even positions and O on odd ones |
| GameController.CurrentSquares | src/App.tsx:71 | the snapshot on display is the history entry at currentMove |
| Squares.Mark | src/App.tsx:29 | the mover's mark is never empty, and it is X exactly when X is next |
| GameController.SliceEnd | src/App.tsx:74 | `slice(0, n)` on a history of length len keeps n entries when n fits and all len entries otherwise |
| GameController.HandlePlay | src/App.tsx:73-77 | the new history is the old one up to and including the current position followed by the new board; its length is currentMove + 2; the pointer moves to currentMove + 1, which holds the new board; earlier entries are unchanged |
| GameController.PlayAlternatesTurn | src/App.tsx:70-77 | recording a move hands the turn to the other player |
| GameController.JumpTo | src/App.tsx:79-81 | a jump sets the pointer to the chosen move and leaves the history untouched, so the chosen entry is shown and the pointer stays in bounds |
| GameController.JumpThenPlay | src/App.tsx:73-81 | after a jump to k and a move, the history has k + 2 entries, entry k + 1 is the new board, and entries 0..k are the old ones |
| GameController.Reverse | src/App.tsx:84-85 | the reversed history has the same length and entry i is the old entry n - 1 - i |
| GameController.ToggleSortOrder | src/App.tsx:83-88 | the toggle keeps the length, stores the reversed history and sets the pointer to length - 1 - currentMove, so the same board stays on display and the pointer stays in bounds |
| GameController.ToggleTwiceRestores | src/App.tsx:83-88 | toggling twice restores the state exactly |
| GameController.ToggleTurnParity | src/App.tsx:70-88 | the toggle keeps the player to move exactly when the history has an odd number of entries |
| GameController.MoveLabel | src/App.tsx:91-98 | the label is "You are at" exactly for the current move and "Go to game start" exactly for a non-current move 0; otherwise it carries the move number and 1-based row and column with 3 * (row - 1) + (col - 1) equal to the move number |
| GameController.Moves | src/App.tsx:91-106 | one label per history entry; entry m is the label of move m (its number, row and column); the entry marked current is exactly the one at currentMove |
| GameController.ExactlyOneCurrentLabel | src/App.tsx:96-103 | in a valid state exactly one entry of the move list is shown as the current one |
| GameController.Click | src/App.tsx:24-30 | a click on the displayed board leaves the state unchanged exactly when the square is filled or a line is complete; otherwise it records the board with the mover's mark added |
| GameController.ClickKeepsChronological | src/App.tsx:73-77 | a click keeps a chronological history chronological: entry 0 empty, each later entry one more mark, X then O alternately |
| GameController.ChronologicalFilled | src/App.tsx:67-77 | in a chronological history entry k has nine squares and exactly k marks |
| GameController.ChronologicalLength | src/App.tsx:24-27 | a chronological history holds at most ten snapshots, because a full board accepts no further click |
| GameController.TurnMatchesMarks | src/App.tsx:70-71 | without reversals, X is to move exactly when the displayed board carries an even number of marks |
| GameController.Step | src/App.tsx:24-115 | every user action (square click, move-list click, sort toggle) keeps the pointer in bounds; every action but the toggle keeps the history chronological |
| GameController.Run | src/App.tsx:66-123 | any sequence of user actions keeps the state valid, and one without toggles keeps the history chronological |
| GameController.ToggleBreaksChronological | src/App.tsx:83-88 | after the first move and a toggle, entry 0 is no longer the empty board |
| Scenarios.TopRowWin | src/App.tsx:24-43 | X at 0, O at 3, X at 1, O at 4, X at 2 are all accepted; the winner is line (0, 1, 2), the status names X, and a further click is ignored |
| Scenarios.FullBoardDraw | src/App.tsx:24-43 | nine accepted clicks fill the board with no complete line and the status is a draw |
| Scenarios.ThreeMoves | src/App.tsx:73-77 | three clicks from the start give a four-entry history with the last entry on display |
| Scenarios.JumpDiscardsFuture | src/App.tsx:73-81 | after three moves, a jump to move 1 and a click leave three entries, keep entries 0 and 1, and record the new board as move 2 |

## Left out

- Rendering: the `Square` component, the JSX tree, the CSS import, the highlighting of
  winning squares, the `key` props and the choice between `<button>` and `<h5>`.
  These are presentation only. Which entry is the current one is kept in `Label`.
- React's `useState` and re-rendering. They are replaced by the explicit state
  value `Game` and pure transition functions.
- Exact status and label text. These are modelled as the `Status` and `Label`
  datatypes rather than as strings.
- BoardLogic.HandleClick: requires the clicked square to lie on the board. The board
  only renders squares 0..8 of a nine-square snapshot. A click beyond the end
  would grow a JavaScript array with holes, which is not modelled.
- GameController.JumpTo: requires the target to be an existing history entry. The
  source does not check this, but its only caller passes the index of a rendered
  list entry. Out-of-range events are ignored in `Step`.
- GameController.ToggleSortOrder: requires a valid state. With an out-of-range pointer
  the source would compute a negative pointer; no reachable state has one (see
  `Run`).
- GameController.HandlePlay: with an out-of-range pointer it follows JavaScript's
  clamping `slice`. No reachable state exercises this.
