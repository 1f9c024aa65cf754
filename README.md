# Tic-tac-toe game state, in Dafny

This project models the core of a browser tic-tac-toe game. The core is the
`Game` component's state machine and the win check `calculateWinner`. The
repository holds this logic twice, as two rewrites with the same behaviour:

- a hooks version, `tic-tac-toe-app/src/tic-tac-toe.tsx`;
- a class version, `tic-tac-toe-app/src/index.tsx`.

The model describes both. Each row below cites whichever copy shows the
behaviour most directly.

- `board.dfy` (module `Board`) covers the cells, the 9-square board, and the
  eight lines in their fixed order. It has the win check twice:
  - `Winner`, a recursive specification function;
  - `CalculateWinner`, the source's `for` loop with early return, proved
    equal to `Winner`.

  It also proves what the win check means, and that a move onto a board with
  no winner can only make the mover win.
- `game.dfy` (module `GameState`) has the class `Game`. Its fields are
  `history`, `stepNumber` and `xIsNext`, which is the component's state. It
  also has:
  - the constructor;
  - `HandleClick` and `JumpTo`, which are the two handlers. `HandleClick`
    copies the current board into a fresh array and writes the clicked
    square, as the source does;
  - `Status` and `Moves`, which are the texts that `render` derives.

  The predicate `ValidState` is the invariant that both handlers keep.
- `labels.dfy` (module `Labels`) holds the status line, the move-list labels,
  and the decimal numeral that `'Go to move #' + move` produces.
- `scenarios.dfy` (module `Scenarios`) replays the test suite's four click
  sequences, plus three further handler scenarios, on a fresh `Game`. Each
  returns what is observed on the page.

Facts about the game that shape the model:

- There is no reset operation, and a draw is not detected.
- `jumpTo` does not check its argument. The model requires `step < |history|`.
- The status line's "Next player" comes from the state's `xIsNext`, not from
  the `xIsNext` stored in the current history entry. `ValidState` proves the
  two equal.

## Model

| member | source | states |
|---|---|---|
| `Board.CalculateWinner` | tic-tac-toe-app/src/tic-tac-toe.tsx:128-146 | The loop returns the mark of the first line (in the order rows, columns, diagonals) whose three squares are equal and marked. It returns `None` (the source's `null`) exactly when no line is complete. The result equals `Winner`. |
| `Board.WinnerIsFirstCompletedLine` | tic-tac-toe-app/src/index.tsx:161-179 | `Winner(b)` is `None` exactly when no line is complete. Otherwise it is the common mark, never `Empty`, of the first complete line in the fixed order. |
| `Board.CompletedLineWins` | tic-tac-toe-app/src/tic-tac-toe.tsx:139-144 | If any line is complete and every complete line has mark `c`, the winner is `c`. |
| `Board.DrawIsNotDistinguished` | tic-tac-toe-app/src/tic-tac-toe.tsx:139-145 | Every full board without a complete line gives `None`, exactly as an unfinished game does. |
| `Board.DrawExample` | tic-tac-toe-app/src/tic-tac-toe.tsx:145 | One such draw exists: the full board X O X / X O O / O X X has no complete line and gives `None`. |
| `Board.NoCompletedLineNoWinner` | tic-tac-toe-app/src/tic-tac-toe.tsx:139-145 | If none of the eight lines is complete, the result is `None` (the no-line direction of `WinnerIsFirstCompletedLine`, spelled out line by line). |
| `Board.EmptyBoardHasNoWinner` | tic-tac-toe-app/src/tic-tac-toe.tsx:68-71 | The initial all-empty board has no winner. |
| `Board.MarkFor` | tic-tac-toe-app/src/tic-tac-toe.tsx:82 | The mover writes a real mark: X exactly when `xIsNext`, otherwise O. |
| `Board.CountMarksAfterMove` | tic-tac-toe-app/src/tic-tac-toe.tsx:82 | Writing a mark into an empty square raises the number of marked squares by exactly one. |
| `Board.OnlyTheMoverCanWin` | tic-tac-toe-app/src/tic-tac-toe.tsx:79-88 | Take a board with no winner and mark one of its empty squares with `m`. The new board has either no winner or winner `m`. |
| `GameState.InitialStateIsValid` | tic-tac-toe-app/src/tic-tac-toe.tsx:68-73 | The initial state (one empty board, X to move, step 0) satisfies the invariant, and its board has no winner. |
| `GameState.ClickPreservesValid` | tic-tac-toe-app/src/tic-tac-toe.tsx:76-90 | An accepted click keeps the invariant. The new state is: history cut after the shown entry, plus the shown board with the clicked square marked. The cursor moves forward one and the turn flips. |
| `GameState.HistoryHasAtMostTenEntries` | tic-tac-toe-app/src/tic-tac-toe.tsx:79-88 | In any valid state the history has at most ten entries, because entry i has exactly i marks. |
| `GameState.WinnerMovedLast` | tic-tac-toe-app/src/tic-tac-toe.tsx:98-111 | In any valid state, if the shown board has a winner, that winner made the last move: it is not step 0, and the winner is the player not to move. |
| `GameState.Game.constructor` | tic-tac-toe-app/src/index.tsx:81-93 | The new game has one all-empty board with X to move, `stepNumber` 0 and `xIsNext` true, and it is valid. |
| `GameState.Game.HandleClick` | tic-tac-toe-app/src/tic-tac-toe.tsx:75-91 | If the shown board has a winner or the square is marked, nothing changes. Otherwise the history becomes `history[..stepNumber+1]` plus a new step. That step is the shown board with only the clicked square marked (X if `xIsNext`, else O), with the turn flag negated. `stepNumber` grows by one and `xIsNext` flips. The invariant is kept. |
| `GameState.Game.JumpTo` | tic-tac-toe-app/src/tic-tac-toe.tsx:93-96 | Only the cursor moves, to `step`, and `xIsNext` becomes `step % 2 == 0`. The history, including later entries, is unchanged, and the invariant is kept. |
| `GameState.Game.Status` | tic-tac-toe-app/src/index.tsx:139-144 | The status announces a winner exactly when the shown board has one, and names the player who moved last. Otherwise it reads "Next player: " with the mark the next accepted click writes. |
| `GameState.Game.Moves` | tic-tac-toe-app/src/index.tsx:128-137 | There is one label per history entry. Only entry 0 reads "Go to game start", entry i > 0 reads "Go to move #" followed by the decimal numeral of i, and no two labels are equal. |
| `Labels.StatusText` | tic-tac-toe-app/src/tic-tac-toe.tsx:111 | The text begins "Winner: " exactly when there is a winner, followed by the winner's mark. Otherwise it is "Next player: " followed by the mark for `xIsNext`. |
| `Labels.DecimalText` | tic-tac-toe-app/src/tic-tac-toe.tsx:102 | A move number is written as a non-empty string of digits. It starts with '0' only for zero, so there are no leading zeros. |
| `Labels.DecimalRoundTrip` | tic-tac-toe-app/src/tic-tac-toe.tsx:101-103 | Reading the numeral of n back as a number gives n. |
| `Labels.MoveLabel` | tic-tac-toe-app/src/tic-tac-toe.tsx:100-103 | The label is "Go to game start" exactly for entry 0. Any other entry's label is "Go to move #" followed by a numeral without a leading zero that reads back as the entry's index. |
| `Scenarios.FirstTwoClicks` | tic-tac-toe-app/src/tic-tac-toe.test.tsx:10-28 | Clicking square 0 then square 1 writes X in square 0 and O in square 1. |
| `Scenarios.HorizontalLine` | tic-tac-toe-app/src/tic-tac-toe.test.tsx:30-51 | Clicks 0, 3, 1, 4, 2 end with the status "Winner: X". |
| `Scenarios.VerticalLine` | tic-tac-toe-app/src/tic-tac-toe.test.tsx:53-75 | Clicks 0, 1, 3, 4, 6 end with the status "Winner: X". |
| `Scenarios.BackToGameStart` | tic-tac-toe-app/src/tic-tac-toe.test.tsx:77-88 | After one move, jumping to entry 0 shows the empty board with "Next player: X", and both entries remain. |
| `Scenarios.BranchAfterJump` | tic-tac-toe-app/src/tic-tac-toe.tsx:76-96 | After three moves, a jump to entry 1 and a click on square 4 leave three entries. Entry 1 is unchanged, and the new last board has O on square 4. |
| `Scenarios.OccupiedSquareIgnored` | tic-tac-toe-app/src/tic-tac-toe.tsx:79-81 | A second click on square 0 changes nothing: two entries, step 1, O to move. |
| `Scenarios.NoMoveAfterWin` | tic-tac-toe-app/src/tic-tac-toe.tsx:79-81 | After X completes the top row, a click on empty square 8 is ignored. |

## Left out

- Rendering is not modelled: `Square`, `Board`, the JSX, `ReactDOM.render`, `reportWebVitals` and CSS only display the state and call the handlers.
- React's `useState`/`setState` scheduling is not modelled. Each handler is one atomic update of the three state cells, and the three setters in the hooks version count as one transition.
- Out-of-range arguments are excluded by preconditions instead of being modelled. `HandleClick` requires `index < 9`; in the source a larger index would grow the copied array. `JumpTo` requires `step < |history|`; in the source a larger step would make `history[stepNumber]` undefined.
- JavaScript truthiness is modelled by meaning. A cell is truthy exactly when it is marked, and a winner is truthy exactly when it is `Some`. This matches the source, because the only values are `null`, `"X"` and `"O"`.
- GameState.Game.Moves: the model gives only the label text of each history entry. The `<li>`/`<button>` wrapping and the `onClick` binding to `jumpTo(move)` are rendering.
