/** The four click sequences of the game's test suite, plus three further
    handler scenarios (a branch after a jump, a click on a marked square, a
    click after a win), each played on a fresh `Game` through its handlers and
    returning what is observed on the page. */
module Scenarios {
  import opened Board
  import opened GameState

  /** Clicking square 0 and then square 1: X is written in the first, O in
      the second. */
  method FirstTwoClicks() returns (first: Cell, second: Cell)
    ensures first == X && second == O
  {
    var g := new Game();
    g.HandleClick(0);
    first := g.history[g.stepNumber].squares[0];
    g.HandleClick(1);
    second := g.history[g.stepNumber].squares[1];
  }

  /** X takes the top row (squares 0, 1, 2) while O plays 3 and 4. */
  method HorizontalLine() returns (status: string)
    ensures status == "Winner: X"
  {
    var g := new Game();
    g.HandleClick(0);
    NoCompletedLineNoWinner([X, Empty, Empty, Empty, Empty, Empty, Empty, Empty, Empty]);
    g.HandleClick(3);
    NoCompletedLineNoWinner([X, Empty, Empty, O, Empty, Empty, Empty, Empty, Empty]);
    g.HandleClick(1);
    NoCompletedLineNoWinner([X, X, Empty, O, Empty, Empty, Empty, Empty, Empty]);
    g.HandleClick(4);
    NoCompletedLineNoWinner([X, X, Empty, O, O, Empty, Empty, Empty, Empty]);
    g.HandleClick(2);
    status := g.Status();
  }

  /** X takes the left column (squares 0, 3, 6) while O plays 1 and 4. */
  method VerticalLine() returns (status: string)
    ensures status == "Winner: X"
  {
    var g := new Game();
    g.HandleClick(0);
    NoCompletedLineNoWinner([X, Empty, Empty, Empty, Empty, Empty, Empty, Empty, Empty]);
    g.HandleClick(1);
    NoCompletedLineNoWinner([X, O, Empty, Empty, Empty, Empty, Empty, Empty, Empty]);
    g.HandleClick(3);
    NoCompletedLineNoWinner([X, O, Empty, X, Empty, Empty, Empty, Empty, Empty]);
    g.HandleClick(4);
    NoCompletedLineNoWinner([X, O, Empty, X, O, Empty, Empty, Empty, Empty]);
    g.HandleClick(6);
    status := g.Status();
  }

  /** After one move, "Go to game start" shows the empty board again, and the
      move stays in the history. */
  method BackToGameStart() returns (shown: Board, entries: nat, status: string)
    ensures shown == EmptyBoard && entries == 2 && status == "Next player: X"
  {
    var g := new Game();
    g.HandleClick(0);
    var labels := g.Moves();
    assert labels[0] == "Go to game start";
    g.JumpTo(0);
    shown := g.history[g.stepNumber].squares;
    entries := |g.history|;
    status := g.Status();
  }

  /** Going back to move 1 and playing from there drops the later moves: the
      history ends with the new move, which O makes since O was to move at
      move 1. */
  method BranchAfterJump() returns (entries: nat, shown: Board, kept: Board)
    ensures entries == 3
    ensures shown == EmptyBoard[0 := X][4 := O]
    ensures kept == EmptyBoard[0 := X]
  {
    var g := new Game();
    g.HandleClick(0);
    g.HandleClick(1);
    g.HandleClick(2);
    g.JumpTo(1);
    g.HandleClick(4);
    entries := |g.history|;
    shown := g.history[g.stepNumber].squares;
    kept := g.history[1].squares;
  }

  /** A click on a marked square is ignored: the history, the shown entry and
      the player to move stay as they were. */
  method OccupiedSquareIgnored() returns (entries: nat, step: nat, status: string)
    ensures entries == 2 && step == 1 && status == "Next player: O"
  {
    var g := new Game();
    g.HandleClick(0);
    g.HandleClick(0);
    entries, step := |g.history|, g.stepNumber;
    status := g.Status();
  }

  /** Once X has won, a click on an empty square is ignored. */
  method NoMoveAfterWin() returns (entries: nat, square: Cell, status: string)
    ensures entries == 6 && square == Empty && status == "Winner: X"
  {
    var g := new Game();
    g.HandleClick(0);
    NoCompletedLineNoWinner([X, Empty, Empty, Empty, Empty, Empty, Empty, Empty, Empty]);
    g.HandleClick(3);
    NoCompletedLineNoWinner([X, Empty, Empty, O, Empty, Empty, Empty, Empty, Empty]);
    g.HandleClick(1);
    NoCompletedLineNoWinner([X, X, Empty, O, Empty, Empty, Empty, Empty, Empty]);
    g.HandleClick(4);
    NoCompletedLineNoWinner([X, X, Empty, O, O, Empty, Empty, Empty, Empty]);
    g.HandleClick(2);
    g.HandleClick(8);
    entries := |g.history|;
    square := g.history[g.stepNumber].squares[8];
    status := g.Status();
  }
}
