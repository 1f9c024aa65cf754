/** The game's state machine: the move history, the cursor into it
    (`stepNumber`), whose turn it is, and the two transitions `handleClick`
    and `jumpTo`. */
module GameState {
  import opened Board
  import opened Labels

  /** One history entry: a board and whether X moves next on it. */
  datatype Step = Step(squares: Board, xIsNext: bool)

  /** The invariant every reachable state keeps:
      - the cursor points into the history, and the turn flag matches its parity;
      - the history starts at the empty board;
      - entry i has X to move exactly when i is even, and i marked squares;
      - each entry but the last has no winner, and the next entry is it with
        one empty square marked by the player whose turn it was. */
  ghost predicate ValidState(history: seq<Step>, stepNumber: nat, xIsNext: bool)
  {
    && stepNumber < |history|
    && xIsNext == (stepNumber % 2 == 0)
    && history[0].squares == EmptyBoard
    && (forall i :: 0 <= i < |history| ==>
          history[i].xIsNext == (i % 2 == 0) && CountMarks(history[i].squares) == i)
    && (forall i :: 0 <= i < |history| - 1 ==> StepFollows(history, i))
  }

  /** Entry i has no winner, and entry i + 1 is it after one move by the
      player whose turn it was. */
  ghost predicate StepFollows(history: seq<Step>, i: nat)
    requires i + 1 < |history|
  {
    Winner(history[i].squares) == None &&
    IsMove(history[i].squares, history[i + 1].squares, MarkFor(history[i].xIsNext))
  }

  /** The state right after construction is valid. */
  lemma InitialStateIsValid()
    ensures ValidState([Step(EmptyBoard, true)], 0, true)
    ensures Winner(EmptyBoard) == None
  {
    EmptyBoardHasNoWinner();
  }

  /** An accepted click keeps the history valid: the entries up to the cursor,
      then the current board with the clicked square marked by the mover. */
  lemma {:induction false} ClickPreservesValid(history: seq<Step>, stepNumber: nat, xIsNext: bool, index: nat)
    requires ValidState(history, stepNumber, xIsNext) && index < 9
    requires Winner(history[stepNumber].squares) == None && history[stepNumber].squares[index] == Empty
    ensures var squares := history[stepNumber].squares[index := MarkFor(xIsNext)];
      ValidState(history[..stepNumber + 1] + [Step(squares, !xIsNext)], stepNumber + 1, !xIsNext)
  {
    var current := history[stepNumber].squares;
    var mark := MarkFor(xIsNext);
    var squares := current[index := mark];
    var h := history[..stepNumber + 1] + [Step(squares, !xIsNext)];
    assert |h| == stepNumber + 2;
    assert forall i :: 0 <= i <= stepNumber ==> h[i] == history[i];
    CountMarksAfterMove(current, index, mark);
    forall i | 0 <= i < |h|
      ensures h[i].xIsNext == (i % 2 == 0) && CountMarks(h[i].squares) == i
    {
      if i == stepNumber + 1 {
        assert h[i] == Step(squares, !xIsNext);
      }
    }
    forall i | 0 <= i < |h| - 1
      ensures StepFollows(h, i)
    {
      if i < stepNumber {
        assert StepFollows(history, i);
        assert h[i] == history[i] && h[i + 1] == history[i + 1];
      } else {
        assert h[i] == history[stepNumber] && h[i + 1] == Step(squares, !xIsNext);
        assert IsMove(current, squares, mark);
      }
    }
  }

  /** The history never holds more than ten entries: entry i has i marks and a
      board has nine squares. */
  lemma HistoryHasAtMostTenEntries(history: seq<Step>, stepNumber: nat, xIsNext: bool)
    requires ValidState(history, stepNumber, xIsNext)
    ensures |history| <= 10
  {
    var last := |history| - 1;
    assert CountMarks(history[last].squares) == last;
  }

  /** On any valid state, a winner on the shown board is the player who made
      the last move, i.e. the one NOT to move next. */
  lemma {:induction false} WinnerMovedLast(history: seq<Step>, stepNumber: nat, xIsNext: bool)
    requires ValidState(history, stepNumber, xIsNext)
    ensures Winner(history[stepNumber].squares).Some? ==>
      stepNumber > 0 && Winner(history[stepNumber].squares) == Some(MarkFor(!xIsNext))
  {
    if stepNumber == 0 {
      EmptyBoardHasNoWinner();
    } else {
      var i := stepNumber - 1;
      assert StepFollows(history, i);
      OnlyTheMoverCanWin(history[i].squares, history[stepNumber].squares, MarkFor(history[i].xIsNext));
    }
  }

  /** The `Game` component: its state and the handlers that replace it. */
  class Game {
    var history: seq<Step>
    var stepNumber: nat
    var xIsNext: bool

    ghost predicate Valid()
      reads this
    {
      ValidState(history, stepNumber, xIsNext)
    }

    /** The initial state: one empty board with X to move. */
    constructor ()
      ensures Valid()
      ensures history == [Step(EmptyBoard, true)] && stepNumber == 0 && xIsNext
    {
      history := [Step(EmptyBoard, true)];
      stepNumber := 0;
      xIsNext := true;
      InitialStateIsValid();
    }

    /** A click on square `index`. Rejected, with nothing changed, when the
        shown board already has a winner or the square is marked; otherwise the
        history is cut after the shown entry, the shown board with the square
        marked by the mover is appended and shown, and the turn passes. */
    method HandleClick(index: nat)
      requires Valid() && index < 9
      modifies this
      ensures Valid()
      ensures var current := old(history[stepNumber].squares);
        if Winner(current).Some? || current[index] != Empty then
          history == old(history) && stepNumber == old(stepNumber) && xIsNext == old(xIsNext)
        else
          && history == old(history[..stepNumber + 1]) + [Step(current[index := MarkFor(old(xIsNext))], !old(xIsNext))]
          && stepNumber == old(stepNumber) + 1
          && xIsNext == !old(xIsNext)
    {
      var newHistory := history[..stepNumber + 1];
      var current := newHistory[|newHistory| - 1];
      assert current == history[stepNumber];
      var squares := new Cell[9](i requires 0 <= i < 9 => current.squares[i]);
      assert squares[..] == current.squares;
      var winner := CalculateWinner(squares[..]);
      if winner.Some? || squares[index] != Empty {
        return;
      }
      squares[index] := MarkFor(xIsNext);
      assert squares[..] == current.squares[index := MarkFor(xIsNext)];
      ClickPreservesValid(history, stepNumber, xIsNext, index);
      history := newHistory + [Step(squares[..], !xIsNext)];
      stepNumber := |newHistory|;
      xIsNext := !xIsNext;
    }

    /** Time travel: show entry `step`, with the turn given by its parity;
        the history, including entries after `step`, is kept. */
    method JumpTo(step: nat)
      requires Valid() && step < |history|
      modifies this
      ensures Valid()
      ensures history == old(history) && stepNumber == step && xIsNext == (step % 2 == 0)
    {
      stepNumber := step;
      xIsNext := step % 2 == 0;
    }

    /** The status line shown beside the board. It announces a winner exactly
        when the shown board has one, and that winner is the player who moved
        last; otherwise it names the player whose mark the next accepted click
        writes. */
    function Status(): (r: string)
      reads this
      requires Valid()
      ensures AnnouncesWinner(r) <==> Winner(history[stepNumber].squares).Some?
      ensures AnnouncesWinner(r) ==> r == "Winner: " + CellText(MarkFor(!xIsNext))
      ensures !AnnouncesWinner(r) ==> r == "Next player: " + CellText(MarkFor(xIsNext))
    {
      WinnerMovedLast(history, stepNumber, xIsNext);
      StatusText(Winner(history[stepNumber].squares), xIsNext)
    }

    /** The labels of the move list, one per history entry: the first returns
        to the game start, every other names its own move, so no two agree. */
    function Moves(): (r: seq<string>)
      reads this
      ensures |r| == |history|
      ensures forall i :: 0 <= i < |r| ==> (r[i] == "Go to game start" <==> i == 0)
      ensures forall i :: 0 < i < |r| ==> r[i] == "Go to move #" + DecimalText(i)
      ensures forall i, j :: 0 <= i < j < |r| ==> r[i] != r[j]
    {
      seq(|history|, i requires 0 <= i => MoveLabel(i))
    }
  }
}
