/** The board of a tic-tac-toe game and its win evaluation (`calculateWinner`). */
module Board {

  datatype Option<T> = None | Some(value: T)

  /** One square: empty (`null` in the source), or marked by X or O. */
  datatype Cell = Empty | X | O

  /** Nine squares, row by row: square i is in row i / 3 and column i % 3. */
  type Board = b: seq<Cell> | |b| == 9 witness [Empty, Empty, Empty, Empty, Empty, Empty, Empty, Empty, Empty]

  const EmptyBoard: Board := [Empty, Empty, Empty, Empty, Empty, Empty, Empty, Empty, Empty]

  /** Three square indices forming one line of the board. */
  type Triple = t: (nat, nat, nat) | t.0 < 9 && t.1 < 9 && t.2 < 9 witness (0, 0, 0)

  /** The eight lines, in the order they are examined: rows, columns, diagonals. */
  const Lines: seq<Triple> := [
    (0, 1, 2), (3, 4, 5), (6, 7, 8),
    (0, 3, 6), (1, 4, 7), (2, 5, 8),
    (0, 4, 8), (2, 4, 6)
  ]

  /** The mark the player to move writes: X when `xIsNext`, otherwise O. */
  function MarkFor(xIsNext: bool): (m: Cell)
    ensures m != Empty
    ensures (m == X) == xIsNext
  {
    if xIsNext then X else O
  }

  /** Line k holds three equal marks. */
  predicate Completed(b: Board, k: nat)
    requires k < |Lines|
  {
    var (p, q, r) := Lines[k];
    b[p] != Empty && b[p] == b[q] && b[p] == b[r]
  }

  /** Line k is the first completed line in the examination order. */
  ghost predicate FirstCompleted(b: Board, k: nat)
  {
    k < |Lines| && Completed(b, k) && forall j :: 0 <= j < k ==> !Completed(b, j)
  }

  ghost predicate NoLine(b: Board)
  {
    forall k :: 0 <= k < |Lines| ==> !Completed(b, k)
  }

  /** The winner as found by examining the lines from index i on. */
  function WinnerFrom(b: Board, i: nat): Option<Cell>
    requires i <= |Lines|
    decreases |Lines| - i
  {
    if i == |Lines| then None
    else if Completed(b, i) then Some(b[Lines[i].0])
    else WinnerFrom(b, i + 1)
  }

  /** The winner of a board: the mark on its first completed line, if any. */
  function Winner(b: Board): Option<Cell>
  {
    WinnerFrom(b, 0)
  }

  lemma {:induction false} WinnerFromSpec(b: Board, i: nat)
    requires i <= |Lines|
    ensures WinnerFrom(b, i).None? <==> forall k :: i <= k < |Lines| ==> !Completed(b, k)
    ensures WinnerFrom(b, i).Some? ==>
      exists k :: i <= k < |Lines| && Completed(b, k) && WinnerFrom(b, i).value == b[Lines[k].0] &&
        forall j :: i <= j < k ==> !Completed(b, j)
    decreases |Lines| - i
  {
    if i < |Lines| && !Completed(b, i) {
      WinnerFromSpec(b, i + 1);
      if WinnerFrom(b, i + 1).Some? {
        var k :| i + 1 <= k < |Lines| && Completed(b, k) && WinnerFrom(b, i + 1).value == b[Lines[k].0] &&
          forall j :: i + 1 <= j < k ==> !Completed(b, j);
        assert forall j :: i <= j < k ==> !Completed(b, j);
      }
    }
  }

  /** `calculateWinner` yields `null` exactly when no line is completed (a full
      board without a line included), and otherwise the mark on the first
      completed line in the order rows, columns, diagonals. */
  lemma WinnerIsFirstCompletedLine(b: Board)
    ensures Winner(b).None? <==> NoLine(b)
    ensures Winner(b).Some? ==>
      exists k: nat :: FirstCompleted(b, k) && Winner(b).value == b[Lines[k].0]
    ensures Winner(b).Some? ==> Winner(b).value != Empty
  {
    WinnerFromSpec(b, 0);
  }

  /** Whatever board is given, any completed line makes the result non-null,
      and when every completed line carries the same mark, that mark wins. */
  lemma {:induction false} CompletedLineWins(b: Board, k: nat, c: Cell)
    requires k < |Lines| && Completed(b, k)
    requires forall j :: 0 <= j < |Lines| && Completed(b, j) ==> b[Lines[j].0] == c
    ensures Winner(b) == Some(c)
  {
    WinnerIsFirstCompletedLine(b);
  }

  lemma EmptyBoardHasNoWinner()
    ensures Winner(EmptyBoard) == None
  {
    WinnerIsFirstCompletedLine(EmptyBoard);
  }

  /** `NoLine` spelled out line by line: a board none of whose eight lines is
      complete has no winner. Stated this way so that a concrete board can be
      checked one line at a time, without instantiating the quantifier. */
  lemma NoCompletedLineNoWinner(b: Board)
    requires !Completed(b, 0) && !Completed(b, 1) && !Completed(b, 2) && !Completed(b, 3)
    requires !Completed(b, 4) && !Completed(b, 5) && !Completed(b, 6) && !Completed(b, 7)
    ensures Winner(b) == None
  {
    WinnerIsFirstCompletedLine(b);
  }

  /** Every full board without a line (a draw) is reported exactly like an
      unfinished game: no winner. */
  lemma DrawIsNotDistinguished(b: Board)
    requires forall i :: 0 <= i < 9 ==> b[i] != Empty
    requires NoLine(b)
    ensures Winner(b) == None
  {
    WinnerIsFirstCompletedLine(b);
  }

  /** Such a draw exists: a full board on which no line is complete. */
  lemma DrawExample()
    ensures var draw: Board := [X, O, X, X, O, O, O, X, X];
      Winner(draw) == None && NoLine(draw) && forall i :: 0 <= i < 9 ==> draw[i] != Empty
  {
    var draw: Board := [X, O, X, X, O, O, O, X, X];
    WinnerIsFirstCompletedLine(draw);
  }

  /** `calculateWinner`: the loop over `lines` with early return. */
  method CalculateWinner(squares: Board) returns (w: Option<Cell>)
    ensures w == Winner(squares)
    ensures w.None? <==> NoLine(squares)
    ensures w.Some? ==> exists k: nat :: FirstCompleted(squares, k) && w.value == squares[Lines[k].0]
  {
    WinnerIsFirstCompletedLine(squares);
    var i := 0;
    while i < |Lines|
      invariant 0 <= i <= |Lines|
      invariant forall j :: 0 <= j < i ==> !Completed(squares, j)
      invariant WinnerFrom(squares, i) == Winner(squares)
    {
      var (a, b, c) := Lines[i];
      if squares[a] != Empty && squares[a] == squares[b] && squares[a] == squares[c] {
        assert FirstCompleted(squares, i);
        return Some(squares[a]);
      }
      i := i + 1;
    }
    return None;
  }

  /** The number of marked squares. */
  function CountMarks(s: seq<Cell>): (n: nat)
    ensures n <= |s|
  {
    if s == [] then 0 else (if s[0] != Empty then 1 else 0) + CountMarks(s[1..])
  }

  /** Marking an empty square adds exactly one mark. */
  lemma {:induction false} CountMarksAfterMove(s: seq<Cell>, i: nat, m: Cell)
    requires i < |s| && s[i] == Empty && m != Empty
    ensures CountMarks(s[i := m]) == CountMarks(s) + 1
  {
    if i > 0 {
      CountMarksAfterMove(s[1..], i - 1, m);
      assert s[i := m][1..] == s[1..][i - 1 := m];
    }
  }

  /** `after` is `before` with one empty square marked `m`. */
  ghost predicate IsMove(before: Board, after: Board, m: Cell)
  {
    exists k :: 0 <= k < 9 && before[k] == Empty && after == before[k := m]
  }

  /** A move onto a board with no line can only complete lines through the
      square it marks, so any winner of the new board is the mover. */
  lemma {:induction false} OnlyTheMoverCanWin(before: Board, after: Board, m: Cell)
    requires Winner(before) == None && IsMove(before, after, m) && m != Empty
    ensures Winner(after).Some? ==> Winner(after) == Some(m)
  {
    WinnerIsFirstCompletedLine(before);
    WinnerIsFirstCompletedLine(after);
    if Winner(after).Some? {
      var idx :| 0 <= idx < 9 && before[idx] == Empty && after == before[idx := m];
      var k: nat :| FirstCompleted(after, k) && Winner(after).value == after[Lines[k].0];
      assert !Completed(before, k);
      var (p, q, r) := Lines[k];
      assert p == idx || q == idx || r == idx;
    }
  }
}
