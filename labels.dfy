/** The texts the game shows: the status line and the move-list labels,
    with the decimal rendering of a move number that the latter uses. */
module Labels {
  import opened Board

  /** How a square's mark is written. */
  function CellText(c: Cell): string
  {
    match c
    case Empty => ""
    case X => "X"
    case O => "O"
  }

  predicate AnnouncesWinner(s: string)
  {
    |s| >= 8 && s[..8] == "Winner: "
  }

  /** The status line for a board's winner (if any) and the turn flag. */
  function StatusText(winner: Option<Cell>, xIsNext: bool): (r: string)
    ensures AnnouncesWinner(r) <==> winner.Some?
    ensures winner.Some? ==> r[8..] == CellText(winner.value)
    ensures winner.None? ==> |r| > 13 && r[..13] == "Next player: " && r[13..] == CellText(MarkFor(xIsNext))
  {
    match winner
    case Some(w) => "Winner: " + CellText(w)
    case None =>
      var r := "Next player: " + CellText(MarkFor(xIsNext));
      assert r[0] == 'N';
      r
  }

  predicate IsDigit(c: char)
  {
    '0' <= c <= '9'
  }

  function DigitChar(d: nat): (c: char)
    requires d < 10
    ensures IsDigit(c)
  {
    (d + '0' as int) as char
  }

  function DigitValue(c: char): (d: nat)
    requires IsDigit(c)
    ensures d < 10
  {
    c as int - '0' as int
  }

  /** The decimal numeral of n, as JavaScript writes a non-negative integer:
      only digits, and no leading zero. */
  function DecimalText(n: nat): (s: string)
    ensures |s| > 0 && IsNumeral(s)
    ensures s[0] == '0' <==> n == 0
    ensures |s| > 1 ==> s[0] != '0'
  {
    if n < 10 then [DigitChar(n)] else DecimalText(n / 10) + [DigitChar(n % 10)]
  }

  predicate IsNumeral(s: string)
  {
    forall i :: 0 <= i < |s| ==> IsDigit(s[i])
  }

  /** The number a string of digits denotes. */
  function DecimalValue(s: string): nat
    requires IsNumeral(s)
  {
    if |s| == 0 then 0 else DecimalValue(s[..|s| - 1]) * 10 + DigitValue(s[|s| - 1])
  }

  /** Reading a numeral back gives the number it was written from. */
  lemma {:induction false} DecimalRoundTrip(n: nat)
    ensures DecimalValue(DecimalText(n)) == n
  {
    var s := DecimalText(n);
    if n >= 10 {
      DecimalRoundTrip(n / 10);
      assert s[..|s| - 1] == DecimalText(n / 10);
    }
  }

  /** The label of the move-list button for history entry `move`: the first
      entry returns to the game start; any other names its move number. */
  function MoveLabel(move: nat): (r: string)
    ensures r == "Go to game start" <==> move == 0
    ensures move > 0 ==> |r| > 12 && r[..12] == "Go to move #" && IsNumeral(r[12..]) && r[12] != '0' && DecimalValue(r[12..]) == move
  {
    if move == 0 then "Go to game start"
    else
      var r := "Go to move #" + DecimalText(move);
      DecimalRoundTrip(move);
      assert r[12..] == DecimalText(move);
      assert r[6] == 'm';
      r
  }
}
