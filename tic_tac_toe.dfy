/**
 * The tic-tac-toe game of the React tutorial: winner detection over the eight
 * lines of a 3x3 board, the status line, move legality, and the game's history
 * of boards with time travel to any earlier move.
 */
module TicTacToe {
  import opened Prelude

  /** A square: `null`, "X" or "O". */
  datatype Cell = Empty | X | O

  /** The text a mark renders as. */
  function MarkText(c: Cell): string
  {
    match c
    case Empty => ""
    case X => "X"
    case O => "O"
  }

  const BoardSize: nat := 9

  /** `Array(9).fill(null)`. */
  const EmptyBoard: seq<Cell> := seq(BoardSize, _ => Empty)

  /** Three square indices that win when they hold the same mark. */
  datatype Line = Line(a: nat, b: nat, c: nat)

  /** The rows, the columns and the two diagonals, in the order they are tested. */
  const Lines: seq<Line> := [
    Line(0, 1, 2), Line(3, 4, 5), Line(6, 7, 8),
    Line(0, 3, 6), Line(1, 4, 7), Line(2, 5, 8),
    Line(0, 4, 8), Line(2, 4, 6)
  ]

  /** The three squares of `l` hold the same mark. */
  predicate Completes(squares: seq<Cell>, l: Line)
  {
    l.a < |squares| && l.b < |squares| && l.c < |squares|
    && squares[l.a] != Empty && squares[l.a] == squares[l.b] && squares[l.a] == squares[l.c]
  }

  /** The mark of the first completed line at index `k` or later. */
  function WinnerFrom(squares: seq<Cell>, k: nat): (w: Option<Cell>)
    requires k <= |Lines|
    ensures w.None? <==> forall j :: k <= j < |Lines| ==> !Completes(squares, Lines[j])
    ensures w.Some? ==>
      (exists j :: k <= j < |Lines| && Completes(squares, Lines[j])
                   && w.value == squares[Lines[j].a]
                   && forall i :: k <= i < j ==> !Completes(squares, Lines[i]))
    decreases |Lines| - k
  {
    if k == |Lines| then None
    else if Completes(squares, Lines[k]) then Some(squares[Lines[k].a])
    else WinnerFrom(squares, k + 1)
  }

  /** The winner of a board: the mark of its first completed line, if any. */
  function Winner(squares: seq<Cell>): (w: Option<Cell>)
    ensures w.Some? ==> w.value != Empty
  {
    WinnerFrom(squares, 0)
  }

  /** Every line names three squares of the board. */
  lemma LinesInRange()
    ensures forall j :: 0 <= j < |Lines| ==> Lines[j].a < BoardSize && Lines[j].b < BoardSize && Lines[j].c < BoardSize
  {
  }

  /** `calculateWinner`: the loop over the lines with its early return. */
  method CalculateWinner(squares: seq<Cell>) returns (w: Option<Cell>)
    requires |squares| == BoardSize
    ensures w == Winner(squares)
    ensures w.None? <==> forall j :: 0 <= j < |Lines| ==> !Completes(squares, Lines[j])
  {
    LinesInRange();
    for i := 0 to |Lines|
      invariant WinnerFrom(squares, i) == Winner(squares)
    {
      var l := Lines[i];
      assert WinnerFrom(squares, i) == if Completes(squares, l) then Some(squares[l.a]) else WinnerFrom(squares, i + 1);
      if squares[l.a] != Empty && squares[l.a] == squares[l.b] && squares[l.a] == squares[l.c] {
        return Some(squares[l.a]);
      }
    }
    return None;
  }

  /** The status line above the board. */
  function StatusText(winner: Option<Cell>, xIsNext: bool): (s: string)
    ensures winner.Some? ==> s == "Winner: " + MarkText(winner.value)
    ensures winner.None? ==> s == "Next player: " + (if xIsNext then "X" else "O")
  {
    match winner
    case Some(m) => "Winner: " + MarkText(m)
    case None => "Next player: " + (if xIsNext then "X" else "O")
  }

  /** The mark placed on the move after board number `k` of the history. */
  function MarkFor(k: nat): Cell
  {
    if k % 2 == 0 then X else O
  }

  /** `after` is `before` with the empty square `i` set to `m`. */
  predicate PlacesAt(before: seq<Cell>, after: seq<Cell>, m: Cell, i: int)
  {
    0 <= i < |before| && before[i] == Empty && after == before[i := m]
  }

  /** `after` is `before` with one empty square set to `m`. */
  ghost predicate IsMove(before: seq<Cell>, after: seq<Cell>, m: Cell)
  {
    exists i :: PlacesAt(before, after, m, i)
  }

  /** How many squares hold `c`. */
  function Count(squares: seq<Cell>, c: Cell): (n: nat)
    ensures n <= |squares|
  {
    if |squares| == 0 then 0
    else (if squares[0] == c then 1 else 0) + Count(squares[1..], c)
  }

  /** Setting one square moves one unit of count from its old mark to its new one. */
  lemma {:induction false} CountUpdate(squares: seq<Cell>, i: nat, m: Cell, c: Cell)
    requires i < |squares|
    ensures Count(squares[i := m], c)
      == Count(squares, c) - (if squares[i] == c then 1 else 0) + (if m == c then 1 else 0)
    decreases |squares|
  {
    if i > 0 {
      assert squares[i := m][1..] == squares[1..][i - 1 := m];
      CountUpdate(squares[1..], i - 1, m, c);
    } else {
      assert squares[i := m][1..] == squares[1..];
    }
  }

  lemma {:induction false} CountEmptyBoard(n: nat, c: Cell)
    ensures Count(seq(n, _ => Empty), c) == if c == Empty then n else 0
    decreases n
  {
    if n > 0 {
      assert seq(n, _ => Empty)[1..] == seq(n - 1, _ => Empty);
      CountEmptyBoard(n - 1, c);
    }
  }

  /** The empty board holds nine empty squares and no mark. */
  lemma EmptyBoardCounts()
    ensures Count(EmptyBoard, Empty) == BoardSize
    ensures Count(EmptyBoard, X) == 0 && Count(EmptyBoard, O) == 0
  {
    CountEmptyBoard(BoardSize, Empty);
    CountEmptyBoard(BoardSize, X);
    CountEmptyBoard(BoardSize, O);
  }

  /** A move by the player of board `k` turns board-`k` counts into board-`k + 1` counts. */
  lemma MoveCounts(before: seq<Cell>, after: seq<Cell>, k: nat, i: int)
    requires PlacesAt(before, after, MarkFor(k), i)
    requires Count(before, Empty) == BoardSize - k
    requires Count(before, X) == Count(before, O) + k % 2
    ensures Count(after, Empty) == BoardSize - (k + 1)
    ensures Count(after, X) == Count(after, O) + (k + 1) % 2
  {
    var m := MarkFor(k);
    CountUpdate(before, i, m, Empty);
    CountUpdate(before, i, m, X);
    CountUpdate(before, i, m, O);
    if k % 2 == 0 {
      assert m == X && (k + 1) % 2 == 1;
    } else {
      assert m == O && (k + 1) % 2 == 0;
    }
  }

  /** A line completed after a move either was complete before or runs through the move. */
  lemma CompletesAfterMove(squares: seq<Cell>, i: nat, m: Cell, l: Line)
    requires i < |squares| && Completes(squares[i := m], l)
    ensures Completes(squares, l) || squares[i := m][l.a] == m
  {
  }

  /** On a board without a winner, a move can only make its own mark the winner. */
  lemma OnlyMoverCanWin(squares: seq<Cell>, i: nat, m: Cell)
    requires i < |squares| && Winner(squares).None?
    ensures Winner(squares[i := m]) == None || Winner(squares[i := m]) == Some(m)
  {
    var after := squares[i := m];
    var w := Winner(after);
    if w.Some? {
      var j :| 0 <= j < |Lines| && Completes(after, Lines[j]) && w.value == after[Lines[j].a];
      CompletesAfterMove(squares, i, m, Lines[j]);
      assert !Completes(squares, Lines[j]);
    }
  }

  /** The game: the `history` and `currentMove` state of `App`. */
  class Game {
    var history: seq<seq<Cell>>
    var currentMove: nat

    /**
     * History starts from the empty board, each later board is the one before
     * with the next player's mark added, and only the last board can have a
     * winner. `currentMove` points into the history.
     */
    ghost predicate Valid()
      reads this
    {
      |history| >= 1 && currentMove < |history| && history[0] == EmptyBoard
      && (forall k :: 0 <= k < |history| ==> |history[k]| == BoardSize)
      && (forall k :: 0 <= k < |history| - 1 ==> IsMove(history[k], history[k + 1], MarkFor(k)))
      && (forall k :: 0 <= k < |history| - 1 ==> Winner(history[k]).None?)
    }

    /** Initial state: one empty board, at move 0. */
    constructor ()
      ensures Valid()
      ensures history == [EmptyBoard] && currentMove == 0
    {
      history := [EmptyBoard];
      currentMove := 0;
    }

    /** `xIsNext`. */
    function XIsNext(): (b: bool)
      reads this
      ensures b <==> currentMove % 2 == 0
    {
      currentMove % 2 == 0
    }

    /** `currentSquares`. */
    function CurrentSquares(): (squares: seq<Cell>)
      reads this
      requires Valid()
      ensures |squares| == BoardSize
      ensures currentMove == 0 ==> squares == EmptyBoard
    {
      history[currentMove]
    }

    /** The status line for the board on show. */
    method Status() returns (s: string)
      requires Valid()
      ensures s == StatusText(Winner(CurrentSquares()), XIsNext())
    {
      var winner := CalculateWinner(history[currentMove]);
      s := StatusText(winner, XIsNext());
    }

    /**
     * Board `k` has `k` marks, and as many X as O, or one X more: X moves on
     * even boards, O on odd ones.
     */
    lemma {:induction false} BoardCounts(k: nat)
      requires Valid() && k < |history|
      ensures Count(history[k], Empty) == BoardSize - k
      ensures Count(history[k], X) == Count(history[k], O) + k % 2
      decreases k
    {
      if k == 0 {
        EmptyBoardCounts();
      } else {
        BoardCounts(k - 1);
        var before, after := history[k - 1], history[k];
        assert IsMove(before, after, MarkFor(k - 1));
        var i :| PlacesAt(before, after, MarkFor(k - 1), i);
        MoveCounts(before, after, k - 1, i);
      }
    }

    /**
     * `handlePlay`: keep the history up to the board on show, append the new
     * board and show it, discarding any moves that had been undone.
     */
    method HandlePlay(nextSquares: seq<Cell>)
      requires Valid()
      requires IsMove(CurrentSquares(), nextSquares, MarkFor(currentMove))
      requires Winner(CurrentSquares()).None?
      modifies this
      ensures history == old(history[..currentMove + 1]) + [nextSquares]
      ensures currentMove == |history| - 1 == old(currentMove) + 1
      ensures Valid()
    {
      var prefix := history[..currentMove + 1];
      history := prefix + [nextSquares];
      currentMove := |history| - 1;
      assert history[currentMove - 1] == prefix[|prefix| - 1];
      forall k | 0 <= k < |history| - 1
        ensures IsMove(history[k], history[k + 1], MarkFor(k))
        ensures Winner(history[k]).None?
      {
        assert history[k] == prefix[k];
        if k + 1 < |prefix| {
          assert history[k + 1] == prefix[k + 1];
        }
      }
    }

    /**
     * `handleClick` on square `i`: nothing happens on an occupied square or
     * once the board has a winner; otherwise a copy of the board gets the next
     * player's mark at `i` and is played.
     */
    method HandleClick(i: nat)
      requires Valid() && i < BoardSize
      modifies this
      ensures Valid()
      ensures var board := old(CurrentSquares());
        if board[i] != Empty || Winner(board).Some? then
          history == old(history) && currentMove == old(currentMove)
        else
          history == old(history[..currentMove + 1]) + [board[i := MarkFor(old(currentMove))]]
          && currentMove == old(currentMove) + 1
    {
      var squares := history[currentMove];
      var winner := CalculateWinner(squares);
      if squares[i] != Empty || winner.Some? {
        return;
      }
      var nextSquares := new Cell[BoardSize](j requires 0 <= j < BoardSize => squares[j]);
      if XIsNext() {
        nextSquares[i] := X;
      } else {
        nextSquares[i] := O;
      }
      assert nextSquares[..] == squares[i := MarkFor(currentMove)];
      assert PlacesAt(squares, nextSquares[..], MarkFor(currentMove), i);
      HandlePlay(nextSquares[..]);
    }

    /** `jumpTo`: show an earlier (or later) board of the history; the history is kept. */
    method JumpTo(nextMove: nat)
      requires Valid() && nextMove < |history|
      modifies this
      ensures history == old(history) && currentMove == nextMove
      ensures Valid()
    {
      currentMove := nextMove;
    }
  }
}
