/** The 3x3 board shared by both rule engines: cells, coordinates, the eight
    winning lines, and the two read-only scans an engine runs after a move
    (the winner check and the full-board check). */
module Grid {

  /** What a board button shows: nothing, "X" or "O". */
  datatype Cell = Empty | X | O

  /** A row or column number. */
  type Coord = i: int | 0 <= i < 3

  /** A cell address: row, then column. */
  datatype Pos = Pos(row: Coord, col: Coord)

  /** A snapshot of the board, row-major: the cell at (r, c) is b[3 * r + c]. */
  type Board = b: seq<Cell> | |b| == 9
    witness [Empty, Empty, Empty, Empty, Empty, Empty, Empty, Empty, Empty]

  /** The board with every button blank. */
  const Cleared: Board := [Empty, Empty, Empty, Empty, Empty, Empty, Empty, Empty, Empty]

  /** The symbol of the player to move: "X" on X's turn, "O" otherwise. */
  function Symbol(xTurn: bool): (c: Cell)
    ensures c != Empty
    ensures c == X <==> xTurn
  {
    if xTurn then X else O
  }

  /** Where the cell at `p` sits in a board snapshot: three slots per row
      before it, then its column (written as a sum, which keeps the
      arithmetic linear for the solver). */
  function Index(p: Pos): nat
  {
    p.row + p.row + p.row + p.col
  }

  /** The cell address stored at slot `i`; the inverse of Index. */
  function PosOf(i: nat): (p: Pos)
    requires i < 9
    ensures Index(p) == i
  {
    Pos(i / 3, i % 3)
  }

  /** Distinct cells sit in distinct slots. */
  lemma IndexInjective(p: Pos, q: Pos)
    ensures Index(p) == Index(q) ==> p == q
  {
  }

  function At(b: Board, p: Pos): Cell
  {
    b[Index(p)]
  }

  /** Three cells in a row, column or diagonal. */
  datatype Line = Line(first: Pos, second: Pos, third: Pos)

  /** The eight winning lines: rows 0-2, columns 0-2 (as lines 3-5), then the
      diagonal and the anti-diagonal. */
  function LineAt(k: nat): Line
    requires k < 8
  {
    match k
    case 0 => Line(Pos(0, 0), Pos(0, 1), Pos(0, 2))
    case 1 => Line(Pos(1, 0), Pos(1, 1), Pos(1, 2))
    case 2 => Line(Pos(2, 0), Pos(2, 1), Pos(2, 2))
    case 3 => Line(Pos(0, 0), Pos(1, 0), Pos(2, 0))
    case 4 => Line(Pos(0, 1), Pos(1, 1), Pos(2, 1))
    case 5 => Line(Pos(0, 2), Pos(1, 2), Pos(2, 2))
    case 6 => Line(Pos(0, 0), Pos(1, 1), Pos(2, 2))
    case _ => Line(Pos(0, 2), Pos(1, 1), Pos(2, 0))
  }

  /** Every cell of `line` shows `s`. */
  predicate Filled(b: Board, s: Cell, line: Line)
  {
    At(b, line.first) == s && At(b, line.second) == s && At(b, line.third) == s
  }

  /** One of the lines numbered lo .. hi-1 is entirely `s`. */
  ghost predicate LineIn(b: Board, s: Cell, lo: nat, hi: nat)
    requires lo <= hi <= 8
    decreases hi - lo
  {
    lo < hi && (Filled(b, s, LineAt(lo)) || LineIn(b, s, lo + 1, hi))
  }

  /** Some row, column or diagonal is entirely `s`. */
  ghost predicate HasLine(b: Board, s: Cell)
  {
    LineIn(b, s, 0, 8)
  }

  /** A range of lines splits into two consecutive ranges. */
  lemma {:induction false} LineInSplit(b: Board, s: Cell, lo: nat, mid: nat, hi: nat)
    requires lo <= mid <= hi <= 8
    decreases mid - lo
    ensures LineIn(b, s, lo, hi) <==> LineIn(b, s, lo, mid) || LineIn(b, s, mid, hi)
  {
    if lo < mid {
      LineInSplit(b, s, lo + 1, mid, hi);
      var here := Filled(b, s, LineAt(lo));
      assert LineIn(b, s, lo, hi) == (here || LineIn(b, s, lo + 1, hi));
      assert LineIn(b, s, lo, mid) == (here || LineIn(b, s, lo + 1, mid));
    }
  }

  /** The row scan of the winner check: is one of the rows i .. 2 all `s`? */
  function RowWinFrom(b: Board, s: Cell, i: nat): (won: bool)
    requires i <= 3
    decreases 3 - i
    ensures won <==> LineIn(b, s, i, 3)
  {
    if i == 3 then false
    else
      assert LineAt(i) == Line(Pos(i, 0), Pos(i, 1), Pos(i, 2));
      Filled(b, s, Line(Pos(i, 0), Pos(i, 1), Pos(i, 2))) || RowWinFrom(b, s, i + 1)
  }

  /** The column scan of the winner check: is one of the columns j .. 2 all `s`? */
  function ColumnWinFrom(b: Board, s: Cell, j: nat): (won: bool)
    requires j <= 3
    decreases 3 - j
    ensures won <==> LineIn(b, s, 3 + j, 6)
  {
    if j == 3 then false
    else
      assert LineAt(3 + j) == Line(Pos(0, j), Pos(1, j), Pos(2, j));
      Filled(b, s, Line(Pos(0, j), Pos(1, j), Pos(2, j))) || ColumnWinFrom(b, s, j + 1)
  }

  /** The winner check on a copy of the board, as the queue-mode frame runs
      it: rows, then columns, then the two diagonals. It holds exactly when
      some line of the board is entirely `s`. */
  function Wins(b: Board, s: Cell): (won: bool)
    ensures won <==> HasLine(b, s)
  {
    LineInSplit(b, s, 0, 3, 8);
    LineInSplit(b, s, 3, 6, 8);
    LineInSplit(b, s, 6, 7, 8);
    RowWinFrom(b, s, 0) || ColumnWinFrom(b, s, 0)
    || (At(b, Pos(0, 0)) == s && At(b, Pos(1, 1)) == s && At(b, Pos(2, 2)) == s)
    || (At(b, Pos(0, 2)) == s && At(b, Pos(1, 1)) == s && At(b, Pos(2, 0)) == s)
  }

  /** The lines lo .. hi-1 hold a line of `s` if line `k` among them does. */
  lemma FilledLineIn(b: Board, s: Cell, lo: nat, k: nat, hi: nat)
    requires lo <= k < hi <= 8
    requires Filled(b, s, LineAt(k))
    ensures LineIn(b, s, lo, hi)
  {
    LineInSplit(b, s, lo, k, hi);
  }

  /** Extending a range of lines by one more line. */
  lemma LineInExtend(b: Board, s: Cell, k: nat)
    requires k < 8
    ensures LineIn(b, s, 0, k + 1) <==> LineIn(b, s, 0, k) || Filled(b, s, LineAt(k))
  {
    LineInSplit(b, s, 0, k, k + 1);
  }

  /** No button is blank. */
  ghost predicate Full(b: Board)
  {
    forall p: Pos :: At(b, p) != Empty
  }

  /** The slots among 0 .. n-1 of `b` that show `c`. */
  ghost function MarksBelow(b: Board, c: Cell, n: nat): set<nat>
  {
    set i: nat | i < n && i < 9 && b[i] == c
  }

  /** The slots of `b` that show `c`. */
  ghost function Marks(b: Board, c: Cell): set<nat>
  {
    MarksBelow(b, c, 9)
  }

  /** How many buttons show `c`. */
  ghost function MarkCount(b: Board, c: Cell): nat
  {
    |Marks(b, c)|
  }

  /** Each of the first n slots shows exactly one of blank, "X" and "O". */
  lemma {:induction false} CountsBelow(b: Board, n: nat)
    requires n <= 9
    ensures |MarksBelow(b, Empty, n)| + |MarksBelow(b, X, n)| + |MarksBelow(b, O, n)| == n
  {
    if n > 0 {
      CountsBelow(b, n - 1);
      var c := b[n - 1];
      assert MarksBelow(b, c, n) == MarksBelow(b, c, n - 1) + {n - 1};
      forall d | d != c ensures MarksBelow(b, d, n) == MarksBelow(b, d, n - 1) {
      }
    }
  }

  /** Every button shows exactly one of blank, "X" and "O". */
  lemma CountsPartition(b: Board)
    ensures MarkCount(b, Empty) + MarkCount(b, X) + MarkCount(b, O) == 9
  {
    CountsBelow(b, 9);
  }

  /** A board is full exactly when no slot is blank. */
  lemma FullMeansNoBlank(b: Board)
    ensures Full(b) <==> Marks(b, Empty) == {}
  {
    if Full(b) {
      forall k | 0 <= k < 9 ensures b[k] != Empty {
        assert At(b, PosOf(k)) != Empty;
      }
    } else {
      var p: Pos :| At(b, p) == Empty;
      assert Index(p) in Marks(b, Empty);
    }
  }

  /** Writing `c` into slot `k` adds `k` to the slots showing `c` and takes it
      away from the slots showing anything else. */
  lemma MarksAfterWrite(b: Board, k: nat, c: Cell, d: Cell)
    requires k < 9
    ensures Marks(b[k := c], d) == if c == d then Marks(b, d) + {k} else Marks(b, d) - {k}
  {
  }

  /** Writing something other than `s` into a cell cannot complete a line of `s`. */
  lemma WriteOtherKeepsNoLine(b: Board, k: nat, c: Cell, s: Cell)
    requires k < 9 && c != s
    requires !HasLine(b, s)
    ensures !HasLine(b[k := c], s)
  {
    WriteOtherKeepsNoLineIn(b, k, c, s, 0);
  }

  lemma {:induction false} WriteOtherKeepsNoLineIn(b: Board, k: nat, c: Cell, s: Cell, lo: nat)
    requires k < 9 && c != s && lo <= 8
    requires !LineIn(b, s, lo, 8)
    decreases 8 - lo
    ensures !LineIn(b[k := c], s, lo, 8)
  {
    if lo < 8 {
      WriteOtherKeepsNoLineIn(b, k, c, s, lo + 1);
    }
  }

  /** A mark that appears nowhere on the board forms no line. */
  lemma NoLineWithoutMark(b: Board, s: Cell)
    requires forall p: Pos :: At(b, p) != s
    ensures !HasLine(b, s)
  {
  }

  /** The 3x3 grid of board buttons, holding the text each one shows. */
  class ButtonGrid {
    const cells: array2<Cell>

    ghost predicate Valid()
    {
      cells.Length0 == 3 && cells.Length1 == 3
    }

    /** The button texts read out row by row. */
    function Read(): Board
      reads cells
      requires Valid()
    {
      [cells[0, 0], cells[0, 1], cells[0, 2],
       cells[1, 0], cells[1, 1], cells[1, 2],
       cells[2, 0], cells[2, 1], cells[2, 2]]
    }

    lemma ReadAt(p: Pos)
      requires Valid()
      ensures At(Read(), p) == cells[p.row, p.col]
    {
    }

    lemma ReadIs(b: Board)
      requires Valid()
      requires forall p: Pos :: cells[p.row, p.col] == At(b, p)
      ensures Read() == b
    {
      forall i | 0 <= i < 9 ensures Read()[i] == b[i] {
        ReadAt(PosOf(i));
      }
    }

    /** Nine blank buttons. */
    constructor ()
      ensures Valid() && fresh(cells)
      ensures Read() == Cleared
    {
      cells := new Cell[3, 3]((r, c) => Empty);
    }

    /** The text of the button at (row, col). */
    function Get(row: int, col: int): (c: Cell)
      reads cells
      requires Valid()
      requires 0 <= row < 3 && 0 <= col < 3
      ensures c == At(Read(), Pos(row, col))
    {
      ReadAt(Pos(row, col));
      cells[row, col]
    }

    /** Set the text of the button at (row, col); no other button changes. */
    method Set(row: int, col: int, c: Cell)
      requires Valid()
      requires 0 <= row < 3 && 0 <= col < 3
      modifies cells
      ensures Read() == old(Read())[Index(Pos(row, col)) := c]
    {
      ghost var was := Read();
      forall p: Pos ensures cells[p.row, p.col] == At(was, p) {
        ReadAt(p);
      }
      cells[row, col] := c;
      ghost var want := was[Index(Pos(row, col)) := c];
      forall p: Pos ensures cells[p.row, p.col] == At(want, p) {
        IndexInjective(p, Pos(row, col));
      }
      ReadIs(want);
    }

    /** The winner check run right after a move: the rows, then the columns,
        then the two diagonals, stopping at the first line entirely `s`. It
        answers true exactly when some line of the board is entirely `s`. */
    method CheckWinner(s: Cell) returns (won: bool)
      requires Valid()
      ensures won <==> HasLine(Read(), s)
    {
      ghost var b := Read();
      forall p: Pos ensures cells[p.row, p.col] == At(b, p) {
        ReadAt(p);
      }
      for i := 0 to 3
        invariant !LineIn(b, s, 0, i)
      {
        assert LineAt(i) == Line(Pos(i, 0), Pos(i, 1), Pos(i, 2));
        if cells[i, 0] == s && cells[i, 1] == s && cells[i, 2] == s {
          FilledLineIn(b, s, 0, i, 8);
          return true;
        }
        LineInExtend(b, s, i);
      }
      for j := 0 to 3
        invariant !LineIn(b, s, 0, 3 + j)
      {
        assert LineAt(3 + j) == Line(Pos(0, j), Pos(1, j), Pos(2, j));
        if cells[0, j] == s && cells[1, j] == s && cells[2, j] == s {
          FilledLineIn(b, s, 0, 3 + j, 8);
          return true;
        }
        LineInExtend(b, s, 3 + j);
      }
      if cells[0, 0] == s && cells[1, 1] == s && cells[2, 2] == s {
        FilledLineIn(b, s, 0, 6, 8);
        return true;
      }
      LineInExtend(b, s, 6);
      if cells[0, 2] == s && cells[1, 1] == s && cells[2, 0] == s {
        FilledLineIn(b, s, 0, 7, 8);
        return true;
      }
      LineInExtend(b, s, 7);
      return false;
    }

    /** The full-board check: scan the buttons row by row and answer false at
        the first blank one. */
    method IsBoardFull() returns (full: bool)
      requires Valid()
      ensures full <==> Full(Read())
    {
      for i := 0 to 3
        invariant forall r, c :: 0 <= r < i && 0 <= c < 3 ==> cells[r, c] != Empty
      {
        for j := 0 to 3
          invariant forall c :: 0 <= c < j ==> cells[i, c] != Empty
        {
          if cells[i, j] == Empty {
            ReadAt(Pos(i, j));
            return false;
          }
        }
      }
      forall p: Pos ensures At(Read(), p) != Empty {
        ReadAt(p);
      }
      return true;
    }

    /** Blank every button, row by row. */
    method Clear()
      requires Valid()
      modifies cells
      ensures Read() == Cleared
    {
      for i := 0 to 3
        invariant forall r, c :: 0 <= r < i && 0 <= c < 3 ==> cells[r, c] == Empty
      {
        for j := 0 to 3
          invariant forall r, c :: 0 <= r < i && 0 <= c < 3 ==> cells[r, c] == Empty
          invariant forall c :: 0 <= c < j ==> cells[i, c] == Empty
        {
          cells[i, j] := Empty;
        }
      }
      ReadIs(Cleared);
    }
  }
}
