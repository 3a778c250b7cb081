/** The classic engine: a click places the current player's mark on a blank
    cell, then the engine looks for a completed line of that mark, then for a
    full board, and otherwise passes the turn. */
module Classic {
  import opened Grid

  /** The engine's state: the board, whose turn it is, and whether the game
      has ended. */
  datatype State = State(board: Board, playerXTurn: bool, gameOver: bool)

  /** What a click leads to. `Won` and `Draw` are the two cases in which the
      engine also schedules its automatic reset. */
  datatype Outcome = Ignored | Won(winner: Cell) | Draw | Continue

  datatype Transition = Transition(next: State, outcome: Outcome)

  /** The state after construction or a reset. */
  function Init(): (s: State)
    ensures forall p: Pos :: At(s.board, p) == Empty
    ensures s.playerXTurn && !s.gameOver
  {
    State(Cleared, true, false)
  }

  /** A click on the cell (row, col): ignored on an ended game or a marked
      cell, otherwise played by Place. */
  ghost function Step(s: State, row: int, col: int): (t: Transition)
    requires 0 <= row < 3 && 0 <= col < 3
    ensures t.outcome == Ignored <==> s.gameOver || At(s.board, Pos(row, col)) != Empty
    ensures t.outcome == Ignored ==> t.next == s
  {
    var pos := Pos(row, col);
    if s.gameOver || At(s.board, pos) != Empty then Transition(s, Ignored) else Place(s, pos)
  }

  /** An accepted click: the mover's mark goes on `pos`, then the engine
      checks for a line of that mark, then for a full board. */
  ghost function Place(s: State, pos: Pos): (t: Transition)
    requires !s.gameOver && At(s.board, pos) == Empty
    // the mover's mark lands on the clicked cell and nowhere else
    ensures t.next.board == s.board[Index(pos) := Symbol(s.playerXTurn)]
    // the mover wins exactly when the new board has a line of the mover's mark
    ensures t.outcome == Won(Symbol(s.playerXTurn)) <==> HasLine(t.next.board, Symbol(s.playerXTurn))
    // a draw is declared only without such a line and on a board with no blank cell
    ensures t.outcome == Draw <==> !HasLine(t.next.board, Symbol(s.playerXTurn)) && Full(t.next.board)
    // only the mover can be credited with a win
    ensures t.outcome.Won? ==> t.outcome.winner == Symbol(s.playerXTurn)
    ensures t.outcome != Ignored
    // a win or a draw ends the game and keeps the turn; otherwise the turn passes
    ensures t.next.gameOver <==> t.outcome != Continue
    ensures t.next.playerXTurn != s.playerXTurn <==> t.outcome == Continue
  {
    var symbol := Symbol(s.playerXTurn);
    var board := s.board[Index(pos) := symbol];
    var outcome := if Wins(board, symbol) then Won(symbol) else if Full(board) then Draw else Continue;
    var over := outcome != Continue;
    Transition(State(board, if over then s.playerXTurn else !s.playerXTurn, over), outcome)
  }

  /** What the frame can do to the engine: a click on a cell, or a reset
      (the Reset button, or the automatic reset after a win or a draw). */
  datatype Event = Click(pos: Pos) | ResetGame

  ghost function Apply(s: State, e: Event): State
  {
    match e
    case Click(p) => Step(s, p.row, p.col).next
    case ResetGame => Init()
  }

  ghost function Run(s: State, events: seq<Event>): State
    decreases |events|
  {
    if events == [] then s else Run(Apply(s, events[0]), events[1..])
  }

  /** X has either as many marks as O or one more: one more exactly when X
      moved last (in a running game the turn has passed to O, in an ended
      game it stayed with X). */
  ghost predicate Balanced(s: State)
  {
    MarkCount(s.board, X) == MarkCount(s.board, O) + (if s.playerXTurn == s.gameOver then 1 else 0)
  }

  /** The player who did not move last never has a line. A running game has
      no line and a blank cell; an ended game has a line of the last mover or
      a full board. */
  ghost predicate Settled(s: State)
  {
    && !HasLine(s.board, Symbol(!s.playerXTurn))
    && (s.gameOver ==> HasLine(s.board, Symbol(s.playerXTurn)) || Full(s.board))
    && (!s.gameOver ==> !HasLine(s.board, Symbol(s.playerXTurn)) && !Full(s.board))
  }

  /** The engine invariant. */
  ghost predicate Inv(s: State)
  {
    Balanced(s) && Settled(s)
  }

  lemma InitInv()
    ensures Inv(Init())
  {
    var b := Init().board;
    assert Marks(b, X) == {} && Marks(b, O) == {};
    assert At(b, Pos(0, 0)) == Empty;
    NoLineWithoutMark(b, X);
    NoLineWithoutMark(b, O);
  }

  lemma StepPreservesInv(s: State, row: int, col: int)
    requires Inv(s)
    requires 0 <= row < 3 && 0 <= col < 3
    ensures Inv(Step(s, row, col).next)
  {
    var pos := Pos(row, col);
    if !s.gameOver && At(s.board, pos) == Empty {
      PlaceKeepsBalanced(s, pos);
      PlaceKeepsSettled(s, pos);
    }
  }

  /** The mover gains one mark and the other player keeps theirs. */
  lemma PlaceKeepsBalanced(s: State, pos: Pos)
    requires Balanced(s)
    requires !s.gameOver && At(s.board, pos) == Empty
    ensures Balanced(Place(s, pos).next)
  {
    var mover, other := Symbol(s.playerXTurn), Symbol(!s.playerXTurn);
    var k := Index(pos);
    var n := Place(s, pos).next;
    MarksAfterWrite(s.board, k, mover, mover);
    MarksAfterWrite(s.board, k, mover, other);
    assert k !in Marks(s.board, mover) && k !in Marks(s.board, other);
    assert MarkCount(n.board, mover) == MarkCount(s.board, mover) + 1;
    assert MarkCount(n.board, other) == MarkCount(s.board, other);
  }

  /** The other player still has no line; the mover's line or the full board
      is what ends the game. */
  lemma PlaceKeepsSettled(s: State, pos: Pos)
    requires Settled(s)
    requires !s.gameOver && At(s.board, pos) == Empty
    ensures Settled(Place(s, pos).next)
  {
    var mover, other := Symbol(s.playerXTurn), Symbol(!s.playerXTurn);
    WriteOtherKeepsNoLine(s.board, Index(pos), mover, other);
  }

  lemma {:induction false} RunPreservesInv(s: State, events: seq<Event>)
    requires Inv(s)
    ensures Inv(Run(s, events))
    decreases |events|
  {
    if events != [] {
      match events[0] {
        case Click(p) => StepPreservesInv(s, p.row, p.col);
        case ResetGame => InitInv();
      }
      RunPreservesInv(Apply(s, events[0]), events[1..]);
    }
  }

  /** Whatever the frame does after construction: X has as many marks as O
      or one more, at most one player has a completed line, and a game still
      in progress has a blank cell left to click. */
  lemma Reachable(events: seq<Event>)
    ensures var s := Run(Init(), events);
      && (MarkCount(s.board, X) == MarkCount(s.board, O)
          || MarkCount(s.board, X) == MarkCount(s.board, O) + 1)
      && !(HasLine(s.board, X) && HasLine(s.board, O))
      && (!s.gameOver ==> !Full(s.board))
  {
    InitInv();
    RunPreservesInv(Init(), events);
  }

  /** The frame's move code, stated field by field, computes what Place
      specifies, and keeps the invariant. */
  lemma PlaceMatches(s: State, pos: Pos, n: State, outcome: Outcome)
    requires Inv(s) && !s.gameOver && At(s.board, pos) == Empty
    requires n.board == s.board[Index(pos) := Symbol(s.playerXTurn)]
    requires outcome == (if Wins(n.board, Symbol(s.playerXTurn)) then Won(Symbol(s.playerXTurn))
                         else if Full(n.board) then Draw else Continue)
    requires n.gameOver == (outcome != Continue)
    requires n.playerXTurn == (if outcome == Continue then !s.playerXTurn else s.playerXTurn)
    ensures Transition(n, outcome) == Place(s, pos)
    ensures Inv(n)
  {
    PlaceKeepsBalanced(s, pos);
    PlaceKeepsSettled(s, pos);
  }

  /** The game frame: the board buttons, whose turn it is, and whether the
      game has ended. */
  class ClassicGame {
    const buttons: ButtonGrid
    var playerXTurn: bool
    var gameOver: bool

    ghost predicate Valid()
      reads this, buttons.cells
    {
      buttons.Valid() && Inv(Snapshot())
    }

    function Snapshot(): State
      reads this, buttons.cells
      requires buttons.Valid()
    {
      State(buttons.Read(), playerXTurn, gameOver)
    }

    constructor ()
      ensures Valid() && fresh(buttons) && fresh(buttons.cells)
      ensures Snapshot() == Init()
    {
      buttons := new ButtonGrid();
      playerXTurn := true;
      gameOver := false;
      new;
      InitInv();
    }

    /** A click on the button at (row, col). */
    method Move(row: int, col: int) returns (outcome: Outcome)
      requires Valid()
      requires 0 <= row < 3 && 0 <= col < 3
      modifies this, buttons.cells
      ensures Valid()
      ensures Transition(Snapshot(), outcome) == Step(old(Snapshot()), row, col)
    {
      ghost var before := Snapshot();
      if gameOver {
        return Ignored;
      }
      if buttons.Get(row, col) != Empty {
        return Ignored;
      }
      var symbol := Symbol(playerXTurn);
      buttons.Set(row, col, symbol);
      var won := buttons.CheckWinner(symbol);
      if won {
        gameOver := true;
        outcome := Won(symbol);
      } else {
        var full := buttons.IsBoardFull();
        if full {
          gameOver := true;
          outcome := Draw;
        } else {
          playerXTurn := !playerXTurn;
          outcome := Continue;
        }
      }
      PlaceMatches(before, Pos(row, col), Snapshot(), outcome);
    }

    /** Blank every button, then hand the first move to X. */
    method Reset()
      requires Valid()
      modifies this, buttons.cells
      ensures Valid()
      ensures Snapshot() == Init()
    {
      buttons.Clear();
      gameOver := false;
      playerXTurn := true;
      InitInv();
    }
  }
}
