/** The queue-mode engine: each player keeps at most three marks in a queue
    of their moves, oldest first. A fourth mark pushes the oldest one out of
    the queue and flags it for removal; the flagged mark stays on the board
    (and still counts for a line) until the next accepted click erases it.
    There is no draw check in this mode. */
module QueueMode {
  import opened Grid

  datatype Option<T> = None | Some(value: T)

  /** The engine's state. `pendingSymbol` is Empty when nothing is flagged
      (the blank string of the frame). */
  datatype State = State(
    board: Board,
    playerXTurn: bool,
    gameOver: bool,
    xMoves: seq<Pos>,
    oMoves: seq<Pos>,
    pendingRemove: Option<Pos>,
    pendingSymbol: Cell)

  /** What a click leads to. `Blocked` is the answer for a click on the cell
      flagged for removal. */
  datatype Outcome = Ignored | Blocked | Won(winner: Cell) | Continue

  datatype Transition = Transition(next: State, outcome: Outcome)

  /** How many marks a player's queue keeps. */
  const Capacity := 3

  /** The state after construction or a reset: blank board, empty queues,
      nothing flagged, X to move. */
  function Init(): (s: State)
    ensures forall p: Pos :: At(s.board, p) == Empty
    ensures s.xMoves == [] && s.oMoves == []
    ensures s.pendingRemove == None && s.pendingSymbol == Empty
    ensures s.playerXTurn && !s.gameOver
  {
    State(Cleared, true, false, [], [], None, Empty)
  }

  /** The queue of the player to move. */
  function MoverQueue(s: State): seq<Pos>
  {
    if s.playerXTurn then s.xMoves else s.oMoves
  }

  /** The queue of the player whose mark is `c`. */
  function QueueOf(s: State, c: Cell): seq<Pos>
  {
    if c == X then s.xMoves else s.oMoves
  }

  /** The board once the flagged mark is erased: the cell is blanked only if
      it still shows the flagged symbol. */
  function AfterErase(s: State): Board
  {
    match s.pendingRemove
    case None => s.board
    case Some(p) => if At(s.board, p) == s.pendingSymbol then s.board[Index(p) := Empty] else s.board
  }

  /** A click on the cell (row, col): ignored on an ended game or a marked
      cell, refused on the flagged cell, otherwise played by Place. */
  ghost function Step(s: State, row: int, col: int): (t: Transition)
    requires 0 <= row < 3 && 0 <= col < 3
    ensures t.outcome == Ignored <==> s.gameOver || At(s.board, Pos(row, col)) != Empty
    ensures t.outcome == Blocked <==>
      !s.gameOver && At(s.board, Pos(row, col)) == Empty && s.pendingRemove == Some(Pos(row, col))
    ensures t.outcome in {Ignored, Blocked} ==> t.next == s
  {
    var pos := Pos(row, col);
    if s.gameOver || At(s.board, pos) != Empty then Transition(s, Ignored)
    else if s.pendingRemove == Some(pos) then Transition(s, Blocked)
    else Place(s, pos)
  }

  /** An accepted click: the flagged mark (if any) is erased and the flag
      cleared, the mover's mark goes on `pos` and joins the mover's queue; a
      queue grown past Capacity gives up its oldest entry, which becomes the
      new flagged cell; then the engine checks for a line of the mover's mark
      on the board as it now stands. */
  ghost function Place(s: State, pos: Pos): (t: Transition)
    requires !s.gameOver && At(s.board, pos) == Empty && s.pendingRemove != Some(pos)
    // the mover's mark lands on the clicked cell
    ensures t.next.board == AfterErase(s)[Index(pos) := Symbol(s.playerXTurn)]
    // the other player's queue is untouched; the mover's queue gains `pos`
    // at the back, and if it was full its front entry moves to the flag
    ensures (if s.playerXTurn then t.next.oMoves == s.oMoves else t.next.xMoves == s.xMoves)
    ensures |MoverQueue(s)| < Capacity ==>
      QueueOf(t.next, Symbol(s.playerXTurn)) == MoverQueue(s) + [pos] && t.next.pendingRemove == None
    ensures |MoverQueue(s)| >= Capacity ==>
      QueueOf(t.next, Symbol(s.playerXTurn)) == MoverQueue(s)[1..] + [pos]
      && t.next.pendingRemove == Some(MoverQueue(s)[0])
    ensures t.next.pendingSymbol == (if t.next.pendingRemove.Some? then Symbol(s.playerXTurn) else Empty)
    // the mover wins exactly when the board has a line of the mover's mark
    ensures t.outcome == Won(Symbol(s.playerXTurn)) <==> HasLine(t.next.board, Symbol(s.playerXTurn))
    // only the mover can be credited with a win
    ensures t.outcome.Won? ==> t.outcome.winner == Symbol(s.playerXTurn)
    ensures t.outcome.Won? || t.outcome == Continue
    // a win ends the game and keeps the turn; otherwise the turn passes
    ensures t.next.gameOver <==> t.outcome.Won?
    ensures t.next.playerXTurn != s.playerXTurn <==> t.outcome == Continue
  {
    var symbol := Symbol(s.playerXTurn);
    var board := AfterErase(s)[Index(pos) := symbol];
    var queue := MoverQueue(s) + [pos];
    var overflow := |queue| > Capacity;
    var kept := if overflow then queue[1..] else queue;
    var pending := if overflow then Some(queue[0]) else None;
    var pendingSymbol := if overflow then symbol else Empty;
    assert overflow ==> kept == MoverQueue(s)[1..] + [pos];
    var xMoves := if s.playerXTurn then kept else s.xMoves;
    var oMoves := if s.playerXTurn then s.oMoves else kept;
    if Wins(board, symbol) then
      Transition(State(board, s.playerXTurn, true, xMoves, oMoves, pending, pendingSymbol), Won(symbol))
    else
      Transition(State(board, !s.playerXTurn, false, xMoves, oMoves, pending, pendingSymbol), Continue)
  }

  /** What the frame can do to the engine: a click on a cell, or the Reset
      button. */
  datatype Event = Click(pos: Pos) | ResetGame

  ghost function Apply(s: State, e: Event): State
  {
    match e
    case Click(p) => Step(s, p.row, p.col).next
    case ResetGame => Init()
  }

  ghost function Run(s: State, events: seq<Event>): State
    decreases |events|
  {
    if events == [] then s else Run(Apply(s, events[0]), events[1..])
  }

  // ---------------------------------------------------------------------
  // The invariant

  /** No cell occurs twice in `q`. */
  ghost predicate Distinct(q: seq<Pos>)
  {
    forall i, j :: 0 <= i < j < |q| ==> q[i] != q[j]
  }

  /** The board slots of the cells in `q`. */
  ghost function Slots(q: seq<Pos>): set<nat>
  {
    set p | p in q :: Index(p)
  }

  /** The slot flagged for removal, if the flagged mark is `c`. */
  ghost function PendingSlots(s: State, c: Cell): set<nat>
  {
    if s.pendingRemove.Some? && s.pendingSymbol == c then {Index(s.pendingRemove.value)} else {}
  }

  /** The player who made the last accepted move: the one to move if the
      game has ended (a win keeps the turn), the other one otherwise. */
  function LastMover(s: State): Cell
  {
    if s.gameOver then Symbol(s.playerXTurn) else Symbol(!s.playerXTurn)
  }

  /** The slots showing `c` are those of the owner's queue plus the flagged
      slot if the flagged mark is `c`. */
  ghost predicate TrackedFor(s: State, c: Cell)
  {
    Marks(s.board, c) == Slots(QueueOf(s, c)) + PendingSlots(s, c)
  }

  /** Every mark on the board is in its owner's queue or is the flagged mark. */
  ghost predicate Tracked(s: State)
  {
    TrackedFor(s, X) && TrackedFor(s, O)
  }

  /** Each queue holds at most Capacity distinct cells, and the flagged cell
      is in neither queue. */
  ghost predicate QueuesBounded(s: State)
  {
    && |s.xMoves| <= Capacity && |s.oMoves| <= Capacity
    && Distinct(s.xMoves) && Distinct(s.oMoves)
    && (s.pendingRemove.Some? ==> Index(s.pendingRemove.value) !in Slots(s.xMoves) + Slots(s.oMoves))
  }

  /** A flag is set exactly when a symbol is recorded for it, and the flagged
      mark belongs to the player who moved last. */
  ghost predicate PendingOwned(s: State)
  {
    && (s.pendingRemove.None? <==> s.pendingSymbol == Empty)
    && (s.pendingRemove.Some? ==> s.pendingSymbol == LastMover(s))
  }

  /** The player who did not move last has no line; the game has ended
      exactly when the last mover has one. */
  ghost predicate Settled(s: State)
  {
    && !HasLine(s.board, Symbol(!s.playerXTurn))
    && (s.gameOver <==> HasLine(s.board, Symbol(s.playerXTurn)))
  }

  ghost predicate Inv(s: State)
  {
    Tracked(s) && QueuesBounded(s) && PendingOwned(s) && Settled(s)
  }

  lemma InitInv()
    ensures Inv(Init())
  {
    var s := Init();
    assert Marks(s.board, X) == {} && Marks(s.board, O) == {};
    NoLineWithoutMark(s.board, X);
    NoLineWithoutMark(s.board, O);
  }

  // ---------------------------------------------------------------------
  // Facts about queues

  lemma SlotsAppend(q: seq<Pos>, p: Pos)
    ensures Slots(q + [p]) == Slots(q) + {Index(p)}
  {
  }

  lemma SlotsFront(q: seq<Pos>)
    requires |q| > 0
    ensures Slots(q) == {Index(q[0])} + Slots(q[1..])
  {
  }

  /** Distinct cells sit in distinct slots, so a queue of distinct cells
      covers as many slots as it has entries. */
  lemma {:induction false} DistinctSlotCount(q: seq<Pos>)
    requires Distinct(q)
    ensures |Slots(q)| == |q|
    decreases |q|
  {
    if q != [] {
      var init := q[..|q| - 1];
      var last := q[|q| - 1];
      assert q == init + [last];
      assert Distinct(init);
      DistinctSlotCount(init);
      SlotsAppend(init, last);
      forall r | r in init ensures Index(r) != Index(last) {
        IndexInjective(r, last);
      }
    }
  }

  /** Appending a cell whose slot the queue does not cover keeps it free of
      repeats. */
  lemma PushDistinct(q: seq<Pos>, p: Pos)
    requires Distinct(q) && Index(p) !in Slots(q)
    ensures Distinct(q + [p])
  {
  }

  /** Dropping the front of a queue free of repeats leaves one free of
      repeats that no longer covers the front's slot. */
  lemma DropFront(q: seq<Pos>)
    requires Distinct(q) && |q| > 0
    ensures Distinct(q[1..]) && Index(q[0]) !in Slots(q[1..])
  {
  }

  // ---------------------------------------------------------------------
  // Preservation of the invariant

  /** The flagged cell still shows the flagged mark: the test the engine
      makes before erasing it never fails. */
  lemma PendingCellMarked(s: State)
    requires Inv(s) && s.pendingRemove.Some?
    ensures At(s.board, s.pendingRemove.value) == s.pendingSymbol
  {
  }

  /** In a running game the erase blanks the flagged cell, which holds the
      other player's mark, and nothing else. */
  lemma EraseEffect(s: State)
    requires Inv(s) && !s.gameOver
    ensures Marks(AfterErase(s), Symbol(s.playerXTurn)) == Marks(s.board, Symbol(s.playerXTurn))
    ensures Marks(AfterErase(s), Symbol(!s.playerXTurn))
            == Marks(s.board, Symbol(!s.playerXTurn)) - PendingSlots(s, Symbol(!s.playerXTurn))
    ensures PendingSlots(s, Symbol(s.playerXTurn)) == {}
    ensures !HasLine(AfterErase(s), Symbol(!s.playerXTurn))
  {
    var mover, other := Symbol(s.playerXTurn), Symbol(!s.playerXTurn);
    if s.pendingRemove.Some? {
      var k := Index(s.pendingRemove.value);
      PendingCellMarked(s);
      MarksAfterWrite(s.board, k, Empty, mover);
      MarksAfterWrite(s.board, k, Empty, other);
      WriteOtherKeepsNoLine(s.board, k, Empty, other);
    }
  }

  /** After an accepted click the mover's marks are the old queue's cells
      (and the cell it flagged before, already erased if it was the
      mover's) plus the new cell. */
  lemma PlaceMoverMarks(s: State, pos: Pos)
    requires Inv(s) && !s.gameOver && At(s.board, pos) == Empty && s.pendingRemove != Some(pos)
    ensures Marks(Place(s, pos).next.board, Symbol(s.playerXTurn)) == Slots(MoverQueue(s) + [pos])
  {
    var mover := Symbol(s.playerXTurn);
    EraseEffect(s);
    MarksAfterWrite(AfterErase(s), Index(pos), mover, mover);
    assert QueueOf(s, mover) == MoverQueue(s);
    SlotsAppend(MoverQueue(s), pos);
  }

  /** The slots of the grown queue are split between the mover's new queue
      and the new flag. */
  lemma PlaceMoverSlots(s: State, pos: Pos)
    requires !s.gameOver && At(s.board, pos) == Empty && s.pendingRemove != Some(pos)
    ensures var n := Place(s, pos).next;
      Slots(MoverQueue(s) + [pos]) == Slots(QueueOf(n, Symbol(s.playerXTurn))) + PendingSlots(n, Symbol(s.playerXTurn))
  {
  }

  lemma PlaceTracksMover(s: State, pos: Pos)
    requires Inv(s) && !s.gameOver && At(s.board, pos) == Empty && s.pendingRemove != Some(pos)
    ensures TrackedFor(Place(s, pos).next, Symbol(s.playerXTurn))
  {
    PlaceMoverMarks(s, pos);
    PlaceMoverSlots(s, pos);
  }

  /** The other player's marks lose the flagged cell, and the flag is gone. */
  lemma PlaceTracksOther(s: State, pos: Pos)
    requires Inv(s) && !s.gameOver && At(s.board, pos) == Empty && s.pendingRemove != Some(pos)
    ensures TrackedFor(Place(s, pos).next, Symbol(!s.playerXTurn))
  {
  }

  lemma PlaceKeepsTracked(s: State, pos: Pos)
    requires Inv(s) && !s.gameOver && At(s.board, pos) == Empty && s.pendingRemove != Some(pos)
    ensures Tracked(Place(s, pos).next)
  {
    PlaceTracksMover(s, pos);
    PlaceTracksOther(s, pos);
  }

  /** The mover's queue after an accepted click: the old queue with `pos`
      appended, less its front entry if that made it overflow. */
  lemma PlaceQueueShape(s: State, pos: Pos)
    requires !s.gameOver && At(s.board, pos) == Empty && s.pendingRemove != Some(pos)
    ensures var n := Place(s, pos).next; var grown := MoverQueue(s) + [pos];
      && QueueOf(n, Symbol(!s.playerXTurn)) == QueueOf(s, Symbol(!s.playerXTurn))
      && (|grown| > Capacity ==> QueueOf(n, Symbol(s.playerXTurn)) == grown[1..] && n.pendingRemove == Some(grown[0]))
      && (|grown| <= Capacity ==> QueueOf(n, Symbol(s.playerXTurn)) == grown && n.pendingRemove == None)
  {
  }

  /** The mover's queue stays within Capacity and free of repeats. */
  lemma PlaceKeepsMoverQueue(s: State, pos: Pos)
    requires Inv(s) && !s.gameOver && At(s.board, pos) == Empty && s.pendingRemove != Some(pos)
    ensures var q := QueueOf(Place(s, pos).next, Symbol(s.playerXTurn)); |q| <= Capacity && Distinct(q)
    ensures var n := Place(s, pos).next;
      n.pendingRemove.Some? ==> Index(n.pendingRemove.value) !in Slots(QueueOf(n, Symbol(s.playerXTurn)))
  {
    var mover := Symbol(s.playerXTurn);
    var q := MoverQueue(s);
    assert QueueOf(s, mover) == q;
    assert Index(pos) !in Marks(s.board, mover);
    PushDistinct(q, pos);
    PlaceQueueShape(s, pos);
    if |q + [pos]| > Capacity {
      DropFront(q + [pos]);
    }
  }

  /** The cell the mover gives up is not in the other player's queue: it
      showed the mover's mark. */
  lemma PlaceKeepsOtherQueue(s: State, pos: Pos)
    requires Inv(s) && !s.gameOver && At(s.board, pos) == Empty && s.pendingRemove != Some(pos)
    ensures var n := Place(s, pos).next;
      n.pendingRemove.Some? ==> Index(n.pendingRemove.value) !in Slots(QueueOf(n, Symbol(!s.playerXTurn)))
  {
  }

  lemma PlaceKeepsQueuesBounded(s: State, pos: Pos)
    requires Inv(s) && !s.gameOver && At(s.board, pos) == Empty && s.pendingRemove != Some(pos)
    ensures QueuesBounded(Place(s, pos).next)
  {
    var n := Place(s, pos).next;
    PlaceQueueShape(s, pos);
    PlaceKeepsMoverQueue(s, pos);
    PlaceKeepsOtherQueue(s, pos);
    assert {QueueOf(n, X), QueueOf(n, O)} == {n.xMoves, n.oMoves};
  }

  lemma PlaceKeepsPendingOwned(s: State, pos: Pos)
    requires Inv(s) && !s.gameOver && At(s.board, pos) == Empty && s.pendingRemove != Some(pos)
    ensures PendingOwned(Place(s, pos).next)
  {
  }

  /** The erase only takes a mark away from the other player and the new
      mark is the mover's, so the other player still has no line. */
  lemma PlaceKeepsSettled(s: State, pos: Pos)
    requires Inv(s) && !s.gameOver && At(s.board, pos) == Empty && s.pendingRemove != Some(pos)
    ensures Settled(Place(s, pos).next)
  {
    EraseEffect(s);
    WriteOtherKeepsNoLine(AfterErase(s), Index(pos), Symbol(s.playerXTurn), Symbol(!s.playerXTurn));
  }

  lemma StepPreservesInv(s: State, row: int, col: int)
    requires Inv(s)
    requires 0 <= row < 3 && 0 <= col < 3
    ensures Inv(Step(s, row, col).next)
  {
    var pos := Pos(row, col);
    if !s.gameOver && At(s.board, pos) == Empty && s.pendingRemove != Some(pos) {
      PlaceKeepsTracked(s, pos);
      PlaceKeepsQueuesBounded(s, pos);
      PlaceKeepsPendingOwned(s, pos);
      PlaceKeepsSettled(s, pos);
    }
  }

  lemma {:induction false} RunPreservesInv(s: State, events: seq<Event>)
    requires Inv(s)
    ensures Inv(Run(s, events))
    decreases |events|
  {
    if events != [] {
      match events[0] {
        case Click(p) => StepPreservesInv(s, p.row, p.col);
        case ResetGame => InitInv();
      }
      RunPreservesInv(Apply(s, events[0]), events[1..]);
    }
  }

  /** When a click overflows the mover's queue, the queue is back to
      Capacity entries and the cell it gave up still shows the mover's mark:
      it is flagged, not erased. */
  lemma OverflowFlagsWithoutErasing(s: State, pos: Pos)
    requires Inv(s) && !s.gameOver && At(s.board, pos) == Empty && s.pendingRemove != Some(pos)
    ensures var n := Place(s, pos).next;
      n.pendingRemove.Some? ==>
        && |QueueOf(n, Symbol(s.playerXTurn))| == Capacity
        && At(n.board, n.pendingRemove.value) == Symbol(s.playerXTurn)
  {
    var n := Place(s, pos).next;
    PlaceQueueShape(s, pos);
    StepPreservesInv(s, pos.row, pos.col);
    assert n == Step(s, pos.row, pos.col).next;
    if n.pendingRemove.Some? {
      assert QueueOf(s, Symbol(s.playerXTurn)) == MoverQueue(s);
      PendingCellMarked(n);
    }
  }

  // ---------------------------------------------------------------------
  // What the invariant gives

  /** A click on the flagged cell always lands on a marked cell and is
      ignored, so the engine never answers with Blocked. */
  lemma NeverBlocked(s: State, row: int, col: int)
    requires Inv(s)
    requires 0 <= row < 3 && 0 <= col < 3
    ensures Step(s, row, col).outcome != Blocked
  {
  }

  /** Each player's mark count is the length of their queue, plus one for
      the flagged mark if it is theirs. */
  lemma MarkCountIsQueue(s: State, c: Cell)
    requires Inv(s) && c != Empty
    ensures MarkCount(s.board, c) == |QueueOf(s, c)| + (if s.pendingSymbol == c then 1 else 0)
  {
    var q := QueueOf(s, c);
    DistinctSlotCount(q);
    if s.pendingSymbol == c {
      assert Index(s.pendingRemove.value) !in Slots(q);
    } else {
      assert PendingSlots(s, c) == {};
    }
  }

  /** The player to move in a running game has at most Capacity marks; any
      player has at most one more, the flagged one. */
  lemma MarkBounds(s: State)
    requires Inv(s)
    ensures MarkCount(s.board, X) <= Capacity + 1 && MarkCount(s.board, O) <= Capacity + 1
    ensures MarkCount(s.board, X) + MarkCount(s.board, O) <= Capacity + Capacity + 1
    ensures !s.gameOver ==> MarkCount(s.board, Symbol(s.playerXTurn)) <= Capacity
  {
    MarkCountIsQueue(s, X);
    MarkCountIsQueue(s, O);
  }

  /** At most seven marks are on the board, so it is never full: a draw
      cannot arise in this mode. */
  lemma NeverFull(s: State)
    requires Inv(s)
    ensures !Full(s.board)
  {
    MarkBounds(s);
    CountsPartition(s.board);
    FullMeansNoBlank(s.board);
  }

  /** The erase made by the next accepted click removes the mark of the
      player who moved last, never the mover's own. */
  lemma EraseHitsOpponent(s: State)
    requires Inv(s) && !s.gameOver && s.pendingRemove.Some?
    ensures s.pendingSymbol == Symbol(!s.playerXTurn)
    ensures AfterErase(s) == s.board[Index(s.pendingRemove.value) := Empty]
  {
  }

  /** Whatever the frame does after construction: the flagged cell still
      shows the flagged mark, a click is never answered with Blocked, no
      player holds more than four marks and the mover holds at most three,
      the board is never full, and at most one player has a line. */
  lemma Reachable(events: seq<Event>)
    ensures var s := Run(Init(), events);
      && (s.pendingRemove.Some? ==> At(s.board, s.pendingRemove.value) == s.pendingSymbol != Empty)
      && (forall p: Pos :: Step(s, p.row, p.col).outcome != Blocked)
      && MarkCount(s.board, X) <= Capacity + 1 && MarkCount(s.board, O) <= Capacity + 1
      && (!s.gameOver ==> MarkCount(s.board, Symbol(s.playerXTurn)) <= Capacity)
      && !Full(s.board)
      && !(HasLine(s.board, X) && HasLine(s.board, O))
  {
    InitInv();
    RunPreservesInv(Init(), events);
    var s := Run(Init(), events);
    if s.pendingRemove.Some? {
      PendingCellMarked(s);
    }
    forall p: Pos ensures Step(s, p.row, p.col).outcome != Blocked {
      NeverBlocked(s, p.row, p.col);
    }
    MarkBounds(s);
    NeverFull(s);
  }

  /** The frame's move code, stated field by field, computes what Place
      specifies. */
  lemma PlaceMatches(s: State, pos: Pos, n: State, outcome: Outcome)
    requires !s.gameOver && At(s.board, pos) == Empty && s.pendingRemove != Some(pos)
    requires n.board == AfterErase(s)[Index(pos) := Symbol(s.playerXTurn)]
    requires var grown := MoverQueue(s) + [pos];
      var kept := if |grown| > Capacity then grown[1..] else grown;
      && n.xMoves == (if s.playerXTurn then kept else s.xMoves)
      && n.oMoves == (if s.playerXTurn then s.oMoves else kept)
      && n.pendingRemove == (if |grown| > Capacity then Some(grown[0]) else None)
      && n.pendingSymbol == (if |grown| > Capacity then Symbol(s.playerXTurn) else Empty)
    requires outcome == (if Wins(n.board, Symbol(s.playerXTurn)) then Won(Symbol(s.playerXTurn)) else Continue)
    requires n.gameOver == outcome.Won?
    requires n.playerXTurn == (if outcome.Won? then s.playerXTurn else !s.playerXTurn)
    ensures Transition(n, outcome) == Place(s, pos)
  {
  }

  // ---------------------------------------------------------------------
  // The game frame

  /** The game frame: the board buttons, whose turn it is, whether the game
      has ended, each player's move queue and the flagged cell. */
  class QueueGame {
    const buttons: ButtonGrid
    var playerXTurn: bool
    var gameOver: bool
    var playerXMoves: seq<Pos>
    var playerOMoves: seq<Pos>
    var pendingRemove: Option<Pos>
    var pendingSymbol: Cell

    /** The buttons form a 3x3 grid, and a symbol is recorded exactly when a
        cell is flagged. */
    /** The buttons form a 3x3 grid, and a symbol is recorded exactly when a
        cell is flagged. The engine invariant `Inv` is deliberately not part
        of it: the handler keeps the blocked branch, which no state
        satisfying `Inv` reaches. A caller who wants the invariant's
        guarantees uses `Playing`. */
    ghost predicate Valid()
      reads this, buttons.cells
    {
      buttons.Valid() && (pendingRemove.None? <==> pendingSymbol == Empty)
    }

    /** A valid frame whose state satisfies the engine invariant: every
        frame built by the constructor and driven only by Move and Reset. */
    ghost predicate Playing()
      reads this, buttons.cells
    {
      Valid() && Inv(Snapshot())
    }

    function Snapshot(): State
      reads this, buttons.cells
      requires buttons.Valid()
    {
      State(buttons.Read(), playerXTurn, gameOver, playerXMoves, playerOMoves, pendingRemove, pendingSymbol)
    }

    constructor ()
      ensures Playing() && fresh(buttons) && fresh(buttons.cells)
      ensures Snapshot() == Init()
    {
      buttons := new ButtonGrid();
      playerXTurn := true;
      gameOver := false;
      playerXMoves := [];
      playerOMoves := [];
      pendingRemove := None;
      pendingSymbol := Empty;
      new;
      InitInv();
    }

    /** A click on the button at (row, col). */
    method Move(row: int, col: int) returns (outcome: Outcome)
      requires Valid()
      requires 0 <= row < 3 && 0 <= col < 3
      modifies this, buttons.cells
      ensures Valid()
      ensures Transition(Snapshot(), outcome) == Step(old(Snapshot()), row, col)
      ensures old(Playing()) ==> Playing() && outcome != Blocked
    {
      ghost var before := Snapshot();
      if gameOver {
        return Ignored;
      }
      var pos := Pos(row, col);
      if buttons.Get(row, col) != Empty {
        return Ignored;
      }
      if pendingRemove == Some(pos) {
        if Inv(before) {
          NeverBlocked(before, row, col);
        }
        return Blocked;
      }
      var symbol := Symbol(playerXTurn);
      ClearPending();
      buttons.Set(row, col, symbol);
      Enqueue(pos);
      var grid := buttons.Read();
      if Wins(grid, symbol) {
        gameOver := true;
        outcome := Won(symbol);
      } else {
        playerXTurn := !playerXTurn;
        outcome := Continue;
      }
      PlaceMatches(before, pos, Snapshot(), outcome);
      if Inv(before) {
        StepPreservesInv(before, row, col);
      }
    }

    /** Erase the flagged mark if its cell still shows it, then drop the
        flag. */
    method ClearPending()
      requires Valid()
      modifies this, buttons.cells
      ensures Valid()
      ensures buttons.Read() == AfterErase(old(Snapshot()))
      ensures pendingRemove == None && pendingSymbol == Empty
      ensures playerXTurn == old(playerXTurn) && gameOver == old(gameOver)
      ensures playerXMoves == old(playerXMoves) && playerOMoves == old(playerOMoves)
    {
      if pendingRemove.Some? {
        var p := pendingRemove.value;
        assert p == Pos(p.row, p.col);
        if buttons.Get(p.row, p.col) == pendingSymbol {
          buttons.Set(p.row, p.col, Empty);
        }
        pendingRemove := None;
        pendingSymbol := Empty;
      }
    }

    /** Append `pos` to the mover's queue; a queue grown past Capacity gives
        up its oldest entry, which becomes the flagged cell. */
    method Enqueue(pos: Pos)
      requires buttons.Valid() && pendingRemove == None && pendingSymbol == Empty
      modifies this
      ensures Valid() && buttons.Read() == old(buttons.Read())
      ensures playerXTurn == old(playerXTurn) && gameOver == old(gameOver)
      ensures var grown := old(if playerXTurn then playerXMoves else playerOMoves) + [pos];
        var kept := if |grown| > Capacity then grown[1..] else grown;
        && playerXMoves == (if playerXTurn then kept else old(playerXMoves))
        && playerOMoves == (if playerXTurn then old(playerOMoves) else kept)
        && pendingRemove == (if |grown| > Capacity then Some(grown[0]) else None)
        && pendingSymbol == (if |grown| > Capacity then Symbol(playerXTurn) else Empty)
    {
      var queue := if playerXTurn then playerXMoves else playerOMoves;
      queue := queue + [pos];
      ghost var grown := queue;
      if |queue| > Capacity {
        pendingRemove := Some(queue[0]);
        queue := queue[1..];
        pendingSymbol := Symbol(playerXTurn);
      }
      assert queue == if |grown| > Capacity then grown[1..] else grown;
      if playerXTurn {
        playerXMoves := queue;
      } else {
        playerOMoves := queue;
      }
    }

    /** Blank every button, empty both queues, drop the flag, and hand the
        first move to X. */
    method Reset()
      requires Valid()
      modifies this, buttons.cells
      ensures Playing()
      ensures Snapshot() == Init()
    {
      buttons.Clear();
      playerXMoves := [];
      playerOMoves := [];
      pendingRemove := None;
      pendingSymbol := Empty;
      playerXTurn := true;
      gameOver := false;
      InitInv();
    }
  }
}
