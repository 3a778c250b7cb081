# Tic-tac-toe rule engines

A Dafny model of the two game-rule engines inside the Swing frames of this
tic-tac-toe repository:

- `src/TicTacToe.java`, the classic engine. A click on a blank cell puts the
  current player's mark there. The engine then looks for a completed line of
  that mark, then for a full board. If it finds neither, it passes the turn.
- `src/TicTacToeQueueMode.java`, the queue-mode engine. Each player's moves
  go into a queue that keeps three cells. A fourth move pushes the oldest
  cell out of the queue and flags it for removal. The flagged mark stays on
  the board, and still counts for a line, until the next accepted click
  erases it. This mode has no draw.

The project has three files:

- `grid.dfy` (module `Grid`) holds the board and its cells, coordinates and
  eight winning lines.
  - `Marks` and `MarkCount` are the mark sets and counts that the invariants
    use.
  - `ButtonGrid` is the 3x3 button grid, an `array2<Cell>` whose entries are
    the button texts. It has the classic frame's two read-only scans, the
    winner check and the full-board check, as loops over the buttons.
  - `Wins` is the queue-mode winner check, which runs on a copy of the
    button texts. The two engines' specifications use it to decide a win.
- `classic.dfy` (module `Classic`) and `queue.dfy` (module `QueueMode`) each
  hold one engine, in two layers:
  - a specification on values. `Step` describes one click and `Init` one
    reset. `Run` replays a sequence of clicks and resets. `Inv` is the engine
    invariant, proved to hold in every reachable state;
  - a class with the frame's fields. Its `Move` and `Reset` methods follow
    `actionPerformed` and `resetGame` statement by statement. Each is proved
    to compute exactly what `Step` or `Init` specifies.

The button text `""`, `"X"` or `"O"` becomes `Cell.Empty`, `X` or `O`. A
Java `Point` becomes `Pos(row, col)`. The status label is replaced by the
`Outcome` that `Move` returns.

## Model

| member | source | states |
|---|---|---|
| Grid.Symbol | src/TicTacToe.java:73 | the mover's mark is "X" on X's turn and "O" otherwise, never blank |
| Grid.ButtonGrid.constructor | src/TicTacToe.java:30-38 | a fresh 3x3 grid whose buttons are all blank |
| Grid.ButtonGrid.Get | src/TicTacToe.java:71 | reads the text of the button at (row, col) |
| Grid.ButtonGrid.Set | src/TicTacToe.java:73 | the button at (row, col) gets the new text and every other button keeps its text |
| Grid.ButtonGrid.CheckWinner | src/TicTacToe.java:89-111 | the scan of rows, then columns, then diagonals answers true exactly when some row, column or diagonal is entirely the given symbol |
| Grid.RowWinFrom | src/TicTacToeQueueMode.java:130-131 | the row scan from row i on finds a row entirely `s` exactly when one of the rows i .. 2 is |
| Grid.ColumnWinFrom | src/TicTacToeQueueMode.java:133-134 | the column scan from column j on finds a column entirely `s` exactly when one of the columns j .. 2 is |
| Grid.Wins | src/TicTacToeQueueMode.java:124-140 | the queue-mode winner check on a copy of the board holds exactly when some row, column or diagonal is entirely the given symbol |
| Grid.ButtonGrid.IsBoardFull | src/TicTacToe.java:113-119 | true exactly when no button is blank |
| Grid.ButtonGrid.Clear | src/TicTacToe.java:121-124 | afterwards every button is blank |
| Grid.FullMeansNoBlank | src/TicTacToe.java:113-119 | a board is full exactly when it has no blank slot |
| Grid.CountsPartition | src/TicTacToe.java:113-119 | every button shows exactly one of blank, "X" and "O", so the three counts add up to nine |
| Grid.WriteOtherKeepsNoLine | src/TicTacToe.java:89-110 | writing anything other than `s` into a cell cannot complete a line of `s` |
| Classic.Init | src/TicTacToe.java:8-10 | the starting state has every cell blank, X to move and the game running |
| Classic.Step | src/TicTacToe.java:67-71 | a click is ignored, and leaves board, turn and game-over flag unchanged, exactly when the game is over or the cell is marked |
| Classic.Place | src/TicTacToe.java:73-86 | an accepted click changes only the clicked cell, which gets the mover's mark; the outcome is a win credited to the mover exactly when the mover now has a line, a win is never credited to the other player, and the outcome is Draw exactly when there is no such line and no blank cell; the game ends exactly on Won or Draw; the turn passes exactly on Continue |
| Classic.InitInv | src/TicTacToe.java:121-129 | the reset state satisfies the invariant: equal mark counts and no line |
| Classic.PlaceKeepsBalanced | src/TicTacToe.java:73-85 | an accepted click keeps X's count equal to O's or one more, according to who moved last |
| Classic.PlaceKeepsSettled | src/TicTacToe.java:75-86 | after an accepted click the waiting player has no line, an ended game has the mover's line or a full board, and a running game has neither |
| Classic.StepPreservesInv | src/TicTacToe.java:67-87 | every click keeps the invariant |
| Classic.RunPreservesInv | src/TicTacToe.java:67-129 | any sequence of clicks and resets keeps the invariant |
| Classic.Reachable | src/TicTacToe.java:67-129 | in every reachable state X has as many marks as O or one more, the two players never both have a line, and a running game has a blank cell |
| Classic.ClassicGame.constructor | src/TicTacToe.java:8-10 | a new frame is in the reset state and satisfies the invariant |
| Classic.ClassicGame.Move | src/TicTacToe.java:67-87 | the click handler produces exactly the state and outcome of Step and keeps the invariant |
| Classic.ClassicGame.Reset | src/TicTacToe.java:121-129 | whatever the state before, afterwards the frame is in the reset state; so a second reset changes nothing |
| QueueMode.Init | src/TicTacToeQueueMode.java:7-28 | the starting state has a blank board, X to move, a running game, two empty queues and no flagged cell |
| QueueMode.Step | src/TicTacToeQueueMode.java:76-86 | a click is ignored on an ended game or a marked cell; it is refused as blocked exactly when the cell is blank and flagged; both leave the state unchanged |
| QueueMode.Place | src/TicTacToeQueueMode.java:88-121 | an accepted click erases the flagged mark, then writes the mover's mark on the clicked cell; the other queue is untouched; the flagged entry followed by the mover's new queue is the old queue plus the clicked cell; a flag is set exactly when the old queue was full, and it carries the mover's symbol; the outcome is a win credited to the mover exactly when the mover has a line, never a win for the other player, and otherwise Continue (never a draw); only a win ends the game, and only Continue passes the turn |
| QueueMode.InitInv | src/TicTacToeQueueMode.java:150-165 | the reset state satisfies the invariant |
| QueueMode.PendingCellMarked | src/TicTacToeQueueMode.java:94 | the flagged cell always still shows the flagged mark, so the text test before the erase always holds |
| QueueMode.EraseEffect | src/TicTacToeQueueMode.java:92-99 | in a running game the erase takes exactly the flagged slot from the other player's marks, leaves the mover's marks alone and cannot give the other player a line |
| QueueMode.PlaceMoverMarks | src/TicTacToeQueueMode.java:101-104 | after an accepted click the mover's marks are the cells of the old queue plus the clicked cell |
| QueueMode.PlaceMoverSlots | src/TicTacToeQueueMode.java:104-113 | the grown queue's cells are split between the mover's new queue and the new flag |
| QueueMode.PlaceTracksMover | src/TicTacToeQueueMode.java:92-113 | after an accepted click the mover's marks are exactly the mover's queue plus the flagged cell if it is the mover's |
| QueueMode.PlaceTracksOther | src/TicTacToeQueueMode.java:92-99 | after an accepted click the other player's marks are exactly that player's queue |
| QueueMode.PlaceKeepsTracked | src/TicTacToeQueueMode.java:92-113 | an accepted click keeps the board and the queues in correspondence |
| QueueMode.PlaceQueueShape | src/TicTacToeQueueMode.java:104-113 | the mover's queue gains the clicked cell and, on overflow, loses its front entry, which becomes the flag; the other queue is unchanged |
| QueueMode.PlaceKeepsMoverQueue | src/TicTacToeQueueMode.java:104-113 | the mover's queue stays within three distinct cells and does not contain the flagged cell |
| QueueMode.PlaceKeepsOtherQueue | src/TicTacToeQueueMode.java:107-112 | the newly flagged cell is not in the other player's queue |
| QueueMode.PlaceKeepsQueuesBounded | src/TicTacToeQueueMode.java:104-113 | an accepted click keeps both queues within three distinct cells and the flagged cell outside both |
| QueueMode.PlaceKeepsPendingOwned | src/TicTacToeQueueMode.java:97-98 | a flag always has a symbol, and that symbol is the last mover's |
| QueueMode.PlaceKeepsSettled | src/TicTacToeQueueMode.java:92-121 | after an accepted click the waiting player has no line, and the game has ended exactly when the last mover has one |
| QueueMode.StepPreservesInv | src/TicTacToeQueueMode.java:76-122 | every click keeps the invariant |
| QueueMode.RunPreservesInv | src/TicTacToeQueueMode.java:76-165 | any sequence of clicks and resets keeps the invariant |
| QueueMode.OverflowFlagsWithoutErasing | src/TicTacToeQueueMode.java:106-113 | on overflow the mover's queue is back to three entries, and the flagged cell still shows the mover's mark |
| QueueMode.NeverBlocked | src/TicTacToeQueueMode.java:82-86 | in any state satisfying the invariant no click is answered as blocked: the flagged cell is marked, so the occupied-cell test rejects the click first |
| QueueMode.MarkCountIsQueue | src/TicTacToeQueueMode.java:24-28 | each player's mark count is the length of their queue, plus one if the flagged mark is theirs |
| QueueMode.MarkBounds | src/TicTacToeQueueMode.java:107-113 | a player holds at most four marks and both together at most seven; in a running game the player to move holds at most three |
| QueueMode.NeverFull | src/TicTacToeQueueMode.java:115-121 | the board is never full, so the missing draw check loses nothing |
| QueueMode.EraseHitsOpponent | src/TicTacToeQueueMode.java:92-99 | the next accepted click erases the flagged mark, and that mark belongs to the player who moved last, not to the mover |
| QueueMode.Reachable | src/TicTacToeQueueMode.java:76-165 | in every reachable state the flagged cell shows its mark, no click is blocked, the mark bounds hold, the board is not full and the two players never both have a line |
| QueueMode.QueueGame.constructor | src/TicTacToeQueueMode.java:24-28 | a new frame is in the reset state and is `Playing` |
| QueueMode.QueueGame.Move | src/TicTacToeQueueMode.java:76-122 | the click handler produces exactly the state and outcome of Step; from a `Playing` frame (valid and satisfying the invariant) it stays `Playing` and never answers blocked |
| QueueMode.QueueGame.ClearPending | src/TicTacToeQueueMode.java:91-99 | if the flagged cell still shows the flagged symbol it is blanked; the flag is dropped and nothing else changes |
| QueueMode.QueueGame.Enqueue | src/TicTacToeQueueMode.java:104-113 | the clicked cell joins the back of the mover's queue; a queue grown past three gives up its front entry, which becomes the flag with the mover's symbol |
| QueueMode.QueueGame.Reset | src/TicTacToeQueueMode.java:150-165 | afterwards the board is blank, both queues are empty, no cell is flagged, X is to move and the game is running |

## Where the code and its own comments and messages differ

The model follows what the code does in each of these cases:

- **When the flagged mark is erased.** The field comment at
  `src/TicTacToeQueueMode.java:27` calls the flag a "symbol pending removal".
  The removal happens at the start of the next accepted click (lines 92-99),
  whoever makes it. Under alternating turns that click is the opponent's, so
  the mark is erased before the opponent's placement, not before its owner's
  next one. `QueueMode.EraseHitsOpponent` states this.
- **The blocked message is never shown.** The status text "That cell is
  temporarily blocked this turn." at line 84 shows that the branch at lines
  83-86 was meant to be reachable. But the flagged cell still shows its mark,
  so the occupied-cell test at line 82 returns first. `QueueMode.Step` keeps
  the branch as written. `QueueMode.NeverBlocked` shows that no state
  satisfying the invariant takes it.
- **The limit of three.** The comment "Handle limit of 3" at line 106 caps
  the queue, not the board. The last mover can have four marks on the board:
  three in the queue and the flagged one. The player to move has at most
  three. `QueueMode.MarkBounds` states both.

## Left out

- The Swing frame, widget construction, layout, fonts, the Exit button's
  process exit and `main`. They are presentation and process control.
- `toggleDarkMode` and all colour handling: the blue and red marks, and the
  warning colour of a flagged cell. These are presentation only.
- The status label texts. `Move` returns an `Outcome` instead.
- The Java `String` for a mark. It is replaced by `Cell`, so two texts can
  only be equal as the three cell values are.
- `autoResetGame` (`src/TicTacToe.java:131-138`). It starts a timer thread
  that resets the game 10000 ms later through the event queue. The model has
  no clock or threads. The Won and Draw outcomes are the points where the
  frame schedules that reset. The reset itself is the `ResetGame` event in
  `Run`, or a call to `ClassicGame.Reset`. The timer is not cancelled when
  the user presses Reset in the meantime, so it can reset a later game in
  the middle of play. `Run` allows a `ResetGame` event at any point, so every
  property proved for `Run` covers that case too.
- `getButtonPosition` (`src/TicTacToeQueueMode.java:142-148`) and the
  dispatch by widget identity. A click arrives as a row and a column with
  `0 <= row, col < 3`, so the `null` answer for a foreign button cannot
  arise.
- The queues as shared `LinkedList` objects. Each queue is a `seq<Pos>`
  field. `Enqueue`, which `Move` calls, works on a local copy of the mover's
  queue and assigns it back, which has the same effect as mutating the list in place.
