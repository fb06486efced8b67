# Falling-block game engine

This project models the core of a browser falling-block puzzle game (the
engine in `app.js`) and proves properties of it.

- The board is a 20 x 10 grid of cells. A cell is 0 when empty, or holds
  a piece kind plus one once a piece has locked there.
- Seven piece kinds each have four pre-baked rotation states.
- The active piece moves sideways and down, rotates clockwise with a fixed
  wall-kick order, hard-drops, and falls one row per timer tick.
- When the piece locks, its cells are written into the board, full rows
  are cleared and scored, and the pending kind spawns.
- A spawn that collides ends the game and raises the high score.

The modules follow the parts of the engine:

- `Shapes`: the shape table and a piece's cells.
- `Board`: the grid, the placement test, cell writing, and the reference
  definition of line clearing.
- `Scoring`: the points table.
- `Motion`: translations, the wall-kick search, and the landing position
  (the ghost piece).
- `Session`: the game session.

`Session` defines every transition twice:

- as a function on session values (`State`), where the session invariant
  `Inv` and the other properties are proved;
- as a method of the class `Game`, which updates its fields in place. Each
  method is proved to produce exactly the state its function describes
  (`Model() == F(old(Model()), ...)`).

The in-place loops of the source are kept as loops, each proved against a
reference definition:

- `clearLines` walks from the bottom and re-examines an index after
  removing a row. It is proved equal to `Cleared`: one empty row per full
  row on top, then the rows that are not full, in their original order.
- The write loop of `lock` is proved equal to `Paint`.
- The placement scan of `canPlace` is proved equal to `Fits`.
- The ghost-piece loop of the renderer is proved equal to `Landing`.

Calls to `Math.random` become parameters of kind `Kind` (`first`, `pick`).
The gravity timer becomes the boolean `falling`.

## Model

| member | source | states |
|---|---|---|
| Shapes.Offsets | app.js:9-59 | every kind and rotation state has exactly four offsets, each within the 4x4 box at the piece origin |
| Shapes.Cells | app.js:127-129 | a piece has four cells, each its origin plus one offset of its current rotation, so at most three columns right of and three rows below the origin |
| Shapes.OffsetsDistinct | app.js:9-59 | the four offsets of every orientation are pairwise distinct, so a piece covers four squares |
| Shapes.SquareRotationIsIdentity | app.js:17-23 | all four rotation states of the square piece are the same |
| Board.EmptyRow | app.js:212 | the row added on top by a clear has COLS cells, all 0, and is not full |
| Board.Blank | app.js:93 | n rows, each the empty row, none full |
| Board.MakeBoard | app.js:92-94 | the new board is well formed (20 rows of 10 cells with values 0..7), every cell is 0 and no row is full |
| Board.FitsAboveFloor | app.js:131-137 | a piece that passes the placement test has its origin above the floor row |
| Board.CanPlace | app.js:131-137 | the scan returns true iff each cell is inside the side walls and above the floor, and each cell at y >= 0 is empty; bounds are tested before the board is read, and cells above the grid are not checked for occupancy |
| Board.PaintCell | app.js:227 | writing a colour id 1..7 into one cell keeps the board well formed |
| Board.Paint | app.js:225-228 | writing a piece's colour id into its cells keeps the board well formed |
| Board.PaintStep | app.js:226-227 | writing the first i + 1 cells is writing the first i and then cell i |
| Board.PaintAt | app.js:225-228 | after the writes, a grid cell holds the id iff it is one of the piece's cells; every other cell keeps its old value |
| Board.PaintElsewhere | app.js:225-228 | a row that no cell of the piece lies on is unchanged |
| Board.FullCount | app.js:210 | the number of full rows is at most the number of rows |
| Board.NonFull | app.js:207-216 | the rows kept by a clear: their count plus the full-row count is the row count, none is full, they are well formed when the input is, and with no full row they are the input itself |
| Board.Cleared | app.js:207-216 | the reference clear keeps the board well formed (still ROWS x COLS, values 0..7) and leaves no full row |
| Board.RemoveRow | app.js:211-212 | one splice of row y followed by an unshift of an empty row keeps the number of rows |
| Board.Splice | app.js:211 | the sequence a + [x] + b has x at the index equal to the length of a, with a before it and b after it |
| Board.NonFullFrom | app.js:209-216 | filtering and counting a suffix look at its first row, then at the rest |
| Board.ScanAt | app.js:209-216 | the scan state with the row at the scan index split out |
| Board.ScanRow | app.js:209-210 | while original rows remain to be scanned, the row at the scan index is the next original row, orig[j - 1] |
| Board.ScanRemovesRow | app.js:210-214 | removing a full row at the scan index and adding an empty row on top moves the scan past that row, with one more row removed and the index unchanged |
| Board.ScanKeepsRow | app.js:209-210 | a row that is not full at the scan index is left in place; the board is the scan state one row further up |
| Board.ScanStepFull | app.js:210-214 | an iteration at a full row keeps the scan invariant: the row is removed, an empty row goes on top, one more row is counted and the same index is examined again |
| Board.ScanStepKeep | app.js:209-210 | an iteration at a row that is not full keeps the scan invariant with the board unchanged and the index one row up |
| Board.ScanStart | app.js:208-209 | the scan starts at the bottom row with nothing removed and nothing counted |
| Board.ScanDone | app.js:209-216 | when the index passes the top row, the board is the reference clear of the original and the count is its number of full rows |
| Board.NoFullRowCount | app.js:210 | a board has no full row iff its full-row count is 0 |
| Board.ClearNothing | app.js:207-222 | clearing a board with no full row counts 0 and leaves the board unchanged |
| Board.NonFullAppend | app.js:207-216 | counting and filtering full rows distribute over concatenation |
| Board.ClearBottomRow | app.js:207-216 | when only the bottom row is full, one row is counted and the others move down by one under a new empty row |
| Board.FullCountWithin | app.js:210 | when every full row lies in an index range, the count of full rows is at most the range's width |
| Scoring.Points | app.js:7 | points are 0, 100, 300, 500, 800 for 0..4 rows and 0 beyond the table; they are positive iff 1..4 rows are cleared, and never above 800 |
| Scoring.PointsReward | app.js:7 | more rows at once score strictly more, and more than the same rows cleared one at a time |
| Motion.Translate | app.js:234 | the translated piece keeps its kind and rotation, and its origin moves by (dx, dy) |
| Motion.Turned | app.js:241-242 | a clockwise turn steps the rotation state by one modulo 4 and keeps kind and origin |
| Motion.FirstKick | app.js:243-251 | the search returns the index of an offset at which the turned piece fits, with no earlier offset fitting, or None iff no offset fits |
| Motion.FirstKickIs | app.js:244-249 | an offset that fits, with none before it fitting, is the one the search returns |
| Motion.KickPrefersLeft | app.js:243 | blocked in place but open one column left, the turned piece is kicked left even if the right is open too |
| Motion.Landing | app.js:340-341 | the landing position: same kind, rotation and column, never higher; every row on the way fits, the next row down does not, and it fits whenever the start fits |
| Motion.GhostOf | app.js:340-341 | the ghost loop stops at the landing position |
| Session.Max | app.js:120-121 | the maximum is at least both arguments and is one of them |
| Session.SpawnPiece | app.js:199 | a new piece has rotation 0 on row 0 |
| Session.SpawnFitsEmptyBoard | app.js:199 | every kind fits at the spawn position on an empty board |
| Session.SpawnOutcome | app.js:193-205 | a spawn changes neither the board nor the counters; the new piece is the pending kind at the spawn position and the supplied kind becomes pending; the game ends iff the piece does not fit, and then the high score is at least the score and the timer stops |
| Session.LockCompletesAtMostFour | app.js:224-231 | locking a piece on a board with no full row completes at most four rows, so the points table always has an entry |
| Session.ClearedState | app.js:207-222 | the lock's clear keeps the board well formed |
| Session.StartedFresh | app.js:290-302 | a new game has an empty board, the first kind active at the spawn position, the second pending, zero counters, no pause, the timer running and the high score kept; it satisfies the invariant |
| Session.LockKeepsInv | app.js:224-231 | a lock keeps the session invariant and completes at most four rows |
| Session.MoveKeepsInv | app.js:233-238 | a move keeps the session invariant |
| Session.RotateKeepsInv | app.js:240-252 | a rotation keeps the session invariant |
| Session.DropKeepsInv | app.js:254-257 | a hard drop keeps the session invariant |
| Session.TickKeepsInv | app.js:259-263 | a tick keeps the session invariant and does nothing while paused or over |
| Session.PauseKeepsInv | app.js:277-283 | pausing keeps the session invariant, and toggling twice restores the session |
| Session.Ticks | app.js:259-263 | any number of successive ticks keeps the session invariant |
| Session.TickFalls | app.js:259-261 | while playing with room below, a tick moves the piece down one row without changing its landing position |
| Session.DropIsTicks | app.js:254-263 | while playing, a hard drop gives the same session as one tick per row the piece falls plus the tick that locks it |
| Session.Game.constructor | app.js:472-475 | start-up reads the stored high score and starts a new game: the fresh session that keeps that high score, satisfying the invariant |
| Session.Game.UpdateHighScore | app.js:119-125 | the high score becomes the larger of itself and the score |
| Session.Game.Spawn | app.js:193-205 | the fields become exactly the spawn transition of the old session |
| Session.Game.ClearLines | app.js:207-222 | the in-place scan turns the board into the reference clear of the old board and returns its full-row count; lines grow by the count and the score by its points |
| Session.Game.Stamp | app.js:225-228 | the write loop leaves the board equal to the old board painted with the active piece's id |
| Session.Game.Lock | app.js:224-231 | the fields become exactly the lock transition: paint, clear and score, then spawn |
| Session.Game.Move | app.js:233-238 | returns whether the translated piece fits; if so it becomes active, otherwise nothing changes; the invariant is kept |
| Session.Game.RotateCW | app.js:240-252 | returns whether some kick fits; the piece becomes the turned piece at the first kick that fits, otherwise nothing changes; the invariant is kept |
| Session.Game.HardDrop | app.js:254-257 | the descent loop stops at the landing position and the session becomes the drop transition; the invariant is kept |
| Session.Game.Tick | app.js:259-263 | the session becomes the tick transition (nothing while paused or over, one row down, or a lock); the invariant is kept |
| Session.Game.TogglePause | app.js:277-283 | nothing once over; otherwise the pause flag flips and the timer runs iff not paused; the invariant is kept |
| Session.Game.NewGame | app.js:290-302 | the session becomes the new-game transition of the old one (see Session.StartedFresh) and satisfies the invariant |

## Left out

- Rendering (`draw` apart from its ghost-piece loop, `drawNext`, `roundRectPath`, `fillRoundedCell`, `COLORS`): presentation with floating-point pixel arithmetic and canvas calls. The `draw()` calls inside `tick`, `togglePause` and `newGame` are dropped for the same reason.
- The DOM lookups and `setHud`: display output only.
- `loadHighScore` and `saveHighScore` (`localStorage`, `parseInt`, exception handling): foreign storage calls. The constructor takes the stored high score as a parameter, and `UpdateHighScore` does not save.
- `startFall` and `stopFall`: real timers are not modelled. The boolean `falling` records whether the timer is running.
- `randomShape` (`Math.random`): randomness is not modelled. Each draw is a `Kind` parameter. A spawn inside a lock draws once, so `Lock`, `HardDrop` and `Tick` pass one `pick`.
- `onKeyDown`, `toggleHelp`, the help overlay and the event wiring: input adapter code. The key handler's guard (no moves while paused or over) is not modelled, so `Move`, `RotateCW` and `HardDrop` accept any session that satisfies the invariant.
- Session.Game.Move: `dy` is a natural number. Every caller passes 0 or 1, and a move upward never happens.
- Session.Game.Lock: its contract does not repeat the session invariant. `HardDrop` and `Tick` re-establish it through `Session.LockKeepsInv`.
- The board is a sequence of rows reassigned in place, not a JavaScript array shared by reference. No other code holds the rows, so aliasing is not modelled.
