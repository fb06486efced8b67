/** The game session: the board, the active and next pieces, the counters
    and the flags, with the transitions that the timer and the player's
    commands trigger. The transitions are first defined on session values
    (State), where their properties are proved; the class Game performs
    them in place and is proved to follow them. */
module Session {
  import opened Shapes
  import opened Board
  import opened Scoring
  import opened Motion

  function Max(a: nat, b: nat): (m: nat)
    ensures m >= a && m >= b && (m == a || m == b)
  {
    if a >= b then a else b
  }

  /** The spawn position of a new piece. */
  function SpawnPiece(k: Kind): (p: Piece)
    ensures p.shape == k && p.rot == 0 && p.y == 0
  {
    Piece(k, 0, 3, 0)
  }

  /** On an empty board every kind can spawn: a new game never starts
      over. */
  lemma SpawnFitsEmptyBoard(k: Kind)
    ensures Fits(MakeBoard(), SpawnPiece(k))
  {
    var cs := Cells(SpawnPiece(k));
    forall i | 0 <= i < |cs| ensures Free(MakeBoard(), cs[i]) {
    }
  }

  /** Locking a piece on a board without full rows completes at most four
      rows, the rows the piece spans; so the points table always has an
      entry for the count. */
  lemma LockCompletesAtMostFour(b: Grid, p: Piece)
    requires WellFormed(b) && NoFullRow(b)
    ensures FullCount(Paint(b, Cells(p), p.shape + 1)) <= 4
  {
    var cs := Cells(p);
    var placed := Paint(b, cs, p.shape + 1);
    forall r | 0 <= r < |placed| && Full(placed[r]) ensures p.y <= r < p.y + 4 {
      if !(p.y <= r < p.y + 4) {
        PaintElsewhere(b, cs, p.shape + 1, r);
      }
    }
    FullCountWithin(placed, p.y, p.y + 4);
  }

  /** The whole session as one value. falling stands for the gravity
      timer: true while it is running. */
  datatype State = State(board: Grid, active: Piece, nextShape: Option<Kind>,
                         gameOver: bool, paused: bool, falling: bool,
                         lines: nat, score: nat, highScore: nat)

  /** The session invariant: a well formed board without full rows, the
      active piece on a legal position while the game is on, a pending
      next kind, and the timer running exactly while playing. */
  predicate Inv(s: State) {
    WellFormed(s.board) && NoFullRow(s.board) &&
    0 <= s.active.y < ROWS &&
    (!s.gameOver ==> Fits(s.board, s.active)) &&
    s.nextShape.Some? &&
    s.falling == (!s.gameOver && !s.paused)
  }

  /** spawn: the pending kind (or the draw `first` when none is pending)
      becomes the active piece at the spawn position and `pick` becomes
      pending; when the new piece does not fit, the game is over, the high
      score is updated and the timer stops. */
  function Spawned(s: State, first: Kind, pick: Kind): State
    requires WellFormed(s.board)
  {
    var shape := if s.nextShape.Some? then s.nextShape.value else first;
    var p := SpawnPiece(shape);
    var t := s.(active := p, nextShape := Some(pick));
    if Fits(s.board, p) then t
    else t.(gameOver := true, highScore := Max(s.highScore, s.score), falling := false)
  }

  /** A spawn never touches the board or the counters; the new piece is
      the pending kind at the spawn position, and a game in progress ends
      exactly when that piece does not fit, raising the high score to the
      score and stopping the timer. */
  lemma SpawnOutcome(s: State, first: Kind, pick: Kind)
    requires WellFormed(s.board) && !s.gameOver
    ensures var t := Spawned(s, first, pick);
            t.board == s.board && t.lines == s.lines && t.score == s.score &&
            t.paused == s.paused && t.nextShape == Some(pick) &&
            t.active == SpawnPiece(if s.nextShape.Some? then s.nextShape.value else first) &&
            (t.gameOver <==> !Fits(s.board, t.active)) &&
            (t.gameOver ==> t.highScore >= s.score && t.highScore >= s.highScore && !t.falling) &&
            (!t.gameOver ==> t.highScore == s.highScore && t.falling == s.falling)
  {
  }

  /** lock: the active piece's cells painted with its colour id, full rows
      cleared and scored, then a spawn. */
  function Placed(s: State): (g: Grid)
    requires WellFormed(s.board)
  {
    Paint(s.board, Cells(s.active), s.active.shape + 1)
  }

  function ClearedState(s: State): (t: State)
    requires WellFormed(s.board)
    ensures WellFormed(t.board)
  {
    var n := FullCount(Placed(s));
    s.(board := Cleared(Placed(s)), lines := s.lines + n, score := s.score + Points(n))
  }

  function Locked(s: State, pick: Kind): State
    requires WellFormed(s.board)
  {
    Spawned(ClearedState(s), pick, pick)
  }

  /** move: the piece translated by (dx, dy) when that fits, otherwise the
      same state. */
  function Moved(s: State, dx: int, dy: int): State
    requires WellFormed(s.board)
  {
    var q := Translate(s.active, dx, dy);
    if Fits(s.board, q) then s.(active := q) else s
  }

  /** rotateCW: the piece turned and shifted by the first kick at which it
      fits, otherwise the same state. */
  function Rotated(s: State): State
    requires WellFormed(s.board)
  {
    var base := Turned(s.active);
    match FirstKick(s.board, base, KICKS)
    case None => s
    case Some(i) => s.(active := Shift(base, KICKS[i]))
  }

  /** hardDrop: the piece locked at its landing position. */
  function Dropped(s: State, pick: Kind): State
    requires WellFormed(s.board)
  {
    Locked(s.(active := Landing(s.board, s.active)), pick)
  }

  /** tick: nothing while paused or over; otherwise one row down, or a lock
      where the piece is when the row below does not fit. */
  function Ticked(s: State, pick: Kind): State
    requires WellFormed(s.board)
  {
    if s.paused || s.gameOver then s
    else if Fits(s.board, Down(s.active)) then Moved(s, 0, 1)
    else Locked(s, pick)
  }

  /** togglePause: nothing once over; otherwise the pause flag flips and
      the timer runs exactly when not paused. */
  function PauseToggled(s: State): State
  {
    if s.gameOver then s
    else
      var paused := !s.paused;
      s.(paused := paused, falling := !paused)
  }

  /** newGame: timer stopped, empty board, flags and counters reset, no
      pending kind, a spawn, and the timer started unless that spawn ended
      the game. The high score is kept. */
  function Started(s: State, first: Kind, pick: Kind): State
  {
    var reset := s.(board := MakeBoard(), nextShape := None, gameOver := false,
                    paused := false, falling := false, lines := 0, score := 0);
    var t := Spawned(reset, first, pick);
    if t.gameOver then t else t.(falling := true)
  }

  /** A new game starts on the empty board with the first draw active, the
      second pending, nothing scored, the timer running and the high score
      kept; it satisfies the invariant. */
  lemma StartedFresh(s: State, first: Kind, pick: Kind)
    ensures Started(s, first, pick) ==
            State(MakeBoard(), SpawnPiece(first), Some(pick), false, false, true, 0, 0, s.highScore)
    ensures Inv(Started(s, first, pick))
  {
    SpawnFitsEmptyBoard(first);
  }

  /** A lock keeps the invariant and completes at most four rows. */
  lemma LockKeepsInv(s: State, pick: Kind)
    requires Inv(s)
    ensures Inv(Locked(s, pick))
    ensures FullCount(Paint(s.board, Cells(s.active), s.active.shape + 1)) <= 4
  {
    LockCompletesAtMostFour(s.board, s.active);
  }

  /** A move down or sideways keeps the invariant. */
  lemma MoveKeepsInv(s: State, dx: int, dy: nat)
    requires Inv(s)
    ensures Inv(Moved(s, dx, dy))
  {
    var q := Translate(s.active, dx, dy);
    if Fits(s.board, q) {
      FitsAboveFloor(s.board, q);
    }
  }

  /** A rotation keeps the invariant. */
  lemma RotateKeepsInv(s: State)
    requires Inv(s)
    ensures Inv(Rotated(s))
  {
    var base := Turned(s.active);
    var k := FirstKick(s.board, base, KICKS);
    if k.Some? {
      FitsAboveFloor(s.board, Shift(base, KICKS[k.value]));
    }
  }

  /** A hard drop keeps the invariant. */
  lemma DropKeepsInv(s: State, pick: Kind)
    requires Inv(s)
    ensures Inv(Dropped(s, pick))
  {
    var q := Landing(s.board, s.active);
    if q != s.active {
      FitsAboveFloor(s.board, q);
    }
    LockKeepsInv(s.(active := q), pick);
  }

  /** A tick keeps the invariant, and does nothing while paused or over. */
  lemma TickKeepsInv(s: State, pick: Kind)
    requires Inv(s)
    ensures Inv(Ticked(s, pick))
    ensures s.paused || s.gameOver ==> Ticked(s, pick) == s
  {
    if !s.paused && !s.gameOver {
      if Fits(s.board, Down(s.active)) {
        MoveKeepsInv(s, 0, 1);
      } else {
        LockKeepsInv(s, pick);
      }
    }
  }

  /** Pausing keeps the invariant; pausing twice restores the state. */
  lemma PauseKeepsInv(s: State)
    requires Inv(s)
    ensures Inv(PauseToggled(s))
    ensures PauseToggled(PauseToggled(s)) == s
  {
  }

  /** n successive ticks, all drawing pick. */
  function Ticks(s: State, pick: Kind, n: nat): (t: State)
    requires Inv(s)
    ensures Inv(t)
    decreases n
  {
    TickKeepsInv(s, pick);
    if n == 0 then s else Ticks(Ticked(s, pick), pick, n - 1)
  }

  /** While playing and with room below, a tick moves the piece down one
      row; its landing position stays the same. */
  lemma TickFalls(s: State, pick: Kind)
    requires Inv(s) && !s.paused && !s.gameOver && Fits(s.board, Down(s.active))
    ensures Ticked(s, pick) == s.(active := Down(s.active))
    ensures Inv(Ticked(s, pick))
    ensures Landing(s.board, Down(s.active)) == Landing(s.board, s.active)
  {
    MoveKeepsInv(s, 0, 1);
    FitsAboveFloor(s.board, Down(s.active));
  }

  /** While playing, a hard drop is the same as ticking until the piece
      locks: one tick per row it falls, plus the tick that locks it. */
  lemma {:induction false} DropIsTicks(s: State, pick: Kind)
    requires Inv(s) && !s.paused && !s.gameOver
    ensures Ticks(s, pick, Landing(s.board, s.active).y - s.active.y + 1) == Dropped(s, pick)
    decreases ROWS - s.active.y
  {
    var q := Landing(s.board, s.active);
    if Fits(s.board, Down(s.active)) {
      TickFalls(s, pick);
      var t := s.(active := Down(s.active));
      DropIsTicks(t, pick);
      assert Ticks(s, pick, q.y - s.active.y + 1) == Ticks(t, pick, q.y - t.active.y + 1);
      assert t.(active := q) == s.(active := q);
    } else {
      assert Ticks(s, pick, 1) == Locked(s, pick);
      assert s.(active := q) == s;
    }
  }

  class Game {
    var board: Grid
    var active: Piece
    /** The pending piece kind; None only while a new game is being set up. */
    var nextShape: Option<Kind>
    var gameOver: bool
    var paused: bool
    /** Whether the periodic gravity timer is running. */
    var falling: bool
    var lines: nat
    var score: nat
    var highScore: nat

    /** The session as a value. */
    ghost function Model(): State
      reads this
    {
      State(board, active, nextShape, gameOver, paused, falling, lines, score, highScore)
    }

    ghost predicate Valid()
      reads this
    {
      Inv(Model())
    }

    /** Start-up: the stored high score is read, then a new game begins. */
    constructor (savedHighScore: nat, first: Kind, pick: Kind)
      ensures Valid()
      ensures Model() ==
              State(MakeBoard(), SpawnPiece(first), Some(pick), false, false, true, 0, 0, savedHighScore)
    {
      board := MakeBoard();
      active := SpawnPiece(0);
      nextShape := None;
      gameOver, paused, falling := false, false, false;
      lines, score := 0, 0;
      highScore := savedHighScore;
      new;
      NewGame(first, pick);
    }

    /** Raises the high score to the current score when it is higher. */
    method UpdateHighScore()
      modifies this`highScore
      ensures highScore == Max(old(highScore), score)
    {
      if score > highScore {
        highScore := score;
      }
    }

    method Spawn(first: Kind, pick: Kind)
      requires WellFormed(board)
      modifies this`active, this`nextShape, this`gameOver, this`falling, this`highScore
      ensures Model() == Spawned(old(Model()), first, pick)
    {
      if nextShape.None? {
        nextShape := Some(first);
      }
      var shape := nextShape.value;
      nextShape := Some(pick);
      active := Piece(shape, 0, 3, 0);
      var ok := CanPlace(board, active);
      if !ok {
        gameOver := true;
        UpdateHighScore();
        falling := false;
      }
    }

    /** Removes every full row, shifting the rows above it down and adding
        an empty row on top; a removed row is re-examined at the same index.
        Lines and score grow by the count and its points. */
    method ClearLines() returns (cleared: nat)
      requires WellFormed(board)
      modifies this`board, this`lines, this`score
      ensures board == Cleared(old(board))
      ensures cleared == FullCount(old(board))
      ensures lines == old(lines) + cleared
      ensures score == old(score) + Points(cleared)
    {
      ghost var orig := board;
      // orig[..j] is not scanned yet; the rows below it are already final.
      ghost var j: nat := ROWS;
      cleared := 0;
      var y := ROWS - 1;
      ScanStart(orig);
      while y >= 0
        invariant Scanning(orig, board, j, cleared, y)
        modifies this`board
        decreases j + y + 1
      {
        if Full(board[y]) {
          ScanStepFull(orig, board, j, cleared, y);
          board := RemoveRow(board, y);
          cleared := cleared + 1;
          y := y + 1;
          j := j - 1;
        } else {
          ScanStepKeep(orig, board, j, cleared, y);
          if j > 0 {
            j := j - 1;
          }
        }
        y := y - 1;
      }
      ScanDone(orig, board, j, cleared);
      if cleared > 0 {
        lines := lines + cleared;
        score := score + Points(cleared);
      }
    }

    /** The write loop of lock: the active piece's colour id (its kind plus
        one) goes into each of its cells that lies on the grid. */
    method Stamp()
      requires WellFormed(board)
      modifies this`board
      ensures board == Paint(old(board), Cells(active), active.shape + 1)
    {
      ghost var before := board;
      var id := active.shape + 1;
      var cells := Cells(active);
      assert cells[..0] == [];
      for i := 0 to |cells|
        invariant board == Paint(before, cells[..i], id)
      {
        PaintStep(before, cells, i, id);
        var c := cells[i];
        if c.y >= 0 && c.y < ROWS && c.x >= 0 && c.x < COLS {
          board := board[c.y := board[c.y][c.x := id]];
        }
      }
      assert cells[..|cells|] == cells;
    }

    method Lock(pick: Kind)
      requires WellFormed(board)
      modifies this`board, this`lines, this`score, this`active, this`nextShape,
               this`gameOver, this`falling, this`highScore
      ensures Model() == Locked(old(Model()), pick)
    {
      ghost var s := Model();
      Stamp();
      assert board == Placed(s);
      var cleared := ClearLines();
      assert board == Cleared(Placed(s));
      assert Model() == ClearedState(s);
      Spawn(pick, pick);
    }

    /** Translates the active piece by (dx, dy) when the result fits. */
    method Move(dx: int, dy: nat) returns (ok: bool)
      requires Valid()
      modifies this`active
      ensures ok == Fits(board, Translate(old(active), dx, dy))
      ensures Model() == Moved(old(Model()), dx, dy)
      ensures Valid()
    {
      var next := Translate(active, dx, dy);
      ok := CanPlace(board, next);
      if ok {
        active := next;
      }
      MoveKeepsInv(old(Model()), dx, dy);
    }

    /** Turns the active piece clockwise, taking the first horizontal kick
        in KICKS at which the turned piece fits. */
    method RotateCW() returns (ok: bool)
      requires Valid()
      modifies this`active
      ensures ok == FirstKick(board, Turned(old(active)), KICKS).Some?
      ensures Model() == Rotated(old(Model()))
      ensures Valid()
    {
      var nextRot := (active.rot + 1) % 4;
      var base := active.(rot := nextRot);
      assert base == Turned(old(active));
      RotateKeepsInv(old(Model()));
      for i := 0 to |KICKS|
        invariant forall j :: 0 <= j < i ==> !Fits(board, Shift(base, KICKS[j]))
        invariant active == old(active)
      {
        var candidate := Shift(base, KICKS[i]);
        var fits := CanPlace(board, candidate);
        if fits {
          FirstKickIs(board, base, KICKS, i);
          active := candidate;
          return true;
        }
      }
      return false;
    }

    /** Lowers the active piece as far as it goes, then locks it there. */
    method HardDrop(pick: Kind)
      requires Valid()
      modifies this`board, this`lines, this`score, this`active, this`nextShape,
               this`gameOver, this`falling, this`highScore
      ensures Model() == Dropped(old(Model()), pick)
      ensures Valid()
    {
      while true
        invariant Valid() && Model() == old(Model()).(active := active)
        invariant Landing(board, active) == Landing(board, old(active))
        modifies this`active
        decreases ROWS - active.y
      {
        var moved := Move(0, 1);
        if !moved {
          break;
        }
      }
      ghost var s := old(Model()).(active := Landing(board, old(active)));
      assert Model() == s;
      Lock(pick);
      DropKeepsInv(old(Model()), pick);
    }

    /** One gravity step. */
    method Tick(pick: Kind)
      requires Valid()
      modifies this`board, this`lines, this`score, this`active, this`nextShape,
               this`gameOver, this`falling, this`highScore
      ensures Model() == Ticked(old(Model()), pick)
      ensures Valid()
    {
      if !paused && !gameOver {
        var moved := Move(0, 1);
        if !moved {
          Lock(pick);
        }
      }
      TickKeepsInv(old(Model()), pick);
    }

    method TogglePause()
      requires Valid()
      modifies this`paused, this`falling
      ensures Model() == PauseToggled(old(Model()))
      ensures Valid()
    {
      if gameOver {
        return;
      }
      paused := !paused;
      falling := !paused;
    }

    method NewGame(first: Kind, pick: Kind)
      modifies this
      ensures Model() == Started(old(Model()), first, pick)
      ensures Valid()
    {
      falling := false;
      board := MakeBoard();
      gameOver := false;
      paused := false;
      lines := 0;
      score := 0;
      nextShape := None;
      Spawn(first, pick);
      if !gameOver {
        falling := true;
      }
      StartedFresh(old(Model()), first, pick);
    }
  }
}
