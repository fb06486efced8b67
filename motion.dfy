/** The pure parts of the active-piece controller: candidate positions, the
    wall-kick search order, and the landing position that the ghost piece
    shows and a hard drop reaches. */
module Motion {
  import opened Shapes
  import opened Board

  /** The piece moved by dx columns and dy rows, same kind and rotation. */
  function Translate(p: Piece, dx: int, dy: int): (q: Piece)
    ensures q.shape == p.shape && q.rot == p.rot && q.x == p.x + dx && q.y == p.y + dy
  {
    p.(x := p.x + dx, y := p.y + dy)
  }

  /** The piece one row lower. */
  function Down(p: Piece): (q: Piece)
  {
    Translate(p, 0, 1)
  }

  /** The piece shifted horizontally by k columns. */
  function Shift(p: Piece, k: int): (q: Piece)
  {
    Translate(p, k, 0)
  }

  /** The piece turned one quarter clockwise in place. */
  function Turned(p: Piece): (q: Piece)
    ensures q.shape == p.shape && q.x == p.x && q.y == p.y
    ensures q.rot == if p.rot == 3 then 0 else p.rot + 1
  {
    p.(rot := (p.rot + 1) % 4)
  }

  /** Horizontal offsets tried by a rotation, in order: no shift, then left
      before right, then one column before two. */
  const KICKS: seq<int> := [0, -1, 1, -2, 2]

  /** The index into ks of the first offset at which base, shifted, fits,
      or None when no offset fits. */
  function FirstKick(b: Grid, base: Piece, ks: seq<int>): (r: Option<nat>)
    requires WellFormed(b)
    ensures r.Some? ==> r.value < |ks| && Fits(b, Shift(base, ks[r.value]))
    ensures r.Some? ==> forall j :: 0 <= j < r.value ==> !Fits(b, Shift(base, ks[j]))
    ensures r.None? <==> forall j :: 0 <= j < |ks| ==> !Fits(b, Shift(base, ks[j]))
  {
    if ks == [] then None
    else if Fits(b, Shift(base, ks[0])) then Some(0)
    else match FirstKick(b, base, ks[1..])
      case None => None
      case Some(i) => Some(i + 1)
  }

  /** An index whose offset fits, with no earlier offset fitting, is the
      one the search returns. */
  lemma {:induction false} FirstKickIs(b: Grid, base: Piece, ks: seq<int>, i: nat)
    requires WellFormed(b) && i < |ks| && Fits(b, Shift(base, ks[i]))
    requires forall j :: 0 <= j < i ==> !Fits(b, Shift(base, ks[j]))
    ensures FirstKick(b, base, ks) == Some(i)
  {
    if i > 0 {
      assert !Fits(b, Shift(base, ks[0]));
      FirstKickIs(b, base, ks[1..], i - 1);
    }
  }

  /** A rotation blocked in place but open one column to the left is
      kicked left, even when one column to the right is open too. */
  lemma KickPrefersLeft(b: Grid, p: Piece)
    requires WellFormed(b)
    requires !Fits(b, Shift(Turned(p), 0)) && Fits(b, Shift(Turned(p), -1))
    ensures FirstKick(b, Turned(p), KICKS) == Some(1)
  {
  }

  /** Where the piece comes to rest when dropped straight down: the same
      piece at the lowest row reached by descending one row at a time for
      as long as the next row down fits. */
  function Landing(b: Grid, p: Piece): (q: Piece)
    requires WellFormed(b)
    ensures q.shape == p.shape && q.rot == p.rot && q.x == p.x && p.y <= q.y
    ensures !Fits(b, Down(q))
    ensures forall k :: p.y < k <= q.y ==> Fits(b, p.(y := k))
    ensures Fits(b, p) ==> Fits(b, q)
    ensures q == p || Fits(b, q)
    decreases ROWS - p.y
  {
    if Fits(b, Down(p)) then
      FitsAboveFloor(b, Down(p));
      Landing(b, Down(p))
    else p
  }

  /** The ghost piece of the renderer: the loop that lowers a copy of the
      active piece while the next row down fits. It reaches the landing
      position. */
  method GhostOf(b: Grid, p: Piece) returns (g: Piece)
    requires WellFormed(b)
    ensures g == Landing(b, p)
  {
    g := p;
    var lower := CanPlace(b, Down(g));
    while lower
      invariant Landing(b, g) == Landing(b, p)
      invariant lower == Fits(b, Down(g))
      decreases ROWS - g.y
    {
      FitsAboveFloor(b, Down(g));
      g := Down(g);
      lower := CanPlace(b, Down(g));
    }
  }
}
