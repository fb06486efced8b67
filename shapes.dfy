/** The static shape table: seven piece kinds, each with four pre-baked
    rotation states of four (dx, dy) cell offsets, and the active piece
    whose absolute cells are computed from it. */
module Shapes {

  datatype Option<T> = None | Some(value: T)

  /** A piece kind, an index into the shape table (I, O, T, S, Z, J, L). */
  type Kind = k: int | 0 <= k < 7

  /** A rotation state. */
  type Rot = r: int | 0 <= r < 4

  datatype Cell = Cell(x: int, y: int)

  /** The active piece: its kind, rotation state and origin on the grid. */
  datatype Piece = Piece(shape: Kind, rot: Rot, x: int, y: int)

  /** The offsets of every kind (outer index) and rotation state (middle
      index), as (dx, dy) pairs with y growing downwards. */
  const SHAPES: seq<seq<seq<(int, int)>>> := [
    // I
    [ [(0, 0), (1, 0), (2, 0), (3, 0)],
      [(1, 0), (1, 1), (1, 2), (1, 3)],
      [(0, 1), (1, 1), (2, 1), (3, 1)],
      [(0, 0), (0, 1), (0, 2), (0, 3)] ],
    // O
    [ [(0, 0), (1, 0), (0, 1), (1, 1)],
      [(0, 0), (1, 0), (0, 1), (1, 1)],
      [(0, 0), (1, 0), (0, 1), (1, 1)],
      [(0, 0), (1, 0), (0, 1), (1, 1)] ],
    // T
    [ [(0, 1), (1, 0), (1, 1), (2, 1)],
      [(1, 0), (1, 1), (1, 2), (2, 1)],
      [(0, 1), (1, 1), (2, 1), (1, 2)],
      [(0, 1), (1, 0), (1, 1), (1, 2)] ],
    // S
    [ [(1, 0), (2, 0), (0, 1), (1, 1)],
      [(0, 0), (0, 1), (1, 1), (1, 2)],
      [(1, 1), (2, 1), (0, 2), (1, 2)],
      [(0, 1), (0, 2), (1, 2), (1, 3)] ],
    // Z
    [ [(0, 0), (1, 0), (1, 1), (2, 1)],
      [(2, 0), (2, 1), (1, 1), (1, 2)],
      [(0, 1), (1, 1), (1, 2), (2, 2)],
      [(2, 1), (2, 2), (1, 2), (1, 3)] ],
    // J
    [ [(0, 0), (0, 1), (1, 1), (2, 1)],
      [(1, 0), (1, 1), (1, 2), (2, 0)],
      [(0, 1), (1, 1), (2, 1), (2, 2)],
      [(0, 2), (1, 0), (1, 1), (1, 2)] ],
    // L
    [ [(2, 0), (0, 1), (1, 1), (2, 1)],
      [(1, 0), (1, 1), (1, 2), (2, 2)],
      [(0, 1), (1, 1), (2, 1), (0, 2)],
      [(0, 0), (1, 0), (1, 1), (1, 2)] ]
  ]

  /** The offsets of one orientation: exactly four of them, each inside the
      4x4 box whose top-left corner is the piece's origin. */
  function Offsets(k: Kind, r: Rot): (o: seq<(int, int)>)
    ensures |o| == 4
    ensures forall i :: 0 <= i < |o| ==> 0 <= o[i].0 <= 3 && 0 <= o[i].1 <= 3
  {
    SHAPES[k][r]
  }

  /** The absolute cells of a piece: its origin plus each offset of its
      current orientation, in table order. */
  function Cells(p: Piece): (cs: seq<Cell>)
    ensures |cs| == 4
    ensures forall i :: 0 <= i < |cs| ==>
      p.x <= cs[i].x <= p.x + 3 && p.y <= cs[i].y <= p.y + 3
  {
    var o := Offsets(p.shape, p.rot);
    [Cell(p.x + o[0].0, p.y + o[0].1), Cell(p.x + o[1].0, p.y + o[1].1),
     Cell(p.x + o[2].0, p.y + o[2].1), Cell(p.x + o[3].0, p.y + o[3].1)]
  }

  /** Every orientation of every kind names four distinct cells, so a piece
      always covers exactly four grid squares. */
  lemma OffsetsDistinct(k: Kind, r: Rot)
    ensures forall i, j :: 0 <= i < j < 4 ==> Offsets(k, r)[i] != Offsets(k, r)[j]
  {
  }

  /** The square piece's four rotation states are identical. */
  lemma SquareRotationIsIdentity(r: Rot)
    ensures Offsets(1, r) == Offsets(1, 0)
  {
  }
}
