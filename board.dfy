/** The board: a fixed ROWS x COLS grid of cells, 0 for empty and a piece
    kind plus one for a locked cell, with the placement test and the
    reference definition of line clearing. */
module Board {
  import opened Shapes

  const COLS: int := 10
  const ROWS: int := 20

  type Row = seq<int>
  type Grid = seq<Row>

  /** A row has COLS cells, each empty or a colour id 1..7. */
  predicate RowOk(row: Row) {
    |row| == COLS && forall c :: 0 <= c < |row| ==> 0 <= row[c] <= 7
  }

  predicate AllRowsOk(rows: seq<Row>) {
    forall r :: 0 <= r < |rows| ==> RowOk(rows[r])
  }

  predicate WellFormed(b: Grid) {
    |b| == ROWS && AllRowsOk(b)
  }

  /** A row is full when none of its cells is empty. */
  predicate Full(row: Row) {
    forall c :: 0 <= c < |row| ==> row[c] != 0
  }

  predicate NoFullRow(rows: seq<Row>) {
    forall r :: 0 <= r < |rows| ==> !Full(rows[r])
  }

  /** A row of COLS empty cells. */
  function EmptyRow(): (row: Row)
    ensures RowOk(row) && !Full(row)
    ensures forall c :: 0 <= c < |row| ==> row[c] == 0
  {
    var row := [0, 0, 0, 0, 0, 0, 0, 0, 0, 0];
    assert row[0] == 0;
    row
  }

  /** n empty rows: the rows that clearing adds on top. */
  function Blank(n: nat): (rows: seq<Row>)
    ensures |rows| == n
    ensures forall r :: 0 <= r < n ==> rows[r] == EmptyRow()
    ensures AllRowsOk(rows) && NoFullRow(rows)
  {
    if n == 0 then [] else [EmptyRow()] + Blank(n - 1)
  }

  /** The board of a new game: every cell empty. */
  function MakeBoard(): (b: Grid)
    ensures WellFormed(b) && NoFullRow(b)
    ensures forall r, c :: 0 <= r < ROWS && 0 <= c < COLS ==> b[r][c] == 0
  {
    Blank(ROWS)
  }

  /** The placement test for one cell: inside the side walls, above the
      floor, and, when it lies on the grid (y >= 0), on an empty cell.
      Cells above the grid are not checked for occupancy. */
  predicate Free(b: Grid, c: Cell)
    requires WellFormed(b)
  {
    0 <= c.x < COLS && c.y < ROWS && (c.y >= 0 ==> b[c.y][c.x] == 0)
  }

  /** A piece position is legal when every one of its cells is free. */
  predicate Fits(b: Grid, p: Piece)
    requires WellFormed(b)
  {
    var cs := Cells(p);
    forall i :: 0 <= i < |cs| ==> Free(b, cs[i])
  }

  /** A piece that fits has its origin above the floor row, since every
      offset has dy >= 0. */
  lemma FitsAboveFloor(b: Grid, p: Piece)
    requires WellFormed(b) && Fits(b, p)
    ensures p.y < ROWS
  {
    assert Free(b, Cells(p)[0]);
  }

  /** The scan of canPlace: walks the cells in table order and rejects at
      the first one that is out of bounds or lands on an occupied cell,
      testing the bounds before reading the board. */
  method CanPlace(b: Grid, p: Piece) returns (ok: bool)
    requires WellFormed(b)
    ensures ok == Fits(b, p)
  {
    var cells := Cells(p);
    for i := 0 to |cells|
      invariant forall j :: 0 <= j < i ==> Free(b, cells[j])
    {
      var c := cells[i];
      if c.x < 0 || c.x >= COLS || c.y >= ROWS {
        return false;
      }
      if c.y >= 0 && b[c.y][c.x] != 0 {
        return false;
      }
    }
    return true;
  }

  /** One write of lock's loop: id goes into cell c when c lies on the
      grid; a cell off the grid is skipped. */
  function PaintCell(g: Grid, c: Cell, id: int): (h: Grid)
    requires WellFormed(g) && 1 <= id <= 7
    ensures WellFormed(h)
  {
    if 0 <= c.y < ROWS && 0 <= c.x < COLS then g[c.y := g[c.y][c.x := id]] else g
  }

  /** The board after writing id into the cells cs, one after the other. */
  function Paint(b: Grid, cs: seq<Cell>, id: int): (g: Grid)
    requires WellFormed(b) && 1 <= id <= 7
    ensures WellFormed(g)
    decreases |cs|
  {
    if cs == [] then b else PaintCell(Paint(b, cs[..|cs| - 1], id), cs[|cs| - 1], id)
  }

  /** Painting one more cell of cs is one more cell write. */
  lemma PaintStep(b: Grid, cs: seq<Cell>, i: nat, id: int)
    requires WellFormed(b) && 1 <= id <= 7 && i < |cs|
    ensures Paint(b, cs[..i + 1], id) == PaintCell(Paint(b, cs[..i], id), cs[i], id)
  {
    assert cs[..i + 1][..i] == cs[..i];
  }

  /** What painting means cell by cell: a grid cell holds id when it is one
      of cs, and its old value otherwise. */
  lemma {:induction false} PaintAt(b: Grid, cs: seq<Cell>, id: int, r: int, x: int)
    requires WellFormed(b) && 1 <= id <= 7
    requires 0 <= r < ROWS && 0 <= x < COLS
    ensures Paint(b, cs, id)[r][x] == if Cell(x, r) in cs then id else b[r][x]
    decreases |cs|
  {
    if cs != [] {
      var init := cs[..|cs| - 1];
      PaintAt(b, init, id, r, x);
      assert cs == init + [cs[|cs| - 1]];
      assert Cell(x, r) in cs <==> Cell(x, r) in init || Cell(x, r) == cs[|cs| - 1];
    }
  }

  /** Rows that no cell of cs lies on are unchanged. */
  lemma {:induction false} PaintElsewhere(b: Grid, cs: seq<Cell>, id: int, r: int)
    requires WellFormed(b) && 1 <= id <= 7 && 0 <= r < ROWS
    requires forall i :: 0 <= i < |cs| ==> cs[i].y != r
    ensures Paint(b, cs, id)[r] == b[r]
    decreases |cs|
  {
    if cs != [] {
      PaintElsewhere(b, cs[..|cs| - 1], id, r);
    }
  }

  /** Number of full rows. */
  function FullCount(rows: seq<Row>): (n: nat)
    ensures n <= |rows|
  {
    if rows == [] then 0
    else (if Full(rows[0]) then 1 else 0) + FullCount(rows[1..])
  }

  /** The rows that are not full, in their original order. */
  function NonFull(rows: seq<Row>): (kept: seq<Row>)
    ensures |kept| + FullCount(rows) == |rows|
    ensures NoFullRow(kept)
    ensures AllRowsOk(rows) ==> AllRowsOk(kept)
    ensures FullCount(rows) == 0 ==> kept == rows
  {
    if rows == [] then []
    else (if Full(rows[0]) then [] else [rows[0]]) + NonFull(rows[1..])
  }

  /** The board after clearing: every full row removed, the others kept in
      order at the bottom, and one empty row added on top for each removed
      row. */
  function Cleared(b: Grid): (g: Grid)
    requires WellFormed(b)
    ensures WellFormed(g) && NoFullRow(g)
  {
    var blank, kept := Blank(FullCount(b)), NonFull(b);
    var g := blank + kept;
    assert forall r :: 0 <= r < |g| ==> g[r] == if r < |blank| then blank[r] else kept[r - |blank|];
    g
  }

  /** Row y taken out and an empty row put on top: splice then unshift. */
  function RemoveRow(rows: seq<Row>, y: nat): (r: seq<Row>)
    requires y < |rows|
    ensures |r| == |rows|
  {
    [EmptyRow()] + rows[..y] + rows[y + 1..]
  }

  /** The state of clearLines' bottom-up scan: the removed rows' worth of
      empty rows on top, then the c rows orig[..j] not scanned yet, then
      the kept rows of orig[j..]. */
  function Scan(orig: seq<Row>, j: nat, c: nat): (s: seq<Row>)
    requires j <= |orig|
  {
    Blank(c) + orig[..j] + NonFull(orig[j..])
  }

  /** A sequence split around one element. */
  lemma Splice(a: seq<Row>, x: Row, b: seq<Row>)
    ensures var s := a + [x] + b;
            |a| < |s| && s[|a|] == x && s[..|a|] == a && s[|a| + 1..] == b
  {
    var s := a + [x] + b;
    assert s[..|a|] == a;
    assert s[|a| + 1..] == b;
  }

  /** Counting and filtering a suffix look at its first row and go on. */
  lemma NonFullFrom(rows: seq<Row>, i: nat)
    requires i < |rows|
    ensures NonFull(rows[i..]) == (if Full(rows[i]) then [] else [rows[i]]) + NonFull(rows[i + 1..])
    ensures FullCount(rows[i..]) == (if Full(rows[i]) then 1 else 0) + FullCount(rows[i + 1..])
  {
    assert rows[i..][1..] == rows[i + 1..];
  }

  /** The scan state with the row at the scan index written out. */
  lemma ScanAt(orig: seq<Row>, j: nat, c: nat)
    requires 0 < j <= |orig|
    ensures Scan(orig, j, c) == (Blank(c) + orig[..j - 1]) + [orig[j - 1]] + NonFull(orig[j..])
  {
    assert orig[..j] == orig[..j - 1] + [orig[j - 1]];
  }

  /** The scan looks at row c + j - 1, which holds orig[j - 1]. */
  lemma ScanRow(orig: seq<Row>, j: nat, c: nat)
    requires 0 < j <= |orig|
    ensures c + j - 1 < |Scan(orig, j, c)| && Scan(orig, j, c)[c + j - 1] == orig[j - 1]
  {
    ScanAt(orig, j, c);
    Splice(Blank(c) + orig[..j - 1], orig[j - 1], NonFull(orig[j..]));
  }

  /** Removing the row orig[j - 1] at index c + j - 1 and adding an empty
      row on top moves the scan past it without moving the index. */
  lemma ScanRemovesRow(orig: seq<Row>, j: nat, c: nat)
    requires 0 < j <= |orig| && Full(orig[j - 1])
    ensures c + j - 1 < |Scan(orig, j, c)|
    ensures RemoveRow(Scan(orig, j, c), c + j - 1) == Scan(orig, j - 1, c + 1)
  {
    var a, x, w := Blank(c) + orig[..j - 1], orig[j - 1], NonFull(orig[j..]);
    assert Scan(orig, j, c) == a + [x] + w by {
      ScanAt(orig, j, c);
    }
    assert RemoveRow(a + [x] + w, |a|) == [EmptyRow()] + a + w by {
      Splice(a, x, w);
    }
    assert Scan(orig, j - 1, c + 1) == [EmptyRow()] + a + w by {
      NonFullFrom(orig, j - 1);
      assert Blank(c + 1) == [EmptyRow()] + Blank(c);
      assert Blank(c + 1) + orig[..j - 1] == [EmptyRow()] + a;
    }
  }

  /** A row orig[j - 1] that is not full stays where it is and the scan
      moves up. */
  lemma ScanKeepsRow(orig: seq<Row>, j: nat, c: nat)
    requires 0 < j <= |orig| && !Full(orig[j - 1])
    ensures Scan(orig, j, c) == Scan(orig, j - 1, c)
  {
    var a, x, w := Blank(c) + orig[..j - 1], orig[j - 1], NonFull(orig[j..]);
    assert Scan(orig, j, c) == a + [x] + w by {
      ScanAt(orig, j, c);
    }
    assert NonFull(orig[j - 1..]) == [x] + w by {
      NonFullFrom(orig, j - 1);
    }
    assert a + [x] + w == Blank(c) + orig[..j - 1] + ([x] + w);
  }

  /** The invariant of clearLines' scan: b is the scan state for orig
      with j rows not scanned yet and c rows removed, c counts the full rows
      of orig[j..], and y is the next row to look at (row c + j - 1 while
      any of orig is left, one of the empty rows on top afterwards). */
  ghost predicate Scanning(orig: seq<Row>, b: seq<Row>, j: nat, c: nat, y: int)
  {
    j <= |orig| && -1 <= y <= c + j - 1 && (j > 0 ==> y == c + j - 1) &&
    c == FullCount(orig[j..]) && b == Scan(orig, j, c)
  }

  /** The scan starts at the bottom row with nothing removed. */
  lemma ScanStart(orig: seq<Row>)
    ensures Scanning(orig, orig, |orig|, 0, |orig| - 1)
  {
    assert orig[..|orig|] == orig;
    assert Blank(0) + orig + NonFull([]) == orig;
  }

  /** A full row at index y of the scan is removed, an empty row goes on
      top, and y is looked at again. */
  lemma ScanStepFull(orig: seq<Row>, b: seq<Row>, j: nat, c: nat, y: int)
    requires Scanning(orig, b, j, c, y) && 0 <= y < |b| && Full(b[y])
    ensures j > 0 && Scanning(orig, RemoveRow(b, y), j - 1, c + 1, y)
  {
    if j == 0 {
      assert false;
    }
    ScanRow(orig, j, c);
    ScanRemovesRow(orig, j, c);
    NonFullFrom(orig, j - 1);
  }

  /** A row at index y of the scan that is not full is kept and the scan
      moves up one row. */
  lemma ScanStepKeep(orig: seq<Row>, b: seq<Row>, j: nat, c: nat, y: int)
    requires Scanning(orig, b, j, c, y) && 0 <= y < |b| && !Full(b[y])
    ensures Scanning(orig, b, if j > 0 then j - 1 else 0, c, y - 1)
  {
    if j > 0 {
      ScanRow(orig, j, c);
      ScanKeepsRow(orig, j, c);
      NonFullFrom(orig, j - 1);
    }
  }

  /** A scan that has run past the top row has produced the cleared board
      and counted its full rows. */
  lemma ScanDone(orig: seq<Row>, b: seq<Row>, j: nat, c: nat)
    requires WellFormed(orig) && Scanning(orig, b, j, c, -1)
    ensures b == Cleared(orig) && c == FullCount(orig)
  {
    assert j == 0;
    assert orig[0..] == orig && orig[..0] == [];
  }

  /** No full row is the same as a zero count of full rows. */
  lemma {:induction false} NoFullRowCount(rows: seq<Row>)
    ensures NoFullRow(rows) <==> FullCount(rows) == 0
  {
    if rows != [] {
      NoFullRowCount(rows[1..]);
      assert NoFullRow(rows) <==> !Full(rows[0]) && NoFullRow(rows[1..]) by {
        forall r | 0 <= r < |rows[1..]| ensures rows[1..][r] == rows[r + 1] { }
      }
    }
  }

  /** Clearing a board that has no full row clears nothing and leaves the
      board as it was. */
  lemma ClearNothing(b: Grid)
    requires WellFormed(b) && NoFullRow(b)
    ensures FullCount(b) == 0 && Cleared(b) == b
  {
    NoFullRowCount(b);
    assert Blank(0) == [];
  }

  /** Counting and filtering distribute over concatenation. */
  lemma {:induction false} NonFullAppend(a: seq<Row>, c: seq<Row>)
    ensures FullCount(a + c) == FullCount(a) + FullCount(c)
    ensures NonFull(a + c) == NonFull(a) + NonFull(c)
  {
    if a == [] {
      assert a + c == c;
    } else {
      assert (a + c)[0] == a[0];
      assert (a + c)[1..] == a[1..] + c;
      NonFullAppend(a[1..], c);
    }
  }

  /** When the only full row is the bottom one, clearing removes exactly it
      and shifts nothing else: the other rows keep their places under one
      new empty row. */
  lemma ClearBottomRow(b: Grid)
    requires WellFormed(b) && Full(b[ROWS - 1])
    requires forall r :: 0 <= r < ROWS - 1 ==> !Full(b[r])
    ensures FullCount(b) == 1
    ensures Cleared(b) == [EmptyRow()] + b[..ROWS - 1]
  {
    var top := b[..ROWS - 1];
    assert b == top + [b[ROWS - 1]];
    NonFullAppend(top, [b[ROWS - 1]]);
    assert NoFullRow(top) by {
      forall r | 0 <= r < |top| ensures !Full(top[r]) { assert top[r] == b[r]; }
    }
    NoFullRowCount(top);
    assert [b[ROWS - 1]][1..] == [];
    assert Blank(1) == [EmptyRow()];
  }

  /** When every full row lies in the index range [lo, hi), there are at
      most hi - lo of them. */
  lemma {:induction false} FullCountWithin(rows: seq<Row>, lo: int, hi: int)
    requires forall r :: 0 <= r < |rows| && Full(rows[r]) ==> lo <= r < hi
    ensures FullCount(rows) <= if hi - (if lo < 0 then 0 else lo) < 0 then 0 else hi - (if lo < 0 then 0 else lo)
  {
    if rows != [] {
      var rest := rows[1..];
      forall r | 0 <= r < |rest| && Full(rest[r]) ensures lo - 1 <= r < hi - 1 {
        assert rest[r] == rows[r + 1];
      }
      FullCountWithin(rest, lo - 1, hi - 1);
    }
  }
}
