/**
 * Geometry of the play field: pixel cells on a grid of side BlockSize,
 * unit direction vectors, the snake's self-collision test, and the grid
 * draws that stand for `Math.random` when a fruit is placed.
 */
module Board {

  /** Side of one grid cell in pixels. */
  const BlockSize: nat := 20

  datatype Option<T> = None | Some(value: T)

  /** A position in pixels; live cells sit on multiples of BlockSize. */
  datatype Cell = Cell(x: int, y: int)

  /** A movement vector, in cells per simulation step. */
  datatype Dir = Dir(x: int, y: int)

  /** The four directions the snake can travel in. */
  predicate IsUnit(d: Dir) {
    d == Dir(1, 0) || d == Dir(-1, 0) || d == Dir(0, 1) || d == Dir(0, -1)
  }

  function Reverse(d: Dir): Dir {
    Dir(-d.x, -d.y)
  }

  predicate Perpendicular(a: Dir, b: Dir) {
    a.x * b.x + a.y * b.y == 0
  }

  /** The cell one block further along `d`. */
  function Advance(c: Cell, d: Dir): Cell {
    Cell(c.x + d.x * BlockSize, c.y + d.y * BlockSize)
  }

  /** The bounds test of the simulation step: left of, above, or at/after the far edge. */
  predicate OutOfBounds(c: Cell, width: nat, height: nat) {
    c.x < 0 || c.y < 0 || c.x >= width || c.y >= height
  }

  predicate Aligned(c: Cell) {
    c.x % BlockSize == 0 && c.y % BlockSize == 0
  }

  /** A grid-aligned cell inside the canvas. */
  predicate OnBoard(c: Cell, width: nat, height: nat) {
    Aligned(c) && !OutOfBounds(c, width, height)
  }

  predicate Distinct(cells: seq<Cell>) {
    forall i, j :: 0 <= i < j < |cells| ==> cells[i] != cells[j]
  }

  /**
   * The collision test against the snake: true when some segment has the
   * same coordinates as `position`, scanning from the head like `some`.
   */
  function Collides(snake: seq<Cell>, position: Cell): (r: bool)
    ensures r <==> position in snake
  {
    if snake == [] then false
    else snake[0] == position || Collides(snake[1..], position)
  }

  lemma AdvanceKeepsAligned(c: Cell, d: Dir)
    requires Aligned(c) && IsUnit(d)
    ensures Aligned(Advance(c, d))
    ensures Advance(c, d) != c
  {
  }

  // ---------------------------------------------------------------------
  // Random fruit positions
  // ---------------------------------------------------------------------

  /**
   * One attempt at placing a fruit: the column and row indices obtained by
   * scaling a uniform random fraction by the number of blocks across each
   * extent and rounding down.
   */
  datatype Draw = Draw(col: nat, row: nat)

  /**
   * The indices that floor(r * (extent / BlockSize)) can take for
   * 0 <= r < 1: those whose block starts before the far edge, and 0
   * (the only value when the extent is 0).
   */
  predicate ValidIndex(k: nat, extent: nat) {
    k == 0 || k * BlockSize < extent
  }

  predicate ValidDraw(d: Draw, width: nat, height: nat) {
    ValidIndex(d.col, width) && ValidIndex(d.row, height)
  }

  predicate ValidDraws(draws: seq<Draw>, width: nat, height: nat) {
    forall i :: 0 <= i < |draws| ==> ValidDraw(draws[i], width, height)
  }

  function DrawCell(d: Draw): Cell {
    Cell(d.col * BlockSize, d.row * BlockSize)
  }

  /**
   * Where a fruit can land: grid-aligned, non-negative, and before the far
   * edge unless that edge is at 0.
   */
  predicate Placed(c: Cell, width: nat, height: nat) {
    && Aligned(c)
    && 0 <= c.x && (c.x < width || c.x == 0)
    && 0 <= c.y && (c.y < height || c.y == 0)
  }

  /** Every draw the random source can produce lands on a placeable cell. */
  lemma DrawIsPlaced(d: Draw, width: nat, height: nat)
    requires ValidDraw(d, width, height)
    ensures Placed(DrawCell(d), width, height)
    ensures 0 < width && 0 < height ==> OnBoard(DrawCell(d), width, height)
  {
  }

  /** Conversely, every cell on the board is produced by some valid draw. */
  lemma OnBoardIsDrawable(c: Cell, width: nat, height: nat)
    requires OnBoard(c, width, height)
    ensures ValidDraw(Draw(c.x / BlockSize, c.y / BlockSize), width, height)
    ensures DrawCell(Draw(c.x / BlockSize, c.y / BlockSize)) == c
  {
  }
}
