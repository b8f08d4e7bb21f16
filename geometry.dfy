/**
 * Grid geometry of the game: the 8 x 14 cell lattice, the rectangle value that every
 * entity occupies, the overlap test that is the game's only collision primitive, and
 * the horizontal wrap of the player's and the enemies' lateral moves.
 *
 * Every coordinate the game computes is an integer multiple of the cell width or the
 * cell height (both come from an integer division of the screen size), so the model
 * uses `int` for the float fields of the original rectangles.
 */
module Geometry {

  /** Number of cell columns across the screen. */
  const Columns := 8
  /** Number of cell rows up the screen. */
  const RowsOnScreen := 14

  /** An axis-aligned rectangle: lower-left corner, width and height, in pixels. */
  datatype Rect = Rect(x: int, y: int, w: int, h: int)

  /** The strict overlap test of libGDX's `Intersector.overlaps`: rectangles that only
      share an edge do not overlap. */
  predicate Overlaps(a: Rect, b: Rect) {
    a.x < b.x + b.w && a.x + a.w > b.x && a.y < b.y + b.h && a.y + a.h > b.y
  }

  /** `r` overlaps at least one of the given obstacles. */
  predicate Blocked(r: Rect, obstacles: seq<Rect>) {
    exists j :: 0 <= j < |obstacles| && Overlaps(r, obstacles[j])
  }

  /** `x` is the left edge of one of the eight on-screen columns. */
  predicate OnColumn(x: int, cw: int) {
    x == 0 || x == cw || x == 2 * cw || x == 3 * cw || x == 4 * cw
    || x == 5 * cw || x == 6 * cw || x == 7 * cw
  }

  /** `x` is one of the positions an enemy can take: a column, or one cell past the
      right-most column (enemies wrap only once they are beyond the screen edge). */
  predicate OnEnemyColumn(x: int, cw: int) {
    OnColumn(x, cw) || x == 8 * cw
  }

  /** The column the player tries to enter when moving left: one to the left, and from
      the left-most column to the right-most one. */
  function PlayerLeftX(x: int, cw: int): (r: int)
    requires cw > 0 && OnColumn(x, cw)
    ensures OnColumn(r, cw)
    ensures x > 0 ==> r == x - cw
    ensures x == 0 ==> r == 7 * cw
  {
    if x - cw >= 0 then x - cw else cw * (Columns - 1)
  }

  /** The column the player tries to enter when moving right, on a screen `width` pixels
      wide: one to the right, and from the right-most column to the left-most one. */
  function PlayerRightX(x: int, cw: int, width: int): (r: int)
    requires cw > 0 && width == Columns * cw && OnColumn(x, cw)
    ensures OnColumn(r, cw)
    ensures x < 7 * cw ==> r == x + cw
    ensures x == 7 * cw ==> r == 0
  {
    if x + cw < width then x + cw else 0
  }

  /** The player's horizontal wrap is a bijection on the columns: a left move undoes a
      right move and a right move undoes a left move. */
  lemma PlayerWrapRoundTrip(x: int, cw: int, width: int)
    requires cw > 0 && width == Columns * cw && OnColumn(x, cw)
    ensures PlayerRightX(PlayerLeftX(x, cw), cw, width) == x
    ensures PlayerLeftX(PlayerRightX(x, cw, width), cw) == x
  {
  }

  /** The x an enemy tries to take when moving left: one cell to the left, or, when
      that would leave the screen, seven cells to the right. */
  function EnemyLeftX(x: int, cw: int): (r: int)
    requires cw > 0 && OnEnemyColumn(x, cw)
    ensures OnEnemyColumn(r, cw) && OnColumn(r, cw)
    ensures x == 0 ==> r == 7 * cw
    ensures x > 0 ==> r == x - cw
  {
    if x - cw < 0 then x + cw * (Columns - 1) else x - cw
  }

  /** The x an enemy tries to take when moving right: one cell to the right unless that
      cell would end beyond the screen edge, in which case column 0. From the right-most
      column this yields `8 * cw`, one cell past the screen. */
  function EnemyRightX(x: int, cw: int, width: int): (r: int)
    requires cw > 0 && width == Columns * cw && OnEnemyColumn(x, cw)
    ensures OnEnemyColumn(r, cw)
    ensures x < 8 * cw ==> r == x + cw
    ensures x == 8 * cw ==> r == 0
  {
    if x + cw > width then 0 else x + cw
  }

  /** An enemy in the right-most column steps off the screen before it wraps, whereas
      the player wraps straight to column 0. */
  lemma EnemyWrapLagsPlayerWrap(cw: int, width: int)
    requires cw > 0 && width == Columns * cw
    ensures EnemyRightX(7 * cw, cw, width) == width
    ensures PlayerRightX(7 * cw, cw, width) == 0
    ensures EnemyRightX(EnemyRightX(7 * cw, cw, width), cw, width) == 0
  {
  }

  /** The column index of an enemy position: 0 to 7 on the screen, 8 one cell past it. */
  function Col(x: int, cw: int): (c: int)
    requires cw > 0 && OnEnemyColumn(x, cw)
    ensures 0 <= c <= Columns && x == cw * c
    ensures OnColumn(x, cw) ==> c < Columns
  {
    if x == 0 then 0 else if x == cw then 1 else if x == 2 * cw then 2 else if x == 3 * cw then 3
    else if x == 4 * cw then 4 else if x == 5 * cw then 5 else if x == 6 * cw then 6
    else if x == 7 * cw then 7 else 8
  }

  /** The number of column steps between columns `c` and `f` on the wrapped row, taking
      the shorter way round; index 8 is column 0 again. */
  function WrapDistance(c: int, f: int): (d: int)
    ensures 0 <= d <= Columns / 2
    ensures d == 0 <==> (c - f) % Columns == 0
  {
    var m := (c - f) % Columns;
    if m <= Columns - m then m else Columns - m
  }

  /** Two cells of the lattice in the same row overlap exactly when they are the same
      column; in particular, an enemy on the player's cell overlaps the player. */
  lemma CellsOverlapIffSameColumn(a: Rect, b: Rect, cw: int, ch: int)
    requires cw > 0 && ch > 0
    requires OnEnemyColumn(a.x, cw) && OnEnemyColumn(b.x, cw) && a.y == b.y
    requires a.w == cw && b.w == cw && a.h == ch && b.h == ch
    ensures Overlaps(a, b) <==> a.x == b.x
  {
  }
}
