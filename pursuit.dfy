/**
 * The enemies' pursuit, as functions of one enemy's rectangle and the arena it moves in
 * (the player's cell, the obstacles, the cell size and the screen width). The game's
 * methods `EnemyForward`, `EnemyLeft`, `EnemyRight` and `MoveEnemies` update the enemy
 * array in place and are specified by these functions.
 */
module Pursuit {
  import opened Geometry

  const EnemyCount := 4
  /** Every `JumpTime`-th move the enemies get a second pursuit pass. */
  const JumpTime := 5

  /** What one enemy's move depends on besides the enemy itself. */
  datatype Arena = Arena(fish: Rect, obstacles: seq<Rect>, cw: int, ch: int, width: int)

  predicate ArenaOk(a: Arena) {
    a.cw > 0 && a.ch > 0 && a.width == Columns * a.cw
  }

  /** An enemy is one cell large and stands on one of the enemy columns. */
  predicate EnemyShape(e: Rect, cw: int, ch: int) {
    OnEnemyColumn(e.x, cw) && e.w == cw && e.h == ch
  }

  /** `enemyLeft`: step one column left (wrapping from column 0 to column 7) unless the
      new cell overlaps an obstacle, in which case the enemy goes back; when the step had
      wrapped, "back" is x = 0. */
  function StepLeft(a: Arena, e: Rect): (r: Rect)
    requires ArenaOk(a) && OnEnemyColumn(e.x, a.cw)
    ensures r.y == e.y && r.w == e.w && r.h == e.h && OnEnemyColumn(r.x, a.cw)
    ensures Blocked(e.(x := EnemyLeftX(e.x, a.cw)), a.obstacles) ==> r == e
    ensures !Blocked(e.(x := EnemyLeftX(e.x, a.cw)), a.obstacles) ==> r == e.(x := EnemyLeftX(e.x, a.cw))
  {
    var wrapped := e.x - a.cw < 0;
    var t := if wrapped then e.(x := e.x + a.cw * (Columns - 1)) else e.(x := e.x - a.cw);
    if Blocked(t, a.obstacles) then
      (if wrapped then t.(x := 0) else t.(x := t.x + a.cw))
    else t
  }

  /** `enemyRight`: step one column right unless the new cell would end beyond the screen
      edge, in which case wrap to column 0; go back when the new cell overlaps an
      obstacle. When the step had wrapped, "back" is column 7, not the column one past
      the screen where the enemy came from. */
  function StepRight(a: Arena, e: Rect): (r: Rect)
    requires ArenaOk(a) && OnEnemyColumn(e.x, a.cw)
    ensures r.y == e.y && r.w == e.w && r.h == e.h && OnEnemyColumn(r.x, a.cw)
    ensures Blocked(e.(x := EnemyRightX(e.x, a.cw, a.width)), a.obstacles) ==>
      r == e.(x := if e.x == a.width then a.width - a.cw else e.x)
    ensures !Blocked(e.(x := EnemyRightX(e.x, a.cw, a.width)), a.obstacles) ==>
      r == e.(x := EnemyRightX(e.x, a.cw, a.width))
  {
    var wrapped := e.x + a.cw > a.width;
    var t := if wrapped then e.(x := 0) else e.(x := e.x + a.cw);
    if Blocked(t, a.obstacles) then
      (if wrapped then t.(x := a.cw * (Columns - 1)) else t.(x := t.x - a.cw))
    else t
  }

  /** `enemyForward`: move one cell up; when that cell overlaps an obstacle, go back and
      step sideways toward the player's column instead (not at all when already in it). */
  function StepForward(a: Arena, e: Rect): (r: Rect)
    requires ArenaOk(a) && OnEnemyColumn(e.x, a.cw)
    ensures r.w == e.w && r.h == e.h && OnEnemyColumn(r.x, a.cw)
    ensures !Blocked(e.(y := e.y + a.ch), a.obstacles) ==> r == e.(y := e.y + a.ch)
    ensures Blocked(e.(y := e.y + a.ch), a.obstacles) ==> r.y == e.y
    ensures Blocked(e.(y := e.y + a.ch), a.obstacles) && e.x == a.fish.x ==> r == e
    ensures Blocked(e.(y := e.y + a.ch), a.obstacles) && e.x > a.fish.x ==>
      r == e || r == e.(x := EnemyLeftX(e.x, a.cw))
    ensures Blocked(e.(y := e.y + a.ch), a.obstacles) && e.x < a.fish.x <= a.width ==>
      r == e || r == e.(x := e.x + a.cw)
  {
    var up := e.(y := e.y + a.ch);
    if !Blocked(up, a.obstacles) then up
    else if e.x > a.fish.x then StepLeft(a, e)
    else if e.x < a.fish.x then StepRight(a, e)
    else e
  }

  /** The move one pass of `moveEnemies` gives one enemy: forward while below the
      player, otherwise sideways along the shorter way round the wrapped screen, and not
      at all when in the player's column at or above it. */
  function Chase(a: Arena, e: Rect): (r: Rect)
    requires ArenaOk(a) && OnEnemyColumn(e.x, a.cw)
    ensures r.w == e.w && r.h == e.h && OnEnemyColumn(r.x, a.cw)
    ensures r.y == e.y || (e.y < a.fish.y && r.y == e.y + a.ch)
    ensures e.y >= a.fish.y && e.x == a.fish.x ==> r == e
  {
    var half := a.width / 2;
    if e.y < a.fish.y then StepForward(a, e)
    else if (e.x > a.fish.x && e.x - a.fish.x <= half) || a.fish.x - e.x > half then StepLeft(a, e)
    else if (e.x < a.fish.x && a.fish.x - e.x <= half) || e.x - a.fish.x > half then StepRight(a, e)
    else e
  }

  /** `resetEnemy`: an enemy more than one cell below the screen goes back to its start
      column, one cell below the screen. The source places enemy 0 at x = `startX`
      (without the cell-width factor), which is the same place since its start column
      is 0. */
  function Settle(a: Arena, e: Rect, i: int, startX: int): (r: Rect)
    requires ArenaOk(a) && 0 <= i < EnemyCount && startX == 2 * i
    ensures r.y >= -a.ch && r.w == e.w && r.h == e.h
    ensures e.y < -a.ch ==> r.x == a.cw * startX && r.y == -a.ch
    ensures e.y >= -a.ch ==> r == e
    ensures OnEnemyColumn(e.x, a.cw) ==> OnEnemyColumn(r.x, a.cw)
  {
    if e.y < -a.ch then
      e.(x := if i == 0 then startX else a.cw * startX, y := -a.ch)
    else e
  }

  /** The enemies' start columns as the game keeps them: 0, 2, 4, 6. */
  predicate StartColumnsOk(sx: seq<int>) {
    |sx| == EnemyCount && forall k :: 0 <= k < |sx| ==> sx[k] == 2 * k
  }

  predicate EnemiesShaped(es: seq<Rect>, cw: int, ch: int) {
    |es| == EnemyCount && forall k :: 0 <= k < |es| ==> EnemyShape(es[k], cw, ch)
  }

  /** One pursuit pass over all enemies: each chases, then is reset if it fell behind.
      Enemies do not see each other, so each one's move depends only on itself. */
  function Pass(a: Arena, es: seq<Rect>, sx: seq<int>): (r: seq<Rect>)
    requires ArenaOk(a) && EnemiesShaped(es, a.cw, a.ch) && StartColumnsOk(sx)
    ensures EnemiesShaped(r, a.cw, a.ch)
    ensures forall k :: 0 <= k < |r| ==> r[k].y >= -a.ch
  {
    seq(EnemyCount, k requires 0 <= k < EnemyCount => Settle(a, Chase(a, es[k]), k, sx[k]))
  }

  /** A pass that has reached enemy `n`: the first `n` enemies have moved, the rest not
      yet. */
  function PassUpTo(a: Arena, es: seq<Rect>, sx: seq<int>, n: int): (r: seq<Rect>)
    requires ArenaOk(a) && EnemiesShaped(es, a.cw, a.ch) && StartColumnsOk(sx) && 0 <= n <= EnemyCount
    ensures EnemiesShaped(r, a.cw, a.ch)
  {
    seq(EnemyCount, k requires 0 <= k < EnemyCount => if k < n then Settle(a, Chase(a, es[k]), k, sx[k]) else es[k])
  }

  /** Moving enemy `n` extends a partial pass by one enemy; the whole of it is `Pass`. */
  lemma PassUpToStep(a: Arena, es: seq<Rect>, sx: seq<int>, n: int)
    requires ArenaOk(a) && EnemiesShaped(es, a.cw, a.ch) && StartColumnsOk(sx) && 0 <= n < EnemyCount
    ensures PassUpTo(a, es, sx, n)[n] == es[n]
    ensures PassUpTo(a, es, sx, n + 1) == PassUpTo(a, es, sx, n)[n := Settle(a, Chase(a, es[n]), n, sx[n])]
    ensures n + 1 == EnemyCount ==> PassUpTo(a, es, sx, n + 1) == Pass(a, es, sx)
    ensures CatchesUpTo(a, es, n + 1) == (CatchesUpTo(a, es, n) || Overlaps(Chase(a, es[n]), a.fish))
    ensures n + 1 == EnemyCount ==> CatchesUpTo(a, es, n + 1) == Catches(a, es)
  {
  }

  /** Some of the first `n` enemies overlaps the player right after its own move. */
  ghost predicate CatchesUpTo(a: Arena, es: seq<Rect>, n: int)
    requires ArenaOk(a) && EnemiesShaped(es, a.cw, a.ch) && 0 <= n <= EnemyCount
  {
    exists k :: 0 <= k < n && Overlaps(Chase(a, es[k]), a.fish)
  }

  /** Some enemy overlaps the player right after its own move in this pass (before any
      reset). */
  ghost predicate Catches(a: Arena, es: seq<Rect>)
    requires ArenaOk(a) && EnemiesShaped(es, a.cw, a.ch)
  {
    exists k :: 0 <= k < |es| && Overlaps(Chase(a, es[k]), a.fish)
  }

  /** The enemies after the pursuit of one forward step: one pass, or two when it is a
      jump step. */
  function Pursue(a: Arena, es: seq<Rect>, sx: seq<int>, jump: bool): (r: seq<Rect>)
    requires ArenaOk(a) && EnemiesShaped(es, a.cw, a.ch) && StartColumnsOk(sx)
    ensures EnemiesShaped(r, a.cw, a.ch)
    ensures forall k :: 0 <= k < |r| ==> r[k].y >= -a.ch
  {
    if jump then Pass(a, Pass(a, es, sx), sx) else Pass(a, es, sx)
  }

  /** The enemies moved down one cell with the scrolling world. */
  function ScrollDown(es: seq<Rect>, ch: int): (r: seq<Rect>)
    ensures |r| == |es|
    ensures forall k :: 0 <= k < |r| ==> r[k].x == es[k].x && r[k].y == es[k].y - ch
    ensures forall k :: 0 <= k < |r| ==> r[k].w == es[k].w && r[k].h == es[k].h
  {
    seq(|es|, k requires 0 <= k < |es| => es[k].(y := es[k].y - ch))
  }

  /** The player is caught during the pursuit of one forward step. */
  ghost predicate CaughtIn(a: Arena, es: seq<Rect>, sx: seq<int>, jump: bool)
    requires ArenaOk(a) && EnemiesShaped(es, a.cw, a.ch) && StartColumnsOk(sx)
  {
    Catches(a, es) || (jump && Catches(a, Pass(a, es, sx)))
  }

  /** In one pass an enemy rises by at most one cell above where it started (or above the
      reset line one cell below the screen, where a fallen enemy is put back), so within
      one forward step (at most two passes) by at most two cells. */
  lemma PursueRisesAtMostTwoCells(a: Arena, es: seq<Rect>, sx: seq<int>, jump: bool, k: int)
    requires ArenaOk(a) && EnemiesShaped(es, a.cw, a.ch) && StartColumnsOk(sx)
    requires 0 <= k < EnemyCount
    ensures var r := Pursue(a, es, sx, jump)[k];
      r.y <= (if es[k].y < -a.ch then -a.ch else es[k].y) + (if jump then 2 else 1) * a.ch
  {
    var once := Pass(a, es, sx);
    assert once[k] == Settle(a, Chase(a, es[k]), k, sx[k]);
    if jump {
      var twice := Pass(a, once, sx);
      assert twice[k] == Settle(a, Chase(a, once[k]), k, sx[k]);
    }
  }

  /** An enemy directly below the player with a free cell above it lands on the player's
      cell and so catches it. */
  lemma EnemyBelowCatches(a: Arena, es: seq<Rect>, k: int)
    requires ArenaOk(a) && EnemiesShaped(es, a.cw, a.ch)
    requires a.fish.w == a.cw && a.fish.h == a.ch
    requires 0 <= k < |es| && es[k].x == a.fish.x && es[k].y + a.ch == a.fish.y
    requires !Blocked(es[k].(y := a.fish.y), a.obstacles)
    ensures Catches(a, es)
  {
    assert Overlaps(Chase(a, es[k]), a.fish);
  }

  /** A blocked forward step closes in by the raw difference of x: whenever the enemy
      turns aside, it ends exactly one cell nearer the player's x without passing it, and
      otherwise it stays where it was. Near the edges this is the long way round. */
  lemma StepForwardTurnsToward(a: Arena, e: Rect)
    requires ArenaOk(a) && OnEnemyColumn(e.x, a.cw) && OnColumn(a.fish.x, a.cw)
    requires Blocked(e.(y := e.y + a.ch), a.obstacles)
    ensures var r := StepForward(a, e);
      r == e ||
      (r.y == e.y && (e.x > a.fish.x ==> a.fish.x <= r.x == e.x - a.cw) &&
       (e.x < a.fish.x ==> r.x == e.x + a.cw <= a.fish.x))
  {
  }

  /** The fallback of `enemyForward` does not wrap: an enemy in column 0 whose cell above
      is blocked turns right toward a player in column 7, away from it on the wrapped row. */
  lemma ForwardFallbackIgnoresWrap(a: Arena, e: Rect)
    requires ArenaOk(a) && e.x == 0 && a.fish.x == 7 * a.cw
    requires Blocked(e.(y := e.y + a.ch), a.obstacles) && !Blocked(e.(x := a.cw), a.obstacles)
    ensures StepForward(a, e).x == a.cw
    ensures WrapDistance(Col(StepForward(a, e).x, a.cw), 7) > WrapDistance(Col(e.x, a.cw), 7)
  {
  }

  /** `cw * p` and `cw * q` compare as `p` and `q` do. */
  lemma ScaleOrder(cw: int, p: int, q: int)
    requires cw > 0
    ensures cw * p < cw * q <==> p < q
    ensures cw * p == cw * q <==> p == q
  {
    if p < q {
      assert cw * q - cw * p == cw * (q - p);
    } else if q < p {
      assert cw * p - cw * q == cw * (p - q);
    }
  }

  /** `m % Columns` for the differences of two column indices. */
  lemma ColumnsMod(m: int)
    requires -Columns <= m <= Columns + 1
    ensures m % Columns == if m < 0 then m + Columns else if m >= Columns then m - Columns else m
  {
  }

  /** A left step from column `i`, taken when column `j` is to the left the shorter way
      round, brings the enemy one column nearer. */
  lemma LeftCloses(i: int, j: int)
    requires 0 <= i <= Columns && 0 <= j < Columns
    requires (i > j && i - j <= Columns / 2) || j - i > Columns / 2
    ensures WrapDistance(if i == 0 then Columns - 1 else i - 1, j) == WrapDistance(i, j) - 1
  {
    ColumnsMod(i - j);
    ColumnsMod((if i == 0 then Columns - 1 else i - 1) - j);
  }

  /** A right step from column `i`, taken when column `j` is to the right the shorter way
      round, brings the enemy one column nearer, except from one cell past the screen,
      which is column 0 already. */
  lemma RightCloses(i: int, j: int)
    requires 0 <= i <= Columns && 0 <= j < Columns
    requires (i < j && j - i <= Columns / 2) || i - j > Columns / 2
    ensures i < Columns ==> WrapDistance(i + 1, j) == WrapDistance(i, j) - 1
    ensures i == Columns ==> WrapDistance(0, j) == WrapDistance(i, j)
  {
    ColumnsMod(i - j);
    ColumnsMod(0 - j);
    ColumnsMod(i + 1 - j);
  }

  /** The column index a left step reaches. */
  lemma LeftStepCol(x: int, cw: int)
    requires cw > 0 && OnEnemyColumn(x, cw)
    ensures Col(EnemyLeftX(x, cw), cw) == if Col(x, cw) == 0 then Columns - 1 else Col(x, cw) - 1
  {
    var i, k := Col(x, cw), Col(EnemyLeftX(x, cw), cw);
    if i == 0 {
      ScaleOrder(cw, k, Columns - 1);
    } else {
      assert cw * i - cw == cw * (i - 1);
      ScaleOrder(cw, k, i - 1);
    }
  }

  /** The column index a right step reaches; index 8 steps to 0. */
  lemma RightStepCol(x: int, cw: int, width: int)
    requires cw > 0 && width == Columns * cw && OnEnemyColumn(x, cw)
    ensures Col(EnemyRightX(x, cw, width), cw) == if Col(x, cw) == Columns then 0 else Col(x, cw) + 1
  {
    var i, k := Col(x, cw), Col(EnemyRightX(x, cw, width), cw);
    if i == Columns {
      ScaleOrder(cw, k, 0);
    } else {
      ScaleOrder(cw, i, Columns);
      assert cw * i + cw == cw * (i + 1);
      ScaleOrder(cw, k, i + 1);
    }
  }

  /** Comparisons of scaled differences, read on the unscaled ones. */
  lemma ScaledTests(cw: int, i: int, j: int, h: int)
    requires cw > 0
    ensures cw * i > cw * j <==> i > j
    ensures cw * i < cw * j <==> i < j
    ensures cw * i - cw * j <= cw * h <==> i - j <= h
    ensures cw * j - cw * i <= cw * h <==> j - i <= h
  {
    ScaleOrder(cw, j, i);
    assert cw * i - cw * j == cw * (i - j);
    ScaleOrder(cw, i - j, h + 1);
    ScaleOrder(cw, j - i, h + 1);
  }

  /** The pixel tests `Chase` makes, read as tests on column indices. */
  lemma ChaseTestsOnCols(a: Arena, ex: int)
    requires ArenaOk(a) && OnEnemyColumn(ex, a.cw) && OnColumn(a.fish.x, a.cw)
    ensures var i, j, half := Col(ex, a.cw), Col(a.fish.x, a.cw), a.width / 2;
      && (ex > a.fish.x <==> i > j) && (ex < a.fish.x <==> i < j)
      && (ex - a.fish.x <= half <==> i - j <= Columns / 2)
      && (a.fish.x - ex <= half <==> j - i <= Columns / 2)
  {
    var cw := a.cw;
    var i, j := Col(ex, cw), Col(a.fish.x, cw);
    assert a.width / 2 == cw * (Columns / 2);
    ScaledTests(cw, i, j, Columns / 2);
  }

  /** At or above the player an enemy whose side cells are free moves along the shorter
      way round the wrapped row: its wrapped column distance to the player never grows,
      and shrinks by one while the enemy is on the screen and not in the player's column. */
  lemma ChaseClosesIn(a: Arena, e: Rect)
    requires ArenaOk(a) && OnEnemyColumn(e.x, a.cw) && OnColumn(a.fish.x, a.cw) && e.y >= a.fish.y
    requires !Blocked(e.(x := EnemyLeftX(e.x, a.cw)), a.obstacles)
    requires !Blocked(e.(x := EnemyRightX(e.x, a.cw, a.width)), a.obstacles)
    ensures Chase(a, e).y == e.y
    ensures WrapDistance(Col(Chase(a, e).x, a.cw), Col(a.fish.x, a.cw))
      <= WrapDistance(Col(e.x, a.cw), Col(a.fish.x, a.cw))
    ensures e.x < a.width && e.x != a.fish.x ==>
      WrapDistance(Col(Chase(a, e).x, a.cw), Col(a.fish.x, a.cw))
      == WrapDistance(Col(e.x, a.cw), Col(a.fish.x, a.cw)) - 1
  {
    var i, j := Col(e.x, a.cw), Col(a.fish.x, a.cw);
    ChaseTestsOnCols(a, e.x);
    if (e.x > a.fish.x && e.x - a.fish.x <= a.width / 2) || a.fish.x - e.x > a.width / 2 {
      assert Chase(a, e) == e.(x := EnemyLeftX(e.x, a.cw));
      LeftStepCol(e.x, a.cw);
      LeftCloses(i, j);
    } else if (e.x < a.fish.x && a.fish.x - e.x <= a.width / 2) || e.x - a.fish.x > a.width / 2 {
      assert Chase(a, e) == e.(x := EnemyRightX(e.x, a.cw, a.width));
      RightStepCol(e.x, a.cw, a.width);
      RightCloses(i, j);
    } else {
      assert i == j;
    }
  }
}
