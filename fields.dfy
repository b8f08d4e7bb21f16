/**
 * The obstacle and cracker fields, taken as rows of entries laid out by index: obstacle
 * `i` belongs to row `i / 4`, cracker `i` to row `i / 3`. This module holds the random
 * draws the fields are built from and the facts about the rows that the game keeps:
 * every entry of a row shares one y, rows are at least three cells apart, entries of a
 * row run left to right without overlapping, and recycling the bottom row keeps all of
 * this true.
 */
module Fields {
  import opened Geometry

  const ObstacleCount := 24
  const ObstaclesPerRow := 4
  /** Rows of obstacles are created this many cells apart. */
  const ObstacleYGap := 3
  const CrackerCount := 18
  const CrackersPerRow := 3
  /** Rows of crackers are created this many cells apart. */
  const CrackerYGap := 3

  /** The three `nextInt` results drawn for one obstacle, as the generator returns them:
      the gap in cells (`nextInt(4)`), then `nextInt(2)` for the width and for the height,
      to which the game adds one. */
  datatype ObstacleDraw = ObstacleDraw(gap: int, width: int, height: int)

  predicate ObstacleDrawOk(d: ObstacleDraw) {
    0 <= d.gap < 4 && 0 <= d.width < 2 && 0 <= d.height < 2
  }

  /** What one draw makes of an obstacle: a gap of whole cells, and one- or two-cell
      sizes. */
  lemma DrawSizes(d: ObstacleDraw, cw: int, ch: int)
    requires ObstacleDrawOk(d) && cw > 0 && ch > 0
    ensures cw * d.gap >= 0
    ensures cw * (d.width + 1) == cw || cw * (d.width + 1) == 2 * cw
    ensures ch * (d.height + 1) == ch || ch * (d.height + 1) == 2 * ch
  {
    if d.width == 0 { } else { }
    if d.height == 0 { } else { }
    if d.gap == 0 { } else if d.gap == 1 { } else if d.gap == 2 { } else { }
  }

  /** The sizes a draw gives an obstacle, and a left edge on or right of the screen's. */
  predicate ObstacleSized(x: int, w: int, h: int, cw: int, ch: int) {
    x >= 0 && (w == cw || w == 2 * cw) && (h == ch || h == 2 * ch)
  }

  /** An obstacle laid out from draw `d`: `d.gap` cells after `rowEnd`, the right edge of
      its predecessor in the row (0, the screen's left edge, for the first of a row), and
      `d.width + 1` cells wide and `d.height + 1` cells high. */
  predicate ObstacleLaid(x: int, w: int, h: int, rowEnd: int, cw: int, ch: int, d: ObstacleDraw) {
    x == rowEnd + cw * d.gap && w == cw * (d.width + 1) && h == ch * (d.height + 1)
  }

  lemma LaidIsSized(x: int, w: int, h: int, rowEnd: int, cw: int, ch: int, d: ObstacleDraw)
    requires cw > 0 && ch > 0 && rowEnd >= 0 && ObstacleDrawOk(d)
    requires ObstacleLaid(x, w, h, rowEnd, cw, ch, d)
    ensures ObstacleSized(x, w, h, cw, ch) && x >= rowEnd
  {
    DrawSizes(d, cw, ch);
  }


  /** The obstacle field as the game's five parallel arrays hold it: the rectangles used
      in the overlap tests and the x, y, width and height of every obstacle. */
  datatype Obstacles = Obstacles(rects: seq<Rect>, xs: seq<int>, ys: seq<int>, widths: seq<int>, heights: seq<int>)

  predicate ObstaclesWellSized(o: Obstacles) {
    |o.rects| == ObstacleCount && |o.xs| == ObstacleCount && |o.ys| == ObstacleCount &&
    |o.widths| == ObstacleCount && |o.heights| == ObstacleCount
  }

  /** `o` and `p` hold the same obstacle at index `k`. */
  ghost predicate AgreeAt(o: Obstacles, p: Obstacles, k: int)
    requires ObstaclesWellSized(o) && ObstaclesWellSized(p) && 0 <= k < ObstacleCount
  {
    o.rects[k] == p.rects[k] && o.xs[k] == p.xs[k] && o.ys[k] == p.ys[k] &&
    o.widths[k] == p.widths[k] && o.heights[k] == p.heights[k]
  }

  /** The right edge of obstacle `i`'s predecessor in its row, or 0 (the screen's left
      edge) when `i` is first in its row. */
  function RowEnd(o: Obstacles, i: int): int
    requires ObstaclesWellSized(o) && 0 <= i < ObstacleCount
  {
    if i % ObstaclesPerRow > 0 then o.xs[i - 1] + o.widths[i - 1] else 0
  }

  /** Obstacle `i` of `o` is laid out from draw `d` after its row predecessor. */
  predicate LaidFrom(o: Obstacles, i: int, d: ObstacleDraw, cw: int, ch: int)
    requires ObstaclesWellSized(o) && 0 <= i < ObstacleCount
  {
    ObstacleLaid(o.xs[i], o.widths[i], o.heights[i], RowEnd(o, i), cw, ch, d)
  }

  /** Every obstacle has a draw's sizes and starts on or right of the screen's left edge. */
  ghost predicate ObstaclesSized(o: Obstacles, cw: int, ch: int)
    requires ObstaclesWellSized(o)
  {
    forall i :: 0 <= i < ObstacleCount ==> ObstacleSized(o.xs[i], o.widths[i], o.heights[i], cw, ch)
  }

  /** Each obstacle that is not first in its row starts at or after the right edge of
      its predecessor. */
  ghost predicate ObstaclesLeftToRight(xs: seq<int>, ws: seq<int>)
  {
    |xs| == |ws| &&
    forall i, j :: 0 <= j < |xs| && i == j + 1 < |xs| && i % ObstaclesPerRow > 0 ==> xs[i] >= xs[j] + ws[j]
  }

  /** The rectangles carry the x, width and height of the parallel arrays; the y is
      shared by the whole row and is the obstacle's y, or, right after a recycle, still
      the y below the recycling line at which the obstacle sank. */
  ghost predicate RectsTrack(o: Obstacles, cw: int)
    requires ObstaclesWellSized(o)
  {
    (forall i :: 0 <= i < ObstacleCount ==>
      o.rects[i].x == o.xs[i] && o.rects[i].w == o.widths[i] && o.rects[i].h == o.heights[i] &&
      (o.rects[i].y == o.ys[i] || o.rects[i].y < 0 - cw * ObstacleYGap)) &&
    (forall i, j :: 0 <= i < ObstacleCount && 0 <= j < ObstacleCount && i / ObstaclesPerRow == j / ObstaclesPerRow ==>
      o.rects[i].y == o.rects[j].y)
  }

  /** Everything the game keeps true of the obstacles apart from the rows' y. */
  ghost predicate ObstacleShapes(o: Obstacles, cw: int, ch: int)
  {
    ObstaclesWellSized(o) && ObstaclesSized(o, cw, ch) && ObstaclesLeftToRight(o.xs, o.widths) &&
    RectsTrack(o, cw)
  }

  /** An obstacle laid out from its draw after predecessors that were laid out the same
      way has a draw's sizes and starts at or after its predecessor's right edge. */
  lemma {:induction false} LaidRowSized(o: Obstacles, ds: seq<ObstacleDraw>, i: int, cw: int, ch: int)
    requires cw > 0 && ch > 0 && ObstaclesWellSized(o) && ObstacleDrawsOk(ds) && 0 <= i < ObstacleCount
    requires forall k :: i - i % ObstaclesPerRow <= k <= i ==> LaidFrom(o, k, ds[k], cw, ch)
    ensures ObstacleSized(o.xs[i], o.widths[i], o.heights[i], cw, ch) && o.xs[i] >= RowEnd(o, i)
    decreases i % ObstaclesPerRow
  {
    if i % ObstaclesPerRow > 0 {
      assert (i - 1) - (i - 1) % ObstaclesPerRow == i - i % ObstaclesPerRow;
      LaidRowSized(o, ds, i - 1, cw, ch);
    }
    assert LaidFrom(o, i, ds[i], cw, ch);
    LaidIsSized(o.xs[i], o.widths[i], o.heights[i], RowEnd(o, i), cw, ch, ds[i]);
  }

  /** Obstacle `i` as `createObstacles` makes it: laid out from its draw, on its row's
      `RowY`, with a rectangle at its own place and size. */
  ghost predicate CreatedEntry(o: Obstacles, ds: seq<ObstacleDraw>, i: int, cw: int, ch: int)
    requires ObstaclesWellSized(o) && |ds| == ObstacleCount && 0 <= i < ObstacleCount
  {
    LaidFrom(o, i, ds[i], cw, ch) && o.ys[i] == RowY(i / ObstaclesPerRow, ch) &&
    o.rects[i] == Rect(o.xs[i], o.ys[i], o.widths[i], o.heights[i])
  }

  /** The first `n` obstacles are as `createObstacles` makes them. */
  ghost predicate CreatedUpTo(o: Obstacles, ds: seq<ObstacleDraw>, n: int, cw: int, ch: int)
  {
    ObstaclesWellSized(o) && |ds| == ObstacleCount && 0 <= n <= ObstacleCount &&
    forall i :: 0 <= i < n ==> CreatedEntry(o, ds, i, cw, ch)
  }

  /** The field `o` with obstacle `n` replaced by rectangle `r`, x, y, width and height. */
  function SetObstacle(o: Obstacles, n: int, r: Rect, x: int, y: int, w: int, h: int): (o': Obstacles)
    requires ObstaclesWellSized(o) && 0 <= n < ObstacleCount
    ensures ObstaclesWellSized(o')
    ensures forall k :: 0 <= k < ObstacleCount && k != n ==> AgreeAt(o', o, k)
    ensures o'.rects[n] == r && o'.xs[n] == x && o'.ys[n] == y && o'.widths[n] == w && o'.heights[n] == h
  {
    Obstacles(o.rects[n := r], o.xs[n := x], o.ys[n := y], o.widths[n := w], o.heights[n := h])
  }

  /** Where obstacle `n` is laid out from does not depend on obstacle `n` itself. */
  lemma RowEndIgnoresEntry(o: Obstacles, n: int, r: Rect, x: int, y: int, w: int, h: int)
    requires ObstaclesWellSized(o) && 0 <= n < ObstacleCount
    ensures RowEnd(SetObstacle(o, n, r, x, y, w, h), n) == RowEnd(o, n)
  {
  }

  /** Replacing obstacle `n` twice leaves only the second replacement. */
  lemma SetObstacleTwice(o: Obstacles, n: int, r1: Rect, x1: int, y1: int, w1: int, h1: int,
                         r: Rect, x: int, y: int, w: int, h: int)
    requires ObstaclesWellSized(o) && 0 <= n < ObstacleCount
    ensures SetObstacle(SetObstacle(o, n, r1, x1, y1, w1, h1), n, r, x, y, w, h) == SetObstacle(o, n, r, x, y, w, h)
  {
    var p := SetObstacle(SetObstacle(o, n, r1, x1, y1, w1, h1), n, r, x, y, w, h);
    var q := SetObstacle(o, n, r, x, y, w, h);
    assert p.rects == q.rects && p.xs == q.xs && p.ys == q.ys && p.widths == q.widths && p.heights == q.heights;
  }

  /** Creating obstacle `n` from its draw after its row predecessor, on its row's `RowY`,
      extends the created prefix. */
  lemma CreatedStep(o: Obstacles, ds: seq<ObstacleDraw>, n: int, x: int, y: int, w: int, h: int, cw: int, ch: int)
    requires CreatedUpTo(o, ds, n, cw, ch) && n < ObstacleCount
    requires ObstacleLaid(x, w, h, RowEnd(o, n), cw, ch, ds[n]) && y == RowY(n / ObstaclesPerRow, ch)
    ensures CreatedUpTo(SetObstacle(o, n, Rect(x, y, w, h), x, y, w, h), ds, n + 1, cw, ch)
  {
    var o' := SetObstacle(o, n, Rect(x, y, w, h), x, y, w, h);
    forall i | 0 <= i < n + 1 ensures CreatedEntry(o', ds, i, cw, ch) {
      if i < n {
        assert CreatedEntry(o, ds, i, cw, ch);
      }
    }
  }

  /** A freshly created field is in the state the game keeps between moves, with the
      last obstacle on the top-most row. */
  lemma CreatedField(o: Obstacles, ds: seq<ObstacleDraw>, cw: int, ch: int)
    requires cw > 0 && ch > 0 && ObstacleDrawsOk(ds)
    requires CreatedUpTo(o, ds, ObstacleCount, cw, ch)
    ensures ObstacleRowsOk(o.ys, ObstacleCount - 1, cw, ch) && ObstacleShapes(o, cw, ch)
  {
    forall j | 0 <= j < ObstacleCount ensures o.ys[j] == RowY(j / ObstaclesPerRow, ch) {
      assert CreatedEntry(o, ds, j, cw, ch);
    }
    CreatedRowsOk(o.ys, cw, ch);
    forall i | 0 <= i < ObstacleCount
      ensures ObstacleSized(o.xs[i], o.widths[i], o.heights[i], cw, ch) && o.xs[i] >= RowEnd(o, i)
    {
      forall k | i - i % ObstaclesPerRow <= k <= i ensures LaidFrom(o, k, ds[k], cw, ch) {
        assert CreatedEntry(o, ds, k, cw, ch);
      }
      LaidRowSized(o, ds, i, cw, ch);
    }
    forall i | 0 <= i < ObstacleCount
      ensures o.rects[i] == Rect(o.xs[i], o.ys[i], o.widths[i], o.heights[i])
      ensures o.rects[i].y == o.rects[i - i % ObstaclesPerRow].y
    {
      assert CreatedEntry(o, ds, i, cw, ch) && CreatedEntry(o, ds, i - i % ObstaclesPerRow, cw, ch);
      assert o.ys[i] == o.ys[i - i % ObstaclesPerRow];
    }
  }

  /** Obstacle `j` once a scroll pass over `o0` (furthest row ending at `f0`) has gone
      past it: moved one cell down, or, when it sinks, three cells above the furthest row
      and laid out again from its draw; the rectangle is moved down one cell and, for a
      sinking obstacle, given the new x and size but not yet the new y. */
  ghost predicate ScrolledEntry(o0: Obstacles, f0: int, o: Obstacles, ds: seq<ObstacleDraw>, j: int, cw: int, ch: int)
    requires ObstaclesWellSized(o0) && ObstaclesWellSized(o) && |ds| == ObstacleCount
    requires 0 <= f0 < ObstacleCount && 0 <= j < ObstacleCount
  {
    o.ys[j] == ScrolledY(o0.ys, f0, cw, ch, j) &&
    o.rects[j] == Rect(o.xs[j], o0.ys[j] - ch, o.widths[j], o.heights[j]) &&
    if ObstacleSinks(o0.ys[j], cw, ch) then LaidFrom(o, j, ds[j], cw, ch)
    else o.xs[j] == o0.xs[j] && o.widths[j] == o0.widths[j] && o.heights[j] == o0.heights[j]
  }

  /** The state of `moveObstacles` after its first `n` iterations, starting from `o0`
      and `f0`: the first `n` obstacles are scrolled, the others untouched, and the
      furthest-row index is the last index of the sinking row once that row is through. */
  ghost predicate ScrolledUpTo(o0: Obstacles, f0: int, o: Obstacles, f: int, ds: seq<ObstacleDraw>,
                               n: int, cw: int, ch: int)
  {
    ObstaclesWellSized(o0) && ObstaclesWellSized(o) && |ds| == ObstacleCount &&
    0 <= f0 < ObstacleCount && 0 <= n <= ObstacleCount &&
    (forall j :: 0 <= j < n ==> ScrolledEntry(o0, f0, o, ds, j, cw, ch)) &&
    (forall j :: n <= j < ObstacleCount ==> AgreeAt(o, o0, j)) &&
    (f == f0 || (0 <= f < n && f % ObstaclesPerRow == ObstaclesPerRow - 1 && ObstacleSinks(o0.ys[f], cw, ch))) &&
    (forall j :: 0 <= j < n && j % ObstaclesPerRow == ObstaclesPerRow - 1 && ObstacleSinks(o0.ys[j], cw, ch) ==> f == j)
  }

  /** `o` and `f` are what one whole pass of the obstacle scroll makes of `o0` and `f0`
      with draws `ds`. */
  ghost predicate ObstaclesScrolled(o0: Obstacles, f0: int, o: Obstacles, f: int, ds: seq<ObstacleDraw>, cw: int, ch: int)
  {
    ScrolledUpTo(o0, f0, o, f, ds, ObstacleCount, cw, ch)
  }

  /** One iteration of `moveObstacles`, stated in terms of the state `o`, `f` it starts
      from: obstacle `n` moves down one cell; when it is then more than three cell widths
      below the screen it is put three cells above the furthest row's entry (read as
      `top`) and laid out again, and the last of its row becomes the furthest. */
  lemma ScrollStep(o0: Obstacles, f0: int, o: Obstacles, f: int, f': int, ds: seq<ObstacleDraw>, n: int,
                   top: int, r: Rect, x: int, y: int, w: int, h: int, cw: int, ch: int)
    requires cw > 0 && ch > 0 && ObstacleRowsOk(o0.ys, f0, cw, ch) && ObstacleShapes(o0, cw, ch)
    requires ScrolledUpTo(o0, f0, o, f, ds, n, cw, ch) && n < ObstacleCount
    requires 0 <= f < ObstacleCount && top == (if f == n then o.ys[n] - ch else o.ys[f])
    requires ObstacleSinks(o.ys[n], cw, ch) ==> y == top + ch * ObstacleYGap
    requires ObstacleSinks(o.ys[n], cw, ch) ==> f' == (if n % ObstaclesPerRow == ObstaclesPerRow - 1 then n else f)
    requires ObstacleSinks(o.ys[n], cw, ch) ==> ObstacleLaid(x, w, h, RowEnd(o, n), cw, ch, ds[n])
    requires ObstacleSinks(o.ys[n], cw, ch) ==> r == Rect(x, o.ys[n] - ch, w, h)
    requires !ObstacleSinks(o.ys[n], cw, ch) ==> y == o.ys[n] - ch && f' == f
    requires !ObstacleSinks(o.ys[n], cw, ch) ==> x == o.xs[n] && w == o.widths[n] && h == o.heights[n]
    requires !ObstacleSinks(o.ys[n], cw, ch) ==> r == o.rects[n].(x := o.xs[n], y := o.ys[n] - ch)
    ensures ScrolledUpTo(o0, f0, SetObstacle(o, n, r, x, y, w, h), f', ds, n + 1, cw, ch)
  {
    var o' := SetObstacle(o, n, r, x, y, w, h);
    assert AgreeAt(o, o0, n);
    var sinks := ObstacleSinks(o0.ys[n], cw, ch);
    if sinks {
      OthersStay(o0.ys, f0, cw, ch, n);
      TopRowStays(o0.ys, f0, cw, ch);
      assert f == f0;
      if f0 > n {
        assert AgreeAt(o, o0, f0);
      } else {
        assert ScrolledEntry(o0, f0, o, ds, f0, cw, ch);
      }
      if n % ObstaclesPerRow > 0 {
        assert AgreeAt(o', o, n - 1);
      }
    } else {
      assert o0.rects[n].w == o0.widths[n] && o0.rects[n].h == o0.heights[n];
    }
    assert ScrolledEntry(o0, f0, o', ds, n, cw, ch);
    ScrollStepKeepsOthers(o0, f0, o, f, ds, n, r, x, y, w, h, cw, ch);
  }

  /** Setting obstacle `n` leaves the entries already scrolled, and those still to come,
      as they were. */
  lemma ScrollStepKeepsOthers(o0: Obstacles, f0: int, o: Obstacles, f: int, ds: seq<ObstacleDraw>, n: int,
                              r: Rect, x: int, y: int, w: int, h: int, cw: int, ch: int)
    requires ScrolledUpTo(o0, f0, o, f, ds, n, cw, ch) && n < ObstacleCount
    ensures forall j :: 0 <= j < n ==> ScrolledEntry(o0, f0, SetObstacle(o, n, r, x, y, w, h), ds, j, cw, ch)
    ensures forall j :: n + 1 <= j < ObstacleCount ==> AgreeAt(SetObstacle(o, n, r, x, y, w, h), o0, j)
  {
    var o' := SetObstacle(o, n, r, x, y, w, h);
    forall j | 0 <= j < n ensures ScrolledEntry(o0, f0, o', ds, j, cw, ch) {
      assert ScrolledEntry(o0, f0, o, ds, j, cw, ch) && AgreeAt(o', o, j);
      if j % ObstaclesPerRow > 0 {
        assert AgreeAt(o', o, j - 1);
      }
    }
    forall j | n + 1 <= j < ObstacleCount ensures AgreeAt(o', o0, j) {
      assert AgreeAt(o', o, j) && AgreeAt(o, o0, j);
    }
  }

  /** `recreateObstacle`: obstacle `n` is laid out again from draw `d` after its row
      predecessor (or the screen's left edge); its rectangle keeps its y. */
  function Relaid(o: Obstacles, n: int, d: ObstacleDraw, cw: int, ch: int): (o': Obstacles)
    requires ObstaclesWellSized(o) && 0 <= n < ObstacleCount
    ensures ObstaclesWellSized(o') && LaidFrom(o', n, d, cw, ch) && o'.ys == o.ys
    ensures o'.rects[n] == Rect(o'.xs[n], o.rects[n].y, o'.widths[n], o'.heights[n])
    ensures forall k :: 0 <= k < ObstacleCount && k != n ==> AgreeAt(o', o, k)
  {
    var x := RowEnd(o, n) + cw * d.gap;
    var w, h := cw * (d.width + 1), ch * (d.height + 1);
    o.(rects := o.rects[n := Rect(x, o.rects[n].y, w, h)], xs := o.xs[n := x],
       widths := o.widths[n := w], heights := o.heights[n := h])
  }

  /** One iteration of `moveObstacles` on obstacle `n`, from obstacles `o` and furthest
      index `f`: the obstacle moves down one cell; once more than three cell widths below
      the screen it is put three cells above the furthest row's entry (read after the
      move, so from itself when it is the furthest) and laid out again from draw `d`, and
      the last of its row becomes the furthest. */
  function ScrollAt(o: Obstacles, f: int, n: int, d: ObstacleDraw, cw: int, ch: int): (r: (Obstacles, int))
    requires ObstaclesWellSized(o) && 0 <= n < ObstacleCount && 0 <= f < ObstacleCount
    ensures ObstaclesWellSized(r.0) && 0 <= r.1 < ObstacleCount
    ensures r.1 == f || r.1 == n
  {
    var y := o.ys[n] - ch;
    var moved := o.(ys := o.ys[n := y], rects := o.rects[n := o.rects[n].(x := o.xs[n], y := y)]);
    if y < 0 - cw * ObstacleYGap then
      var behind := moved.(ys := moved.ys[n := moved.ys[f] + ch * ObstacleYGap]);
      (Relaid(behind, n, d, cw, ch), if n % ObstaclesPerRow == ObstaclesPerRow - 1 then n else f)
    else (moved, f)
  }

  /** An iteration on obstacle `n` changes no other obstacle. */
  lemma ScrollAtKeepsOthers(o: Obstacles, f: int, n: int, d: ObstacleDraw, cw: int, ch: int, k: int)
    requires ObstaclesWellSized(o) && 0 <= n < ObstacleCount && 0 <= f < ObstacleCount
    requires 0 <= k < ObstacleCount && k != n
    ensures AgreeAt(ScrollAt(o, f, n, d, cw, ch).0, o, k)
  {
  }

  /** The first `n` iterations of `moveObstacles` from obstacles `o0` and furthest index
      `f0`, with draws `ds`. */
  function ScrollPrefix(o0: Obstacles, f0: int, ds: seq<ObstacleDraw>, n: int, cw: int, ch: int): (r: (Obstacles, int))
    requires ObstaclesWellSized(o0) && 0 <= f0 < ObstacleCount && |ds| == ObstacleCount && 0 <= n <= ObstacleCount
    ensures ObstaclesWellSized(r.0) && 0 <= r.1 < ObstacleCount
    decreases n
  {
    if n == 0 then (o0, f0)
    else
      var p := ScrollPrefix(o0, f0, ds, n - 1, cw, ch);
      ScrollAt(p.0, p.1, n - 1, ds[n - 1], cw, ch)
  }

  /** One iteration keeps the loop's invariant `ScrolledUpTo`. */
  lemma ScrollAtStep(o0: Obstacles, f0: int, o: Obstacles, f: int, ds: seq<ObstacleDraw>, n: int, cw: int, ch: int)
    requires cw > 0 && ch > 0 && ObstacleRowsOk(o0.ys, f0, cw, ch) && ObstacleShapes(o0, cw, ch)
    requires ScrolledUpTo(o0, f0, o, f, ds, n, cw, ch) && n < ObstacleCount && 0 <= f < ObstacleCount
    ensures ScrolledUpTo(o0, f0, ScrollAt(o, f, n, ds[n], cw, ch).0, ScrollAt(o, f, n, ds[n], cw, ch).1, ds, n + 1, cw, ch)
  {
    if ObstacleSinks(o.ys[n], cw, ch) {
      SinkingScrollAtStep(o0, f0, o, f, ds, n, cw, ch);
    } else {
      StayingScrollAtStep(o0, f0, o, f, ds, n, cw, ch);
    }
  }

  /** `ScrollAtStep` for an obstacle that sinks. */
  lemma SinkingScrollAtStep(o0: Obstacles, f0: int, o: Obstacles, f: int, ds: seq<ObstacleDraw>, n: int, cw: int, ch: int)
    requires cw > 0 && ch > 0 && ObstacleRowsOk(o0.ys, f0, cw, ch) && ObstacleShapes(o0, cw, ch)
    requires ScrolledUpTo(o0, f0, o, f, ds, n, cw, ch) && n < ObstacleCount && 0 <= f < ObstacleCount
    requires ObstacleSinks(o.ys[n], cw, ch)
    ensures ScrolledUpTo(o0, f0, ScrollAt(o, f, n, ds[n], cw, ch).0, ScrollAt(o, f, n, ds[n], cw, ch).1, ds, n + 1, cw, ch)
  {
    var d := ds[n];
    var x, y := RowEnd(o, n) + cw * d.gap, o.ys[n] - ch;
    var w, h := cw * (d.width + 1), ch * (d.height + 1);
    var top := if f == n then y else o.ys[f];
    var f' := if n % ObstaclesPerRow == ObstaclesPerRow - 1 then n else f;
    SinkingScrollAt(o, f, n, d, cw, ch);
    ScrollStep(o0, f0, o, f, f', ds, n, top, Rect(x, y, w, h), x, top + ch * ObstacleYGap, w, h, cw, ch);
    ScrolledUpToSame(o0, f0, SetObstacle(o, n, Rect(x, y, w, h), x, top + ch * ObstacleYGap, w, h), f',
      ScrollAt(o, f, n, ds[n], cw, ch), ds, n + 1, cw, ch);
  }

  /** `ScrollAtStep` for an obstacle that moves one cell down. */
  lemma StayingScrollAtStep(o0: Obstacles, f0: int, o: Obstacles, f: int, ds: seq<ObstacleDraw>, n: int, cw: int, ch: int)
    requires cw > 0 && ch > 0 && ObstacleRowsOk(o0.ys, f0, cw, ch) && ObstacleShapes(o0, cw, ch)
    requires ScrolledUpTo(o0, f0, o, f, ds, n, cw, ch) && n < ObstacleCount && 0 <= f < ObstacleCount
    requires !ObstacleSinks(o.ys[n], cw, ch)
    ensures ScrolledUpTo(o0, f0, ScrollAt(o, f, n, ds[n], cw, ch).0, ScrollAt(o, f, n, ds[n], cw, ch).1, ds, n + 1, cw, ch)
  {
    var y := o.ys[n] - ch;
    var top := if f == n then y else o.ys[f];
    StayingScrollAt(o, f, n, ds[n], cw, ch);
    ScrollStep(o0, f0, o, f, f, ds, n, top, o.rects[n].(x := o.xs[n], y := y), o.xs[n], y, o.widths[n], o.heights[n], cw, ch);
    ScrolledUpToSame(o0, f0, SetObstacle(o, n, o.rects[n].(x := o.xs[n], y := y), o.xs[n], y, o.widths[n], o.heights[n]), f,
      ScrollAt(o, f, n, ds[n], cw, ch), ds, n + 1, cw, ch);
  }

  /** `ScrolledUpTo` of a state carries over to the same state written as a pair. */
  lemma ScrolledUpToSame(o0: Obstacles, f0: int, o: Obstacles, f: int, s: (Obstacles, int), ds: seq<ObstacleDraw>,
                         n: int, cw: int, ch: int)
    requires ScrolledUpTo(o0, f0, o, f, ds, n, cw, ch) && s == (o, f)
    ensures ScrolledUpTo(o0, f0, s.0, s.1, ds, n, cw, ch)
  {
  }

  /** The iteration on an obstacle `n` that does not sink moves it, and its rectangle,
      one cell down. */
  lemma StayingScrollAt(o: Obstacles, f: int, n: int, d: ObstacleDraw, cw: int, ch: int)
    requires ObstaclesWellSized(o) && 0 <= n < ObstacleCount && 0 <= f < ObstacleCount
    requires !ObstacleSinks(o.ys[n], cw, ch)
    ensures var y := o.ys[n] - ch;
      ScrollAt(o, f, n, d, cw, ch) ==
        (SetObstacle(o, n, o.rects[n].(x := o.xs[n], y := y), o.xs[n], y, o.widths[n], o.heights[n]), f)
  {
    var y := o.ys[n] - ch;
    var moved := o.(ys := o.ys[n := y], rects := o.rects[n := o.rects[n].(x := o.xs[n], y := y)]);
    assert moved == SetObstacle(o, n, o.rects[n].(x := o.xs[n], y := y), o.xs[n], y, o.widths[n], o.heights[n]);
  }

  /** The iteration on an obstacle `n` that sinks replaces it by the obstacle laid out
      again from `d` after its row predecessor, three cells above the furthest row's entry
      (read after the move), with its rectangle one cell below where it was. */
  lemma SinkingScrollAt(o: Obstacles, f: int, n: int, d: ObstacleDraw, cw: int, ch: int)
    requires ObstaclesWellSized(o) && 0 <= n < ObstacleCount && 0 <= f < ObstacleCount
    requires ObstacleSinks(o.ys[n], cw, ch)
    ensures var x, y := RowEnd(o, n) + cw * d.gap, o.ys[n] - ch;
      var w, h := cw * (d.width + 1), ch * (d.height + 1);
      var top := if f == n then y else o.ys[f];
      ScrollAt(o, f, n, d, cw, ch) ==
        (SetObstacle(o, n, Rect(x, y, w, h), x, top + ch * ObstacleYGap, w, h),
         if n % ObstaclesPerRow == ObstaclesPerRow - 1 then n else f)
  {
    var y := o.ys[n] - ch;
    var top := if f == n then y else o.ys[f];
    var moved := o.(ys := o.ys[n := y], rects := o.rects[n := o.rects[n].(x := o.xs[n], y := y)]);
    var behind := moved.(ys := moved.ys[n := moved.ys[f] + ch * ObstacleYGap]);
    assert behind == SetObstacle(o, n, o.rects[n].(x := o.xs[n], y := y), o.xs[n], top + ch * ObstacleYGap,
      o.widths[n], o.heights[n]);
    var x, w, h := RowEnd(o, n) + cw * d.gap, cw * (d.width + 1), ch * (d.height + 1);
    RowEndIgnoresEntry(o, n, o.rects[n].(x := o.xs[n], y := y), o.xs[n], top + ch * ObstacleYGap, o.widths[n], o.heights[n]);
    SetObstacleTwice(o, n, o.rects[n].(x := o.xs[n], y := y), o.xs[n], top + ch * ObstacleYGap, o.widths[n], o.heights[n],
      Rect(x, y, w, h), x, top + ch * ObstacleYGap, w, h);
  }

  /** Every prefix of the iterations keeps the loop's invariant `ScrolledUpTo`. */
  lemma {:induction false} ScrollPrefixScrolled(o0: Obstacles, f0: int, ds: seq<ObstacleDraw>, n: int, cw: int, ch: int)
    requires cw > 0 && ch > 0 && ObstacleRowsOk(o0.ys, f0, cw, ch) && ObstacleShapes(o0, cw, ch)
    requires |ds| == ObstacleCount && 0 <= n <= ObstacleCount
    ensures ScrolledUpTo(o0, f0, ScrollPrefix(o0, f0, ds, n, cw, ch).0, ScrollPrefix(o0, f0, ds, n, cw, ch).1, ds, n, cw, ch)
    decreases n
  {
    if n == 0 {
      forall j | 0 <= j < ObstacleCount ensures AgreeAt(o0, o0, j) {
      }
    } else {
      ScrollPrefixScrolled(o0, f0, ds, n - 1, cw, ch);
      var p := ScrollPrefix(o0, f0, ds, n - 1, cw, ch);
      ScrollAtStep(o0, f0, p.0, p.1, ds, n - 1, cw, ch);
    }
  }

  /** The rows' y after a whole pass are the scroll `IsScroll` describes. */
  lemma ScrolledRows(o0: Obstacles, f0: int, o: Obstacles, f: int, ds: seq<ObstacleDraw>, cw: int, ch: int)
    requires cw > 0 && ch > 0 && ObstacleRowsOk(o0.ys, f0, cw, ch)
    requires ObstaclesScrolled(o0, f0, o, f, ds, cw, ch)
    ensures IsScroll(o0.ys, f0, o.ys, f, cw, ch)
  {
    forall j | 0 <= j < ObstacleCount ensures o.ys[j] == ScrolledY(o0.ys, f0, cw, ch, j) {
      assert ScrolledEntry(o0, f0, o, ds, j, cw, ch);
    }
    forall j | 0 <= j < ObstacleCount && ObstacleSinks(o0.ys[j], cw, ch)
      ensures f == j - j % ObstaclesPerRow + 3
    {
      var last := j - j % ObstaclesPerRow + 3;
      assert o0.ys[last] == o0.ys[last - last % ObstaclesPerRow] && o0.ys[j] == o0.ys[j - j % ObstaclesPerRow];
    }
  }

  /** After a whole pass every obstacle has a draw's sizes, and a recycled one starts
      at or after its predecessor's right edge. */
  lemma ScrolledEntrySized(o0: Obstacles, f0: int, o: Obstacles, f: int, ds: seq<ObstacleDraw>,
                           cw: int, ch: int, i: int)
    requires cw > 0 && ch > 0 && ObstacleDrawsOk(ds)
    requires ObstacleRowsOk(o0.ys, f0, cw, ch) && ObstacleShapes(o0, cw, ch)
    requires ObstaclesScrolled(o0, f0, o, f, ds, cw, ch) && 0 <= i < ObstacleCount
    ensures ObstacleSized(o.xs[i], o.widths[i], o.heights[i], cw, ch)
    ensures ObstacleSinks(o0.ys[i], cw, ch) ==> o.xs[i] >= RowEnd(o, i)
  {
    assert ScrolledEntry(o0, f0, o, ds, i, cw, ch);
    if ObstacleSinks(o0.ys[i], cw, ch) {
      forall k | i - i % ObstaclesPerRow <= k <= i ensures LaidFrom(o, k, ds[k], cw, ch) {
        assert o0.ys[k] == o0.ys[k - k % ObstaclesPerRow] && o0.ys[i] == o0.ys[i - i % ObstaclesPerRow];
        assert k - k % ObstaclesPerRow == i - i % ObstaclesPerRow;
        assert ScrolledEntry(o0, f0, o, ds, k, cw, ch);
      }
      LaidRowSized(o, ds, i, cw, ch);
    }
  }

  /** After a whole pass each obstacle still starts at or after its row predecessor's
      right edge: a row is either recycled whole or left as it was. */
  lemma ScrolledEntryOrdered(o0: Obstacles, f0: int, o: Obstacles, f: int, ds: seq<ObstacleDraw>,
                             cw: int, ch: int, i: int)
    requires cw > 0 && ch > 0 && ObstacleDrawsOk(ds)
    requires ObstacleRowsOk(o0.ys, f0, cw, ch) && ObstacleShapes(o0, cw, ch)
    requires ObstaclesScrolled(o0, f0, o, f, ds, cw, ch) && 0 < i < ObstacleCount && i % ObstaclesPerRow > 0
    ensures o.xs[i] >= o.xs[i - 1] + o.widths[i - 1]
  {
    assert o0.ys[i] == o0.ys[i - i % 4] && o0.ys[i - 1] == o0.ys[(i - 1) - (i - 1) % 4];
    assert ScrolledEntry(o0, f0, o, ds, i, cw, ch) && ScrolledEntry(o0, f0, o, ds, i - 1, cw, ch);
    if ObstacleSinks(o0.ys[i], cw, ch) {
      ScrolledEntrySized(o0, f0, o, f, ds, cw, ch, i);
    }
  }

  /** After a whole pass every rectangle shares its row's y, which is the obstacle's y
      unless the obstacle was just recycled. */
  lemma ScrolledEntryTracked(o0: Obstacles, f0: int, o: Obstacles, f: int, ds: seq<ObstacleDraw>,
                             cw: int, ch: int, i: int)
    requires cw > 0 && ch > 0
    requires ObstacleRowsOk(o0.ys, f0, cw, ch)
    requires ObstaclesScrolled(o0, f0, o, f, ds, cw, ch) && 0 <= i < ObstacleCount
    ensures o.rects[i].x == o.xs[i] && o.rects[i].w == o.widths[i] && o.rects[i].h == o.heights[i]
    ensures o.rects[i].y == o.rects[i - i % ObstaclesPerRow].y
    ensures o.rects[i].y == o.ys[i] || o.rects[i].y < 0 - cw * ObstacleYGap
  {
    assert o0.ys[i] == o0.ys[i - i % ObstaclesPerRow];
    assert ScrolledEntry(o0, f0, o, ds, i, cw, ch) && ScrolledEntry(o0, f0, o, ds, i - i % ObstaclesPerRow, cw, ch);
  }

  /** The obstacles' sizes, order and rectangles after a whole pass. */
  lemma ScrolledShapes(o0: Obstacles, f0: int, o: Obstacles, f: int, ds: seq<ObstacleDraw>, cw: int, ch: int)
    requires cw > 0 && ch > 0 && ObstacleDrawsOk(ds)
    requires ObstacleRowsOk(o0.ys, f0, cw, ch) && ObstacleShapes(o0, cw, ch)
    requires ObstaclesScrolled(o0, f0, o, f, ds, cw, ch)
    ensures ObstacleShapes(o, cw, ch)
  {
    forall i | 0 <= i < ObstacleCount ensures ObstacleSized(o.xs[i], o.widths[i], o.heights[i], cw, ch) {
      ScrolledEntrySized(o0, f0, o, f, ds, cw, ch, i);
    }
    forall i | 0 < i < ObstacleCount && i % ObstaclesPerRow > 0 ensures o.xs[i] >= o.xs[i - 1] + o.widths[i - 1] {
      ScrolledEntryOrdered(o0, f0, o, f, ds, cw, ch, i);
    }
    forall i | 0 <= i < ObstacleCount
      ensures o.rects[i].x == o.xs[i] && o.rects[i].w == o.widths[i] && o.rects[i].h == o.heights[i]
      ensures o.rects[i].y == o.rects[i - i % ObstaclesPerRow].y
      ensures o.rects[i].y == o.ys[i] || o.rects[i].y < 0 - cw * ObstacleYGap
    {
      ScrolledEntryTracked(o0, f0, o, f, ds, cw, ch, i);
    }
    forall i, j | 0 <= i < ObstacleCount && 0 <= j < ObstacleCount && i / ObstaclesPerRow == j / ObstaclesPerRow
      ensures o.rects[i].y == o.rects[j].y
    {
      assert i - i % ObstaclesPerRow == j - j % ObstaclesPerRow;
      ScrolledEntryTracked(o0, f0, o, f, ds, cw, ch, i);
      ScrolledEntryTracked(o0, f0, o, f, ds, cw, ch, j);
    }
  }

  /** A whole pass of the obstacle scroll keeps the field in the state the game keeps
      between moves. */
  lemma ScrolledField(o0: Obstacles, f0: int, o: Obstacles, f: int, ds: seq<ObstacleDraw>, cw: int, ch: int)
    requires cw > 0 && ch > 0 && ObstacleDrawsOk(ds)
    requires ObstacleRowsOk(o0.ys, f0, cw, ch) && ObstacleShapes(o0, cw, ch)
    requires ObstaclesScrolled(o0, f0, o, f, ds, cw, ch)
    ensures IsScroll(o0.ys, f0, o.ys, f, cw, ch)
    ensures ObstacleRowsOk(o.ys, f, cw, ch) && ObstacleShapes(o, cw, ch)
  {
    ScrolledRows(o0, f0, o, f, ds, cw, ch);
    ScrollKeepsRows(o0.ys, f0, o.ys, f, cw, ch);
    ScrolledShapes(o0, f0, o, f, ds, cw, ch);
  }


  /** A cracker laid out from draw `d`: `d + 1` cells after `rowStart`. */
  predicate CrackerLaid(x: int, rowStart: int, cw: int, d: int) {
    x == rowStart + cw * (d + 1)
  }

  /** One draw per obstacle index. */
  predicate ObstacleDrawsOk(ds: seq<ObstacleDraw>) {
    |ds| == ObstacleCount && forall k :: 0 <= k < |ds| ==> ObstacleDrawOk(ds[k])
  }

  /** One `nextInt(4)` result per cracker index; the game adds one to it. */
  predicate CrackerDrawsOk(ds: seq<int>) {
    |ds| == CrackerCount && forall k :: 0 <= k < |ds| ==> 0 <= ds[k] < 4
  }

  /** The y at which row `row` of a field is created: the top row of the screen for row
      0, and three cells further up for each following row. */
  function RowY(row: int, ch: int): (y: int)
    ensures row == 0 ==> y == ch * (RowsOnScreen - 1)
    ensures row > 0 && ch > 0 ==> y >= ch * (RowsOnScreen - 1) + ch * ObstacleYGap
  {
    ch * (RowsOnScreen - 1) + row * (ch * ObstacleYGap)
  }

  lemma {:induction false} RowYGap(r: int, s: int, ch: int)
    requires 0 <= r < s && ch > 0
    ensures RowY(s, ch) - RowY(r, ch) >= ch * ObstacleYGap
    decreases s - r
  {
    if s == r + 1 {
      assert s * (ch * 3) == r * (ch * 3) + ch * 3;
    } else {
      RowYGap(r, s - 1, ch);
      assert s * (ch * 3) == (s - 1) * (ch * 3) + ch * 3;
    }
  }

  /** No row is created below the top row of the screen. */
  lemma RowYAboveFirst(r: int, ch: int)
    requires 0 <= r && ch > 0
    ensures RowY(r, ch) >= ch * (RowsOnScreen - 1)
  {
    if r > 0 { RowYGap(0, r, ch); }
  }

  /** Going from one index to the next moves to the next row exactly after a row's last
      entry. */
  lemma NextIndexRow(i: int, per: int)
    requires i >= 0 && (per == ObstaclesPerRow || per == CrackersPerRow)
    ensures (i + 1) / per == i / per + (if i % per == per - 1 then 1 else 0)
  {
    if per == ObstaclesPerRow { } else { }
  }

  /** Every entry of a row has the y of the row's first entry. */
  ghost predicate RowsAligned(ys: seq<int>, per: int)
    requires per > 0
  {
    forall i, j :: 0 <= i < |ys| && 0 <= j < |ys| && i / per == j / per ==> ys[i] == ys[j]
  }

  /** Rows are aligned as soon as every entry agrees with the first entry of its row. */
  lemma RowsAlignedByHead(ys: seq<int>, per: int)
    requires per > 0
    requires forall i, k :: 0 <= i < |ys| && k == i - i % per ==> ys[i] == ys[k]
    ensures RowsAligned(ys, per)
  {
    forall i, j | 0 <= i < |ys| && 0 <= j < |ys| && i / per == j / per ensures ys[i] == ys[j] {
      RowHeadIsMultiple(i, per);
      RowHeadIsMultiple(j, per);
      assert ys[i] == ys[i - i % per] && ys[j] == ys[j - j % per];
    }
  }

  /** The first index of the row holding `i` is the row number times the row length. */
  lemma RowHeadIsMultiple(i: int, per: int)
    requires per > 0
    ensures i - i % per == per * (i / per)
  {
  }

  /** Entries of different rows are at least `gap` apart vertically. */
  ghost predicate RowsSpaced(ys: seq<int>, per: int, gap: int)
    requires per > 0
  {
    forall i, j :: 0 <= i < |ys| && 0 <= j < |ys| && i / per != j / per ==>
      ys[i] - ys[j] >= gap || ys[j] - ys[i] >= gap
  }

  /** Each cracker that is not first in its row starts at least one cell after its
      predecessor. */
  ghost predicate CrackersLeftToRight(xs: seq<int>, cw: int)
  {
    forall i, j :: 0 <= j < |xs| && i == j + 1 < |xs| && i % CrackersPerRow > 0 ==> xs[i] >= xs[j] + cw
  }

  /** The test that sends an obstacle back to the top: its y, once moved down one cell,
      is more than three cells below the screen. The source measures those three cells
      with the cell WIDTH. */
  predicate ObstacleSinks(y: int, cw: int, ch: int) {
    y - ch < 0 - cw * ObstacleYGap
  }

  /** The same test for a cracker, measured with the cell height. */
  predicate CrackerSinks(y: int, ch: int) {
    y - ch < 0 - ch * CrackerYGap
  }

  /** The state of the obstacle rows between two moves: 24 entries in aligned rows of
      four, rows at least three cells apart, no row already below the recycling line,
      and `f`, the last index of a row, on the top-most row. */
  ghost predicate ObstacleRowsOk(ys: seq<int>, f: int, cw: int, ch: int)
  {
    |ys| == ObstacleCount &&
    RowsAligned(ys, ObstaclesPerRow) &&
    RowsSpaced(ys, ObstaclesPerRow, ch * ObstacleYGap) &&
    (forall i :: 0 <= i < |ys| ==> ys[i] >= 0 - cw * ObstacleYGap) &&
    0 <= f < |ys| && f % ObstaclesPerRow == ObstaclesPerRow - 1 &&
    (forall i :: 0 <= i < |ys| ==> ys[i] <= ys[f])
  }

  /** Where one pass of the obstacle scroll leaves entry `j`: one cell lower, or, when it
      sinks, three cells above the furthest row's entry `f` as the pass finds it (already
      moved down when `f < j`, not yet moved otherwise). */
  function ScrolledY(ys: seq<int>, f: int, cw: int, ch: int, j: int): int
    requires 0 <= j < |ys| && 0 <= f < |ys|
  {
    if ObstacleSinks(ys[j], cw, ch) then
      (if f < j then ys[f] - ch else ys[f]) + ch * ObstacleYGap
    else ys[j] - ch
  }

  /** The rows of a freshly created field are in the state the scroll expects, with the
      last obstacle on the top-most row. */
  lemma CreatedRowsOk(ys: seq<int>, cw: int, ch: int)
    requires cw > 0 && ch > 0 && |ys| == ObstacleCount
    requires forall j :: 0 <= j < |ys| ==> ys[j] == RowY(j / ObstaclesPerRow, ch)
    ensures ObstacleRowsOk(ys, ObstacleCount - 1, cw, ch)
  {
    forall i, j | 0 <= i < |ys| && 0 <= j < |ys| && i / 4 != j / 4
      ensures ys[i] - ys[j] >= ch * 3 || ys[j] - ys[i] >= ch * 3
    {
      if i / 4 < j / 4 { RowYGap(i / 4, j / 4, ch); } else { RowYGap(j / 4, i / 4, ch); }
    }
    forall i | 0 <= i < |ys|
      ensures ys[i] >= 0 - cw * 3 && ys[i] <= ys[23]
    {
      RowYAboveFirst(i / 4, ch);
      if i / 4 < 5 { RowYGap(i / 4, 5, ch); }
    }
  }

  /** The top-most row is never the one that sinks: the six rows cannot all be within one
      cell of the recycling line. */
  lemma TopRowStays(ys: seq<int>, f: int, cw: int, ch: int)
    requires ch > 0 && ObstacleRowsOk(ys, f, cw, ch)
    ensures !ObstacleSinks(ys[f], cw, ch)
  {
    assert 0 / 4 != 4 / 4;
    assert ys[0] - ys[4] >= ch * 3 || ys[4] - ys[0] >= ch * 3;
  }

  /** At most one row sinks in one pass: sinking entries are within one cell of the
      recycling line and rows are three cells apart. */
  lemma OneRowSinks(ys: seq<int>, f: int, cw: int, ch: int, i: int, j: int)
    requires ch > 0 && ObstacleRowsOk(ys, f, cw, ch)
    requires 0 <= i < |ys| && 0 <= j < |ys|
    requires ObstacleSinks(ys[i], cw, ch) && ObstacleSinks(ys[j], cw, ch)
    ensures i / ObstaclesPerRow == j / ObstaclesPerRow
  {
  }

  /** When entry `i` sinks, no entry of another row does. */
  lemma OthersStay(ys: seq<int>, f: int, cw: int, ch: int, i: int)
    requires ch > 0 && ObstacleRowsOk(ys, f, cw, ch)
    requires 0 <= i < |ys| && ObstacleSinks(ys[i], cw, ch)
    ensures forall j :: 0 <= j < |ys| && j / ObstaclesPerRow != i / ObstaclesPerRow ==>
      !ObstacleSinks(ys[j], cw, ch)
  {
    forall j | 0 <= j < |ys| && j / ObstaclesPerRow != i / ObstaclesPerRow
      ensures !ObstacleSinks(ys[j], cw, ch)
    {
      assert ys[i] - ys[j] >= ch * 3 || ys[j] - ys[i] >= ch * 3;
    }
  }

  /** A sinking entry is never in the furthest row, so it lies after `f` exactly when its
      whole row does. */
  lemma SinkerOutsideFurthestRow(ys: seq<int>, f: int, cw: int, ch: int, j: int)
    requires ch > 0 && ObstacleRowsOk(ys, f, cw, ch)
    requires 0 <= j < |ys| && ObstacleSinks(ys[j], cw, ch)
    ensures j / ObstaclesPerRow != f / ObstaclesPerRow
    ensures f < j <==> f < j - j % ObstaclesPerRow
  {
    TopRowStays(ys, f, cw, ch);
    assert ys[j] == ys[j - j % 4] && ys[f] == ys[f - f % 4];
  }

  /** `ys'` and `f'` are what one pass of the obstacle scroll makes of `ys` and `f`. */
  ghost predicate IsScroll(ys: seq<int>, f: int, ys': seq<int>, f': int, cw: int, ch: int)
    requires 0 <= f < |ys|
  {
    |ys'| == |ys| &&
    (forall j :: 0 <= j < |ys| ==> ys'[j] == ScrolledY(ys, f, cw, ch, j)) &&
    (forall j :: 0 <= j < |ys| && ObstacleSinks(ys[j], cw, ch) ==> f' == j - j % ObstaclesPerRow + 3) &&
    ((forall j :: 0 <= j < |ys| ==> !ObstacleSinks(ys[j], cw, ch)) ==> f' == f)
  }

  lemma ScrollKeepsAligned(ys: seq<int>, f: int, ys': seq<int>, f': int, cw: int, ch: int)
    requires cw > 0 && ch > 0 && ObstacleRowsOk(ys, f, cw, ch) && IsScroll(ys, f, ys', f', cw, ch)
    ensures RowsAligned(ys', ObstaclesPerRow)
  {
    forall i | 0 <= i < |ys'| ensures ys'[i] == ys'[i - i % 4] {
      assert ys[i] == ys[i - i % 4];
      if ObstacleSinks(ys[i], cw, ch) {
        SinkerOutsideFurthestRow(ys, f, cw, ch, i);
      }
    }
  }

  lemma ScrollKeepsSpaced(ys: seq<int>, f: int, ys': seq<int>, f': int, cw: int, ch: int)
    requires cw > 0 && ch > 0 && ObstacleRowsOk(ys, f, cw, ch) && IsScroll(ys, f, ys', f', cw, ch)
    ensures RowsSpaced(ys', ObstaclesPerRow, ch * ObstacleYGap)
  {
    forall i, j | 0 <= i < |ys'| && 0 <= j < |ys'| && i / 4 != j / 4
      ensures ys'[i] - ys'[j] >= ch * 3 || ys'[j] - ys'[i] >= ch * 3
    {
      if ObstacleSinks(ys[i], cw, ch) && ObstacleSinks(ys[j], cw, ch) {
        OneRowSinks(ys, f, cw, ch, i, j);
      }
      assert ys[i] - ys[j] >= ch * 3 || ys[j] - ys[i] >= ch * 3;
    }
  }

  lemma ScrollKeepsTop(ys: seq<int>, f: int, ys': seq<int>, f': int, cw: int, ch: int)
    requires cw > 0 && ch > 0 && ObstacleRowsOk(ys, f, cw, ch) && IsScroll(ys, f, ys', f', cw, ch)
    requires RowsAligned(ys', ObstaclesPerRow)
    ensures 0 <= f' < |ys'| && f' % ObstaclesPerRow == ObstaclesPerRow - 1
    ensures forall i :: 0 <= i < |ys'| ==> ys'[i] <= ys'[f']
  {
    TopRowStays(ys, f, cw, ch);
    if j :| 0 <= j < |ys| && ObstacleSinks(ys[j], cw, ch) {
      assert f' - f' % 4 == j - j % 4;
      assert ys[f'] == ys[f' - f' % 4] && ys[j] == ys[j - j % 4];
      forall i | 0 <= i < |ys'| ensures ys'[i] <= ys'[f'] {
        if ObstacleSinks(ys[i], cw, ch) {
          OneRowSinks(ys, f, cw, ch, i, j);
          assert i - i % 4 == f' - f' % 4;
          assert ys'[i] == ys'[i - i % 4] && ys'[f'] == ys'[f' - f' % 4];
        }
      }
    }
  }

  /** One scroll pass keeps the rows in order: it moves every row down one cell, puts the
      sinking row (if any) three or four cells above the furthest row and makes it the
      furthest row. */
  lemma ScrollKeepsRows(ys: seq<int>, f: int, ys': seq<int>, f': int, cw: int, ch: int)
    requires cw > 0 && ch > 0 && ObstacleRowsOk(ys, f, cw, ch) && IsScroll(ys, f, ys', f', cw, ch)
    ensures ObstacleRowsOk(ys', f', cw, ch)
    ensures forall j :: 0 <= j < |ys| && ObstacleSinks(ys[j], cw, ch) ==>
      ys'[j] - ys'[f] == (if f < j then ch * ObstacleYGap else ch * (ObstacleYGap + 1))
  {
    TopRowStays(ys, f, cw, ch);
    ScrollKeepsAligned(ys, f, ys', f', cw, ch);
    ScrollKeepsSpaced(ys, f, ys', f', cw, ch);
    ScrollKeepsTop(ys, f, ys', f', cw, ch);
  }

  /** Obstacles of one row never overlap: each starts at or after the right edge of every
      obstacle before it in the row. */
  lemma {:induction false} RowPrefixClear(xs: seq<int>, ws: seq<int>, i: int, j: int)
    requires ObstaclesLeftToRight(xs, ws)
    requires forall k :: 0 <= k < |ws| ==> ws[k] > 0
    requires 0 <= i < j < |xs| && i / ObstaclesPerRow == j / ObstaclesPerRow
    ensures xs[j] >= xs[i] + ws[i]
    decreases j - i
  {
    assert j % 4 > 0;
    if i < j - 1 {
      RowPrefixClear(xs, ws, i, j - 1);
    }
  }

  /** Consequently two obstacles of the same row, whatever their heights, do not overlap
      when their rectangles share the row's y. */
  lemma RowObstaclesDisjoint(xs: seq<int>, ws: seq<int>, y: int, h1: int, h2: int, i: int, j: int)
    requires ObstaclesLeftToRight(xs, ws)
    requires forall k :: 0 <= k < |ws| ==> ws[k] > 0
    requires 0 <= i < |xs| && 0 <= j < |xs| && i != j && i / ObstaclesPerRow == j / ObstaclesPerRow
    ensures !Overlaps(Rect(xs[i], y, ws[i], h1), Rect(xs[j], y, ws[j], h2))
  {
    if i < j { RowPrefixClear(xs, ws, i, j); } else { RowPrefixClear(xs, ws, j, i); }
  }

  /** The cracker field as the game's four parallel arrays hold it. */
  datatype Crackers = Crackers(rects: seq<Rect>, xs: seq<int>, ys: seq<int>, taken: seq<bool>)

  predicate CrackersWellSized(c: Crackers) {
    |c.rects| == CrackerCount && |c.xs| == CrackerCount && |c.ys| == CrackerCount && |c.taken| == CrackerCount
  }

  /** `c` and `p` hold the same cracker at index `k`. */
  ghost predicate CrackerAgreeAt(c: Crackers, p: Crackers, k: int)
    requires CrackersWellSized(c) && CrackersWellSized(p) && 0 <= k < CrackerCount
  {
    c.rects[k] == p.rects[k] && c.xs[k] == p.xs[k] && c.ys[k] == p.ys[k] && c.taken[k] == p.taken[k]
  }

  /** The field `c` with cracker `n` replaced by rectangle `r`, x, y and taken flag `t`. */
  function SetCracker(c: Crackers, n: int, r: Rect, x: int, y: int, t: bool): (c': Crackers)
    requires CrackersWellSized(c) && 0 <= n < CrackerCount
    ensures CrackersWellSized(c')
    ensures forall k :: 0 <= k < CrackerCount && k != n ==> CrackerAgreeAt(c', c, k)
    ensures c'.rects[n] == r && c'.xs[n] == x && c'.ys[n] == y && c'.taken[n] == t
  {
    Crackers(c.rects[n := r], c.xs[n := x], c.ys[n := y], c.taken[n := t])
  }

  /** The y at which row `row` of crackers is created: the top row of the screen for row
      0, and `CrackerYGap` cells further up for each following row. */
  function CrackerRowY(row: int, ch: int): (y: int)
    ensures row == 0 ==> y == ch * (RowsOnScreen - 1)
    ensures row > 0 && ch > 0 ==> y >= ch * (RowsOnScreen - 1) + ch * CrackerYGap
  {
    ch * (RowsOnScreen - 1) + row * (ch * CrackerYGap)
  }

  /** The crackers sit in aligned rows of three, each at least one cell after its row
      predecessor, and every rectangle is the cell at the cracker's x and y. */
  ghost predicate CrackersInRows(rs: seq<Rect>, xs: seq<int>, ys: seq<int>, cw: int, ch: int)
  {
    |rs| == CrackerCount && |xs| == CrackerCount && |ys| == CrackerCount &&
    RowsAligned(ys, CrackersPerRow) && CrackersLeftToRight(xs, cw) &&
    forall i :: 0 <= i < CrackerCount ==> rs[i] == Rect(xs[i], ys[i], cw, ch)
  }

  /** Cracker `i` as `createCrackers` makes it: untaken, `d + 1` cells after its row
      predecessor (after the screen's left edge for the first of a row), on its row's
      `CrackerRowY`, with the cell at that place as its rectangle. */
  ghost predicate CrackerCreatedEntry(c: Crackers, ds: seq<int>, i: int, cw: int, ch: int)
    requires CrackersWellSized(c) && |ds| == CrackerCount && 0 <= i < CrackerCount
  {
    !c.taken[i] &&
    CrackerLaid(c.xs[i], if i % CrackersPerRow > 0 then c.xs[i - 1] else 0, cw, ds[i]) &&
    c.ys[i] == CrackerRowY(i / CrackersPerRow, ch) && c.rects[i] == Rect(c.xs[i], c.ys[i], cw, ch)
  }

  /** The first `n` crackers are as `createCrackers` makes them. */
  ghost predicate CrackersCreatedUpTo(c: Crackers, ds: seq<int>, n: int, cw: int, ch: int)
  {
    CrackersWellSized(c) && |ds| == CrackerCount && 0 <= n <= CrackerCount &&
    forall i :: 0 <= i < n ==> CrackerCreatedEntry(c, ds, i, cw, ch)
  }

  /** Creating cracker `n` after its row predecessor extends the created prefix. */
  lemma CrackerCreatedStep(c: Crackers, ds: seq<int>, n: int, x: int, y: int, cw: int, ch: int)
    requires CrackersCreatedUpTo(c, ds, n, cw, ch) && n < CrackerCount
    requires CrackerLaid(x, if n % CrackersPerRow > 0 then c.xs[n - 1] else 0, cw, ds[n])
    requires y == CrackerRowY(n / CrackersPerRow, ch)
    ensures CrackersCreatedUpTo(SetCracker(c, n, Rect(x, y, cw, ch), x, y, false), ds, n + 1, cw, ch)
  {
    var c' := SetCracker(c, n, Rect(x, y, cw, ch), x, y, false);
    forall i | 0 <= i < n + 1 ensures CrackerCreatedEntry(c', ds, i, cw, ch) {
      if i < n {
        assert CrackerCreatedEntry(c, ds, i, cw, ch);
      }
    }
  }

  /** A freshly created cracker field has its crackers untaken and in rows. */
  lemma CrackersCreatedField(c: Crackers, ds: seq<int>, cw: int, ch: int)
    requires cw > 0 && CrackerDrawsOk(ds) && CrackersCreatedUpTo(c, ds, CrackerCount, cw, ch)
    ensures CrackersInRows(c.rects, c.xs, c.ys, cw, ch)
    ensures forall i :: 0 <= i < CrackerCount ==> !c.taken[i]
  {
    forall i | 0 <= i < CrackerCount
      ensures !c.taken[i] && c.rects[i] == Rect(c.xs[i], c.ys[i], cw, ch)
      ensures c.ys[i] == c.ys[i - i % CrackersPerRow]
      ensures 0 < i && i % CrackersPerRow > 0 ==> c.xs[i] >= c.xs[i - 1] + cw
    {
      assert CrackerCreatedEntry(c, ds, i, cw, ch) && CrackerCreatedEntry(c, ds, i - i % CrackersPerRow, cw, ch);
      assert (i - i % CrackersPerRow) / CrackersPerRow == i / CrackersPerRow;
    }
    RowsAlignedByHead(c.ys, CrackersPerRow);
  }

  /** The left edge a recycled cracker is measured from: the screen's left edge for the
      first of a row, and one cell past its row predecessor's x otherwise. */
  function CrackerRowStart(c: Crackers, i: int, cw: int): int
    requires CrackersWellSized(c) && 0 <= i < CrackerCount
  {
    if i % CrackersPerRow > 0 then c.xs[i - 1] + cw else 0
  }

  /** Cracker `j` once a pass of `moveCrackers` over `c0` has gone past it, with `top`
      the y of the furthest obstacle row: moved down one cell, or, when it sinks, put
      three cells above `top`, laid out again from its draw and untaken; its rectangle is
      the cell at its new place. */
  ghost predicate CrackerScrolledEntry(c0: Crackers, c: Crackers, ds: seq<int>, top: int, j: int, cw: int, ch: int)
    requires CrackersWellSized(c0) && CrackersWellSized(c) && |ds| == CrackerCount && 0 <= j < CrackerCount
  {
    c.rects[j] == Rect(c.xs[j], c.ys[j], cw, ch) &&
    if CrackerSinks(c0.ys[j], ch)
    then c.ys[j] == top + ch * CrackerYGap && !c.taken[j] && CrackerLaid(c.xs[j], CrackerRowStart(c, j, cw), cw, ds[j])
    else c.ys[j] == c0.ys[j] - ch && c.xs[j] == c0.xs[j] && c.taken[j] == c0.taken[j]
  }

  /** The state of `moveCrackers` after its first `n` iterations. */
  ghost predicate CrackersScrolledUpTo(c0: Crackers, c: Crackers, ds: seq<int>, top: int, n: int, cw: int, ch: int)
  {
    CrackersWellSized(c0) && CrackersWellSized(c) && |ds| == CrackerCount && 0 <= n <= CrackerCount &&
    (forall j :: 0 <= j < n ==> CrackerScrolledEntry(c0, c, ds, top, j, cw, ch)) &&
    (forall j :: n <= j < CrackerCount ==> CrackerAgreeAt(c, c0, j))
  }

  /** `c` is what one whole pass of `moveCrackers` makes of `c0`. */
  ghost predicate CrackersScrolled(c0: Crackers, c: Crackers, ds: seq<int>, top: int, cw: int, ch: int)
  {
    CrackersScrolledUpTo(c0, c, ds, top, CrackerCount, cw, ch)
  }

  /** One iteration of `moveCrackers`, stated in terms of the state `c` it starts from:
      cracker `n` moves down one cell and, when it is then more than three cells below
      the screen, is put three cells above `top` and laid out again, untaken. */
  lemma CrackerScrollStep(c0: Crackers, c: Crackers, ds: seq<int>, top: int, n: int,
                          r: Rect, x: int, y: int, t: bool, cw: int, ch: int)
    requires CrackersInRows(c0.rects, c0.xs, c0.ys, cw, ch)
    requires CrackersScrolledUpTo(c0, c, ds, top, n, cw, ch) && n < CrackerCount
    requires CrackerSinks(c.ys[n], ch) ==>
      y == top + ch * CrackerYGap && !t && CrackerLaid(x, CrackerRowStart(c, n, cw), cw, ds[n]) && r == Rect(x, y, cw, ch)
    requires !CrackerSinks(c.ys[n], ch) ==>
      y == c.ys[n] - ch && x == c.xs[n] && t == c.taken[n] && r == c.rects[n].(x := c.xs[n], y := y)
    ensures CrackersScrolledUpTo(c0, SetCracker(c, n, r, x, y, t), ds, top, n + 1, cw, ch)
  {
    var c' := SetCracker(c, n, r, x, y, t);
    assert CrackerAgreeAt(c, c0, n);
    if n % CrackersPerRow > 0 {
      assert CrackerAgreeAt(c', c, n - 1);
    }
    assert CrackerScrolledEntry(c0, c', ds, top, n, cw, ch);
    forall j | 0 <= j < n ensures CrackerScrolledEntry(c0, c', ds, top, j, cw, ch) {
      assert CrackerScrolledEntry(c0, c, ds, top, j, cw, ch) && CrackerAgreeAt(c', c, j);
      if j % CrackersPerRow > 0 {
        assert CrackerAgreeAt(c', c, j - 1);
      }
    }
    forall j | n + 1 <= j < CrackerCount ensures CrackerAgreeAt(c', c0, j) {
      assert CrackerAgreeAt(c', c, j) && CrackerAgreeAt(c, c0, j);
    }
  }

  /** `recreateCracker`: cracker `n` becomes untaken and is laid out again from draw `d`,
      one cell past its row predecessor (or from the screen's left edge); its rectangle
      is the cell at its new place. */
  function Recrafted(c: Crackers, n: int, d: int, cw: int, ch: int): (c': Crackers)
    requires CrackersWellSized(c) && 0 <= n < CrackerCount
    ensures CrackersWellSized(c') && c'.ys == c.ys && !c'.taken[n]
    ensures CrackerLaid(c'.xs[n], CrackerRowStart(c, n, cw), cw, d)
    ensures c'.rects[n] == Rect(c'.xs[n], c.ys[n], cw, ch)
    ensures forall k :: 0 <= k < CrackerCount && k != n ==> CrackerAgreeAt(c', c, k)
  {
    var xGap := cw * (d + 1);
    var x := if n % CrackersPerRow > 0 then c.xs[n - 1] + cw + xGap else xGap;
    c.(taken := c.taken[n := false], xs := c.xs[n := x], rects := c.rects[n := Rect(x, c.ys[n], cw, ch)])
  }

  /** One iteration of `moveCrackers` on cracker `n`: it moves down one cell; once more
      than three cells below the screen it is put three cells above `top` (the furthest
      obstacle row's y) and recreated from draw `d`. */
  function CrackerScrollAt(c: Crackers, top: int, n: int, d: int, cw: int, ch: int): (c': Crackers)
    requires CrackersWellSized(c) && 0 <= n < CrackerCount
    ensures CrackersWellSized(c')
    ensures c'.ys[n] == c.ys[n] - ch || c'.ys[n] == top + ch * CrackerYGap
    ensures forall k :: 0 <= k < CrackerCount && k != n ==> CrackerAgreeAt(c', c, k)
  {
    var y := c.ys[n] - ch;
    var moved := c.(ys := c.ys[n := y], rects := c.rects[n := c.rects[n].(x := c.xs[n], y := y)]);
    if y < 0 - ch * CrackerYGap then Recrafted(moved.(ys := moved.ys[n := top + ch * CrackerYGap]), n, d, cw, ch)
    else moved
  }

  /** The first `n` iterations of `moveCrackers` from crackers `c0`, with draws `ds`. */
  function CrackerScrollPrefix(c0: Crackers, top: int, ds: seq<int>, n: int, cw: int, ch: int): (c: Crackers)
    requires CrackersWellSized(c0) && |ds| == CrackerCount && 0 <= n <= CrackerCount
    ensures CrackersWellSized(c)
    decreases n
  {
    if n == 0 then c0
    else CrackerScrollAt(CrackerScrollPrefix(c0, top, ds, n - 1, cw, ch), top, n - 1, ds[n - 1], cw, ch)
  }

  /** One iteration keeps the loop's invariant `CrackersScrolledUpTo`. */
  lemma CrackerScrollAtStep(c0: Crackers, c: Crackers, ds: seq<int>, top: int, n: int, cw: int, ch: int)
    requires CrackersInRows(c0.rects, c0.xs, c0.ys, cw, ch)
    requires CrackersScrolledUpTo(c0, c, ds, top, n, cw, ch) && n < CrackerCount
    ensures CrackersScrolledUpTo(c0, CrackerScrollAt(c, top, n, ds[n], cw, ch), ds, top, n + 1, cw, ch)
  {
    var y := c.ys[n] - ch;
    var moved := c.(ys := c.ys[n := y], rects := c.rects[n := c.rects[n].(x := c.xs[n], y := y)]);
    var s := CrackerScrollAt(c, top, n, ds[n], cw, ch);
    if CrackerSinks(c.ys[n], ch) {
      var behind := moved.(ys := moved.ys[n := top + ch * CrackerYGap]);
      assert CrackerRowStart(behind, n, cw) == CrackerRowStart(c, n, cw);
      assert s == SetCracker(c, n, s.rects[n], s.xs[n], top + ch * CrackerYGap, false);
      CrackerScrollStep(c0, c, ds, top, n, s.rects[n], s.xs[n], top + ch * CrackerYGap, false, cw, ch);
    } else {
      assert s == SetCracker(c, n, moved.rects[n], c.xs[n], y, c.taken[n]);
      CrackerScrollStep(c0, c, ds, top, n, moved.rects[n], c.xs[n], y, c.taken[n], cw, ch);
    }
  }

  /** Every prefix of the iterations keeps the loop's invariant `CrackersScrolledUpTo`. */
  lemma {:induction false} CrackerScrollPrefixScrolled(c0: Crackers, top: int, ds: seq<int>, n: int, cw: int, ch: int)
    requires CrackersInRows(c0.rects, c0.xs, c0.ys, cw, ch) && CrackersWellSized(c0)
    requires |ds| == CrackerCount && 0 <= n <= CrackerCount
    ensures CrackersScrolledUpTo(c0, CrackerScrollPrefix(c0, top, ds, n, cw, ch), ds, top, n, cw, ch)
    decreases n
  {
    if n == 0 {
      forall j | 0 <= j < CrackerCount ensures CrackerAgreeAt(c0, c0, j) {
      }
    } else {
      CrackerScrollPrefixScrolled(c0, top, ds, n - 1, cw, ch);
      CrackerScrollAtStep(c0, CrackerScrollPrefix(c0, top, ds, n - 1, cw, ch), ds, top, n - 1, cw, ch);
    }
  }

  /** A whole pass of `moveCrackers` keeps the crackers in rows: a row sinks as a whole,
      and a recycled cracker is at least two cells after its row predecessor. */
  lemma CrackersScrolledField(c0: Crackers, c: Crackers, ds: seq<int>, top: int, cw: int, ch: int)
    requires cw > 0 && CrackerDrawsOk(ds)
    requires CrackersInRows(c0.rects, c0.xs, c0.ys, cw, ch) && CrackersScrolled(c0, c, ds, top, cw, ch)
    ensures CrackersInRows(c.rects, c.xs, c.ys, cw, ch)
  {
    forall i | 0 <= i < CrackerCount
      ensures c.rects[i] == Rect(c.xs[i], c.ys[i], cw, ch)
      ensures c.ys[i] == c.ys[i - i % CrackersPerRow]
    {
      assert c0.ys[i] == c0.ys[i - i % CrackersPerRow];
      assert CrackerScrolledEntry(c0, c, ds, top, i, cw, ch);
      assert CrackerScrolledEntry(c0, c, ds, top, i - i % CrackersPerRow, cw, ch);
    }
    forall i | 0 < i < CrackerCount && i % CrackersPerRow > 0 ensures c.xs[i] >= c.xs[i - 1] + cw {
      assert c0.ys[i] == c0.ys[i - i % 3] && c0.ys[i - 1] == c0.ys[(i - 1) - (i - 1) % 3];
      assert CrackerScrolledEntry(c0, c, ds, top, i, cw, ch) && CrackerScrolledEntry(c0, c, ds, top, i - 1, cw, ch);
    }
    RowsAlignedByHead(c.ys, CrackersPerRow);
  }

  /** The number of crackers a pickup pass takes: those untaken before and taken after. */
  function NewlyTaken(before: seq<bool>, after: seq<bool>): (n: nat)
    requires |before| == |after|
    ensures n <= |before|
  {
    if |before| == 0 then 0
    else NewlyTaken(before[..|before| - 1], after[..|after| - 1])
         + (if !before[|before| - 1] && after[|after| - 1] then 1 else 0)
  }

  /** The taken flags after a cell `fish` has picked up every cracker it overlaps. */
  function Pickup(taken: seq<bool>, cs: seq<Rect>, fish: Rect): (r: seq<bool>)
    requires |taken| == |cs|
    ensures |r| == |taken|
    ensures forall k :: 0 <= k < |r| ==> (taken[k] ==> r[k]) && (r[k] != taken[k] ==> Overlaps(cs[k], fish))
  {
    seq(|taken|, k requires 0 <= k < |taken| => taken[k] || Overlaps(cs[k], fish))
  }

  lemma NewlyTakenSnoc(before: seq<bool>, after: seq<bool>, b: bool, a: bool)
    requires |before| == |after|
    ensures NewlyTaken(before + [b], after + [a]) == NewlyTaken(before, after) + (if !b && a then 1 else 0)
  {
    assert (before + [b])[..|before|] == before;
    assert (after + [a])[..|after|] == after;
  }

  /** A pass that takes nothing new scores nothing. */
  lemma {:induction false} NewlyTakenNothing(before: seq<bool>, after: seq<bool>)
    requires |before| == |after|
    requires forall k :: 0 <= k < |before| ==> after[k] ==> before[k]
    ensures NewlyTaken(before, after) == 0
  {
    if |before| > 0 {
      NewlyTakenNothing(before[..|before| - 1], after[..|after| - 1]);
    }
  }

  /** Each cracker that is untaken before and taken after adds one. */
  lemma {:induction false} NewlyTakenCountsFlips(before: seq<bool>, after: seq<bool>)
    requires |before| == |after|
    ensures NewlyTaken(before, after) == |set k | 0 <= k < |before| && !before[k] && after[k]|
  {
    var n := |before|;
    if n > 0 {
      var b', a' := before[..n - 1], after[..n - 1];
      NewlyTakenCountsFlips(b', a');
      var s' := set k | 0 <= k < n - 1 && !b'[k] && a'[k];
      var s := set k | 0 <= k < n && !before[k] && after[k];
      if !before[n - 1] && after[n - 1] {
        assert s == s' + {n - 1};
      } else {
        assert s == s';
      }
    }
  }

  /** A pickup scores one point for each untaken cracker the cell overlaps, and no more. */
  lemma PickupScoresOverlapped(taken: seq<bool>, cs: seq<Rect>, fish: Rect)
    requires |taken| == |cs|
    ensures NewlyTaken(taken, Pickup(taken, cs, fish)) ==
      |set k | 0 <= k < |taken| && !taken[k] && Overlaps(cs[k], fish)|
  {
    var after := Pickup(taken, cs, fish);
    NewlyTakenCountsFlips(taken, after);
    assert (set k | 0 <= k < |taken| && !taken[k] && after[k]) ==
      (set k | 0 <= k < |taken| && !taken[k] && Overlaps(cs[k], fish));
  }

  /** Picking up at the same place twice scores nothing the second time. */
  lemma PickupTwiceScoresOnce(taken: seq<bool>, cs: seq<Rect>, fish: Rect)
    requires |taken| == |cs|
    ensures Pickup(Pickup(taken, cs, fish), cs, fish) == Pickup(taken, cs, fish)
    ensures NewlyTaken(Pickup(taken, cs, fish), Pickup(Pickup(taken, cs, fish), cs, fish)) == 0
  {
    var once := Pickup(taken, cs, fish);
    NewlyTakenNothing(once, Pickup(once, cs, fish));
  }
}
