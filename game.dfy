/**
 * The simulation core of the FishEscape game: the player's fish, the four sharks that
 * chase it, the obstacle and cracker fields that scroll down the screen, and the level
 * and score bookkeeping. The class keeps the game's fields and arrays and its methods
 * update them in place, as the game does; rendering and input wiring are not modelled.
 *
 * Random draws are parameters: `oDraws[i]` and `cDraws[i]` are the generator's results
 * for obstacle `i` and cracker `i` whenever that entry is created or recycled.
 */
module Game {
  import opened Geometry
  import opened Fields
  import opened Pursuit

  /** Forward moves needed to reach the finish line. */
  const Goal := 40
  const StartColumn := 3
  const StartRow := 5
  /** Frames per forward step at level 1. */
  const FirstMoveTime := 60

  /** The way the fish faces; only drawing uses it. */
  datatype Direction = Up | Left | Right

  /** The frames per forward step after a restart: back to 60 after a loss; after a win
      ten fewer, then five back once at 20 or below, and never below 5. */
  function RestartMoveTime(eaten: bool, moveTime: int): (r: int)
    requires moveTime >= 5 && moveTime % 5 == 0
    ensures r >= 5 && r % 5 == 0
    ensures eaten ==> r == FirstMoveTime
    ensures !eaten ==> r <= moveTime && (moveTime > 5 ==> r < moveTime)
    ensures !eaten && moveTime > 30 ==> r == moveTime - 10
    ensures !eaten && moveTime <= 10 ==> r == 5
  {
    var t := (if eaten then 70 else moveTime) - 10;
    if t <= 20 then (if t + 5 <= 0 then 5 else t + 5) else t
  }

  /** The enemy arrays, as the game declares them. */
  method NewEnemyArrays() returns (rects: array<Rect>, startX: array<int>)
    ensures fresh(rects) && fresh(startX) && rects.Length == EnemyCount && startX.Length == EnemyCount
  {
    rects := new Rect[EnemyCount](_ => Rect(0, 0, 0, 0));
    startX := new int[EnemyCount](_ => 0);
  }

  /** The obstacle arrays, as the game declares them. */
  method NewObstacleArrays() returns (rects: array<Rect>, xs: array<int>, ys: array<int>, ws: array<int>, hs: array<int>)
    ensures fresh(rects) && fresh(xs) && fresh(ys) && fresh(ws) && fresh(hs)
    ensures rects.Length == ObstacleCount && xs.Length == ObstacleCount && ys.Length == ObstacleCount &&
      ws.Length == ObstacleCount && hs.Length == ObstacleCount
    ensures xs != ys && xs != ws && xs != hs && ys != ws && ys != hs && ws != hs
  {
    rects := new Rect[ObstacleCount](_ => Rect(0, 0, 0, 0));
    xs := new int[ObstacleCount](_ => 0);
    ys := new int[ObstacleCount](_ => 0);
    ws := new int[ObstacleCount](_ => 0);
    hs := new int[ObstacleCount](_ => 0);
  }

  /** The cracker arrays, as the game declares them. */
  method NewCrackerArrays() returns (rects: array<Rect>, xs: array<int>, ys: array<int>, taken: array<bool>)
    ensures fresh(rects) && fresh(xs) && fresh(ys) && fresh(taken)
    ensures rects.Length == CrackerCount && xs.Length == CrackerCount && ys.Length == CrackerCount &&
      taken.Length == CrackerCount
    ensures xs != ys
  {
    rects := new Rect[CrackerCount](_ => Rect(0, 0, 0, 0));
    xs := new int[CrackerCount](_ => 0);
    ys := new int[CrackerCount](_ => 0);
    taken := new bool[CrackerCount](_ => false);
  }

  class FishEscape {
    const cellWidth: int
    const cellHeight: int
    /** The screen width in pixels. */
    const screenWidth: int

    var movesLeft: int
    var highScore: int
    var moves: int
    var points: int
    var moveTime: int
    var frames: int
    var level: int

    var fishDirection: Direction
    var fishCell: Rect
    var eaten: bool

    const enemies: array<Rect>
    const enemyStartX: array<int>
    var jumped: bool

    const obstacles: array<Rect>
    const obstacleX: array<int>
    const obstacleY: array<int>
    const obstacleWidth: array<int>
    const obstacleHeight: array<int>
    var furthestObstacle: int

    const crackers: array<Rect>
    const crackerX: array<int>
    const crackerY: array<int>
    const crackerTaken: array<bool>

    /** `create`: the cell size from a screen `width` by `height` pixels and the arrays
        the game declares, then the start state `Start` describes. */
    constructor (width: int, height: int, oDraws: seq<ObstacleDraw>, cDraws: seq<int>)
      requires width >= Columns && width % Columns == 0 && height >= RowsOnScreen
      requires ObstacleDrawsOk(oDraws) && CrackerDrawsOk(cDraws)
      ensures cellWidth == width / Columns && cellHeight == height / RowsOnScreen && screenWidth == width
      ensures Valid() && AtStart(oDraws, cDraws)
    {
      cellWidth := width / Columns;
      cellHeight := height / RowsOnScreen;
      screenWidth := width;
      var es, sx := NewEnemyArrays();
      var os, ox, oy, ow, oh := NewObstacleArrays();
      var cs, cx, cy, ct := NewCrackerArrays();
      enemies, enemyStartX := es, sx;
      obstacles, obstacleX, obstacleY, obstacleWidth, obstacleHeight := os, ox, oy, ow, oh;
      crackers, crackerX, crackerY, crackerTaken := cs, cx, cy, ct;
      new;
      Start(oDraws, cDraws);
    }

    /** The state a new game starts in: level 1 with no points, no high score, every move
        left and a step every 60 frames; the fish on its start cell, the enemies one cell
        below their start columns, the furthest obstacle row the last, and the obstacles
        and the crackers laid out from the draws with nothing taken. */
    ghost predicate AtStart(oDraws: seq<ObstacleDraw>, cDraws: seq<int>)
      reads this, enemies, obstacles, obstacleX, obstacleY, obstacleWidth, obstacleHeight,
        crackers, crackerX, crackerY, crackerTaken
      requires Shapes()
    {
      highScore == 0 && points == 0 && level == 1 && movesLeft == Goal && moves == 0 &&
      moveTime == FirstMoveTime && frames == 0 && !eaten && !jumped &&
      furthestObstacle == ObstacleCount - 1 &&
      fishCell == Rect(cellWidth * StartColumn, cellHeight * StartRow, cellWidth, cellHeight) &&
      (forall k :: 0 <= k < EnemyCount ==>
        enemies[k] == Rect(cellWidth * 2 * k, -cellHeight, cellWidth, cellHeight)) &&
      CreatedUpTo(ObstacleState(), oDraws, ObstacleCount, cellWidth, cellHeight) &&
      CrackersCreatedUpTo(CrackerState(), cDraws, CrackerCount, cellWidth, cellHeight)
    }

    /** The field initialisers and the rest of `create`: the counters take their start
        values, then the objects are made as `CreateObjects` makes them. */
    method Start(oDraws: seq<ObstacleDraw>, cDraws: seq<int>)
      requires Shapes() && ObstacleDrawsOk(oDraws) && CrackerDrawsOk(cDraws)
      modifies this, enemies, enemyStartX, obstacles, obstacleX, obstacleY, obstacleWidth, obstacleHeight,
        crackers, crackerX, crackerY, crackerTaken
      ensures Valid() && AtStart(oDraws, cDraws)
    {
      CreateObjects(oDraws, cDraws);
      StartCounters();
    }

    /** The start values of the counters: the field initialisers and the high score that
        `create` clears. */
    method StartCounters()
      modifies this`movesLeft, this`moves, this`points, this`moveTime, this`frames, this`level,
        this`eaten, this`jumped, this`furthestObstacle, this`highScore
      ensures highScore == 0 && points == 0 && level == 1 && movesLeft == Goal && moves == 0
      ensures moveTime == FirstMoveTime && frames == 0 && !eaten && !jumped
      ensures furthestObstacle == ObstacleCount - 1
    {
      movesLeft := Goal;
      moves := 0;
      points := 0;
      moveTime := FirstMoveTime;
      frames := 0;
      level := 1;
      eaten := false;
      jumped := false;
      furthestObstacle := ObstacleCount - 1;
      highScore := 0;
    }

    /** The objects `create` makes, in its order: the fish, the enemies, the crackers and
        the obstacles. */
    method CreateObjects(oDraws: seq<ObstacleDraw>, cDraws: seq<int>)
      requires Shapes() && ObstacleDrawsOk(oDraws) && CrackerDrawsOk(cDraws)
      modifies this`fishCell, enemies, enemyStartX, obstacles, obstacleX, obstacleY, obstacleWidth,
        obstacleHeight, crackers, crackerX, crackerY, crackerTaken
      ensures fishCell == Rect(cellWidth * StartColumn, cellHeight * StartRow, cellWidth, cellHeight)
      ensures forall k :: 0 <= k < EnemyCount ==>
        enemies[k] == Rect(cellWidth * 2 * k, -cellHeight, cellWidth, cellHeight)
      ensures CreatedUpTo(ObstacleState(), oDraws, ObstacleCount, cellWidth, cellHeight)
      ensures CrackersCreatedUpTo(CrackerState(), cDraws, CrackerCount, cellWidth, cellHeight)
      ensures PlayerOk() && EnemiesOk() && CrackerField()
      ensures ObstacleRowsOk(obstacleY[..], ObstacleCount - 1, cellWidth, cellHeight)
      ensures ObstacleShapes(ObstacleState(), cellWidth, cellHeight)
    {
      CreateActors();
      CreateCrackers(cDraws);
      CreateObstacles(oDraws);
    }

    /** The fish on its start cell and the enemies on every other column one row below
        the screen, as `createFish` and `createEnemies` lay them out. */
    method CreateActors()
      requires Shapes()
      modifies this`fishCell, enemies, enemyStartX
      ensures fishCell == Rect(cellWidth * StartColumn, cellHeight * StartRow, cellWidth, cellHeight)
      ensures forall k :: 0 <= k < EnemyCount ==>
        enemies[k] == Rect(cellWidth * 2 * k, -cellHeight, cellWidth, cellHeight)
      ensures PlayerOk() && EnemiesOk()
    {
      CreateFish();
      CreateEnemies();
    }

    /** Cell size, screen width and array sizes; the integer arrays are distinct. */
    ghost predicate Shapes() {
      cellWidth > 0 && cellHeight > 0 && screenWidth == Columns * cellWidth &&
      enemies.Length == EnemyCount && enemyStartX.Length == EnemyCount &&
      obstacles.Length == ObstacleCount && obstacleX.Length == ObstacleCount &&
      obstacleY.Length == ObstacleCount && obstacleWidth.Length == ObstacleCount &&
      obstacleHeight.Length == ObstacleCount &&
      crackers.Length == CrackerCount && crackerX.Length == CrackerCount &&
      crackerY.Length == CrackerCount && crackerTaken.Length == CrackerCount &&
      Distinct()
    }

    /** No two of the arrays are the same array. */
    ghost predicate Distinct() {
      enemies != obstacles && enemies != crackers && obstacles != crackers &&
      enemyStartX != obstacleX && enemyStartX != obstacleY && enemyStartX != obstacleWidth &&
      enemyStartX != obstacleHeight && enemyStartX != crackerX && enemyStartX != crackerY &&
      obstacleX != obstacleY && obstacleX != obstacleWidth && obstacleX != obstacleHeight &&
      obstacleX != crackerX && obstacleX != crackerY &&
      obstacleY != obstacleWidth && obstacleY != obstacleHeight && obstacleY != crackerX && obstacleY != crackerY &&
      obstacleWidth != obstacleHeight && obstacleWidth != crackerX && obstacleWidth != crackerY &&
      obstacleHeight != crackerX && obstacleHeight != crackerY &&
      crackerX != crackerY
    }

    /** The obstacle arrays as one value. */
    ghost function ObstacleState(): (o: Obstacles)
      reads obstacles, obstacleX, obstacleY, obstacleWidth, obstacleHeight
      requires Shapes()
      ensures ObstaclesWellSized(o)
    {
      Obstacles(obstacles[..], obstacleX[..], obstacleY[..], obstacleWidth[..], obstacleHeight[..])
    }

    /** The obstacles are in the state the game keeps between moves: aligned rows three
        cells apart with `furthestObstacle` on the top-most one, one- or two-cell sizes,
        rows that run left to right, and rectangles that track the parallel arrays. */
    ghost predicate ObstacleField()
      reads this`furthestObstacle, obstacles, obstacleX, obstacleY, obstacleWidth, obstacleHeight
      requires Shapes()
    {
      ObstacleRowsOk(obstacleY[..], furthestObstacle, cellWidth, cellHeight) &&
      ObstacleShapes(ObstacleState(), cellWidth, cellHeight)
    }

    /** The cracker arrays as one value. */
    ghost function CrackerState(): (c: Crackers)
      reads crackers, crackerX, crackerY, crackerTaken
      requires Shapes()
      ensures CrackersWellSized(c)
    {
      Crackers(crackers[..], crackerX[..], crackerY[..], crackerTaken[..])
    }

    /** Crackers sit in aligned rows of three, each at least one cell after the previous,
        and each rectangle is the cell at (`crackerX[i]`, `crackerY[i]`). */
    ghost predicate CrackerField()
      reads crackers, crackerX, crackerY
      requires Shapes()
    {
      CrackersInRows(crackers[..], crackerX[..], crackerY[..], cellWidth, cellHeight)
    }

    /** The fish is one cell in one of the eight columns of its fixed row. */
    ghost predicate PlayerOk()
      reads this`fishCell
      requires Shapes()
    {
      OnColumn(fishCell.x, cellWidth) && fishCell.y == cellHeight * StartRow &&
      fishCell.w == cellWidth && fishCell.h == cellHeight
    }

    ghost predicate EnemiesOk()
      reads enemies, enemyStartX
      requires Shapes()
    {
      EnemiesShaped(enemies[..], cellWidth, cellHeight) && StartColumnsOk(enemyStartX[..])
    }

    ghost predicate InPlay()
      reads this, enemies, enemyStartX, obstacles, obstacleX, obstacleY, obstacleWidth,
        obstacleHeight, crackers, crackerX, crackerY
    {
      Shapes() && ObstacleField() && CrackerField() && PlayerOk() && EnemiesOk() &&
      moveTime >= 5 && moveTime % 5 == 0 && frames >= 0
    }

    ghost predicate Valid()
      reads this, enemies, enemyStartX, obstacles, obstacleX, obstacleY, obstacleWidth,
        obstacleHeight, crackers, crackerX, crackerY
    {
      InPlay() && forall k :: 0 <= k < EnemyCount ==> enemies[k].y >= -cellHeight
    }

    /** What the enemies' moves see. */
    ghost function ArenaNow(): (a: Arena)
      reads this`fishCell, obstacles
      requires Shapes()
      ensures ArenaOk(a)
    {
      Arena(fishCell, obstacles[..], cellWidth, cellHeight, screenWidth)
    }

    /** The cell above the player is clear of obstacles. */
    ghost predicate FreeAbove()
      reads this`fishCell, obstacles
    {
      !Blocked(fishCell.(y := fishCell.y + cellHeight), obstacles[..])
    }

    /** The enemies as the forward half of `moveUp` leaves them: one cell lower when the
        cell above the player is free, where they are otherwise. */
    ghost function ForwardEnemies(): (es: seq<Rect>)
      reads this`fishCell, enemies, obstacles
      ensures |es| == enemies.Length
    {
      if FreeAbove() then ScrollDown(enemies[..], cellHeight) else enemies[..]
    }

    /** The obstacle test that `moveUp`, `moveLeft`, `moveRight` and the enemy moves each
        run over all obstacles. */
    method HitsObstacle(r: Rect) returns (hit: bool)
      requires obstacles.Length == ObstacleCount
      ensures hit == Blocked(r, obstacles[..])
    {
      hit := false;
      for j := 0 to ObstacleCount
        invariant hit == exists k :: 0 <= k < j && Overlaps(r, obstacles[k])
      {
        if Overlaps(r, obstacles[j]) {
          hit := true;
        }
      }
    }

    /** The cracker pickup that follows every accepted move: each untaken cracker the
        fish's cell overlaps becomes taken and scores one point. */
    method PickUpCrackers(fish: Rect)
      requires Shapes()
      modifies this`points, crackerTaken
      ensures crackerTaken[..] == Pickup(old(crackerTaken[..]), crackers[..], fish)
      ensures points == old(points) + NewlyTaken(old(crackerTaken[..]), crackerTaken[..])
    {
      for i := 0 to CrackerCount
        invariant forall k :: 0 <= k < i ==>
          crackerTaken[k] == (old(crackerTaken[k]) || Overlaps(crackers[k], fish))
        invariant forall k :: i <= k < CrackerCount ==> crackerTaken[k] == old(crackerTaken[k])
        invariant points == old(points) + NewlyTaken(old(crackerTaken[..])[..i], crackerTaken[..i])
      {
        ghost var before := crackerTaken[..i];
        if Overlaps(crackers[i], fish) && !crackerTaken[i] {
          crackerTaken[i] := true;
          points := points + 1;
        }
        assert crackerTaken[..i + 1] == before + [crackerTaken[i]];
        assert old(crackerTaken[..])[..i + 1] == old(crackerTaken[..])[..i] + [old(crackerTaken[i])];
        NewlyTakenSnoc(old(crackerTaken[..])[..i], before, old(crackerTaken[i]), crackerTaken[i]);
      }
      assert crackerTaken[..CrackerCount] == crackerTaken[..];
      assert old(crackerTaken[..])[..CrackerCount] == old(crackerTaken[..]);
      assert crackerTaken[..] == Pickup(old(crackerTaken[..]), crackers[..], fish);
    }

    /** `createFish`, with the start position `fishX`, `fishY` folded in. */
    method CreateFish()
      requires Shapes()
      modifies this`fishCell
      ensures fishCell == Rect(cellWidth * StartColumn, cellHeight * StartRow, cellWidth, cellHeight)
      ensures PlayerOk()
    {
      fishCell := Rect(cellWidth * StartColumn, cellHeight * StartRow, cellWidth, cellHeight);
    }

    /** `createEnemies`: start columns 0, 2, 4, 6, every enemy one cell below the screen. */
    method CreateEnemies()
      requires Shapes()
      modifies enemies, enemyStartX
      ensures StartColumnsOk(enemyStartX[..])
      ensures forall k :: 0 <= k < EnemyCount ==>
        enemies[k] == Rect(cellWidth * enemyStartX[k], -cellHeight, cellWidth, cellHeight)
      ensures EnemiesOk()
    {
      for i := 0 to EnemyCount
        invariant forall k :: 0 <= k < i ==> enemyStartX[k] == 2 * k
      {
        enemyStartX[i] := i * 2;
      }
      enemies[0] := Rect(enemyStartX[0], -cellHeight, cellWidth, cellHeight);
      enemies[1] := Rect(cellWidth * enemyStartX[1], -cellHeight, cellWidth, cellHeight);
      enemies[2] := Rect(cellWidth * enemyStartX[2], -cellHeight, cellWidth, cellHeight);
      enemies[3] := Rect(cellWidth * enemyStartX[3], -cellHeight, cellWidth, cellHeight);
    }

    /** `createObstacles`: row `i / 4` at `RowY`, each obstacle laid out from its draw. */
    method CreateObstacles(draws: seq<ObstacleDraw>)
      requires Shapes() && ObstacleDrawsOk(draws)
      modifies obstacles, obstacleX, obstacleY, obstacleWidth, obstacleHeight
      ensures CreatedUpTo(ObstacleState(), draws, ObstacleCount, cellWidth, cellHeight)
      ensures ObstacleRowsOk(obstacleY[..], ObstacleCount - 1, cellWidth, cellHeight)
      ensures ObstacleShapes(ObstacleState(), cellWidth, cellHeight)
    {
      var currentRow := 0;
      for i := 0 to ObstacleCount
        invariant currentRow == i / ObstaclesPerRow
        invariant CreatedUpTo(ObstacleState(), draws, i, cellWidth, cellHeight)
      {
        ghost var o := ObstacleState();
        var d := draws[i];
        var xGap := cellWidth * d.gap;
        var x, y;
        if i % ObstaclesPerRow > 0 {
          x := obstacleX[i - 1] + obstacleWidth[i - 1] + xGap;
        } else {
          x := xGap;
        }
        if currentRow == 0 {
          y := cellHeight * (RowsOnScreen - 1);
        } else {
          y := cellHeight * (RowsOnScreen - 1) + currentRow * (cellHeight * ObstacleYGap);
        }
        var w, h := cellWidth * (d.width + 1), cellHeight * (d.height + 1);
        PlaceObstacle(i, x, y, w, h);
        CreatedStep(o, draws, i, x, y, w, h, cellWidth, cellHeight);
        NextIndexRow(i, ObstaclesPerRow);
        if i % ObstaclesPerRow == ObstaclesPerRow - 1 {
          currentRow := currentRow + 1;
        }
      }
      CreatedField(ObstacleState(), draws, cellWidth, cellHeight);
    }

    /** Obstacle `i` takes corner (`x`, `y`) and size `w` by `h`, in its four arrays and
        its rectangle alike. */
    method PlaceObstacle(i: int, x: int, y: int, w: int, h: int)
      requires Shapes() && 0 <= i < ObstacleCount
      modifies obstacles, obstacleX, obstacleY, obstacleWidth, obstacleHeight
      ensures ObstacleState() == SetObstacle(old(ObstacleState()), i, Rect(x, y, w, h), x, y, w, h)
    {
      obstacleX[i] := x;
      obstacleY[i] := y;
      obstacleWidth[i] := w;
      obstacleHeight[i] := h;
      obstacles[i] := Rect(x, y, w, h);
    }

    /** `createCrackers`: row `i / 3` at `CrackerRowY`, each cracker untaken and laid out
        from its draw. */
    method CreateCrackers(draws: seq<int>)
      requires Shapes() && CrackerDrawsOk(draws)
      modifies crackers, crackerX, crackerY, crackerTaken
      ensures CrackersCreatedUpTo(CrackerState(), draws, CrackerCount, cellWidth, cellHeight)
      ensures CrackerField() && forall k :: 0 <= k < CrackerCount ==> !crackerTaken[k]
    {
      var currentRow := 0;
      for i := 0 to CrackerCount
        invariant currentRow == i / CrackersPerRow
        invariant CrackersCreatedUpTo(CrackerState(), draws, i, cellWidth, cellHeight)
      {
        ghost var c := CrackerState();
        crackerTaken[i] := false;
        var xGap := cellWidth * (draws[i] + 1);
        if i % CrackersPerRow > 0 {
          crackerX[i] := crackerX[i - 1] + xGap;
        } else {
          crackerX[i] := xGap;
        }
        if currentRow == 0 {
          crackerY[i] := cellHeight * (RowsOnScreen - 1);
        } else {
          crackerY[i] := cellHeight * (RowsOnScreen - 1) + currentRow * (cellHeight * CrackerYGap);
        }
        crackers[i] := Rect(crackerX[i], crackerY[i], cellWidth, cellHeight);
        CrackerCreatedStep(c, draws, i, crackerX[i], crackerY[i], cellWidth, cellHeight);
        assert CrackerState() == SetCracker(c, i, crackers[i], crackerX[i], crackerY[i], false);
        NextIndexRow(i, CrackersPerRow);
        if i % CrackersPerRow == CrackersPerRow - 1 {
          currentRow := currentRow + 1;
        }
      }
      CrackersCreatedField(CrackerState(), draws, cellWidth, cellHeight);
    }

    /** `recreateObstacle`: obstacle `i` is laid out again from draw `d`, as `Relaid`
        describes. */
    method RecreateObstacle(i: int, d: ObstacleDraw)
      requires Shapes() && 0 <= i < ObstacleCount
      modifies obstacles, obstacleX, obstacleWidth, obstacleHeight
      ensures ObstacleState() == Relaid(old(ObstacleState()), i, d, cellWidth, cellHeight)
    {
      var xGap := cellWidth * d.gap;
      if i % ObstaclesPerRow > 0 {
        obstacleX[i] := obstacleX[i - 1] + obstacleWidth[i - 1] + xGap;
      } else {
        obstacleX[i] := xGap;
      }
      obstacleWidth[i] := cellWidth * (d.width + 1);
      obstacleHeight[i] := cellHeight * (d.height + 1);
      obstacles[i] := Rect(obstacleX[i], obstacles[i].y, obstacleWidth[i], obstacleHeight[i]);
    }

    /** The body of `moveObstacles`' loop for obstacle `i`, as `ScrollAt` describes it. */
    method MoveObstacle(i: int, d: ObstacleDraw)
      requires Shapes() && 0 <= i < ObstacleCount && 0 <= furthestObstacle < ObstacleCount
      modifies obstacles, obstacleX, obstacleY, obstacleWidth, obstacleHeight, this`furthestObstacle
      ensures (ObstacleState(), furthestObstacle) ==
        ScrollAt(old(ObstacleState()), old(furthestObstacle), i, d, cellWidth, cellHeight)
    {
      ghost var o := ObstacleState();
      obstacleY[i] := obstacleY[i] - cellHeight;
      obstacles[i] := obstacles[i].(x := obstacleX[i], y := obstacleY[i]);
      ghost var moved := ObstacleState();
      assert moved == o.(ys := o.ys[i := o.ys[i] - cellHeight],
        rects := o.rects[i := o.rects[i].(x := o.xs[i], y := o.ys[i] - cellHeight)]);
      if obstacleY[i] < 0 - cellWidth * ObstacleYGap {
        obstacleY[i] := obstacleY[furthestObstacle] + cellHeight * ObstacleYGap;
        ghost var behind := moved.(ys := moved.ys[i := obstacleY[i]]);
        assert ObstacleState() == behind;
        RecreateObstacle(i, d);
        if i % ObstaclesPerRow == ObstaclesPerRow - 1 {
          furthestObstacle := i;
        }
        assert ObstacleState() == Relaid(behind, i, d, cellWidth, cellHeight);
      }
    }

    /** `moveObstacles`: every obstacle moves down one cell, and rows more than three
        cell widths below the screen are recycled three cells behind the furthest row.
        The obstacles end up as `ObstaclesScrolled` describes, their rows' y as `IsScroll`
        describes, and the field keeps the invariant of `ObstacleField`. */
    method MoveObstacles(draws: seq<ObstacleDraw>)
      requires Shapes() && ObstacleDrawsOk(draws) && ObstacleField()
      modifies obstacles, obstacleX, obstacleY, obstacleWidth, obstacleHeight, this`furthestObstacle
      ensures ObstaclesScrolled(old(ObstacleState()), old(furthestObstacle), ObstacleState(), furthestObstacle,
        draws, cellWidth, cellHeight)
      ensures IsScroll(old(obstacleY[..]), old(furthestObstacle), obstacleY[..], furthestObstacle, cellWidth, cellHeight)
      ensures ObstacleField()
    {
      ghost var o0, f0 := ObstacleState(), furthestObstacle;
      for i := 0 to ObstacleCount
        invariant (ObstacleState(), furthestObstacle) == ScrollPrefix(o0, f0, draws, i, cellWidth, cellHeight)
      {
        MoveObstacle(i, draws[i]);
      }
      ScrollPrefixScrolled(o0, f0, draws, ObstacleCount, cellWidth, cellHeight);
      ScrolledField(o0, f0, ObstacleState(), furthestObstacle, draws, cellWidth, cellHeight);
    }

    /** `recreateCracker`: cracker `i` is recreated from draw `d`, as `Recrafted` describes. */
    method RecreateCracker(i: int, d: int)
      requires Shapes() && 0 <= i < CrackerCount
      modifies crackers, crackerX, crackerTaken
      ensures CrackerState() == Recrafted(old(CrackerState()), i, d, cellWidth, cellHeight)
    {
      crackerTaken[i] := false;
      var xGap := cellWidth * (d + 1);
      if i % CrackersPerRow > 0 {
        crackerX[i] := crackerX[i - 1] + cellWidth + xGap;
      } else {
        crackerX[i] := xGap;
      }
      crackers[i] := Rect(crackerX[i], crackerY[i], cellWidth, cellHeight);
    }

    /** The body of `moveCrackers`' loop for cracker `i`, as `CrackerScrollAt` describes it. */
    method MoveCracker(i: int, d: int)
      requires Shapes() && 0 <= i < CrackerCount && 0 <= furthestObstacle < ObstacleCount
      modifies crackers, crackerX, crackerY, crackerTaken
      ensures CrackerState() ==
        CrackerScrollAt(old(CrackerState()), obstacleY[furthestObstacle], i, d, cellWidth, cellHeight)
    {
      ghost var c := CrackerState();
      crackerY[i] := crackerY[i] - cellHeight;
      crackers[i] := crackers[i].(x := crackerX[i], y := crackerY[i]);
      ghost var moved := CrackerState();
      assert moved == c.(ys := c.ys[i := c.ys[i] - cellHeight],
        rects := c.rects[i := c.rects[i].(x := c.xs[i], y := c.ys[i] - cellHeight)]);
      if crackerY[i] < 0 - cellHeight * CrackerYGap {
        crackerY[i] := obstacleY[furthestObstacle] + cellHeight * CrackerYGap;
        assert CrackerState() == moved.(ys := moved.ys[i := obstacleY[furthestObstacle] + cellHeight * CrackerYGap]);
        RecreateCracker(i, d);
      }
    }

    /** `moveCrackers`: every cracker moves down one cell; a row that ends up more than
        three cells below the screen goes three cells above the furthest obstacle row and
        is laid out again, untaken. */
    method MoveCrackers(draws: seq<int>)
      requires Shapes() && CrackerDrawsOk(draws) && CrackerField() && 0 <= furthestObstacle < ObstacleCount
      modifies crackers, crackerX, crackerY, crackerTaken
      ensures CrackersScrolled(old(CrackerState()), CrackerState(), draws, obstacleY[furthestObstacle],
        cellWidth, cellHeight)
      ensures CrackerField()
    {
      ghost var c0 := CrackerState();
      for i := 0 to CrackerCount
        invariant CrackerState() == CrackerScrollPrefix(c0, obstacleY[furthestObstacle], draws, i, cellWidth, cellHeight)
      {
        MoveCracker(i, draws[i]);
      }
      CrackerScrollPrefixScrolled(c0, obstacleY[furthestObstacle], draws, CrackerCount, cellWidth, cellHeight);
      CrackersScrolledField(c0, CrackerState(), draws, obstacleY[furthestObstacle], cellWidth, cellHeight);
    }

    /** `enemyLeft`: enemy `i` steps one column left, wrapping, unless blocked. */
    method EnemyLeft(i: int)
      requires Shapes() && 0 <= i < EnemyCount && OnEnemyColumn(enemies[i].x, cellWidth)
      modifies enemies
      ensures enemies[..] == old(enemies[..])[i := StepLeft(ArenaNow(), old(enemies[i]))]
    {
      var wrapped := false;
      if enemies[i].x - cellWidth < 0 {
        enemies[i] := enemies[i].(x := enemies[i].x + cellWidth * (Columns - 1));
        wrapped := true;
      } else {
        enemies[i] := enemies[i].(x := enemies[i].x - cellWidth);
      }
      var hit := HitsObstacle(enemies[i]);
      if hit {
        if wrapped {
          enemies[i] := enemies[i].(x := 0);
        } else {
          enemies[i] := enemies[i].(x := enemies[i].x + cellWidth);
        }
      }
    }

    /** `enemyRight`: enemy `i` steps one column right, wrapping beyond the edge, unless
        blocked. */
    method EnemyRight(i: int)
      requires Shapes() && 0 <= i < EnemyCount && OnEnemyColumn(enemies[i].x, cellWidth)
      modifies enemies
      ensures enemies[..] == old(enemies[..])[i := StepRight(ArenaNow(), old(enemies[i]))]
    {
      var wrapped := false;
      if enemies[i].x + cellWidth > screenWidth {
        enemies[i] := enemies[i].(x := 0);
        wrapped := true;
      } else {
        enemies[i] := enemies[i].(x := enemies[i].x + cellWidth);
      }
      var hit := HitsObstacle(enemies[i]);
      if hit {
        if wrapped {
          enemies[i] := enemies[i].(x := cellWidth * (Columns - 1));
        } else {
          enemies[i] := enemies[i].(x := enemies[i].x - cellWidth);
        }
      }
    }

    /** `enemyForward`: enemy `i` moves one cell up, or, when blocked, moves back and steps
        toward the player's column. */
    method EnemyForward(i: int)
      requires Shapes() && 0 <= i < EnemyCount && OnEnemyColumn(enemies[i].x, cellWidth)
      modifies enemies
      ensures enemies[..] == old(enemies[..])[i := StepForward(ArenaNow(), old(enemies[i]))]
    {
      enemies[i] := enemies[i].(y := enemies[i].y + cellHeight);
      var hit := HitsObstacle(enemies[i]);
      if hit {
        enemies[i] := enemies[i].(y := enemies[i].y - cellHeight);
        if enemies[i].x > fishCell.x {
          EnemyLeft(i);
        } else if enemies[i].x < fishCell.x {
          EnemyRight(i);
        }
      }
    }

    /** `resetEnemy`: enemy `i` goes back to its start column, one cell below the screen. */
    method ResetEnemy(i: int)
      requires Shapes() && 0 <= i < EnemyCount && StartColumnsOk(enemyStartX[..])
      modifies enemies
      ensures enemies[..] == old(enemies[..])[i := old(enemies[i]).(x := cellWidth * enemyStartX[i], y := -cellHeight)]
    {
      if i == 0 {
        enemies[0] := enemies[0].(x := enemyStartX[0], y := -cellHeight);
      } else if i == 1 {
        enemies[1] := enemies[1].(x := cellWidth * enemyStartX[1], y := -cellHeight);
      } else if i == 2 {
        enemies[2] := enemies[2].(x := cellWidth * enemyStartX[2], y := -cellHeight);
      } else {
        enemies[3] := enemies[3].(x := cellWidth * enemyStartX[3], y := -cellHeight);
      }
    }

    /** The chase step of `moveEnemies`' loop for enemy `i`: forward while below the
        player, otherwise sideways the shorter way round. */
    method ChaseEnemy(i: int)
      requires Shapes() && 0 <= i < EnemyCount && OnEnemyColumn(enemies[i].x, cellWidth)
      modifies enemies
      ensures enemies[..] == old(enemies[..])[i := Chase(ArenaNow(), old(enemies[i]))]
    {
      var half := screenWidth / 2;
      var e := enemies[i];
      if e.y < fishCell.y {
        EnemyForward(i);
      } else if (e.x > fishCell.x && e.x - fishCell.x <= half) || fishCell.x - e.x > half {
        EnemyLeft(i);
      } else if (e.x < fishCell.x && fishCell.x - e.x <= half) || e.x - fishCell.x > half {
        EnemyRight(i);
      }
    }

    /** The body of `moveEnemies`' loop for enemy `i`: it chases the player, catches it
        when it then overlaps the player's cell, and is reset once it has fallen behind. */
    method MoveEnemy(i: int)
      requires Shapes() && EnemiesOk() && 0 <= i < EnemyCount
      modifies enemies, this`eaten
      ensures enemies[..] == old(enemies[..])[i := Settle(ArenaNow(), Chase(ArenaNow(), old(enemies[i])), i, enemyStartX[i])]
      ensures eaten == (old(eaten) || Overlaps(Chase(ArenaNow(), old(enemies[i])), fishCell))
    {
      ChaseEnemy(i);
      if Overlaps(enemies[i], fishCell) {
        eaten := true;
      }
      if enemies[i].y < -cellHeight {
        ResetEnemy(i);
      }
    }

    /** `moveEnemies`: one pursuit pass over the enemies, and a second one (by re-entry)
        on the first call in a step whose move count is a multiple of `JumpTime`. The
        player is eaten once some enemy overlaps it right after its own move. */
    method MoveEnemies()
      requires Shapes() && EnemiesOk()
      modifies enemies, this`eaten, this`jumped
      ensures EnemiesOk() && forall k :: 0 <= k < EnemyCount ==> enemies[k].y >= -cellHeight
      ensures enemies[..] == Pursue(ArenaNow(), old(enemies[..]), enemyStartX[..], moves % JumpTime == 0 && !old(jumped))
      ensures eaten == (old(eaten) || CaughtIn(ArenaNow(), old(enemies[..]), enemyStartX[..], moves % JumpTime == 0 && !old(jumped)))
      ensures jumped == (moves % JumpTime == 0)
      decreases if jumped then 0 else 1
    {
      ghost var a, es0, sx := ArenaNow(), enemies[..], enemyStartX[..];
      for i := 0 to EnemyCount
        invariant enemies[..] == PassUpTo(a, es0, sx, i)
        invariant eaten == (old(eaten) || CatchesUpTo(a, es0, i))
        invariant jumped == old(jumped)
      {
        PassUpToStep(a, es0, sx, i);
        MoveEnemy(i);
      }
      if moves % JumpTime == 0 && !jumped {
        jumped := true;
        MoveEnemies();
      }
      if moves % JumpTime != 0 && jumped {
        jumped := false;
      }
    }

    /** `moveEnemies` as the second half of `moveUp`: it takes the game from the state
        the forward half leaves, where scrolled enemies may be two cells below the
        screen, back to a valid state. */
    method PursueStep(ghost es0: seq<Rect>, ghost eaten0: bool, ghost jumped0: bool)
      requires InPlay() && es0 == enemies[..] && eaten0 == eaten && jumped0 == jumped
      modifies enemies, this`eaten, this`jumped
      ensures Valid()
      ensures enemies[..] == Pursue(ArenaNow(), es0, enemyStartX[..], moves % JumpTime == 0 && !jumped0)
      ensures eaten == (eaten0 || CaughtIn(ArenaNow(), es0, enemyStartX[..], moves % JumpTime == 0 && !jumped0))
      ensures jumped == (moves % JumpTime == 0)
      ensures moves == old(moves) && movesLeft == old(movesLeft)
      ensures ObstacleState() == old(ObstacleState()) && CrackerState() == old(CrackerState())
      ensures furthestObstacle == old(furthestObstacle) && points == old(points)
    {
      MoveEnemies();
    }

    /** The forward half of `moveUp`, as `TryForward` describes it: one move is counted
        exactly when the cell above the player is free, and the game stays in play. */
    method ForwardStep(oDraws: seq<ObstacleDraw>, cDraws: seq<int>)
      requires InPlay() && ObstacleDrawsOk(oDraws) && CrackerDrawsOk(cDraws)
      modifies enemies, obstacles, obstacleX, obstacleY, obstacleWidth, obstacleHeight,
        crackers, crackerX, crackerY, crackerTaken,
        this`furthestObstacle, this`points, this`fishDirection, this`moves, this`movesLeft
      ensures InPlay()
      ensures enemies[..] == old(ForwardEnemies())
      ensures old(FreeAbove()) ==> moves == old(moves) + 1 && movesLeft == old(movesLeft) - 1
      ensures !old(FreeAbove()) ==> moves == old(moves) && movesLeft == old(movesLeft)
      ensures !old(FreeAbove()) ==>
        ObstacleState() == old(ObstacleState()) && CrackerState() == old(CrackerState()) &&
        furthestObstacle == old(furthestObstacle) && points == old(points)
      ensures old(FreeAbove()) ==>
        ObstaclesScrolled(old(ObstacleState()), old(furthestObstacle), ObstacleState(), furthestObstacle,
          oDraws, cellWidth, cellHeight)
      ensures old(FreeAbove()) ==>
        var up := old(fishCell).(y := old(fishCell).y + cellHeight);
        CrackersScrolled(old(CrackerState()).(taken := Pickup(old(crackerTaken[..]), old(crackers[..]), up)),
          CrackerState(), cDraws, obstacleY[furthestObstacle], cellWidth, cellHeight) &&
        points == old(points) + NewlyTaken(old(crackerTaken[..]), Pickup(old(crackerTaken[..]), old(crackers[..]), up))
    {
      TryForward(oDraws, cDraws);
    }

    /** The enemies move down one cell with the scrolling world. */
    method ScrollEnemies()
      requires Shapes() && EnemiesOk()
      modifies enemies
      ensures EnemiesOk()
      ensures enemies[..] == ScrollDown(old(enemies[..]), cellHeight)
    {
      for i := 0 to EnemyCount
        invariant forall k :: 0 <= k < i ==> enemies[k] == old(enemies[k]).(y := old(enemies[k]).y - cellHeight)
        invariant forall k :: i <= k < EnemyCount ==> enemies[k] == old(enemies[k])
      {
        enemies[i] := enemies[i].(y := enemies[i].y - cellHeight);
      }
    }

    /** The world scrolls down one cell: the enemies with it, and the obstacles as
        `moveObstacles` moves them. */
    method ScrollWorld(oDraws: seq<ObstacleDraw>)
      requires Shapes() && ObstacleField() && EnemiesOk() && ObstacleDrawsOk(oDraws)
      modifies enemies, obstacles, obstacleX, obstacleY, obstacleWidth, obstacleHeight, this`furthestObstacle
      ensures ObstacleField() && EnemiesOk()
      ensures enemies[..] == ScrollDown(old(enemies[..]), cellHeight)
      ensures ObstaclesScrolled(old(ObstacleState()), old(furthestObstacle), ObstacleState(), furthestObstacle,
        oDraws, cellWidth, cellHeight)
    {
      ScrollEnemies();
      MoveObstacles(oDraws);
    }

    /** The fish, on cell `fish`, picks up what it overlaps, then the crackers scroll down
        as `moveCrackers` moves them. */
    method CollectAndScrollCrackers(fish: Rect, cDraws: seq<int>)
      requires Shapes() && CrackerField() && CrackerDrawsOk(cDraws) && 0 <= furthestObstacle < ObstacleCount
      modifies crackers, crackerX, crackerY, crackerTaken, this`points
      ensures CrackerField()
      ensures CrackersScrolled(old(CrackerState()).(taken := Pickup(old(crackerTaken[..]), old(crackers[..]), fish)),
        CrackerState(), cDraws, obstacleY[furthestObstacle], cellWidth, cellHeight)
      ensures points == old(points) + NewlyTaken(old(crackerTaken[..]), Pickup(old(crackerTaken[..]), old(crackers[..]), fish))
    {
      PickUpCrackers(fish);
      MoveCrackers(cDraws);
    }

    /** The second half of a forward move: the crackers as `CollectAndScrollCrackers`
        describes, then the move is counted and the fish faces up. */
    method CollectAndCount(fish: Rect, cDraws: seq<int>)
      requires Shapes() && CrackerField() && CrackerDrawsOk(cDraws) && 0 <= furthestObstacle < ObstacleCount
      modifies crackers, crackerX, crackerY, crackerTaken, this`points, this`fishDirection, this`moves, this`movesLeft
      ensures CrackerField()
      ensures CrackersScrolled(old(CrackerState()).(taken := Pickup(old(crackerTaken[..]), old(crackers[..]), fish)),
        CrackerState(), cDraws, obstacleY[furthestObstacle], cellWidth, cellHeight)
      ensures points == old(points) + NewlyTaken(old(crackerTaken[..]), Pickup(old(crackerTaken[..]), old(crackers[..]), fish))
      ensures moves == old(moves) + 1 && movesLeft == old(movesLeft) - 1 && fishDirection == Up
    {
      CollectAndScrollCrackers(fish, cDraws);
      CountForwardMove();
    }

    /** One forward move is counted and the fish faces up. */
    method CountForwardMove()
      modifies this`fishDirection, this`moves, this`movesLeft
      ensures moves == old(moves) + 1 && movesLeft == old(movesLeft) - 1 && fishDirection == Up
    {
      fishDirection := Up;
      moves := moves + 1;
      movesLeft := movesLeft - 1;
    }

    /** The part of `moveUp` that runs when the cell above the player is free, with the
        fish on that cell `fish`: the enemies and the obstacles scroll down, the fish picks up
        what it overlaps, the crackers scroll down, and one forward move is counted. */
    method Advance(fish: Rect, oDraws: seq<ObstacleDraw>, cDraws: seq<int>)
      requires Shapes() && ObstacleField() && CrackerField() && EnemiesOk()
      requires ObstacleDrawsOk(oDraws) && CrackerDrawsOk(cDraws)
      modifies enemies, obstacles, obstacleX, obstacleY, obstacleWidth, obstacleHeight,
        crackers, crackerX, crackerY, crackerTaken,
        this`furthestObstacle, this`points, this`fishDirection, this`moves, this`movesLeft
      ensures ObstacleField() && CrackerField() && EnemiesOk()
      ensures enemies[..] == ScrollDown(old(enemies[..]), cellHeight)
      ensures ObstaclesScrolled(old(ObstacleState()), old(furthestObstacle), ObstacleState(), furthestObstacle,
        oDraws, cellWidth, cellHeight)
      ensures CrackersScrolled(old(CrackerState()).(taken := Pickup(old(crackerTaken[..]), old(crackers[..]), fish)),
        CrackerState(), cDraws, obstacleY[furthestObstacle], cellWidth, cellHeight)
      ensures points == old(points) + NewlyTaken(old(crackerTaken[..]), Pickup(old(crackerTaken[..]), old(crackers[..]), fish))
      ensures moves == old(moves) + 1 && movesLeft == old(movesLeft) - 1 && fishDirection == Up
    {
      ScrollWorld(oDraws);
      CollectAndCount(fish, cDraws);
    }

    /** The player tries the cell above its own. When an obstacle is there nothing
        changes; otherwise the world advances as `Advance` describes with the fish on that
        cell, and the fish is back on its own cell afterwards. */
    method TryForward(oDraws: seq<ObstacleDraw>, cDraws: seq<int>)
      requires Shapes() && ObstacleField() && CrackerField() && EnemiesOk()
      requires ObstacleDrawsOk(oDraws) && CrackerDrawsOk(cDraws)
      modifies enemies, obstacles, obstacleX, obstacleY, obstacleWidth, obstacleHeight,
        crackers, crackerX, crackerY, crackerTaken,
        this`furthestObstacle, this`points, this`fishDirection, this`moves, this`movesLeft
      ensures ObstacleField() && CrackerField() && EnemiesOk()
      ensures !old(FreeAbove()) ==>
        unchanged(enemies, obstacles, obstacleX, obstacleY, obstacleWidth, obstacleHeight) &&
        unchanged(crackers, crackerX, crackerY, crackerTaken) &&
        unchanged(this`furthestObstacle, this`points, this`fishDirection, this`moves, this`movesLeft)
      ensures old(FreeAbove()) ==> enemies[..] == ScrollDown(old(enemies[..]), cellHeight)
      ensures old(FreeAbove()) ==>
        ObstaclesScrolled(old(ObstacleState()), old(furthestObstacle), ObstacleState(), furthestObstacle,
          oDraws, cellWidth, cellHeight)
      ensures old(FreeAbove()) ==>
        var up := old(fishCell).(y := old(fishCell).y + cellHeight);
        CrackersScrolled(old(CrackerState()).(taken := Pickup(old(crackerTaken[..]), old(crackers[..]), up)),
          CrackerState(), cDraws, obstacleY[furthestObstacle], cellWidth, cellHeight) &&
        points == old(points) + NewlyTaken(old(crackerTaken[..]), Pickup(old(crackerTaken[..]), old(crackers[..]), up))
      ensures old(FreeAbove()) ==>
        moves == old(moves) + 1 && movesLeft == old(movesLeft) - 1 && fishDirection == Up
    {
      var up := fishCell.(y := fishCell.y + cellHeight);
      var hit := HitsObstacle(up);
      if !hit {
        Advance(up, oDraws, cDraws);
      }
    }

    /** The body of `moveUp` while the game runs: the forward half as `ForwardStep`
        describes, then the pursuit as `PursueStep` describes, on the enemies the forward
        half has scrolled down (or not, when the cell above is blocked). */
    method ForwardAndPursue(oDraws: seq<ObstacleDraw>, cDraws: seq<int>)
      requires Valid() && ObstacleDrawsOk(oDraws) && CrackerDrawsOk(cDraws)
      modifies enemies, obstacles, obstacleX, obstacleY, obstacleWidth, obstacleHeight,
        crackers, crackerX, crackerY, crackerTaken, this`furthestObstacle, this`points, this`fishDirection,
        this`moves, this`movesLeft, this`eaten, this`jumped
      ensures Valid()
      ensures jumped == (moves % JumpTime == 0)
      ensures old(FreeAbove()) ==> moves == old(moves) + 1 && movesLeft == old(movesLeft) - 1
      ensures !old(FreeAbove()) ==> moves == old(moves) && movesLeft == old(movesLeft)
      ensures enemies[..] == Pursue(ArenaNow(), old(ForwardEnemies()), enemyStartX[..], moves % JumpTime == 0 && !old(jumped))
      ensures eaten == (old(eaten) || CaughtIn(ArenaNow(), old(ForwardEnemies()), enemyStartX[..], moves % JumpTime == 0 && !old(jumped)))
      ensures !old(FreeAbove()) ==>
        ObstacleState() == old(ObstacleState()) && CrackerState() == old(CrackerState()) &&
        furthestObstacle == old(furthestObstacle) && points == old(points)
      ensures old(FreeAbove()) ==>
        ObstaclesScrolled(old(ObstacleState()), old(furthestObstacle), ObstacleState(), furthestObstacle,
          oDraws, cellWidth, cellHeight)
      ensures old(FreeAbove()) ==>
        var up := old(fishCell).(y := old(fishCell).y + cellHeight);
        CrackersScrolled(old(CrackerState()).(taken := Pickup(old(crackerTaken[..]), old(crackers[..]), up)),
          CrackerState(), cDraws, obstacleY[furthestObstacle], cellWidth, cellHeight) &&
        points == old(points) + NewlyTaken(old(crackerTaken[..]), Pickup(old(crackerTaken[..]), old(crackers[..]), up))
    {
      ForwardStep(oDraws, cDraws);
      PursueStep(old(ForwardEnemies()), old(eaten), old(jumped));
    }

    /** `moveUp`: while the game runs, the player tries the cell above as `TryForward`
        describes, and then, blocked or not, the enemies pursue as `MoveEnemies`
        describes. Once the game is over (no moves left, or eaten) nothing changes. */
    method MoveUp(oDraws: seq<ObstacleDraw>, cDraws: seq<int>)
      requires Valid() && ObstacleDrawsOk(oDraws) && CrackerDrawsOk(cDraws)
      modifies enemies, obstacles, obstacleX, obstacleY, obstacleWidth, obstacleHeight,
        crackers, crackerX, crackerY, crackerTaken, this`furthestObstacle, this`points, this`fishDirection,
        this`moves, this`movesLeft, this`eaten, this`jumped
      ensures Valid()
      ensures old(movesLeft) > 0 && !old(eaten) ==> jumped == (moves % JumpTime == 0)
      ensures old(movesLeft) > 0 && !old(eaten) && old(FreeAbove()) ==>
        moves == old(moves) + 1 && movesLeft == old(movesLeft) - 1
      ensures !(old(movesLeft) > 0 && !old(eaten) && old(FreeAbove())) ==>
        moves == old(moves) && movesLeft == old(movesLeft)
      ensures !(old(movesLeft) > 0 && !old(eaten)) ==> jumped == old(jumped) && eaten == old(eaten)
      ensures old(movesLeft) > 0 && !old(eaten) ==>
        enemies[..] == Pursue(ArenaNow(), old(ForwardEnemies()), enemyStartX[..], moves % JumpTime == 0 && !old(jumped)) &&
        eaten == CaughtIn(ArenaNow(), old(ForwardEnemies()), enemyStartX[..], moves % JumpTime == 0 && !old(jumped))
      ensures fishCell == old(fishCell)
    {
      if movesLeft > 0 && !eaten {
        ForwardAndPursue(oDraws, cDraws);
      }
    }

    /** The player is on the cell it has tried to enter, and `back` is the cell
        it came from: when an obstacle is there it goes back; otherwise it picks up what it
        overlaps and faces `dir`. */
    method SettleSideways(back: Rect, dir: Direction)
      requires Shapes()
      modifies this`fishCell, this`points, this`fishDirection, crackerTaken
      ensures Blocked(old(fishCell), obstacles[..]) ==>
        fishCell == back && points == old(points) && fishDirection == old(fishDirection) && unchanged(crackerTaken)
      ensures !Blocked(old(fishCell), obstacles[..]) ==>
        fishCell == old(fishCell) && fishDirection == dir &&
        crackerTaken[..] == Pickup(old(crackerTaken[..]), crackers[..], fishCell) &&
        points == old(points) + NewlyTaken(old(crackerTaken[..]), crackerTaken[..])
    {
      var hit := HitsObstacle(fishCell);
      if hit {
        fishCell := back;
      } else {
        PickUpCrackers(fishCell);
        fishDirection := dir;
      }
    }

    /** `moveLeft`: while the game runs, the fish tries the column to its left, from the
        left-most column the right-most one; it stays where it is when an obstacle is there,
        and otherwise moves, picks up what it overlaps and faces left. The enemies do not
        move. */
    method MoveLeft()
      requires Valid()
      modifies this`fishCell, this`points, this`fishDirection, crackerTaken
      ensures Valid()
      ensures var target := old(fishCell).(x := PlayerLeftX(old(fishCell).x, cellWidth));
        old(movesLeft) > 0 && !old(eaten) && !Blocked(target, obstacles[..]) ==>
          fishCell == target && fishDirection == Left &&
          crackerTaken[..] == Pickup(old(crackerTaken[..]), crackers[..], target) &&
          points == old(points) + NewlyTaken(old(crackerTaken[..]), crackerTaken[..])
      ensures var target := old(fishCell).(x := PlayerLeftX(old(fishCell).x, cellWidth));
        !(old(movesLeft) > 0 && !old(eaten) && !Blocked(target, obstacles[..])) ==>
          unchanged(this`fishCell, this`points, this`fishDirection, crackerTaken)
    {
      if movesLeft > 0 && !eaten {
        var back := fishCell;
        if fishCell.x - cellWidth >= 0 {
          fishCell := fishCell.(x := fishCell.x - cellWidth);
        } else {
          fishCell := fishCell.(x := cellWidth * (Columns - 1));
          back := fishCell.(x := 0);
        }
        SettleSideways(back, Left);
      }
    }

    /** `moveRight`: while the game runs, the fish tries the column to its right, from the
        right-most column the left-most one; it stays where it is when an obstacle is there,
        and otherwise moves, picks up what it overlaps and faces right. The enemies do not
        move. */
    method MoveRight()
      requires Valid()
      modifies this`fishCell, this`points, this`fishDirection, crackerTaken
      ensures Valid()
      ensures var target := old(fishCell).(x := PlayerRightX(old(fishCell).x, cellWidth, screenWidth));
        old(movesLeft) > 0 && !old(eaten) && !Blocked(target, obstacles[..]) ==>
          fishCell == target && fishDirection == Right &&
          crackerTaken[..] == Pickup(old(crackerTaken[..]), crackers[..], target) &&
          points == old(points) + NewlyTaken(old(crackerTaken[..]), crackerTaken[..])
      ensures var target := old(fishCell).(x := PlayerRightX(old(fishCell).x, cellWidth, screenWidth));
        !(old(movesLeft) > 0 && !old(eaten) && !Blocked(target, obstacles[..])) ==>
          unchanged(this`fishCell, this`points, this`fishDirection, crackerTaken)
    {
      if movesLeft > 0 && !eaten {
        var back := fishCell;
        if fishCell.x + cellWidth < screenWidth {
          fishCell := fishCell.(x := fishCell.x + cellWidth);
        } else {
          fishCell := fishCell.(x := 0);
          back := fishCell.(x := cellWidth * (Columns - 1));
        }
        SettleSideways(back, Right);
      }
    }

    /** The loop at the end of `restart` that marks every cracker as not taken. */
    method ClearCrackers()
      requires Shapes()
      modifies crackerTaken
      ensures forall k :: 0 <= k < CrackerCount ==> !crackerTaken[k]
    {
      for i := 0 to CrackerCount
        invariant forall k :: 0 <= k < i ==> !crackerTaken[k]
      {
        crackerTaken[i] := false;
      }
    }

    /** `createCrackers` followed by the clearing loop: the crackers are laid out from the
        draws and none is taken. */
    method CreateCrackerField(cDraws: seq<int>)
      requires Shapes() && CrackerDrawsOk(cDraws)
      modifies crackers, crackerX, crackerY, crackerTaken
      ensures CrackersCreatedUpTo(CrackerState(), cDraws, CrackerCount, cellWidth, cellHeight)
      ensures CrackerField()
    {
      CreateCrackers(cDraws);
      ghost var created := crackerTaken[..];
      ClearCrackers();
      assert crackerTaken[..] == created;
    }

    /** The objects `restart` creates: the fish on its start cell, the enemies below their
        start columns, and a new obstacle and cracker field laid out from the draws, with
        nothing taken. */
    method CreateWorld(oDraws: seq<ObstacleDraw>, cDraws: seq<int>)
      requires Shapes() && ObstacleDrawsOk(oDraws) && CrackerDrawsOk(cDraws)
      modifies this`fishCell, enemies, enemyStartX, obstacles, obstacleX, obstacleY, obstacleWidth,
        obstacleHeight, crackers, crackerX, crackerY, crackerTaken
      ensures fishCell == Rect(cellWidth * StartColumn, cellHeight * StartRow, cellWidth, cellHeight)
      ensures forall k :: 0 <= k < EnemyCount ==>
        enemies[k] == Rect(cellWidth * 2 * k, -cellHeight, cellWidth, cellHeight)
      ensures CreatedUpTo(ObstacleState(), oDraws, ObstacleCount, cellWidth, cellHeight)
      ensures CrackersCreatedUpTo(CrackerState(), cDraws, CrackerCount, cellWidth, cellHeight)
      ensures PlayerOk() && EnemiesOk() && CrackerField()
      ensures ObstacleRowsOk(obstacleY[..], ObstacleCount - 1, cellWidth, cellHeight)
      ensures ObstacleShapes(ObstacleState(), cellWidth, cellHeight)
    {
      CreateActors();
      CreateObstacles(oDraws);
      CreateCrackerField(cDraws);
    }

    /** The score and level bookkeeping of `restart`: after a loss the high score takes
        the points if they beat it and points and level start over; either way the level
        goes up by one, the move counters and the furthest obstacle row are reset and the
        step time changes as `RestartMoveTime` says. */
    method ResetProgress()
      requires moveTime >= 5 && moveTime % 5 == 0
      modifies this`highScore, this`points, this`level, this`moveTime, this`movesLeft, this`moves,
        this`eaten, this`furthestObstacle
      ensures moveTime == RestartMoveTime(old(eaten), old(moveTime))
      ensures old(eaten) ==>
        highScore == (if old(points) > old(highScore) then old(points) else old(highScore)) &&
        points == 0 && level == 1
      ensures !old(eaten) ==> highScore == old(highScore) && points == old(points) && level == old(level) + 1
      ensures movesLeft == Goal && moves == 0 && !eaten && furthestObstacle == ObstacleCount - 1
    {
      if eaten {
        if points > highScore {
          highScore := points;
        }
        points := 0;
        level := 0;
        moveTime := 70;
      }
      level := level + 1;
      movesLeft := Goal;
      moves := 0;
      eaten := false;
      furthestObstacle := ObstacleCount - 1;
      moveTime := moveTime - 10;
      if moveTime <= 20 {
        moveTime := moveTime + 5;
        if moveTime <= 0 {
          moveTime := 5;
        }
      }
    }

    /** `restart`: the bookkeeping of `ResetProgress`, then a new world as `CreateWorld`
        lays it out. The frame counter, the jump flag and the fish's facing carry over. */
    method Restart(oDraws: seq<ObstacleDraw>, cDraws: seq<int>)
      requires Valid() && ObstacleDrawsOk(oDraws) && CrackerDrawsOk(cDraws)
      modifies this, enemies, enemyStartX, obstacles, obstacleX, obstacleY, obstacleWidth, obstacleHeight,
        crackers, crackerX, crackerY, crackerTaken
      ensures Valid()
      ensures moveTime == RestartMoveTime(old(eaten), old(moveTime))
      ensures old(eaten) ==>
        highScore == (if old(points) > old(highScore) then old(points) else old(highScore)) &&
        points == 0 && level == 1
      ensures !old(eaten) ==> highScore == old(highScore) && points == old(points) && level == old(level) + 1
      ensures movesLeft == Goal && moves == 0 && !eaten && furthestObstacle == ObstacleCount - 1
      ensures frames == old(frames) && jumped == old(jumped) && fishDirection == old(fishDirection)
      ensures fishCell == Rect(cellWidth * StartColumn, cellHeight * StartRow, cellWidth, cellHeight)
      ensures forall k :: 0 <= k < EnemyCount ==>
        enemies[k] == Rect(cellWidth * 2 * k, -cellHeight, cellWidth, cellHeight)
      ensures CreatedUpTo(ObstacleState(), oDraws, ObstacleCount, cellWidth, cellHeight)
      ensures CrackersCreatedUpTo(CrackerState(), cDraws, CrackerCount, cellWidth, cellHeight)
    {
      ResetProgress();
      CreateWorld(oDraws, cDraws);
    }

    /** The game step of `render`: on every `moveTime`-th frame the player moves forward as
        `MoveUp` describes; the frame counter goes up by one on every frame. */
    method Render(oDraws: seq<ObstacleDraw>, cDraws: seq<int>)
      requires Valid() && ObstacleDrawsOk(oDraws) && CrackerDrawsOk(cDraws)
      modifies this, enemies, obstacles, obstacleX, obstacleY, obstacleWidth, obstacleHeight,
        crackers, crackerX, crackerY, crackerTaken
      ensures Valid()
      ensures frames == old(frames) + 1
      ensures old(frames) % old(moveTime) != 0 ==>
        moves == old(moves) && movesLeft == old(movesLeft) && jumped == old(jumped) && eaten == old(eaten) &&
        unchanged(enemies, obstacles, crackers, crackerTaken)
      ensures old(frames) % old(moveTime) != 0 ==>
        points == old(points) && highScore == old(highScore) && level == old(level) &&
        fishCell == old(fishCell) && fishDirection == old(fishDirection) &&
        furthestObstacle == old(furthestObstacle) &&
        unchanged(obstacleX, obstacleY, obstacleWidth, obstacleHeight, crackerX, crackerY)
      ensures old(frames) % old(moveTime) == 0 && old(movesLeft) > 0 && !old(eaten) && old(FreeAbove()) ==>
        moves == old(moves) + 1 && movesLeft == old(movesLeft) - 1
      ensures moveTime == old(moveTime)
    {
      if frames % moveTime == 0 {
        MoveUp(oDraws, cDraws);
      }
      frames := frames + 1;
    }
  }
}
