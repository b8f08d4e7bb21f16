# FishEscape game core in Dafny

FishEscape is a libGDX arcade game. The screen is a lattice of 8 columns by 14 rows of
cells. The player's clownfish sits on a fixed row (row 5, starting in column 3). The world
scrolls towards it: every `moveTime` frames the fish tries to swim one cell forward. When
the cell above it is free of obstacles, the enemies (four sharks), the 24 obstacles (six
rows of four) and the 18 crackers (six rows of three) all move down one cell. The fish
picks up every cracker it overlaps, and one move is counted. Whether or not the fish
could move, the sharks then chase it. A shark swims forward while it is below the fish.
Otherwise it swims sideways, the shorter way round the wrapped screen. On every fifth
move the sharks swim twice. A shark that lands on the fish eats it. A shark that falls
more than one cell below the screen is put back on its start column. Obstacle and cracker
rows that fall more than three cells below the screen are laid out again three cells
above the furthest obstacle row. The player can also step left or right, wrapping from
one screen edge to the other. After 40 forward moves the level is won. `restart` then
starts the next level with fewer frames per step: ten fewer while above 30, then five
fewer, and never below 5. After a loss it resets the score and the level, and keeps the
high score.

The model is imperative, like the game. `Game.FishEscape` is a class with the game's
fields and arrays. Its methods update them in place, with `modifies` clauses and loop
invariants. Each method is specified by functions on values, which live in three modules:

- `Geometry`: cells, rectangles, the strict overlap test, and the player's and the enemies' horizontal wrap.
- `Pursuit`: one shark's forward, left and right steps, its chase choice, its reset, and whole pursuit passes.
- `Fields`: how the obstacle and cracker fields are created and scrolled, the invariant the obstacle rows keep between moves, and cracker pickup and scoring.

The game's random draws are parameters. `oDraws[i]` holds the gap, width and height for
obstacle `i`, and `cDraws[i]` the gap for cracker `i`, whenever that entry is created or
recycled during the call.

Where a comment of the game disagrees with its code, the model follows the code:

- The comments on `moveLeft` and `moveRight` say the fish will not move off screen and the enemies still move. The code wraps the fish to the other edge and does not move the enemies.
- The comment in `createCrackers` speaks of rows of 2. The code uses rows of `crackersPerRow` = 3.

Several behaviours look unintended but are modelled as written:

- The obstacle recycling test measures "three cells below the screen" with the cell *width*. Crackers use the cell height (`Fields.ObstacleSinks`, `Fields.CrackerSinks`).
- `recreateObstacle` rebuilds the rectangle with its old y. A recycled obstacle's rectangle therefore stays below the screen until the next scroll (`Fields.Relaid`, `Fields.ScrolledEntryTracked`).
- A shark in the right-most column steps one cell past the screen edge before it wraps to column 0. From there a blocked wrap puts it back on column 7, not where it came from (`Geometry.EnemyWrapLagsPlayerWrap`, `Pursuit.StepRight`).
- When a shark's cell above is blocked, `enemyForward` turns toward the fish by comparing raw x, with no wrap. From column 0 it turns right toward a fish in column 7, the long way round (`Pursuit.ForwardFallbackIgnoresWrap`).
- `resetEnemy` places shark 0 at x = `enemyStartX[0]`, without the cell-width factor. Its start column is 0, so this is the same place (`Pursuit.Settle`).
- The jump test reads the move count after the forward half, and a blocked step does not change that count. So a blocked step gets a jump pass whenever the count is a multiple of 5 and the jump flag is clear, as at move 0 of a new game (`Game.FishEscape.MoveEnemies`).

## Model

| member | source | states |
|---|---|---|
| Geometry.PlayerLeftX | core/src/com/mygdx/fish_escape/FishEscape.java:518-566 | the column moveLeft tries: one to the left, and from column 0 column 7; always a column |
| Geometry.PlayerRightX | core/src/com/mygdx/fish_escape/FishEscape.java:573-615 | the column moveRight tries: one to the right, and from column 7 column 0; always a column |
| Geometry.PlayerWrapRoundTrip | core/src/com/mygdx/fish_escape/FishEscape.java:518-615 | a left move undoes a right move and a right move undoes a left move, on every column |
| Geometry.EnemyLeftX | core/src/com/mygdx/fish_escape/FishEscape.java:729-734 | an enemy's left step: one cell left, and from x = 0 seven cells right; the result is a column |
| Geometry.EnemyRightX | core/src/com/mygdx/fish_escape/FishEscape.java:759-764 | an enemy's right step: one cell right up to one cell past the screen, and from there x = 0 |
| Geometry.EnemyWrapLagsPlayerWrap | core/src/com/mygdx/fish_escape/FishEscape.java:759-764 | from column 7 an enemy goes to the screen width and only the next step wraps to 0, while the player wraps at once |
| Geometry.CellsOverlapIffSameColumn | core/src/com/mygdx/fish_escape/FishEscape.java:674-677 | two cells on one row overlap exactly when they have the same x |
| Geometry.WrapDistance | core/src/com/mygdx/fish_escape/FishEscape.java:661-671 | the column distance the long and the short way round the 8-column row; at most 4, and 0 exactly in the same column |
| Pursuit.StepLeft | core/src/com/mygdx/fish_escape/FishEscape.java:724-749 | enemyLeft: the enemy takes the left cell when no obstacle overlaps it, and otherwise stays where it was; y and size kept |
| Pursuit.StepRight | core/src/com/mygdx/fish_escape/FishEscape.java:754-779 | enemyRight: the enemy takes the right cell when it is free; when blocked it stays, except that a blocked wrap from past the edge lands on column 7 |
| Pursuit.StepForward | core/src/com/mygdx/fish_escape/FishEscape.java:699-719 | enemyForward: one cell up when that cell is free; when blocked the enemy keeps its row, stays put in the player's column, and otherwise either stays or takes the next cell toward the player's x (one left when right of it, one right when left of it) |
| Pursuit.StepForwardTurnsToward | core/src/com/mygdx/fish_escape/FishEscape.java:710-718 | a blocked enemy that turns aside ends one cell nearer the player's x without passing it; otherwise it stays |
| Pursuit.ForwardFallbackIgnoresWrap | core/src/com/mygdx/fish_escape/FishEscape.java:713-717 | the blocked fallback compares raw x: from column 0 with the player in column 7 it turns right, away from the player on the wrapped row |
| Pursuit.Chase | core/src/com/mygdx/fish_escape/FishEscape.java:660-672 | the chase choice: an enemy rises at most one cell and only while below the player; in the player's column at or above it, it does not move; which way it turns is stated by `ChaseClosesIn` |
| Pursuit.ChaseClosesIn | core/src/com/mygdx/fish_escape/FishEscape.java:664-671 | at or above the player, with both side cells free, the enemy keeps its row and its wrapped column distance to the player never grows; on the screen and off the player's column it shrinks by one |
| Pursuit.Settle | core/src/com/mygdx/fish_escape/FishEscape.java:828-843 | an enemy more than a cell below the screen goes to its start column one cell below the screen; any other enemy is left alone |
| Pursuit.Pass | core/src/com/mygdx/fish_escape/FishEscape.java:662-682 | one pass over the enemies keeps every enemy a cell on an enemy column and no lower than one cell below the screen |
| Pursuit.PassUpToStep | core/src/com/mygdx/fish_escape/FishEscape.java:662-682 | moving enemy n extends the partial pass by exactly that enemy, and the catch test by that enemy's overlap; the last step gives the whole pass |
| Pursuit.Pursue | core/src/com/mygdx/fish_escape/FishEscape.java:684-692 | the pursuit of one step, one pass or two on a jump, keeps the enemies' shape and bound |
| Pursuit.ScrollDown | core/src/com/mygdx/fish_escape/FishEscape.java:485-487 | every enemy moves one cell down, keeping its x and size |
| Pursuit.PursueRisesAtMostTwoCells | core/src/com/mygdx/fish_escape/FishEscape.java:660-692 | in one step an enemy rises at most one cell per pass, counted from the reset line for a fallen enemy |
| Pursuit.EnemyBelowCatches | core/src/com/mygdx/fish_escape/FishEscape.java:663-677 | an enemy right below the player with a free cell above it catches the player |
| Fields.DrawSizes | core/src/com/mygdx/fish_escape/FishEscape.java:249-266 | a draw gives a gap of at least zero and a width and height of one or two cells |
| Fields.LaidIsSized | core/src/com/mygdx/fish_escape/FishEscape.java:249-266 | an obstacle laid out from a draw has a draw's sizes and starts at or after its predecessor's right edge |
| Fields.LaidRowSized | core/src/com/mygdx/fish_escape/FishEscape.java:249-266 | the same for every obstacle of a row laid out left to right |
| Fields.CreatedStep | core/src/com/mygdx/fish_escape/FishEscape.java:247-278 | creating obstacle n from its draw on its row's y extends the prefix the creation loop has made |
| Fields.CreatedField | core/src/com/mygdx/fish_escape/FishEscape.java:242-278 | a created obstacle field is in the between-moves state, with the last obstacle on the top-most row |
| Fields.RowY | core/src/com/mygdx/fish_escape/FishEscape.java:258-263 | the y of created obstacle row `row`: row 0 on the screen's top row, every later row at least three cells above it |
| Fields.CrackerRowY | core/src/com/mygdx/fish_escape/FishEscape.java:297-302 | the y of created cracker row `row`: row 0 on the screen's top row, every later row at least three cells above it |
| Fields.RowYGap | core/src/com/mygdx/fish_escape/FishEscape.java:258-263 | created rows are at least three cells apart |
| Fields.RowYAboveFirst | core/src/com/mygdx/fish_escape/FishEscape.java:258-263 | no row is created below the screen's top row |
| Fields.CreatedRowsOk | core/src/com/mygdx/fish_escape/FishEscape.java:258-263 | created rows are aligned, spaced and above the recycling line, with index 23 on the top-most row |
| Fields.RowPrefixClear | core/src/com/mygdx/fish_escape/FishEscape.java:251-256 | in a row every obstacle starts at or after the right edge of every earlier one |
| Fields.RowObstaclesDisjoint | core/src/com/mygdx/fish_escape/FishEscape.java:251-272 | two obstacles of one row never overlap |
| Fields.Relaid | core/src/com/mygdx/fish_escape/FishEscape.java:785-804 | recreateObstacle: the obstacle is laid out from its draw after its predecessor, the y arrays are untouched, the rectangle keeps its old y, and every other obstacle is unchanged |
| Fields.ScrollAt | core/src/com/mygdx/fish_escape/FishEscape.java:625-636 | one iteration of moveObstacles: the furthest index stays or becomes the iterated one; what it does to the obstacle is stated by `StayingScrollAt` and `SinkingScrollAt` |
| Fields.ScrollAtKeepsOthers | core/src/com/mygdx/fish_escape/FishEscape.java:625-636 | an iteration on one obstacle changes no other obstacle |
| Fields.ScrollPrefix | core/src/com/mygdx/fish_escape/FishEscape.java:622-638 | the first n iterations of moveObstacles; `ScrollPrefixScrolled` states what they make |
| Fields.StayingScrollAt | core/src/com/mygdx/fish_escape/FishEscape.java:626-627 | a loop iteration on an obstacle that does not sink moves it and its rectangle one cell down and nothing else |
| Fields.SinkingScrollAt | core/src/com/mygdx/fish_escape/FishEscape.java:626-636 | an iteration on a sinking obstacle puts it three cells above the furthest entry as read then, lays it out again, and makes the row's last index the furthest |
| Fields.ScrollStep | core/src/com/mygdx/fish_escape/FishEscape.java:625-637 | one iteration of moveObstacles keeps the loop invariant |
| Fields.ScrollAtStep | core/src/com/mygdx/fish_escape/FishEscape.java:625-637 | the iteration, as a function, keeps the loop invariant |
| Fields.SinkingScrollAtStep | core/src/com/mygdx/fish_escape/FishEscape.java:626-636 | the iteration on a sinking obstacle keeps the loop invariant |
| Fields.StayingScrollAtStep | core/src/com/mygdx/fish_escape/FishEscape.java:626-627 | the iteration on an obstacle that moves one cell keeps the loop invariant |
| Fields.ScrollPrefixScrolled | core/src/com/mygdx/fish_escape/FishEscape.java:622-638 | every prefix of the loop's iterations satisfies the loop invariant |
| Fields.ScrolledRows | core/src/com/mygdx/fish_escape/FishEscape.java:622-638 | the rows' y after a whole pass are one scroll of the rows' y before |
| Fields.ScrolledEntrySized | core/src/com/mygdx/fish_escape/FishEscape.java:785-797 | after a pass every obstacle has a draw's sizes, and a recycled one starts at or after its predecessor's right edge |
| Fields.ScrolledEntryOrdered | core/src/com/mygdx/fish_escape/FishEscape.java:785-794 | after a pass each obstacle still starts at or after its row predecessor's right edge |
| Fields.ScrolledEntryTracked | core/src/com/mygdx/fish_escape/FishEscape.java:799-803 | after a pass each rectangle has its obstacle's x and size and its row's y, which lags only for a recycled row still below the screen |
| Fields.ScrolledShapes | core/src/com/mygdx/fish_escape/FishEscape.java:622-638 | a pass keeps the obstacles' sizes, order and rectangles in the between-moves state |
| Fields.ScrolledField | core/src/com/mygdx/fish_escape/FishEscape.java:622-638 | a whole pass is one scroll of the rows and keeps the obstacle field in the between-moves state |
| Fields.TopRowStays | core/src/com/mygdx/fish_escape/FishEscape.java:628-630 | the furthest row never sinks |
| Fields.OneRowSinks | core/src/com/mygdx/fish_escape/FishEscape.java:628 | two sinking obstacles are on the same row |
| Fields.OthersStay | core/src/com/mygdx/fish_escape/FishEscape.java:628 | when one obstacle sinks, no obstacle of another row does |
| Fields.SinkerOutsideFurthestRow | core/src/com/mygdx/fish_escape/FishEscape.java:630-635 | a sinking obstacle is not in the furthest row, so it comes after the furthest index exactly when its whole row does |
| Fields.ScrollKeepsAligned | core/src/com/mygdx/fish_escape/FishEscape.java:626-631 | after a scroll all obstacles of a row share one y |
| Fields.ScrollKeepsSpaced | core/src/com/mygdx/fish_escape/FishEscape.java:626-631 | after a scroll the rows are still at least three cells apart |
| Fields.ScrollKeepsTop | core/src/com/mygdx/fish_escape/FishEscape.java:630-635 | after a scroll the furthest index is a row's last index on the top-most row |
| Fields.ScrollKeepsRows | core/src/com/mygdx/fish_escape/FishEscape.java:622-638 | a scroll keeps the row invariant; a recycled row ends three or four cells above the old furthest row |
| Fields.CrackerCreatedStep | core/src/com/mygdx/fish_escape/FishEscape.java:284-313 | creating cracker n from its draw on its row's y extends the prefix the creation loop has made |
| Fields.CrackersCreatedField | core/src/com/mygdx/fish_escape/FishEscape.java:280-314 | created crackers are untaken, in aligned rows, each a cell after its predecessor, with rectangles at their place |
| Fields.Recrafted | core/src/com/mygdx/fish_escape/FishEscape.java:806-823 | recreateCracker: the cracker is untaken and laid out from its draw one cell past its predecessor, with its rectangle at its new place; the y arrays and every other cracker are unchanged |
| Fields.CrackerScrollAt | core/src/com/mygdx/fish_escape/FishEscape.java:643-650 | one iteration of moveCrackers: the cracker's y moves one cell down or goes three cells above the furthest obstacle row, and no other cracker changes |
| Fields.CrackerScrollPrefix | core/src/com/mygdx/fish_escape/FishEscape.java:640-652 | the first n iterations of moveCrackers; `CrackerScrollPrefixScrolled` states what they make |
| Fields.CrackerScrollStep | core/src/com/mygdx/fish_escape/FishEscape.java:642-650 | one iteration of moveCrackers keeps the loop invariant |
| Fields.CrackerScrollAtStep | core/src/com/mygdx/fish_escape/FishEscape.java:642-650 | the iteration, as a function, keeps the loop invariant |
| Fields.CrackerScrollPrefixScrolled | core/src/com/mygdx/fish_escape/FishEscape.java:640-652 | every prefix of the loop's iterations satisfies the loop invariant |
| Fields.CrackersScrolledField | core/src/com/mygdx/fish_escape/FishEscape.java:640-652 | a whole pass keeps the crackers in aligned rows with their rectangles at their place |
| Fields.NewlyTaken | core/src/com/mygdx/fish_escape/FishEscape.java:490-495 | the points a pickup pass scores: never more than the number of crackers; `NewlyTakenCountsFlips` states the count |
| Fields.Pickup | core/src/com/mygdx/fish_escape/FishEscape.java:490-495 | a pickup keeps every taken cracker taken and takes only crackers the fish overlaps; `PickupScoresOverlapped` states that it takes all of them |
| Fields.NewlyTakenNothing | core/src/com/mygdx/fish_escape/FishEscape.java:490-495 | a pass in which no cracker becomes taken scores nothing |
| Fields.NewlyTakenCountsFlips | core/src/com/mygdx/fish_escape/FishEscape.java:490-495 | the points scored are the number of crackers untaken before and taken after |
| Fields.PickupScoresOverlapped | core/src/com/mygdx/fish_escape/FishEscape.java:490-495 | a pickup scores one point for each untaken cracker the fish overlaps, no more and no fewer |
| Fields.PickupTwiceScoresOnce | core/src/com/mygdx/fish_escape/FishEscape.java:490-495 | a pickup is idempotent, and a second pickup in the same place scores nothing |
| Game.RestartMoveTime | core/src/com/mygdx/fish_escape/FishEscape.java:849-871 | the new step time: 60 after a loss; after a win smaller unless already 5, ten less above 30, and 5 at 10 or below; always a positive multiple of 5 |
| Game.NewEnemyArrays | core/src/com/mygdx/fish_escape/FishEscape.java:66-69 | fresh enemy arrays of length 4 |
| Game.NewObstacleArrays | core/src/com/mygdx/fish_escape/FishEscape.java:75-82 | fresh, distinct obstacle arrays of length 24 |
| Game.NewCrackerArrays | core/src/com/mygdx/fish_escape/FishEscape.java:85-92 | fresh, distinct cracker arrays of length 18 |
| Game.FishEscape.constructor | core/src/com/mygdx/fish_escape/FishEscape.java:98-142 | the cell size is the screen size divided into 8 by 14 cells, and the game is valid and in its start state |
| Game.FishEscape.Start | core/src/com/mygdx/fish_escape/FishEscape.java:129-141 | the counters' start values and the created objects give a valid start state |
| Game.FishEscape.StartCounters | core/src/com/mygdx/fish_escape/FishEscape.java:42-83 | level 1, no points or high score, 40 moves left, none made, 60 frames per step, no frames, not eaten, no jump, furthest obstacle 23 |
| Game.FishEscape.CreateObjects | core/src/com/mygdx/fish_escape/FishEscape.java:138-141 | the fish is on its start cell, the enemies below columns 0, 2, 4, 6, and both fields created from the draws and in the between-moves state |
| Game.FishEscape.CreateActors | core/src/com/mygdx/fish_escape/FishEscape.java:220-235 | the fish on column 3, row 5, and enemy k at column 2k one cell below the screen |
| Game.FishEscape.CreateFish | core/src/com/mygdx/fish_escape/FishEscape.java:220 | the fish is the cell at column 3, row 5 |
| Game.FishEscape.CreateEnemies | core/src/com/mygdx/fish_escape/FishEscape.java:226-235 | start columns 0, 2, 4, 6, and each enemy the cell below the screen at its start column |
| Game.FishEscape.CreateObstacles | core/src/com/mygdx/fish_escape/FishEscape.java:242-278 | every obstacle laid out from its draw on its row's y, and the field in the between-moves state with index 23 furthest |
| Game.FishEscape.PlaceObstacle | core/src/com/mygdx/fish_escape/FishEscape.java:268-272 | obstacle i gets the corner and size in its four arrays and its rectangle; the other obstacles are unchanged |
| Game.FishEscape.CreateCrackers | core/src/com/mygdx/fish_escape/FishEscape.java:280-314 | every cracker laid out from its draw on its row's y, untaken, and the crackers in rows |
| Game.FishEscape.HitsObstacle | core/src/com/mygdx/fish_escape/FishEscape.java:476-481 | the obstacle loop finds a hit exactly when some obstacle overlaps the cell |
| Game.FishEscape.PickUpCrackers | core/src/com/mygdx/fish_escape/FishEscape.java:490-495 | the untaken crackers the fish overlaps become taken, and the points grow by their number |
| Game.FishEscape.RecreateObstacle | core/src/com/mygdx/fish_escape/FishEscape.java:785-804 | the obstacle arrays become the field with obstacle i laid out again as `Relaid` says |
| Game.FishEscape.MoveObstacle | core/src/com/mygdx/fish_escape/FishEscape.java:625-637 | one loop iteration turns the obstacles and the furthest index into what `ScrollAt` gives |
| Game.FishEscape.MoveObstacles | core/src/com/mygdx/fish_escape/FishEscape.java:622-638 | the obstacles end as one whole scroll of the field, and the field keeps its between-moves invariant |
| Game.FishEscape.RecreateCracker | core/src/com/mygdx/fish_escape/FishEscape.java:806-823 | the cracker arrays become the field with cracker i recreated as `Recrafted` says |
| Game.FishEscape.MoveCracker | core/src/com/mygdx/fish_escape/FishEscape.java:642-650 | one loop iteration turns the crackers into what `CrackerScrollAt` gives, measured from the furthest obstacle row |
| Game.FishEscape.MoveCrackers | core/src/com/mygdx/fish_escape/FishEscape.java:640-652 | the crackers end as one whole scroll from the furthest obstacle row, still in rows |
| Game.FishEscape.EnemyLeft | core/src/com/mygdx/fish_escape/FishEscape.java:724-749 | enemy i becomes its `StepLeft`, and no other enemy changes |
| Game.FishEscape.EnemyRight | core/src/com/mygdx/fish_escape/FishEscape.java:754-779 | enemy i becomes its `StepRight`, and no other enemy changes |
| Game.FishEscape.EnemyForward | core/src/com/mygdx/fish_escape/FishEscape.java:699-719 | enemy i becomes its `StepForward`, and no other enemy changes |
| Game.FishEscape.ResetEnemy | core/src/com/mygdx/fish_escape/FishEscape.java:828-843 | enemy i goes to its start column one cell below the screen, keeping its size; no other enemy changes |
| Game.FishEscape.ChaseEnemy | core/src/com/mygdx/fish_escape/FishEscape.java:663-672 | enemy i becomes its `Chase`, and no other enemy changes |
| Game.FishEscape.MoveEnemy | core/src/com/mygdx/fish_escape/FishEscape.java:663-682 | enemy i chases and then settles; the player is eaten if it was or if the enemy overlaps it right after its own move |
| Game.FishEscape.MoveEnemies | core/src/com/mygdx/fish_escape/FishEscape.java:660-693 | the enemies become `Pursue`, with a jump pass exactly when the move count is a multiple of 5 and no jump is pending; eaten exactly when caught in either pass; the jump flag records a multiple of 5 |
| Game.FishEscape.PursueStep | core/src/com/mygdx/fish_escape/FishEscape.java:509 | the pursuit after the forward half restores the full invariant and changes only the enemies and the two flags |
| Game.FishEscape.ScrollEnemies | core/src/com/mygdx/fish_escape/FishEscape.java:485-487 | the enemies move one cell down |
| Game.FishEscape.ScrollWorld | core/src/com/mygdx/fish_escape/FishEscape.java:485-489 | the enemies move one cell down and the obstacles scroll one pass |
| Game.FishEscape.CollectAndScrollCrackers | core/src/com/mygdx/fish_escape/FishEscape.java:490-497 | the crackers end as one scroll of the field after the pickup, and the points grow by the crackers newly taken |
| Game.FishEscape.CountForwardMove | core/src/com/mygdx/fish_escape/FishEscape.java:498-501 | one move more, one move left fewer, and the fish faces up |
| Game.FishEscape.CollectAndCount | core/src/com/mygdx/fish_escape/FishEscape.java:490-501 | the pickup, the cracker scroll and the move count together |
| Game.FishEscape.Advance | core/src/com/mygdx/fish_escape/FishEscape.java:483-506 | with the cell above free: enemies one cell down, one obstacle scroll, pickup on the cell above, one cracker scroll, one move counted, and the invariants kept |
| Game.FishEscape.TryForward | core/src/com/mygdx/fish_escape/FishEscape.java:472-508 | blocked, nothing changes; free, the world advances as `Advance` says with the fish on the cell above, and the fish ends on its own cell |
| Game.FishEscape.ForwardStep | core/src/com/mygdx/fish_escape/FishEscape.java:472-508 | the forward half counts a move exactly when the cell above is free, scrolls both fields and scores then, and changes none of them when blocked |
| Game.FishEscape.ForwardAndPursue | core/src/com/mygdx/fish_escape/FishEscape.java:472-509 | the forward half and then the pursuit on the enemies as the forward half leaves them, with the game valid again |
| Game.FishEscape.MoveUp | core/src/com/mygdx/fish_escape/FishEscape.java:469-511 | while the game runs, a move is counted exactly when the cell above is free, and the enemies pursue and may catch the fish whether or not it moved; once over, counters and flags stay |
| Game.FishEscape.SettleSideways | core/src/com/mygdx/fish_escape/FishEscape.java:531-541 | on an obstacle the fish goes back with nothing else changed; otherwise it stays, picks up what it overlaps and faces the move's way |
| Game.FishEscape.MoveLeft | core/src/com/mygdx/fish_escape/FishEscape.java:518-566 | while the game runs and the column to the left (wrapping) is free, the fish takes it, picks up and faces left; otherwise nothing changes |
| Game.FishEscape.MoveRight | core/src/com/mygdx/fish_escape/FishEscape.java:573-615 | while the game runs and the column to the right (wrapping) is free, the fish takes it, picks up and faces right; otherwise nothing changes |
| Game.FishEscape.ClearCrackers | core/src/com/mygdx/fish_escape/FishEscape.java:877-879 | no cracker is taken |
| Game.FishEscape.CreateCrackerField | core/src/com/mygdx/fish_escape/FishEscape.java:876-879 | the crackers are created from the draws, in rows, and none is taken |
| Game.FishEscape.CreateWorld | core/src/com/mygdx/fish_escape/FishEscape.java:873-879 | a new fish, enemies and fields as at the start, in the between-moves state |
| Game.FishEscape.ResetProgress | core/src/com/mygdx/fish_escape/FishEscape.java:849-871 | after a loss the high score is the larger of it and the points, and points and level start over; after a win the level goes up; moves and the furthest row reset, and not eaten |
| Game.FishEscape.Restart | core/src/com/mygdx/fish_escape/FishEscape.java:848-885 | the bookkeeping of `ResetProgress` and a new world from the draws; frames, the jump flag and the facing carry over, and the game is valid |
| Game.FishEscape.Render | core/src/com/mygdx/fish_escape/FishEscape.java:162-165 | the frame counter goes up by one; a game step runs only on a multiple of the step time, counting a move when the game runs and the cell above is free; on other frames nothing else changes |

## Left out

- Drawing: the first half of `render` and every `draw*` method, the textures (including `enemyTextures`), the fonts and `dispose`. They do not change the game state.
- The stages, `createArrowButton`, `createRestartButton` and `Gdx.input.setInputProcessor`. This is UI wiring. The button handlers that call `moveLeft`, `moveRight` and `restart` become direct calls to the methods.
- The `Gdx.app.log` calls in `moveLeft`. They are logging only.
- `java.util.Random`. Its results are the `oDraws` and `cDraws` parameters, one draw per entry index and call.
- Float coordinates are modelled as `int`. Every coordinate the game computes is a whole multiple of the cell size, which comes from an integer division of the screen size.
- The screen width is required to be a multiple of 8 pixels, so that the 8 columns have a whole-pixel width. For other widths the wrap tests of `moveRight` and `enemyRight`, and the half-width test of `moveEnemies`, would compare against a width that is not a column edge.
- `frames` is unbounded. The Java `int` wrap-around after 2^31 frames is not modelled.
- `fishDirection` is a `Direction` value. It starts unspecified, where Java starts it at the character 0. Only drawing reads it.
- MoveUp: states the counters, the jump flag, the enemies and the catch. The obstacle and cracker scroll, the score and the fish's facing are stated one level down, by `ForwardAndPursue` and `TryForward`. Once the game is over it does not restate that the fields and the score stay.
- Render: states the game step through the frame and move counters and the step time only. `MoveUp` states the rest of a step. On a frame with no step it states that nothing else changes.
- ForwardAndPursue: does not restate the fish's facing. `TryForward` states it.
- ChaseClosesIn: assumes both side cells are free, not only the one the enemy turns to. With a blocked side the enemy does not move, or goes from past the edge to column 7, as the `StepLeft` and `StepRight` rows state.
