# Maze game core, modelled in Dafny

This project models the game logic of a small three.js maze game. It has five parts:

- **Kruskal generator** (`MazeGenerator`). Every tile of a `width × depth` grid starts in its
  own *hall*, which is a set id. The generator lists every interior wall, shuffles the list and
  pops it wall by wall. A popped wall is opened only when its two sides lie in different halls;
  side2's hall is then merged into side1's hall.
- **Depth-first generator** (`MazeGeneratorVariant`). It keeps an explicit stack of tile
  positions and a `visited` mark on each tile. Each iteration pops a tile and carves into one of
  its unvisited grid neighbours. The start tile `tiles[0][0]` is pushed onto the stack but never
  marked visited.
- **Keyboard bookkeeping** (`KeyEvents`). A *held* dictionary is set by keydown and cleared by
  keyup. A *pressed* flag is set by keyup and consumed once by `getKeyPressed`. The object also
  keeps a list of the listener records it registered.
- **Game state** (`GameState`). It holds the powerup list, the countdown, the spawn point, the
  reset hook and the module-level singleton.
- **Exit lift** (`StartEnd`). `getRotation` picks an open side of a tile and turns it into a
  rotation. `loadStartEndPreset` loads the lift only when there is a rotation.

Modules:

| module | file | models |
|---|---|---|
| `Grid` | `grid.dfy` | Positions, adjacency and the set of grid cells, shared by both generators. |
| `KruskalWalls` | `kruskal_walls.dfy` | Tiles, walls and the constructor's wall list. |
| `KruskalModel` | `kruskal_model.dfy` | The generator's state as values: passages, the loop invariant `KInv` and one iteration `Step`. |
| `KruskalLemmas`, `KruskalTheorems` | `kruskal_lemmas.dfy`, `kruskal_theorems.dfy` | What construction and each iteration establish, and the spanning-tree result. |
| `Kruskal` | `kruskal.dfy` | The class `MazeGenerator`, with its loops. |
| `DepthFirstModel` | `depth_first_model.dfy` | The generator's state as values: neighbour filter, `removeWall`, one iteration `CarveStep`, the invariant `DInv` and the termination measure. |
| `DepthFirstLemmas`, `DepthFirstTheorems` | `depth_first_lemmas.dfy`, `depth_first_theorems.dfy` | What construction and each iteration establish. |
| `DepthFirstScenario` | `depth_first_scenario.dfy` | A concrete 2×2 run that carves back into the start tile. |
| `DepthFirst` | `depth_first.dfy` | The class `MazeGeneratorVariant`, with its loops. |
| `Keyboard` | `key_events.dfy` | The class `KeyEvents` and the dictionaries as values. |
| `Game` | `game_state.dfy` | The classes `GameState` and `Registry` (the singleton), and the countdown. |
| `StartEnd` | `start_end.dfy` | `getRotation` and `loadStartEndPreset`. |
| `Wrappers` | `wrappers.dfy` | The `Option` datatype. |

Both generators are classes, and their fields are updated in place. Each loop iteration is
proved equal to a step function on values: `Kruskal.MazeGenerator.PopWall` matches
`KruskalModel.Step`, and `DepthFirst.MazeGeneratorVariant.CarveOnce` matches
`DepthFirstModel.CarveStep`. The lemmas about those functions carry the proofs.

Each generator's tiles are a `seq<seq<Tile>>` indexed as `tiles[x][y]`. Where the source keeps
references to tile objects (`tiles_by_hall`, the wall records and the stack), the model keeps the
tiles' grid positions. The N wall faces y−1, S faces y+1, W faces x−1 and E faces x+1.

The depth-first generator marks `tiles[0][0]` as start but never as visited
(`scripts/MazeGeneratorVariant.js:17-18`), so carving may return into it and the passages need
not form a tree; `DepthFirstScenario.CycleThroughStart` exhibits such a run.

## Model

| member | source | states |
|---|---|---|
| `Grid.AdjacentSymmetric` | scripts/MazeGeneratorVariant.js:83-89 | Grid adjacency, as the four candidate locations define it, is symmetric. |
| `Grid.CellsAreInGrid` | scripts/MazeGenerator.js:8-16 | The set of cells is exactly the positions `0 <= x < width`, `0 <= y < depth`. |
| `Grid.CellsSize` | scripts/MazeGenerator.js:8-16 | The grid has exactly `width*depth` tiles. |
| `KruskalWalls.InitialWallsCount` | scripts/MazeGenerator.js:18-32 | The constructor lists `(w-1)*d` "V" walls and `w*(d-1)` "H" walls, and none when that axis has no tiles. |
| `KruskalWalls.WallsBeforeCount` | scripts/MazeGenerator.js:19-31 | After the first `i` columns of the outer loop, `(i-1)*d` "V" walls and `i*(d-1)` "H" walls have been pushed. |
| `KruskalWalls.ColumnWallsCount` | scripts/MazeGenerator.js:20-30 | Within column `i`, the inner loop pushes one "V" wall per row when `i != 0`, and one "H" wall per row after the first. |
| `KruskalWalls.InitialWallsExact` | scripts/MazeGenerator.js:18-32 | A wall is in the list if and only if it joins (i-1, j) to (i, j) as "V", or (i, j-1) to (i, j) as "H", inside the grid. |
| `KruskalWalls.ColumnWallsMembers` | scripts/MazeGenerator.js:20-30 | The walls column `i` pushes are exactly the interior walls whose side2 lies in that column, above row `j`. |
| `KruskalWalls.WallsBeforeMembers` | scripts/MazeGenerator.js:19-31 | The walls pushed for the first `i` columns are exactly the interior walls whose side2 lies left of column `i`. |
| `KruskalWalls.ColumnWallsAscending` | scripts/MazeGenerator.js:20-30 | Within a column, the walls are listed in row order, "V" before "H". |
| `KruskalWalls.WallsBeforeAscending` | scripts/MazeGenerator.js:19-31 | The list is ordered by side2's column, then row, then orientation. |
| `KruskalWalls.InitialWallsDistinct` | scripts/MazeGenerator.js:18-32 | No wall is listed twice. |
| `KruskalModel.SetTile` | scripts/MazeGenerator.js:53 | Writing one tile changes that tile and no other, and keeps the grid's shape. |
| `KruskalModel.SameTiles` | scripts/MazeGenerator.js:6-16 | Two grids of the same shape that agree tile by tile are equal. |
| `KruskalModel.Relabel` | scripts/MazeGenerator.js:52-54 | Every tile of hall `from` gets hall `to`; all else is unchanged. |
| `KruskalModel.ClearWall` | scripts/MazeGenerator.js:58-64 | Opening a wall keeps the grid's shape. |
| `KruskalModel.BetweenSymmetric` | scripts/MazeGenerator.js:87-93 | The wall between p and q is the wall between q and p. |
| `KruskalModel.LinkedRefl` | scripts/MazeGenerator.js:46-66 | Every tile is linked to itself. |
| `KruskalModel.LinkedByPassage` | scripts/MazeGenerator.js:58-64 | Tiles joined by an open wall are linked. |
| `KruskalModel.LinkedSym` | scripts/MazeGenerator.js:46-66 | Being linked through open passages is symmetric. |
| `KruskalModel.LinkedTrans` | scripts/MazeGenerator.js:46-66 | Being linked through open passages is transitive. |
| `KruskalModel.LinkedMono` | scripts/MazeGenerator.js:58-64 | Opening walls never disconnects two linked tiles. |
| `KruskalTheorems.HallIdDecodes` | scripts/MazeGenerator.js:7-14 | Hall id `i*d + j` decodes back to (i, j). |
| `KruskalTheorems.HallIdEncodes` | scripts/MazeGenerator.js:7-14 | Every hall id below `w*d` is the id of a grid tile. |
| `KruskalTheorems.HallIdBound` | scripts/MazeGenerator.js:7-14 | Every counter value used lies in `0 .. w*d-1`. |
| `KruskalTheorems.BucketsUpToAt` | scripts/MazeGenerator.js:13 | After `n` tiles, `tiles_by_hall` has exactly the keys `0 .. n-1`, and each holds the singleton list of its tile. |
| `KruskalTheorems.BucketsUpToSize` | scripts/MazeGenerator.js:13 | After `n` tiles, `tiles_by_hall` has `n` keys. |
| `KruskalTheorems.InitialTileAt` | scripts/MazeGenerator.js:8-16 | Tile (i, j) is `new MazeTile(i, j, i*d + j)`. |
| `KruskalTheorems.InitialTileFacts` | scripts/MazeGenerator.js:7-15 | After construction, tile (i, j) holds its coordinates, hall `i*d + j` and four walls. `tiles_by_hall` of that hall is the singleton list `[(i, j)]`. |
| `KruskalTheorems.InitialHallsDistinct` | scripts/MazeGenerator.js:7-15 | Two tiles have the same initial hall exactly when they are the same tile. |
| `KruskalTheorems.InitialPartitioned` | scripts/MazeGenerator.js:7-15 | Initially, `tiles_by_hall` is a partition of the grid by hall. |
| `KruskalTheorems.InitialMirrored` | scripts/MazeGenerator.js:95-103 | Initially the flags are mirrored and no wall is open. |
| `KruskalTheorems.InitialKInv` | scripts/MazeGenerator.js:4-33 | The constructor establishes the loop invariant, with no wall open and `w*d` non-empty halls. |
| `KruskalTheorems.ShuffleKeepsInv` | scripts/MazeGenerator.js:43-44 | Any reordering of the wall list keeps the invariant. |
| `KruskalTheorems.StepJoins` | scripts/MazeGenerator.js:47-65 | The popped wall is opened exactly when its sides were in different halls. Afterwards both sides share a hall, side2's old hall has become side1's, and the open walls grow by exactly this wall. |
| `KruskalTheorems.StepFlags` | scripts/MazeGenerator.js:58-64 | A "V" wall clears exactly side1.E and side2.W, and an "H" wall exactly side1.S and side2.N. An already-joined wall changes nothing, and no flag is ever set. |
| `KruskalTheorems.StepKeepsEmpty` | scripts/MazeGenerator.js:51 | A bucket emptied by a merge stays empty. |
| `KruskalTheorems.TileInOneBucket` | scripts/MazeGenerator.js:49-56 | Each tile appears exactly once among the buckets, in the bucket of its own hall. |
| `KruskalTheorems.SettledMazeIsSpanning` | scripts/MazeGenerator.js:46-66 | Once every wall has been popped from a non-empty grid, one hall holds all `w*d` tiles and exactly `w*d-1` walls are open. Every two tiles are linked, so the passages form a spanning tree. |
| `KruskalLemmas.ClearWallAt` | scripts/MazeGenerator.js:58-64 | Tile by tile, opening a wall clears only the two facing flags. |
| `KruskalLemmas.MergeAt` | scripts/MazeGenerator.js:49-64 | The tiles after a merge, tile by tile: new hall, and the two facing flags cleared. |
| `KruskalLemmas.MergePlaced` | scripts/MazeGenerator.js:49-64 | A merge keeps every tile's coordinates. |
| `KruskalLemmas.MergeHalls` | scripts/MazeGenerator.js:52-54 | After a merge, the tiles of side2's hall carry side1's hall, and all other tiles keep theirs. |
| `KruskalLemmas.MergeMirrored` | scripts/MazeGenerator.js:58-64 | A merge keeps the flags mirrored and the boundary closed. |
| `KruskalLemmas.MergeOpens` | scripts/MazeGenerator.js:58-64 | A merge opens the popped wall and no other, and closes none. |
| `KruskalLemmas.MergeOpenWalls` | scripts/MazeGenerator.js:58-64 | The open walls grow by exactly the popped wall, which was closed before. |
| `KruskalLemmas.MergePartitioned` | scripts/MazeGenerator.js:49-56 | A merge keeps `tiles_by_hall` a partition. |
| `KruskalLemmas.MergeFiles` | scripts/MazeGenerator.js:55-56 | After a merge, every tile is filed under its own hall. |
| `KruskalLemmas.MergeBucketsSound` | scripts/MazeGenerator.js:51-56 | After a merge, every bucket holds only tiles of its own hall. |
| `KruskalLemmas.MergeBucketsNoDup` | scripts/MazeGenerator.js:55 | After a merge, no bucket lists a tile twice. |
| `KruskalLemmas.MergeLiveHalls` | scripts/MazeGenerator.js:51-56 | A merge removes side2's hall from the non-empty halls. |
| `KruskalLemmas.MergeKeepsOpen` | scripts/MazeGenerator.js:58-64 | A merge closes no passage. |
| `KruskalLemmas.MergeBridges` | scripts/MazeGenerator.js:58-64 | The merged wall links its two sides. |
| `KruskalLemmas.MergeLinked` | scripts/MazeGenerator.js:49-64 | After a merge, tiles of the same hall are linked. |
| `KruskalLemmas.MergeSettles` | scripts/MazeGenerator.js:48-56 | After a merge, the popped wall and every wall already inside a hall lie inside a hall. |
| `KruskalLemmas.MergeSettlesAll` | scripts/MazeGenerator.js:46-56 | Every interior wall is still to be popped, or lies inside one hall. |
| `KruskalLemmas.MergeOpenJoinedAll` | scripts/MazeGenerator.js:48-64 | Every open wall lies inside one hall. |
| `KruskalLemmas.MergeLinkedAll` | scripts/MazeGenerator.js:48-64 | The tiles of each hall stay linked. |
| `KruskalLemmas.MergeCount` | scripts/MazeGenerator.js:48-64 | Each open wall has merged two halls: open walls plus non-empty halls stay equal to `w*d`. |
| `KruskalLemmas.MergeKeepsInv` | scripts/MazeGenerator.js:47-65 | An iteration that merges keeps the loop invariant. |
| `KruskalLemmas.StepKeepsInv` | scripts/MazeGenerator.js:47-65 | Every iteration keeps the loop invariant. |
| `Kruskal.MazeGenerator.constructor` | scripts/MazeGenerator.js:4-33 | Builds exactly the initial tiles, buckets and wall list, and the loop invariant holds. |
| `Kruskal.MazeGenerator.PopWall` | scripts/MazeGenerator.js:47-65 | One iteration changes the state exactly as `Step`, and keeps the invariant. |
| `Kruskal.MazeGenerator.RelabelBucket` | scripts/MazeGenerator.js:52-54 | Every tile of the bucket takes side1's hall; nothing else changes. |
| `Kruskal.MazeGenerator.GenerateMaze` | scripts/MazeGenerator.js:39-71 | The loop empties `walls` and keeps the invariant. A second call opens nothing. On a non-empty grid the result is a spanning tree. |
| `DepthFirstModel.SetTile` | scripts/MazeGeneratorVariant.js:35 | Writing one tile changes that tile and no other, and keeps the grid's shape. |
| `DepthFirstModel.UnvisitedAmongMembers` | scripts/MazeGeneratorVariant.js:91-103 | The filter keeps exactly the listed locations that lie in the grid and are unvisited. |
| `DepthFirstLemmas.NeighborsMembers` | scripts/MazeGeneratorVariant.js:83-105 | `getUnvisitedNeighbors` returns exactly the in-grid, unvisited orthogonal neighbours. It is empty exactly when no neighbour is unvisited. |
| `DepthFirstLemmas.NeighborsOrder` | scripts/MazeGeneratorVariant.js:84-89 | It returns at most four neighbours, in the order (x, y-1), (x, y+1), (x-1, y), (x+1, y), none twice. |
| `DepthFirstLemmas.WallRemovedAt` | scripts/MazeGeneratorVariant.js:63-81 | Between adjacent tiles, `removeWall` clears exactly the W/E or N/S pair facing each other. Every other flag, mark and coordinate is unchanged. |
| `DepthFirstLemmas.AlongXAt` | scripts/MazeGeneratorVariant.js:64-71 | The x half clears a.W and b.E when the x difference is 1, and a.E and b.W when it is -1. Otherwise it does nothing. |
| `DepthFirstLemmas.AlongYAt` | scripts/MazeGeneratorVariant.js:73-80 | The y half clears a.N and b.S when the y difference is 1, and a.S and b.N when it is -1. Otherwise it does nothing. |
| `DepthFirstLemmas.WallRemovedPlaced` | scripts/MazeGeneratorVariant.js:63-81 | `removeWall` keeps every tile's coordinates. |
| `DepthFirstLemmas.WallRemovedMirrored` | scripts/MazeGeneratorVariant.js:63-81 | Between adjacent tiles, `removeWall` keeps the flags mirrored and the boundary closed. |
| `DepthFirstLemmas.CarvedAt` | scripts/MazeGeneratorVariant.js:33-35 | Carving marks `next` visited, clears the two facing flags and changes nothing else. |
| `DepthFirstLemmas.CarvedPlaced` | scripts/MazeGeneratorVariant.js:33-35 | Carving keeps every tile's coordinates. |
| `DepthFirstLemmas.CarvedMirrored` | scripts/MazeGeneratorVariant.js:33-35 | Carving keeps the flags mirrored and the boundary closed. |
| `DepthFirstTheorems.VisitedMembers` | scripts/MazeGeneratorVariant.js:110 | The visited and unvisited sets hold exactly the grid tiles with and without the mark. |
| `DepthFirstTheorems.OpenMembers` | scripts/MazeGeneratorVariant.js:113-116 | The open east and south walls are exactly the interior ones whose flag is cleared. |
| `DepthFirstTheorems.FreshTileAt` | scripts/MazeGeneratorVariant.js:10-16 | The nested loop puts `new Tile(i, j)` at (i, j). |
| `DepthFirstTheorems.InitialTileAt` | scripts/MazeGeneratorVariant.js:10-18 | After construction, every tile has four walls and is neither visited nor an end. Only `tiles[0][0]` is start, and the stack is `[tiles[0][0]]`. |
| `DepthFirstTheorems.InitialDInv` | scripts/MazeGeneratorVariant.js:4-19 | The constructor establishes the loop invariant, and the start tile is left unvisited. |
| `DepthFirstTheorems.CarvedUnvisited` | scripts/MazeGeneratorVariant.js:33-35 | After carving into `next`, the unvisited tiles are the old ones minus `next`. |
| `DepthFirstTheorems.CarvedVisited` | scripts/MazeGeneratorVariant.js:33-35 | Carving into an unvisited tile moves exactly that tile from the unvisited set to the visited set. |
| `DepthFirstTheorems.CarvedOpen` | scripts/MazeGeneratorVariant.js:33 | Carving opens at most one more east or south wall. |
| `DepthFirstTheorems.NextFacts` | scripts/MazeGeneratorVariant.js:26-33 | `next` is an unvisited grid neighbour of `current`. |
| `DepthFirstTheorems.CarveTileAt` | scripts/MazeGeneratorVariant.js:25-40 | One iteration tile by tile: `next` becomes visited, the wall between `current` and `next` is removed, and nothing else changes. |
| `DepthFirstTheorems.CarveKeepsShape` | scripts/MazeGeneratorVariant.js:25-40 | An iteration keeps the mirror relation, the start and end marks, and the stack inside the grid. |
| `DepthFirstTheorems.PopCovered` | scripts/MazeGeneratorVariant.js:25-27 | Popping a tile with no unvisited neighbour keeps every tile that still has one on the stack. |
| `DepthFirstTheorems.CarvedHasUnvisited` | scripts/MazeGeneratorVariant.js:33-35 | Carving never gives a tile a new unvisited neighbour. |
| `DepthFirstTheorems.CarvedSole` | scripts/MazeGeneratorVariant.js:36-38 | When `next` was the only unvisited neighbour, `current` has none left, so it need not be pushed back. |
| `DepthFirstTheorems.CoveredAfterCarve` | scripts/MazeGeneratorVariant.js:36-39 | After pushing `current` (when it had more than one unvisited neighbour) and then `next`, every tile that has an unvisited neighbour is on the stack. |
| `DepthFirstTheorems.CarveCovered` | scripts/MazeGeneratorVariant.js:25-40 | Each iteration keeps every tile with an unvisited neighbour on the stack. |
| `DepthFirstTheorems.CarveCounts` | scripts/MazeGeneratorVariant.js:25-40 | Each iteration keeps the open walls no more numerous than the visited tiles, and strictly decreases `2·(unvisited tiles) + stack length`. |
| `DepthFirstTheorems.CarveKeepsInv` | scripts/MazeGeneratorVariant.js:24-41 | Each iteration keeps the invariant, and `2·(unvisited tiles) + stack length` strictly decreases. |
| `DepthFirstTheorems.CarveMonotone` | scripts/MazeGeneratorVariant.js:33-35 | No visited mark is cleared and no open wall closes. |
| `DepthFirstTheorems.ProgressedTrans` | scripts/MazeGeneratorVariant.js:24-41 | "Nothing undone" composes over iterations. |
| `DepthFirstTheorems.CarvedAll` | scripts/MazeGeneratorVariant.js:17-41 | With an empty stack, every tile is visited when the grid has two or more tiles, and the only tile of a 1×1 grid is not. At most `w*d` walls are open. |
| `DepthFirstScenario.OpenAtEnd` | scripts/MazeGeneratorVariant.js:24-41 | In the 2×2 run, four walls are open at the end. |
| `DepthFirstScenario.CycleThroughStart` | scripts/MazeGeneratorVariant.js:17-41 | A 2×2 run with picks 1, 0, 0, 0 carves back into the unvisited start tile and leaves four open walls on four tiles, so the passages contain a cycle. |
| `DepthFirst.MazeGeneratorVariant.constructor` | scripts/MazeGeneratorVariant.js:4-19 | Builds exactly the initial state, leaves `tiles[0][0]` unvisited and establishes the invariant. |
| `DepthFirst.MazeGeneratorVariant.GetUnvisitedNeighbors` | scripts/MazeGeneratorVariant.js:83-105 | The loop returns exactly the filter of the four locations. |
| `DepthFirst.MazeGeneratorVariant.RemoveWall` | scripts/MazeGeneratorVariant.js:63-81 | The tiles become exactly `WallRemoved` of the old tiles. |
| `DepthFirst.MazeGeneratorVariant.RemoveWallAlongX` | scripts/MazeGeneratorVariant.js:64-71 | The tiles become exactly the x half of `removeWall`. |
| `DepthFirst.MazeGeneratorVariant.RemoveWallAlongY` | scripts/MazeGeneratorVariant.js:73-80 | The tiles become exactly the y half of `removeWall`. |
| `DepthFirst.MazeGeneratorVariant.CarveOnce` | scripts/MazeGeneratorVariant.js:25-40 | One iteration picks a valid neighbour and changes the state exactly as `CarveStep`. |
| `DepthFirst.MazeGeneratorVariant.GenerateMaze` | scripts/MazeGeneratorVariant.js:21-49 | The loop terminates with an empty stack. Every tile is visited (1×1 excepted), at most `w*d` walls are open, and nothing is undone. |
| `Keyboard.ApplyOtherCodes` | scripts/KeyEvents.js:31-50 | Handlers and queries for one code leave every other code's entries unchanged. |
| `Keyboard.PressedAfter` | scripts/KeyEvents.js:35-50 | After any sequence of events and queries, `c` is pressed exactly when a keyup of `c` has not been consumed by a later `getKeyPressed(c)`, or it was pressed before and no query came. Keydowns never set the flag. |
| `Keyboard.HeldAfter` | scripts/KeyEvents.js:31-42 | `c` is held exactly when a keydown of `c` has not been followed by a keyup of `c`, or it was held before and no keyup came. |
| `Keyboard.NeverSeen` | scripts/KeyEvents.js:8-50 | From the constructor's empty dictionaries, a code with no keydown is never held, and a code with no keyup is never pressed. |
| `Keyboard.ConsumedOnce` | scripts/KeyEvents.js:35-50 | After a keyup the flag is set, and one query clears it. |
| `Keyboard.KeyEvents.constructor` | scripts/KeyEvents.js:8-12 | Both dictionaries are empty, and `events` holds the keydown and keyup records. |
| `Keyboard.KeyEvents.AddEventListener` | scripts/KeyEvents.js:20-23 | Appends exactly one record and leaves the dictionaries alone. |
| `Keyboard.KeyEvents.Initialize` | scripts/KeyEvents.js:25-29 | `events` becomes exactly the keydown and keyup records. |
| `Keyboard.KeyEvents.OnKeyDown` | scripts/KeyEvents.js:31-33 | Sets the held state of the code, after which `getKeyDown` reports true. |
| `Keyboard.KeyEvents.OnKeyUp` | scripts/KeyEvents.js:35-38 | Clears the held state and sets the pressed flag, after which `getKeyDown` reports false. |
| `Keyboard.KeyEvents.GetKeyPressed` | scripts/KeyEvents.js:44-50 | Reports the pressed flag, where a missing entry is false, and clears it when it was set. |
| `Keyboard.KeyEvents.ClearEventListeners` | scripts/KeyEvents.js:52-58 | `events` becomes exactly the two initial records; neither dictionary is reset. |
| `Keyboard.ReleaseThenPollTwice` | scripts/KeyEvents.js:35-50 | After a keyup of `code`, the next `getKeyPressed(code)` returns true and the one after it false. |
| `Game.Vector3.constructor` | scripts/GameState.js:62-65 | A position holds its three coordinates. |
| `Game.Tick` | scripts/GameState.js:37-47 | A tick takes one second off. The interval keeps running exactly while the result is positive; otherwise game over is shown once more. |
| `Game.CountdownLength` | scripts/GameState.js:37-47 | From `n >= 1` seconds, the countdown runs for exactly `n` seconds, then stops at zero with game over shown once. |
| `Game.CountdownAlreadyOut` | scripts/GameState.js:37-47 | A countdown started at zero or below stops after the first second. |
| `Game.Extend` | scripts/GameState.js:56 | `reset` adds `timer` seconds and does not restart the interval. |
| `Game.ResetAfterTimeUp` | scripts/GameState.js:37-58 | Seconds added after time is up never count down. |
| `Game.Without` | scripts/GameState.js:68-72 | The filtered list no longer holds the removed position and is no longer than before. |
| `Game.WithoutAbsent` | scripts/GameState.js:68-72 | Removing a position that is not in the list changes nothing. |
| `Game.WithoutConcat` | scripts/GameState.js:68-72 | The filter works piece by piece, so the kept entries stay in order. |
| `Game.WithoutCounts` | scripts/GameState.js:68-72 | Every occurrence of the position is dropped, and every other entry is kept as often as it occurred. |
| `Game.WithoutMembers` | scripts/GameState.js:68-72 | The remaining list holds exactly the entries other than the removed position. |
| `Game.GameState.constructor` | scripts/GameState.js:4-11 | Stores the callback, starts with no powerups and no spawn point, and starts the countdown at `timer`. |
| `Game.GameState.OnTick` | scripts/GameState.js:37-47 | The countdown changes exactly as `Tick`; nothing else changes. |
| `Game.GameState.Reset` | scripts/GameState.js:50-58 | Empties the powerup list. A `null` callback throws, leaving the countdown as it was. Otherwise `timer` seconds are added. |
| `Game.GameState.AddPowerup` | scripts/GameState.js:64-66 | Appends the position at the end; nothing else changes. |
| `Game.GameState.RemovePowerup` | scripts/GameState.js:68-72 | The list becomes the filter of the old list; nothing else changes. |
| `Game.GameState.SetSpawnpoint` | scripts/GameState.js:74-76 | Afterwards the `spawnpoint` getter returns the argument. |
| `Game.Registry.constructor` | scripts/GameState.js:105 | No instance exists yet. |
| `Game.Registry.GetGameState` | scripts/GameState.js:105-110 | The first call builds a new game state with its argument. Later calls return that same object and ignore their argument. |
| `Game.AddThenRemove` | scripts/GameState.js:64-72 | Adding a position not yet in the list and removing it again restores the list. |
| `StartEnd.Marked` | scripts/Scene/RoomTypes/StartEnd.js:24-25 | The map step keeps the length. |
| `StartEnd.Kept` | scripts/Scene/RoomTypes/StartEnd.js:26 | The filter drops every -1 and never lengthens the list. |
| `StartEnd.KeptMembers` | scripts/Scene/RoomTypes/StartEnd.js:26 | The filter keeps exactly the entries other than -1. |
| `StartEnd.KeptAllMarks` | scripts/Scene/RoomTypes/StartEnd.js:26 | A list of nothing but -1 filters to the empty list. |
| `StartEnd.KeptAscending` | scripts/Scene/RoomTypes/StartEnd.js:26 | The filter keeps the order of what it keeps. |
| `StartEnd.CandidatesExact` | scripts/Scene/RoomTypes/StartEnd.js:24-26 | The candidate list is exactly the indices of the open sides, in strictly ascending order. |
| `StartEnd.PickInRange` | scripts/Scene/RoomTypes/StartEnd.js:27 | A draw in [0, 1) picks an index of a non-empty list. |
| `StartEnd.PickReaches` | scripts/Scene/RoomTypes/StartEnd.js:27 | Every index of the list is picked by some draw. |
| `StartEnd.ChosenSideIsOpen` | scripts/Scene/RoomTypes/StartEnd.js:22-41 | A returned rotation faces an open side of the tile. |
| `StartEnd.EveryOpenSideReachable` | scripts/Scene/RoomTypes/StartEnd.js:22-41 | On a four-sided tile, each open side is chosen by some draw. |
| `StartEnd.OpenTileLoads` | scripts/Scene/RoomTypes/StartEnd.js:5-20 | A four-sided tile with an open side always loads the lift, with the elevator model and scale 0.015. |
| `StartEnd.ClosedTileLoadsNothing` | scripts/Scene/RoomTypes/StartEnd.js:5-41 | A tile walled on every side gets `null`, and nothing is loaded. |
| `StartEnd.RotationsDiffer` | scripts/Scene/RoomTypes/StartEnd.js:29-40 | N, E, S and W map to four rotations that differ only in their y angle. Every other index maps to none. |

## Left out

- Rendering, DOM and timers. `setInterval`, the timer element and `showMessage` are not
  modelled; only the body of the interval callback is. Game over is counted (`gameOvers`)
  instead of shown.
- `Config.TIMER` is not defined in `config.js`, so it is the parameter `timer`.
- `Game.GameState.Reset`: the reset callback's effects are not modelled. It runs after the
  powerup list is cleared (`scripts/GameState.js:52-53`) and may refill it, so the ensures
  `powerupLocations == []` holds only for a callback that leaves the list alone. The model
  records only whether the call throws, which it does when the callback is `null`.
- Randomness:
  - Kruskal's random-comparator `sort` is an arbitrary permutation of `walls`, passed in as
    `shuffled`.
  - The depth-first pick is an arbitrary index, chosen with `:|`.
  - `getRotation`'s draw is a real parameter `0 <= r < 1`.
  - No probability distribution is modelled.
- Aliasing. `tiles_by_hall`, the wall records and the depth-first stack hold tile positions,
  whereas the source holds tile references. Since every tile object sits at exactly one grid
  position, this loses nothing the code uses.
- `Promise`/`resolve`, `console.log` and `printMaze` are left out: they are debug output and
  carry no logic.
- The `MazeTile.position` vector is modelled as integer coordinates.
- Real listener registration and removal is DOM. `clearEventListeners` passes `event.type`,
  which the records never store, so only the `events` list is modelled.
- The module-level `keyEventsInstance` is not modelled; only the class is.
- Key codes are assumed not to name properties inherited from `Object.prototype`: the
  dictionaries are plain objects, so in the source `getKeyPressed("constructor")` is true without
  any keyup and `getKeyDown("toString")` returns a function. The model uses maps, where a code
  that was never set is absent. Real `KeyboardEvent.code` values never take those names.
- `Keyboard.KeyEvents.GetKeyDown`, `Game.GameState.PowerupLocations`,
  `Game.GameState.Spawnpoint`: these are read-only accessors with no contract of their own.
  What they report is stated by `OnKeyDown`, `OnKeyUp`, `HeldAfter`, `NeverSeen` and
  `SetSpawnpoint`.
- `DepthFirst.MazeGeneratorVariant.constructor`: requires `width, depth >= 1`. The source reads
  `tiles[0][0]` without a bounds check, so an empty grid throws there; that throw is not
  modelled.
- Angles are written as multiples of π (`-0.5` for `-Math.PI / 2`), since floating point is not
  modelled.
- Everything outside the five files is not part of this model: scene building, physics, camera,
  input devices, pathfinding and the minimap.
