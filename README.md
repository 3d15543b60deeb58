# Pac-Man 3D: the simulation core in Dafny

This project models the game logic of `Pacman.c`: a 3-D Pac-Man played on fractal terrain.
It covers the following, and leaves out the OpenGL/GLUT drawing, the window and the frame timer:

- **Terrain.** `DivideGrid` fills a 256 x 256 height map by recursive midpoint displacement.
- **Thresholds.** `SetThresholds` picks a water level and a snow line as order statistics of a sample of the heights.
- **Flattening.** While the terrain is drawn, `SetColor` raises low ground to the water level.
- **Node table.** `createAdjacencyList` lays a 25 x 25 table of nodes over the terrain, one every ten cells. A node is in the game when its truncated height lies strictly between the two thresholds.
- **Traversal.** `traverseNeighbors` runs a depth-first traversal from Pac-Man's start node. It links each reached node to its in-game neighbours and puts a dot on it. `placePowerpill` then turns the dots on the four corners into power pills.
- **Ghosts.** Four ghosts walk the links at random (`randomize`, `checkGhostTimer`, `updateGhosts`).
- **Pac-Man.** Pac-Man follows the arrow keys (`refreshPacman` and its helpers, `GameSpecialKeyAction`).
- **Scoring.** `addScores` eats dots and power pills. `checkCollision` ends the game when a ghost is on Pac-Man's node or on the node he is heading into.
- **Timing.** `UpdateFrame` moves each side one node whenever its time accumulator passes `DistPaths`.

## How the model is built

Modules follow the parts of the game:

| module | file | models |
|---|---|---|
| `Random` | random.dfy | `rand()`, injected as a stream `nat -> RandValue` read through an `Rng` object |
| `Terrain` | terrain.dfy | `SetHeightMap`, `DivideGrid` |
| `Thresholds` | thresholds.dfy | `SetThresholds`, `std::nth_element`, the water clamp of `SetColor` inside `DrawTerrain`'s two loops |
| `Maze` | maze.dfy | node table, walkability, links, start scan, `traverseNeighbors` as a function on a table value |
| `MazeSearch` | search.dfy | what the traversal builds: reachability, dot count, links |
| `Wiring` | wiring.dfy | the shape the table has during play: links one step long and mutual, `adj` listing the links |
| `NavGraphs` | navgraph.dfy | class `NavGraph`: the global `Nodes` array and `numDots`, with `createAdjacencyList` and the functions it calls |
| `Moves` | moves.dfy | headings, the camera-angle arithmetic of the arrow keys with C's truncating `%` |
| `GameRules` | rules.dfy | the ghosts' and Pac-Man's steps, scoring and collisions, as functions on values |
| `Play` | game.dfy | class `Game`: `Man`, `Ghosts`, the score and menu flags, with the per-frame methods |
| `StartNode` | findings.dfy | two departures of the start-node choice from the intended behaviour, each on a concrete table beside its corrected form |

Modelling choices:

- **Pointers.** A `Node*` is a position `(i, j)` in the table. A link that may be NULL is an `Option<Pos>`. `numadj` is the length of the `adj` sequence.
- **Stateful methods.** Each method that changes state is proved against a function over values (`ensures State() == TraverseFrom(old(State()), ...)`, `ensures man == PacmanAfter(...)`). Lemmas about those functions prove what the game promises.
- **Randomness.** `rand()` is a parameter: a stream and a count of values drawn so far. Every result is determined by the stream.
- **Floats.** `float` arithmetic is exact `real` arithmetic. The `(int)` conversion of a height (`static int height`, Pacman.c:1045) is written out as truncation toward zero.
- **Integers.** C's `%` on the camera angle is written out as truncation toward zero, so angles stay in (-360, 360).

Behaviour kept as the source has it:

- **Start scan.** `findPacmanStartNode` stops at the first node of column 12 (from row 6 up) that is in the game *or* whose four neighbours all are. In the second case the node may itself be out of the game. The C loop has no bound; the model returns `None` where the C loop would read past the last row.
- **Traversal centre.** `createAdjacencyList` calls `traverseNeighbors(Man.cur, startX, startZ)` with the original `startZ`. When the scan moved up the column, the start node's links are therefore taken from the neighbours of (12, 6), not from its own. The model keeps this: a `Search` records the start node (`top`) and the position examined for it (`topCentre`). The "links are one step long and mutual" result (`Wiring.BuiltIsWired`) is proved when the two coincide, or when the start node is out of the game. `StartNode.MovedStartMiswired` shows a table where they differ and the result fails (see "## Findings").
- **Unreached nodes.** Walkable nodes that the traversal never reaches keep no links, no adjacent nodes and no dot.
- **Flattening order.** Flattening runs inside `DrawTerrain` from `InitialiseScene`, after `createAdjacencyList`. Walkability is therefore computed on unflattened heights. The Pac-Man slope test during play reads the flattened ones.
- **Uncovered cells.** `DrawTerrain`'s two loops never pass (0, 255) and (255, 0) to `SetColor`, so those two cells are never flattened.
- **Override order.** In `refreshPacman` the second `checkCollision` runs after `addScores`. A collision therefore overrides a win reported in the same step.
- **The `'s'` key.** It resets `score`, `projection`, `gameStart` and `gameWin` only. Dots, `numDots` and positions are kept.

## Model

| member | source | states |
|---|---|---|
| `Random.UnitDraw` | Pacman.c:720-723 | `rand()/RAND_MAX` lies in [0,1]; it is 0 exactly for a draw of 0 and 1 exactly for RAND_MAX |
| `Terrain.GridSizeIsPow2` | Pacman.c:54 | the grid side 256 is a power of two, so every recursive square has an integer side |
| `Terrain.Clamp01` | Pacman.c:748-753 | the clamped midpoint lies in [0,1], equals the input inside [0,1], is 0 below and 1 above |
| `Terrain.TimesIsProduct` | Pacman.c:740 | the repeated-addition form used for `max` equals the product |
| `Terrain.Midpoint` | Pacman.c:738-753 | the centre value lies in [0,1], and is 1.0 for the full-grid square |
| `Terrain.MidpointDisplacement` | Pacman.c:739-746 | below the full grid the centre is `clamp(avg + (rand()/RAND_MAX - 0.5) * (newSize/gridSize*3))` |
| `Terrain.SubCallInSquare` | Pacman.c:762-765 | the quarter holding a cell is again a power-of-two square holding it |
| `Terrain.SubCallUnit` | Pacman.c:756-765 | with corners in [0,1], the corners of every quarter (edge averages and the clamped centre) are in [0,1] |
| `Terrain.HeightAtBounds` | Pacman.c:730-772 | with corners in [0,1], every height the recursion assigns, scaled by 127, lies in [0, 127] |
| `Terrain.HeightMapBounds` | Pacman.c:724 | the full-grid call from corners in [0,1] gives heights in [0, 127] on every cell |
| `Terrain.QuarterCell` | Pacman.c:762-765 | a cell of one quarter lies in the square and in no other quarter |
| `Terrain.QuartersFill` | Pacman.c:762-765 | the four recursive calls, one after the other, fill exactly the square |
| `Terrain.NoRepeatsJoin` | Pacman.c:762-765 | joining two disjoint write orders without repeats has no repeats |
| `Terrain.LeafOrderLength` | Pacman.c:730-772 | a call of side `size` writes `size * size` leaves |
| `Terrain.LeafOrderInside` | Pacman.c:730-772 | every leaf a call writes lies in its square |
| `Terrain.LeafOrderNoRepeats` | Pacman.c:730-772 | no cell is written twice |
| `Terrain.LeafOrderCovers` | Pacman.c:730-772 | every cell of the square is written |
| `Terrain.DrawCentre` | Pacman.c:742-746 | the full-grid centre is 1.0 without a draw; any smaller square draws exactly once |
| `Terrain.DivideGrid` | Pacman.c:730-773 | every cell of the square gets its reference height (`HeightAt`), every other cell keeps its value, exactly `Draws(size)` values are drawn |
| `Terrain.HeightMapCall` | Pacman.c:720-724 | the top-level call covers the whole grid from the next four draws, and its corners lie in [0,1] |
| `Terrain.GenerateHeightMap` | Pacman.c:714-724 | four corner draws, then the whole grid: every cell gets the reference height `HeightAt` of the call those draws determine, so the map is fixed by the stream; every height ends in [0, 127] |
| `Thresholds.SampleShape` | Pacman.c:822-836 | 26 x 26 = 676 samples; the ranks `floor(sizeof(values)*p/4)` are 67 and 608 |
| `Thresholds.SortProperties` | Pacman.c:833-836 | the reference sort is a sorted permutation of its input |
| `Thresholds.SortedUnique` | Pacman.c:833-836 | two sorted permutations of the same values are equal |
| `Thresholds.SortOfPermutation` | Pacman.c:833-836 | the order statistics of a permutation are those of the original, so the second `nth_element` sees the same ranks |
| `Thresholds.SelectedIsOrderStatistic` | Pacman.c:833 | a partition around position n puts the n-th order statistic at n |
| `Thresholds.MinFrom` | Pacman.c:833 | returns the index of a least value of `a[from..]` |
| `Thresholds.SelectStep` | Pacman.c:833 | swapping a least remaining value into place extends the sorted prefix of smallest values |
| `Thresholds.SelectSmallest` | Pacman.c:833 | permutes the array so that its `count` smallest values come first, in order |
| `Thresholds.NthElement` | Pacman.c:833-836 | `std::nth_element`: a permutation with the n-th order statistic at n, nothing larger before it, nothing smaller after it |
| `Thresholds.Sample` | Pacman.c:822-832 | the sample has 676 values, entry `26*r + c` being the height at (10r, 10c) |
| `Thresholds.CollectSample` | Pacman.c:822-832 | the sampling loops fill the buffer with exactly `Sample(h)` |
| `Thresholds.SetThresholds` | Pacman.c:821-837 | water is the rank-67 and snow the rank-608 value of the sorted sample; water <= snow |
| `Thresholds.Flattened` | Pacman.c:779-812 | a height is only ever raised, only to the water level, and only when it lies below the water level and not above the snow line; with water <= snow every result is at least the water level |
| `Thresholds.FlattenedIdempotent` | Pacman.c:806-812 | levelling twice is levelling once |
| `Thresholds.VisitedCells` | Pacman.c:859-898 | the two drawing loops reach every cell except (0,255) and (255,0) |
| `Thresholds.LeftPass` | Pacman.c:859-862 | the first loop levels every cell with both coordinates below 255 and nothing else |
| `Thresholds.RightPass` | Pacman.c:895-898 | the second loop levels every cell with both coordinates above 0 and nothing else |
| `Thresholds.FlattenTerrain` | Pacman.c:851-911 | after both loops every visited cell is levelled once, every other cell unchanged |
| `Thresholds.FlatCellIdempotent` | Pacman.c:851-911 | drawing the terrain again changes no height |
| `Maze.LayoutConstants` | Pacman.c:128-129 | NodesPerLine is gridSize / DistPaths (25), the margin centres the table (3), and Pac-Man's start column and row are half and a quarter of a line (12 and 6) |
| `Maze.NodeCoord` | Pacman.c:1050-1051 | a node's height-map coordinate is `gap + (i + 1/2) * DistPaths`, strictly inside the grid |
| `Maze.Trunc` | Pacman.c:1053 | the `(int)` conversion truncates toward zero |
| `Maze.WalkSet` | Pacman.c:1053-1057 | a node is in the game iff `water < (int)height < snow` at its coordinate |
| `Maze.Opposite` | Pacman.c:107-112 | the opposite link direction steps back to the start |
| `Maze.SetLink` | Pacman.c:1098-1139 | assigning one link leaves the other three as they were |
| `Maze.LinkTarget` | Pacman.c:1097-1139 | a link is set iff the neighbour is on the table and in the game, and then points at it |
| `Maze.AdjListsLinks` | Pacman.c:1097-1139 | `numadj <= 4` and `adj[0..numadj)` lists exactly the non-NULL links |
| `Maze.LinksAreAdjacent` | Pacman.c:1097-1139 | every link leads one step in its own direction to an in-game node |
| `Maze.LinksMutual` | Pacman.c:1097-1139 | links between in-game nodes examined around themselves are mutual |
| `Maze.StartScanFirst` | Pacman.c:1143-1156 | the start scan returns the first row that is in the game or surrounded, and `None` exactly when there is none |
| `Maze.WithPill` | Pacman.c:1159-1166 | a dot becomes a power pill, a node without a dot is unchanged; links and flags otherwise kept |
| `Maze.WithCornerPills` | Pacman.c:1075-1077 | only the four corner nodes are passed through `placePowerpill` |
| `Maze.ReachedUpdate` | Pacman.c:1087 | writing one node changes the traversed set only at that node |
| `Maze.Target` | Pacman.c:1097-1139 | the neighbour examined in direction d, when on the table and in the game |
| `Maze.TargetsKept` | Pacman.c:1097-1139 | the targets do not change during the traversal, which never touches `ingame` |
| `Maze.TraverseFrom` | Pacman.c:1081-1140 | the traversal never changes coordinates or `ingame`, only grows the traversed set and marks the node it starts from |
| `Maze.VisitAll` | Pacman.c:1097-1139 | the four neighbour blocks set the node's links in order and reach every in-game neighbour |
| `Maze.VisitFrom` | Pacman.c:1097-1105 | one block links to the neighbour and recurses into it, or sets the link to NULL |
| `Maze.TraverseDone` | Pacman.c:1083-1084 | a traversed node is left alone |
| `Maze.TraverseBlocked` | Pacman.c:1086-1094 | a node out of the game is only marked traversed |
| `Maze.TraverseOpen` | Pacman.c:1086-1139 | an in-game node is marked, given a dot and counted, then its four blocks run |
| `Maze.MarkShrinks` | Pacman.c:1086 | marking a node strictly shrinks what is left to traverse (termination) |
| `Maze.VisitAllSnoc` | Pacman.c:1097-1139 | the blocks run one after the other |
| `MazeSearch.TraversalStart` | Pacman.c:1048-1063 | the laid-out table satisfies the traversal invariant |
| `MazeSearch.CountMark` | Pacman.c:1090-1091 | marking adds one to the dot count exactly for an in-game node |
| `MazeSearch.MarkBlocked` | Pacman.c:1086-1094 | marking an out-of-game node keeps the invariant |
| `MazeSearch.MarkOpen` | Pacman.c:1086-1092 | marking an in-game node keeps the invariant and puts it on the stack |
| `MazeSearch.LinkedIsReachable` | Pacman.c:1097-1139 | every neighbour linked to lies in every closed set holding the start |
| `MazeSearch.BlocksLinkAll` | Pacman.c:1097-1139 | after the four blocks a node has exactly the expected links and adjacency list, in the source's order |
| `MazeSearch.TraverseKeeps` | Pacman.c:1081-1140 | a call of `traverseNeighbors` keeps the traversal invariant |
| `MazeSearch.OpenKeeps` | Pacman.c:1086-1139 | reaching an in-game node and running its blocks keep the invariant |
| `MazeSearch.ExpandKeeps` | Pacman.c:1097-1139 | the blocks of a fresh node finish it |
| `MazeSearch.VisitAllKeeps` | Pacman.c:1097-1139 | a prefix of the blocks keeps the invariant |
| `MazeSearch.VisitKeeps` | Pacman.c:1097-1105 | one block keeps the invariant |
| `MazeSearch.TraversalOutcome` | Pacman.c:1081-1140 | once the stack is empty, the traversed set is the least closed set holding the start and dots sit exactly on its in-game nodes |
| `MazeSearch.TraversalResult` | Pacman.c:1069-1070 | from the start on the laid-out table, the traversal reaches exactly the least set holding the start and closed under the links made around each node's centre: its own position, except the start node, whose centre is the position the traversal was called with. numDots counts the reached in-game nodes, and each is linked to the in-game neighbours of its centre |
| `MazeSearch.LaidOut` | Pacman.c:1048-1063 | the first loop leaves no node traversed, no dot, pill or adjacent node, and `ingame` as the walk set says |
| `MazeSearch.PillsOutcome` | Pacman.c:1075-1077 | after the corner loop dots and pills sit exactly on the reached in-game nodes, never both, pills only on corners, and numDots is unchanged |
| `MazeSearch.CreateOutcome` | Pacman.c:1066-1077 | the traversal plus the corner loop build the graph `AdjacencyBuilt` describes |
| `MazeSearch.NoStartOutcome` | Pacman.c:1075-1077 | on an untraversed table the corner loop changes nothing |
| `NavGraphs.NavGraph.constructor` | Pacman.c:132 | the static node table starts with every node zero and numDots 0 |
| `NavGraphs.NavGraph.Write` | Pacman.c:1059-1062 | assigning one node of the table changes only that node |
| `NavGraphs.NavGraph.LayNodes` | Pacman.c:1048-1063 | every node gets its coordinates, `ingame` from the strict walkability test, and cleared flags and `numadj` |
| `NavGraphs.NavGraph.FindPacmanStartNode` | Pacman.c:1143-1156 | returns exactly `StartScan` of the in-game set |
| `NavGraphs.NavGraph.CreateAdjacencyList` | Pacman.c:1042-1078 | returns the start node; the table and numDots are then those `AdjacencyBuilt` describes (reachability, dot count, links, pills) |
| `NavGraphs.NavGraph.BuildFrom` | Pacman.c:1069-1077 | the traversal from the start node followed by the corner loop |
| `NavGraphs.NavGraph.TraverseNeighbors` | Pacman.c:1081-1094 | the new table and numDots are `TraverseFrom` of the old |
| `NavGraphs.NavGraph.VisitNeighbors` | Pacman.c:1097-1139 | the four blocks in order: left, right, up, down |
| `NavGraphs.NavGraph.Visit` | Pacman.c:1097-1105 | one block, as `VisitFrom` |
| `NavGraphs.NavGraph.PlacePowerpill` | Pacman.c:1159-1166 | the node becomes `WithPill` of itself, the rest of the table unchanged |
| `NavGraphs.NavGraph.PlaceCornerPills` | Pacman.c:1075-1077 | exactly the four corners pass through `placePowerpill` |
| `Wiring.LinkListed` | Pacman.c:1097-1139 | an entry of `adj` is one of the links |
| `Wiring.LinkedNotEmpty` | Pacman.c:1097-1139 | a node with a link has a non-empty `adj` |
| `Wiring.RandomizeHeads` | Pacman.c:1237-1247 | on a wired table the heading `randomize` derives towards an entry of `adj` is a unit heading whose link is that entry |
| `Wiring.AdjLink` | Pacman.c:1237-1238 | an entry of `adj` is the link in some direction, one step away |
| `Wiring.LinkTargetLinks` | Pacman.c:1285-1308 | following a link leads to a node that links back, so `numadj > 0` there |
| `Wiring.WiredFlags` | Pacman.c:1425-1439 | changing only the dot and pill flags keeps the table wired |
| `Wiring.BuiltIsWired` | Pacman.c:1042-1140 | the built table is wired: `adj` lists the links, every link is one step long and mutual (when the start node's own neighbours were examined) |
| `Wiring.BuiltWiredAt` | Pacman.c:1042-1140 | the same, at one node |
| `Wiring.UnlinkedWired` | Pacman.c:1048-1063 | a node without links is trivially wired |
| `Wiring.BuiltLinksKept` | Pacman.c:1083-1094 | a node not opened by the traversal keeps its laid-out links |
| `Wiring.BuiltWiredOpen` | Pacman.c:1097-1139 | a reached in-game node is wired |
| `Wiring.BuiltLinkBack` | Pacman.c:1097-1139 | a link between reached in-game nodes points back |
| `Wiring.BlankLaidOut` | Pacman.c:132 | a zeroed table, laid out, has no links |
| `Moves.HeadingOrder` | Pacman.c:1347-1358 | Pac-Man's test order (right, left, down, up) picks the same link as the ghosts' (right, left, up, down); none exactly for (0,0) |
| `Moves.HeadingRoundTrip` | Pacman.c:1285-1308 | a unit heading follows its own link, one heading per link |
| `Moves.TowardStep` | Pacman.c:1237-1247 | towards a node one step away in direction d, `randomize` heads exactly along d |
| `Moves.CRemRange` | Pacman.c:427-436 | C's `% 360` lies in (-360, 360), has the sign of its operand, and agrees with the Euclidean remainder mod 360 |
| `Moves.RightAngles` | Pacman.c:424-436 | the seven right angles in (-360, 360) |
| `Moves.TurnHeading` | Pacman.c:424-441 | an arrow key keeps the angle a right angle and turns the pending input as the key says (up keeps, down reverses, left/right quarter-turn) |
| `GameRules.HeadingPending` | Pacman.c:440-441 | a direction's heading is an acceptable pending input |
| `GameRules.RandomizeStep` | Pacman.c:1223-1248 | given `numadj > 0`, exactly one of xMov/yMov becomes ±1, pointing at `adj[rand() % numadj]`; nothing else changes |
| `GameRules.WiredRandomizes` | Pacman.c:1234 | on a wired table a node with `numadj > 0` can be randomized from |
| `GameRules.GhostStepOk` | Pacman.c:1285-1319 | a ghost step moves along the old link, counts the timer down or restarts it at 5 from 1, keeps the timer in [1,5], leaves a unit heading with a non-NULL link, and draws at most two values |
| `GameRules.GhostsAfter` | Pacman.c:1283-1310 | `updateGhosts` keeps all four ghosts well placed and steps only the first k |
| `GameRules.GhostScan` | Pacman.c:1251-1258 | a found ghost start node is on the table |
| `GameRules.GhostScanFirst` | Pacman.c:1251-1258 | `findStartNode` returns the lowest node at or above the row that is in the game or has `numadj >= 1`, and fails only when there is none |
| `GameRules.StartGhostOk` | Pacman.c:1171-1220 | a ghost `createGhosts` makes (with `checkStartDirection`) is well placed |
| `GameRules.StartGhosts` | Pacman.c:1171-1220 | the ghosts made so far are all well placed |
| `GameRules.StartGhostsInOrder` | Pacman.c:1171-1220 | the four ghosts are made in order, each drawing from where the previous stopped |
| `GameRules.PacStepOk` | Pacman.c:1336-1338 | Pac-Man moves onto a node of the table, then adopts the pending input, and stops exactly when that heading has no link |
| `GameRules.PacmanAfter` | Pacman.c:1336-1338 | after the movement steps Pac-Man is well placed: heading (0,0) or with a non-NULL link |
| `GameRules.Dotted` | Pacman.c:1425-1439 | the nodes still holding a dot or power pill |
| `GameRules.Eaten` | Pacman.c:1425-1439 | `addScores` clears exactly the dot and pill flags of the node |
| `GameRules.EatCount` | Pacman.c:1425-1439 | eating removes exactly that node from the dotted set and numDots drops by one for a dotted node, zero otherwise |
| `GameRules.WonWhenCleared` | Pacman.c:1442-1444 | `numDots < 1` holds exactly when no dot or pill is left |
| `GameRules.BuiltDots` | Pacman.c:1042-1078 | after `createAdjacencyList` the dotted nodes are the reached in-game nodes, numDots counts them, none holds both |
| `GameRules.BuiltPlayable` | Pacman.c:1042-1078 | `createAdjacencyList` on the zeroed table gives a playable table when the start node's own neighbours were examined, or the start node is out of the game (the case `StartNode.MovedStartMiswired` excludes) |
| `GameRules.AnyCollisionSnoc` | Pacman.c:1448-1471 | the collision loop: a collision among one more ghost is one among the first or with it |
| `GameRules.FlagsKeep` | Pacman.c:1425-1439 | changing flags moves no link: placements and collisions unchanged |
| `GameRules.EatPlayable` | Pacman.c:1425-1444 | `addScores` keeps the game playable and the collisions as they were |
| `GameRules.Accumulate` | Pacman.c:623-636 | an accumulator never exceeds DistPaths, stays non-negative, and restarts at 0 exactly when the sum passes DistPaths |
| `Play.Game.constructor` | Pacman.c:1487-1492 | from a playable table that `createAdjacencyList` built, `createPacman` and `createGhosts` give a valid game: Pac-Man alive and still on the start node, the four ghosts as `StartGhosts`, and the globals at their initial values |
| `Play.Game.Randomize` | Pacman.c:1223-1248 | the ghost becomes `Randomized` by the next value of the stream; exactly one value drawn |
| `Play.Game.FindStartNode` | Pacman.c:1251-1258 | returns exactly `GhostScan` |
| `Play.Game.CheckStartDirection` | Pacman.c:1261-1280 | randomizes exactly when the heading's link is NULL |
| `Play.Game.CreateGhost` | Pacman.c:1174-1219 | one ghost as `StartGhost` describes |
| `Play.Game.CreateGhosts` | Pacman.c:1171-1220 | the four ghosts as `StartGhosts` describes |
| `Play.Game.CheckGhostTimer` | Pacman.c:1313-1319 | counts down and randomizes and restarts at 5 on reaching 0 |
| `Play.Game.MoveGhost` | Pacman.c:1285-1290 | one branch of `updateGhosts` is `GhostStep` |
| `Play.Game.StepGhost` | Pacman.c:1285-1308 | the branch of the ghost's heading is `GhostStep` |
| `Play.Game.UpdateGhosts` | Pacman.c:1283-1310 | the four ghosts are `GhostsAfter`, and the game stays valid |
| `Play.Game.CreatePacman` | Pacman.c:1325-1330 | alive and still, on the node `createAdjacencyList` set |
| `Play.Game.UpdatePacmanPosition` | Pacman.c:1345-1359 | Pac-Man follows his heading's link (never NULL in a valid game) |
| `Play.Game.UpdatePacmanMovement` | Pacman.c:1362-1370 | a non-zero pending input becomes the heading and is consumed |
| `Play.Game.StopPacman` | Pacman.c:1417-1420 | the heading becomes (0,0), the node unchanged |
| `Play.Game.CheckPacmanMovement` | Pacman.c:1373-1414 | stop at a NULL link, else ghostRate 1 when the next node is higher and 2 otherwise |
| `Play.Game.CheckLink` | Pacman.c:1376-1385 | one branch of `checkPacmanMovement` |
| `Play.Game.ReturnToMenu` | Pacman.c:705-709 | gameStart 0, projection 1, gameWin as given |
| `Play.Game.StartKey` | Pacman.c:415-420 | score 0, projection 0, gameStart 1, gameWin 0 |
| `Play.Game.AddScores` | Pacman.c:1425-1445 | +10 for a dot, +100 for a pill, both flags cleared, numDots down by the count eaten; win exactly when numDots < 1 |
| `Play.Game.CheckCollision` | Pacman.c:1447-1472 | gameWin becomes -1 iff some ghost is on Pac-Man's node or on his link in his heading; otherwise nothing changes |
| `Play.Game.RefreshPacman` | Pacman.c:1333-1342 | collision test, movement, eating and a second test: new position, score, the dotted table, and the outcome with a late collision overriding a win |
| `Play.Game.CheckAndMove` | Pacman.c:1334-1338 | the first test, then the movement steps |
| `Play.Game.EatAndCheck` | Pacman.c:1340-1341 | eating, then the second test |
| `Play.Game.EatDots` | Pacman.c:1340 | eating keeps the game valid |
| `Play.Game.MovePacman` | Pacman.c:1336-1338 | the movement steps give `PacmanAfter` and keep the game valid |
| `Play.Game.SpecialKey` | Pacman.c:424-444 | an arrow key turns the camera angle with C's `%` and sets the pending input to the turned heading |
| `Play.Game.HoldOnMenu` | Pacman.c:567-570 | while gameStart < 1 both accumulators restart at 0 |
| `Play.Game.FaceForward` | Pacman.c:695-700 | in the first-person view (projection 0), while Pac-Man stands still, the camera angle returns to 0; otherwise it is kept |
| `Play.Game.UpdateFrame` | Pacman.c:613-638 | both accumulators advance by dt·DistPaths (the ghosts' scaled by ghostRate); a side moves exactly when its accumulator passes DistPaths. When Pac-Man moves, the new position, table, score, ghostRate, the consumed pending input and the outcome are those of refreshPacman: a late collision overrides a win, which overrides an early collision. Otherwise nothing of his side changes |
| `Play.Game.GhostTick` | Pacman.c:626-631 | the ghosts' half of a frame |
| `Play.Game.PacmanTick` | Pacman.c:625-637 | Pac-Man's half of a frame: past DistPaths the position, table, score, ghostRate, pending input and outcome of refreshPacman; otherwise all of them unchanged |
| `StartNode.MovedStartMiswired` | Pacman.c:1070-1072 | with only (12,7) and (12,8) in the game, the scan stops at (12,7) but its links come from (12,6): its up link points at itself, the table is not wired, only (12,7) is reached and numDots is 1 while (12,8) gets no dot |
| `StartNode.CentredStartWired` | Pacman.c:1070-1072 | on the same table, traversing from the start node's own position gives a playable table with both nodes reached, dotted and counted |
| `StartNode.SurroundedStartEmpty` | Pacman.c:1143-1156 | with only the four neighbours of (12,6) in the game, the scan stops on the out-of-game (12,6), the traversal reaches only it, and the game starts with numDots 0 and no dot |
| `StartNode.IntendedScan` | Pacman.c:1145 | the scan the loop's comment describes returns a node of the column, in the game, with an in-game neighbour |
| `StartNode.LinkedStartDots` | Pacman.c:1081-1139 | a closed set holding an in-game start node with an in-game neighbour holds at least two in-game nodes |
| `StartNode.IntendedStartHasDots` | Pacman.c:1143-1156 | traversing from the node `IntendedScan` finds, the game starts with at least two dots, so it cannot be won before Pac-Man moves |

## Left out

- Drawing and windowing: `InitialiseGLUT`, `InitialiseOpenGL`, `InitialiseScene` (except the flattening in `DrawTerrain`), `GameResize`, `GameDrawScene` (except the timer reset while on the menu), `DrawPacman`, `DrawFruit`, `DrawGhost`, `DrawDot`, `renderBitmapString`, the camera (`setFirstPersonProjection`, `projectionMenu`, the `'c'` key) and level-of-detail choice. These are graphics calls with no state of the game, except that `setFirstPersonProjection` sets `projectionAngle` to 0 while Pac-Man stands still; that assignment is modelled by `Play.Game.FaceForward`.
- `Timer.h` is not part of this model. `dt` is a parameter of `UpdateFrame`, and the frame-rate printout is left out.
- The pseudo-random generator itself (`srand(time(NULL))`, `rand()`) is not modelled. Its output is an injected stream.
- The colour choices of `SetColor`, including the `rand()` calls they make, are presentational. The model's stream does not count those draws.
- The sin/cos of `GameSpecialKeyAction` are replaced by a table of the right angles, the only angles the game reaches.
- `main`'s wiring and the `'q'` key (`exit`) are process control. `Play.Game.constructor` takes a node table that `createAdjacencyList` built and that is playable, instead of running the start-up sequence.
- Float precision: heights, thresholds, rates and accumulators are exact reals. The `max` factor and every average are computed without rounding.
- `Play.Game.constructor`: requires the table to be playable and each ghost's start scan to end on a node it can move from, so the play layer does not cover every table the source plays on. Without a ghost start the source reads out of range or divides by zero in `rand() % numadj`. A table built from a moved start node, as in `StartNode.MovedStartMiswired`, is not wired: the start node can link to itself. The source plays on it without undefined behaviour, for example Pac-Man heading up from the self-linked node stays where he is. The model does not cover such games.
- `Terrain.DivideGrid`: the write-once property is proved about `LeafOrder`, a function that follows the same recursion. The method's own contract gives the final value of each cell, not the order of the writes.
- `NavGraphs.NavGraph.FindPacmanStartNode`: returns `None` where the unbounded C loop would read past the last row or the column's neighbours. The source has undefined behaviour there.
- `Play.Game.FindStartNode`: returns `None` where the C loop would run past the last row.

## Findings

| source | as written | input that shows it | evidently intended | confidence | as-written member | corrected member |
|---|---|---|---|---|---|---|
| Pacman.c:1070-1072 | `traverseNeighbors(Man.cur, startX, startZ)` passes the row the scan started from, not the row it stopped at, so the start node's links are those of (12,6) | (12,6) out of the game, not surrounded; (12,7) and (12,8) in the game | traverse around the start node's own position, so its links lead to its own neighbours and everything reachable from it gets a dot | high, not executed | `StartNode.MovedStartMiswired` | `StartNode.CentredStartWired`, with `Wiring.BuiltIsWired` for every table |
| Pacman.c:1145-1152 | the loop stops on a node that is out of the game when its four neighbours are in it (the comment asks for a node in the game with a neighbour) | (12,6) out of the game, its four neighbours in it | stop at the first node that is in the game and has an in-game neighbour | medium, not executed | `StartNode.SurroundedStartEmpty` | `StartNode.IntendedScan`, `StartNode.IntendedStartHasDots` |

The model's `createAdjacencyList` keeps both behaviours as written. On the first table its play layer is not entered (`Play.Game.constructor` requires a wired table). On the second the game starts with numDots 0, so the first `addScores` reports a win.
