# God's algorithm table (twsearch), modelled in Dafny

This project models the breadth-first "God's algorithm" table builder of twsearch,
`src/rs/gods_algorithm/gods_algorithm_table.rs`. A search is built from three things:
- a packed puzzle;
- an optional start pattern;
- a list of moves.

Building a search caches each move with its transformation and the transformation of
its inverse. The build is all-or-nothing: if any move fails to convert, the build fails
and no search exists. `fill` then seeds depth 0 with the start pattern. Without a start
pattern it seeds the puzzle's default pattern.

Each round of `fill` takes the latest frontier out of its slot and applies every cached
inverse transformation to every pattern. A pattern the table has not seen yet is recorded
at the new depth and appended to the new frontier. When a round finds nothing new, the
table is marked completed and the maximum depth is `current_depth - 1`.

The project has five modules:
- `Wrappers`: `Option` and `Result`.
- `KPuzzle`: the puzzle as a capability record. It has a default pattern and three
  total functions: move→transformation (which can fail), move inversion, and
  transformation application. It also holds `ConversionError`.
- `MoveCache`: `CachedMoveInfo::try_new`, and the collect into one `Result` that
  `GodsAlgorithmSearch::try_new` performs.
- `Reachability`: an independent reference definition of breadth-first levels:
  - `Within(k)`: the patterns reachable in at most k moves;
  - `Level(d)`: the patterns whose distance is exactly d;
  - paths of moves, with `Walk` giving the pattern a path reaches.
- `GodsAlgorithm`:
  - the classes `GodsAlgorithmTable` and `GodsAlgorithmSearch`;
  - the imperative BFS: `ExpandFrontier` for the nested `for` loops, `NextDepth` for one
    round of the `while` loop, and `Fill` for the rest;
  - the invariant `Explored` that connects the mutable state to the reference levels.

`Fill` takes a ghost `universe`: any finite set that contains the start pattern and is
closed under every move. It exists only to give the loop a termination measure. `Fill`
also returns a ghost `frontiers`, the history of the frontiers in the order they were
pushed. The real slots in `bulkQueues` are emptied as each frontier is consumed.

## Model

| member | source | states |
|---|---|---|
| GodsAlgorithm.GodsAlgorithmTable.constructor | src/rs/gods_algorithm/gods_algorithm_table.rs:23-29 | a new table is not completed and maps no pattern |
| MoveCache.TryNew | src/rs/gods_algorithm/gods_algorithm_table.rs:44-51 | succeeds iff both the move and its inverse convert; on success it keeps the move and both transformations; on failure it carries the move's own error if that conversion failed, else the inverse's error |
| MoveCache.TryNewAll | src/rs/gods_algorithm/gods_algorithm_table.rs:79-84 | succeeds iff every move caches; on success the cached list has the input's length and order, one entry per move; on failure the error is that of the first move that fails, and every earlier move cached |
| GodsAlgorithm.GodsAlgorithmSearch.constructor | src/rs/gods_algorithm/gods_algorithm_table.rs:85-96 | keeps the puzzle, start pattern and cached moves; the table is fresh, empty and not completed; there are no frontier slots |
| GodsAlgorithm.GodsAlgorithmSearch.TryNew | src/rs/gods_algorithm/gods_algorithm_table.rs:74-97 | returns a search iff every move caches, else the first error's description; a search holds exactly the cached moves in order and an empty, incomplete table |
| GodsAlgorithm.GodsAlgorithmSearch.StartPattern | src/rs/gods_algorithm/gods_algorithm_table.rs:100-103 | the explicit start pattern when one is given, else the puzzle's default pattern |
| KPuzzle.ConversionError.ToString | src/rs/gods_algorithm/gods_algorithm_table.rs:84 | the error's text is its description (an abstraction of `to_string`, see the KPuzzle.ConversionError.ToString line under "Left out") |
| GodsAlgorithm.ExploredSeed | src/rs/gods_algorithm/gods_algorithm_table.rs:104-108 | the seeded state (start at depth 0, frontier 0 = [start]) is the explored state of level 0 |
| GodsAlgorithm.RecordedStep | src/rs/gods_algorithm/gods_algorithm_table.rs:139-153 | a candidate already in the table changes nothing; a new one is appended to the frontier and recorded at the current depth, and older entries are never overwritten |
| GodsAlgorithm.GodsAlgorithmSearch.ExpandFrontier | src/rs/gods_algorithm/gods_algorithm_table.rs:132-182 | tests exactly frontier size × move count pairs; the new frontier lists, once each, exactly the one-move successors of the old frontier that the table lacked; the table gains exactly those, at the current depth, and keeps every old entry; the remaining-candidates figure is never negative |
| GodsAlgorithm.MulStep | src/rs/gods_algorithm/gods_algorithm_table.rs:132-133 | the pairs tested before a pattern's moves, plus its moves, never exceed frontier size × move count |
| GodsAlgorithm.ExploredExtend | src/rs/gods_algorithm/gods_algorithm_table.rs:111-208 | one expansion of an explored state yields the explored state of the next level |
| GodsAlgorithm.FoundNextLevel | src/rs/gods_algorithm/gods_algorithm_table.rs:136-149 | the new frontier lists exactly the next level, and the table's keys become the patterns within one more step |
| GodsAlgorithm.FoundIsNextLevel | src/rs/gods_algorithm/gods_algorithm_table.rs:136-149 | the successors of level c that are not within c steps are exactly level c+1 |
| GodsAlgorithm.EntryLevel | src/rs/gods_algorithm/gods_algorithm_table.rs:150-152 | every table entry lies in the frontier of its recorded depth, and that depth is its distance from the start |
| GodsAlgorithm.LevelsAreDepths | src/rs/gods_algorithm/gods_algorithm_table.rs:150-152 | every pattern at distance d (for a level already explored) is in the table at depth d |
| GodsAlgorithm.ExploredFrontiers | src/rs/gods_algorithm/gods_algorithm_table.rs:150-152 | frontier d holds exactly the table's depth-d entries (both directions) |
| GodsAlgorithm.FrontiersDisjoint | src/rs/gods_algorithm/gods_algorithm_table.rs:143-145 | no pattern is in two frontiers |
| GodsAlgorithm.ExploredParents | src/rs/gods_algorithm/gods_algorithm_table.rs:137-141 | every pattern of frontier d > 0 is one move from a pattern of frontier d−1 |
| GodsAlgorithm.ExploredHistory | src/rs/gods_algorithm/gods_algorithm_table.rs:111-208 | the three frontier facts above hold in every explored state |
| GodsAlgorithm.ExploredCompleted | src/rs/gods_algorithm/gods_algorithm_table.rs:200-203 | once a level is empty, the table holds exactly the patterns within the previous depth, and that set is closed under every move |
| GodsAlgorithm.CompletedMaxDepth | src/rs/gods_algorithm/gods_algorithm_table.rs:210 | when the last level is empty and the one before is not, every depth is at most (number of frontiers) − 2 and some pattern has exactly that depth |
| GodsAlgorithm.CompletedTable | src/rs/gods_algorithm/gods_algorithm_table.rs:200-210 | a completed table has the start at 0, is closed under every move, attains max depth, and records for every pattern the length of a shortest move sequence reaching it |
| GodsAlgorithm.TotalSizeSnoc | src/rs/gods_algorithm/gods_algorithm_table.rs:184-185 | pushing a frontier adds its size to the running total |
| GodsAlgorithm.TableInUniverse | src/rs/gods_algorithm/gods_algorithm_table.rs:111 | the table of an explored state never outgrows a finite move-closed universe containing the start (the loop's termination bound) |
| GodsAlgorithm.QueuesAfterPush | src/rs/gods_algorithm/gods_algorithm_table.rs:112-115 | taking the latest frontier out of its slot, leaving an empty placeholder, and pushing the new frontier keeps the slot layout: every consumed slot is empty and the last slot holds the latest frontier |
| GodsAlgorithm.QueuesDrained | src/rs/gods_algorithm/gods_algorithm_table.rs:196-203 | once the latest frontier is empty, every slot is empty |
| GodsAlgorithm.SearchFinished | src/rs/gods_algorithm/gods_algorithm_table.rs:111-210 | when the loop stops, at least one round ran, so max_depth = current_depth − 1 does not underflow; the frontier before the last was non-empty; every slot is empty |
| GodsAlgorithm.GodsAlgorithmSearch.NextDepth | src/rs/gods_algorithm/gods_algorithm_table.rs:112-204 | one loop round keeps the loop invariant for one more frontier: slot layout, frontier 0 = [start], explored state, running total = the table's size = sum of frontier sizes, and the table grows by the new frontier's size; completed is set iff the new frontier is empty |
| GodsAlgorithm.GodsAlgorithmSearch.Fill | src/rs/gods_algorithm/gods_algorithm_table.rs:99-210 | terminates with completed set and the start (or the default pattern) at depth 0; frontier 0 = [start]; frontiers 0..max_depth are non-empty and the last is empty; every slot is empty; the total = the table's size = sum of frontier sizes; each frontier is exactly its depth's entries, frontiers are disjoint, each entry has a parent one level up; the table is the finished God's algorithm table with max_depth = current_depth − 1 |
| Reachability.NextLevel | src/rs/gods_algorithm/gods_algorithm_table.rs:136-149 | level k+1 is the one-move successors of level k that are not within k moves |
| Reachability.LevelsDisjoint | src/rs/gods_algorithm/gods_algorithm_table.rs:143-145 | distinct levels share no pattern |
| Reachability.WithinLevel | src/rs/gods_algorithm/gods_algorithm_table.rs:150-152 | a pattern within k moves lies in some level d ≤ k |
| Reachability.LevelParent | src/rs/gods_algorithm/gods_algorithm_table.rs:137-141 | every pattern of level d+1 is one move from a pattern of level d |
| Reachability.WithinInClosed | src/rs/gods_algorithm/gods_algorithm_table.rs:111 | every set that holds the start and is closed under every move contains all patterns within k moves |
| Reachability.NoNewMeansClosed | src/rs/gods_algorithm/gods_algorithm_table.rs:200-203 | if level n+1 is empty, the patterns within n moves are closed under every move |
| Reachability.PathInWithin | src/rs/gods_algorithm/gods_algorithm_table.rs:136-149 | following a path of k moves from the start reaches a pattern within k moves |
| Reachability.WithinHasPath | src/rs/gods_algorithm/gods_algorithm_table.rs:136-149 | every pattern within k moves is reached by some path of at most k moves |
| Reachability.LevelIsShortest | src/rs/gods_algorithm/gods_algorithm_table.rs:150-152 | a pattern of level d is reached by a path of length d, and by no shorter path |
| Reachability.ShortestPaths | src/rs/gods_algorithm/gods_algorithm_table.rs:150-152 | a closed table of levels holds every pattern any path reaches, at a depth no greater than the path's length, and each depth is attained by a path |
| Reachability.NeighbourDepth | src/rs/gods_algorithm/gods_algorithm_table.rs:136-149 | in a closed table of levels the neighbour of an entry by any move is present, at a depth at most one greater |

## Left out

- Progress reporting is left out: `MultiProgress`, the progress bars and their styles
  (lines 64, 120-130, 151-158, 166-179, 185-193, 198 and 200-208). Only the remaining-candidates figure is
  kept, as a value whose non-negativity is checked.
- The final summary (lines 211-220) is left out: `println!`, the `thousands` formatting,
  `factor_number` and the elapsed `Instant`. `Fill` instead returns the two figures it
  prints, `num_patterns_total` and `max_depth`.
- The `multi_progress_bar` field is left out; it only feeds progress reporting.
- `GodsAlgorithmTable`'s `Default` impl (lines 32-36) is not modelled separately; it delegates to `new`.
- `PackedKPuzzle`, `PackedKPattern` and `PackedKTransformation` are opaque type
  parameters. Pattern packing, hashing, equality semantics, move parsing and
  `Move::invert` are outside the core; `transformation_from_move`, `invert` and
  `apply_transformation` are function fields of `PackedKPuzzle`.
- KPuzzle.ConversionError.ToString: `ConversionError::to_string` is modelled as returning the error's description. Its
  real text is defined outside the core.
- `BulkQueue` is modelled as a plain sequence: chunking and `sublists_for_iterator` only
  change storage, not the patterns or their order.
- `BulkQueue::bogus_new` is modelled as an empty sequence.
- GodsAlgorithm.GodsAlgorithmSearch.Fill: its contract describes only one call on a freshly built
  search (`Unfilled`). A second call in the source would find `completed` already set,
  skip the loop and underflow `current_depth - 1`.
- GodsAlgorithm.GodsAlgorithmSearch.Fill: it takes a ghost `universe` (finite, holding the start,
  closed under every move) to prove termination. In the source, termination depends on
  the puzzle having finitely many patterns, which is not expressible about an opaque
  pattern type.
- `usize` widths (counters, depths and `num_to_test_at_current_depth`) are written as
  unbounded naturals. Overflow of the multiplication at line 132 is not modelled.
- `src/cpp/solve.h` and `src/rs/_internal/wasm/wasm_api.rs` are unrelated parts of
  twsearch (an IDA* solver header and a wasm scramble entry point), not modelled.
- `mem::replace` swaps an empty placeholder into each slot before its frontier is
  expanded, so every slot is empty at the end; `Fill` states this, and the frontier
  history is kept only as ghost state.
