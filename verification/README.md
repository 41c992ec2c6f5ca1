# GridWorld value iteration, modelled in Dafny

The `GridWorld` class solves a small grid Markov decision process by value iteration.
The grid has `rows × cols` cells. Reward (terminal) cells are the keys of a `rewards` map, and one wall sits at the fixed coordinate `(1, 1)`.
There are four moves, in the fixed order Right, Left, Up, Down.
An intended move succeeds with weight `1 - noise`, and each of the three other moves happens with weight `noise / 2`.

The model covers three operations:

- **The constructor** (`Solver.New`). It builds a zero table, then writes `+1` at `(0, 3)` and `-1` at `(1, 3)`.
- **The value-iteration loop**:
  - `Bellman.SweepTable` is one synchronous sweep.
  - `Bellman.SweepDelta` is that sweep's `delta`.
  - `Bellman.Sweep` / `Bellman.SweepInOrder` are the imperative copy-then-write pass.
  - `Loop.Bounded` / `Solver.Solve` / `Solver.ValueIteration` are the bounded loop that stops early.
- **Greedy policy extraction** (`Policy.ExtractPolicy`).

Modules:

- `Numeric`: `abs` and `max` on reals.
- `Grid`: cells, moves, the world configuration, dense tables and the row-major visit order.
- `Bellman`: one sweep, both as a reference function and as the imperative loop.
- `Loop`: the bounded, early-stopping iteration, generic in the step.
- `Solver`: the constructor and `value_iteration`.
- `Policy`: `extract_policy`.

Arithmetic is exact (`real`). The threshold `1e-4` is the exact constant `Solver.Eps`.

## Model

| member | source | states |
|---|---|---|
| Solver.New | GridWorld_QL.py:5-14 | Construction succeeds exactly when `rows ≥ 2` and `cols ≥ 4`. A negative dimension and a seed cell outside the table are told apart. On success the table is `rows × cols`, holds `+1` at `(0, 3)` and `-1` at `(1, 3)` whatever the reward map says, and holds 0 everywhere else. |
| Grid.Dest | GridWorld_QL.py:30 | The destination of a move is a different cell, one unit step away in a row or a column. |
| Grid.Put | GridWorld_QL.py:42 | Writing one cell keeps the table's shape, stores the value there, and leaves every other cell as it was. |
| Grid.RowMajor | GridWorld_QL.py:20-21 | The nested loops visit exactly the cells of the grid. |
| Grid.RowMajorSorted | GridWorld_QL.py:20-21 | The visit order is strictly increasing in row-major order, so every cell is visited once. |
| Numeric.Abs | GridWorld_QL.py:41 | The absolute change is non-negative and is the change or its negation. |
| Numeric.Max2 | GridWorld_QL.py:41 | Python's two-argument `max` is an upper bound of both arguments and is one of them. |
| Numeric.MaxOf | GridWorld_QL.py:40 | `max(actions_val)` is an element of the list and bounds every element. |
| Bellman.Weight | GridWorld_QL.py:34-37 | The weight of actual move `b` under intended move `a`: `1 - noise` for the intended move itself, `noise / 2` for each other move. Their sum is stated by `Bellman.TransitionMass`. |
| Bellman.Term | GridWorld_QL.py:30-37 | One actual move's contribution to `next_val`: nothing when the destination leaves the grid, otherwise its weight times `gamma` times the old value there. The wall is not excluded as a destination. |
| Bellman.Expected | GridWorld_QL.py:28-38 | `next_val` for one intended move: the four contributions summed in action order, starting from 0. |
| Bellman.TransitionMass | GridWorld_QL.py:34-37 | The four weights of one intended move add up to `1 + noise / 2`, not 1. |
| Bellman.ActionValues | GridWorld_QL.py:26-38 | `actions_val` has one entry per intended move, in action order, and each entry is that move's expected value. |
| Bellman.Backup | GridWorld_QL.py:26-40 | The new value of a swept cell is at least every intended move's expected value and equals one of them. |
| Bellman.BackupIsLocal | GridWorld_QL.py:29-37 | A cell's backup depends only on the old values of its in-bounds neighbours. |
| Bellman.CornerIgnoresUpAndLeft | GridWorld_QL.py:30-32 | At `(0, 0)`, Up and Left leave the grid and contribute nothing, so only Right and Down count. |
| Bellman.ZeroNeighboursGiveZero | GridWorld_QL.py:28-38 | If every in-bounds neighbour holds 0, the backup is 0, however many moves leave the grid. |
| Bellman.NewValue | GridWorld_QL.py:22-42 | A cell's value after a sweep: the backup for a swept cell, the old value for a reward cell or the wall. `Bellman.SweepTableAt` states that the sweep's table holds it. |
| Bellman.SweepTable | GridWorld_QL.py:18-43 | One synchronous sweep: a table of the grid's shape whose cells are the new values, all computed from the previous table. |
| Bellman.SweepTableAt | GridWorld_QL.py:18-43 | After a sweep, each cell holds its backup when it is swept and its old value otherwise. |
| Bellman.SweepKeepsSkipped | GridWorld_QL.py:22-25 | Reward cells and the wall keep their value across a sweep. |
| Bellman.SweepIsBellmanMax | GridWorld_QL.py:26-42 | After a sweep, a swept cell holds the largest expected value over the four intended moves. |
| Bellman.MaxChangeUnique | GridWorld_QL.py:19-41 | The maximal change over the swept cells is determined by the two tables alone. |
| Bellman.Visit | GridWorld_QL.py:20-42 | The loop body for one cell: out-of-grid cells, reward cells and the wall leave the copy and `delta` as they are; any other cell gets its backup written into the copy, and `delta` becomes the larger of itself and the cell's absolute change. |
| Bellman.Run | GridWorld_QL.py:18-42 | The copy and `delta` after visiting a sequence of cells in order, starting from the copy `new_V = V` and `delta = 0`. The result keeps the grid's shape. |
| Bellman.OrderIrrelevant | GridWorld_QL.py:18-43 | Visiting the cells in any order that covers the grid gives the same table and the same `delta`: the update reads only the old table. |
| Bellman.SweepInOrder | GridWorld_QL.py:18-43 | The copy-then-write pass, in any covering order, returns the sweep's table and its maximal change. |
| Bellman.SweepDelta | GridWorld_QL.py:19-41 | `delta` after the row-major pass. `Bellman.SweepDeltaIsMaxChange` states what it is. |
| Bellman.SweepDeltaIsMaxChange | GridWorld_QL.py:19-41 | `delta` is non-negative and bounds the change of every swept cell. It equals the change of some swept cell, or is 0 when no cell is swept. Reward cells and the wall never count. |
| Bellman.Sweep | GridWorld_QL.py:18-43 | The row-major pass of the code yields exactly the sweep's table and its `delta`. |
| Loop.IterShift | GridWorld_QL.py:17-43 | One step followed by `k` steps is `k + 1` steps. |
| Loop.Bounded | GridWorld_QL.py:16-49 | The bounded loop as a function: no step when the budget is not positive, otherwise between 1 and `budget` steps, leaving right after the first step whose `delta` is below `eps`. |
| Loop.BoundedStopsAtFirstSmallDelta | GridWorld_QL.py:16-49 | The loop takes no step for a budget ≤ 0 and between 1 and `budget` steps otherwise. Its state is that after that many steps. Every step but the last had `delta ≥ eps`. Stopping before the budget means the last step had `delta < eps`. |
| Loop.BoundedStoppedEarly | GridWorld_QL.py:47-49 | If the loop stopped before the budget ran out, its last step reported `delta` below `eps`. |
| Loop.BoundedKeptGoing | GridWorld_QL.py:17-47 | Every step before the loop's last one reported `delta` of at least `eps`. |
| Loop.BoundedLoop | GridWorld_QL.py:16-49 | The imperative loop, which leaves right after a step whose `delta` is below `eps`, computes the bounded, early-stopping iteration. |
| Solver.SkippedCellsFixed | GridWorld_QL.py:18-25 | Reward cells and the wall keep their value across any number of sweeps. |
| Solver.WallStaysZero | GridWorld_QL.py:11-25 | From the constructor's table, the wall is inside the grid and holds 0 after any number of sweeps. |
| Solver.WallAddsNothing | GridWorld_QL.py:30-37 | From the constructor's table, a move into the wall adds 0 to every expected value, although the code does not exclude it. |
| Solver.ScriptFirstSweep | GridWorld_QL.py:97-105 | For the script's configuration, the first sweep gives `(0, 2)` the value 0.72 and `(1, 2)` the value -0.09. |
| Solver.DeltaTest | GridWorld_QL.py:41-47 | The test `delta < 1e-4` holds exactly when no swept cell changed by `1e-4` or more. |
| Solver.Solve | GridWorld_QL.py:16-49 | `value_iteration` as a function on the table: with `max_iterations ≤ 0` the table is unchanged and no sweep runs, otherwise 1 to `max_iterations` sweeps run. |
| Solver.SolveIsIterate | GridWorld_QL.py:17-43 | The loop's final table is that of plain iteration for the number of sweeps it ran. |
| Solver.SolveTestFailed | GridWorld_QL.py:17-47 | Every sweep before the last one the loop ran had `delta ≥ 1e-4`. |
| Solver.SolveTestPassed | GridWorld_QL.py:41-49 | If the loop stopped before `max_iterations` sweeps, its last sweep had `delta < 1e-4`. |
| Solver.SolveStopsAtFirstSmallDelta | GridWorld_QL.py:16-49 | With `max_iterations ≤ 0` no sweep runs and the table is unchanged. Otherwise 1 to `max_iterations` sweeps run. The table is that of plain iteration for that many sweeps. Every sweep before the last had `delta ≥ 1e-4`. Stopping early means the last sweep had `delta < 1e-4`. |
| Solver.ValueIteration | GridWorld_QL.py:16-49 | `value_iteration` leaves the configuration alone and yields the table and sweep count of the bounded loop. |
| Policy.Below | GridWorld_QL.py:79-83 | The comparison `np.argmax` applies to `next_vals`: minus infinity lies below every value, and values compare as reals. |
| Policy.BelowIsStrictTotalOrder | GridWorld_QL.py:79-83 | That comparison is irreflexive and transitive, and any two different scores are comparable. |
| Policy.ArgMax | GridWorld_QL.py:83 | `np.argmax` returns an index no score beats, and every earlier score is strictly smaller. |
| Policy.NeighbourScore | GridWorld_QL.py:77-82 | A neighbour's score is finite exactly when the move stays inside the grid, and a finite score is the value the table holds at the destination. |
| Policy.NeighbourScores | GridWorld_QL.py:76-82 | `next_vals` has one score per move, in action order. |
| Policy.Greedy | GridWorld_QL.py:76-92 | The chosen move's neighbour is not beaten by any other move's, and every earlier move's neighbour is strictly worse. |
| Policy.LabelOf | GridWorld_QL.py:69-92 | A reward key gets its reward label, checked first. The wall gets the wall label. Every other cell gets a move that is maximal and first among maximal ones. |
| Policy.ExtractPolicy | GridWorld_QL.py:65-93 | The policy table is `rows × cols`, and each entry carries the guarantees of `Policy.LabelOf` for its cell: reward label, wall label, or first maximal move. The input table is not changed. |
| Policy.PolicyMovesStayInBounds | GridWorld_QL.py:76-92 | On a grid with more than one cell, the chosen move never points outside the grid. |
| Policy.PolicyCanPointIntoWall | GridWorld_QL.py:72-86 | The wall is a finite neighbour for the policy. On the constructor's table for the script's configuration, `(1, 0)` ties at 0 to the Right, Up and Down, and the tie goes to `Right`, which points into the wall. |
| Policy.SingleCellPointsOutside | GridWorld_QL.py:79-86 | The labelling rule on a 1 × 1 table: every score is minus infinity and `Right` is chosen, although it points outside. The constructor refuses such a grid, so no solver reaches this case. |

## Left out

- Printing: `print_grid_values`, the per-iteration and convergence messages, and the policy printing loop (GridWorld_QL.py:44-45, 48, 51-63, 109-115). They are output formatting with no effect on the state.
- Policy strings: `np.empty(..., dtype=str)` stores one-character strings, so the code's labels are truncated to `R`, `L`, `U`, `D`, `+`, `-` and `W`. `Policy.Label` keeps the reward, the wall tag or the move instead.
- Floating point:
  - tables are exact reals, with no rounding and no NaN or infinity inside a table;
  - `float("-inf")` in the policy is the `Score.NegInf` tag.
- Convergence or contraction: the code promises none. With `noise / 2` weights the transition weight of a move is `1 + noise / 2` (`Bellman.TransitionMass`).
- Constructor errors: NumPy raises on a negative dimension or an out-of-range seed index. `Solver.New` returns the `Failure` value instead of raising.
- Solver.New: seeds `(0, 3)` and `(1, 3)` as the code does. Reward keys elsewhere start at 0 rather than at their reward.
- Policy.ExtractPolicy: requires `cols ≥ 0`, because `np.empty` rejects a negative dimension even when `rows = 0`.
- Solver.ValueIteration: each round uses the sweep as the functions `Bellman.SweepTable` and `Bellman.SweepDelta`. It does not call the method `Bellman.Sweep`, whose contract shows the two agree.
- Solver.ValueIteration: its contract equates the result with `Solver.Solve`. The sweep bounds and the stopping rule are stated by `Solver.SolveStopsAtFirstSmallDelta`.
- The wall as a destination: the code does not exclude the wall as a destination and reads `V[1, 1]`. The model follows the code. In the sweep, that value stays 0 from the constructor's table (`Solver.WallAddsNothing`), so the wall's terms vanish as if excluded. The policy does not exclude the wall either: the wall scores its value like any other neighbour, so the policy can point into it (`Policy.PolicyCanPointIntoWall`).
- A 1 × 2 grid cannot be constructed: the constructor writes `V[0, 3]` and `V[1, 3]`, so a grid with fewer than 2 rows or 4 columns raises at construction.
- The script's top-level run (GridWorld_QL.py:96-106) appears only as the concrete instance in `Solver.ScriptFirstSweep`.
