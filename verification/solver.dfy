/**
 * The solver object: construction of the initial value table and the bounded, early-stopping
 * loop of synchronous sweeps (`value_iteration`).
 */
module Solver {
  import opened Numeric
  import opened Grid
  import opened Bellman
  import opened Loop

  datatype Result<T, E> = Success(value: T) | Failure(error: E)

  /**
   * Why construction raises: the array library refuses a negative dimension, and the two
   * seeded cells `(0, 3)` and `(1, 3)` must lie inside the array.
   */
  datatype InitError = NegativeDimension | SeedOutOfRange

  /** The solver state: its configuration and the current value table `V`. */
  datatype GridWorld = GridWorld(world: World, V: Table)

  /** The convergence threshold on a sweep's `delta`. */
  const Eps: real := 0.0001

  /** The cells the constructor seeds, whatever the reward map says. */
  const Goal: Cell := (0, 3)
  const Pit: Cell := (1, 3)

  function Zeros(rows: nat, cols: nat): (V: Table)
    ensures |V| == rows && forall i :: 0 <= i < rows ==> |V[i]| == cols
    ensures forall i, j :: 0 <= i < rows && 0 <= j < cols ==> V[i][j] == 0.0
  {
    seq(rows, i => seq(cols, j => 0.0))
  }

  /**
   * The constructor: a zero table with `+1` at `(0, 3)` and `-1` at `(1, 3)`. The reward map is
   * stored but does not seed the table; the four-move action list is the constant `Actions`.
   */
  function New(rows: int, cols: int, rewards: map<Cell, real>, gamma: real, noise: real)
    : (r: Result<GridWorld, InitError>)
    ensures r.Success? <==> rows >= 2 && cols >= 4
    ensures r.Failure? ==> (r.error == NegativeDimension <==> rows < 0 || cols < 0)
    ensures r.Success? ==>
      && r.value.world == World(rows, cols, rewards, gamma, noise)
      && Shaped(r.value.world, r.value.V)
      && At(r.value.world, r.value.V, Goal) == 1.0
      && At(r.value.world, r.value.V, Pit) == -1.0
      && forall c :: InBounds(r.value.world, c) && c != Goal && c != Pit ==> At(r.value.world, r.value.V, c) == 0.0
  {
    if rows < 0 || cols < 0 then Failure(NegativeDimension)
    else if rows < 2 || cols < 4 then Failure(SeedOutOfRange)
    else
      var w := World(rows, cols, rewards, gamma, noise);
      Success(GridWorld(w, Put(w, Put(w, Zeros(rows, cols), Goal, 1.0), Pit, -1.0)))
  }

  /** One sweep as a step on tables; a table of the wrong shape is left as it is. */
  function Next(w: World): Table -> Table
  {
    V => if Shaped(w, V) then SweepTable(w, V) else V
  }

  /** The `delta` one sweep reports; `0` for a table of the wrong shape. */
  function Change(w: World): Table -> real
  {
    V => if Shaped(w, V) then SweepDelta(w, V) else 0.0
  }

  lemma {:induction false} IterateShaped(w: World, V: Table, k: nat)
    requires Shaped(w, V)
    ensures Shaped(w, Iter(Next(w), V, k))
  {
    if k > 0 {
      IterateShaped(w, V, k - 1);
    }
  }

  /** The table after `k` sweeps, with no early stop. */
  function Iterate(w: World, V: Table, k: nat): (r: Table)
    requires Shaped(w, V)
    ensures Shaped(w, r)
  {
    IterateShaped(w, V, k);
    Iter(Next(w), V, k)
  }

  /** Reward cells and the wall keep their value across any number of sweeps. */
  lemma {:induction false} SkippedCellsFixed(w: World, V: Table, k: nat, c: Cell)
    requires Shaped(w, V) && InBounds(w, c) && !Swept(w, c)
    ensures At(w, Iterate(w, V, k), c) == At(w, V, c)
  {
    if k > 0 {
      SkippedCellsFixed(w, V, k - 1, c);
      SweepKeepsSkipped(w, Iterate(w, V, k - 1), c);
    }
  }

  /** Starting from the constructor's table, the wall holds 0 after any number of sweeps. */
  lemma WallStaysZero(g: GridWorld, k: nat)
    requires New(g.world.rows, g.world.cols, g.world.rewards, g.world.gamma, g.world.noise) == Success(g)
    ensures InBounds(g.world, Wall)
    ensures At(g.world, Iterate(g.world, g.V, k), Wall) == 0.0
  {
    SkippedCellsFixed(g.world, g.V, k, Wall);
  }

  /**
   * The code does not exclude the wall as a destination, but from the constructor's table on,
   * a move into the wall adds nothing to any expected value.
   */
  lemma WallAddsNothing(g: GridWorld, k: nat, c: Cell, a: Action, b: Action)
    requires New(g.world.rows, g.world.cols, g.world.rewards, g.world.gamma, g.world.noise) == Success(g)
    requires Dest(c, b) == Wall
    ensures Term(g.world, Iterate(g.world, g.V, k), c, a, b) == 0.0
  {
    WallStaysZero(g, k);
  }

  /** The configuration the script runs. */
  const ScriptWorld: World := World(3, 4, map[(0, 3) := 1.0, (1, 3) := -1.0], 0.9, 0.2)

  /** Next to the goal, with zeros elsewhere around it, the best move is towards the goal. */
  lemma SweepNextToGoal(V: Table)
    requires Shaped(ScriptWorld, V)
    requires At(ScriptWorld, V, (0, 3)) == 1.0 && At(ScriptWorld, V, (0, 1)) == 0.0 && At(ScriptWorld, V, (1, 2)) == 0.0
    ensures NewValue(ScriptWorld, V, (0, 2)) == 0.72
  {
    var w := ScriptWorld;
    assert Expected(w, V, (0, 2), Right) == 0.72;
    assert Expected(w, V, (0, 2), Left) == 0.09;
    assert Expected(w, V, (0, 2), Up) == 0.09;
    assert Expected(w, V, (0, 2), Down) == 0.09;
  }

  /** Next to the pit, with zeros elsewhere around it, the best moves are those away from it. */
  lemma SweepNextToPit(V: Table)
    requires Shaped(ScriptWorld, V)
    requires At(ScriptWorld, V, (1, 3)) == -1.0 && At(ScriptWorld, V, (1, 1)) == 0.0
    requires At(ScriptWorld, V, (0, 2)) == 0.0 && At(ScriptWorld, V, (2, 2)) == 0.0
    ensures NewValue(ScriptWorld, V, (1, 2)) == -0.09
  {
    var w := ScriptWorld;
    assert Expected(w, V, (1, 2), Right) == -0.72;
    assert Expected(w, V, (1, 2), Left) == -0.09;
    assert Expected(w, V, (1, 2), Up) == -0.09;
    assert Expected(w, V, (1, 2), Down) == -0.09;
  }

  /**
   * The script's configuration (3 x 4 grid, rewards `+1` at `(0, 3)` and `-1` at `(1, 3)`,
   * `gamma = 0.9`, `noise = 0.2`): the first sweep gives the cell left of the goal
   * `0.8 * 0.9 * 1 = 0.72`, and the cell left of the pit, whose best move avoids it,
   * `0.1 * 0.9 * -1 = -0.09` (`SweepTableAt` puts these new values into the swept table).
   */
  lemma ScriptFirstSweep(g: GridWorld)
    requires New(3, 4, map[(0, 3) := 1.0, (1, 3) := -1.0], 0.9, 0.2) == Success(g)
    ensures NewValue(g.world, g.V, (0, 2)) == 0.72
    ensures NewValue(g.world, g.V, (1, 2)) == -0.09
  {
    assert g.world == ScriptWorld;
    SweepNextToGoal(g.V);
    SweepNextToPit(g.V);
  }

  /** No swept cell moves by `Eps` or more in a sweep from `V`. */
  ghost predicate Settled(w: World, V: Table)
    requires Shaped(w, V)
  {
    forall c :: InBounds(w, c) && Swept(w, c) ==> Abs(At(w, SweepTable(w, V), c) - At(w, V, c)) < Eps
  }

  /** The convergence test on `delta` holds exactly when no swept cell changed by `Eps` or more. */
  lemma DeltaTest(w: World, V: Table)
    requires Shaped(w, V)
    ensures SweepDelta(w, V) < Eps <==> Settled(w, V)
  {
    var T, d := SweepTable(w, V), SweepDelta(w, V);
    SweepDeltaIsMaxChange(w, V);
    MaxChangeBelow(w, V, T, d, Eps);
  }

  /**
   * The loop of `value_iteration` on the solver's own sweep: the final table and the number of
   * sweeps run.
   */
  function Solve(w: World, V: Table, budget: int): (r: (Table, nat))
    requires Shaped(w, V)
    ensures budget <= 0 ==> r == (V, 0)
    ensures budget > 0 ==> 1 <= r.1 <= budget
  {
    Bounded(Next(w), Change(w), Eps, V, budget)
  }

  /** On a table of the right shape, `Change` is the sweep's `delta`. */
  lemma ChangeAt(w: World, V: Table, k: nat)
    requires Shaped(w, V)
    ensures Change(w)(Iter(Next(w), V, k)) == SweepDelta(w, Iterate(w, V, k))
  {
    IterateShaped(w, V, k);
  }

  /** The loop's table is that of plain iteration for the number of sweeps it ran. */
  lemma SolveIsIterate(w: World, V: Table, budget: int)
    requires Shaped(w, V)
    ensures Solve(w, V, budget).0 == Iterate(w, V, Solve(w, V, budget).1)
  {
    BoundedStopsAtFirstSmallDelta(Next(w), Change(w), Eps, V, budget);
  }

  /** Every sweep before the last one the loop ran had `delta` of at least `Eps`. */
  lemma SolveTestFailed(w: World, V: Table, budget: int, k: nat)
    requires Shaped(w, V) && k < Solve(w, V, budget).1 - 1
    ensures SweepDelta(w, Iterate(w, V, k)) >= Eps
  {
    BoundedKeptGoing(Next(w), Change(w), Eps, V, budget, k);
    ChangeAt(w, V, k);
  }

  /** If the loop stopped before the budget ran out, its last sweep had `delta` below `Eps`. */
  lemma SolveTestPassed(w: World, V: Table, budget: int)
    requires Shaped(w, V) && 0 < Solve(w, V, budget).1 < budget
    ensures SweepDelta(w, Iterate(w, V, Solve(w, V, budget).1 - 1)) < Eps
  {
    var n := Solve(w, V, budget).1;
    BoundedStoppedEarly(Next(w), Change(w), Eps, V, budget, n);
    ChangeAt(w, V, n - 1);
  }

  /**
   * No sweep runs when the budget is not positive, and between 1 and `budget` otherwise; the
   * final table is that of plain iteration for the number of sweeps run; every sweep before the
   * last one failed the convergence test; and if the loop stopped before the budget ran out, the
   * last sweep passed it.
   */
  lemma SolveStopsAtFirstSmallDelta(w: World, V: Table, budget: int)
    requires Shaped(w, V)
    ensures var (T, n) := Solve(w, V, budget);
      && (if budget <= 0 then n == 0 && T == V else 1 <= n <= budget)
      && T == Iterate(w, V, n)
      && (forall k :: 0 <= k < n - 1 ==> SweepDelta(w, Iterate(w, V, k)) >= Eps)
      && (0 < n < budget ==> SweepDelta(w, Iterate(w, V, n - 1)) < Eps)
  {
    var n := Solve(w, V, budget).1;
    SolveIsIterate(w, V, budget);
    forall k | 0 <= k < n - 1
      ensures SweepDelta(w, Iterate(w, V, k)) >= Eps
    {
      SolveTestFailed(w, V, budget, k);
    }
    if 0 < n < budget {
      SolveTestPassed(w, V, budget);
    }
  }

  /**
   * `value_iteration`: at most `maxIterations` sweeps, stopping right after the first sweep
   * whose `delta` is below `Eps`.
   */
  method ValueIteration(g: GridWorld, maxIterations: int) returns (g': GridWorld, sweeps: nat)
    requires Shaped(g.world, g.V)
    ensures g'.world == g.world
    ensures (g'.V, sweeps) == Solve(g.world, g.V, maxIterations)
  {
    var V;
    V, sweeps := BoundedLoop(Next(g.world), Change(g.world), Eps, g.V, maxIterations);
    g' := GridWorld(g.world, V);
  }
}
