/**
 * Greedy policy extraction (`extract_policy`): every swept cell points at its best-valued
 * neighbour, reward cells show their reward and the wall is labelled as such.
 */
module Policy {
  import opened Grid
  import Solver

  /** A neighbour's score: its value, or minus infinity when the move leaves the grid. */
  datatype Score = NegInf | Finite(v: real)

  /** Strict order on scores, minus infinity below every value. */
  predicate Below(x: Score, y: Score)
  {
    match x
    case NegInf => y.Finite?
    case Finite(a) => y.Finite? && a < y.v
  }

  /**
   * `Below` is a strict total order: irreflexive, transitive, and any two different scores are
   * comparable, so the first maximum of a list of scores is well defined.
   */
  lemma BelowIsStrictTotalOrder(x: Score, y: Score, z: Score)
    ensures !Below(x, x)
    ensures Below(x, y) && Below(y, z) ==> Below(x, z)
    ensures x != y ==> Below(x, y) || Below(y, x)
  {
  }

  /**
   * Index of the first maximum, as `np.argmax` picks it: no score beats the chosen one and
   * every earlier score is strictly below it.
   */
  function ArgMax(xs: seq<Score>): (k: nat)
    requires |xs| > 0
    ensures k < |xs|
    ensures forall i :: 0 <= i < |xs| ==> !Below(xs[k], xs[i])
    ensures forall i :: 0 <= i < k ==> Below(xs[i], xs[k])
  {
    if |xs| == 1 then 0
    else
      var k := ArgMax(xs[..|xs| - 1]);
      assert forall i :: 0 <= i < |xs| - 1 ==> xs[..|xs| - 1][i] == xs[i];
      if Below(xs[k], xs[|xs| - 1]) then |xs| - 1 else k
  }

  /** What moving `a` from `c` is worth to the policy. */
  function NeighbourScore(w: World, V: Table, c: Cell, a: Action): (s: Score)
    requires Shaped(w, V)
    ensures s.Finite? <==> InBounds(w, Dest(c, a))
    ensures s.Finite? ==> s.v == At(w, V, Dest(c, a))
  {
    var d := Dest(c, a);
    if InBounds(w, d) then Finite(At(w, V, d)) else NegInf
  }

  /** The scores of the four moves, in action-list order (`next_vals`). */
  function NeighbourScores(w: World, V: Table, c: Cell): (ss: seq<Score>)
    requires Shaped(w, V)
    ensures |ss| == |Actions|
    ensures forall k :: 0 <= k < |ss| ==> ss[k] == NeighbourScore(w, V, c, Actions[k])
  {
    [NeighbourScore(w, V, c, Right), NeighbourScore(w, V, c, Left),
     NeighbourScore(w, V, c, Up), NeighbourScore(w, V, c, Down)]
  }

  /**
   * The greedy move: its neighbour scores at least as high as every other move's, and every
   * move earlier in the action list scores strictly lower.
   */
  function Greedy(w: World, V: Table, c: Cell): (a: Action)
    requires Shaped(w, V)
    ensures forall b :: !Below(NeighbourScore(w, V, c, a), NeighbourScore(w, V, c, b))
    ensures forall b :: Index(b) < Index(a) ==> Below(NeighbourScore(w, V, c, b), NeighbourScore(w, V, c, a))
  {
    var ss := NeighbourScores(w, V, c);
    var k := ArgMax(ss);
    assert forall b :: ss[Index(b)] == NeighbourScore(w, V, c, b);
    Actions[k]
  }

  /** One entry of the policy table. */
  datatype Label = RewardLabel(reward: real) | WallLabel | Move(action: Action)

  /**
   * The label of one cell: a reward key shows its reward (even at the wall's coordinate), the
   * wall is marked, and any other cell gets the greedy move.
   */
  function LabelOf(w: World, V: Table, c: Cell): (l: Label)
    requires Shaped(w, V)
    ensures c in w.rewards ==> l == RewardLabel(w.rewards[c])
    ensures c !in w.rewards && c == Wall ==> l == WallLabel
    ensures Swept(w, c) ==> l.Move?
    ensures l.Move? ==>
      && (forall b :: !Below(NeighbourScore(w, V, c, l.action), NeighbourScore(w, V, c, b)))
      && (forall b :: Index(b) < Index(l.action) ==> Below(NeighbourScore(w, V, c, b), NeighbourScore(w, V, c, l.action)))
  {
    if c in w.rewards then RewardLabel(w.rewards[c])
    else if c == Wall then WallLabel
    else Move(Greedy(w, V, c))
  }

  /** The policy table `extract_policy` returns for value table `V`, one label per cell. */
  function ExtractPolicy(w: World, V: Table): (P: seq<seq<Label>>)
    requires Shaped(w, V) && w.cols >= 0
    ensures |P| == w.rows && forall i :: 0 <= i < |P| ==> |P[i]| == w.cols
    ensures forall i, j :: 0 <= i < w.rows && 0 <= j < w.cols ==> P[i][j] == LabelOf(w, V, (i, j))
  {
    seq(w.rows, i => seq(w.cols, j => LabelOf(w, V, (i, j))))
  }

  /**
   * On a grid with more than one cell, every cell has a neighbour inside the grid, so the
   * greedy move never points outside it.
   */
  lemma PolicyMovesStayInBounds(w: World, V: Table, c: Cell)
    requires Shaped(w, V) && w.rows >= 1 && w.cols >= 1 && w.rows + w.cols > 2
    requires InBounds(w, c) && LabelOf(w, V, c).Move?
    ensures InBounds(w, Dest(c, LabelOf(w, V, c).action))
  {
    var a := LabelOf(w, V, c).action;
    var b := if c.1 + 1 < w.cols then Right else if c.1 >= 1 then Left else if c.0 >= 1 then Up else Down;
    assert InBounds(w, Dest(c, b));
    assert !Below(NeighbourScore(w, V, c, a), NeighbourScore(w, V, c, b));
  }

  /**
   * The wall is a finite neighbour: on the constructor's table for the script's configuration,
   * `(1, 0)` sees 0 to the Right (the wall), Up and Down, minus infinity to the Left, and the
   * tie goes to `Right`, so the policy points into the wall.
   */
  lemma PolicyCanPointIntoWall(g: Solver.GridWorld)
    requires Solver.New(3, 4, map[(0, 3) := 1.0, (1, 3) := -1.0], 0.9, 0.2) == Solver.Success(g)
    ensures LabelOf(g.world, g.V, (1, 0)) == Move(Right) && Dest((1, 0), Right) == Wall
  {
    var w, V := g.world, g.V;
    assert At(w, V, (1, 1)) == 0.0 && At(w, V, (0, 0)) == 0.0 && At(w, V, (2, 0)) == 0.0;
    assert NeighbourScores(w, V, (1, 0)) == [Finite(0.0), NegInf, Finite(0.0), Finite(0.0)];
  }

  /**
   * On a one-cell grid every move leaves the grid, all scores are minus infinity, and the
   * first move of the action list (`Right`) is chosen although it points outside. The
   * constructor refuses such a grid, so this is a property of the labelling rule alone.
   */
  lemma SingleCellPointsOutside(V: Table)
    requires V == [[0.0]]
    ensures var w := World(1, 1, map[], 0.9, 0.2);
      LabelOf(w, V, (0, 0)) == Move(Right) && !InBounds(w, Dest((0, 0), Right))
  {
    var w := World(1, 1, map[], 0.9, 0.2);
    assert NeighbourScores(w, V, (0, 0)) == [NegInf, NegInf, NegInf, NegInf];
  }
}
