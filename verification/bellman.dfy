/**
 * One synchronous Bellman-optimality sweep over the value table: the body of
 * `value_iteration` for a single iteration.
 */
module Bellman {
  import opened Numeric
  import opened Grid

  /**
   * Weight of actual move `b` when `a` is intended: `1 - noise` for the intended move and
   * `noise / 2` for each of the other three, so the four weights add up to `1 + noise / 2`.
   */
  function Weight(noise: real, a: Action, b: Action): real
  {
    if a == b then 1.0 - noise else noise / 2.0
  }

  /** The four weights of one intended move sum to more than one whenever `noise > 0`. */
  lemma TransitionMass(noise: real, a: Action)
    ensures Weight(noise, a, Right) + Weight(noise, a, Left) + Weight(noise, a, Up) + Weight(noise, a, Down)
            == 1.0 + noise / 2.0
  {
  }

  /** Contribution of actual move `b` to the value of intended move `a`; nothing when `b` leaves the grid. */
  function Term(w: World, V: Table, c: Cell, a: Action, b: Action): real
    requires Shaped(w, V)
  {
    var d := Dest(c, b);
    if InBounds(w, d) then Weight(w.noise, a, b) * (w.gamma * At(w, V, d)) else 0.0
  }

  /** Expected discounted next value of intending `a` at `c`, accumulated over the actual moves in list order. */
  function Expected(w: World, V: Table, c: Cell, a: Action): real
    requires Shaped(w, V)
  {
    Term(w, V, c, a, Right) + Term(w, V, c, a, Left) + Term(w, V, c, a, Up) + Term(w, V, c, a, Down)
  }

  /** The list `actions_val`: one expected value per intended move, in action order. */
  function ActionValues(w: World, V: Table, c: Cell): (vs: seq<real>)
    requires Shaped(w, V)
    ensures |vs| == |Actions|
    ensures forall k :: 0 <= k < |vs| ==> vs[k] == Expected(w, V, c, Actions[k])
  {
    [Expected(w, V, c, Right), Expected(w, V, c, Left), Expected(w, V, c, Up), Expected(w, V, c, Down)]
  }

  /** The Bellman-optimality backup of one cell: the best expected value over the four intended moves. */
  function Backup(w: World, V: Table, c: Cell): (m: real)
    requires Shaped(w, V)
    ensures forall a :: Expected(w, V, c, a) <= m
    ensures exists a :: m == Expected(w, V, c, a)
  {
    var vs := ActionValues(w, V, c);
    var m := MaxOf(vs);
    assert forall a :: vs[Index(a)] == Expected(w, V, c, a);
    var k :| 0 <= k < |vs| && vs[k] == m;
    assert m == Expected(w, V, c, Actions[k]);
    m
  }

  /** The backup of a cell reads only the old values of its in-bounds neighbours. */
  lemma BackupIsLocal(w: World, V1: Table, V2: Table, c: Cell)
    requires Shaped(w, V1) && Shaped(w, V2)
    requires forall b :: InBounds(w, Dest(c, b)) ==> At(w, V1, Dest(c, b)) == At(w, V2, Dest(c, b))
    ensures Backup(w, V1, c) == Backup(w, V2, c)
  {
    assert forall a, b :: Term(w, V1, c, a, b) == Term(w, V2, c, a, b);
    assert ActionValues(w, V1, c) == ActionValues(w, V2, c);
  }

  /** Moves that leave the grid add nothing: at the top-left corner, Up and Left never contribute. */
  lemma CornerIgnoresUpAndLeft(w: World, V: Table, a: Action)
    requires Shaped(w, V)
    ensures Term(w, V, (0, 0), a, Up) == 0.0 && Term(w, V, (0, 0), a, Left) == 0.0
    ensures Expected(w, V, (0, 0), a) == Term(w, V, (0, 0), a, Right) + Term(w, V, (0, 0), a, Down)
  {
  }

  /** When every in-bounds neighbour holds 0, the backup is 0, however many moves leave the grid. */
  lemma ZeroNeighboursGiveZero(w: World, V: Table, c: Cell)
    requires Shaped(w, V)
    requires forall b :: InBounds(w, Dest(c, b)) ==> At(w, V, Dest(c, b)) == 0.0
    ensures Backup(w, V, c) == 0.0
  {
    assert forall a, b :: Term(w, V, c, a, b) == 0.0;
  }

  /** Value a cell holds after the sweep: recomputed when swept, copied from the old table otherwise. */
  function NewValue(w: World, V: Table, c: Cell): real
    requires Shaped(w, V) && InBounds(w, c)
  {
    if Swept(w, c) then Backup(w, V, c) else At(w, V, c)
  }

  /**
   * The table a sweep produces: every cell's new value, computed from the previous table `V`
   * only. Reward cells and the wall are skipped and keep their old value.
   */
  function SweepTable(w: World, V: Table): (V': Table)
    requires Shaped(w, V)
    ensures Shaped(w, V')
  {
    assert w.rows > 0 ==> |V[0]| == w.cols;
    Tabulate(c => if InBounds(w, c) then NewValue(w, V, c) else 0.0, w.rows, w.cols)
  }

  /** Each cell of the sweep's table is the cell's new value. */
  lemma SweepTableAt(w: World, V: Table, c: Cell)
    requires Shaped(w, V) && InBounds(w, c)
    ensures At(w, SweepTable(w, V), c) == NewValue(w, V, c)
  {
    TabulateAt(c => if InBounds(w, c) then NewValue(w, V, c) else 0.0, w.rows, w.cols, c);
  }

  /** Reward cells and the wall keep their value: the sweep skips them. */
  lemma SweepKeepsSkipped(w: World, V: Table, c: Cell)
    requires Shaped(w, V) && InBounds(w, c) && !Swept(w, c)
    ensures At(w, SweepTable(w, V), c) == At(w, V, c)
  {
    SweepTableAt(w, V, c);
  }

  /**
   * Every swept cell becomes the largest of the four expected values, one per intended move,
   * each a weighted sum of discounted old values of the in-bounds destinations.
   */
  lemma SweepIsBellmanMax(w: World, V: Table, c: Cell)
    requires Shaped(w, V) && InBounds(w, c) && Swept(w, c)
    ensures forall a :: Expected(w, V, c, a) <= At(w, SweepTable(w, V), c)
    ensures exists a :: At(w, SweepTable(w, V), c) == Expected(w, V, c, a)
  {
    SweepTableAt(w, V, c);
  }

  /**
   * `d` is the `delta` of a sweep from `V` to `V'`: the largest absolute change over the swept
   * cells, and 0 when there is none. Reward cells and the wall never count.
   */
  ghost predicate IsMaxChange(w: World, V: Table, V': Table, d: real)
    requires Shaped(w, V) && Shaped(w, V')
  {
    && d >= 0.0
    && (forall c :: InBounds(w, c) && Swept(w, c) ==> Abs(At(w, V', c) - At(w, V, c)) <= d)
    && (d == 0.0 || exists c :: InBounds(w, c) && Swept(w, c) && d == Abs(At(w, V', c) - At(w, V, c)))
  }

  /** A maximal change is below a threshold exactly when every swept cell's change is. */
  lemma MaxChangeBelow(w: World, V: Table, V': Table, d: real, eps: real)
    requires Shaped(w, V) && Shaped(w, V') && IsMaxChange(w, V, V', d) && eps > 0.0
    ensures d < eps <==> forall c :: InBounds(w, c) && Swept(w, c) ==> Abs(At(w, V', c) - At(w, V, c)) < eps
  {
    if d != 0.0 && forall c :: InBounds(w, c) && Swept(w, c) ==> Abs(At(w, V', c) - At(w, V, c)) < eps {
      var c :| InBounds(w, c) && Swept(w, c) && d == Abs(At(w, V', c) - At(w, V, c));
      assert d < eps;
    }
  }

  /** The sweep's `delta` is determined by the two tables alone, whatever order produced it. */
  lemma MaxChangeUnique(w: World, V: Table, V': Table, d1: real, d2: real)
    requires Shaped(w, V) && Shaped(w, V')
    requires IsMaxChange(w, V, V', d1) && IsMaxChange(w, V, V', d2)
    ensures d1 == d2
  {
    if d1 != 0.0 {
      var c :| InBounds(w, c) && Swept(w, c) && d1 == Abs(At(w, V', c) - At(w, V, c));
      assert d1 <= d2;
    }
    if d2 != 0.0 {
      var c :| InBounds(w, c) && Swept(w, c) && d2 == Abs(At(w, V', c) - At(w, V, c));
      assert d2 <= d1;
    }
  }

  /**
   * One pass of the cell loop: reward cells and the wall are skipped; any other cell gets its
   * backup written into the copy, and `delta` grows to cover its absolute change. The loops only
   * produce in-bounds cells; an out-of-bounds one would be left alone.
   */
  function Visit(w: World, V: Table, acc: (Table, real), c: Cell): (Table, real)
    requires Shaped(w, V) && Shaped(w, acc.0)
  {
    if !InBounds(w, c) then acc
    else if c in w.rewards then acc
    else if c == Wall then acc
    else
      var best := Backup(w, V, c);
      (Put(w, acc.0, c, best), Max2(acc.1, Abs(best - At(w, V, c))))
  }

  /** The copy and `delta` after visiting `cells` in order, starting from `new_V = V`, `delta = 0`. */
  function Run(w: World, V: Table, cells: seq<Cell>): (r: (Table, real))
    requires Shaped(w, V)
    ensures Shaped(w, r.0)
  {
    if cells == [] then (V, 0.0)
    else Visit(w, V, Run(w, V, cells[..|cells| - 1]), cells[|cells| - 1])
  }

  /** The cells of a visit order, as a set. */
  function Seen(cells: seq<Cell>): (s: set<Cell>)
    ensures forall c :: c in s <==> c in cells
  {
    set c | c in cells
  }

  /** `V'` is `V` with exactly the cells of `seen` replaced by their values in `T`. */
  ghost predicate CopiedOver(w: World, V: Table, T: Table, V': Table, seen: set<Cell>)
    requires Shaped(w, V) && Shaped(w, T) && Shaped(w, V')
  {
    forall c :: InBounds(w, c) ==> At(w, V', c) == if c in seen then At(w, T, c) else At(w, V, c)
  }

  /** `d` is the largest absolute change from `V` to `T` over the swept cells of `seen`, or 0. */
  ghost predicate MaxChangeOver(w: World, V: Table, T: Table, seen: set<Cell>, d: real)
    requires Shaped(w, V) && Shaped(w, T)
  {
    && d >= 0.0
    && (forall c :: c in seen && InBounds(w, c) && Swept(w, c) ==> Abs(At(w, T, c) - At(w, V, c)) <= d)
    && (d == 0.0 || exists c :: c in seen && InBounds(w, c) && Swept(w, c) && d == Abs(At(w, T, c) - At(w, V, c)))
  }

  /** Writing one more cell's new value into the copy. */
  lemma CopiedStep(w: World, V: Table, T: Table, V': Table, seen: set<Cell>, c: Cell)
    requires Shaped(w, V) && Shaped(w, T) && Shaped(w, V') && InBounds(w, c)
    requires CopiedOver(w, V, T, V', seen)
    ensures CopiedOver(w, V, T, Put(w, V', c, At(w, T, c)), seen + {c})
  {
  }

  /** Skipping a cell whose new value is its old one. */
  lemma CopiedSkip(w: World, V: Table, T: Table, V': Table, seen: set<Cell>, c: Cell)
    requires Shaped(w, V) && Shaped(w, T) && Shaped(w, V') && InBounds(w, c)
    requires At(w, T, c) == At(w, V, c)
    requires CopiedOver(w, V, T, V', seen)
    ensures CopiedOver(w, V, T, V', seen + {c})
  {
  }

  /** Visiting one more swept cell: `delta` grows to cover its change. */
  lemma MaxChangeStep(w: World, V: Table, T: Table, seen: set<Cell>, d: real, c: Cell)
    requires Shaped(w, V) && Shaped(w, T) && InBounds(w, c) && Swept(w, c)
    requires MaxChangeOver(w, V, T, seen, d)
    ensures MaxChangeOver(w, V, T, seen + {c}, Max2(d, Abs(At(w, T, c) - At(w, V, c))))
  {
  }

  /** Visiting a reward cell or the wall leaves `delta` as it is. */
  lemma MaxChangeSkip(w: World, V: Table, T: Table, seen: set<Cell>, d: real, c: Cell)
    requires Shaped(w, V) && Shaped(w, T) && !Swept(w, c)
    requires MaxChangeOver(w, V, T, seen, d)
    ensures MaxChangeOver(w, V, T, seen + {c}, d)
  {
  }

  /** The loop invariant, in terms of the visited cells `seen`. */
  ghost predicate VisitedOnly(w: World, V: Table, acc: (Table, real), seen: set<Cell>)
    requires Shaped(w, V) && Shaped(w, acc.0)
  {
    && CopiedOver(w, V, SweepTable(w, V), acc.0, seen)
    && MaxChangeOver(w, V, SweepTable(w, V), seen, acc.1)
  }

  /** Visiting a swept cell keeps the loop invariant. */
  lemma VisitSwept(w: World, V: Table, acc: (Table, real), seen: set<Cell>, c: Cell)
    requires Shaped(w, V) && Shaped(w, acc.0) && InBounds(w, c) && Swept(w, c)
    requires VisitedOnly(w, V, acc, seen)
    ensures VisitedOnly(w, V, Visit(w, V, acc, c), seen + {c})
  {
    var T := SweepTable(w, V);
    SweepTableAt(w, V, c);
    CopiedStep(w, V, T, acc.0, seen, c);
    MaxChangeStep(w, V, T, seen, acc.1, c);
  }

  /** Visiting a reward cell or the wall keeps the loop invariant. */
  lemma VisitSkipped(w: World, V: Table, acc: (Table, real), seen: set<Cell>, c: Cell)
    requires Shaped(w, V) && Shaped(w, acc.0) && InBounds(w, c) && !Swept(w, c)
    requires VisitedOnly(w, V, acc, seen)
    ensures VisitedOnly(w, V, Visit(w, V, acc, c), seen + {c})
  {
    var T := SweepTable(w, V);
    SweepKeepsSkipped(w, V, c);
    CopiedSkip(w, V, T, acc.0, seen, c);
    MaxChangeSkip(w, V, T, seen, acc.1, c);
  }

  /** A cell outside the grid changes nothing. */
  lemma VisitOutside(w: World, V: Table, acc: (Table, real), seen: set<Cell>, c: Cell)
    requires Shaped(w, V) && Shaped(w, acc.0) && !InBounds(w, c)
    requires VisitedOnly(w, V, acc, seen)
    ensures VisitedOnly(w, V, Visit(w, V, acc, c), seen + {c})
  {
  }

  /** Visiting any cell keeps the loop invariant. */
  lemma VisitKeeps(w: World, V: Table, acc: (Table, real), seen: set<Cell>, c: Cell)
    requires Shaped(w, V) && Shaped(w, acc.0)
    requires VisitedOnly(w, V, acc, seen)
    ensures VisitedOnly(w, V, Visit(w, V, acc, c), seen + {c})
  {
    if !InBounds(w, c) {
      VisitOutside(w, V, acc, seen, c);
    } else if Swept(w, c) {
      VisitSwept(w, V, acc, seen, c);
    } else {
      VisitSkipped(w, V, acc, seen, c);
    }
  }

  lemma SeenSnoc(cells: seq<Cell>, c: Cell)
    ensures Seen(cells + [c]) == Seen(cells) + {c}
  {
  }

  /**
   * Whatever the visit order, after visiting `cells` the copy holds the new value of exactly the
   * visited cells, and `delta` is the largest change among them: the loop body never reads
   * the partly built copy.
   */
  lemma {:induction false} RunInvariant(w: World, V: Table, cells: seq<Cell>)
    requires Shaped(w, V)
    ensures VisitedOnly(w, V, Run(w, V, cells), Seen(cells))
  {
    if cells != [] {
      var prefix, c := cells[..|cells| - 1], cells[|cells| - 1];
      RunInvariant(w, V, prefix);
      assert cells == prefix + [c];
      SeenSnoc(prefix, c);
      VisitKeeps(w, V, Run(w, V, prefix), Seen(prefix), c);
    }
  }

  /** Once every cell has been visited, the copy is the sweep's table and `d` its `delta`. */
  lemma SweepComplete(w: World, V: Table, V': Table, seen: set<Cell>, d: real)
    requires Shaped(w, V) && Shaped(w, V')
    requires forall c :: InBounds(w, c) ==> c in seen
    requires VisitedOnly(w, V, (V', d), seen)
    ensures V' == SweepTable(w, V)
    ensures IsMaxChange(w, V, V', d)
  {
    Extensional(w, V', SweepTable(w, V));
  }

  /**
   * Visiting every cell of the grid, in any order, yields the sweep's table and its `delta`:
   * the update is synchronous, so the visit order does not matter.
   */
  lemma OrderIrrelevant(w: World, V: Table, order: seq<Cell>)
    requires Shaped(w, V)
    requires forall k :: 0 <= k < |order| ==> InBounds(w, order[k])
    requires forall c :: InBounds(w, c) ==> c in order
    ensures Run(w, V, order).0 == SweepTable(w, V)
    ensures IsMaxChange(w, V, Run(w, V, order).0, Run(w, V, order).1)
  {
    RunInvariant(w, V, order);
    SweepComplete(w, V, Run(w, V, order).0, Seen(order), Run(w, V, order).1);
  }

  /** Visiting one more cell of `order` extends the fold by one `Visit`. */
  lemma RunStep(w: World, V: Table, order: seq<Cell>, k: int)
    requires Shaped(w, V) && 0 <= k < |order|
    ensures Run(w, V, order[..k + 1]) == Visit(w, V, Run(w, V, order[..k]), order[k])
  {
    assert order[..k + 1][..k] == order[..k];
  }

  /**
   * The sweep as the code runs it: copy `V`, then visit the cells in `order`, writing into the
   * copy and reading only `V`. The result is the sweep's table and its `delta` for any order
   * that covers the grid; the code's order is `RowMajor`.
   */
  method SweepInOrder(w: World, V: Table, order: seq<Cell>) returns (V': Table, delta: real)
    requires Shaped(w, V)
    requires forall k :: 0 <= k < |order| ==> InBounds(w, order[k])
    requires forall c :: InBounds(w, c) ==> c in order
    ensures V' == SweepTable(w, V)
    ensures IsMaxChange(w, V, V', delta)
    ensures (V', delta) == Run(w, V, order)
  {
    V' := V;
    delta := 0.0;
    for k := 0 to |order|
      invariant Shaped(w, V')
      invariant (V', delta) == Run(w, V, order[..k])
    {
      var c := order[k];
      RunStep(w, V, order, k);
      if c in w.rewards {
        continue;  // reward cells keep their value
      }
      if c == Wall {
        continue;  // so does the wall
      }
      var best := Backup(w, V, c);
      delta := Max2(delta, Abs(best - At(w, V, c)));
      V' := Put(w, V', c, best);
    }
    assert order[..|order|] == order;
    OrderIrrelevant(w, V, order);
  }

  /** The `delta` of a sweep from `V` as the code computes it, visiting the cells row by row. */
  function SweepDelta(w: World, V: Table): real
    requires Shaped(w, V)
  {
    Run(w, V, RowMajor(w.rows, w.cols)).1
  }

  /** The row-major `delta` is the largest absolute change over the swept cells. */
  lemma SweepDeltaIsMaxChange(w: World, V: Table)
    requires Shaped(w, V)
    ensures IsMaxChange(w, V, SweepTable(w, V), SweepDelta(w, V))
  {
    OrderIrrelevant(w, V, RowMajor(w.rows, w.cols));
  }

  /** One sweep of `value_iteration`: the cells in row-major order, as the nested loops visit them. */
  method Sweep(w: World, V: Table) returns (V': Table, delta: real)
    requires Shaped(w, V)
    ensures V' == SweepTable(w, V)
    ensures delta == SweepDelta(w, V)
  {
    V', delta := SweepInOrder(w, V, RowMajor(w.rows, w.cols));
  }
}
