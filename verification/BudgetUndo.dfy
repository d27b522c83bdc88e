/** What a cancellation undoes, and the one way a cancellation can be refused. */
module BudgetUndo {
  import opened Scopes
  import opened BudgetBook
  import opened BudgetTree
  import opened BudgetRuns
  import opened BudgetBounds

  // ----- a cancellation undoes its reservation -----

  /** At one scope the hold is on top of what was there, and no new counter name appears. */
  lemma {:induction false} HoldOnTopAt(db: Db, db': Db, s: ScopeId, amounts: Amounts)
    requires CellsOf(db', s) == WithReserved(CellsOf(db, s), amounts) && db'.limits == db.limits
    ensures Covers(CellsOf(db', s), amounts)
    ensures NamesAt(db', s, map[]) == NamesAt(db, s, amounts)
    ensures forall c :: CellIn(WithReplaced(CellsOf(db', s), amounts, map[]), c) == CellAt(db, s, c)
  {
  }

  lemma {:induction false} HoldOnTop(db: Db, db': Db, scope: ScopeId, amounts: Amounts)
    requires db'.cells == ReservedCells(db, Chain(scope), amounts) && db'.limits == db.limits
    requires !Crowded(db, scope, amounts)
    ensures ChainCovers(db', Chain(scope), amounts) && !Crowded(db', scope, map[])
  {
    forall s | s in Chain(scope) ensures Covers(CellsOf(db', s), amounts) && !CrowdedAt(db', s, map[]) {
      CellsAfterReserve(db, db', scope, amounts, s);
      hide ReservedCells;
      HoldOnTopAt(db, db', s, amounts);
      assert !CrowdedAt(db, s, amounts);
    }
  }

  /** Whatever an accepted reservation did to any counter of any scope, cancelling it at
      once is accepted and puts it back. */
  lemma {:induction false} CancelUndoesReserve(db: Db, root: ScopeId, scope: ScopeId, amounts: Amounts)
    requires ReserveTx(db, root, scope, amounts).1 == Accepted
    ensures var held := ReserveTx(db, root, scope, amounts).0;
            var (after, v) := FinishTx(held, root, scope, |db.rows|, None);
            && v == Accepted && after.scopes == db.scopes && after.limits == db.limits
            && (forall s, c :: CellAt(after, s, c) == CellAt(db, s, c))
            && after.rows == db.rows + [ReservationRow(root, scope, amounts, Cancelled)]
  {
    var held := ReserveTx(db, root, scope, amounts).0;
    HoldOnTop(db, held, scope, amounts);
    hide ReservedCells, WithReserved, ReplacedCells, WithReplaced;
    assert CellsFit(held, scope, map[], amounts);
    var after := FinishTx(held, root, scope, |db.rows|, None).0;
    assert FinishTx(held, root, scope, |db.rows|, None).1 == Accepted;
    forall s, c ensures CellAt(after, s, c) == CellAt(db, s, c) {
      CellsAfterReserve(db, held, scope, amounts, s);
      CellsAfterFinish(held, after, scope, amounts, map[], s);
      if s in Chain(scope) {
        HoldOnTopAt(db, held, s, amounts);
      }
    }
  }

  // ----- a hold that cannot be given back -----

  /** `n` different counter names, each capped at zero. */
  function Capped(n: nat): (limits: map<string, nat>)
    ensures |limits| == n
    ensures forall c :: c in limits ==> 0 < |c| <= n && c[0] == 'b' && limits[c] == 0
  {
    if n == 0 then map[]
    else
      var before := Capped(n - 1);
      before[seq(n, i => 'b') := 0]
  }

  const R: ScopeId := Root("r")
  const AT_R: Handle := Handle(R, R, None, 0)
  const OPENED: Db := Db(map[R := ScopeRow(R, None, 0)], map[R := map["x" := 0]], map[], [])
  const HELD: Db :=
    OPENED.(cells := map[R := map["a" := Cell(0, 1)]], rows := [ReservationRow(R, R, map["a" := 1], Active)])

  lemma KeptAsTheyAre(amounts: Amounts, dropZero: bool)
    requires "" !in amounts && (dropZero ==> forall c :: c in amounts ==> amounts[c] != 0)
    ensures Normalized(amounts, dropZero) == Some(amounts)
  {
    var n := Normalized(amounts, dropZero);
    assert n.Some? && n.value == amounts;
  }

  lemma Opens()
    ensures TreeStep(World(EMPTY, []), OpenRoot("r", map["x" := 0])) == (World(OPENED, []), Accepted)
  {
    var limits: Amounts := map["x" := 0];
    KeptAsTheyAre(limits, false);
    assert NormalLimits(limits) == Some(limits);
  }

  lemma HoldsOne(amounts: Amounts)
    requires amounts == map["a" := 1]
    ensures ReserveTx(OPENED, R, R, amounts) == (HELD, Accepted)
  {
    assert Chain(R) == [R];
    assert NamesAt(OPENED, R, amounts) == {"x", "a"};
    assert WithReserved(CellsOf(OPENED, R), amounts) == map["a" := Cell(0, 1)];
    assert ReservedCells(OPENED, Chain(R), amounts) == map[R := map["a" := Cell(0, 1)]];
    hide ReservedCells, WithReserved;
    assert HeldCells(OPENED, R, R, amounts) == (HELD.cells, Accepted);
    assert OPENED.rows + [ReservationRow(R, R, amounts, Active)] == HELD.rows;
  }

  lemma FillsUp(more: Amounts, expected: Amounts)
    requires |more| == MAX_COUNTERS - 1 && "x" !in more && "a" !in more && expected == map["x" := 0]
    requires forall c :: c in more ==> more[c] == 0
    ensures ConfigureTx(HELD, AT_R, more, expected) == (WithLimits(HELD, R, more), Accepted)
  {
    SizeWith(more, expected);
    assert LimitOf(HELD.limits, R) == expected;
    forall c ensures !TooLowAt(HELD, R, more, c) {
      assert ChildLimits(HELD, R, c, None) == map[];
    }
  }

  lemma SizeWith(more: Amounts, expected: Amounts)
    requires "x" !in more && expected == map["x" := 0]
    ensures |expected + more| == |more| + 1
  {
    assert (expected + more).Keys == more.Keys + {"x"};
    assert |(expected + more).Keys| == |expected + more|;
  }

  lemma TooMany(full: Db, more: Amounts)
    requires |more| == MAX_COUNTERS - 1 && "x" !in more && "a" !in more && full == WithLimits(HELD, R, more)
    ensures Crowded(full, R, map[])
  {
    assert LimitOf(full.limits, R).Keys == more.Keys + {"x"} && CellsOf(full, R).Keys == {"a"};
    hide WithLimits;
    assert NamesAt(full, R, map[]) == more.Keys + {"x"} + {"a"};
    assert |more.Keys| == |more|;
    assert R in Chain(R) && CrowdedAt(full, R, map[]);
  }

  lemma Refused(more: Amounts)
    requires |more| == MAX_COUNTERS - 1 && "x" !in more && "a" !in more
    ensures FinishTx(WithLimits(HELD, R, more), R, R, 0, None) == (WithLimits(HELD, R, more), CounterLimit)
  {
    var full := WithLimits(HELD, R, more);
    TooMany(full, more);
    hide CellsFit, ChainCovers, NamesAt, CrowdedAt, Crowded;
    assert SettledCells(full, R, R, map["a" := 1], map[]) == (full.cells, CounterLimit);
  }

  lemma ThreeSteps(w: World, ops: seq<TreeOp>)
    requires |ops| == 3
    ensures RunTree(w, ops) == TreeStep(TreeStep(TreeStep(w, ops[0]).0, ops[1]).0, ops[2]).0
  {
    hide TreeStep;
    var tail := ops[1..];
    assert tail[0] == ops[1] && tail[1..] == [ops[2]];
    var a := TreeStep(w, ops[0]).0;
    var b := TreeStep(a, ops[1]).0;
    assert RunTree(w, ops) == RunTree(a, tail);
    assert RunTree(a, tail) == RunTree(b, [ops[2]]);
    assert RunTree(b, [ops[2]]) == RunTree(TreeStep(b, ops[2]).0, []);
  }

  /** The exception in `HoldAlwaysSettles` is real. Limits are counted on their own when they
      are configured, but together with the counters already touched when a hold is finished:
      a full set of limits beside a held counter without one makes even a cancellation fail. */
  lemma {:induction false} CancelCanBeRefused()
    ensures var w := RunTree(World(EMPTY, []), [
              OpenRoot("r", map["x" := 0]), ReserveAt(AT_R, map["a" := 1]),
              Configure(AT_R, Capped(MAX_COUNTERS - 1), map["x" := 0])]);
            && w.book == [Entry(R, map["a" := 1], Held)]
            && TreeStep(w, FinishAt(AT_R, 0, None)) == (w, CounterLimit)
  {
    var more := Capped(MAX_COUNTERS - 1);
    var limits: Amounts, amounts: Amounts := map["x" := 0], map["a" := 1];
    ThreeSteps(World(EMPTY, []), [OpenRoot("r", limits), ReserveAt(AT_R, amounts), Configure(AT_R, more, limits)]);
    Opens();
    HoldingStep(amounts);
    FillingStep(more, limits);
    RefusingStep(more, amounts);
  }

  lemma HoldingStep(amounts: Amounts)
    requires amounts == map["a" := 1]
    ensures TreeStep(World(OPENED, []), ReserveAt(AT_R, amounts)) == (World(HELD, [Entry(R, amounts, Held)]), Accepted)
  {
    hide ReserveTx, Normalized;
    KeptAsTheyAre(amounts, true);
    HoldsOne(amounts);
    assert NormalAmounts(amounts) == Some(amounts);
    assert [] + [Entry(R, amounts, Held)] == [Entry(R, amounts, Held)];
  }

  lemma FillingStep(more: Amounts, expected: Amounts)
    requires |more| == MAX_COUNTERS - 1 && "x" !in more && "a" !in more && "" !in more && expected == map["x" := 0]
    requires forall c :: c in more ==> more[c] == 0
    ensures var w := World(HELD, [Entry(R, map["a" := 1], Held)]);
            TreeStep(w, Configure(AT_R, more, expected)) == (World(WithLimits(HELD, R, more), w.book), Accepted)
  {
    hide ConfigureTx, WithLimits, Normalized;
    KeptAsTheyAre(more, false);
    KeptAsTheyAre(expected, false);
    FillsUp(more, expected);
  }

  lemma RefusingStep(more: Amounts, amounts: Amounts)
    requires |more| == MAX_COUNTERS - 1 && "x" !in more && "a" !in more && amounts == map["a" := 1]
    ensures var w := World(WithLimits(HELD, R, more), [Entry(R, amounts, Held)]);
            TreeStep(w, FinishAt(AT_R, 0, None)) == (w, CounterLimit)
  {
    hide FinishTx, WithLimits;
    Refused(more);
  }
}
