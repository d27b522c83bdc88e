/** No scope of the tree ever collects more rows than one transaction may read. */
module BudgetBounds {
  import opened Scopes
  import opened Sums
  import opened BudgetBook
  import opened BudgetTree
  import opened BudgetRuns

  lemma CellsAfterReserve(db: Db, db': Db, scope: ScopeId, amounts: Amounts, s: ScopeId)
    requires db'.cells == ReservedCells(db, Chain(scope), amounts)
    ensures CellsOf(db', s) == if s in Chain(scope) then WithReserved(CellsOf(db, s), amounts) else CellsOf(db, s)
  {
    hide WithReserved;
  }

  lemma CellsAfterFinish(db: Db, db': Db, scope: ScopeId, held: Amounts, charged: Amounts, s: ScopeId)
    requires ChainCovers(db, Chain(scope), held) && db'.cells == ReplacedCells(db, Chain(scope), held, charged)
    ensures s in Chain(scope) ==> Covers(CellsOf(db, s), held)
    ensures CellsOf(db', s) ==
            if s in Chain(scope) then WithReplaced(CellsOf(db, s), held, charged) else CellsOf(db, s)
  {
    hide WithReplaced;
  }

  predicate CellsBounded(db: Db, s: ScopeId) {
    |CellsOf(db, s)| <= MAX_COUNTERS
  }

  /** Along its chain every reservation has a row for each counter it holds. */
  predicate HoldHasRows(db: Db, i: nat, s: ScopeId)
    requires i < |db.rows|
  {
    s in Chain(db.rows[i].scope) ==> db.rows[i].amounts.Keys <= CellsOf(db, s).Keys
  }

  ghost predicate Bounded(db: Db) {
    && (forall s :: CellsBounded(db, s))
    && (forall s :: |LimitOf(db.limits, s)| <= MAX_COUNTERS)
    && (forall i, s :: 0 <= i < |db.rows| ==> HoldHasRows(db, i, s))
  }

  lemma {:induction false} ReserveKeepsBounds(db: Db, root: ScopeId, scope: ScopeId, amounts: Amounts)
    requires Bounded(db)
    ensures Bounded(ReserveTx(db, root, scope, amounts).0)
  {
    hide ReservedCells, CellsFit, CrowdedAt, CellsOf, Chain;
    var (db', v) := ReserveTx(db, root, scope, amounts);
    if v == Accepted {
      forall s ensures CellsBounded(db', s) && CellsOf(db, s).Keys <= CellsOf(db', s).Keys
        && (s in Chain(scope) ==> amounts.Keys <= CellsOf(db', s).Keys)
      {
        assert CellsBounded(db, s) && (s in Chain(scope) ==> !CrowdedAt(db, s, amounts));
        RowsAfterReserve(db, db', scope, amounts, s);
      }
      hide ReserveTx;
      forall i, s | 0 <= i < |db'.rows| ensures HoldHasRows(db', i, s) {
        assert i < |db.rows| ==> HoldHasRows(db, i, s);
      }
    }
  }

  lemma {:induction false} RowsAfterReserve(db: Db, db': Db, scope: ScopeId, amounts: Amounts, s: ScopeId)
    requires CellsBounded(db, s) && (s in Chain(scope) ==> !CrowdedAt(db, s, amounts))
    requires db'.cells == ReservedCells(db, Chain(scope), amounts)
    ensures CellsBounded(db', s) && CellsOf(db, s).Keys <= CellsOf(db', s).Keys
    ensures s in Chain(scope) ==> amounts.Keys <= CellsOf(db', s).Keys
  {
    hide ReservedCells, CrowdedAt, CellsOf, Chain;
    CellsAfterReserve(db, db', scope, amounts, s);
    if s in Chain(scope) {
      RowsWithin(db, s, amounts, WithReserved(CellsOf(db, s), amounts));
    }
  }

  lemma RowsWithin(db: Db, s: ScopeId, amounts: Amounts, cells: map<string, Cell>)
    requires !CrowdedAt(db, s, amounts) && cells.Keys == CellsOf(db, s).Keys + amounts.Keys
    ensures |cells| <= MAX_COUNTERS
  {
    hide CellsOf;
    assert cells.Keys <= NamesAt(db, s, amounts);
    hide NamesAt;
    SubsetSize(cells.Keys, NamesAt(db, s, amounts));
    assert |cells| == |cells.Keys|;
  }

  lemma {:induction false} FinishKeepsBounds(db: Db, root: ScopeId, scope: ScopeId, i: nat, actual: Option<Amounts>)
    requires Bounded(db)
    ensures Bounded(FinishTx(db, root, scope, i, actual).0)
  {
    hide ReplacedCells, CellsFit, CrowdedAt, CellsOf, Chain;
    var (db', v) := FinishTx(db, root, scope, i, actual);
    if v == Accepted {
      forall s ensures CellsBounded(db', s) && CellsOf(db, s).Keys <= CellsOf(db', s).Keys {
        assert HoldHasRows(db, i, s) && CellsBounded(db, s);
        assert s in Chain(scope) ==> !CrowdedAt(db, s, FinalAmounts(actual));
        RowsAfterFinish(db, db', scope, db.rows[i].amounts, FinalAmounts(actual), s);
      }
      forall j, s | 0 <= j < |db'.rows| ensures HoldHasRows(db', j, s) {
        assert HoldHasRows(db, j, s);
      }
    }
  }

  lemma {:induction false} RowsAfterFinish(db: Db, db': Db, scope: ScopeId, held: Amounts, charged: Amounts, s: ScopeId)
    requires CellsBounded(db, s) && (s in Chain(scope) ==> !CrowdedAt(db, s, charged))
    requires ChainCovers(db, Chain(scope), held) && db'.cells == ReplacedCells(db, Chain(scope), held, charged)
    requires s in Chain(scope) ==> held.Keys <= CellsOf(db, s).Keys
    ensures CellsBounded(db', s) && CellsOf(db, s).Keys <= CellsOf(db', s).Keys
  {
    hide ReplacedCells, ChainCovers, Covers, CrowdedAt, CellsOf, Chain;
    CellsAfterFinish(db, db', scope, held, charged, s);
    if s in Chain(scope) {
      assert WithReplaced(CellsOf(db, s), held, charged).Keys == CellsOf(db, s).Keys + charged.Keys;
      RowsWithin(db, s, charged, WithReplaced(CellsOf(db, s), held, charged));
    }
  }

  /** New limits touch no counter row, and are counted before they are written. */
  lemma {:induction false} ShapingKeepsBounds(db: Db, db': Db)
    requires Bounded(db) && db'.rows == db.rows && db'.cells == db.cells
    requires forall s :: |LimitOf(db'.limits, s)| <= MAX_COUNTERS
    ensures Bounded(db')
  {
    forall s ensures CellsBounded(db', s) {
      assert CellsBounded(db, s);
    }
    forall i, s | 0 <= i < |db'.rows| ensures HoldHasRows(db', i, s) {
      assert HoldHasRows(db, i, s);
    }
  }

  lemma {:induction false} ShapesBounded(w: World, op: TreeOp)
    requires Bounded(w.db) && (op.OpenRoot? || op.CreateChild? || op.Configure?)
    ensures var db' := TreeStep(w, op).0.db;
            && db'.rows == w.db.rows && db'.cells == w.db.cells
            && forall s :: |LimitOf(db'.limits, s)| <= MAX_COUNTERS
  {
    hide OverAllocates, LimitTooLow, Normalized, HoldHasRows, CellsBounded;
    var db' := TreeStep(w, op).0.db;
    forall s ensures |LimitOf(db'.limits, s)| <= MAX_COUNTERS {
      assert |LimitOf(w.db.limits, s)| <= MAX_COUNTERS;
    }
  }

  lemma {:induction false} TreeStepKeepsBounds(w: World, op: TreeOp)
    requires Bounded(w.db)
    ensures Bounded(TreeStep(w, op).0.db)
  {
    match op
    case ReserveAt(h, raw) =>
      if NormalAmounts(raw).Some? {
        hide Bounded;
        ReserveKeepsBounds(w.db, h.root, h.id, NormalAmounts(raw).value);
      }
    case FinishAt(h, i, raw) =>
      if NormalActual(raw).Some? {
        hide Bounded;
        FinishKeepsBounds(w.db, h.root, h.id, i, NormalActual(raw).value);
      }
    case _ =>
      hide Bounded, TreeStep;
      ShapesBounded(w, op);
      ShapingKeepsBounds(w.db, TreeStep(w, op).0.db);
  }

  lemma {:induction false} RunKeepsBounds(w: World, ops: seq<TreeOp>)
    requires Bounded(w.db)
    ensures Bounded(RunTree(w, ops).db)
    decreases |ops|
  {
    if |ops| > 0 {
      hide Bounded, TreeStep;
      TreeStepKeepsBounds(w, ops[0]);
      RunKeepsBounds(TreeStep(w, ops[0]).0, ops[1..]);
    }
  }

  lemma EmptyBounds()
    ensures Bounded(EMPTY)
  {
  }

  /** After any run the rows of a scope, limits and counters alike, are within what is read at
      once: reading a scope never looks corrupt. */
  lemma {:induction false} RowsAreBounded(ops: seq<TreeOp>, s: ScopeId)
    ensures var db := RunTree(World(EMPTY, []), ops).db;
            |LimitOf(db.limits, s)| <= MAX_COUNTERS && |CellsOf(db, s)| <= MAX_COUNTERS
  {
    EmptyBounds();
    RunKeepsBounds(World(EMPTY, []), ops);
    assert CellsBounded(RunTree(World(EMPTY, []), ops).db, s);
  }
}
