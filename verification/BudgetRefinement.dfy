/** Three implementations, one behaviour: on the same tree the durable store, the in-memory
    ledgers and (for single nodes) the flat store give the same verdicts and counters. */
module BudgetRefinement {
  import opened Scopes
  import opened Sums
  import opened BudgetBook
  import opened BudgetTree
  import opened BudgetRuns
  import opened LedgerSpec
  import opened BudgetStore

  /** One accounting call on the durable tree through genuine handles. */
  ghost function DbStep(db: Db, op: Op): (r: (Db, Verdict)) {
    match op
    case Reserve(scope, amounts) => ReserveTx(db, scope.RootOf(), scope, amounts)
    case Finish(i, actual) =>
      if i < |db.rows| then FinishTx(db, db.rows[i].root, db.rows[i].scope, i, actual)
      else (db, UnknownReservation)
  }

  ghost predicate OnTree(db: Db, op: Op) {
    op.Reserve? ==> op.scope in db.scopes
  }

  /** The durable store refuses where a scope of the chain would know too many counters. */
  ghost predicate TooManyCounters(db: Db, op: Op) {
    match op
    case Reserve(scope, amounts) => Crowded(db, scope, amounts)
    case Finish(i, actual) =>
      i < |db.rows| && db.rows[i].status == Active && Crowded(db, db.rows[i].scope, FinalAmounts(actual))
  }

  lemma {:induction false} TreeKept(db: Db, op: Op)
    ensures DbStep(db, op).0.scopes == db.scopes && DbStep(db, op).0.limits == db.limits
  {
    hide CellsFit, Crowded, ReservedCells, SettledCells;
  }

  lemma {:induction false} DbRefinesReserve(db: Db, book: Book, op: Op)
    requires Inv(db, book) && op.Reserve? && op.scope in db.scopes
    ensures var (db', v) := DbStep(db, op);
            var (book', bv) := Step(db.limits, book, op);
            if TooManyCounters(db, op) then v == CounterLimit && db' == db
            else v == bv && Inv(db', book')
  {
    StoredRow(db, op.scope);
    ReserveRefines(db, book, op.scope.RootOf(), op.scope, op.amounts);
    hide Inv, Crowded, ReserveTx;
  }

  lemma {:induction false} DbRefinesFinish(db: Db, book: Book, op: Op)
    requires Inv(db, book) && op.Finish?
    ensures var (db', v) := DbStep(db, op);
            var (book', bv) := Step(db.limits, book, op);
            if TooManyCounters(db, op) then v == CounterLimit && db' == db
            else v == bv && Inv(db', book')
  {
    if op.index < |book| {
      assert RowMatches(db.rows[op.index], book[op.index]);
      FinishRefines(db, book, db.rows[op.index].root, db.rows[op.index].scope, op.index, op.actual);
    }
    hide Inv, Crowded, FinishTx;
  }

  /** One call, exactly: the tree answers as the ledgers do unless it runs into the bound on
      counters, and then it changes nothing. */
  lemma {:induction false} StepsAgree(db: Db, mem: Mem, book: Book, op: Op)
    requires Inv(db, book) && MemInv(mem, book) && OnTree(db, op)
    ensures var (db', v) := DbStep(db, op);
            var (mem', mv) := MemStep(db.limits, mem, op);
            var (book', _) := Step(db.limits, book, op);
            if TooManyCounters(db, op) then v == CounterLimit && db' == db
            else v == mv && Inv(db', book') && MemInv(mem', book')
  {
    LedgerRefines(db.limits, mem, book, op);
    if op.Reserve? {
      DbRefinesReserve(db, book, op);
    } else {
      DbRefinesFinish(db, book, op);
    }
    hide Inv, MemInv, DbStep, MemStep, Step, TooManyCounters;
  }

  // ----- runs within the bound -----

  function KeysOf(op: Op): set<string> {
    match op
    case Reserve(_, amounts) => amounts.Keys
    case Finish(_, actual) => FinalAmounts(actual).Keys
  }

  function NamesWith(db: Db, s: ScopeId, k: set<string>): set<string> {
    set c | c in LimitOf(db.limits, s).Keys + CellsOf(db, s).Keys + k
  }

  /** Every scope stays within the bound when only counters of `k` are ever charged. */
  predicate RoomForAll(db: Db, k: set<string>) {
    forall s :: s in db.scopes ==> |NamesWith(db, s, k)| <= MAX_COUNTERS
  }

  predicate HoldsWithin(db: Db, k: set<string>) {
    forall i :: 0 <= i < |db.rows| ==> db.rows[i].amounts.Keys <= k
  }

  lemma {:induction false} NeverCrowded(db: Db, scope: ScopeId, amounts: Amounts, k: set<string>)
    requires TreeOk(db) && scope in db.scopes && RoomForAll(db, k) && amounts.Keys <= k
    ensures !Crowded(db, scope, amounts)
  {
    ChainStored(db, scope);
    forall s | s in Chain(scope) ensures !CrowdedAt(db, s, amounts) {
      SubsetSize(NamesAt(db, s, amounts), NamesWith(db, s, k));
    }
  }

  lemma {:induction false} RoomKept(db: Db, db': Db, k: set<string>)
    requires RoomForAll(db, k) && db'.scopes == db.scopes && db'.limits == db.limits
    requires forall s :: CellsOf(db', s).Keys <= CellsOf(db, s).Keys + k
    ensures RoomForAll(db', k)
  {
    forall s | s in db'.scopes ensures |NamesWith(db', s, k)| <= MAX_COUNTERS {
      SubsetSize(NamesWith(db', s, k), NamesWith(db, s, k));
    }
  }

  lemma {:induction false} StepStaysWithin(db: Db, op: Op, k: set<string>)
    requires RoomForAll(db, k) && HoldsWithin(db, k) && KeysOf(op) <= k
    ensures RoomForAll(DbStep(db, op).0, k) && HoldsWithin(DbStep(db, op).0, k)
  {
    var (db', v) := DbStep(db, op);
    hide CellsFit, Crowded, RoomForAll;
    if v == Accepted {
      RoomKept(db, db', k);
    }
  }

  ghost function RunDb(db: Db, ops: seq<Op>): (r: (Db, seq<Verdict>))
    decreases |ops|
  {
    if |ops| == 0 then (db, [])
    else
      var (next, v) := DbStep(db, ops[0]);
      var (last, vs) := RunDb(next, ops[1..]);
      (last, [v] + vs)
  }

  ghost function RunMem(limits: Limits, mem: Mem, ops: seq<Op>): (r: (Mem, seq<Verdict>))
    decreases |ops|
  {
    if |ops| == 0 then (mem, [])
    else
      var (next, v) := MemStep(limits, mem, ops[0]);
      var (last, vs) := RunMem(limits, next, ops[1..]);
      (last, [v] + vs)
  }

  ghost predicate WithinTree(db: Db, ops: seq<Op>, k: set<string>) {
    forall i :: 0 <= i < |ops| ==> OnTree(db, ops[i]) && KeysOf(ops[i]) <= k
  }

  lemma {:induction false} RunsShareBook(db: Db, mem: Mem, book: Book, ops: seq<Op>, k: set<string>)
    requires Inv(db, book) && MemInv(mem, book)
    requires WithinTree(db, ops, k) && RoomForAll(db, k) && HoldsWithin(db, k)
    ensures RunDb(db, ops).1 == RunMem(db.limits, mem, ops).1
    ensures var book' := Run(db.limits, book, ops);
            Inv(RunDb(db, ops).0, book') && MemInv(RunMem(db.limits, mem, ops).0, book')
    ensures RunDb(db, ops).0.scopes == db.scopes && RunDb(db, ops).0.limits == db.limits
    decreases |ops|
  {
    if |ops| > 0 {
      var op := ops[0];
      assert !TooManyCounters(db, op) by {
        match op
        case Reserve(scope, amounts) =>
          NeverCrowded(db, scope, amounts, k);
        case Finish(i, actual) =>
          if i < |book| {
            assert RowMatches(db.rows[i], book[i]);
            NeverCrowded(db, db.rows[i].scope, FinalAmounts(actual), k);
          }
      }
      StepsAgree(db, mem, book, op);
      TreeKept(db, op);
      StepStaysWithin(db, op, k);
      var (next, v) := DbStep(db, op);
      assert WithinTree(next, ops[1..], k) by {
        forall i | 0 <= i < |ops[1..]| ensures OnTree(next, ops[1..][i]) && KeysOf(ops[1..][i]) <= k {
          assert OnTree(db, ops[i + 1]);
        }
      }
      RunsShareBook(next, MemStep(db.limits, mem, op).0, Step(db.limits, book, op).0, ops[1..], k);
    }
  }

  /** Refinement over whole runs: same acceptances and refusals, same counters everywhere. */
  lemma {:induction false} TreeRefinesLedgers(db: Db, mem: Mem, book: Book, ops: seq<Op>, k: set<string>, s: ScopeId,
                                              c: string)
    requires Inv(db, book) && MemInv(mem, book)
    requires WithinTree(db, ops, k) && RoomForAll(db, k) && HoldsWithin(db, k)
    requires s in db.scopes
    ensures RunDb(db, ops).1 == RunMem(db.limits, mem, ops).1
    ensures CellAt(RunDb(db, ops).0, s, c).used == At(In(RunMem(db.limits, mem, ops).0.used, s), c)
    ensures CellAt(RunDb(db, ops).0, s, c).reserved == At(In(RunMem(db.limits, mem, ops).0.reserved, s), c)
  {
    RunsShareBook(db, mem, book, ops, k);
    var book' := Run(db.limits, book, ops);
    assert CellOk(RunDb(db, ops).0, book', s, c);
    assert LedgerOk(RunMem(db.limits, mem, ops).0, book', s, c);
  }

  predicate OnlyShapes(setup: seq<TreeOp>) {
    forall op :: op in setup ==> !op.ReserveAt? && !op.FinishAt?
  }

  lemma {:induction false} ShapingBooksNothing(w: World, setup: seq<TreeOp>)
    requires OnlyShapes(setup)
    ensures RunTree(w, setup).book == w.book
    decreases |setup|
  {
    if |setup| > 0 {
      assert TreeStep(w, setup[0]).0.book == w.book by {
        assert setup[0] in setup;
      }
      ShapingBooksNothing(TreeStep(w, setup[0]).0, setup[1..]);
    }
  }

  /** From the start: shape any tree by opening, creating and configuring scopes, give new ledgers
      the same limits, and both answer any later calls alike and come to the same figures. */
  lemma {:induction false} TreeRefinesNewLedgers(setup: seq<TreeOp>, ops: seq<Op>, k: set<string>, s: ScopeId,
                                                 c: string)
    requires OnlyShapes(setup)
    requires var db := RunTree(World(EMPTY, []), setup).db;
      s in db.scopes && WithinTree(db, ops, k) && RoomForAll(db, k)
    ensures var db := RunTree(World(EMPTY, []), setup).db;
            var (tree, verdicts) := RunDb(db, ops);
            var (ledgers, answers) := RunMem(db.limits, FRESH, ops);
            && verdicts == answers
            && CellAt(tree, s, c) == Cell(At(In(ledgers.used, s), c), At(In(ledgers.reserved, s), c))
  {
    var w := RunTree(World(EMPTY, []), setup);
    EmptyInv();
    RunKeepsInv(World(EMPTY, []), setup);
    ShapingBooksNothing(World(EMPTY, []), setup);
    FreshInv();
    assert w.db.rows == [];
    hide Inv, MemInv, RunTree, RunDb, RunMem, WithinTree, RoomForAll;
    TreeRefinesLedgers(w.db, FRESH, [], ops, k, s, c);
  }

  // ----- the flat store against a forest of one-node ledgers -----

  ghost function FlatStep(db: FlatDb, ids: seq<string>, op: Op, id: string): (r: (FlatDb, FlatVerdict)) {
    match op
    case Reserve(scope, amounts) => FlatReserve(db, scope.name, amounts, id)
    case Finish(i, actual) =>
      if i < |ids| && ids[i] in db.rows then FlatFinish(db, db.rows[ids[i]].scope, ids[i], actual)
      else (db, Decided(UnknownReservation))
  }

  ghost predicate OnFlat(db: FlatDb, op: Op) {
    op.Reserve? ==> op.scope.Root? && op.scope.name in db.limits
  }

  ghost function IdsAfter(ids: seq<string>, op: Op, v: FlatVerdict, id: string): seq<string> {
    if op.Reserve? && v == Decided(Accepted) then ids + [id] else ids
  }

  lemma {:induction false} FlatTreeKept(db: FlatDb, ids: seq<string>, op: Op, id: string)
    ensures FlatStep(db, ids, op, id).0.limits == db.limits
  {
    hide FlatFits, Covers, WithReserved, WithReplaced;
  }

  lemma {:induction false} FlatBookReserve(db: FlatDb, book: Book, ids: seq<string>, op: Op, id: string)
    requires FlatInv(db, book, ids) && op.Reserve? && OnFlat(db, op) && id !in ids
    ensures var (db', v) := FlatStep(db, ids, op, id);
            var (book', bv) := Step(FlatLimits(db), book, op);
            v == Decided(bv) && FlatInv(db', book', IdsAfter(ids, op, v, id))
  {
    FlatReserveRefines(db, book, ids, op.scope.name, op.amounts, id);
    hide FlatInv, FlatReserve, FlatLimits, Fits;
  }

  lemma {:induction false} FlatBookFinish(db: FlatDb, book: Book, ids: seq<string>, op: Op, id: string)
    requires FlatInv(db, book, ids) && op.Finish?
    ensures var (db', v) := FlatStep(db, ids, op, id);
            var (book', bv) := Step(FlatLimits(db), book, op);
            v == Decided(bv) && FlatInv(db', book', IdsAfter(ids, op, v, id))
  {
    if op.index < |ids| {
      FlatFinishRefines(db, book, ids, op.index, op.actual);
      assert ids[op.index] in db.rows;
    }
    hide FlatInv, FlatFinish, FlatLimits, Fits;
  }

  lemma {:induction false} FlatStepsAgree(db: FlatDb, mem: Mem, book: Book, ids: seq<string>, op: Op, id: string)
    requires FlatInv(db, book, ids) && MemInv(mem, book) && OnFlat(db, op) && id !in ids
    ensures var (db', v) := FlatStep(db, ids, op, id);
            var (mem', mv) := MemStep(FlatLimits(db), mem, op);
            var (book', _) := Step(FlatLimits(db), book, op);
            v == Decided(mv) && FlatInv(db', book', IdsAfter(ids, op, v, id)) && MemInv(mem', book')
  {
    LedgerRefines(FlatLimits(db), mem, book, op);
    if op.Reserve? {
      FlatBookReserve(db, book, ids, op, id);
    } else {
      FlatBookFinish(db, book, ids, op, id);
    }
    hide FlatInv, MemInv, MemStep, FlatStep, Step, FlatLimits;
  }

  ghost function RunFlat(db: FlatDb, ids: seq<string>, ops: seq<Op>,
                         newIds: seq<string>): (r: (FlatDb, seq<FlatVerdict>))
    requires |newIds| == |ops|
    decreases |ops|
  {
    if |ops| == 0 then (db, [])
    else
      var (next, v) := FlatStep(db, ids, ops[0], newIds[0]);
      var (last, vs) := RunFlat(next, IdsAfter(ids, ops[0], v, newIds[0]), ops[1..], newIds[1..]);
      (last, [v] + vs)
  }

  ghost predicate AllOnFlat(db: FlatDb, ops: seq<Op>) {
    forall i :: 0 <= i < |ops| ==> OnFlat(db, ops[i])
  }

  ghost predicate FreshIds(ids: seq<string>, newIds: seq<string>) {
    && (forall i :: 0 <= i < |newIds| ==> newIds[i] !in ids)
    && (forall i, j :: 0 <= i < j < |newIds| ==> newIds[i] != newIds[j])
  }

  /** With fresh identifiers the flat store is the one-node ledger, on every run. */
  lemma {:induction false} FlatRefinesLedgers(db: FlatDb, mem: Mem, book: Book, ids: seq<string>, ops: seq<Op>,
                                              newIds: seq<string>)
    requires FlatInv(db, book, ids) && MemInv(mem, book)
    requires |newIds| == |ops| && AllOnFlat(db, ops) && FreshIds(ids, newIds)
    ensures var (db', vs) := RunFlat(db, ids, ops, newIds);
            var (mem', mvs) := RunMem(FlatLimits(db), mem, ops);
            && |vs| == |mvs| && (forall i :: 0 <= i < |vs| ==> vs[i] == Decided(mvs[i]))
            && (forall n, c :: CellIn(FlatCells(db', n), c) ==
                               Cell(At(In(mem'.used, Root(n)), c), At(In(mem'.reserved, Root(n)), c)))
    decreases |ops|
  {
    hide FlatInv, MemInv, FlatStep, MemStep, Step, FlatLimits, AllOnFlat, FreshIds, IdsAfter, FlatCells, CellIn, In;
    if |ops| == 0 {
      FlatShows(db, mem, book, ids);
    } else {
      FlatStillWithin(db, ids, ops, newIds);
      FlatStepsAgree(db, mem, book, ids, ops[0], newIds[0]);
      var (next, v) := FlatStep(db, ids, ops[0], newIds[0]);
      FlatRefinesLedgers(next, MemStep(FlatLimits(db), mem, ops[0]).0, Step(FlatLimits(db), book, ops[0]).0,
                         IdsAfter(ids, ops[0], v, newIds[0]), ops[1..], newIds[1..]);
    }
  }

  lemma {:induction false} FlatShows(db: FlatDb, mem: Mem, book: Book, ids: seq<string>)
    requires FlatInv(db, book, ids) && MemInv(mem, book)
    ensures forall n, c ::
      CellIn(FlatCells(db, n), c) == Cell(At(In(mem.used, Root(n)), c), At(In(mem.reserved, Root(n)), c))
  {
    forall n, c
      ensures CellIn(FlatCells(db, n), c) == Cell(At(In(mem.used, Root(n)), c), At(In(mem.reserved, Root(n)), c))
    {
      assert FlatCellOk(db, book, n, c);
      assert LedgerOk(mem, book, Root(n), c);
    }
  }

  lemma {:induction false} FlatStillWithin(db: FlatDb, ids: seq<string>, ops: seq<Op>, newIds: seq<string>)
    requires 0 < |ops| == |newIds| && AllOnFlat(db, ops) && FreshIds(ids, newIds)
    ensures OnFlat(db, ops[0]) && newIds[0] !in ids
    ensures var (next, v) := FlatStep(db, ids, ops[0], newIds[0]);
            && FlatLimits(next) == FlatLimits(db) && AllOnFlat(next, ops[1..])
            && FreshIds(IdsAfter(ids, ops[0], v, newIds[0]), newIds[1..])
  {
    FlatTreeKept(db, ids, ops[0], newIds[0]);
    hide FlatStep;
    var (next, v) := FlatStep(db, ids, ops[0], newIds[0]);
    assert FlatLimits(next) == FlatLimits(db);
    forall i | 0 <= i < |ops[1..]| ensures OnFlat(next, ops[1..][i]) {
      assert OnFlat(db, ops[i + 1]);
    }
  }

  predicate OnlyOpens(setup: seq<StoreOp>) {
    forall op :: op in setup ==> op.Opening? || op.Configuring?
  }

  lemma {:induction false} OpeningBooksNothing(w: Store, setup: seq<StoreOp>)
    requires OnlyOpens(setup)
    ensures StoreRun(w, setup).book == w.book && StoreRun(w, setup).ids == w.ids
    decreases |setup|
  {
    if |setup| > 0 {
      assert setup[0] in setup;
      OpeningBooksNothing(StoreStep(w, setup[0]).0, setup[1..]);
    }
  }

  /** From the start: open and configure any flat scopes, give new one-node ledgers the same limits,
      and both answer any later calls alike and come to the same figures. */
  lemma {:induction false} FlatRefinesNewLedgers(setup: seq<StoreOp>, ops: seq<Op>, newIds: seq<string>)
    requires OnlyOpens(setup) && |newIds| == |ops| && FreshIds([], newIds)
    requires AllOnFlat(StoreRun(NEW_STORE, setup).db, ops)
    ensures var db := StoreRun(NEW_STORE, setup).db;
            var (db', vs) := RunFlat(db, [], ops, newIds);
            var (mem', mvs) := RunMem(FlatLimits(db), FRESH, ops);
            && |vs| == |mvs| && (forall i :: 0 <= i < |vs| ==> vs[i] == Decided(mvs[i]))
            && (forall n, c :: CellIn(FlatCells(db', n), c) ==
                               Cell(At(In(mem'.used, Root(n)), c), At(In(mem'.reserved, Root(n)), c)))
  {
    FlatEmptyInv();
    FreshInv();
    StoreRunKeepsInv(NEW_STORE, setup);
    OpeningBooksNothing(NEW_STORE, setup);
    var w := StoreRun(NEW_STORE, setup);
    assert FlatInv(w.db, [], []);
    hide FlatInv, MemInv, StoreRun, RunFlat, RunMem, AllOnFlat, FreshIds, FlatLimits;
    FlatRefinesLedgers(w.db, FRESH, [], [], ops, newIds);
  }
}
