/** Whole runs of the durable budget tree: what every reachable state satisfies. */
module BudgetRuns {
  import opened Scopes
  import opened BudgetBook
  import opened BudgetTree

  /** One call on the store, with the raw amounts the caller passed and any handle at all. */
  datatype TreeOp =
    | OpenRoot(name: string, limits: map<string, int>)
    | CreateChild(at: Handle, child: string, limits: map<string, int>)
    | Configure(at: Handle, changes: map<string, int>, expected: map<string, int>)
    | ReserveAt(at: Handle, amounts: map<string, int>)
    | FinishAt(at: Handle, index: nat, actual: Option<map<string, int>>)

  /** The tables together with the list of everything that was ever reserved and charged. */
  datatype World = World(db: Db, book: Book)

  function NormalActual(raw: Option<map<string, int>>): Option<Option<Amounts>> {
    if raw.None? then Some(None)
    else if NormalAmounts(raw.value).None? then None
    else Some(NormalAmounts(raw.value))
  }

  ghost function TreeStep(w: World, op: TreeOp): (r: (World, Verdict)) {
    match op
    case OpenRoot(name, raw) =>
      if !ValidName(name) || NormalLimits(raw).None? then (w, InvalidInput)
      else
        var (db, v) := OpenRootTx(w.db, name, NormalLimits(raw).value);
        (World(db, w.book), v)
    case CreateChild(h, name, raw) =>
      if !ValidName(name) || NormalLimits(raw).None? then (w, InvalidInput)
      else
        var (db, v) := CreateChildTx(w.db, h, name, NormalLimits(raw).value);
        (World(db, w.book), v)
    case Configure(h, changes, expected) =>
      if NormalLimits(changes).None? || NormalLimits(expected).None? then (w, InvalidInput)
      else
        var (db, v) := ConfigureTx(w.db, h, NormalLimits(changes).value, NormalLimits(expected).value);
        (World(db, w.book), v)
    case ReserveAt(h, raw) =>
      if NormalAmounts(raw).None? then (w, InvalidInput)
      else
        var (db, v) := ReserveTx(w.db, h.root, h.id, NormalAmounts(raw).value);
        (World(db, if v == Accepted then w.book + [Entry(h.id, NormalAmounts(raw).value, Held)] else w.book), v)
    case FinishAt(h, i, raw) =>
      if NormalActual(raw).None? then (w, InvalidInput)
      else
        var (db, v) := FinishTx(w.db, h.root, h.id, i, NormalActual(raw).value);
        (World(db, if v == Accepted && i < |w.book| then w.book[i := Settled(w.book[i], NormalActual(raw).value)]
                   else w.book), v)
  }

  ghost function RunTree(w: World, ops: seq<TreeOp>): World
    decreases |ops|
  {
    if |ops| == 0 then w else RunTree(TreeStep(w, ops[0]).0, ops[1..])
  }

  lemma {:induction false} ReserveStepKeepsInv(w: World, op: TreeOp)
    requires Inv(w.db, w.book) && op.ReserveAt?
    ensures var w' := TreeStep(w, op).0; Inv(w'.db, w'.book)
  {
    if NormalAmounts(op.amounts).Some? && KnownScope(w.db, op.at.root, op.at.id) {
      ReserveRefines(w.db, w.book, op.at.root, op.at.id, NormalAmounts(op.amounts).value);
    }
  }

  lemma {:induction false} FinishStepKeepsInv(w: World, op: TreeOp)
    requires Inv(w.db, w.book) && op.FinishAt?
    ensures var w' := TreeStep(w, op).0; Inv(w'.db, w'.book)
  {
    hide Inv, Crowded, FinishTx, Fits;
    if NormalActual(op.actual).Some? {
      FinishRefines(w.db, w.book, op.at.root, op.at.id, op.index, NormalActual(op.actual).value);
    }
  }

  lemma {:induction false} TreeStepKeepsInv(w: World, op: TreeOp)
    requires Inv(w.db, w.book)
    ensures var w' := TreeStep(w, op).0; Inv(w'.db, w'.book)
  {
    match op
    case OpenRoot(name, raw) =>
      if NormalLimits(raw).Some? {
        OpenRootKeepsInv(w.db, w.book, name, NormalLimits(raw).value);
      }
    case CreateChild(h, name, raw) =>
      if NormalLimits(raw).Some? {
        CreateChildKeepsInv(w.db, w.book, h, name, NormalLimits(raw).value);
      }
    case Configure(h, changes, expected) =>
      if NormalLimits(changes).Some? && NormalLimits(expected).Some? {
        ConfigureKeepsInv(w.db, w.book, h, NormalLimits(changes).value, NormalLimits(expected).value);
      }
    case ReserveAt(_, _) =>
      ReserveStepKeepsInv(w, op);
    case FinishAt(_, _, _) =>
      FinishStepKeepsInv(w, op);
  }

  lemma {:induction false} RunKeepsInv(w: World, ops: seq<TreeOp>)
    requires Inv(w.db, w.book)
    ensures var w' := RunTree(w, ops); Inv(w'.db, w'.book)
    decreases |ops|
  {
    if |ops| > 0 {
      TreeStepKeepsInv(w, ops[0]);
      RunKeepsInv(TreeStep(w, ops[0]).0, ops[1..]);
    }
  }

  /** Conservation and hard caps in every reachable state, spelled out. */
  lemma {:induction false} ReachableConservation(ops: seq<TreeOp>, s: ScopeId, c: string)
    requires s in RunTree(World(EMPTY, []), ops).db.scopes
    ensures var w := RunTree(World(EMPTY, []), ops);
            && CellAt(w.db, s, c).reserved == Reserved(w.book, s, c)
            && CellAt(w.db, s, c).used == Used(w.book, s, c)
            && (c in LimitOf(w.db.limits, s) ==>
                  && CellAt(w.db, s, c).used + CellAt(w.db, s, c).reserved <= LimitOf(w.db.limits, s)[c]
                  && ChildAllocation(w.db, s, c, None) <= LimitOf(w.db.limits, s)[c])
  {
    EmptyInv();
    RunKeepsInv(World(EMPTY, []), ops);
    var w := RunTree(World(EMPTY, []), ops);
    assert CellOk(w.db, w.book, s, c);
    assert CapAt(w.db.limits, w.book, s, c);
    assert AllocatedAt(w.db, s, c);
  }

  ghost predicate HandleGenuine(op: TreeOp) {
    op.OpenRoot? || Genuine(op.at)
  }

  /** The stored state never looks corrupt to a caller whose handle is genuine: neither a
      negative hold nor a broken chain nor a row that contradicts its scope can occur. */
  lemma {:induction false} NeverCorrupt(ops: seq<TreeOp>, op: TreeOp)
    requires HandleGenuine(op)
    ensures TreeStep(RunTree(World(EMPTY, []), ops), op).1 != Corrupt
  {
    EmptyInv();
    RunKeepsInv(World(EMPTY, []), ops);
    hide Inv, TreeStep, RunTree;
    StepNeverCorrupt(RunTree(World(EMPTY, []), ops), op);
  }

  lemma {:induction false} StepNeverCorrupt(w: World, op: TreeOp)
    requires Inv(w.db, w.book) && HandleGenuine(op)
    ensures TreeStep(w, op).1 != Corrupt
  {
    hide RowsOk, CellsOk, CapsHold, AllocationOk, OverAllocates, LimitTooLow, CellsFit, Crowded, Normalized, FinishTx;
    match op
    case OpenRoot(_, _) =>
    case CreateChild(h, _, _) =>
      assert h.id in w.db.scopes ==> w.db.scopes[h.id].parent == h.id.ParentOf();
    case Configure(h, _, _) =>
      assert h.id in w.db.scopes ==> w.db.scopes[h.id].depth == h.id.Depth();
    case ReserveAt(_, _) =>
    case FinishAt(_, _, _) =>
      FinishNeverCorrupt(w, op);
  }

  lemma {:induction false} FinishNeverCorrupt(w: World, op: TreeOp)
    requires Inv(w.db, w.book) && op.FinishAt?
    ensures TreeStep(w, op).1 != Corrupt
  {
    hide Inv, Crowded, FinishTx, Fits;
    if NormalActual(op.actual).Some? {
      FinishRefines(w.db, w.book, op.at.root, op.at.id, op.index, NormalActual(op.actual).value);
    }
  }

  /** A hold can always be given back, or charged up to its own size, unless some scope of
      its chain has collected more distinct counters than one transaction may carry. */
  lemma {:induction false} HoldAlwaysSettles(ops: seq<TreeOp>, h: Handle, i: nat, actual: Option<Amounts>)
    requires var w := RunTree(World(EMPTY, []), ops);
             && i < |w.book| && w.book[i].state.Held? && h.id == w.book[i].scope && h.root == h.id.RootOf()
             && (actual.Some? ==> forall c :: c in actual.value ==> actual.value[c] <= At(w.book[i].amounts, c))
    ensures var w := RunTree(World(EMPTY, []), ops);
            FinishTx(w.db, h.root, h.id, i, actual).1 ==
            if Crowded(w.db, h.id, FinalAmounts(actual)) then CounterLimit else Accepted
  {
    EmptyInv();
    RunKeepsInv(World(EMPTY, []), ops);
    var w := RunTree(World(EMPTY, []), ops);
    FinishRefines(w.db, w.book, h.root, h.id, i, actual);
    ReservationIsHonoured(w.db.limits, w.book, i, actual);
  }
}
