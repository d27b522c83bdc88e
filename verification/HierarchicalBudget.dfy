/** The durable budget store as an object: each method is one transaction that works on the
    tables step by step and either commits everything or changes nothing. */
module HierarchicalBudget {
  import opened Scopes
  import opened Sums
  import opened BudgetBook
  import opened BudgetTree
  import opened BudgetRuns
  import opened BudgetBounds

  /** The details carried by a refused reservation. */
  datatype Overrun = Overrun(scope: ScopeId, counter: string, limit: nat, total: int)

  ghost predicate GenuineOverrun(db: Db, o: Overrun, amounts: Amounts, replaced: Amounts) {
    && o.counter in amounts && o.counter in LimitOf(db.limits, o.scope)
    && o.limit == LimitOf(db.limits, o.scope)[o.counter]
    && o.total == CellAt(db, o.scope, o.counter).used + CellAt(db, o.scope, o.counter).reserved
                  - At(replaced, o.counter) + amounts[o.counter]
    && o.total > o.limit
  }

  datatype Snapshot = Snapshot(limits: Amounts, used: Amounts, reserved: Amounts, remaining: Amounts)

  /** Every limited or touched counter, and what is left of each limit (never below zero). */
  function ViewOf(limits: Amounts, cells: map<string, Cell>): Snapshot {
    Snapshot(
      limits,
      map c | c in limits.Keys + cells.Keys :: CellIn(cells, c).used,
      map c | c in limits.Keys + cells.Keys :: CellIn(cells, c).reserved,
      map c | c in limits ::
        if limits[c] >= CellIn(cells, c).used + CellIn(cells, c).reserved
        then limits[c] - CellIn(cells, c).used - CellIn(cells, c).reserved else 0)
  }

  lemma ViewReads(limits: Amounts, cells: map<string, Cell>, c: string)
    ensures At(ViewOf(limits, cells).used, c) == CellIn(cells, c).used
    ensures At(ViewOf(limits, cells).reserved, c) == CellIn(cells, c).reserved
  {
  }

  function Reverse(s: seq<ScopeId>): seq<ScopeId> {
    if |s| == 0 then [] else Reverse(s[1..]) + [s[0]]
  }

  lemma ReverseAppend(s: seq<ScopeId>, x: ScopeId)
    ensures Reverse(s + [x]) == [x] + Reverse(s)
  {
    if |s| > 0 {
      assert (s + [x])[1..] == s[1..] + [x];
      ReverseAppend(s[1..], x);
    }
  }

  // ----- reading the tables; the tables are the open transaction -----

  /** The walk from `leaf` to its root stands at `current`, with `collected` behind it. */
  ghost predicate Walking(db: Db, root: ScopeId, leaf: ScopeId, collected: seq<ScopeId>, current: Option<ScopeId>) {
    match current
    case Some(s) =>
      && Under(leaf, s)
      && |collected| + s.Depth() == leaf.Depth()
      && Chain(leaf) == Chain(s) + Reverse(collected)
      && (|collected| > 0 ==> KnownScope(db, root, leaf) && KnownScope(db, root, s))
      && (|collected| == 0 ==> s == leaf)
      && (forall t :: t in collected ==> t.Depth() > s.Depth())
    case None =>
      && KnownScope(db, root, leaf)
      && |collected| > 0 && collected[|collected| - 1] == root
      && Chain(leaf) == Reverse(collected)
  }

  lemma {:induction false} WalkOn(db: Db, root: ScopeId, leaf: ScopeId, collected: seq<ScopeId>, s: ScopeId)
    requires TreeOk(db) && Walking(db, root, leaf, collected, Some(s)) && KnownScope(db, root, s)
    ensures s !in collected && |collected| <= MAX_DEPTH
    ensures db.scopes[s].parent == s.ParentOf()
    ensures Walking(db, root, leaf, collected + [s], s.ParentOf())
  {
    hide TreeOk;
    StoredRow(db, leaf);
    StoredRow(db, s);
    ReverseAppend(collected, s);
    if s.Child? {
      UnderTransitive(leaf, s, s.parent);
    }
  }

  method ResolveChain(db: Db, root: ScopeId, leaf: ScopeId) returns (chain: seq<ScopeId>, v: Verdict)
    requires TreeOk(db)
    ensures v == if KnownScope(db, root, leaf) then Accepted else UnknownScope
    ensures v == Accepted ==> chain == Chain(leaf)
  {
    var collected: seq<ScopeId> := [];
    var current: Option<ScopeId> := Some(leaf);
    while current.Some?
      invariant Walking(db, root, leaf, collected, current)
      decreases if current.Some? then current.value.Depth() + 1 else 0
    {
      var s := current.value;
      if s in collected || |collected| > MAX_DEPTH {
        WalkOn(db, root, leaf, collected, s);
        return [], Corrupt;
      }
      if !KnownScope(db, root, s) {
        return [], UnknownScope;
      }
      WalkOn(db, root, leaf, collected, s);
      collected := collected + [s];
      current := db.scopes[s].parent;
    }
    if |collected| == 0 || collected[|collected| - 1] != root {
      return [], Corrupt;
    }
    chain, v := Reverse(collected), Accepted;
  }

  method CountersInBounds(db: Db, chain: seq<ScopeId>, amounts: Amounts) returns (ok: bool)
    ensures ok <==> forall s :: s in chain ==> !CrowdedAt(db, s, amounts)
  {
    for i := 0 to |chain|
      invariant forall j :: 0 <= j < i ==> !CrowdedAt(db, chain[j], amounts)
    {
      if CrowdedAt(db, chain[i], amounts) {
        return false;
      }
    }
    ok := true;
  }

  /** Finds the first scope of the chain whose cap the amounts would break. */
  method CheckCapacity(db: Db, chain: seq<ScopeId>, amounts: Amounts, replaced: Amounts)
    returns (refused: Option<Overrun>)
    ensures refused.None? ==> forall s :: s in chain ==> CellsFitAt(db, s, amounts, replaced)
    ensures refused.Some? ==>
      && GenuineOverrun(db, refused.value, amounts, replaced)
      && exists i :: 0 <= i < |chain| && refused.value.scope == chain[i]
                     && forall j :: 0 <= j < i ==> CellsFitAt(db, chain[j], amounts, replaced)
  {
    for i := 0 to |chain|
      invariant forall j :: 0 <= j < i ==> CellsFitAt(db, chain[j], amounts, replaced)
    {
      var s := chain[i];
      var todo := amounts.Keys;
      while todo != {}
        invariant todo <= amounts.Keys
        invariant forall c :: c in amounts && c !in todo && c in LimitOf(db.limits, s) ==>
          CellAt(db, s, c).used + CellAt(db, s, c).reserved - At(replaced, c) + amounts[c]
          <= LimitOf(db.limits, s)[c]
        decreases todo
      {
        var c :| c in todo;
        if c in LimitOf(db.limits, s) {
          var cell := CellAt(db, s, c);
          var total := cell.used + cell.reserved - At(replaced, c) + amounts[c];
          if total > LimitOf(db.limits, s)[c] {
            return Some(Overrun(s, c, LimitOf(db.limits, s)[c], total));
          }
        }
        todo := todo - {c};
      }
      assert CellsFitAt(db, s, amounts, replaced);
    }
    refused := None;
  }

  method SumOfChildLimits(db: Db, p: ScopeId, c: string, excluding: Option<ScopeId>) returns (total: nat)
    ensures total == ChildAllocation(db, p, c, excluding)
  {
    total := 0;
    ghost var counted: map<ScopeId, nat> := map[];
    ghost var all := ChildLimits(db, p, c, excluding);
    var todo := db.scopes.Keys;
    while todo != {}
      invariant todo <= db.scopes.Keys
      invariant counted == map s | s in all && s !in todo :: all[s]
      invariant total == Total(counted)
      decreases todo
    {
      var s :| s in todo;
      if db.scopes[s].parent == Some(p) && c in LimitOf(db.limits, s) && excluding != Some(s) {
        total := total + LimitOf(db.limits, s)[c];
        TotalUpdate(counted, s, all[s]);
        counted := counted[s := all[s]];
      }
      todo := todo - {s};
    }
    assert counted == all;
  }

  method ParentAllocates(db: Db, p: ScopeId, wanted: Amounts, excluding: Option<ScopeId>) returns (ok: bool)
    ensures ok <==> !OverAllocates(db, p, wanted, excluding)
  {
    var todo := wanted.Keys;
    while todo != {}
      invariant todo <= wanted.Keys
      invariant forall c :: c in wanted && c !in todo ==> !OverAllocatesAt(db, p, wanted, excluding, c)
      decreases todo
    {
      var c :| c in todo;
      if c in LimitOf(db.limits, p) {
        var handedOut := SumOfChildLimits(db, p, c, excluding);
        if handedOut + wanted[c] > LimitOf(db.limits, p)[c] {
          assert OverAllocatesAt(db, p, wanted, excluding, c);
          return false;
        }
      }
      todo := todo - {c};
    }
    ok := true;
  }

  method ChangesFit(db: Db, s: ScopeId, changes: Amounts) returns (ok: bool)
    ensures ok <==> !LimitTooLow(db, s, changes)
  {
    var todo := changes.Keys;
    while todo != {}
      invariant todo <= changes.Keys
      invariant forall c :: c in changes && c !in todo ==> !TooLowAt(db, s, changes, c)
      decreases todo
    {
      var c :| c in todo;
      var cell := CellAt(db, s, c);
      var handedOut := SumOfChildLimits(db, s, c, None);
      if cell.used + cell.reserved > changes[c] || handedOut > changes[c] {
        assert TooLowAt(db, s, changes, c);
        return false;
      }
      todo := todo - {c};
    }
    ok := true;
  }

  // ----- new counter rows, scope by scope along the chain -----

  lemma ReservedCellsStep(db: Db, prefix: seq<ScopeId>, s: ScopeId, amounts: Amounts)
    requires s !in prefix
    ensures CellsOf(db.(cells := ReservedCells(db, prefix, amounts)), s) == CellsOf(db, s)
    ensures ReservedCells(db, prefix + [s], amounts) ==
            ReservedCells(db, prefix, amounts)[s := WithReserved(CellsOf(db, s), amounts)]
  {
  }

  lemma ReplacedCellsBefore(db: Db, prefix: seq<ScopeId>, s: ScopeId, held: Amounts, charged: Amounts)
    requires s !in prefix && ChainCovers(db, prefix, held)
    ensures CellsOf(db.(cells := ReplacedCells(db, prefix, held, charged)), s) == CellsOf(db, s)
  {
  }

  lemma ReplacedCellsStep(db: Db, prefix: seq<ScopeId>, s: ScopeId, held: Amounts, charged: Amounts)
    requires s !in prefix && ChainCovers(db, prefix, held) && Covers(CellsOf(db, s), held)
    ensures ChainCovers(db, prefix + [s], held)
    ensures ReplacedCells(db, prefix + [s], held, charged) ==
            ReplacedCells(db, prefix, held, charged)[s := WithReplaced(CellsOf(db, s), held, charged)]
  {
  }

  method StageReserved(db: Db, chain: seq<ScopeId>, amounts: Amounts)
    returns (staged: map<ScopeId, map<string, Cell>>)
    requires forall i, j :: 0 <= i < j < |chain| ==> chain[i] != chain[j]
    ensures staged == ReservedCells(db, chain, amounts)
  {
    staged := db.cells;
    assert staged == ReservedCells(db, chain[..0], amounts);
    for i := 0 to |chain|
      invariant staged == ReservedCells(db, chain[..i], amounts)
    {
      assert chain[..i + 1] == chain[..i] + [chain[i]];
      ReservedCellsStep(db, chain[..i], chain[i], amounts);
      var before := if chain[i] in staged then staged[chain[i]] else map[];
      staged := staged[chain[i] := WithReserved(before, amounts)];
    }
    assert chain[..|chain|] == chain;
  }

  method StageReplaced(db: Db, chain: seq<ScopeId>, held: Amounts, charged: Amounts)
    returns (staged: map<ScopeId, map<string, Cell>>, ok: bool)
    requires forall i, j :: 0 <= i < j < |chain| ==> chain[i] != chain[j]
    ensures ok <==> ChainCovers(db, chain, held)
    ensures ok ==> staged == ReplacedCells(db, chain, held, charged)
  {
    staged := db.cells;
    assert staged == ReplacedCells(db, chain[..0], held, charged);
    for i := 0 to |chain|
      invariant ChainCovers(db, chain[..i], held)
      invariant staged == ReplacedCells(db, chain[..i], held, charged)
    {
      assert chain[..i + 1] == chain[..i] + [chain[i]];
      ReplacedCellsBefore(db, chain[..i], chain[i], held, charged);
      var before := if chain[i] in staged then staged[chain[i]] else map[];
      if !Covers(before, held) {
        return staged, false;
      }
      ReplacedCellsStep(db, chain[..i], chain[i], held, charged);
      staged := staged[chain[i] := WithReplaced(before, held, charged)];
    }
    assert chain[..|chain|] == chain;
    ok := true;
  }

  // ----- the transactions, up to their commit -----

  method PrepareChild(db: Db, h: Handle, name: string, wanted: Amounts)
    returns (v: Verdict, scopes: map<ScopeId, ScopeRow>, limits: Limits)
    requires TreeOk(db)
    ensures v == CreateChildTx(db, h, name, wanted).1
    ensures CreateChildTx(db, h, name, wanted).0 == db.(scopes := scopes, limits := limits)
  {
    scopes, limits := db.scopes, db.limits;
    if h.depth >= MAX_DEPTH {
      v := TooDeep;
      return;
    }
    if !KnownScope(db, h.root, h.id) {
      v := UnknownScope;
      return;
    }
    var row := scopes[h.id];
    if row.parent != h.parent {
      v := Corrupt;
      return;
    }
    var chain;
    chain, v := ResolveChain(db, h.root, h.id);
    StoredRow(db, h.id);
    hide TreeOk;
    if v != Accepted || |chain| - 1 != row.depth {
      v := Corrupt;
      return;
    }
    if row.depth >= MAX_DEPTH {
      v := TooDeep;
      return;
    }
    var id := Child(h.id, name);
    if id in scopes {
      v := if scopes[id] != ScopeRow(h.root, Some(h.id), row.depth + 1) || LimitOf(limits, id) != wanted
           then ScopeExists else Accepted;
      return;
    }
    var ok := ParentAllocates(db, h.id, wanted, None);
    hide OverAllocates;
    if !ok {
      v := Exceeded;
      return;
    }
    scopes := scopes[id := ScopeRow(h.root, Some(h.id), row.depth + 1)];
    limits := limits[id := wanted];
  }

  method PrepareConfigure(db: Db, h: Handle, changes: Amounts, expected: Amounts)
    returns (v: Verdict, limits: Limits)
    requires TreeOk(db)
    ensures v == ConfigureTx(db, h, changes, expected).1
    ensures ConfigureTx(db, h, changes, expected).0 == db.(limits := limits)
  {
    limits := db.limits;
    if !KnownScope(db, h.root, h.id) {
      v := UnknownScope;
      return;
    }
    if db.scopes[h.id].parent != h.parent || db.scopes[h.id].depth != h.depth {
      v := Corrupt;
      return;
    }
    var chain;
    chain, v := ResolveChain(db, h.root, h.id);
    StoredRow(db, h.id);
    hide TreeOk;
    if v != Accepted || |chain| - 1 != h.depth {
      v := Corrupt;
      return;
    }
    if LimitOf(limits, h.id) != expected {
      v := LimitsChanged;
      return;
    }
    var replacement := expected + changes;
    if |replacement| > MAX_COUNTERS {
      v := InvalidInput;
      return;
    }
    var ok := ChangesFit(db, h.id, changes);
    hide LimitTooLow;
    if !ok {
      v := Exceeded;
      return;
    }
    if h.parent.Some? {
      ok := ParentAllocates(db, h.parent.value, replacement, Some(h.id));
      hide OverAllocates;
      if !ok {
        v := Exceeded;
        return;
      }
    }
    limits := limits[h.id := replacement];
  }

  method PrepareHold(db: Db, h: Handle, requested: Amounts)
    returns (cells: map<ScopeId, map<string, Cell>>, v: Verdict, refused: Option<Overrun>)
    requires TreeOk(db)
    ensures (cells, v) == HeldCells(db, h.root, h.id, requested)
    ensures v == Exceeded <==> refused.Some?
    ensures refused.Some? ==>
      refused.value.scope in Chain(h.id) && GenuineOverrun(db, refused.value, requested, map[])
  {
    cells, refused := db.cells, None;
    var chain;
    chain, v := ResolveChain(db, h.root, h.id);
    if v != Accepted {
      return;
    }
    var ok := CountersInBounds(db, chain, requested);
    if !ok {
      return cells, CounterLimit, refused;
    }
    assert !Crowded(db, h.id, requested);
    refused := CheckCapacity(db, chain, requested, map[]);
    if refused.Some? {
      assert !CellsFitAt(db, refused.value.scope, requested, map[]);
      return cells, Exceeded, refused;
    }
    assert CellsFit(db, h.id, requested, map[]);
    ChainDistinct(h.id);
    cells := StageReserved(db, chain, requested);
  }

  method PrepareReserve(db: Db, h: Handle, requested: Amounts)
    returns (v: Verdict, rows: seq<ReservationRow>, cells: map<ScopeId, map<string, Cell>>, refused: Option<Overrun>)
    requires TreeOk(db)
    ensures v == ReserveTx(db, h.root, h.id, requested).1
    ensures ReserveTx(db, h.root, h.id, requested).0 == db.(rows := rows, cells := cells)
    ensures v == Accepted ==> rows == db.rows + [ReservationRow(h.root, h.id, requested, Active)]
    ensures v == Exceeded <==> refused.Some?
    ensures refused.Some? ==>
      refused.value.scope in Chain(h.id) && GenuineOverrun(db, refused.value, requested, map[])
  {
    cells, v, refused := PrepareHold(db, h, requested);
    hide HeldCells;
    rows := db.rows;
    if v == Accepted {
      rows := rows + [ReservationRow(h.root, h.id, requested, Active)];
    }
  }

  method PrepareSettlement(db: Db, h: Handle, held: Amounts, final: Amounts)
    returns (cells: map<ScopeId, map<string, Cell>>, v: Verdict)
    requires TreeOk(db)
    ensures (cells, v) == SettledCells(db, h.root, h.id, held, final)
  {
    cells := db.cells;
    var chain;
    chain, v := ResolveChain(db, h.root, h.id);
    if v != Accepted {
      return;
    }
    var ok := CountersInBounds(db, chain, final);
    if !ok {
      return cells, CounterLimit;
    }
    assert !Crowded(db, h.id, final);
    var refused := CheckCapacity(db, chain, final, held);
    if refused.Some? {
      assert !CellsFitAt(db, refused.value.scope, final, held);
      return cells, Exceeded;
    }
    assert CellsFit(db, h.id, final, held);
    ChainDistinct(h.id);
    var staged;
    staged, ok := StageReplaced(db, chain, held, final);
    if !ok {
      return cells, Corrupt;
    }
    cells := staged;
  }

  method PrepareFinish(db: Db, h: Handle, id: nat, actual: Option<Amounts>)
    returns (v: Verdict, rows: seq<ReservationRow>, cells: map<ScopeId, map<string, Cell>>)
    requires TreeOk(db)
    ensures v == FinishTx(db, h.root, h.id, id, actual).1
    ensures FinishTx(db, h.root, h.id, id, actual).0 == db.(rows := rows, cells := cells)
  {
    rows, cells := db.rows, db.cells;
    if id >= |rows| || rows[id].root != h.root || rows[id].scope != h.id {
      v := UnknownReservation;
      return;
    }
    if rows[id].status != Active {
      v := Inactive;
      return;
    }
    cells, v := PrepareSettlement(db, h, rows[id].amounts, FinalAmounts(actual));
    hide SettledCells;
    if v == Accepted {
      rows := rows[id := rows[id].(status := if actual.Some? then Reconciled else Cancelled)];
    }
  }

  class HierarchicalBudgetStore {
    var scopes: map<ScopeId, ScopeRow>
    var limits: Limits
    var cells: map<ScopeId, map<string, Cell>>
    var rows: seq<ReservationRow>
    ghost var book: Book

    function Tables(): Db
      reads this
    {
      Db(scopes, limits, cells, rows)
    }

    ghost predicate Valid()
      reads this
    {
      Inv(Tables(), book) && Bounded(Tables())
    }

    ghost function State(): World
      reads this
    {
      World(Tables(), book)
    }

    constructor ()
      ensures Valid() && State() == World(EMPTY, [])
    {
      scopes, limits, cells, rows, book := map[], map[], map[], [], [];
      new;
      EmptyInv();
      EmptyBounds();
    }

    // ----- transactions -----

    method OpenRoot(name: string, raw: map<string, int>) returns (v: Verdict)
      requires Valid()
      modifies this
      ensures Valid()
      ensures (State(), v) == TreeStep(old(State()), TreeOp.OpenRoot(name, raw))
    {
      hide Inv, Bounded;
      TreeStepKeepsInv(State(), TreeOp.OpenRoot(name, raw));
      TreeStepKeepsBounds(State(), TreeOp.OpenRoot(name, raw));
      var normalized := NormalLimits(raw);
      if !ValidName(name) || normalized.None? {
        return InvalidInput;
      }
      var id := Root(name);
      if id !in scopes {
        scopes := scopes[id := ScopeRow(id, None, 0)];
        limits := limits[id := normalized.value];
      } else if scopes[id] != ScopeRow(id, None, 0) || LimitOf(limits, id) != normalized.value {
        return ScopeExists;
      }
      v := Accepted;
    }

    method CreateChild(h: Handle, name: string, raw: map<string, int>) returns (v: Verdict)
      requires Valid()
      modifies this
      ensures Valid()
      ensures (State(), v) == TreeStep(old(State()), TreeOp.CreateChild(h, name, raw))
    {
      assert TreeOk(Tables());
      hide Inv, Bounded;
      TreeStepKeepsInv(State(), TreeOp.CreateChild(h, name, raw));
      TreeStepKeepsBounds(State(), TreeOp.CreateChild(h, name, raw));
      var normalized := NormalLimits(raw);
      if !ValidName(name) || normalized.None? {
        return InvalidInput;
      }
      v, scopes, limits := PrepareChild(Tables(), h, name, normalized.value);
      hide CreateChildTx;
    }

    method Configure(h: Handle, changes: map<string, int>, expected: map<string, int>) returns (v: Verdict)
      requires Valid()
      modifies this
      ensures Valid()
      ensures (State(), v) == TreeStep(old(State()), TreeOp.Configure(h, changes, expected))
    {
      assert TreeOk(Tables());
      hide Inv, Bounded;
      TreeStepKeepsInv(State(), TreeOp.Configure(h, changes, expected));
      TreeStepKeepsBounds(State(), TreeOp.Configure(h, changes, expected));
      var wanted, assumed := NormalLimits(changes), NormalLimits(expected);
      if wanted.None? || assumed.None? {
        return InvalidInput;
      }
      v, limits := PrepareConfigure(Tables(), h, wanted.value, assumed.value);
      hide ConfigureTx;
    }

    method Reserve(h: Handle, raw: map<string, int>) returns (v: Verdict, id: nat, refused: Option<Overrun>)
      requires Valid()
      modifies this
      ensures Valid()
      ensures (State(), v) == TreeStep(old(State()), ReserveAt(h, raw))
      ensures v == Accepted ==>
        id == old(|rows|) && rows[id] == ReservationRow(h.root, h.id, NormalAmounts(raw).value, Active)
      ensures v == Exceeded <==> refused.Some?
      ensures refused.Some? ==>
        refused.value.scope in Chain(h.id) &&
        GenuineOverrun(old(Tables()), refused.value, NormalAmounts(raw).value, map[])
    {
      hide Bounded, ReserveTx, HeldCells, Crowded, CellsFit;
      ReserveStepKeepsInv(State(), ReserveAt(h, raw));
      TreeStepKeepsBounds(State(), ReserveAt(h, raw));
      id, refused := 0, None;
      var normalized := NormalAmounts(raw);
      if normalized.None? {
        return InvalidInput, id, refused;
      }
      id := |rows|;
      v, rows, cells, refused := PrepareReserve(Tables(), h, normalized.value);
      if v == Accepted {
        book := book + [Entry(h.id, normalized.value, Held)];
      }
    }

    /** Reconciles (`Some`) or cancels (`None`) a reservation over its whole chain. */
    method Finish(h: Handle, id: nat, raw: Option<map<string, int>>) returns (v: Verdict)
      requires Valid()
      modifies this
      ensures Valid()
      ensures (State(), v) == TreeStep(old(State()), FinishAt(h, id, raw))
    {
      hide Bounded, FinishTx;
      FinishStepKeepsInv(State(), FinishAt(h, id, raw));
      TreeStepKeepsBounds(State(), FinishAt(h, id, raw));
      var normalized := NormalActual(raw);
      if normalized.None? {
        return InvalidInput;
      }
      v, rows, cells := PrepareFinish(Tables(), h, id, normalized.value);
      if v == Accepted && id < |book| {
        book := book[id := Settled(book[id], normalized.value)];
      }
    }

    /** A scope's own view agrees with the sums over its subtree. */
    method ReadSnapshot(h: Handle) returns (v: Verdict, snapshot: Snapshot)
      requires Valid()
      ensures v == if KnownScope(Tables(), h.root, h.id) then Accepted else UnknownScope
      ensures v == Accepted ==>
        && snapshot.limits == limits[h.id]
        && (forall c :: At(snapshot.used, c) == Used(book, h.id, c))
        && (forall c :: At(snapshot.reserved, c) == Reserved(book, h.id, c))
        && snapshot.remaining.Keys == limits[h.id].Keys
        && (forall c :: c in limits[h.id] ==>
              snapshot.remaining[c] == limits[h.id][c] - Used(book, h.id, c) - Reserved(book, h.id, c))
    {
      if h.id !in scopes || scopes[h.id].root != h.root {
        return UnknownScope, Snapshot(map[], map[], map[], map[]);
      }
      assert CellsBounded(Tables(), h.id) && |LimitOf(limits, h.id)| <= MAX_COUNTERS;
      if |limits[h.id]| > MAX_COUNTERS || |CellsOf(Tables(), h.id)| > MAX_COUNTERS {
        // Too many rows would be read as corruption; there never are.
        assert false;
      }
      v, snapshot := Accepted, ViewOf(limits[h.id], CellsOf(Tables(), h.id));
      forall c
        ensures At(snapshot.used, c) == Used(book, h.id, c) && At(snapshot.reserved, c) == Reserved(book, h.id, c)
        ensures c in limits[h.id] ==>
          snapshot.remaining[c] == limits[h.id][c] - Used(book, h.id, c) - Reserved(book, h.id, c)
      {
        ViewReads(limits[h.id], CellsOf(Tables(), h.id), c);
        assert CellOk(Tables(), book, h.id, c);
        assert CapAt(limits, book, h.id, c);
      }
    }
  }
}
