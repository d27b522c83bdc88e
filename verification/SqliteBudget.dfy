/** The flat durable repository as an object. A method is one transaction: it stages new rows
    counter by counter and either commits all of them or leaves the tables alone. */
module SqliteBudget {
  import opened Scopes
  import opened BudgetBook
  import opened BudgetTree
  import opened BudgetStore
  import HierarchicalBudget

  ghost predicate WithinLimits(db: FlatDb, scope: string, amounts: Amounts, replaced: Amounts, todo: set<string>) {
    forall c :: c in amounts && c !in todo && c in LimitsAt(db, scope) ==>
      CellIn(FlatCells(db, scope), c).used + CellIn(FlatCells(db, scope), c).reserved - At(replaced, c) + amounts[c]
      <= LimitsAt(db, scope)[c]
  }

  method CheckCapacity(db: FlatDb, scope: string, amounts: Amounts, replaced: Amounts) returns (ok: bool)
    ensures ok <==> FlatFits(db, scope, amounts, replaced)
  {
    var todo := amounts.Keys;
    while todo != {}
      invariant todo <= amounts.Keys
      invariant WithinLimits(db, scope, amounts, replaced, todo)
      decreases todo
    {
      var c :| c in todo;
      if c in LimitsAt(db, scope) {
        var cell := CellIn(FlatCells(db, scope), c);
        if cell.used + cell.reserved - At(replaced, c) + amounts[c] > LimitsAt(db, scope)[c] {
          return false;
        }
      }
      todo := todo - {c};
    }
    ok := true;
  }

  /** Adds the amounts to the reserved column, one counter row at a time. */
  method StageReserved(before: map<string, Cell>, amounts: Amounts) returns (cells: map<string, Cell>)
    ensures cells == WithReserved(before, amounts)
  {
    cells := before;
    var todo := amounts.Keys;
    while todo != {}
      invariant todo <= amounts.Keys
      invariant cells.Keys == before.Keys + (amounts.Keys - todo)
      invariant forall c :: c in cells ==>
        cells[c] == if c in todo then CellIn(before, c)
                    else Cell(CellIn(before, c).used, CellIn(before, c).reserved + At(amounts, c))
      decreases todo
    {
      var c :| c in todo;
      cells := cells[c := Cell(CellIn(cells, c).used, CellIn(cells, c).reserved + amounts[c])];
      todo := todo - {c};
    }
  }

  /** Which counter row `c` must be after the counters outside `todo` were replaced. */
  ghost predicate ReplacedRow(cells: map<string, Cell>, before: map<string, Cell>, held: Amounts, charged: Amounts,
                              todo: set<string>, c: string)
  {
    if c in held.Keys + charged.Keys - todo then
      && At(held, c) <= CellIn(before, c).reserved && c in cells
      && cells[c] == Cell(CellIn(before, c).used + At(charged, c), CellIn(before, c).reserved - At(held, c))
    else (c in cells <==> c in before) && CellIn(cells, c) == CellIn(before, c)
  }

  /** Replaces the hold by the charge over every counter that either of them names, and stops
      at the first counter that holds less than it should. */
  method StageReplaced(before: map<string, Cell>, held: Amounts, charged: Amounts)
    returns (cells: map<string, Cell>, ok: bool)
    ensures ok <==> Covers(before, held)
    ensures ok ==> cells == WithReplaced(before, held, charged)
  {
    cells := before;
    var todo := held.Keys + charged.Keys;
    while todo != {}
      invariant todo <= held.Keys + charged.Keys
      invariant forall c :: ReplacedRow(cells, before, held, charged, todo, c)
      decreases todo
    {
      var c :| c in todo;
      assert ReplacedRow(cells, before, held, charged, todo, c);
      var cell := CellIn(cells, c);
      if cell.reserved < At(held, c) {
        assert c in held;
        return cells, false;
      }
      ghost var was := cells;
      cells := cells[c := Cell(cell.used + At(charged, c), cell.reserved - At(held, c))];
      forall d ensures ReplacedRow(cells, before, held, charged, todo - {c}, d) {
        assert ReplacedRow(was, before, held, charged, todo, d);
      }
      todo := todo - {c};
    }
    AllReplaced(cells, before, held, charged);
    ok := true;
  }

  lemma AllReplaced(cells: map<string, Cell>, before: map<string, Cell>, held: Amounts, charged: Amounts)
    requires forall c :: ReplacedRow(cells, before, held, charged, {}, c)
    ensures Covers(before, held) && cells == WithReplaced(before, held, charged)
  {
    forall c | c in held ensures held[c] <= CellIn(before, c).reserved {
      assert ReplacedRow(cells, before, held, charged, {}, c);
    }
    forall c ensures c in cells <==> c in WithReplaced(before, held, charged)
    ensures c in cells ==> cells[c] == WithReplaced(before, held, charged)[c]
    {
      assert ReplacedRow(cells, before, held, charged, {}, c);
    }
  }

  /** Checks and merges one limit after the other; stops at the first one below the load. */
  method MergeLimits(before: Amounts, cells: map<string, Cell>, changes: Amounts) returns (merged: Amounts, ok: bool)
    ensures ok <==> forall c :: c in changes ==> CellIn(cells, c).used + CellIn(cells, c).reserved <= changes[c]
    ensures ok ==> merged == before + changes
  {
    merged := before;
    var todo := changes.Keys;
    while todo != {}
      invariant todo <= changes.Keys
      invariant merged.Keys == before.Keys + (changes.Keys - todo)
      invariant forall c :: c in merged ==> merged[c] == if c in changes && c !in todo then changes[c] else before[c]
      invariant forall c :: c in changes && c !in todo ==>
        CellIn(cells, c).used + CellIn(cells, c).reserved <= changes[c]
      decreases todo
    {
      var c :| c in todo;
      var cell := CellIn(cells, c);
      if cell.used + cell.reserved > changes[c] {
        return merged, false;
      }
      merged := merged[c := changes[c]];
      todo := todo - {c};
    }
    ok := true;
  }

  class SqliteBudgetRepository {
    var limits: map<string, Amounts>
    var cells: map<string, map<string, Cell>>
    var rows: map<string, FlatRow>
    ghost var book: Book
    ghost var ids: seq<string>

    ghost function Tables(): FlatDb
      reads this
    {
      FlatDb(limits, cells, rows)
    }

    ghost function State(): Store
      reads this
    {
      Store(Tables(), book, ids)
    }

    constructor ()
      ensures State() == NEW_STORE && StoreInv(State())
    {
      limits, cells, rows, book, ids := map[], map[], map[], [], [];
      new;
      FlatEmptyInv();
    }

    /** Opens a scope; the limits of one that already exists are left as they are. */
    method Ledger(scope: string, raw: map<string, int>) returns (v: Verdict)
      requires StoreInv(State())
      modifies this`limits
      ensures (State(), Decided(v)) == StoreStep(old(State()), Opening(scope, raw)) && StoreInv(State())
    {
      hide StoreInv;
      StoreStepKeepsInv(State(), Opening(scope, raw));
      var normalized := ValidateAmounts(raw, false);
      if scope == "" || normalized.None? {
        return InvalidInput;
      }
      if scope !in limits {
        limits := limits[scope := normalized.value];
      }
      v := Accepted;
    }

    /** Merges the new limits; a single one below the current load undoes them all. */
    method Configure(scope: string, raw: map<string, int>) returns (v: FlatVerdict)
      requires StoreInv(State())
      modifies this`limits
      ensures (State(), v) == StoreStep(old(State()), Configuring(scope, raw)) && StoreInv(State())
    {
      hide StoreInv;
      StoreStepKeepsInv(State(), Configuring(scope, raw));
      var normalized := ValidateAmounts(raw, false);
      if normalized.None? || |normalized.value| == 0 {
        return Decided(InvalidInput);
      }
      hide Normalized;
      if scope !in limits {
        return Decided(UnknownScope);
      }
      var merged, ok := MergeLimits(limits[scope], if scope in cells then cells[scope] else map[], normalized.value);
      if !ok {
        return Decided(Exceeded);
      }
      limits := limits[scope := merged];
      v := Decided(Accepted);
    }

    /** The capacity is checked before the identifier, so a duplicate may be refused as exceeded. */
    method Reserve(scope: string, raw: map<string, int>, id: string) returns (v: FlatVerdict)
      requires StoreInv(State())
      modifies this`rows, this`cells, this`book, this`ids
      ensures (State(), v) == StoreStep(old(State()), Reserving(scope, raw, id)) && StoreInv(State())
    {
      hide StoreInv;
      StoreStepKeepsInv(State(), Reserving(scope, raw, id));
      var normalized := ValidateAmounts(raw, true);
      if normalized.None? {
        return Decided(InvalidInput);
      }
      hide Normalized;
      if scope !in limits {
        return Decided(UnknownScope);
      }
      var db := FlatDb(limits, cells, rows);
      var ok := CheckCapacity(db, scope, normalized.value, map[]);
      hide FlatFits;
      if !ok {
        return Decided(Exceeded);
      }
      if id in rows {
        return DuplicateId;
      }
      var staged := StageReserved(FlatCells(db, scope), normalized.value);
      rows := rows[id := FlatRow(scope, normalized.value, Active)];
      cells := cells[scope := staged];
      book, ids := book + [Entry(Root(scope), normalized.value, Held)], ids + [id];
      v := Decided(Accepted);
    }

    /** Reconciles (`actual` given) or cancels; looks the reservation up by identifier and scope. */
    method Finish(scope: string, id: string, actual: Option<Amounts>) returns (v: FlatVerdict)
      requires StoreInv(State())
      modifies this`rows, this`cells, this`book
      ensures (State(), v) == StoreStep(old(State()), Finishing(scope, id, actual)) && StoreInv(State())
    {
      hide StoreInv, FlatFits, Covers;
      FinishingKeepsInv(State(), scope, id, actual);
      RowsAreListed(State());
      if id !in rows || rows[id].scope != scope || rows[id].status != Active {
        return Decided(Inactive);
      }
      var db := FlatDb(limits, cells, rows);
      var held, charged := rows[id].amounts, FinalAmounts(actual);
      var ok := CheckCapacity(db, scope, charged, held);
      if !ok {
        return Decided(Exceeded);
      }
      var staged;
      staged, ok := StageReplaced(FlatCells(db, scope), held, charged);
      if !ok {
        return Decided(Corrupt);
      }
      cells := cells[scope := staged];
      rows := rows[id := rows[id].(status := if actual.Some? then Reconciled else Cancelled)];
      if IndexOf(ids, id) < |book| {
        book := book[IndexOf(ids, id) := Settled(book[IndexOf(ids, id)], actual)];
      }
      v := Decided(Accepted);
    }

    /** The limits of a scope, the sums of its charges and of its holds, and what they leave. */
    method ReadSnapshot(scope: string) returns (view: Option<HierarchicalBudget.Snapshot>)
      requires StoreInv(State())
      ensures view.Some? <==> scope in limits
      ensures view.Some? ==>
        && view.value.limits == limits[scope]
        && (forall c :: At(view.value.used, c) == Used(book, Root(scope), c))
        && (forall c :: At(view.value.reserved, c) == Reserved(book, Root(scope), c))
        && view.value.remaining.Keys == limits[scope].Keys
        && (forall c :: c in limits[scope] ==>
              view.value.remaining[c] ==
              limits[scope][c] - Used(book, Root(scope), c) - Reserved(book, Root(scope), c))
    {
      view := None;
      if scope in limits {
        view := Some(HierarchicalBudget.ViewOf(limits[scope], if scope in cells then cells[scope] else map[]));
        forall c
          ensures At(view.value.used, c) == Used(book, Root(scope), c)
          ensures At(view.value.reserved, c) == Reserved(book, Root(scope), c)
          ensures c in limits[scope] ==>
            view.value.remaining[c] == limits[scope][c] - Used(book, Root(scope), c) - Reserved(book, Root(scope), c)
        {
          HierarchicalBudget.ViewReads(limits[scope], FlatCells(Tables(), scope), c);
          assert FlatCellOk(Tables(), book, scope, c);
          assert CapAt(FlatLimits(Tables()), book, Root(scope), c);
        }
      }
    }
  }
}
