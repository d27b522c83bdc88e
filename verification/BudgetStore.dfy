/** The flat durable store: independent one-node scopes, one row per counter, reservation
    identifiers chosen by the caller or made fresh. */
module BudgetStore {
  import opened Scopes
  import opened BudgetBook
  import opened BudgetTree

  datatype FlatRow = FlatRow(scope: string, amounts: Amounts, status: Status)

  datatype FlatDb = FlatDb(
    limits: map<string, Amounts>,
    cells: map<string, map<string, Cell>>,
    rows: map<string, FlatRow>)

  datatype FlatVerdict = Decided(verdict: Verdict) | DuplicateId

  function FlatCells(db: FlatDb, scope: string): map<string, Cell> {
    if scope in db.cells then db.cells[scope] else map[]
  }

  function LimitsAt(db: FlatDb, scope: string): Amounts {
    if scope in db.limits then db.limits[scope] else map[]
  }

  predicate FlatFits(db: FlatDb, scope: string, amounts: Amounts, replaced: Amounts) {
    forall c :: c in amounts && c in LimitsAt(db, scope) ==>
      CellIn(FlatCells(db, scope), c).used + CellIn(FlatCells(db, scope), c).reserved - At(replaced, c) + amounts[c]
      <= LimitsAt(db, scope)[c]
  }

  function FlatReserve(db: FlatDb, scope: string, amounts: Amounts, id: string): (r: (FlatDb, FlatVerdict)) {
    if scope !in db.limits then (db, Decided(UnknownScope))
    else if !FlatFits(db, scope, amounts, map[]) then (db, Decided(Exceeded))
    else if id in db.rows then (db, DuplicateId)
    else
      (db.(rows := db.rows[id := FlatRow(scope, amounts, Active)],
           cells := db.cells[scope := WithReserved(FlatCells(db, scope), amounts)]), Decided(Accepted))
  }

  function FlatFinish(db: FlatDb, scope: string, id: string, actual: Option<Amounts>): (r: (FlatDb, FlatVerdict)) {
    if id !in db.rows || db.rows[id].scope != scope || db.rows[id].status != Active then (db, Decided(Inactive))
    else
      var held, charged := db.rows[id].amounts, FinalAmounts(actual);
      if !FlatFits(db, scope, charged, held) then (db, Decided(Exceeded))
      else if !Covers(FlatCells(db, scope), held) then (db, Decided(Corrupt))
      else
        (db.(rows := db.rows[id := db.rows[id].(status := if actual.Some? then Reconciled else Cancelled)],
             cells := db.cells[scope := WithReplaced(FlatCells(db, scope), held, charged)]), Decided(Accepted))
  }

  /** A new scope takes the given limits; an existing one keeps its own. */
  function FlatLedger(db: FlatDb, scope: string, limits: Amounts): FlatDb {
    if scope in db.limits then db else db.(limits := db.limits[scope := limits])
  }

  predicate FlatTooLow(db: FlatDb, scope: string, changes: Amounts) {
    exists c :: c in changes &&
      CellIn(FlatCells(db, scope), c).used + CellIn(FlatCells(db, scope), c).reserved > changes[c]
  }

  function FlatConfigure(db: FlatDb, scope: string, changes: Amounts): (r: (FlatDb, FlatVerdict)) {
    if scope !in db.limits then (db, Decided(UnknownScope))
    else if FlatTooLow(db, scope, changes) then (db, Decided(Exceeded))
    else (db.(limits := db.limits[scope := db.limits[scope] + changes]), Decided(Accepted))
  }

  // ----- the flat store refines a forest of one-node ledgers -----

  /** The limits of the flat scopes, read as roots without children. */
  function FlatLimits(db: FlatDb): Limits {
    map s: ScopeId | s in (set n | n in db.limits :: Root(n)) :: db.limits[s.name]
  }

  predicate FlatRowMatches(row: FlatRow, e: Entry) {
    && e.scope == Root(row.scope) && row.amounts == e.amounts
    && row.status == (match e.state case Held => Active case Charged(_) => Reconciled case Released => Cancelled)
  }

  /** `ids` lists the reservation identifiers in the order the book lists the entries. */
  ghost predicate IdsOk(db: FlatDb, book: Book, ids: seq<string>) {
    && |ids| == |book|
    && (forall i, j :: 0 <= i < j < |ids| ==> ids[i] != ids[j])
    && (forall id :: id in db.rows <==> id in ids)
    && (forall i :: 0 <= i < |ids| ==> FlatRowMatches(db.rows[ids[i]], book[i]) && book[i].scope.name in db.limits)
  }

  ghost predicate FlatCellOk(db: FlatDb, book: Book, n: string, c: string) {
    CellIn(FlatCells(db, n), c) == Cell(Used(book, Root(n), c), Reserved(book, Root(n), c))
  }

  ghost predicate FlatCellsOk(db: FlatDb, book: Book) {
    forall n, c :: FlatCellOk(db, book, n, c)
  }

  ghost predicate FlatInv(db: FlatDb, book: Book, ids: seq<string>) {
    && IdsOk(db, book, ids)
    && FlatCellsOk(db, book)
    && CapsHold(FlatLimits(db), book)
  }

  const FLAT_EMPTY: FlatDb := FlatDb(map[], map[], map[])

  lemma FlatEmptyInv()
    ensures FlatInv(FLAT_EMPTY, [], [])
  {
  }

  lemma {:induction false} FlatFitsAgree(db: FlatDb, book: Book, n: string, amounts: Amounts, replaced: Amounts)
    requires FlatCellsOk(db, book)
    requires n in db.limits
    ensures FlatFits(db, n, amounts, replaced) <==> Fits(book, FlatLimits(db), Root(n), amounts, replaced)
  {
    assert LimitOf(FlatLimits(db), Root(n)) == db.limits[n];
    assert forall c :: c in amounts ==> FlatCellOk(db, book, n, c);
    assert FlatFits(db, n, amounts, replaced) <==> FitsAt(book, db.limits[n], Root(n), amounts, replaced);
    assert Chain(Root(n)) == [Root(n)];
  }

  lemma {:induction false} FlatReserveCells(db: FlatDb, db': FlatDb, book: Book, n: string, amounts: Amounts)
    requires FlatCellsOk(db, book)
    requires db'.cells == db.cells[n := WithReserved(FlatCells(db, n), amounts)]
    ensures FlatCellsOk(db', book + [Entry(Root(n), amounts, Held)])
  {
    var e := Entry(Root(n), amounts, Held);
    forall m, c ensures FlatCellOk(db', book + [e], m, c) {
      assert FlatCellOk(db, book, m, c);
      SumsAppend(book, e, Root(m), c);
    }
  }

  lemma {:induction false} FlatIdsGrow(db: FlatDb, book: Book, ids: seq<string>, n: string, amounts: Amounts,
                                       id: string)
    requires IdsOk(db, book, ids) && id !in db.rows && n in db.limits
    requires FlatReserve(db, n, amounts, id).1 == Decided(Accepted)
    ensures IdsOk(FlatReserve(db, n, amounts, id).0, book + [Entry(Root(n), amounts, Held)], ids + [id])
  {
    hide FlatFits;
  }

  lemma {:induction false} FlatReserveRefines(db: FlatDb, book: Book, ids: seq<string>, n: string, amounts: Amounts,
                                              id: string)
    requires FlatInv(db, book, ids)
    ensures var (db', v) := FlatReserve(db, n, amounts, id);
            var (book', bv) := Step(FlatLimits(db), book, Reserve(Root(n), amounts));
            if n !in db.limits then v == Decided(UnknownScope) && db' == db
            else if bv == Accepted && id in ids then v == DuplicateId && db' == db
            else v == Decided(bv) && FlatInv(db', book', if bv == Accepted then ids + [id] else ids)
  {
    if n in db.limits {
      FlatFitsAgree(db, book, n, amounts, map[]);
      var (db', v) := FlatReserve(db, n, amounts, id);
      if v == Decided(Accepted) {
        StepKeepsCaps(FlatLimits(db), book, Reserve(Root(n), amounts));
        assert FlatLimits(db') == FlatLimits(db);
        FlatReserveCells(db, db', book, n, amounts);
        FlatIdsGrow(db, book, ids, n, amounts, id);
        hide FlatFits, Fits, CapsHold, FlatCellsOk, IdsOk, FlatLimits;
      }
    }
  }

  lemma {:induction false} FlatFinishCells(db: FlatDb, db': FlatDb, book: Book, i: nat, actual: Option<Amounts>)
    requires FlatCellsOk(db, book)
    requires i < |book| && book[i].state.Held? && book[i].scope.Root?
    requires Covers(FlatCells(db, book[i].scope.name), book[i].amounts)
    requires db'.cells == db.cells[book[i].scope.name :=
                            WithReplaced(FlatCells(db, book[i].scope.name), book[i].amounts, FinalAmounts(actual))]
    ensures FlatCellsOk(db', book[i := Settled(book[i], actual)])
  {
    var book' := book[i := Settled(book[i], actual)];
    forall n, c ensures FlatCellOk(db', book', n, c) {
      assert FlatCellOk(db, book, n, c);
      SumsSettle(book, i, actual, Root(n), c);
    }
  }

  lemma {:induction false} FlatHoldCovered(db: FlatDb, book: Book, i: nat)
    requires FlatCellsOk(db, book)
    requires i < |book| && book[i].state.Held? && book[i].scope.Root?
    ensures Covers(FlatCells(db, book[i].scope.name), book[i].amounts)
  {
    var n := book[i].scope.name;
    forall c | c in book[i].amounts ensures book[i].amounts[c] <= CellIn(FlatCells(db, n), c).reserved {
      SumsCover(book, i, Root(n), c);
      assert FlatCellOk(db, book, n, c);
    }
  }

  /** The reservation with identifier `ids[i]` is entry `i` of the book. */
  lemma {:induction false} FlatFinishRefines(db: FlatDb, book: Book, ids: seq<string>, i: nat, actual: Option<Amounts>)
    requires FlatInv(db, book, ids) && i < |ids|
    ensures var (db', v) := FlatFinish(db, db.rows[ids[i]].scope, ids[i], actual);
            var (book', bv) := Step(FlatLimits(db), book, Finish(i, actual));
            v == Decided(bv) && FlatInv(db', book', ids)
  {
    assert FlatRowMatches(db.rows[ids[i]], book[i]);
    var n := db.rows[ids[i]].scope;
    if book[i].state.Held? {
      FlatFitsAgree(db, book, n, FinalAmounts(actual), book[i].amounts);
      FlatHoldCovered(db, book, i);
      var (db', v) := FlatFinish(db, n, ids[i], actual);
      if v == Decided(Accepted) {
        FlatFinishCells(db, db', book, i, actual);
        StepKeepsCaps(FlatLimits(db), book, Finish(i, actual));
        assert FlatLimits(db') == FlatLimits(db);
      }
    }
  }

  lemma {:induction false} FlatFinishUnknown(db: FlatDb, book: Book, ids: seq<string>, n: string, id: string,
                                             actual: Option<Amounts>)
    requires FlatInv(db, book, ids) && (id !in ids || db.rows[id].scope != n)
    ensures FlatFinish(db, n, id, actual) == (db, Decided(Inactive))
  {
  }

  lemma {:induction false} FlatLedgerKeepsInv(db: FlatDb, book: Book, ids: seq<string>, n: string, limits: Amounts)
    requires FlatInv(db, book, ids)
    ensures FlatInv(FlatLedger(db, n, limits), book, ids)
  {
    if n !in db.limits {
      var db' := FlatLedger(db, n, limits);
      forall s, c ensures CapAt(FlatLimits(db'), book, s, c) {
        assert CapAt(FlatLimits(db), book, s, c);
        if s == Root(n) {
          FlatNothingHeld(db, book, ids, |book|, n, c);
          assert book[..|book|] == book;
        }
      }
      forall m, c ensures FlatCellOk(db', book, m, c) {
        assert FlatCellOk(db, book, m, c);
      }
    }
  }

  lemma {:induction false} FlatNothingHeld(db: FlatDb, book: Book, ids: seq<string>, k: nat, n: string, c: string)
    requires IdsOk(db, book, ids) && n !in db.limits && k <= |book|
    ensures Used(book[..k], Root(n), c) == 0 && Reserved(book[..k], Root(n), c) == 0
  {
    if k > 0 {
      assert book[..k][..k - 1] == book[..k - 1];
      assert FlatRowMatches(db.rows[ids[k - 1]], book[k - 1]);
      FlatNothingHeld(db, book, ids, k - 1, n, c);
    }
  }

  lemma {:induction false} FlatConfigureKeepsInv(db: FlatDb, book: Book, ids: seq<string>, n: string, changes: Amounts)
    requires FlatInv(db, book, ids)
    ensures FlatInv(FlatConfigure(db, n, changes).0, book, ids)
  {
    var (db', v) := FlatConfigure(db, n, changes);
    if v == Decided(Accepted) {
      forall s, c ensures CapAt(FlatLimits(db'), book, s, c) {
        assert CapAt(FlatLimits(db), book, s, c);
        if s == Root(n) && c in changes {
          assert FlatCellOk(db, book, n, c);
        }
      }
      forall m, c ensures FlatCellOk(db', book, m, c) {
        assert FlatCellOk(db, book, m, c);
      }
    }
  }

  // ----- runs of the store -----

  /** One call on the store, with the raw amounts the caller passed; the ending of a reservation
      comes from its handle, which has validated what it charges. */
  datatype StoreOp =
    | Opening(scope: string, limits: map<string, int>)
    | Configuring(scope: string, changes: map<string, int>)
    | Reserving(scope: string, amounts: map<string, int>, id: string)
    | Finishing(scope: string, id: string, actual: Option<Amounts>)

  /** The tables together with everything that was ever reserved and charged, by identifier. */
  datatype Store = Store(db: FlatDb, book: Book, ids: seq<string>)

  const NEW_STORE: Store := Store(FLAT_EMPTY, [], [])

  ghost function IndexOf(ids: seq<string>, id: string): (i: nat)
    requires id in ids
    ensures i < |ids| && ids[i] == id
  {
    var i :| 0 <= i < |ids| && ids[i] == id;
    i
  }

  ghost function StoreStep(w: Store, op: StoreOp): (r: (Store, FlatVerdict)) {
    match op
    case Opening(n, raw) =>
      if n == "" || Normalized(raw, false).None? then (w, Decided(InvalidInput))
      else (w.(db := FlatLedger(w.db, n, Normalized(raw, false).value)), Decided(Accepted))
    case Configuring(n, raw) =>
      if Normalized(raw, false).None? || |Normalized(raw, false).value| == 0 then (w, Decided(InvalidInput))
      else
        var (db, v) := FlatConfigure(w.db, n, Normalized(raw, false).value);
        (w.(db := db), v)
    case Reserving(n, raw, id) =>
      if Normalized(raw, true).None? then (w, Decided(InvalidInput))
      else
        var (db, v) := FlatReserve(w.db, n, Normalized(raw, true).value, id);
        if v != Decided(Accepted) then (w.(db := db), v)
        else (Store(db, w.book + [Entry(Root(n), Normalized(raw, true).value, Held)], w.ids + [id]), v)
    case Finishing(n, id, actual) =>
      var (db, v) := FlatFinish(w.db, n, id, actual);
      if v != Decided(Accepted) || id !in w.ids || IndexOf(w.ids, id) >= |w.book| then (w.(db := db), v)
      else
        var i := IndexOf(w.ids, id);
        (Store(db, w.book[i := Settled(w.book[i], actual)], w.ids), v)
  }

  ghost predicate StoreInv(w: Store) {
    FlatInv(w.db, w.book, w.ids)
  }

  lemma RowsAreListed(w: Store)
    requires StoreInv(w)
    ensures forall id :: id in w.db.rows <==> id in w.ids
  {
  }

  lemma {:induction false} FinishingKeepsInv(w: Store, n: string, id: string, actual: Option<Amounts>)
    requires StoreInv(w)
    ensures StoreInv(StoreStep(w, Finishing(n, id, actual)).0)
    ensures StoreStep(w, Finishing(n, id, actual)).1 != Decided(Corrupt)
  {
    hide FlatFits, Fits;
    hide FlatCellsOk, CapsHold;
    if id in w.ids && w.db.rows[id].scope == n {
      FlatFinishRefines(w.db, w.book, w.ids, IndexOf(w.ids, id), actual);
    } else {
      FlatFinishUnknown(w.db, w.book, w.ids, n, id, actual);
    }
    hide FlatInv, FlatFinish, Fits;
  }

  /** Every call keeps the counters equal to the sums and under the caps, and none meets a hold
      that is not there. */
  lemma {:induction false} StoreStepKeepsInv(w: Store, op: StoreOp)
    requires StoreInv(w)
    ensures StoreInv(StoreStep(w, op).0) && StoreStep(w, op).1 != Decided(Corrupt)
  {
    hide FlatInv, FlatFits, Fits, FlatTooLow;
    match op
    case Opening(n, raw) =>
      if Normalized(raw, false).Some? {
        hide FlatInv;
        FlatLedgerKeepsInv(w.db, w.book, w.ids, n, Normalized(raw, false).value);
      }
    case Configuring(n, raw) =>
      if Normalized(raw, false).Some? {
        hide FlatInv;
        FlatConfigureKeepsInv(w.db, w.book, w.ids, n, Normalized(raw, false).value);
      }
    case Reserving(n, raw, id) =>
      if Normalized(raw, true).Some? {
        hide FlatInv, FlatFits, Fits;
        FlatReserveRefines(w.db, w.book, w.ids, n, Normalized(raw, true).value, id);
      }
    case Finishing(n, id, actual) => FinishingKeepsInv(w, n, id, actual);
  }

  ghost function StoreRun(w: Store, ops: seq<StoreOp>): Store
    decreases |ops|
  {
    if |ops| == 0 then w else StoreRun(StoreStep(w, ops[0]).0, ops[1..])
  }

  lemma {:induction false} StoreRunKeepsInv(w: Store, ops: seq<StoreOp>)
    requires StoreInv(w)
    ensures StoreInv(StoreRun(w, ops))
    decreases |ops|
  {
    if |ops| > 0 {
      hide StoreInv, StoreStep;
      StoreStepKeepsInv(w, ops[0]);
      StoreRunKeepsInv(StoreStep(w, ops[0]).0, ops[1..]);
    }
  }

  /** From the empty store, after any calls: every counter is the sum of the holds and of the charges
      of its scope, and both together stay under the limit. */
  lemma {:induction false} StoreConserves(ops: seq<StoreOp>, n: string, c: string)
    ensures var w := StoreRun(NEW_STORE, ops);
            && CellIn(FlatCells(w.db, n), c) == Cell(Used(w.book, Root(n), c), Reserved(w.book, Root(n), c))
            && (n in w.db.limits && c in w.db.limits[n] ==>
                  CellIn(FlatCells(w.db, n), c).used + CellIn(FlatCells(w.db, n), c).reserved <= w.db.limits[n][c])
  {
    FlatEmptyInv();
    StoreRunKeepsInv(NEW_STORE, ops);
    var w := StoreRun(NEW_STORE, ops);
    assert FlatCellOk(w.db, w.book, n, c);
    assert CapAt(FlatLimits(w.db), w.book, Root(n), c);
  }
}
