/** What reserving and settling do to every counter of every scope, in each of the three stores: a
    hold or a charge counts in full at the scope it is made at and at each of its ancestors, and
    nowhere else. */
module BudgetCharges {
  import opened Scopes
  import opened BudgetBook
  import opened BudgetTree
  import opened BudgetStore
  import opened LedgerSpec

  /** What amounts at `scope` count for at `s`. */
  function Share(scope: ScopeId, s: ScopeId, amounts: Amounts, c: string): nat {
    if Under(scope, s) then At(amounts, c) else 0
  }

  function Reading(db: Db, s: ScopeId, c: string): (nat, nat) {
    (CellAt(db, s, c).used, CellAt(db, s, c).reserved)
  }

  // ----- the durable tree -----

  lemma {:induction false} ReserveCharges(db: Db, root: ScopeId, scope: ScopeId, amounts: Amounts)
    ensures var (db', v) := ReserveTx(db, root, scope, amounts);
      && (v == Accepted ==>
            && db'.scopes == db.scopes && db'.limits == db.limits
            && db'.rows == db.rows + [ReservationRow(root, scope, amounts, Active)]
            && forall s, c :: Reading(db', s, c) ==
                              (Reading(db, s, c).0, Reading(db, s, c).1 + Share(scope, s, amounts, c)))
      && (v != Accepted ==> db' == db)
  {
    hide Crowded, CellsFit;
    var (db', v) := ReserveTx(db, root, scope, amounts);
    if v == Accepted {
      forall s, c
        ensures Reading(db', s, c) == (Reading(db, s, c).0, Reading(db, s, c).1 + Share(scope, s, amounts, c))
      {
        ChainIsAncestors(scope, s);
      }
    }
  }

  /** The row of the reservation is marked as ended, and no other. */
  predicate Ended(rows: seq<ReservationRow>, rows': seq<ReservationRow>, i: nat, status: Status) {
    && i < |rows| == |rows'| && rows[i].status == Active
    && rows'[i] == ReservationRow(rows[i].root, rows[i].scope, rows[i].amounts, status)
    && forall j :: 0 <= j < |rows| && j != i ==> rows'[j] == rows[j]
  }

  lemma {:induction false} FinishCharges(db: Db, root: ScopeId, scope: ScopeId, i: nat, actual: Option<Amounts>)
    ensures var (db', v) := FinishTx(db, root, scope, i, actual);
      && (v == Accepted ==>
            && db'.scopes == db.scopes && db'.limits == db.limits
            && Ended(db.rows, db'.rows, i, if actual.Some? then Reconciled else Cancelled)
            && db.rows[i].root == root && db.rows[i].scope == scope
            && forall s, c ::
                 && Reading(db', s, c).1 + Share(scope, s, db.rows[i].amounts, c) == Reading(db, s, c).1
                 && Reading(db', s, c).0 == Reading(db, s, c).0
                      + (if actual.Some? then Share(scope, s, actual.value, c) else 0))
      && (v != Accepted ==> db' == db)
  {
    hide Crowded, CellsFit;
    var (db', v) := FinishTx(db, root, scope, i, actual);
    if v == Accepted {
      var held, final := db.rows[i].amounts, FinalAmounts(actual);
      forall s, c
        ensures Reading(db', s, c).1 + Share(scope, s, held, c) == Reading(db, s, c).1
        ensures Reading(db', s, c).0 == Reading(db, s, c).0 + Share(scope, s, final, c)
      {
        ChainIsAncestors(scope, s);
        assert s in Chain(scope) ==> Covers(CellsOf(db, s), held);
      }
    }
  }

  // ----- the flat store -----

  function FlatReading(db: FlatDb, n: string, c: string): (nat, nat) {
    (CellIn(FlatCells(db, n), c).used, CellIn(FlatCells(db, n), c).reserved)
  }

  lemma {:induction false} FlatReserveCharges(db: FlatDb, n: string, amounts: Amounts, id: string)
    ensures var (db', v) := FlatReserve(db, n, amounts, id);
      && (v == Decided(Accepted) ==>
            && db'.limits == db.limits && id !in db.rows
            && db'.rows == db.rows[id := FlatRow(n, amounts, Active)]
            && forall m, c :: FlatReading(db', m, c) ==
                              (FlatReading(db, m, c).0,
                               FlatReading(db, m, c).1 + Share(Root(n), Root(m), amounts, c)))
      && (v != Decided(Accepted) ==> db' == db)
  {
    hide FlatFits;
  }

  lemma {:induction false} FlatFinishCharges(db: FlatDb, n: string, id: string, actual: Option<Amounts>)
    ensures var (db', v) := FlatFinish(db, n, id, actual);
      && (v == Decided(Accepted) ==>
            && db'.limits == db.limits && id in db.rows && db.rows[id].scope == n && db.rows[id].status == Active
            && db'.rows == db.rows[id :=
                 FlatRow(n, db.rows[id].amounts, if actual.Some? then Reconciled else Cancelled)]
            && forall m, c ::
                 && FlatReading(db', m, c).1 + Share(Root(n), Root(m), db.rows[id].amounts, c)
                      == FlatReading(db, m, c).1
                 && FlatReading(db', m, c).0 == FlatReading(db, m, c).0
                      + (if actual.Some? then Share(Root(n), Root(m), actual.value, c) else 0))
      && (v != Decided(Accepted) ==> db' == db)
  {
    hide FlatFits;
  }

  // ----- the ledgers in memory -----

  function MemReading(mem: Mem, s: ScopeId, c: string): (nat, nat) {
    (At(In(mem.used, s), c), At(In(mem.reserved, s), c))
  }

  lemma {:induction false} MemReserveCharges(limits: Limits, mem: Mem, scope: ScopeId, amounts: Amounts)
    ensures var (mem', v) := MemReserve(limits, mem, scope, amounts);
      && (v == Accepted ==>
            && mem'.handles == mem.handles + [HeldRow(scope, amounts, true)]
            && forall s, c :: MemReading(mem', s, c) ==
                              (MemReading(mem, s, c).0, MemReading(mem, s, c).1 + Share(scope, s, amounts, c)))
      && (v != Accepted ==> mem' == mem)
  {
    hide ChainFits;
    var mem' := MemReserve(limits, mem, scope, amounts).0;
    if MemReserve(limits, mem, scope, amounts).1 == Accepted {
      forall s, c
        ensures MemReading(mem', s, c) ==
                (MemReading(mem, s, c).0, MemReading(mem, s, c).1 + Share(scope, s, amounts, c))
      {
        ChainIsAncestors(scope, s);
      }
    }
  }

  lemma {:induction false} MemFinishCharges(limits: Limits, mem: Mem, i: nat, actual: Option<Amounts>)
    ensures var (mem', v) := MemFinish(limits, mem, i, actual);
      && (v == Accepted ==>
            && i < |mem.handles| && mem.handles[i].active
            && mem'.handles == mem.handles[i := HeldRow(mem.handles[i].scope, mem.handles[i].amounts, false)]
            && forall s, c ::
                 var scope := mem.handles[i].scope;
                 && MemReading(mem', s, c).1 + Share(scope, s, mem.handles[i].amounts, c) == MemReading(mem, s, c).1
                 && MemReading(mem', s, c).0 == MemReading(mem, s, c).0
                      + (if actual.Some? then Share(scope, s, actual.value, c) else 0))
      && (v != Accepted ==> mem' == mem)
  {
    hide ChainFits;
    var (mem', v) := MemFinish(limits, mem, i, actual);
    if v == Accepted {
      var scope, held, final := mem.handles[i].scope, mem.handles[i].amounts, FinalAmounts(actual);
      forall s, c
        ensures MemReading(mem', s, c).1 + Share(scope, s, held, c) == MemReading(mem, s, c).1
        ensures MemReading(mem', s, c).0 == MemReading(mem, s, c).0 + Share(scope, s, final, c)
      {
        ChainIsAncestors(scope, s);
        assert s in Chain(scope) ==> CoveredBy(held, In(mem.reserved, s));
      }
    }
  }
}
