/** The calls on the durable stores as their callers make them, with the amounts as they were passed:
    what an accepted call makes of the limits and the counters, in the very figures of the caller. */
module BudgetCalls {
  import opened Scopes
  import opened BudgetBook
  import opened BudgetTree
  import opened BudgetStore
  import opened BudgetRuns
  import opened BudgetEffects
  import opened BudgetCharges

  type Raw = map<string, int>

  /** Names are there, and nothing is negative. */
  predicate Proper(raw: Raw) {
    forall c :: c in raw ==> |c| > 0 && raw[c] >= 0
  }

  function Asked(raw: Raw, c: string): int {
    if c in raw then raw[c] else 0
  }

  function Set(raw: Raw, c: string): Option<int> {
    if c in raw then Some(raw[c]) else None
  }

  lemma {:induction false} LimitsAsGiven(raw: Raw)
    requires NormalLimits(raw).Some?
    ensures Proper(raw) && raw != map[] && |raw| <= 100
    ensures forall c :: (if c in NormalLimits(raw).value then Some(NormalLimits(raw).value[c]) else None) == Set(raw, c)
  {
    NormalizedExactly(raw, false);
    assert NormalLimits(raw).value == raw;
  }

  lemma {:induction false} AmountsAsGiven(raw: Raw)
    requires NormalAmounts(raw).Some?
    ensures Proper(raw) && forall c :: At(NormalAmounts(raw).value, c) == Asked(raw, c)
  {
    NormalizedExactly(raw, true);
    NormalizedIsStable(raw, true);
  }

  // ----- the tree -----

  /** Limits are refused as such exactly when they are none at all, too many, or not proper. */
  lemma {:induction false} LimitsRefused(raw: Raw)
    ensures NormalLimits(raw).None? <==> !Proper(raw) || raw == map[] || |raw| > 100
  {
    NormalizedExactly(raw, false);
    if Normalized(raw, false).Some? {
      assert Normalized(raw, false).value == raw;
    }
  }

  /** Amounts are refused as such exactly when they are not proper, or too many of them are not zero. */
  lemma {:induction false} AmountsRefused(raw: Raw)
    ensures NormalAmounts(raw).None? <==> !Proper(raw) || |set c | c in raw && raw[c] != 0| > 100
  {
    NormalizedExactly(raw, true);
    if Normalized(raw, true).Some? {
      var kept := Normalized(raw, true).value;
      assert kept.Keys == set c | c in raw && raw[c] != 0;
      assert |kept| == |kept.Keys|;
    }
  }

  /** An accepted configuration sets exactly the limits passed, on top of exactly those expected. */
  lemma {:induction false} ConfigureCall(w: World, h: Handle, changes: Raw, expected: Raw)
    ensures var (w', v) := TreeStep(w, Configure(h, changes, expected));
      && (v == Accepted ==>
            && w'.db.scopes == w.db.scopes && w'.db.cells == w.db.cells && w'.db.rows == w.db.rows
            && w'.book == w.book
            && (forall c :: LimitAt(w.db, h.id, c) == Set(expected, c))
            && (forall c :: LimitAt(w'.db, h.id, c) == if c in changes then Some(changes[c]) else Set(expected, c))
            && (forall s, c :: s != h.id ==> LimitAt(w'.db, s, c) == LimitAt(w.db, s, c)))
      && (v != Accepted ==> w' == w)
      && (NormalLimits(changes).None? || NormalLimits(expected).None? ==> v == InvalidInput)
  {
    hide ConfigureTx, NormalLimits, LimitAt, LimitOf, LimitCount;
    if NormalLimits(changes).Some? && NormalLimits(expected).Some? {
      var wanted, assumed := NormalLimits(changes).value, NormalLimits(expected).value;
      LimitsAsGiven(changes);
      ConfigureRefused(w.db, h, wanted, assumed);
      if ConfigureTx(w.db, h, wanted, assumed).1 == Accepted {
        ConfigureWrites(w.db, h, wanted, assumed);
        ExpectedAsGiven(w.db, h.id, expected);
      }
    }
  }

  lemma ExpectedAsGiven(db: Db, s: ScopeId, raw: Raw)
    requires NormalLimits(raw).Some? && LimitOf(db.limits, s) == NormalLimits(raw).value
    ensures forall c :: LimitAt(db, s, c) == Set(raw, c)
  {
    LimitsAsGiven(raw);
    hide NormalLimits;
  }

  /** A name of one to 4096 characters, and at least one limit. */
  predicate CanOpen(name: string, limits: Raw) {
    1 <= |name| <= 4096 && Proper(limits) && limits != map[] && |limits| <= 100
  }

  lemma NeverInvalid(db: Db, h: Handle, name: string, limits: Amounts)
    ensures OpenRootTx(db, name, limits).1 != InvalidInput && CreateChildTx(db, h, name, limits).1 != InvalidInput
  {
    hide OverAllocates;
  }

  /** A call is refused as such exactly for its name or its limits; an accepted opening or creation
      leaves the scope there with exactly the limits passed. */
  lemma {:induction false} OpeningCalls(w: World, h: Handle, name: string, limits: Raw)
    requires TreeOk(w.db)
    ensures var (w', v) := TreeStep(w, OpenRoot(name, limits));
      && (v == Accepted ==> Opened(w.db, w'.db, Root(name), limits) && w'.book == w.book)
      && (v != Accepted ==> w' == w) && (v == InvalidInput <==> !CanOpen(name, limits))
    ensures var (w', v) := TreeStep(w, CreateChild(h, name, limits));
      && (v == Accepted ==> Opened(w.db, w'.db, Child(h.id, name), limits) && w'.book == w.book)
      && (v != Accepted ==> w' == w) && (v == InvalidInput <==> !CanOpen(name, limits))
  {
    hide OpenRootTx, CreateChildTx, Opened, TreeOk;
    LimitsRefused(limits);
    if NormalLimits(limits).Some? {
      NeverInvalid(w.db, h, name, NormalLimits(limits).value);
      LimitsAsGiven(limits);
      assert NormalLimits(limits).value == limits;
      OpenRootOpens(w.db, name, limits);
      CreateChildOpens(w.db, h, name, limits);
    }
  }

  /** What counts of the amounts at `s`, if they are asked for at `scope`. */
  function Counted(scope: ScopeId, s: ScopeId, raw: Raw, c: string): int {
    if Under(scope, s) then Asked(raw, c) else 0
  }

  /** An accepted reservation adds exactly the amounts passed to what the scope and each ancestor hold
      reserved, and nothing elsewhere. */
  lemma {:induction false} ReserveCall(w: World, h: Handle, raw: Raw)
    ensures var (w', v) := TreeStep(w, ReserveAt(h, raw));
      && (v == Accepted ==>
            && Proper(raw) && w'.db.scopes == w.db.scopes && w'.db.limits == w.db.limits
            && |w'.db.rows| == |w.db.rows| + 1 && w'.db.rows[..|w.db.rows|] == w.db.rows
            && (forall s, c :: Reading(w'.db, s, c).0 == Reading(w.db, s, c).0)
            && (forall s, c :: Reading(w'.db, s, c).1 == Reading(w.db, s, c).1 + Counted(h.id, s, raw, c)))
      && (v != Accepted ==> w' == w)
  {
    hide ReserveTx, NormalAmounts, Reading;
    if NormalAmounts(raw).Some? {
      AmountsAsGiven(raw);
      ReserveCharges(w.db, h.root, h.id, NormalAmounts(raw).value);
    }
  }

  /** An accepted ending takes exactly what the reservation held from the scope and each ancestor, and
      adds exactly the actual amounts passed, if any, to what they used. */
  lemma {:induction false} FinishCall(w: World, h: Handle, i: nat, actual: Option<Raw>)
    ensures var (w', v) := TreeStep(w, FinishAt(h, i, actual));
      && (v == Accepted ==>
            && (actual.Some? ==> Proper(actual.value))
            && w'.db.scopes == w.db.scopes && w'.db.limits == w.db.limits
            && Ended(w.db.rows, w'.db.rows, i, if actual.Some? then Reconciled else Cancelled)
            && w.db.rows[i].root == h.root && w.db.rows[i].scope == h.id
            && (forall s, c ::
                  Reading(w'.db, s, c).1 + Share(h.id, s, w.db.rows[i].amounts, c) == Reading(w.db, s, c).1)
            && (forall s, c :: Reading(w'.db, s, c).0 ==
                  Reading(w.db, s, c).0 + (if actual.Some? then Counted(h.id, s, actual.value, c) else 0)))
      && (v != Accepted ==> w' == w)
  {
    hide FinishTx, NormalAmounts, Reading, Ended;
    if NormalActual(actual).Some? {
      if actual.Some? {
        AmountsAsGiven(actual.value);
      }
      FinishCharges(w.db, h.root, h.id, i, NormalActual(actual).value);
    }
  }

  // ----- the flat store -----

  /** An accepted configuration of the flat store sets exactly the limits passed; opening a new scope
      gives it exactly those, and an existing one keeps its own. */
  lemma {:induction false} FlatLimitCalls(w: Store, n: string, raw: Raw)
    ensures var (w', v) := StoreStep(w, Configuring(n, raw));
      && (v == Decided(Accepted) ==>
            && Proper(raw) && raw != map[] && n in w.db.limits && w'.db.cells == w.db.cells && w'.db.rows == w.db.rows
            && forall m, c :: FlatLimitAt(w'.db, m, c) ==
                              if m == n && c in raw then Some(raw[c]) else FlatLimitAt(w.db, m, c))
      && (v != Decided(Accepted) ==> w' == w)
    ensures var (w', v) := StoreStep(w, Opening(n, raw));
      && (v == Decided(Accepted) <==> n != "" && Proper(raw))
      && (v == Decided(Accepted) ==>
            && w'.db.limits.Keys == w.db.limits.Keys + {n}
            && w'.db.cells == w.db.cells && w'.db.rows == w.db.rows
            && (forall m, c :: m in w.db.limits ==> FlatLimitAt(w'.db, m, c) == FlatLimitAt(w.db, m, c))
            && (n !in w.db.limits ==> forall c :: FlatLimitAt(w'.db, n, c) == Set(raw, c)))
      && (v != Decided(Accepted) ==> w' == w)
  {
    hide FlatConfigure, FlatLedger, Normalized;
    NormalizedExactly(raw, false);
    if Normalized(raw, false).Some? {
      assert Normalized(raw, false).value == raw;
      FlatConfigureWrites(w.db, n, raw);
      FlatLedgerOpens(w.db, n, raw);
    }
  }

  /** An accepted reservation adds exactly the amounts passed to what that scope holds reserved. */
  lemma {:induction false} FlatReserveCall(w: Store, n: string, raw: Raw, id: string)
    ensures var (w', v) := StoreStep(w, Reserving(n, raw, id));
      && (v == Decided(Accepted) ==>
            && Proper(raw) && w'.db.limits == w.db.limits
            && id !in w.db.rows && w'.db.rows.Keys == w.db.rows.Keys + {id}
            && (forall m, c :: FlatReading(w'.db, m, c).0 == FlatReading(w.db, m, c).0)
            && (forall m, c :: FlatReading(w'.db, m, c).1 ==
                  FlatReading(w.db, m, c).1 + (if m == n then Asked(raw, c) else 0)))
      && (v != Decided(Accepted) ==> w' == w)
  {
    hide FlatReserve, Normalized, FlatReading;
    NormalizedExactly(raw, true);
    if Normalized(raw, true).Some? {
      NormalizedIsStable(raw, true);
      FlatReserveCharges(w.db, n, Normalized(raw, true).value, id);
    }
  }
}
