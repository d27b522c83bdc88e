/** What the calls on the budget tree do to its tables, and exactly when they are accepted, told by
    what the tables read before and after. */
module BudgetEffects {
  import opened Scopes
  import opened Sums
  import opened BudgetBook
  import opened BudgetTree
  import opened BudgetStore

  // ----- a call is refused exactly when it would break a cap -----

  /** A reservation is accepted exactly when all caps still hold with it. */
  lemma {:induction false} ReserveExactlyWithinCaps(limits: Limits, b: Book, scope: ScopeId, amounts: Amounts)
    requires CapsHold(limits, b)
    ensures Step(limits, b, Reserve(scope, amounts)).1 == Accepted <==>
            CapsHold(limits, b + [Entry(scope, amounts, Held)])
  {
    var b' := b + [Entry(scope, amounts, Held)];
    if Step(limits, b, Reserve(scope, amounts)).1 == Accepted {
      StepKeepsCaps(limits, b, Reserve(scope, amounts));
    } else {
      var s :| s in Chain(scope) && !FitsAt(b, LimitOf(limits, s), s, amounts, map[]);
      var c :| c in amounts && c in LimitOf(limits, s)
        && Used(b, s, c) + Reserved(b, s, c) + amounts[c] > LimitOf(limits, s)[c];
      SumsAppend(b, Entry(scope, amounts, Held), s, c);
      ChainIsAncestors(scope, s);
      assert !CapAt(limits, b', s, c);
    }
  }

  /** An active reservation is settled exactly when all caps still hold with the charge in its place. */
  lemma {:induction false} FinishExactlyWithinCaps(limits: Limits, b: Book, i: nat, actual: Option<Amounts>)
    requires CapsHold(limits, b) && i < |b| && b[i].state.Held?
    ensures Step(limits, b, Finish(i, actual)).1 == Accepted <==> CapsHold(limits, b[i := Settled(b[i], actual)])
  {
    if Step(limits, b, Finish(i, actual)).1 == Accepted {
      StepKeepsCaps(limits, b, Finish(i, actual));
    } else {
      var final, scope := FinalAmounts(actual), b[i].scope;
      var s :| s in Chain(scope) && !FitsAt(b, LimitOf(limits, s), s, final, b[i].amounts);
      var c :| c in final && c in LimitOf(limits, s)
        && Used(b, s, c) + Reserved(b, s, c) - At(b[i].amounts, c) + final[c] > LimitOf(limits, s)[c];
      SumsSettle(b, i, actual, s, c);
      ChainIsAncestors(scope, s);
      assert !CapAt(limits, b[i := Settled(b[i], actual)], s, c);
    }
  }

  // ----- configuring a scope -----

  /** The limit that scope `s` sets on counter `c`, if any. */
  function LimitAt(db: Db, s: ScopeId, c: string): Option<nat> {
    if c in LimitOf(db.limits, s) then Some(LimitOf(db.limits, s)[c]) else None
  }

  function Overlaid(changes: Amounts, before: Option<nat>, c: string): Option<nat> {
    if c in changes then Some(changes[c]) else before
  }

  /** An accepted configuration gives every changed counter its new limit and leaves everything else:
      the other limits, the other scopes, all counters and all reservations. */
  lemma {:induction false} ConfigureWrites(db: Db, h: Handle, changes: Amounts, expected: Amounts)
    requires ConfigureTx(db, h, changes, expected).1 == Accepted
    ensures var db' := ConfigureTx(db, h, changes, expected).0;
            && LimitOf(db.limits, h.id) == expected
            && (forall c :: LimitAt(db', h.id, c) == Overlaid(changes, LimitAt(db, h.id, c), c))
            && (forall s, c :: s != h.id ==> LimitAt(db', s, c) == LimitAt(db, s, c))
            && db'.scopes == db.scopes && db'.cells == db.cells && db'.rows == db.rows
            && db'.limits.Keys == db.limits.Keys + {h.id}
  {
    hide ConfigureTx, LimitAt;
    AcceptedConfigure(db, h, changes, expected);
    forall s, c
      ensures LimitAt(ConfigureTx(db, h, changes, expected).0, s, c) ==
              if s == h.id then Overlaid(changes, LimitAt(db, s, c), c) else LimitAt(db, s, c)
    {
      LimitOverlaid(db, h.id, changes, s, c);
    }
  }

  lemma AcceptedConfigure(db: Db, h: Handle, changes: Amounts, expected: Amounts)
    requires ConfigureTx(db, h, changes, expected).1 == Accepted
    ensures LimitOf(db.limits, h.id) == expected
    ensures ConfigureTx(db, h, changes, expected).0 == db.(limits := WithLimits(db, h.id, changes).limits)
  {
    hide LimitTooLow, OverAllocates;
  }

  lemma LimitOverlaid(db: Db, id: ScopeId, changes: Amounts, s: ScopeId, c: string)
    ensures LimitAt(db.(limits := WithLimits(db, id, changes).limits), s, c) ==
            if s == id then Overlaid(changes, LimitAt(db, s, c), c) else LimitAt(db, s, c)
    ensures WithLimits(db, id, changes).limits.Keys == db.limits.Keys + {id}
  {
  }

  /** A refused one changes nothing at all, and says what is wrong: no such scope below that root, a
      handle that does not know where the scope is, other limits than expected, or too many of them;
      otherwise they do not fit. */
  lemma {:induction false} ConfigureRefused(db: Db, h: Handle, changes: Amounts, expected: Amounts)
    ensures var (db', v) := ConfigureTx(db, h, changes, expected);
            var known := h.id in db.scopes && db.scopes[h.id].root == h.root;
            var placed := known && db.scopes[h.id].parent == h.parent && db.scopes[h.id].depth == h.depth;
      && (v != Accepted ==> db' == db)
      && (v == UnknownScope <==> !known)
      && (v == Corrupt <==> known && !placed)
      && (v == LimitsChanged <==> placed && LimitOf(db.limits, h.id) != expected)
      && (v == InvalidInput <==>
            placed && LimitOf(db.limits, h.id) == expected && LimitCount(db, h.id, changes) > 100)
      && v in {Accepted, UnknownScope, Corrupt, LimitsChanged, InvalidInput, Exceeded}
  {
    hide LimitTooLow, OverAllocates;
    assert (expected + changes).Keys == expected.Keys + changes.Keys;
    assert |expected + changes| == |(expected + changes).Keys|;
  }

  /** How many counters scope `h` would limit afterwards. */
  function LimitCount(db: Db, s: ScopeId, changes: Amounts): nat {
    |LimitOf(db.limits, s).Keys + changes.Keys|
  }

  /** With a genuine handle and the stored limits in hand, a configuration is accepted exactly when
      there are not too many limits and, with the new ones, no scope carries more than its cap and
      none hands out more than it has. */
  lemma {:induction false} ConfigureExactly(db: Db, book: Book, h: Handle, changes: Amounts)
    requires Inv(db, book) && Genuine(h) && h.id in db.scopes
    ensures ConfigureTx(db, h, changes, LimitOf(db.limits, h.id)).1 == Accepted <==>
            && LimitCount(db, h.id, changes) <= 100
            && CapsHold(WithLimits(db, h.id, changes).limits, book)
            && AllocationOk(WithLimits(db, h.id, changes))
  {
    var expected := LimitOf(db.limits, h.id);
    var v := ConfigureTx(db, h, changes, expected).1;
    var db' := WithLimits(db, h.id, changes);
    assert (expected + changes).Keys == expected.Keys + changes.Keys;
    assert |expected + changes| == |(expected + changes).Keys|;
    if v == Accepted {
      NewLimitsKeepInv(db, book, h.id, changes);
    } else if |expected + changes| <= MAX_COUNTERS {
      if LimitTooLow(db, h.id, changes) {
        TooLowBreaks(db, book, h.id, changes);
      } else {
        OverAllocatingBreaks(db, book, h.id, changes);
      }
    }
  }

  lemma {:induction false} TooLowBreaks(db: Db, book: Book, s: ScopeId, changes: Amounts)
    requires Inv(db, book) && s in db.scopes && LimitTooLow(db, s, changes)
    ensures !CapsHold(WithLimits(db, s, changes).limits, book) || !AllocationOk(WithLimits(db, s, changes))
  {
    hide CapsHold, AllocationOk, RowsOk, ChildLimits;
    var c :| TooLowAt(db, s, changes, c);
    assert CellOk(db, book, s, c) && db.scopes[s].parent == s.ParentOf();
    ChildLimitsOfNewLimits(db, s, changes, s, c);
    hide Inv, TreeOk, CellsOk;
    TooLowCounter(db, book, s, changes, c);
  }

  lemma {:induction false} TooLowCounter(db: Db, book: Book, s: ScopeId, changes: Amounts, c: string)
    requires TooLowAt(db, s, changes, c) && s in db.scopes && CellOk(db, book, s, c)
    requires ChildLimits(WithLimits(db, s, changes), s, c, None) == ChildLimits(db, s, c, None)
    ensures !CapsHold(WithLimits(db, s, changes).limits, book) || !AllocationOk(WithLimits(db, s, changes))
  {
    hide ChildLimits;
    var db' := WithLimits(db, s, changes);
    assert s in db'.scopes && c in LimitOf(db'.limits, s) && LimitOf(db'.limits, s)[c] == changes[c];
    if CellAt(db, s, c).used + CellAt(db, s, c).reserved > changes[c] {
      assert !CapAt(db'.limits, book, s, c);
    } else {
      assert !AllocatedAt(db', s, c);
    }
  }

  lemma {:induction false} OverAllocatingBreaks(db: Db, book: Book, s: ScopeId, changes: Amounts)
    requires Inv(db, book) && s in db.scopes && s.Child?
    requires OverAllocates(db, s.parent, LimitOf(db.limits, s) + changes, Some(s))
    ensures !AllocationOk(WithLimits(db, s, changes))
  {
    hide CellsOk, CapsHold, RowsOk, ChildLimits, AllocationOk;
    var replacement := LimitOf(db.limits, s) + changes;
    var c :| OverAllocatesAt(db, s.parent, replacement, Some(s), c);
    StoredRow(db, s);
    hide Inv, TreeOk;
    OverAllocatedThere(db, s, changes, c);
    Violated(WithLimits(db, s, changes), s.parent, c);
  }

  lemma {:induction false} OverAllocatedThere(db: Db, s: ScopeId, changes: Amounts, c: string)
    requires s in db.scopes && s.Child? && s.parent in db.scopes && db.scopes[s].parent == Some(s.parent)
    requires OverAllocatesAt(db, s.parent, LimitOf(db.limits, s) + changes, Some(s), c)
    ensures !AllocatedAt(WithLimits(db, s, changes), s.parent, c)
  {
    hide ChildLimits;
    var db', replacement := WithLimits(db, s, changes), LimitOf(db.limits, s) + changes;
    ChildLimitsOfNewLimits(db, s, changes, s.parent, c);
    ChildLimitsOfOthers(db, s, s.parent, c);
    TotalInsert(ChildLimits(db, s.parent, c, None), s, replacement[c]);
    assert LimitOf(db'.limits, s.parent) == LimitOf(db.limits, s.parent);
  }

  lemma Violated(db: Db, p: ScopeId, c: string)
    requires !AllocatedAt(db, p, c)
    ensures !AllocationOk(db)
  {
  }

  // ----- opening a root, creating a child -----

  /** After an accepted call the scope is stored under its parent, with the limits that were asked
      for, and no other scope, no counter and no reservation has changed. */
  ghost predicate Opened(db: Db, db': Db, id: ScopeId, limits: Amounts) {
    && id in db'.scopes && LimitOf(db'.limits, id) == limits
    && (id !in db.scopes ==> db'.scopes[id] == ScopeRow(id.RootOf(), id.ParentOf(), id.Depth()))
    && (id in db.scopes ==> db' == db)
    && db'.scopes.Keys == db.scopes.Keys + {id}
    && (forall s :: s in db.scopes ==> db'.scopes[s] == db.scopes[s] && LimitOf(db'.limits, s) == LimitOf(db.limits, s))
    && db'.cells == db.cells && db'.rows == db.rows
  }

  lemma {:induction false} OpenRootOpens(db: Db, name: string, limits: Amounts)
    requires TreeOk(db)
    ensures var (db', v) := OpenRootTx(db, name, limits);
            && (v == Accepted ==> Opened(db, db', Root(name), limits))
            && (v != Accepted ==> db' == db)
            && (v == Accepted <==> (Root(name) in db.scopes ==> LimitOf(db.limits, Root(name)) == limits))
  {
    hide TreeOk, Opened;
    LimitsStored(db);
    if Root(name) in db.scopes {
      StoredRow(db, Root(name));
      StaysOpened(db, Root(name));
    } else {
      NewlyOpened(db, Root(name), limits);
    }
  }

  lemma LimitsStored(db: Db)
    requires TreeOk(db)
    ensures db.limits.Keys == db.scopes.Keys
  {
  }

  lemma {:induction false} CreateChildOpens(db: Db, h: Handle, name: string, limits: Amounts)
    requires TreeOk(db)
    ensures var (db', v) := CreateChildTx(db, h, name, limits);
            && (v == Accepted ==> Opened(db, db', Child(h.id, name), limits))
            && (v != Accepted ==> db' == db)
            && (h.depth >= 64 ==> v == TooDeep)
  {
    hide TreeOk, Opened, OverAllocates;
    var id := Child(h.id, name);
    LimitsStored(db);
    if h.id in db.scopes {
      StoredRow(db, h.id);
    }
    if id in db.scopes {
      StaysOpened(db, id);
    } else {
      NewlyOpened(db, id, limits);
    }
  }

  lemma NewlyOpened(db: Db, id: ScopeId, limits: Amounts)
    requires id !in db.scopes && db.limits.Keys == db.scopes.Keys
    ensures Opened(db, WithScope(db, id, limits), id, limits)
  {
  }

  lemma StaysOpened(db: Db, id: ScopeId)
    requires id in db.scopes
    ensures Opened(db, db, id, LimitOf(db.limits, id))
  {
  }

  /** With a genuine handle to a stored scope: nothing is accepted below the sixty-fourth level; a child
      that is there is accepted again exactly with the same limits, and a new one exactly when with it
      no scope hands out more than it has. */
  lemma {:induction false} CreateChildExactly(db: Db, book: Book, h: Handle, name: string, limits: Amounts)
    requires Inv(db, book) && Genuine(h) && h.id in db.scopes
    ensures var id := Child(h.id, name);
            CreateChildTx(db, h, name, limits).1 == Accepted <==>
            && h.id.Depth() < 64
            && if id in db.scopes then LimitOf(db.limits, id) == limits else AllocationOk(WithScope(db, id, limits))
  {
    hide CellsOk, CapsHold, RowsOk;
    var id := Child(h.id, name);
    StoredRow(db, h.id);
    if h.depth >= MAX_DEPTH {
      assert CreateChildTx(db, h, name, limits).1 == TooDeep;
    } else if id in db.scopes {
      StoredRow(db, id);
      hide Inv, OverAllocates, TreeOk, AllocationOk;
    } else if OverAllocates(db, h.id, limits, None) {
      var c :| OverAllocatesAt(db, h.id, limits, None, c);
      hide Inv, TreeOk, AllocationOk;
      NewChildOverAllocates(db, h.id, id, limits, c);
      Violated(WithScope(db, id, limits), h.id, c);
    } else {
      forall p, c ensures AllocatedAt(WithScope(db, id, limits), p, c) {
        NewScopeAllocation(db, id, limits, p, c);
      }
    }
  }

  /** Which refusal a creation gets, through a genuine handle. */
  lemma {:induction false} CreateChildRefused(db: Db, h: Handle, name: string, limits: Amounts)
    requires TreeOk(db) && Genuine(h)
    ensures var v, id := CreateChildTx(db, h, name, limits).1, Child(h.id, name);
      && (v == TooDeep <==> h.id.Depth() >= 64)
      && (v == UnknownScope <==> h.id.Depth() < 64 && h.id !in db.scopes)
      && (v == ScopeExists <==>
            h.id.Depth() < 64 && h.id in db.scopes && id in db.scopes && LimitOf(db.limits, id) != limits)
      && v in {Accepted, TooDeep, UnknownScope, ScopeExists, Exceeded}
  {
    if h.id in db.scopes {
      StoredRow(db, h.id);
    }
    if Child(h.id, name) in db.scopes {
      StoredRow(db, Child(h.id, name));
    }
    hide TreeOk, OverAllocates;
  }

  lemma {:induction false} NewChildOverAllocates(db: Db, p: ScopeId, id: ScopeId, limits: Amounts, c: string)
    requires p in db.scopes && id !in db.scopes && id.Child? && id.parent == p && id != p
    requires OverAllocatesAt(db, p, limits, None, c)
    ensures !AllocatedAt(WithScope(db, id, limits), p, c)
  {
    hide ChildLimits;
    ChildLimitsOfNewScope(db, id, limits, p, c);
    TotalUpdate(ChildLimits(db, p, c, None), id, limits[c]);
    assert id !in ChildLimits(db, p, c, None) by {
      NotYetAmongChildren(db, p, id, c);
    }
  }

  lemma NotYetAmongChildren(db: Db, p: ScopeId, id: ScopeId, c: string)
    requires id !in db.scopes
    ensures id !in ChildLimits(db, p, c, None)
  {
  }

  // ----- the flat store -----

  function FlatLimitAt(db: FlatDb, n: string, c: string): Option<nat> {
    if c in LimitsAt(db, n) then Some(LimitsAt(db, n)[c]) else None
  }

  /** Configuring a flat scope gives the changed counters their new limits and leaves the rest. */
  lemma {:induction false} FlatConfigureWrites(db: FlatDb, n: string, changes: Amounts)
    ensures var (db', v) := FlatConfigure(db, n, changes);
            && db'.cells == db.cells && db'.rows == db.rows && db'.limits.Keys == db.limits.Keys
            && (v != Decided(Accepted) ==> db' == db)
            && (v == Decided(Accepted) ==> n in db.limits && forall m, c ::
                  FlatLimitAt(db', m, c) ==
                  if m == n then Overlaid(changes, FlatLimitAt(db, m, c), c) else FlatLimitAt(db, m, c))
  {
    hide FlatTooLow;
  }

  /** It is accepted exactly when the scope exists and carries no more than its new caps. */
  lemma {:induction false} FlatConfigureExactly(db: FlatDb, book: Book, ids: seq<string>, n: string, changes: Amounts)
    requires FlatInv(db, book, ids)
    ensures FlatConfigure(db, n, changes).1 == Decided(Accepted) <==>
            n in db.limits && CapsHold(FlatLimits(db.(limits := db.limits[n := LimitsAt(db, n) + changes])), book)
  {
    if n in db.limits {
      var db' := db.(limits := db.limits[n := LimitsAt(db, n) + changes]);
      if FlatTooLow(db, n, changes) {
        var c :| c in changes && CellIn(FlatCells(db, n), c).used + CellIn(FlatCells(db, n), c).reserved > changes[c];
        assert FlatCellOk(db, book, n, c);
        assert FlatLimits(db')[Root(n)][c] == changes[c];
        hide FlatLimits, FlatInv;
        assert !CapAt(FlatLimits(db'), book, Root(n), c);
      } else {
        FlatConfigureKeepsInv(db, book, ids, n, changes);
      }
    }
  }

  /** Opening gives a new scope its limits and leaves an existing one, and every other, as it is. */
  lemma {:induction false} FlatLedgerOpens(db: FlatDb, n: string, limits: Amounts)
    ensures var db' := FlatLedger(db, n, limits);
            && db'.cells == db.cells && db'.rows == db.rows && db'.limits.Keys == db.limits.Keys + {n}
            && (forall m :: m in db.limits ==> LimitsAt(db', m) == LimitsAt(db, m))
            && (n !in db.limits ==> LimitsAt(db', n) == limits)
  {
  }
}
