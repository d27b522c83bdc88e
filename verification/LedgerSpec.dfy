/** What the in-memory ledger tree computes: per scope one dictionary of used and one of
    reserved amounts, updated along the chain of the scope that is charged. */
module LedgerSpec {
  import opened Scopes
  import opened BudgetBook

  datatype HeldRow = HeldRow(scope: ScopeId, amounts: Amounts, active: bool)

  /** The dictionaries of every ledger of a tree, and the reservations handed out. */
  datatype Mem = Mem(used: map<ScopeId, Amounts>, reserved: map<ScopeId, Amounts>, handles: seq<HeldRow>)

  function In(table: map<ScopeId, Amounts>, s: ScopeId): Amounts {
    if s in table then table[s] else map[]
  }

  function AddAll(target: Amounts, amounts: Amounts): Amounts {
    map c | c in target.Keys + amounts.Keys :: At(target, c) + At(amounts, c)
  }

  predicate CoveredBy(amounts: Amounts, target: Amounts) {
    forall c :: c in amounts ==> amounts[c] <= At(target, c)
  }

  /** Subtracts, and forgets the counters that reach zero. */
  function SubtractAll(target: Amounts, amounts: Amounts): Amounts
    requires CoveredBy(amounts, target)
  {
    map c | c in target && !(c in amounts && target[c] == amounts[c]) :: target[c] - At(amounts, c)
  }

  predicate LedgerFits(limits: Amounts, used: Amounts, reserved: Amounts, amounts: Amounts, replaced: Amounts) {
    forall c :: c in amounts && c in limits ==>
      At(used, c) + At(reserved, c) - At(replaced, c) + amounts[c] <= limits[c]
  }

  ghost predicate ChainFits(limits: Limits, mem: Mem, scope: ScopeId, amounts: Amounts, replaced: Amounts) {
    forall s :: s in Chain(scope) ==>
      LedgerFits(LimitOf(limits, s), In(mem.used, s), In(mem.reserved, s), amounts, replaced)
  }

  predicate CoveredAlong(mem: Mem, scope: ScopeId, amounts: Amounts) {
    forall s :: s in Chain(scope) ==> CoveredBy(amounts, In(mem.reserved, s))
  }

  function AddAlong(table: map<ScopeId, Amounts>, scope: ScopeId, amounts: Amounts): map<ScopeId, Amounts> {
    map s | s in table.Keys + (set a | a in Chain(scope)) ::
      if s in Chain(scope) then AddAll(In(table, s), amounts) else In(table, s)
  }

  function SubtractAlong(mem: Mem, scope: ScopeId, amounts: Amounts): map<ScopeId, Amounts>
    requires CoveredAlong(mem, scope, amounts)
  {
    map s | s in mem.reserved.Keys + (set a | a in Chain(scope)) ::
      if s in Chain(scope) then SubtractAll(In(mem.reserved, s), amounts) else In(mem.reserved, s)
  }

  ghost function MemReserve(limits: Limits, mem: Mem, scope: ScopeId, amounts: Amounts): (r: (Mem, Verdict)) {
    if ChainFits(limits, mem, scope, amounts, map[]) then
      (mem.(reserved := AddAlong(mem.reserved, scope, amounts),
            handles := mem.handles + [HeldRow(scope, amounts, true)]), Accepted)
    else (mem, Exceeded)
  }

  ghost function MemFinish(limits: Limits, mem: Mem, i: nat, actual: Option<Amounts>): (r: (Mem, Verdict)) {
    if i >= |mem.handles| then (mem, UnknownReservation)
    else
      var h := mem.handles[i];
      if !h.active then (mem, Inactive)
      else if !ChainFits(limits, mem, h.scope, FinalAmounts(actual), h.amounts) then (mem, Exceeded)
      else if !CoveredAlong(mem, h.scope, h.amounts) then (mem, Corrupt)
      else
        (Mem(AddAlong(mem.used, h.scope, FinalAmounts(actual)),
             SubtractAlong(mem, h.scope, h.amounts),
             mem.handles[i := h.(active := false)]), Accepted)
  }

  ghost function MemStep(limits: Limits, mem: Mem, op: Op): (r: (Mem, Verdict)) {
    match op
    case Reserve(scope, amounts) => MemReserve(limits, mem, scope, amounts)
    case Finish(i, actual) => MemFinish(limits, mem, i, actual)
  }

  const FRESH: Mem := Mem(map[], map[], [])

  // ----- the ledger tree refines the reference accounting -----

  ghost predicate LedgerOk(mem: Mem, book: Book, s: ScopeId, c: string) {
    At(In(mem.used, s), c) == Used(book, s, c) && At(In(mem.reserved, s), c) == Reserved(book, s, c)
  }

  ghost predicate LedgersOk(mem: Mem, book: Book) {
    forall s, c :: LedgerOk(mem, book, s, c)
  }

  predicate HandleMatches(h: HeldRow, e: Entry) {
    h.scope == e.scope && h.amounts == e.amounts && h.active == e.state.Held?
  }

  ghost predicate MemInv(mem: Mem, book: Book) {
    && |mem.handles| == |book|
    && (forall i :: 0 <= i < |book| ==> HandleMatches(mem.handles[i], book[i]))
    && LedgersOk(mem, book)
  }

  lemma FreshInv()
    ensures MemInv(FRESH, [])
  {
  }

  lemma {:induction false} ChainFitsAgree(limits: Limits, mem: Mem, book: Book, scope: ScopeId, amounts: Amounts,
                                          replaced: Amounts)
    requires MemInv(mem, book)
    ensures ChainFits(limits, mem, scope, amounts, replaced) <==> Fits(book, limits, scope, amounts, replaced)
  {
    forall s | s in Chain(scope)
      ensures LedgerFits(LimitOf(limits, s), In(mem.used, s), In(mem.reserved, s), amounts, replaced)
         <==> FitsAt(book, LimitOf(limits, s), s, amounts, replaced)
    {
      assert forall c :: c in amounts ==> LedgerOk(mem, book, s, c);
    }
  }

  lemma {:induction false} HoldsCoveredAlong(mem: Mem, book: Book, i: nat)
    requires MemInv(mem, book) && i < |book| && book[i].state.Held?
    ensures CoveredAlong(mem, book[i].scope, book[i].amounts)
  {
    forall s, c | s in Chain(book[i].scope) && c in book[i].amounts
      ensures book[i].amounts[c] <= At(In(mem.reserved, s), c)
    {
      ChainIsAncestors(book[i].scope, s);
      SumsCover(book, i, s, c);
      assert LedgerOk(mem, book, s, c);
    }
  }

  lemma {:induction false} LedgerRefinesReserve(limits: Limits, mem: Mem, book: Book, scope: ScopeId, amounts: Amounts)
    requires MemInv(mem, book)
    ensures var (mem', v) := MemReserve(limits, mem, scope, amounts);
            var (book', bv) := Step(limits, book, Reserve(scope, amounts));
            v == bv && MemInv(mem', book')
  {
    hide ChainFits, Fits;
    ChainFitsAgree(limits, mem, book, scope, amounts, map[]);
    var (mem', v) := MemReserve(limits, mem, scope, amounts);
    if v == Accepted {
      var book' := book + [Entry(scope, amounts, Held)];
      forall s, c ensures LedgerOk(mem', book', s, c) {
        assert LedgerOk(mem, book, s, c);
        SumsAppend(book, Entry(scope, amounts, Held), s, c);
        ChainIsAncestors(scope, s);
      }
    }
  }

  lemma {:induction false} FinishMovesLedgers(mem: Mem, mem': Mem, book: Book, i: nat, actual: Option<Amounts>)
    requires LedgersOk(mem, book)
    requires i < |book| && book[i].state.Held? && CoveredAlong(mem, book[i].scope, book[i].amounts)
    requires mem'.used == AddAlong(mem.used, book[i].scope, FinalAmounts(actual))
    requires mem'.reserved == SubtractAlong(mem, book[i].scope, book[i].amounts)
    ensures LedgersOk(mem', book[i := Settled(book[i], actual)])
  {
    var book' := book[i := Settled(book[i], actual)];
    forall s, c ensures LedgerOk(mem', book', s, c) {
      assert LedgerOk(mem, book, s, c);
      SumsSettle(book, i, actual, s, c);
      ChainIsAncestors(book[i].scope, s);
    }
  }

  lemma {:induction false} LedgerRefinesFinish(limits: Limits, mem: Mem, book: Book, i: nat, actual: Option<Amounts>)
    requires MemInv(mem, book)
    ensures var (mem', v) := MemFinish(limits, mem, i, actual);
            var (book', bv) := Step(limits, book, Finish(i, actual));
            v == bv && MemInv(mem', book')
  {
    if i < |book| {
      assert HandleMatches(mem.handles[i], book[i]);
      if book[i].state.Held? {
        ChainFitsAgree(limits, mem, book, book[i].scope, FinalAmounts(actual), book[i].amounts);
        HoldsCoveredAlong(mem, book, i);
        hide ChainFits, Fits;
        var (mem', v) := MemFinish(limits, mem, i, actual);
        if v == Accepted {
          FinishMovesLedgers(mem, mem', book, i, actual);
        }
      }
    }
  }

  /** Every reserve, reconcile and cancel gets the reference verdict and keeps the counters
      equal to the sums; in particular a hold can never be missing when it is taken back. */
  lemma {:induction false} LedgerRefines(limits: Limits, mem: Mem, book: Book, op: Op)
    requires MemInv(mem, book)
    ensures var (mem', v) := MemStep(limits, mem, op);
            var (book', bv) := Step(limits, book, op);
            v == bv && v != Corrupt && MemInv(mem', book')
  {
    match op
    case Reserve(scope, amounts) => LedgerRefinesReserve(limits, mem, book, scope, amounts);
    case Finish(i, actual) => LedgerRefinesFinish(limits, mem, book, i, actual);
  }
}
