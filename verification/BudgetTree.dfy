/** The durable budget tree as tables, one total function per transaction, and the
    invariant that every transaction keeps. */
module BudgetTree {
  import opened Scopes
  import opened Sums
  import opened BudgetBook

  const MAX_COUNTERS: nat := 100
  const MAX_DEPTH: nat := 64
  const MAX_NAME: nat := 4096

  datatype Cell = Cell(used: nat, reserved: nat)
  datatype ScopeRow = ScopeRow(root: ScopeId, parent: Option<ScopeId>, depth: nat)
  datatype Status = Active | Reconciled | Cancelled
  datatype ReservationRow = ReservationRow(root: ScopeId, scope: ScopeId, amounts: Amounts, status: Status)

  /** The four tables. A reservation's identifier is its position: fresh on every insert. */
  datatype Db = Db(
    scopes: map<ScopeId, ScopeRow>,
    limits: Limits,
    cells: map<ScopeId, map<string, Cell>>,
    rows: seq<ReservationRow>)

  /** What a caller holds: the address of a scope, and what it believes about it. */
  datatype Handle = Handle(root: ScopeId, id: ScopeId, parent: Option<ScopeId>, depth: nat)

  predicate Genuine(h: Handle) {
    h.root == h.id.RootOf() && h.parent == h.id.ParentOf() && h.depth == h.id.Depth()
  }

  function CellsOf(db: Db, s: ScopeId): map<string, Cell> {
    if s in db.cells then db.cells[s] else map[]
  }

  function CellIn(cells: map<string, Cell>, c: string): Cell {
    if c in cells then cells[c] else Cell(0, 0)
  }

  function CellAt(db: Db, s: ScopeId, c: string): Cell {
    CellIn(CellsOf(db, s), c)
  }

  predicate KnownScope(db: Db, root: ScopeId, id: ScopeId) {
    id in db.scopes && db.scopes[id].root == root
  }

  predicate ValidName(name: string) {
    0 < |name| <= MAX_NAME
  }

  function NormalLimits(raw: map<string, int>): Option<Amounts> {
    var n := Normalized(raw, false);
    if n.Some? && 0 < |n.value| <= MAX_COUNTERS then n else None
  }

  function NormalAmounts(raw: map<string, int>): Option<Amounts> {
    var n := Normalized(raw, true);
    if n.Some? && |n.value| <= MAX_COUNTERS then n else None
  }

  // ----- allocation of limits to children -----

  function ChildLimits(db: Db, p: ScopeId, c: string, excluding: Option<ScopeId>): map<ScopeId, nat> {
    map s | s in db.scopes && db.scopes[s].parent == Some(p) && c in LimitOf(db.limits, s)
            && excluding != Some(s) :: LimitOf(db.limits, s)[c]
  }

  ghost function ChildAllocation(db: Db, p: ScopeId, c: string, excluding: Option<ScopeId>): nat {
    Total(ChildLimits(db, p, c, excluding))
  }

  ghost predicate OverAllocatesAt(db: Db, p: ScopeId, wanted: Amounts, excluding: Option<ScopeId>, c: string) {
    && c in wanted && c in LimitOf(db.limits, p)
    && ChildAllocation(db, p, c, excluding) + wanted[c] > LimitOf(db.limits, p)[c]
  }

  ghost predicate OverAllocates(db: Db, p: ScopeId, wanted: Amounts, excluding: Option<ScopeId>) {
    exists c :: OverAllocatesAt(db, p, wanted, excluding, c)
  }

  // ----- the transactions -----

  ghost function OpenRootTx(db: Db, name: string, limits: Amounts): (r: (Db, Verdict)) {
    var id := Root(name);
    if id !in db.scopes then
      (db.(scopes := db.scopes[id := ScopeRow(id, None, 0)], limits := db.limits[id := limits]), Accepted)
    else if db.scopes[id] != ScopeRow(id, None, 0) || LimitOf(db.limits, id) != limits then
      (db, ScopeExists)
    else (db, Accepted)
  }

  ghost function CreateChildTx(db: Db, h: Handle, name: string, limits: Amounts): (r: (Db, Verdict)) {
    var id := Child(h.id, name);
    if h.depth >= MAX_DEPTH then (db, TooDeep)
    else if !KnownScope(db, h.root, h.id) then (db, UnknownScope)
    else if db.scopes[h.id].parent != h.parent then (db, Corrupt)
    else if db.scopes[h.id].depth >= MAX_DEPTH then (db, TooDeep)
    else
      var row := ScopeRow(h.root, Some(h.id), db.scopes[h.id].depth + 1);
      if id in db.scopes then
        (db, if db.scopes[id] != row || LimitOf(db.limits, id) != limits then ScopeExists else Accepted)
      else if OverAllocates(db, h.id, limits, None) then (db, Exceeded)
      else (db.(scopes := db.scopes[id := row], limits := db.limits[id := limits]), Accepted)
  }

  ghost predicate TooLowAt(db: Db, s: ScopeId, changes: Amounts, c: string) {
    c in changes &&
    (CellAt(db, s, c).used + CellAt(db, s, c).reserved > changes[c]
     || ChildAllocation(db, s, c, None) > changes[c])
  }

  ghost predicate LimitTooLow(db: Db, s: ScopeId, changes: Amounts) {
    exists c :: TooLowAt(db, s, changes, c)
  }

  ghost function ConfigureTx(db: Db, h: Handle, changes: Amounts, expected: Amounts): (r: (Db, Verdict)) {
    if !KnownScope(db, h.root, h.id) then (db, UnknownScope)
    else if db.scopes[h.id].parent != h.parent || db.scopes[h.id].depth != h.depth then (db, Corrupt)
    else if LimitOf(db.limits, h.id) != expected then (db, LimitsChanged)
    else
      var replacement := expected + changes;
      if |replacement| > MAX_COUNTERS then (db, InvalidInput)
      else if LimitTooLow(db, h.id, changes) then (db, Exceeded)
      else if h.parent.Some? && OverAllocates(db, h.parent.value, replacement, Some(h.id)) then (db, Exceeded)
      else (db.(limits := db.limits[h.id := replacement]), Accepted)
  }

  /** Every counter a scope would know of after being touched with `amounts`. */
  function NamesAt(db: Db, s: ScopeId, amounts: Amounts): (names: set<string>)
    ensures forall c :: c in names <==> c in LimitOf(db.limits, s) || c in CellsOf(db, s) || c in amounts
  {
    set c | c in LimitOf(db.limits, s).Keys + CellsOf(db, s).Keys + amounts.Keys
  }

  predicate CrowdedAt(db: Db, s: ScopeId, amounts: Amounts) {
    |NamesAt(db, s, amounts)| > MAX_COUNTERS
  }

  predicate Crowded(db: Db, scope: ScopeId, amounts: Amounts) {
    exists s :: s in Chain(scope) && CrowdedAt(db, s, amounts)
  }

  predicate CellsFitAt(db: Db, s: ScopeId, amounts: Amounts, replaced: Amounts) {
    forall c :: c in amounts && c in LimitOf(db.limits, s) ==>
      CellAt(db, s, c).used + CellAt(db, s, c).reserved - At(replaced, c) + amounts[c] <= LimitOf(db.limits, s)[c]
  }

  predicate CellsFit(db: Db, scope: ScopeId, amounts: Amounts, replaced: Amounts) {
    forall s :: s in Chain(scope) ==> CellsFitAt(db, s, amounts, replaced)
  }

  function WithReserved(cells: map<string, Cell>, amounts: Amounts): map<string, Cell> {
    map c | c in cells.Keys + amounts.Keys ::
      Cell(CellIn(cells, c).used, CellIn(cells, c).reserved + At(amounts, c))
  }

  predicate Covers(cells: map<string, Cell>, amounts: Amounts) {
    forall c :: c in amounts ==> amounts[c] <= CellIn(cells, c).reserved
  }

  predicate ChainCovers(db: Db, chain: seq<ScopeId>, amounts: Amounts) {
    forall s :: s in chain ==> Covers(CellsOf(db, s), amounts)
  }

  function WithReplaced(cells: map<string, Cell>, held: Amounts, charged: Amounts): map<string, Cell>
    requires Covers(cells, held)
  {
    map c | c in cells.Keys + held.Keys + charged.Keys ::
      Cell(CellIn(cells, c).used + At(charged, c), CellIn(cells, c).reserved - At(held, c))
  }

  function ReservedCells(db: Db, chain: seq<ScopeId>, amounts: Amounts): map<ScopeId, map<string, Cell>> {
    map s | s in db.cells.Keys + (set a | a in chain) ::
      if s in chain then WithReserved(CellsOf(db, s), amounts) else CellsOf(db, s)
  }

  function ReplacedCells(db: Db, chain: seq<ScopeId>, held: Amounts, charged: Amounts): map<ScopeId, map<string, Cell>>
    requires ChainCovers(db, chain, held)
  {
    map s | s in db.cells.Keys + (set a | a in chain) ::
      if s in chain then WithReplaced(CellsOf(db, s), held, charged) else CellsOf(db, s)
  }

  function ReserveTx(db: Db, root: ScopeId, scope: ScopeId, amounts: Amounts): (r: (Db, Verdict)) {
    var (cells, v) := HeldCells(db, root, scope, amounts);
    if v != Accepted then (db, v)
    else (db.(rows := db.rows + [ReservationRow(root, scope, amounts, Active)], cells := cells), Accepted)
  }

  /** The counters after adding a hold along the chain, or why not. */
  function HeldCells(db: Db, root: ScopeId, scope: ScopeId, amounts: Amounts)
    : (r: (map<ScopeId, map<string, Cell>>, Verdict))
  {
    if !KnownScope(db, root, scope) then (db.cells, UnknownScope)
    else if Crowded(db, scope, amounts) then (db.cells, CounterLimit)
    else if !CellsFit(db, scope, amounts, map[]) then (db.cells, Exceeded)
    else (ReservedCells(db, Chain(scope), amounts), Accepted)
  }

  function FinishTx(db: Db, root: ScopeId, scope: ScopeId, i: nat, actual: Option<Amounts>): (r: (Db, Verdict)) {
    if i >= |db.rows| || db.rows[i].root != root || db.rows[i].scope != scope then (db, UnknownReservation)
    else if db.rows[i].status != Active then (db, Inactive)
    else
      var (cells, v) := SettledCells(db, root, scope, db.rows[i].amounts, FinalAmounts(actual));
      if v != Accepted then (db, v)
      else
        (db.(rows := db.rows[i := db.rows[i].(status := if actual.Some? then Reconciled else Cancelled)],
             cells := cells), Accepted)
  }

  /** The counters after replacing `held` by `final` along the chain, or why not. */
  function SettledCells(db: Db, root: ScopeId, scope: ScopeId, held: Amounts, final: Amounts)
    : (r: (map<ScopeId, map<string, Cell>>, Verdict))
  {
    if !KnownScope(db, root, scope) then (db.cells, UnknownScope)
    else if Crowded(db, scope, final) then (db.cells, CounterLimit)
    else if !CellsFit(db, scope, final, held) then (db.cells, Exceeded)
    else if !ChainCovers(db, Chain(scope), held) then (db.cells, Corrupt)
    else (ReplacedCells(db, Chain(scope), held, final), Accepted)
  }

  // ----- the invariant -----

  predicate ParentStored(db: Db, s: ScopeId) {
    s.Child? ==> s.parent in db.scopes
  }

  /** Stored rows say what the addresses say, and every parent is stored too. */
  ghost predicate TreeOk(db: Db) {
    && (forall s {:trigger db.scopes[s]} :: s in db.scopes ==>
          db.scopes[s] == ScopeRow(s.RootOf(), s.ParentOf(), s.Depth()) && s.Depth() <= MAX_DEPTH)
    && (forall s {:trigger ParentStored(db, s)} :: s in db.scopes ==> ParentStored(db, s))
    && db.limits.Keys == db.scopes.Keys
    && (forall s :: s in db.limits ==> |db.limits[s]| <= MAX_COUNTERS)
    && db.cells.Keys <= db.scopes.Keys
  }

  predicate RowMatches(row: ReservationRow, e: Entry) {
    && row.root == e.scope.RootOf() && row.scope == e.scope && row.amounts == e.amounts
    && row.status == (match e.state case Held => Active case Charged(_) => Reconciled case Released => Cancelled)
  }

  ghost predicate RowsOk(db: Db, book: Book) {
    && |db.rows| == |book|
    && forall i :: 0 <= i < |book| ==> RowMatches(db.rows[i], book[i]) && book[i].scope in db.scopes
  }

  /** Conservation: a stored counter is exactly the sum over the subtree. */
  ghost predicate CellOk(db: Db, book: Book, s: ScopeId, c: string) {
    s in db.scopes ==> CellAt(db, s, c) == Cell(Used(book, s, c), Reserved(book, s, c))
  }

  ghost predicate CellsOk(db: Db, book: Book) {
    forall s, c :: CellOk(db, book, s, c)
  }

  /** No scope hands out more than it has. */
  ghost predicate AllocatedAt(db: Db, p: ScopeId, c: string) {
    p in db.scopes && c in LimitOf(db.limits, p) ==>
      ChildAllocation(db, p, c, None) <= LimitOf(db.limits, p)[c]
  }

  ghost predicate AllocationOk(db: Db) {
    forall p, c :: AllocatedAt(db, p, c)
  }

  ghost predicate Inv(db: Db, book: Book) {
    TreeOk(db) && RowsOk(db, book) && CellsOk(db, book) && CapsHold(db.limits, book) && AllocationOk(db)
  }

  const EMPTY: Db := Db(map[], map[], map[], [])

  lemma EmptyInv()
    ensures Inv(EMPTY, [])
  {
  }

  // ----- every stored scope has its whole chain stored -----

  lemma StoredRow(db: Db, s: ScopeId)
    requires TreeOk(db) && s in db.scopes
    ensures db.scopes[s] == ScopeRow(s.RootOf(), s.ParentOf(), s.Depth()) && s.Depth() <= MAX_DEPTH
    ensures s.Child? ==> s.parent in db.scopes && db.scopes[s.parent].root == s.parent.RootOf()
  {
    assert ParentStored(db, s);
  }

  lemma AncestorsStored(db: Db, s: ScopeId, a: ScopeId)
    requires TreeOk(db) && s in db.scopes && Under(s, a)
    ensures a in db.scopes
  {
    assert ParentStored(db, s);
    if s != a {
      AncestorsStored(db, s.parent, a);
    }
  }

  lemma ChainStored(db: Db, s: ScopeId)
    requires TreeOk(db) && s in db.scopes
    ensures forall a :: a in Chain(s) ==> a in db.scopes
  {
    forall a | a in Chain(s) ensures a in db.scopes {
      ChainIsAncestors(s, a);
      AncestorsStored(db, s, a);
    }
  }

  lemma {:induction false} NothingBelow(db: Db, book: Book, s: ScopeId, c: string)
    requires TreeOk(db) && s !in db.scopes
    requires forall i :: 0 <= i < |book| ==> book[i].scope in db.scopes
    ensures Used(book, s, c) == 0 && Reserved(book, s, c) == 0
    decreases |book|
  {
    if |book| > 0 {
      NothingBelow(db, book[..|book| - 1], s, c);
      var e := book[|book| - 1];
      if Under(e.scope, s) {
        AncestorsStored(db, e.scope, s);
      }
    }
  }

  // ----- reserve and finish agree with the reference accounting -----

  lemma {:induction false} FitsAgree(db: Db, book: Book, scope: ScopeId, amounts: Amounts, replaced: Amounts)
    requires Inv(db, book) && scope in db.scopes
    ensures CellsFit(db, scope, amounts, replaced) <==> Fits(book, db.limits, scope, amounts, replaced)
  {
    ChainStored(db, scope);
    forall s | s in Chain(scope)
      ensures CellsFitAt(db, s, amounts, replaced) <==> FitsAt(book, LimitOf(db.limits, s), s, amounts, replaced)
    {
      assert forall c :: c in amounts ==> CellOk(db, book, s, c);
    }
  }

  lemma {:induction false} HoldsAreCovered(db: Db, book: Book, i: nat)
    requires Inv(db, book) && i < |book| && book[i].state.Held?
    ensures ChainCovers(db, Chain(book[i].scope), book[i].amounts)
  {
    forall s | s in Chain(book[i].scope) ensures Covers(CellsOf(db, s), book[i].amounts) {
      ChainIsAncestors(book[i].scope, s);
      ChainStored(db, book[i].scope);
      forall c | c in book[i].amounts ensures book[i].amounts[c] <= CellIn(CellsOf(db, s), c).reserved {
        SumsCover(book, i, s, c);
        assert CellOk(db, book, s, c);
      }
    }
  }

  lemma {:induction false} ReserveMovesCells(db: Db, db': Db, book: Book, scope: ScopeId, amounts: Amounts)
    requires CellsOk(db, book)
    requires db'.scopes == db.scopes && db'.cells == ReservedCells(db, Chain(scope), amounts)
    ensures CellsOk(db', book + [Entry(scope, amounts, Held)])
  {
    var e := Entry(scope, amounts, Held);
    var book' := book + [e];
    forall s, c ensures CellOk(db', book', s, c) {
      SumsAppend(book, e, s, c);
      ChainIsAncestors(scope, s);
      assert CellOk(db, book, s, c);
    }
  }

  lemma {:induction false} FinishMovesCells(db: Db, db': Db, book: Book, i: nat, actual: Option<Amounts>)
    requires CellsOk(db, book)
    requires i < |book| && book[i].state.Held?
    requires ChainCovers(db, Chain(book[i].scope), book[i].amounts)
    requires db'.scopes == db.scopes
    requires db'.cells == ReplacedCells(db, Chain(book[i].scope), book[i].amounts, FinalAmounts(actual))
    ensures CellsOk(db', book[i := Settled(book[i], actual)])
  {
    var book' := book[i := Settled(book[i], actual)];
    forall s, c ensures CellOk(db', book', s, c) {
      SumsSettle(book, i, actual, s, c);
      ChainIsAncestors(book[i].scope, s);
      assert CellOk(db, book, s, c);
    }
  }

  /** Reserving in the tree is reserving in the book, except that a crowded scope refuses. */
  lemma {:induction false} ReserveRefines(db: Db, book: Book, root: ScopeId, scope: ScopeId, amounts: Amounts)
    requires Inv(db, book) && KnownScope(db, root, scope)
    ensures var (db', v) := ReserveTx(db, root, scope, amounts);
            var (book', bv) := Step(db.limits, book, Reserve(scope, amounts));
            if Crowded(db, scope, amounts) then v == CounterLimit && db' == db
            else v == bv && Inv(db', book')
  {
    var (db', v) := ReserveTx(db, root, scope, amounts);
    FitsAgree(db, book, scope, amounts, map[]);
    if v == Accepted {
      StepKeepsCaps(db.limits, book, Reserve(scope, amounts));
      ReserveMovesCells(db, db', book, scope, amounts);
      SameAllocation(db, db');
      ChainStored(db, scope);
      assert db'.cells.Keys <= db'.scopes.Keys;
      assert RowMatches(db'.rows[|book|], Entry(scope, amounts, Held)) by {
        assert db.scopes[scope].root == scope.RootOf();
      }
      TablesKept(db, db');
    }
  }

  lemma {:induction false} FinishKeepsInv(db: Db, book: Book, i: nat, actual: Option<Amounts>)
    requires Inv(db, book) && i < |book| && book[i].state.Held?
    requires FinishTx(db, book[i].scope.RootOf(), book[i].scope, i, actual).1 == Accepted
    requires Step(db.limits, book, Finish(i, actual)).1 == Accepted
    ensures Inv(FinishTx(db, book[i].scope.RootOf(), book[i].scope, i, actual).0, book[i := Settled(book[i], actual)])
  {
    var scope := book[i].scope;
    var db' := FinishTx(db, scope.RootOf(), scope, i, actual).0;
    var book' := book[i := Settled(book[i], actual)];
    assert RowMatches(db.rows[i], book[i]);
    assert CapsHold(db'.limits, book') by {
      StepKeepsCaps(db.limits, book, Finish(i, actual));
    }
    assert CellsOk(db', book') by {
      FinishMovesCells(db, db', book, i, actual);
    }
    assert AllocationOk(db') by {
      SameAllocation(db, db');
    }
    assert TreeOk(db') by {
      ChainStored(db, scope);
      TablesKept(db, db');
    }
    forall j | 0 <= j < |book'| ensures RowMatches(db'.rows[j], book'[j]) && book'[j].scope in db'.scopes {
      assert RowMatches(db.rows[j], book[j]);
    }
  }

  lemma {:induction false} FinishRefines(db: Db, book: Book, root: ScopeId, scope: ScopeId, i: nat,
                                         actual: Option<Amounts>)
    requires Inv(db, book)
    ensures var (db', v) := FinishTx(db, root, scope, i, actual);
            var (book', bv) := Step(db.limits, book, Finish(i, actual));
            if i >= |book| || scope != book[i].scope || root != scope.RootOf() then
              v == UnknownReservation && db' == db
            else if book[i].state.Held? && Crowded(db, scope, FinalAmounts(actual)) then
              v == CounterLimit && db' == db
            else v == bv && Inv(db', book')
  {
    hide CellsFit, ChainCovers, ReplacedCells, Fits, CellsOk, CapsHold, AllocationOk, Crowded;
    if i < |book| {
      assert RowMatches(db.rows[i], book[i]);
      if scope == book[i].scope && root == scope.RootOf() && book[i].state.Held? {
        assert db.scopes[scope].root == scope.RootOf();
        FitsAgree(db, book, scope, FinalAmounts(actual), book[i].amounts);
        HoldsAreCovered(db, book, i);
        if FinishTx(db, root, scope, i, actual).1 == Accepted {
          FinishKeepsInv(db, book, i, actual);
        }
      }
    }
  }

  lemma {:induction false} TablesKept(db: Db, db': Db)
    requires TreeOk(db) && db'.scopes == db.scopes && db'.limits == db.limits
    requires db'.cells.Keys <= db'.scopes.Keys
    ensures TreeOk(db')
  {
    forall s | s in db'.scopes ensures ParentStored(db', s) {
      assert ParentStored(db, s);
    }
  }

  lemma {:induction false} SameAllocation(db: Db, db': Db)
    requires AllocationOk(db) && db'.scopes == db.scopes && db'.limits == db.limits
    ensures AllocationOk(db')
  {
    forall p, c ensures AllocatedAt(db', p, c) {
      assert AllocatedAt(db, p, c);
      assert ChildLimits(db', p, c, None) == ChildLimits(db, p, c, None);
    }
  }

  // ----- scope creation and limit changes -----

  ghost predicate RoomFor(db: Db, id: ScopeId, limits: Amounts) {
    id.Child? ==> !OverAllocates(db, id.parent, limits, None)
  }

  function WithScope(db: Db, id: ScopeId, limits: Amounts): Db {
    db.(scopes := db.scopes[id := ScopeRow(id.RootOf(), id.ParentOf(), id.Depth())],
        limits := db.limits[id := limits])
  }

  lemma {:induction false} ChildLimitsOfNewScope(db: Db, id: ScopeId, limits: Amounts, p: ScopeId, c: string)
    requires id !in db.scopes && id.ParentOf() != Some(id)
    ensures ChildLimits(WithScope(db, id, limits), p, c, None) ==
            if id.ParentOf() == Some(p) && c in limits then ChildLimits(db, p, c, None)[id := limits[c]]
            else ChildLimits(db, p, c, None)
  {
  }

  lemma {:induction false} NoChildrenYet(db: Db, id: ScopeId, c: string)
    requires TreeOk(db) && id !in db.scopes
    ensures ChildAllocation(db, id, c, None) == 0
  {
    forall s | s in db.scopes ensures db.scopes[s].parent != Some(id) {
      assert ParentStored(db, s);
    }
    assert ChildLimits(db, id, c, None) == map[];
  }

  lemma {:induction false} NewScopeAllocation(db: Db, id: ScopeId, limits: Amounts, p: ScopeId, c: string)
    requires TreeOk(db) && AllocationOk(db) && id !in db.scopes && RoomFor(db, id, limits)
    ensures AllocatedAt(WithScope(db, id, limits), p, c)
  {
    assert AllocatedAt(db, p, c);
    ChildLimitsOfNewScope(db, id, limits, p, c);
    if id.ParentOf() == Some(p) && c in limits {
      TotalUpdate(ChildLimits(db, p, c, None), id, limits[c]);
      assert !OverAllocatesAt(db, p, limits, None, c);
    }
    if p == id {
      NoChildrenYet(db, id, c);
    }
  }

  lemma {:induction false} NewScopeKeepsInv(db: Db, book: Book, id: ScopeId, limits: Amounts)
    requires Inv(db, book) && id !in db.scopes && RoomFor(db, id, limits)
    requires id.Child? ==> id.parent in db.scopes
    requires id.Depth() <= MAX_DEPTH && |limits| <= MAX_COUNTERS
    ensures Inv(WithScope(db, id, limits), book)
  {
    var db' := WithScope(db, id, limits);
    forall c ensures Used(book, id, c) == 0 && Reserved(book, id, c) == 0 {
      NothingBelow(db, book, id, c);
    }
    forall s, c ensures CapAt(db'.limits, book, s, c) {
      assert CapAt(db.limits, book, s, c);
    }
    forall s, c ensures CellOk(db', book, s, c) {
      assert CellOk(db, book, s, c);
    }
    forall p, c ensures AllocatedAt(db', p, c) {
      assert AllocatedAt(db, p, c);
      NewScopeAllocation(db, id, limits, p, c);
    }
    forall s | s in db'.scopes ensures ParentStored(db', s) {
      if s != id {
        assert ParentStored(db, s);
      }
    }
    forall i | 0 <= i < |book| ensures RowMatches(db'.rows[i], book[i]) && book[i].scope in db'.scopes {
      assert RowMatches(db.rows[i], book[i]);
    }
  }

  lemma {:induction false} OpenRootKeepsInv(db: Db, book: Book, name: string, limits: Amounts)
    requires Inv(db, book) && |limits| <= MAX_COUNTERS
    ensures Inv(OpenRootTx(db, name, limits).0, book)
  {
    if Root(name) !in db.scopes {
      NewScopeKeepsInv(db, book, Root(name), limits);
    }
  }

  lemma {:induction false} CreateChildKeepsInv(db: Db, book: Book, h: Handle, name: string, limits: Amounts)
    requires Inv(db, book) && |limits| <= MAX_COUNTERS
    ensures Inv(CreateChildTx(db, h, name, limits).0, book)
  {
    var id := Child(h.id, name);
    if CreateChildTx(db, h, name, limits).1 == Accepted && id !in db.scopes {
      var row := db.scopes[h.id];
      assert row == ScopeRow(h.id.RootOf(), h.id.ParentOf(), h.id.Depth());
      assert h.root == id.RootOf() && row.depth + 1 == id.Depth();
      assert RoomFor(db, id, limits);
      assert CreateChildTx(db, h, name, limits).0 == WithScope(db, id, limits);
      NewScopeKeepsInv(db, book, id, limits);
    }
  }

  /** The conditions under which new limits are written. */
  ghost predicate Configurable(db: Db, s: ScopeId, changes: Amounts) {
    && s in db.scopes
    && |LimitOf(db.limits, s) + changes| <= MAX_COUNTERS
    && !LimitTooLow(db, s, changes)
    && (s.Child? ==> !OverAllocates(db, s.parent, LimitOf(db.limits, s) + changes, Some(s)))
  }

  function WithLimits(db: Db, s: ScopeId, changes: Amounts): Db {
    db.(limits := db.limits[s := LimitOf(db.limits, s) + changes])
  }

  lemma {:induction false} ChildLimitsOfNewLimits(db: Db, s: ScopeId, changes: Amounts, p: ScopeId, c: string)
    requires s in db.scopes
    ensures var replacement := LimitOf(db.limits, s) + changes;
            ChildLimits(WithLimits(db, s, changes), p, c, None) ==
            if db.scopes[s].parent == Some(p) && c in replacement then
              ChildLimits(db, p, c, None)[s := replacement[c]]
            else ChildLimits(db, p, c, None)
  {
  }

  lemma {:induction false} ChildLimitsOfOthers(db: Db, s: ScopeId, p: ScopeId, c: string)
    ensures ChildLimits(db, p, c, None) - {s} == ChildLimits(db, p, c, Some(s))
  {
  }

  lemma {:induction false} NewLimitsAllocation(db: Db, s: ScopeId, changes: Amounts, p: ScopeId, c: string)
    requires s in db.scopes && db.scopes[s].parent == s.ParentOf() && AllocatedAt(db, p, c)
    requires !TooLowAt(db, s, changes, c)
    requires s.ParentOf() == Some(p) ==> !OverAllocatesAt(db, p, LimitOf(db.limits, s) + changes, Some(s), c)
    ensures AllocatedAt(WithLimits(db, s, changes), p, c)
  {
    var replacement := LimitOf(db.limits, s) + changes;
    ChildLimitsOfNewLimits(db, s, changes, p, c);
    ChildLimitsOfOthers(db, s, p, c);
    if s.ParentOf() == Some(p) && c in replacement {
      TotalInsert(ChildLimits(db, p, c, None), s, replacement[c]);
    }
  }

  lemma {:induction false} NewLimitsKeepInv(db: Db, book: Book, s: ScopeId, changes: Amounts)
    requires Inv(db, book) && Configurable(db, s, changes)
    ensures Inv(WithLimits(db, s, changes), book)
  {
    var db' := WithLimits(db, s, changes);
    forall t, c ensures CapAt(db'.limits, book, t, c) {
      assert CapAt(db.limits, book, t, c);
      assert CellOk(db, book, t, c);
      if t == s && c in changes {
        assert !TooLowAt(db, s, changes, c);
      }
    }
    forall t, c ensures CellOk(db', book, t, c) {
      assert CellOk(db, book, t, c);
    }
    forall p, c ensures AllocatedAt(db', p, c) {
      assert AllocatedAt(db, p, c);
      assert db.scopes[s].parent == s.ParentOf();
      assert !TooLowAt(db, s, changes, c);
      assert s.ParentOf() == Some(p) ==> !OverAllocatesAt(db, p, LimitOf(db.limits, s) + changes, Some(s), c);
      NewLimitsAllocation(db, s, changes, p, c);
    }
    forall t | t in db'.scopes ensures ParentStored(db', t) {
      assert ParentStored(db, t);
    }
  }

  lemma {:induction false} ConfigureKeepsInv(db: Db, book: Book, h: Handle, changes: Amounts, expected: Amounts)
    requires Inv(db, book)
    ensures Inv(ConfigureTx(db, h, changes, expected).0, book)
  {
    if ConfigureTx(db, h, changes, expected).1 == Accepted {
      assert db.scopes[h.id].parent == h.id.ParentOf();
      NewLimitsKeepInv(db, book, h.id, changes);
    }
  }
}
