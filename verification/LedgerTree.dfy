/** All the ledgers of a tree together: what calls on the objects do to the tree as one value. */
module LedgerTree {
  import opened Scopes
  import opened BudgetBook
  import opened LedgerSpec
  import opened BudgetLedgers

  /** A set of ledgers with distinct scopes that holds the parents of its members. */
  ghost predicate ClosedTree(tree: set<BudgetLedger>) {
    && (forall l :: l in tree ==> l.Linked())
    && (forall l :: l in tree && l.parent != null ==> l.parent in tree)
    && (forall l, m :: l in tree && m in tree && l.id == m.id ==> l == m)
  }

  ghost function LimitsIn(tree: set<BudgetLedger>): Limits
    requires ClosedTree(tree)
  {
    map l | l in tree :: l.id := l.limits
  }

  ghost function UsedIn(tree: set<BudgetLedger>): map<ScopeId, Amounts>
    requires ClosedTree(tree)
    reads tree`used
  {
    map l | l in tree :: l.id := l.used
  }

  ghost function ReservedIn(tree: set<BudgetLedger>): map<ScopeId, Amounts>
    requires ClosedTree(tree)
    reads tree`reserved
  {
    map l | l in tree :: l.id := l.reserved
  }

  ghost function HeldIn(handles: seq<BudgetReservation>): (rows: seq<HeldRow>)
    reads handles
    ensures |rows| == |handles|
    ensures forall i :: 0 <= i < |handles| ==>
      rows[i] == HeldRow(handles[i].ledger.id, handles[i].amounts, handles[i].active)
  {
    if |handles| == 0 then []
    else
      var last := handles[|handles| - 1];
      HeldIn(handles[..|handles| - 1]) + [HeldRow(last.ledger.id, last.amounts, last.active)]
  }

  lemma HeldWith(handles: seq<BudgetReservation>, r: BudgetReservation)
    ensures HeldIn(handles + [r]) == HeldIn(handles) + [HeldRow(r.ledger.id, r.amounts, r.active)]
  {
  }

  ghost function Image(tree: set<BudgetLedger>, handles: seq<BudgetReservation>): Mem
    requires ClosedTree(tree)
    reads tree, handles
  {
    Mem(UsedIn(tree), ReservedIn(tree), HeldIn(handles))
  }

  ghost predicate DistinctHandles(handles: seq<BudgetReservation>) {
    forall i, j :: 0 <= i < j < |handles| ==> handles[i] != handles[j]
  }

  ghost function WithHandle(handles: seq<BudgetReservation>, r: BudgetReservation?): seq<BudgetReservation> {
    if r == null then handles else handles + [r]
  }

  lemma {:induction false} ChainInTree(tree: set<BudgetLedger>, l: BudgetLedger)
    requires ClosedTree(tree) && l in tree
    ensures forall m :: m in l.chain ==> m in tree
    ensures forall m :: m in tree ==> (m in l.chain <==> m.id in Chain(l.id))
    ensures forall i, j :: 0 <= i < j < |l.chain| ==> l.chain[i] != l.chain[j]
    ensures forall s :: s in Chain(l.id) ==> exists m :: m in l.chain && m.id == s
    decreases l.id
  {
    if l.id.Child? {
      ChainInTree(tree, l.parent);
    }
    forall i | 0 <= i < |l.chain| ensures l.chain[i].id == Chain(l.id)[i] {
      ChainIds(l, i);
    }
    ChainDistinct(l.id);
    forall s | s in Chain(l.id) ensures exists m :: m in l.chain && m.id == s {
      var i :| 0 <= i < |Chain(l.id)| && Chain(l.id)[i] == s;
      assert l.chain[i] in l.chain;
    }
  }

  lemma {:induction false} ChainFitsInTree(tree: set<BudgetLedger>, handles: seq<BudgetReservation>, l: BudgetLedger,
                                           amounts: Amounts, replaced: Amounts)
    requires ClosedTree(tree) && l in tree
    ensures ChainFits(LimitsIn(tree), Image(tree, handles), l.id, amounts, replaced)
       <==> forall m :: m in l.chain ==> LedgerFits(m.limits, m.used, m.reserved, amounts, replaced)
  {
    hide LedgerFits;
    ChainInTree(tree, l);
    ReadsInTree(tree, handles);
    hide ClosedTree, Image, LimitsIn, LimitOf, In;
  }

  /** What the tree as a value says of each ledger is what the ledger says. */
  lemma ReadsInTree(tree: set<BudgetLedger>, handles: seq<BudgetReservation>)
    requires ClosedTree(tree)
    ensures forall m :: m in tree ==>
      && LimitOf(LimitsIn(tree), m.id) == m.limits
      && In(Image(tree, handles).used, m.id) == m.used && In(Image(tree, handles).reserved, m.id) == m.reserved
  {
  }

  lemma ImageIs(tree: set<BudgetLedger>, handles: seq<BudgetReservation>)
    requires ClosedTree(tree)
    ensures Image(tree, handles) == Mem(UsedIn(tree), ReservedIn(tree), HeldIn(handles))
  {
  }

  lemma {:induction false} AddedAlong(tree: set<BudgetLedger>, l: BudgetLedger, before: map<ScopeId, Amounts>,
                                      after: map<ScopeId, Amounts>, amounts: Amounts)
    requires ClosedTree(tree) && l in tree
    requires before.Keys == after.Keys == set m | m in tree :: m.id
    requires forall m :: m in tree ==>
      after[m.id] == if m in l.chain then AddAll(before[m.id], amounts) else before[m.id]
    ensures after == AddAlong(before, l.id, amounts)
  {
    ChainInTree(tree, l);
  }

  lemma {:induction false} SubtractedAlong(tree: set<BudgetLedger>, l: BudgetLedger, mem: Mem,
                                           after: map<ScopeId, Amounts>, held: Amounts)
    requires ClosedTree(tree) && l in tree && CoveredAlong(mem, l.id, held)
    requires mem.reserved.Keys == after.Keys == set m | m in tree :: m.id
    requires forall m :: m in tree && m in l.chain ==> CoveredBy(held, mem.reserved[m.id])
    requires forall m :: m in tree ==>
      after[m.id] == if m in l.chain then SubtractAll(mem.reserved[m.id], held) else mem.reserved[m.id]
    ensures after == SubtractAlong(mem, l.id, held)
  {
    ChainInTree(tree, l);
  }

  lemma {:induction false} CoveredInTree(tree: set<BudgetLedger>, handles: seq<BudgetReservation>, l: BudgetLedger,
                                         held: Amounts)
    requires ClosedTree(tree) && l in tree
    ensures CoveredAlong(Image(tree, handles), l.id, held) <==> forall m :: m in l.chain ==> CoveredBy(held, m.reserved)
  {
    hide CoveredBy;
    ChainInTree(tree, l);
    ReadsInTree(tree, handles);
    hide ClosedTree, Image, In;
  }

  lemma {:induction false} ReserveVerdictInTree(tree: set<BudgetLedger>, handles: seq<BudgetReservation>,
                                                l: BudgetLedger, amounts: Amounts)
    requires ClosedTree(tree) && l in tree
    ensures HoldVerdict(l.chain, amounts) == MemReserve(LimitsIn(tree), Image(tree, handles), l.id, amounts).1
  {
    ChainFitsInTree(tree, handles, l, amounts, map[]);
    hide ChainFits, UsedIn, ReservedIn, LimitsIn, HeldIn, AddAlong;
  }

  lemma {:induction false} SettleVerdictInTree(tree: set<BudgetLedger>, handles: seq<BudgetReservation>, i: nat,
                                               actual: Option<Amounts>)
    requires ClosedTree(tree) && i < |handles| && handles[i].ledger in tree
    ensures handles[i].SettleVerdict(actual) == MemFinish(LimitsIn(tree), Image(tree, handles), i, actual).1
  {
    ChainFitsInTree(tree, handles, handles[i].ledger, FinalAmounts(actual), handles[i].amounts);
    CoveredInTree(tree, handles, handles[i].ledger, handles[i].amounts);
    hide ChainFits, UsedIn, ReservedIn, LimitsIn, AddAlong, SubtractAlong, CoveredAlong;
  }

  // ----- what a call does to the tree as a whole -----

  /** The hold is on top of what every ledger of the chain had reserved, and no other changed. */
  twostate predicate HoldAdded(tree: set<BudgetLedger>, new l: BudgetLedger, new amounts: Amounts)
    reads tree`reserved
  {
    forall m :: m in tree ==>
      m.reserved == if m in l.chain then AddAll(old(m.reserved), amounts) else old(m.reserved)
  }

  /** The charge is on top of what every ledger of the chain had used, and no other changed. */
  twostate predicate ChargeAdded(tree: set<BudgetLedger>, new l: BudgetLedger, new amounts: Amounts)
    reads tree`used
  {
    forall m :: m in tree ==> m.used == if m in l.chain then AddAll(old(m.used), amounts) else old(m.used)
  }

  /** No ledger changed. */
  twostate predicate Untouched(tree: set<BudgetLedger>)
    reads tree
  {
    forall m :: m in tree ==> m.used == old(m.used) && m.reserved == old(m.reserved)
  }

  /** Reservation `i` is spent, the others are as they were. */
  twostate predicate MarkDropped(handles: seq<BudgetReservation>, new i: nat)
    reads handles
  {
    i < |handles| && !handles[i].active && forall h :: h in handles && h != handles[i] ==> h.active == old(h.active)
  }

  twostate lemma UsedStays(tree: set<BudgetLedger>)
    requires ClosedTree(tree) && forall m :: m in tree ==> m.used == old(m.used)
    ensures UsedIn(tree) == old(UsedIn(tree))
  {
  }

  twostate lemma ReservedStays(tree: set<BudgetLedger>)
    requires ClosedTree(tree) && Untouched(tree)
    ensures ReservedIn(tree) == old(ReservedIn(tree))
  {
  }

  twostate lemma HeldStays(handles: seq<BudgetReservation>)
    requires forall h :: h in handles ==> h.active == old(h.active)
    ensures HeldIn(handles) == old(HeldIn(handles))
  {
  }

  twostate lemma UsedGrown(tree: set<BudgetLedger>, new l: BudgetLedger, new amounts: Amounts)
    requires ClosedTree(tree) && l in tree && ChargeAdded(tree, l, amounts)
    ensures UsedIn(tree) == AddAlong(old(UsedIn(tree)), l.id, amounts)
  {
    AddedAlong(tree, l, old(UsedIn(tree)), UsedIn(tree), amounts);
  }

  /** The reserved figures of the tree, now and before, are those of its ledgers. */
  twostate lemma ReservedReads(tree: set<BudgetLedger>)
    requires ClosedTree(tree)
    ensures ReservedIn(tree).Keys == old(ReservedIn(tree)).Keys == set m | m in tree :: m.id
    ensures forall m :: m in tree ==>
      ReservedIn(tree)[m.id] == m.reserved && old(ReservedIn(tree))[m.id] == old(m.reserved)
  {
  }

  twostate lemma ReservedGrown(tree: set<BudgetLedger>, new l: BudgetLedger, new amounts: Amounts)
    requires ClosedTree(tree) && l in tree
    requires HoldAdded(tree, l, amounts)
    ensures ReservedIn(tree) == AddAlong(old(ReservedIn(tree)), l.id, amounts)
  {
    ReservedReads(tree);
    hide ClosedTree, ReservedIn, AddAll, AddAlong;
    AddedAlong(tree, l, old(ReservedIn(tree)), ReservedIn(tree), amounts);
  }

  /** The hold is off every ledger of the chain, where it was covered, and no other changed. */
  twostate predicate HoldDropped(tree: set<BudgetLedger>, new l: BudgetLedger, new held: Amounts)
    reads tree`reserved
  {
    && (forall m :: m in tree && m in l.chain ==> CoveredBy(held, old(m.reserved)))
    && forall m :: m in tree ==>
         m.reserved == if m in l.chain then SubtractAll(old(m.reserved), held) else old(m.reserved)
  }

  twostate lemma ReservedDropped(tree: set<BudgetLedger>, new l: BudgetLedger, new held: Amounts, new before: Mem)
    requires ClosedTree(tree) && l in tree && HoldDropped(tree, l, held)
    requires before.reserved == old(ReservedIn(tree)) && CoveredAlong(before, l.id, held)
    ensures ReservedIn(tree) == SubtractAlong(before, l.id, held)
  {
    ReservedReads(tree);
    hide ClosedTree, ReservedIn, SubtractAlong, CoveredAlong, CoveredBy, SubtractAll;
    SubtractedAlong(tree, l, before, ReservedIn(tree), held);
  }

  twostate lemma HeldWithout(handles: seq<BudgetReservation>, new i: nat)
    requires DistinctHandles(handles) && MarkDropped(handles, i)
    ensures HeldIn(handles) == Dropped(old(HeldIn(handles)), i)
  {
  }

  // ----- calls on the objects of a tree -----

  /** The reservations handed out on a tree, each once. */
  ghost predicate HandedOut(tree: set<BudgetLedger>, handles: seq<BudgetReservation>) {
    DistinctHandles(handles) && forall h :: h in handles ==> h.ledger in tree
  }

  /** What a reservation does to each ledger and each reservation handed out before. */
  method ReserveEach(ghost tree: set<BudgetLedger>, ghost handles: seq<BudgetReservation>, l: BudgetLedger,
                     raw: map<string, int>) returns (v: Verdict, r: BudgetReservation?)
    requires l.Linked()
    modifies l.chain`reserved
    ensures v == InvalidInput <==> Normalized(raw, true).None?
    ensures v != InvalidInput ==> v == old(HoldVerdict(l.chain, Normalized(raw, true).value))
    ensures forall m :: m in tree ==> m.used == old(m.used)
    ensures forall h :: h in handles ==> h.active == old(h.active)
    ensures v == Accepted ==> HoldAdded(tree, l, Normalized(raw, true).value)
    ensures v != Accepted ==> Untouched(tree)
    ensures if v == Accepted then
        r != null && fresh(r) && r.active && r.ledger == l && r.amounts == Normalized(raw, true).value
      else r == null
  {
    hide HoldVerdict, Normalized, AddAll;
    v, r := l.Reserve(raw);
  }

  /** What a reservation leaves in the dictionaries of all the ledgers. */
  method ReserveOnTables(ghost tree: set<BudgetLedger>, ghost handles: seq<BudgetReservation>, l: BudgetLedger,
                         raw: map<string, int>) returns (v: Verdict, r: BudgetReservation?)
    requires ClosedTree(tree) && l in tree && l.Linked()
    modifies l.chain`reserved
    ensures v == InvalidInput <==> Normalized(raw, true).None?
    ensures v != InvalidInput ==> v == old(HoldVerdict(l.chain, Normalized(raw, true).value))
    ensures UsedIn(tree) == old(UsedIn(tree)) && HeldIn(handles) == old(HeldIn(handles))
    ensures ReservedIn(tree) == if v == Accepted then AddAlong(old(ReservedIn(tree)), l.id, Normalized(raw, true).value)
                                else old(ReservedIn(tree))
    ensures if v == Accepted then
        r != null && fresh(r) && r.active && r.ledger == l && r.amounts == Normalized(raw, true).value
      else r == null
  {
    hide ClosedTree, UsedIn, ReservedIn, HeldIn, HoldVerdict, Normalized, AddAlong, HoldAdded, Untouched,
      BudgetLedger.Linked;
    v, r := ReserveEach(tree, handles, l, raw);
    UsedStays(tree);
    HeldStays(handles);
    if v == Accepted {
      ReservedGrown(tree, l, Normalized(raw, true).value);
    } else {
      ReservedStays(tree);
    }
  }

  /** Reserving through any ledger of a tree is the specified reservation on the whole tree. */
  method ReserveInTree(ghost tree: set<BudgetLedger>, ghost handles: seq<BudgetReservation>, l: BudgetLedger,
                       raw: map<string, int>) returns (v: Verdict, r: BudgetReservation?)
    requires ClosedTree(tree) && l in tree && HandedOut(tree, handles)
    modifies l.chain`reserved
    ensures HandedOut(tree, WithHandle(handles, r))
    ensures v == InvalidInput <==> Normalized(raw, true).None?
    ensures (Image(tree, WithHandle(handles, r)), v) ==
            if v == InvalidInput then (old(Image(tree, handles)), v)
            else MemReserve(LimitsIn(tree), old(Image(tree, handles)), l.id, Normalized(raw, true).value)
  {
    assert l.Linked();
    hide ClosedTree, Image, UsedIn, ReservedIn, HeldIn, LimitsIn, MemReserve, HoldVerdict, Normalized, AddAlong;
    if Normalized(raw, true).Some? {
      ReserveVerdictInTree(tree, handles, l, Normalized(raw, true).value);
    }
    ghost var before := Image(tree, handles);
    ImageIs(tree, handles);
    v, r := ReserveOnTables(tree, handles, l, raw);
    if r != null {
      HeldWith(handles, r);
      ImageIs(tree, handles + [r]);
      ReserveCombines(LimitsIn(tree), before, Image(tree, handles + [r]), l.id, Normalized(raw, true).value);
    } else {
      ImageIs(tree, handles);
      if v != InvalidInput {
        RefusedReserve(LimitsIn(tree), before, l.id, Normalized(raw, true).value);
      }
    }
  }

  lemma ReserveCombines(limits: Limits, before: Mem, after: Mem, scope: ScopeId, amounts: Amounts)
    requires MemReserve(limits, before, scope, amounts).1 == Accepted
    requires after.used == before.used && after.reserved == AddAlong(before.reserved, scope, amounts)
    requires after.handles == before.handles + [HeldRow(scope, amounts, true)]
    ensures (after, Accepted) == MemReserve(limits, before, scope, amounts)
  {
    hide ChainFits, AddAlong;
  }

  lemma RefusedReserve(limits: Limits, mem: Mem, scope: ScopeId, amounts: Amounts)
    ensures MemReserve(limits, mem, scope, amounts).1 != Accepted ==>
      MemReserve(limits, mem, scope, amounts) == (mem, Exceeded)
  {
    hide ChainFits, AddAlong;
  }

  ghost function Dropped(held: seq<HeldRow>, i: nat): seq<HeldRow> {
    if i < |held| then held[i := held[i].(active := false)] else held
  }

  /** What an ending does to each ledger and each reservation. */
  method SettleEach(ghost tree: set<BudgetLedger>, ghost handles: seq<BudgetReservation>, ghost i: nat,
                    h: BudgetReservation, actual: Option<Amounts>) returns (v: Verdict)
    requires h.ledger in tree && h.ledger.Linked() && i < |handles| && handles[i] == h
    requires h.SettleVerdict(actual) == Accepted ==> AllCovered(h.ledger.chain, h.amounts)
    modifies h.ledger.chain, h
    ensures v == old(h.SettleVerdict(actual))
    ensures v == Accepted ==>
      && ChargeAdded(tree, h.ledger, FinalAmounts(actual)) && HoldDropped(tree, h.ledger, h.amounts)
      && MarkDropped(handles, i)
    ensures v != Accepted && v != Corrupt ==> Untouched(tree) && forall r :: r in handles ==> r.active == old(r.active)
  {
    hide AddAll, SubtractAll, CoveredBy, FinalAmounts, BudgetReservation.SettleVerdict;
    v := h.Settle(actual);
  }

  /** What an ending leaves in the dictionaries of all the ledgers. */
  method SettleOnTables(ghost tree: set<BudgetLedger>, ghost handles: seq<BudgetReservation>, ghost i: nat,
                        h: BudgetReservation, actual: Option<Amounts>, ghost before: Mem) returns (v: Verdict)
    requires ClosedTree(tree) && DistinctHandles(handles) && i < |handles| && handles[i] == h
    requires before == Mem(UsedIn(tree), ReservedIn(tree), HeldIn(handles))
    requires h.ledger in tree && h.ledger.Linked()
    requires h.SettleVerdict(actual) == Accepted ==>
      CoveredAlong(before, h.ledger.id, h.amounts) && AllCovered(h.ledger.chain, h.amounts)
    modifies h.ledger.chain, h
    ensures v == old(h.SettleVerdict(actual))
    ensures v == Accepted ==> UsedIn(tree) == AddAlong(before.used, h.ledger.id, FinalAmounts(actual))
    ensures v == Accepted ==>
      CoveredAlong(before, h.ledger.id, h.amounts) && ReservedIn(tree) == SubtractAlong(before, h.ledger.id, h.amounts)
    ensures v == Accepted ==> HeldIn(handles) == Dropped(before.handles, i)
    ensures v != Accepted && v != Corrupt ==> before == Mem(UsedIn(tree), ReservedIn(tree), HeldIn(handles))
  {
    hide ClosedTree, UsedIn, ReservedIn, HeldIn, AddAlong, SubtractAlong, CoveredAlong, AllCovered;
    hide HoldDropped, ChargeAdded, MarkDropped, BudgetReservation.SettleVerdict, DistinctHandles, FinalAmounts, Dropped;
    v := SettleEach(tree, handles, i, h, actual);
    if v == Accepted {
      UsedGrown(tree, h.ledger, FinalAmounts(actual));
      ReservedDropped(tree, h.ledger, h.amounts, before);
      HeldWithout(handles, i);
    } else if v != Corrupt {
      UsedStays(tree);
      ReservedStays(tree);
      HeldStays(handles);
    }
  }

  /** Reconciling or cancelling any reservation of a tree is the specified ending on the whole tree. */
  method SettleInTree(ghost tree: set<BudgetLedger>, ghost handles: seq<BudgetReservation>, ghost i: nat,
                      h: BudgetReservation, actual: Option<Amounts>) returns (v: Verdict)
    requires ClosedTree(tree) && HandedOut(tree, handles) && i < |handles| && handles[i] == h
    modifies h.ledger.chain, h
    ensures v == MemFinish(LimitsIn(tree), old(Image(tree, handles)), i, actual).1
    ensures v != Corrupt ==> Image(tree, handles) == MemFinish(LimitsIn(tree), old(Image(tree, handles)), i, actual).0
  {
    assert h in handles && h.ledger in tree;
    ghost var before := Image(tree, handles);
    SettleVerdictInTree(tree, handles, i, actual);
    HoldIsCovered(tree, handles, i, actual);
    assert i < |before.handles| && before.handles[i] == HeldRow(h.ledger.id, h.amounts, h.active);
    hide ClosedTree, Image, UsedIn, ReservedIn, HeldIn, LimitsIn, MemFinish, AddAlong, SubtractAlong, CoveredAlong;
    ImageIs(tree, handles);
    v := SettleOnTables(tree, handles, i, h, actual, before);
    ImageIs(tree, handles);
    if v == Accepted {
      FinishCombines(LimitsIn(tree), before, Image(tree, handles), i, actual);
    } else if v != Corrupt {
      RefusedFinish(LimitsIn(tree), before, i, actual);
    }
  }

  lemma HoldIsCovered(tree: set<BudgetLedger>, handles: seq<BudgetReservation>, i: nat, actual: Option<Amounts>)
    requires ClosedTree(tree) && i < |handles| && handles[i].ledger in tree
    ensures MemFinish(LimitsIn(tree), Image(tree, handles), i, actual).1 == Accepted ==>
      && CoveredAlong(Image(tree, handles), handles[i].ledger.id, handles[i].amounts)
      && AllCovered(handles[i].ledger.chain, handles[i].amounts)
  {
    CoveredInTree(tree, handles, handles[i].ledger, handles[i].amounts);
    hide ChainFits, CoveredAlong, CoveredBy, AddAlong, SubtractAlong, UsedIn, ReservedIn, LimitsIn;
  }

  lemma FinishCombines(limits: Limits, before: Mem, after: Mem, i: nat, actual: Option<Amounts>)
    requires i < |before.handles| && MemFinish(limits, before, i, actual).1 == Accepted
    requires CoveredAlong(before, before.handles[i].scope, before.handles[i].amounts)
    requires after.used == AddAlong(before.used, before.handles[i].scope, FinalAmounts(actual))
    requires after.reserved == SubtractAlong(before, before.handles[i].scope, before.handles[i].amounts)
    requires after.handles == Dropped(before.handles, i)
    ensures (after, Accepted) == MemFinish(limits, before, i, actual)
  {
    hide ChainFits, CoveredAlong, AddAlong, SubtractAlong;
  }

  lemma RefusedFinish(limits: Limits, mem: Mem, i: nat, actual: Option<Amounts>)
    ensures var (after, v) := MemFinish(limits, mem, i, actual); v != Accepted ==>
      (mem, v) == MemFinish(limits, mem, i, actual)
  {
    hide ChainFits, CoveredAlong, AddAlong, SubtractAlong;
  }
}
