/** The in-memory ledgers as linked objects, updated in place along the parent links. */
module BudgetLedgers {
  import opened Scopes
  import opened BudgetBook
  import opened LedgerSpec

  class BudgetLedger {
    ghost const id: ScopeId
    const limits: Amounts
    const parent: BudgetLedger?
    ghost const chain: seq<BudgetLedger>
    var used: Amounts
    var reserved: Amounts

    /** The parent links form the chain of ledgers from the root down to this one. */
    ghost predicate Linked()
      decreases id
    {
      && |chain| == id.Depth() + 1 && chain[id.Depth()] == this
      && match id
         case Root(_) => parent == null
         case Child(p, _) => parent != null && parent.id == p && parent.Linked() && chain == parent.chain + [this]
    }

    constructor (name: string, limits: Amounts, parent: BudgetLedger?)
      requires name != "" && (parent != null ==> parent.Linked())
      ensures Linked() && this.limits == limits && this.parent == parent
      ensures id == if parent == null then Root(name) else Child(parent.id, name)
      ensures used == map[] && reserved == map[]
    {
      this.id := if parent == null then Root(name) else Child(parent.id, name);
      this.limits := limits;
      this.parent := parent;
      this.chain := if parent == null then [this] else parent.chain + [this];
      used, reserved := map[], map[];
    }

    /** Follows the parent links; the links of a ledger can never come back to it. */
    method CollectChain() returns (ledgers: seq<BudgetLedger>)
      requires Linked()
      ensures ledgers == chain
    {
      ledgers := [];
      var current: BudgetLedger? := this;
      while current != null
        invariant current != null ==> current.Linked() && chain == current.chain + ledgers
        invariant current == null ==> ledgers == chain
        decreases if current == null then 0 else current.id.Depth() + 1
      {
        ledgers := [current] + ledgers;
        current := current.parent;
      }
    }

    /** Reserves capacity in this ledger and all its ancestors, or changes nothing. */
    method Reserve(raw: map<string, int>) returns (v: Verdict, reservation: BudgetReservation?)
      requires Linked()
      modifies chain`reserved
      ensures v == InvalidInput <==> Normalized(raw, true).None?
      ensures v != InvalidInput ==> v == old(HoldVerdict(chain, Normalized(raw, true).value))
      ensures forall l :: l in chain ==>
        l.reserved == if v == Accepted then AddAll(old(l.reserved), Normalized(raw, true).value) else old(l.reserved)
      ensures v == Accepted <==> reservation != null
      ensures reservation != null ==>
        && fresh(reservation) && reservation.active
        && reservation.ledger == this && reservation.amounts == Normalized(raw, true).value
    {
      reservation := null;
      var normalized := ValidateAmounts(raw, true);
      if normalized.None? {
        return InvalidInput, null;
      }
      var ledgers := CollectChain();
      DistinctLedgers(this);
      var ok := CheckCapacity(ledgers, normalized.value, map[]);
      if !ok {
        return Exceeded, null;
      }
      AddReservedAlong(ledgers, normalized.value);
      reservation := new BudgetReservation(this, normalized.value);
      v := Accepted;
    }
  }

  ghost predicate AllFit(ledgers: seq<BudgetLedger>, amounts: Amounts, replaced: Amounts)
    reads ledgers
  {
    forall l :: l in ledgers ==> LedgerFits(l.limits, l.used, l.reserved, amounts, replaced)
  }

  ghost predicate AllCovered(ledgers: seq<BudgetLedger>, held: Amounts)
    reads ledgers
  {
    forall l :: l in ledgers ==> CoveredBy(held, l.reserved)
  }

  ghost function HoldVerdict(ledgers: seq<BudgetLedger>, amounts: Amounts): Verdict
    reads ledgers
  {
    if AllFit(ledgers, amounts, map[]) then Accepted else Exceeded
  }

  class BudgetReservation {
    const ledger: BudgetLedger
    const amounts: Amounts
    var active: bool

    constructor (ledger: BudgetLedger, amounts: Amounts)
      ensures this.ledger == ledger && this.amounts == amounts && active
    {
      this.ledger := ledger;
      this.amounts := amounts;
      active := true;
    }

    ghost function SettleVerdict(actual: Option<Amounts>): Verdict
      reads this, ledger.chain
    {
      if !active then Inactive
      else if !AllFit(ledger.chain, FinalAmounts(actual), amounts) then Exceeded
      else if !AllCovered(ledger.chain, amounts) then Corrupt
      else Accepted
    }

    /** Replaces the hold by the actual charge at every level; on refusal nothing changes. */
    method Reconcile(raw: map<string, int>) returns (v: Verdict)
      requires ledger.Linked()
      modifies ledger.chain, this
      ensures v == InvalidInput <==> Normalized(raw, true).None?
      ensures v != InvalidInput ==> v == old(SettleVerdict(Some(Normalized(raw, true).value)))
      ensures v == Accepted ==> !active && forall l :: l in ledger.chain ==>
        l.reserved == SubtractAll(old(l.reserved), amounts) &&
          l.used == AddAll(old(l.used), Normalized(raw, true).value)
      ensures v != Accepted && v != Corrupt ==> unchanged(this) && unchanged(ledger.chain)
    {
      var normalized := ValidateAmounts(raw, true);
      if normalized.None? {
        return InvalidInput;
      }
      v := Settle(Some(normalized.value));
    }

    /** Gives the hold back without charging anything. */
    method Cancel() returns (v: Verdict)
      requires ledger.Linked()
      modifies ledger.chain, this
      ensures v == old(SettleVerdict(None))
      ensures v == Accepted ==> !active && forall l :: l in ledger.chain ==>
        l.reserved == SubtractAll(old(l.reserved), amounts) && l.used == AddAll(old(l.used), map[])
      ensures v != Accepted && v != Corrupt ==> unchanged(this) && unchanged(ledger.chain)
    {
      v := Settle(None);
    }

    method Settle(actual: Option<Amounts>) returns (v: Verdict)
      requires ledger.Linked()
      modifies ledger.chain, this
      ensures v == old(SettleVerdict(actual))
      ensures v == Accepted ==> !active && forall l :: l in ledger.chain ==>
        l.reserved == SubtractAll(old(l.reserved), amounts) && l.used == AddAll(old(l.used), FinalAmounts(actual))
      ensures v != Accepted && v != Corrupt ==> unchanged(this) && unchanged(ledger.chain)
    {
      var ledgers := ledger.CollectChain();
      DistinctLedgers(ledger);
      if !active {
        return Inactive;
      }
      var final, ok := FinalAmounts(actual), true;
      if actual.Some? {
        ok := CheckCapacity(ledgers, final, amounts);
        if !ok {
          return Exceeded;
        }
      }
      ok := MoveAlong(ledgers, amounts, final);
      if !ok {
        return Corrupt;
      }
      active := false;
      v := Accepted;
    }
  }

  lemma {:induction false} ChainIds(l: BudgetLedger, i: nat)
    requires l.Linked() && i < |l.chain|
    ensures l.chain[i].Linked() && l.chain[i].id == Chain(l.id)[i]
    decreases l.id
  {
    if l.id.Child? && i < |l.parent.chain| {
      ChainIds(l.parent, i);
    }
  }

  lemma {:induction false} DistinctLedgers(l: BudgetLedger)
    requires l.Linked()
    ensures forall i, j :: 0 <= i < j < |l.chain| ==> l.chain[i] != l.chain[j]
  {
    forall i | 0 <= i < |l.chain| ensures l.chain[i].id == Chain(l.id)[i] {
      ChainIds(l, i);
    }
    ChainDistinct(l.id);
  }

  // ----- the loops over a locked chain -----

  method CheckCapacity(ledgers: seq<BudgetLedger>, amounts: Amounts, replaced: Amounts) returns (ok: bool)
    ensures ok <==> forall l :: l in ledgers ==> LedgerFits(l.limits, l.used, l.reserved, amounts, replaced)
  {
    for i := 0 to |ledgers|
      invariant forall j :: 0 <= j < i ==>
        LedgerFits(ledgers[j].limits, ledgers[j].used, ledgers[j].reserved, amounts, replaced)
    {
      var l := ledgers[i];
      var todo := amounts.Keys;
      while todo != {}
        invariant todo <= amounts.Keys
        invariant forall c :: c in amounts && c !in todo && c in l.limits ==>
          At(l.used, c) + At(l.reserved, c) - At(replaced, c) + amounts[c] <= l.limits[c]
        decreases todo
      {
        var c :| c in todo;
        if c in l.limits && At(l.used, c) + At(l.reserved, c) - At(replaced, c) + amounts[c] > l.limits[c] {
          assert !LedgerFits(l.limits, l.used, l.reserved, amounts, replaced);
          return false;
        }
        todo := todo - {c};
      }
    }
    ok := true;
  }

  method AddInto(target: Amounts, amounts: Amounts) returns (sum: Amounts)
    ensures sum == AddAll(target, amounts)
  {
    sum := target;
    var todo := amounts.Keys;
    while todo != {}
      invariant todo <= amounts.Keys
      invariant sum.Keys == target.Keys + (amounts.Keys - todo)
      invariant forall c :: c in sum ==> sum[c] == if c in todo then At(target, c) else At(target, c) + At(amounts, c)
      decreases todo
    {
      var c :| c in todo;
      sum := sum[c := At(sum, c) + amounts[c]];
      todo := todo - {c};
    }
  }

  /** Stops at the first counter that does not hold enough. */
  method SubtractFrom(target: Amounts, amounts: Amounts) returns (rest: Amounts, ok: bool)
    ensures ok <==> CoveredBy(amounts, target)
    ensures ok ==> rest == SubtractAll(target, amounts)
  {
    rest := target;
    var todo := amounts.Keys;
    while todo != {}
      invariant todo <= amounts.Keys
      invariant forall c :: c in amounts && c !in todo ==> amounts[c] <= At(target, c)
      invariant forall c :: c in rest <==> c in target && !(c in amounts && c !in todo && target[c] == amounts[c])
      invariant forall c :: c in rest ==> rest[c] == if c in todo then target[c] else target[c] - At(amounts, c)
      decreases todo
    {
      var c :| c in todo;
      var remaining := At(rest, c) - amounts[c];
      if remaining < 0 {
        return rest, false;
      }
      if remaining != 0 {
        rest := rest[c := remaining];
      } else {
        rest := rest - {c};
      }
      todo := todo - {c};
    }
    ok := true;
  }

  /** Takes the hold off every ledger and puts the charge in its place. */
  method MoveAlong(ledgers: seq<BudgetLedger>, held: Amounts, charged: Amounts) returns (ok: bool)
    requires forall i, j :: 0 <= i < j < |ledgers| ==> ledgers[i] != ledgers[j]
    modifies ledgers
    ensures ok <==> forall l :: l in ledgers ==> CoveredBy(held, old(l.reserved))
    ensures ok ==> forall l :: l in ledgers ==>
      l.reserved == SubtractAll(old(l.reserved), held) && l.used == AddAll(old(l.used), charged)
  {
    for i := 0 to |ledgers|
      invariant forall j :: 0 <= j < i ==>
        && CoveredBy(held, old(ledgers[j].reserved))
        && ledgers[j].reserved == SubtractAll(old(ledgers[j].reserved), held)
        && ledgers[j].used == AddAll(old(ledgers[j].used), charged)
      invariant forall j :: i <= j < |ledgers| ==>
        ledgers[j].reserved == old(ledgers[j].reserved) && ledgers[j].used == old(ledgers[j].used)
    {
      var rest;
      rest, ok := SubtractFrom(ledgers[i].reserved, held);
      if !ok {
        return;
      }
      var sum := AddInto(ledgers[i].used, charged);
      ledgers[i].reserved := rest;
      ledgers[i].used := sum;
    }
    ok := true;
  }

  method AddReservedAlong(ledgers: seq<BudgetLedger>, amounts: Amounts)
    requires forall i, j :: 0 <= i < j < |ledgers| ==> ledgers[i] != ledgers[j]
    modifies ledgers`reserved
    ensures forall l :: l in ledgers ==> l.reserved == AddAll(old(l.reserved), amounts)
  {
    for i := 0 to |ledgers|
      invariant forall j :: 0 <= j < i ==> ledgers[j].reserved == AddAll(old(ledgers[j].reserved), amounts)
      invariant forall j :: i <= j < |ledgers| ==> ledgers[j].reserved == old(ledgers[j].reserved)
    {
      var sum := AddInto(ledgers[i].reserved, amounts);
      ledgers[i].reserved := sum;
    }
  }
}
