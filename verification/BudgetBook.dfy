/** The reference accounting for hierarchical budgets: no counters at all, only the list
    of reservations ever made. What a scope has reserved or used is read off that list by
    summing over its subtree. The three real stores keep running counters instead. */
module BudgetBook {
  import opened Scopes

  datatype EntryState = Held | Charged(actual: Amounts) | Released
  datatype Entry = Entry(scope: ScopeId, amounts: Amounts, state: EntryState)
  type Book = seq<Entry>

  datatype Verdict =
    | Accepted
    | InvalidInput
    | UnknownScope
    | UnknownReservation
    | Inactive
    | CounterLimit
    | Exceeded
    | ScopeExists
    | TooDeep
    | LimitsChanged
    | Corrupt

  /** `Finish(i, Some(actual))` reconciles reservation `i`, `Finish(i, None)` cancels it. */
  datatype Op =
    | Reserve(scope: ScopeId, amounts: Amounts)
    | Finish(index: nat, actual: Option<Amounts>)

  type Limits = map<ScopeId, Amounts>

  function HeldUnder(e: Entry, s: ScopeId, c: string): nat {
    if e.state.Held? && Under(e.scope, s) then At(e.amounts, c) else 0
  }

  function ChargedUnder(e: Entry, s: ScopeId, c: string): nat {
    if e.state.Charged? && Under(e.scope, s) then At(e.state.actual, c) else 0
  }

  /** What the active reservations in the subtree of `s` hold of counter `c`. */
  function Reserved(b: Book, s: ScopeId, c: string): nat {
    if |b| == 0 then 0 else Reserved(b[..|b| - 1], s, c) + HeldUnder(b[|b| - 1], s, c)
  }

  /** What the reconciled reservations in the subtree of `s` charged to counter `c`. */
  function Used(b: Book, s: ScopeId, c: string): nat {
    if |b| == 0 then 0 else Used(b[..|b| - 1], s, c) + ChargedUnder(b[|b| - 1], s, c)
  }

  ghost predicate FitsAt(b: Book, limit: Amounts, s: ScopeId, amounts: Amounts, replaced: Amounts) {
    forall c :: c in amounts && c in limit ==>
      Used(b, s, c) + Reserved(b, s, c) - At(replaced, c) + amounts[c] <= limit[c]
  }

  function LimitOf(limits: Limits, s: ScopeId): Amounts {
    if s in limits then limits[s] else map[]
  }

  ghost predicate Fits(b: Book, limits: Limits, scope: ScopeId, amounts: Amounts, replaced: Amounts) {
    forall s :: s in Chain(scope) ==> FitsAt(b, LimitOf(limits, s), s, amounts, replaced)
  }

  function FinalAmounts(actual: Option<Amounts>): Amounts {
    if actual.Some? then actual.value else map[]
  }

  function Settled(e: Entry, actual: Option<Amounts>): Entry {
    e.(state := if actual.Some? then Charged(actual.value) else Released)
  }

  ghost function Step(limits: Limits, b: Book, op: Op): (r: (Book, Verdict)) {
    match op
    case Reserve(scope, amounts) =>
      if Fits(b, limits, scope, amounts, map[]) then (b + [Entry(scope, amounts, Held)], Accepted)
      else (b, Exceeded)
    case Finish(i, actual) =>
      if i >= |b| then (b, UnknownReservation)
      else if !b[i].state.Held? then (b, Inactive)
      else if Fits(b, limits, b[i].scope, FinalAmounts(actual), b[i].amounts) then
        (b[i := Settled(b[i], actual)], Accepted)
      else (b, Exceeded)
  }

  // ----- how the sums move -----

  lemma SumsAppend(b: Book, e: Entry, s: ScopeId, c: string)
    ensures Reserved(b + [e], s, c) == Reserved(b, s, c) + HeldUnder(e, s, c)
    ensures Used(b + [e], s, c) == Used(b, s, c) + ChargedUnder(e, s, c)
  {
    assert (b + [e])[..|b|] == b;
  }

  lemma {:induction false} SumsReplace(b: Book, i: nat, e: Entry, s: ScopeId, c: string)
    requires i < |b|
    ensures Reserved(b[i := e], s, c) + HeldUnder(b[i], s, c) == Reserved(b, s, c) + HeldUnder(e, s, c)
    ensures Used(b[i := e], s, c) + ChargedUnder(b[i], s, c) == Used(b, s, c) + ChargedUnder(e, s, c)
  {
    var n := |b| - 1;
    if i == n {
      assert b[i := e][..n] == b[..n];
    } else {
      assert b[i := e][..n] == b[..n][i := e];
      SumsReplace(b[..n], i, e, s, c);
    }
  }

  /** The sums never fall below one entry's own share. */
  lemma {:induction false} SumsCover(b: Book, i: nat, s: ScopeId, c: string)
    requires i < |b|
    ensures Reserved(b, s, c) >= HeldUnder(b[i], s, c)
    ensures Used(b, s, c) >= ChargedUnder(b[i], s, c)
  {
    var n := |b| - 1;
    if i < n {
      SumsCover(b[..n], i, s, c);
    }
  }

  /** The effect of finishing, scope by scope: the hold goes, the charge comes. */
  lemma SumsSettle(b: Book, i: nat, actual: Option<Amounts>, s: ScopeId, c: string)
    requires i < |b| && b[i].state.Held?
    ensures var b' := b[i := Settled(b[i], actual)];
            if Under(b[i].scope, s) then
              && Reserved(b', s, c) == Reserved(b, s, c) - At(b[i].amounts, c)
              && Used(b', s, c) == Used(b, s, c) + At(FinalAmounts(actual), c)
            else Reserved(b', s, c) == Reserved(b, s, c) && Used(b', s, c) == Used(b, s, c)
  {
    SumsReplace(b, i, Settled(b[i], actual), s, c);
  }

  // ----- hard caps -----

  ghost predicate CapAt(limits: Limits, b: Book, s: ScopeId, c: string) {
    s in limits && c in limits[s] ==> Used(b, s, c) + Reserved(b, s, c) <= limits[s][c]
  }

  ghost predicate CapsHold(limits: Limits, b: Book) {
    forall s, c :: CapAt(limits, b, s, c)
  }

  lemma StepKeepsCaps(limits: Limits, b: Book, op: Op)
    requires CapsHold(limits, b)
    ensures CapsHold(limits, Step(limits, b, op).0)
  {
    var b' := Step(limits, b, op).0;
    forall s, c ensures CapAt(limits, b', s, c) {
      assert CapAt(limits, b, s, c);
      match op
      case Reserve(scope, amounts) =>
        SumsAppend(b, Entry(scope, amounts, Held), s, c);
        ChainIsAncestors(scope, s);
        if b' != b && s in Chain(scope) && c in amounts && s in limits {
          assert FitsAt(b, LimitOf(limits, s), s, amounts, map[]);
        }
      case Finish(i, actual) =>
        if b' != b {
          SumsSettle(b, i, actual, s, c);
          ChainIsAncestors(b[i].scope, s);
          if s in Chain(b[i].scope) && c in FinalAmounts(actual) && s in limits {
            assert FitsAt(b, LimitOf(limits, s), s, FinalAmounts(actual), b[i].amounts);
          }
        }
    }
  }

  /** What a reservation is for: charging no more than was reserved can never be refused,
      and neither can a cancellation, whatever else happened since. */
  lemma ReservationIsHonoured(limits: Limits, b: Book, i: nat, actual: Option<Amounts>)
    requires CapsHold(limits, b)
    requires i < |b| && b[i].state.Held?
    requires actual.Some? ==> forall c :: c in actual.value ==> actual.value[c] <= At(b[i].amounts, c)
    ensures Step(limits, b, Finish(i, actual)).1 == Accepted
  {
    var final := FinalAmounts(actual);
    forall s | s in Chain(b[i].scope) ensures FitsAt(b, LimitOf(limits, s), s, final, b[i].amounts) {
      forall c | c in final && c in LimitOf(limits, s)
        ensures Used(b, s, c) + Reserved(b, s, c) - At(b[i].amounts, c) + final[c] <= LimitOf(limits, s)[c]
      {
        assert CapAt(limits, b, s, c);
      }
    }
  }

  // ----- runs -----

  ghost function Run(limits: Limits, b: Book, ops: seq<Op>): Book
    decreases |ops|
  {
    if |ops| == 0 then b else Run(limits, Step(limits, b, ops[0]).0, ops[1..])
  }

  lemma {:induction false} RunKeepsCaps(limits: Limits, b: Book, ops: seq<Op>)
    requires CapsHold(limits, b)
    ensures CapsHold(limits, Run(limits, b, ops))
    decreases |ops|
  {
    if |ops| > 0 {
      StepKeepsCaps(limits, b, ops[0]);
      RunKeepsCaps(limits, Step(limits, b, ops[0]).0, ops[1..]);
    }
  }
}
