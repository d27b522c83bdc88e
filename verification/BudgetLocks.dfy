/** Concurrent calls on one tree of in-memory ledgers. A call takes the locks of its chain from
    the root down, checks and updates ledger by ledger, and gives the locks back from the leaf
    up; a snapshot takes only the lock of its own ledger. Any number of calls interleave. */
module BudgetLocks {
  import opened Scopes
  import opened BudgetBook
  import opened LedgerSpec

  /** `Settle` is called on a reservation object, which carries its scope and its amounts. */
  datatype Call =
    | Hold(scope: ScopeId, amounts: Amounts)
    | Settle(index: nat, scope: ScopeId, amounts: Amounts, actual: Option<Amounts>)
    | Look(scope: ScopeId)

  datatype Outcome = Decided(verdict: Verdict) | Seen(used: Amounts, reserved: Amounts)

  datatype Phase =
    | Locking(next: nat)
    | Checking(next: nat)
    | Updating(next: nat)
    | Releasing(left: nat, outcome: Outcome)
    | Returned(outcome: Outcome)

  datatype Thread = Thread(call: Call, phase: Phase)

  /** `log` is history: the calls in the order in which they took effect. */
  datatype Logged = Logged(thread: nat, call: Call, outcome: Outcome)
  datatype State = State(mem: Mem, owner: map<ScopeId, nat>, threads: seq<Thread>, log: seq<Logged>)

  function LockOrder(call: Call): (order: seq<ScopeId>)
    ensures |order| > 0
  {
    if call.Look? then [call.scope] else Chain(call.scope)
  }

  /** What the capacity check asks for, and what it disregards. */
  function Wanted(call: Call): Amounts {
    match call
    case Hold(_, amounts) => amounts
    case Settle(_, _, _, actual) => FinalAmounts(actual)
    case Look(_) => map[]
  }

  function Replacing(call: Call): Amounts {
    if call.Settle? then call.amounts else map[]
  }

  predicate FitsIn(limits: Limits, mem: Mem, s: ScopeId, call: Call) {
    LedgerFits(LimitOf(limits, s), In(mem.used, s), In(mem.reserved, s), Wanted(call), Replacing(call))
  }

  // ----- one step of one thread -----

  predicate Enabled(st: State, t: nat) {
    t < |st.threads| &&
    match st.threads[t].phase
    case Locking(k) => k >= |LockOrder(st.threads[t].call)| || LockOrder(st.threads[t].call)[k] !in st.owner
    case Returned(_) => false
    case _ => true
  }

  function GoTo(st: State, t: nat, phase: Phase): State
    requires t < |st.threads|
  {
    st.(threads := st.threads[t := st.threads[t].(phase := phase)])
  }

  /** The call has taken effect; what is left is giving the locks back. */
  function Conclude(st: State, t: nat, outcome: Outcome): State
    requires t < |st.threads|
  {
    GoTo(st, t, Releasing(|LockOrder(st.threads[t].call)|, outcome))
      .(log := st.log + [Logged(t, st.threads[t].call, outcome)])
  }

  function Locked(st: State, t: nat): State
    requires t < |st.threads|
  {
    var call := st.threads[t].call;
    match call
    case Look(s) => Conclude(st, t, Seen(In(st.mem.used, s), In(st.mem.reserved, s)))
    case Hold(_, _) => GoTo(st, t, Checking(0))
    case Settle(i, _, _, actual) =>
      if i >= |st.mem.handles| || !st.mem.handles[i].active then Conclude(st, t, Decided(Inactive))
      else GoTo(st, t, if actual.Some? then Checking(0) else Updating(0))
  }

  function UpdatedLedger(mem: Mem, call: Call, s: ScopeId): Mem
    requires call.Settle? ==> CoveredBy(call.amounts, In(mem.reserved, s))
  {
    match call
    case Hold(_, amounts) => mem.(reserved := mem.reserved[s := AddAll(In(mem.reserved, s), amounts)])
    case Settle(_, _, held, actual) =>
      mem.(reserved := mem.reserved[s := SubtractAll(In(mem.reserved, s), held)],
           used := mem.used[s := AddAll(In(mem.used, s), FinalAmounts(actual))])
    case Look(_) => mem
  }

  function UpdatedHandles(mem: Mem, call: Call): Mem {
    match call
    case Hold(scope, amounts) => mem.(handles := mem.handles + [HeldRow(scope, amounts, true)])
    case Settle(i, _, _, _) =>
      if i < |mem.handles| then mem.(handles := mem.handles[i := mem.handles[i].(active := false)]) else mem
    case Look(_) => mem
  }

  function Advance(limits: Limits, st: State, t: nat): State
    requires Enabled(st, t)
  {
    var call := st.threads[t].call;
    var order := LockOrder(call);
    match st.threads[t].phase
    case Locking(k) =>
      if k >= |order| then Locked(st, t)
      else GoTo(st, t, Locking(k + 1)).(owner := st.owner[order[k] := t])
    case Checking(k) =>
      if k >= |order| then GoTo(st, t, Updating(0))
      else if FitsIn(limits, st.mem, order[k], call) then GoTo(st, t, Checking(k + 1))
      else Conclude(st, t, Decided(Exceeded))
    case Updating(k) =>
      if k >= |order| then Conclude(st, t, Decided(Accepted)).(mem := UpdatedHandles(st.mem, call))
      else if call.Settle? && !CoveredBy(call.amounts, In(st.mem.reserved, order[k])) then
        Conclude(st, t, Decided(Corrupt))
      else GoTo(st, t, Updating(k + 1)).(mem := UpdatedLedger(st.mem, call, order[k]))
    case Releasing(k, outcome) =>
      if k == 0 || k > |order| then GoTo(st, t, Returned(outcome))
      else GoTo(st, t, Releasing(k - 1, outcome)).(owner := st.owner - {order[k - 1]})
    case Returned(_) => st
  }

  /** A new call may start at any time, on any scope of the tree and any reservation handed out. */
  predicate MayStart(root: ScopeId, st: State, call: Call) {
    && call.scope.RootOf() == root
    && (call.Settle? ==> SameHandle(st.mem, call))
  }

  predicate SameHandle(mem: Mem, call: Call)
    requires call.Settle?
  {
    call.index < |mem.handles| && mem.handles[call.index].scope == call.scope
    && mem.handles[call.index].amounts == call.amounts
  }

  datatype Move = Go(thread: nat) | Start(call: Call)

  predicate Allowed(root: ScopeId, st: State, move: Move) {
    match move
    case Go(t) => Enabled(st, t)
    case Start(call) => MayStart(root, st, call)
  }

  function Apply(limits: Limits, root: ScopeId, st: State, move: Move): State
    requires Allowed(root, st, move)
  {
    match move
    case Go(t) => Advance(limits, st, t)
    case Start(call) => st.(threads := st.threads + [Thread(call, Locking(0))])
  }

  // ----- whole calls, one after the other -----

  ghost function Atomic(limits: Limits, mem: Mem, call: Call): (r: (Mem, Outcome)) {
    match call
    case Hold(scope, amounts) =>
      var (mem', v) := MemReserve(limits, mem, scope, amounts);
      (mem', Decided(v))
    case Settle(i, _, _, actual) =>
      var (mem', v) := MemFinish(limits, mem, i, actual);
      (mem', Decided(v))
    case Look(s) => (mem, Seen(In(mem.used, s), In(mem.reserved, s)))
  }

  /** The dictionaries after the whole calls of `log`, in that order. */
  ghost function Serial(limits: Limits, mem: Mem, log: seq<Logged>): Mem
    decreases |log|
  {
    if |log| == 0 then mem else Atomic(limits, Serial(limits, mem, log[..|log| - 1]), log[|log| - 1].call).0
  }

  /** Every logged call returned what it returns when the calls are made one after the other. */
  ghost predicate Explained(limits: Limits, mem: Mem, log: seq<Logged>)
    decreases |log|
  {
    |log| > 0 ==>
      && log[|log| - 1].outcome == Atomic(limits, Serial(limits, mem, log[..|log| - 1]), log[|log| - 1].call).1
      && Explained(limits, mem, log[..|log| - 1])
  }

  lemma LogGrows(limits: Limits, mem: Mem, log: seq<Logged>, e: Logged)
    ensures Serial(limits, mem, log + [e]) == Atomic(limits, Serial(limits, mem, log), e.call).0
    ensures Explained(limits, mem, log + [e]) <==>
            Explained(limits, mem, log) && e.outcome == Atomic(limits, Serial(limits, mem, log), e.call).1
  {
    assert (log + [e])[..|log|] == log;
  }

  // ----- the invariant -----

  /** The locks a thread holds. */
  function Holding(th: Thread): seq<ScopeId> {
    var order := LockOrder(th.call);
    match th.phase
    case Locking(k) => if k <= |order| then order[..k] else order
    case Releasing(k, _) => if k <= |order| then order[..k] else order
    case Returned(_) => []
    case _ => order
  }

  predicate OwnerOk(st: State, s: ScopeId, t: nat) {
    (s in st.owner && st.owner[s] == t) <==> (t < |st.threads| && s in Holding(st.threads[t]))
  }

  ghost predicate OwnersOk(st: State) {
    forall s, t: nat :: OwnerOk(st, s, t)
  }

  predicate NotLogged(log: seq<Logged>, t: nat) {
    forall k :: 0 <= k < |log| ==> log[k].thread != t
  }

  predicate LoggedAs(log: seq<Logged>, t: nat, call: Call, outcome: Outcome) {
    exists k :: 0 <= k < |log| && log[k] == Logged(t, call, outcome)
  }

  predicate FitsUpTo(limits: Limits, mem: Mem, call: Call, k: nat) {
    k <= |LockOrder(call)| && forall j :: 0 <= j < k ==> FitsIn(limits, mem, LockOrder(call)[j], call)
  }

  predicate StillActive(mem: Mem, call: Call) {
    call.Settle? ==> call.index < |mem.handles| && mem.handles[call.index].active
  }

  ghost predicate ThreadOk(limits: Limits, root: ScopeId, serial: Mem, log: seq<Logged>, t: nat, th: Thread) {
    && th.call.scope.RootOf() == root
    && (th.call.Settle? ==> SameHandle(serial, th.call))
    && match th.phase
       case Locking(k) => k <= |LockOrder(th.call)| && NotLogged(log, t)
       case Checking(k) =>
         && !th.call.Look? && NotLogged(log, t)
         && StillActive(serial, th.call) && FitsUpTo(limits, serial, th.call, k)
       case Updating(k) =>
         && !th.call.Look? && NotLogged(log, t) && k <= |LockOrder(th.call)|
         && Atomic(limits, serial, th.call).1 == Decided(Accepted)
       case Releasing(k, outcome) => k <= |LockOrder(th.call)| && LoggedAs(log, t, th.call, outcome)
       case Returned(outcome) => LoggedAs(log, t, th.call, outcome)
  }

  /** Ledger `s` of a call that has updated the first `k` ledgers of its chain. */
  predicate PartlyAt(serial: Mem, mem: Mem, call: Call, k: nat, s: ScopeId)
    requires k <= |LockOrder(call)|
  {
    if s in LockOrder(call)[..k] then
      match call
      case Hold(_, amounts) =>
        In(mem.reserved, s) == AddAll(In(serial.reserved, s), amounts) && In(mem.used, s) == In(serial.used, s)
      case Settle(_, _, held, actual) =>
        && CoveredBy(held, In(serial.reserved, s))
        && In(mem.reserved, s) == SubtractAll(In(serial.reserved, s), held)
        && In(mem.used, s) == AddAll(In(serial.used, s), FinalAmounts(actual))
      case Look(_) => true
    else In(mem.reserved, s) == In(serial.reserved, s) && In(mem.used, s) == In(serial.used, s)
  }

  function ScopesOf(chain: seq<ScopeId>): set<ScopeId> {
    set s | s in chain
  }

  ghost predicate Partly(serial: Mem, mem: Mem, call: Call, k: nat)
    requires k <= |LockOrder(call)|
  {
    && mem.handles == serial.handles
    && mem.reserved.Keys == serial.reserved.Keys + ScopesOf(LockOrder(call)[..k])
    && mem.used.Keys == serial.used.Keys + (if call.Settle? then ScopesOf(LockOrder(call)[..k]) else {})
    && forall s :: PartlyAt(serial, mem, call, k, s)
  }

  predicate InUpdate(st: State, t: nat) {
    t < |st.threads| && st.threads[t].phase.Updating?
  }

  ghost predicate MemOk(serial: Mem, st: State) {
    && ((forall t: nat :: !InUpdate(st, t)) ==> st.mem == serial)
    && (forall t: nat :: InUpdate(st, t) ==>
          && st.threads[t].phase.next <= |LockOrder(st.threads[t].call)|
          && Partly(serial, st.mem, st.threads[t].call, st.threads[t].phase.next))
  }

  /** The log explains itself, names no call twice, and describes a consistent tree. */
  ghost predicate LogOk(limits: Limits, init: Mem, log: seq<Logged>, threads: nat) {
    && Explained(limits, init, log)
    && (forall i, j :: 0 <= i < j < |log| ==> log[i].thread != log[j].thread)
    && (forall i :: 0 <= i < |log| ==> log[i].thread < threads)
    && (exists book :: MemInv(Serial(limits, init, log), book))
  }

  ghost predicate ThreadsOk(limits: Limits, root: ScopeId, serial: Mem, log: seq<Logged>, threads: seq<Thread>) {
    forall t :: 0 <= t < |threads| ==> ThreadOk(limits, root, serial, log, t, threads[t])
  }

  ghost predicate Inv(limits: Limits, root: ScopeId, init: Mem, st: State) {
    && OwnersOk(st)
    && LogOk(limits, init, st.log, |st.threads|)
    && MemOk(Serial(limits, init, st.log), st)
    && ThreadsOk(limits, root, Serial(limits, init, st.log), st.log, st.threads)
  }
}
