/** Every step of every thread keeps the invariant of the lock protocol. */
module LockSteps {
  import opened Scopes
  import opened BudgetBook
  import opened LedgerSpec
  import opened BudgetLocks

  predicate HoldsRoot(th: Thread) {
    !th.call.Look? &&
    match th.phase
    case Locking(k) => k > 0
    case Releasing(k, _) => k > 0
    case Returned(_) => false
    case _ => true
  }

  lemma InvParts(limits: Limits, root: ScopeId, init: Mem, st: State, t: nat)
    requires Inv(limits, root, init, st) && t < |st.threads|
    ensures OwnersOk(st) && ThreadOk(limits, root, Serial(limits, init, st.log), st.log, t, st.threads[t])
    ensures LogOk(limits, init, st.log, |st.threads|) && MemOk(Serial(limits, init, st.log), st)
  {
    hide OwnersOk, LogOk, MemOk, ThreadOk, Serial;
  }

  lemma InvBook(limits: Limits, root: ScopeId, init: Mem, st: State) returns (book: Book)
    requires Inv(limits, root, init, st)
    ensures MemInv(Serial(limits, init, st.log), book)
  {
    hide OwnersOk, MemOk, ThreadsOk, Serial, MemInv, Explained;
    book :| MemInv(Serial(limits, init, st.log), book);
  }

  lemma {:induction false} RootIsHeld(limits: Limits, root: ScopeId, init: Mem, st: State, t: nat)
    requires Inv(limits, root, init, st) && t < |st.threads| && HoldsRoot(st.threads[t])
    ensures root in st.owner && st.owner[root] == t
  {
    var th := st.threads[t];
    InvParts(limits, root, init, st, t);
    hide Inv, Serial;
    assert LockOrder(th.call)[0] == root;
    assert Holding(th)[0] == root;
    assert OwnerOk(st, root, t);
  }

  /** While one thread holds the root lock, no other is between its check and its release. */
  lemma {:induction false} RootHolderIsAlone(limits: Limits, root: ScopeId, init: Mem, st: State, t: nat)
    requires Inv(limits, root, init, st) && t < |st.threads| && HoldsRoot(st.threads[t])
    ensures forall u: nat :: u != t && u < |st.threads| ==> !HoldsRoot(st.threads[u])
    ensures forall u: nat :: InUpdate(st, u) ==> u == t
    ensures !InUpdate(st, t) ==> st.mem == Serial(limits, init, st.log)
  {
    InvParts(limits, root, init, st, t);
    hide Inv, Serial, OwnersOk, LogOk, Partly, LockOrder;
    RootIsHeld(limits, root, init, st, t);
    forall u: nat | u < |st.threads| && HoldsRoot(st.threads[u]) ensures u == t {
      RootIsHeld(limits, root, init, st, u);
    }
    forall u: nat | InUpdate(st, u) ensures HoldsRoot(st.threads[u]) {
      InvParts(limits, root, init, st, u);
    }
  }

  lemma {:induction false} SameOwners(st: State, st': State, t: nat, th: Thread)
    requires OwnersOk(st) && t < |st.threads|
    requires st'.owner == st.owner && st'.threads == st.threads[t := th]
    requires forall s :: s in Holding(th) <==> s in Holding(st.threads[t])
    ensures OwnersOk(st')
  {
    forall s, u: nat ensures OwnerOk(st', s, u) {
      assert OwnerOk(st, s, u);
    }
  }

  /** A step that neither logs nor touches the dictionaries. */
  lemma {:induction false} QuietStep(limits: Limits, root: ScopeId, init: Mem, st: State, st': State, t: nat,
                                     th: Thread)
    requires Inv(limits, root, init, st) && t < |st.threads|
    requires st'.mem == st.mem && st'.log == st.log && st'.threads == st.threads[t := th]
    requires !st.threads[t].phase.Updating?
    requires th.phase.Updating? ==> th.phase.next == 0 && HoldsRoot(st.threads[t])
    requires ThreadOk(limits, root, Serial(limits, init, st.log), st.log, t, th)
    requires OwnersOk(st')
    ensures Inv(limits, root, init, st')
  {
    var serial := Serial(limits, init, st.log);
    QuietMem(limits, root, init, st, st', t, th);
    hide Serial, ThreadOk, OwnersOk, MemOk, LogOk;
    forall u | 0 <= u < |st'.threads| ensures ThreadOk(limits, root, serial, st'.log, u, st'.threads[u]) {
      assert ThreadOk(limits, root, serial, st.log, u, st.threads[u]);
    }
  }

  lemma {:induction false} QuietMem(limits: Limits, root: ScopeId, init: Mem, st: State, st': State, t: nat, th: Thread)
    requires Inv(limits, root, init, st) && t < |st.threads|
    requires st'.mem == st.mem && st'.log == st.log && st'.threads == st.threads[t := th]
    requires !st.threads[t].phase.Updating?
    requires th.phase.Updating? ==> th.phase.next == 0 && HoldsRoot(st.threads[t])
    ensures MemOk(Serial(limits, init, st.log), st')
  {
    var serial := Serial(limits, init, st.log);
    if th.phase.Updating? {
      RootHolderIsAlone(limits, root, init, st, t);
      InvParts(limits, root, init, st, t);
      NothingUpdated(serial, th.call);
      assert forall u: nat :: InUpdate(st', u) && u != t ==> InUpdate(st, u);
    } else {
      assert forall u: nat :: InUpdate(st', u) ==> InUpdate(st, u);
      assert forall u: nat :: InUpdate(st, u) ==> InUpdate(st', u);
    }
  }

  lemma NothingUpdated(serial: Mem, call: Call)
    ensures Partly(serial, serial, call, 0)
  {
  }

  lemma {:induction false} LockOwners(st: State, st': State, t: nat, k: nat)
    requires OwnersOk(st) && t < |st.threads| && k < |LockOrder(st.threads[t].call)|
    requires LockOrder(st.threads[t].call)[k] !in st.owner
    requires Holding(st.threads[t]) == LockOrder(st.threads[t].call)[..k]
    requires st'.owner == st.owner[LockOrder(st.threads[t].call)[k] := t]
    requires |st'.threads| == |st.threads| && st'.threads == st.threads[t := st'.threads[t]]
    requires Holding(st'.threads[t]) == LockOrder(st.threads[t].call)[..k + 1]
    ensures OwnersOk(st')
  {
    var order := LockOrder(st.threads[t].call);
    hide LockOrder, Holding;
    assert order[..k + 1] == order[..k] + [order[k]];
    forall s, u: nat ensures OwnerOk(st', s, u) {
      assert OwnerOk(st, s, u);
    }
  }

  lemma {:induction false} LockStep(limits: Limits, root: ScopeId, init: Mem, st: State, t: nat, k: nat)
    requires Inv(limits, root, init, st) && t < |st.threads| && st.threads[t].phase == Locking(k)
    requires k < |LockOrder(st.threads[t].call)| && LockOrder(st.threads[t].call)[k] !in st.owner
    ensures Inv(limits, root, init,
      GoTo(st, t, Locking(k + 1)).(owner := st.owner[LockOrder(st.threads[t].call)[k] := t]))
  {
    hide Inv, Serial, NotLogged, OwnersOk, LogOk, MemOk, LockOrder;
    var st' := GoTo(st, t, Locking(k + 1)).(owner := st.owner[LockOrder(st.threads[t].call)[k] := t]);
    InvParts(limits, root, init, st, t);
    LockOwners(st, st', t, k);
    QuietStep(limits, root, init, st, st', t, st'.threads[t]);
  }

  lemma LockOrderDistinct(call: Call)
    ensures forall i, j :: 0 <= i < j < |LockOrder(call)| ==> LockOrder(call)[i] != LockOrder(call)[j]
  {
    ChainDistinct(call.scope);
  }

  lemma {:induction false} ReleaseOwners(st: State, st': State, t: nat, k: nat)
    requires OwnersOk(st) && t < |st.threads| && 0 < k <= |LockOrder(st.threads[t].call)|
    requires Holding(st.threads[t]) == LockOrder(st.threads[t].call)[..k]
    requires st'.owner == st.owner - {LockOrder(st.threads[t].call)[k - 1]}
    requires |st'.threads| == |st.threads| && st'.threads == st.threads[t := st'.threads[t]]
    requires Holding(st'.threads[t]) == LockOrder(st.threads[t].call)[..k - 1]
    ensures OwnersOk(st')
  {
    var order := LockOrder(st.threads[t].call);
    LockOrderDistinct(st.threads[t].call);
    hide LockOrder, Holding;
    assert order[..k] == order[..k - 1] + [order[k - 1]];
    assert OwnerOk(st, order[k - 1], t);
    forall s, u: nat ensures OwnerOk(st', s, u) {
      assert OwnerOk(st, s, u);
    }
  }

  lemma {:induction false} ReleaseStep(limits: Limits, root: ScopeId, init: Mem, st: State, t: nat, k: nat,
                                       outcome: Outcome)
    requires Inv(limits, root, init, st) && t < |st.threads| && st.threads[t].phase == Releasing(k, outcome)
    requires 0 < k <= |LockOrder(st.threads[t].call)|
    ensures Inv(limits, root, init,
      GoTo(st, t, Releasing(k - 1, outcome)).(owner := st.owner - {LockOrder(st.threads[t].call)[k - 1]}))
  {
    hide Inv, Serial, LoggedAs, OwnersOk, LogOk, MemOk, LockOrder;
    var st' := GoTo(st, t, Releasing(k - 1, outcome)).(owner := st.owner - {LockOrder(st.threads[t].call)[k - 1]});
    InvParts(limits, root, init, st, t);
    ReleaseOwners(st, st', t, k);
    QuietStep(limits, root, init, st, st', t, st'.threads[t]);
  }

  lemma {:induction false} ReturnStep(limits: Limits, root: ScopeId, init: Mem, st: State, t: nat, outcome: Outcome)
    requires Inv(limits, root, init, st) && t < |st.threads| && st.threads[t].phase == Releasing(0, outcome)
    ensures Inv(limits, root, init, GoTo(st, t, Returned(outcome)))
  {
    hide Inv, Serial, LoggedAs, OwnersOk, LogOk, MemOk, LockOrder;
    var st' := GoTo(st, t, Returned(outcome));
    InvParts(limits, root, init, st, t);
    SameOwners(st, st', t, st'.threads[t]);
    QuietStep(limits, root, init, st, st', t, st'.threads[t]);
  }

  // ----- logging -----

  ghost predicate Handled(serial: Mem, serial': Mem) {
    forall call: Call :: call.Settle? && SameHandle(serial, call) ==> SameHandle(serial', call)
  }

  lemma {:induction false} AtomicKeepsHandles(limits: Limits, mem: Mem, call: Call)
    ensures Handled(mem, Atomic(limits, mem, call).0)
  {
    hide ChainFits, CoveredAlong, AddAlong, SubtractAlong;
  }

  lemma {:induction false} AtomicKeepsInv(limits: Limits, mem: Mem, book: Book, call: Call) returns (book': Book)
    requires MemInv(mem, book)
    ensures MemInv(Atomic(limits, mem, call).0, book')
  {
    match call
    case Hold(scope, amounts) =>
      LedgerRefines(limits, mem, book, Reserve(scope, amounts));
      book' := Step(limits, book, Reserve(scope, amounts)).0;
    case Settle(i, _, _, actual) =>
      LedgerRefines(limits, mem, book, Finish(i, actual));
      book' := Step(limits, book, Finish(i, actual)).0;
    case Look(_) =>
      book' := book;
  }

  lemma LogLater(log: seq<Logged>, t: nat, call: Call, outcome: Outcome, e: Logged)
    requires LoggedAs(log, t, call, outcome)
    ensures LoggedAs(log + [e], t, call, outcome)
  {
    var k :| 0 <= k < |log| && log[k] == Logged(t, call, outcome);
    assert (log + [e])[k] == Logged(t, call, outcome);
  }

  lemma {:induction false} OtherThread(limits: Limits, root: ScopeId, serial: Mem, serial': Mem, log: seq<Logged>,
                                       e: Logged,
                                       u: nat, th: Thread)
    requires ThreadOk(limits, root, serial, log, u, th) && u != e.thread
    requires Handled(serial, serial') && (HoldsRoot(th) ==> serial' == serial)
    ensures ThreadOk(limits, root, serial', log + [e], u, th)
  {
    if th.phase.Releasing? || th.phase.Returned? {
      LogLater(log, u, th.call, th.phase.outcome, e);
    }
    hide Atomic, FitsUpTo;
  }

  /** A call takes effect: its outcome is what the whole call gives on the settled dictionaries. */
  lemma {:induction false} EffectStep(limits: Limits, root: ScopeId, init: Mem, st: State, t: nat, outcome: Outcome,
                                      mem': Mem)
    requires Inv(limits, root, init, st) && t < |st.threads|
    requires var th := st.threads[t]; forall s :: s in Holding(th) <==> s in LockOrder(th.call)
    requires NotLogged(st.log, t)
    requires var serial := Serial(limits, init, st.log);
             && outcome == Atomic(limits, serial, st.threads[t].call).1
             && (if st.threads[t].call.Look? then mem' == st.mem else
                 HoldsRoot(st.threads[t]) && mem' == Atomic(limits, serial, st.threads[t].call).0)
    ensures Inv(limits, root, init, Conclude(st, t, outcome).(mem := mem'))
  {
    var st' := Conclude(st, t, outcome).(mem := mem');
    InvParts(limits, root, init, st, t);
    var book := InvBook(limits, root, init, st);
    hide OwnersOk, LogOk, MemOk, ThreadsOk, ThreadOk, Atomic, Serial, MemInv, NotLogged;
    SameOwners(st, st', t, st'.threads[t]);
    EffectOnLog(limits, init, st, t, outcome, book);
    EffectOnMem(limits, root, init, st, t, outcome, mem');
    EffectOnThreads(limits, root, init, st, t, outcome);
    LogGrows(limits, init, st.log, Logged(t, st.threads[t].call, outcome));
  }

  lemma {:induction false} EffectOnLog(limits: Limits, init: Mem, st: State, t: nat, outcome: Outcome, book: Book)
    requires LogOk(limits, init, st.log, |st.threads|) && t < |st.threads| && NotLogged(st.log, t)
    requires MemInv(Serial(limits, init, st.log), book)
    requires outcome == Atomic(limits, Serial(limits, init, st.log), st.threads[t].call).1
    ensures LogOk(limits, init, Conclude(st, t, outcome).log, |st.threads|)
  {
    var e := Logged(t, st.threads[t].call, outcome);
    LogGrows(limits, init, st.log, e);
    var book' := AtomicKeepsInv(limits, Serial(limits, init, st.log), book, e.call);
    hide Atomic, MemInv, Serial, Explained;
    assert MemInv(Serial(limits, init, st.log + [e]), book');
  }

  lemma {:induction false} EffectOnThreads(limits: Limits, root: ScopeId, init: Mem, st: State, t: nat,
                                           outcome: Outcome)
    requires Inv(limits, root, init, st) && t < |st.threads|
    requires st.threads[t].call.Look? || HoldsRoot(st.threads[t])
    ensures var st' := Conclude(st, t, outcome);
            var serial' := Atomic(limits, Serial(limits, init, st.log), st.threads[t].call).0;
            ThreadsOk(limits, root, serial', st'.log, st'.threads)
  {
    var th, st' := st.threads[t], Conclude(st, t, outcome);
    var e := Logged(t, th.call, outcome);
    var serial := Serial(limits, init, st.log);
    var serial' := Atomic(limits, serial, th.call).0;
    AtomicKeepsHandles(limits, serial, th.call);
    if HoldsRoot(th) {
      RootHolderIsAlone(limits, root, init, st, t);
    }
    assert st'.log[|st.log|] == e;
    forall u: nat | u < |st'.threads| ensures ThreadOk(limits, root, serial', st'.log, u, st'.threads[u]) {
      InvParts(limits, root, init, st, u);
      if u != t {
        OtherThread(limits, root, serial, serial', st.log, e, u, st.threads[u]);
      }
    }
  }

  lemma {:induction false} EffectOnMem(limits: Limits, root: ScopeId, init: Mem, st: State, t: nat, outcome: Outcome,
                                       mem': Mem)
    requires Inv(limits, root, init, st) && t < |st.threads|
    requires var serial := Serial(limits, init, st.log);
             (if st.threads[t].call.Look? then mem' == st.mem else
                 HoldsRoot(st.threads[t]) && mem' == Atomic(limits, serial, st.threads[t].call).0)
    ensures MemOk(Atomic(limits, Serial(limits, init, st.log), st.threads[t].call).0,
      Conclude(st, t, outcome).(mem := mem'))
  {
    hide Serial, Partly, LogOk;
    var th := st.threads[t];
    var st' := Conclude(st, t, outcome).(mem := mem');
    assert ThreadOk(limits, root, Serial(limits, init, st.log), st.log, t, th);
    if th.call.Look? {
      assert forall u: nat :: InUpdate(st', u) ==> InUpdate(st, u);
      assert forall u: nat :: InUpdate(st, u) ==> InUpdate(st', u);
    } else {
      RootHolderIsAlone(limits, root, init, st, t);
      assert forall u: nat :: InUpdate(st', u) ==> u != t && InUpdate(st, u);
    }
  }

  // ----- checking, updating, committing -----

  lemma {:induction false} QuietPhase(limits: Limits, root: ScopeId, init: Mem, st: State, t: nat, phase: Phase)
    requires Inv(limits, root, init, st) && t < |st.threads|
    requires !st.threads[t].phase.Updating? && (phase.Checking? || phase == Updating(0))
    requires HoldsRoot(st.threads[t]) && Holding(st.threads[t]) == LockOrder(st.threads[t].call)
    requires ThreadOk(limits, root, Serial(limits, init, st.log), st.log, t, st.threads[t].(phase := phase))
    ensures Inv(limits, root, init, GoTo(st, t, phase))
  {
    InvParts(limits, root, init, st, t);
    hide Inv, Serial, ThreadOk, OwnersOk;
    SameOwners(st, GoTo(st, t, phase), t, st.threads[t].(phase := phase));
    QuietStep(limits, root, init, st, GoTo(st, t, phase), t, st.threads[t].(phase := phase));
  }

  /** A call whose checks all passed is accepted as a whole. */
  lemma {:induction false} ChecksDecide(limits: Limits, mem: Mem, book: Book, call: Call)
    requires MemInv(mem, book) && !call.Look? && StillActive(mem, call)
    requires call.Settle? ==> SameHandle(mem, call)
    requires FitsUpTo(limits, mem, call, |LockOrder(call)|) || (call.Settle? && call.actual.None?)
    ensures Atomic(limits, mem, call).1 == Decided(Accepted)
  {
    forall s | s in Chain(call.scope) ensures FitsIn(limits, mem, s, call) {
      var j :| 0 <= j < |Chain(call.scope)| && Chain(call.scope)[j] == s;
      assert LockOrder(call)[j] == s;
    }
    assert ChainFits(limits, mem, call.scope, Wanted(call), Replacing(call));
    if call.Settle? {
      assert HandleMatches(mem.handles[call.index], book[call.index]);
      HoldsCoveredAlong(mem, book, call.index);
    }
    hide ChainFits, CoveredAlong, AddAlong, SubtractAlong, MemInv;
  }

  lemma {:induction false} CheckFails(limits: Limits, mem: Mem, call: Call, j: nat)
    requires !call.Look? && StillActive(mem, call) && (call.Settle? ==> SameHandle(mem, call))
    requires j < |LockOrder(call)| && !FitsIn(limits, mem, LockOrder(call)[j], call)
    ensures Atomic(limits, mem, call) == (mem, Decided(Exceeded))
  {
    assert LockOrder(call)[j] in Chain(call.scope);
    assert !ChainFits(limits, mem, call.scope, Wanted(call), Replacing(call));
  }

  lemma {:induction false} CheckStep(limits: Limits, root: ScopeId, init: Mem, st: State, t: nat)
    requires Inv(limits, root, init, st) && Enabled(st, t) && st.threads[t].phase.Checking?
    ensures Inv(limits, root, init, Advance(limits, st, t))
  {
    var th, k := st.threads[t], st.threads[t].phase.next;
    var serial := Serial(limits, init, st.log);
    InvParts(limits, root, init, st, t);
    RootHolderIsAlone(limits, root, init, st, t);
    if k >= |LockOrder(th.call)| {
      var book := InvBook(limits, root, init, st);
      ChecksDecide(limits, serial, book, th.call);
      hide Inv, Serial, Atomic, NotLogged, OwnersOk;
      QuietPhase(limits, root, init, st, t, Updating(0));
    } else if FitsIn(limits, st.mem, LockOrder(th.call)[k], th.call) {
      hide Inv, Serial, Atomic, NotLogged, OwnersOk, FitsIn;
      QuietPhase(limits, root, init, st, t, Checking(k + 1));
    } else {
      CheckFails(limits, serial, th.call, k);
      hide Inv, Serial, Atomic, NotLogged, OwnersOk, FitsIn;
      EffectStep(limits, root, init, st, t, Decided(Exceeded), st.mem);
    }
  }

  /** A ledger whose lock is held alone reads as if all effects so far were complete. */
  lemma {:induction false} QuietLedger(limits: Limits, root: ScopeId, init: Mem, st: State, t: nat)
    requires Inv(limits, root, init, st) && t < |st.threads|
    requires st.threads[t].call.Look? && Holding(st.threads[t]) == LockOrder(st.threads[t].call)
    ensures var serial, s := Serial(limits, init, st.log), st.threads[t].call.scope;
            In(st.mem.used, s) == In(serial.used, s) && In(st.mem.reserved, s) == In(serial.reserved, s)
  {
    var serial, s := Serial(limits, init, st.log), st.threads[t].call.scope;
    InvParts(limits, root, init, st, t);
    assert s in Holding(st.threads[t]);
    assert OwnerOk(st, s, t);
    if u: nat :| InUpdate(st, u) {
      InvParts(limits, root, init, st, u);
      assert OwnerOk(st, s, u);
      assert PartlyAt(serial, st.mem, st.threads[u].call, st.threads[u].phase.next, s);
    }
  }

  lemma {:induction false} LockedStep(limits: Limits, root: ScopeId, init: Mem, st: State, t: nat)
    requires Inv(limits, root, init, st) && Enabled(st, t)
    requires st.threads[t].phase.Locking? && st.threads[t].phase.next >= |LockOrder(st.threads[t].call)|
    ensures Inv(limits, root, init, Advance(limits, st, t))
  {
    var call, serial := st.threads[t].call, Serial(limits, init, st.log);
    InvParts(limits, root, init, st, t);
    if call.Look? {
      QuietLedger(limits, root, init, st, t);
      hide Inv, Serial, NotLogged, OwnersOk;
      EffectStep(limits, root, init, st, t, Seen(In(st.mem.used, call.scope), In(st.mem.reserved, call.scope)), st.mem);
    } else {
      RootHolderIsAlone(limits, root, init, st, t);
      if !StillActive(serial, call) {
        hide Inv, Serial, NotLogged, OwnersOk;
        EffectStep(limits, root, init, st, t, Decided(Inactive), st.mem);
      } else if call.Settle? && call.actual.None? {
        var book := InvBook(limits, root, init, st);
        ChecksDecide(limits, serial, book, call);
        hide Inv, Serial, NotLogged, OwnersOk, Atomic;
        QuietPhase(limits, root, init, st, t, Updating(0));
      } else {
        hide Inv, Serial, NotLogged, OwnersOk, Atomic;
        QuietPhase(limits, root, init, st, t, Checking(0));
      }
    }
  }

  lemma {:induction false} HoldThere(limits: Limits, serial: Mem, call: Call, s: ScopeId)
    requires call.Settle? && SameHandle(serial, call) && s in Chain(call.scope)
    requires Atomic(limits, serial, call).1 == Decided(Accepted)
    ensures CoveredBy(call.amounts, In(serial.reserved, s))
  {
    hide ChainFits, AddAlong, SubtractAlong, CoveredBy;
  }

  lemma {:induction false} LedgerMoved(serial: Mem, mem: Mem, call: Call, k: nat, s: ScopeId, a: ScopeId)
    requires k < |LockOrder(call)| && !call.Look?
    requires PartlyAt(serial, mem, call, k, a) && PartlyAt(serial, mem, call, k, s)
    requires s == LockOrder(call)[k] && s !in LockOrder(call)[..k]
    requires call.Settle? ==>
      CoveredBy(call.amounts, In(serial.reserved, s)) && CoveredBy(call.amounts, In(mem.reserved, s))
    ensures PartlyAt(serial, UpdatedLedger(mem, call, s), call, k + 1, a)
  {
    var order := LockOrder(call);
    hide LockOrder, AddAll, SubtractAll, CoveredBy;
    assert order[..k + 1] == order[..k] + [order[k]];
  }

  lemma {:induction false} KeysMoved(serial: Mem, mem: Mem, call: Call, k: nat, s: ScopeId)
    requires k < |LockOrder(call)| && Partly(serial, mem, call, k) && s == LockOrder(call)[k] && !call.Look?
    requires call.Settle? ==> CoveredBy(call.amounts, In(mem.reserved, s))
    ensures var mem' := UpdatedLedger(mem, call, s);
            && mem'.handles == serial.handles
            && mem'.reserved.Keys == serial.reserved.Keys + ScopesOf(LockOrder(call)[..k + 1])
            && mem'.used.Keys == serial.used.Keys + (if call.Settle? then ScopesOf(LockOrder(call)[..k + 1]) else {})
  {
    hide PartlyAt, LockOrder, AddAll, SubtractAll, CoveredBy;
    assert LockOrder(call)[..k + 1] == LockOrder(call)[..k] + [s];
  }

  lemma {:induction false} NextLedger(serial: Mem, mem: Mem, call: Call, k: nat, s: ScopeId)
    requires k < |LockOrder(call)| && Partly(serial, mem, call, k) && !call.Look?
    requires s == LockOrder(call)[k] && s !in LockOrder(call)[..k]
    requires call.Settle? ==> CoveredBy(call.amounts, In(serial.reserved, s))
    ensures call.Settle? ==> CoveredBy(call.amounts, In(mem.reserved, s))
    ensures Partly(serial, UpdatedLedger(mem, call, s), call, k + 1)
  {
    hide LockOrder, AddAll, SubtractAll, CoveredBy;
    assert PartlyAt(serial, mem, call, k, s);
    KeysMoved(serial, mem, call, k, s);
    hide PartlyAt;
    var mem' := UpdatedLedger(mem, call, s);
    forall a {:trigger PartlyAt(serial, mem', call, k + 1, a)} ensures PartlyAt(serial, mem', call, k + 1, a) {
      LedgerMoved(serial, mem, call, k, s, a);
    }
  }

  lemma {:induction false} NextUpdate(limits: Limits, serial: Mem, mem: Mem, call: Call, k: nat)
    requires k < |LockOrder(call)| && Partly(serial, mem, call, k) && !call.Look?
    requires call.Settle? ==> SameHandle(serial, call)
    requires Atomic(limits, serial, call).1 == Decided(Accepted)
    ensures call.Settle? ==> CoveredBy(call.amounts, In(mem.reserved, LockOrder(call)[k]))
    ensures Partly(serial, UpdatedLedger(mem, call, LockOrder(call)[k]), call, k + 1)
  {
    var s := LockOrder(call)[k];
    LockOrderDistinct(call);
    assert s in Chain(call.scope) && s !in LockOrder(call)[..k];
    if call.Settle? {
      HoldThere(limits, serial, call, s);
    }
    hide Partly, Atomic, CoveredBy;
    NextLedger(serial, mem, call, k, s);
  }

  /** All ledgers of the chain updated: the dictionaries are those of the whole call. */
  lemma {:induction false} AllLedgers(serial: Mem, mem: Mem, call: Call)
    requires Partly(serial, mem, call, |LockOrder(call)|)
    ensures call.Hold? ==>
      mem.used == serial.used && mem.reserved == AddAlong(serial.reserved, call.scope, call.amounts)
    ensures call.Settle? && CoveredAlong(serial, call.scope, call.amounts) ==>
      && mem.used == AddAlong(serial.used, call.scope, FinalAmounts(call.actual))
      && mem.reserved == SubtractAlong(serial, call.scope, call.amounts)
  {
    var order := LockOrder(call);
    assert order[..|order|] == order;
    forall s ensures PartlyAt(serial, mem, call, |order|, s) {
    }
    if call.Hold? {
      HoldOnAll(serial, mem, call);
    } else if call.Settle? && CoveredAlong(serial, call.scope, call.amounts) {
      SettleOnAll(serial, mem, call);
    }
  }

  lemma {:induction false} HoldOnAll(serial: Mem, mem: Mem, call: Call)
    requires call.Hold? && mem.used.Keys == serial.used.Keys
    requires mem.reserved.Keys == serial.reserved.Keys + ScopesOf(Chain(call.scope))
    requires LockOrder(call)[..|LockOrder(call)|] == Chain(call.scope)
    requires forall s :: PartlyAt(serial, mem, call, |LockOrder(call)|, s)
    ensures mem.used == serial.used && mem.reserved == AddAlong(serial.reserved, call.scope, call.amounts)
  {
    hide AddAll, LockOrder;
    forall s | s in mem.reserved.Keys + mem.used.Keys
      ensures s in mem.used ==> mem.used[s] == serial.used[s]
      ensures s in mem.reserved ==> mem.reserved[s] == AddAlong(serial.reserved, call.scope, call.amounts)[s]
    {
      assert PartlyAt(serial, mem, call, |LockOrder(call)|, s);
    }
  }

  lemma {:induction false} SettleOnAll(serial: Mem, mem: Mem, call: Call)
    requires call.Settle? && CoveredAlong(serial, call.scope, call.amounts)
    requires mem.used.Keys == serial.used.Keys + ScopesOf(Chain(call.scope))
    requires mem.reserved.Keys == serial.reserved.Keys + ScopesOf(Chain(call.scope))
    requires LockOrder(call)[..|LockOrder(call)|] == Chain(call.scope)
    requires forall s :: PartlyAt(serial, mem, call, |LockOrder(call)|, s)
    ensures mem.used == AddAlong(serial.used, call.scope, FinalAmounts(call.actual))
    ensures mem.reserved == SubtractAlong(serial, call.scope, call.amounts)
  {
    hide AddAll, SubtractAll, CoveredBy, LockOrder;
    forall s | s in mem.reserved.Keys + mem.used.Keys
      ensures s in mem.used ==> mem.used[s] == AddAlong(serial.used, call.scope, FinalAmounts(call.actual))[s]
      ensures s in mem.reserved ==> mem.reserved[s] == SubtractAlong(serial, call.scope, call.amounts)[s]
    {
      assert PartlyAt(serial, mem, call, |LockOrder(call)|, s);
    }
  }

  lemma {:induction false} LastUpdate(limits: Limits, serial: Mem, mem: Mem, call: Call)
    requires Partly(serial, mem, call, |LockOrder(call)|) && !call.Look?
    requires call.Settle? ==> SameHandle(serial, call)
    requires Atomic(limits, serial, call).1 == Decided(Accepted)
    ensures UpdatedHandles(mem, call) == Atomic(limits, serial, call).0
  {
    AllLedgers(serial, mem, call);
    assert mem.handles == serial.handles;
    hide Partly, LockOrder, ChainFits, CoveredAlong, AddAlong, SubtractAlong;
  }

  lemma PartlyNow(limits: Limits, root: ScopeId, init: Mem, st: State, t: nat)
    requires Inv(limits, root, init, st) && InUpdate(st, t)
    ensures st.threads[t].phase.next <= |LockOrder(st.threads[t].call)|
    ensures Partly(Serial(limits, init, st.log), st.mem, st.threads[t].call, st.threads[t].phase.next)
    ensures Serial(limits, init, st.log).handles == st.mem.handles
  {
  }

  lemma {:induction false} CommitStep(limits: Limits, root: ScopeId, init: Mem, st: State, t: nat)
    requires Inv(limits, root, init, st) && InUpdate(st, t)
    requires st.threads[t].phase.next >= |LockOrder(st.threads[t].call)|
    ensures Inv(limits, root, init,
      Conclude(st, t, Decided(Accepted)).(mem := UpdatedHandles(st.mem, st.threads[t].call)))
  {
    hide Inv, Serial, Atomic, NotLogged, OwnersOk, Partly, LockOrder, UpdatedHandles;
    InvParts(limits, root, init, st, t);
    PartlyNow(limits, root, init, st, t);
    LastUpdate(limits, Serial(limits, init, st.log), st.mem, st.threads[t].call);
    EffectStep(limits, root, init, st, t, Decided(Accepted), UpdatedHandles(st.mem, st.threads[t].call));
  }

  lemma {:induction false} LedgerStep(limits: Limits, root: ScopeId, init: Mem, st: State, t: nat, k: nat)
    requires Inv(limits, root, init, st) && t < |st.threads|
    requires st.threads[t].phase == Updating(k) && k < |LockOrder(st.threads[t].call)|
    ensures var call := st.threads[t].call;
            call.Settle? ==> CoveredBy(call.amounts, In(st.mem.reserved, LockOrder(call)[k]))
    ensures Inv(limits, root, init,
      GoTo(st, t, Updating(k + 1)).(mem := UpdatedLedger(st.mem, st.threads[t].call, LockOrder(st.threads[t].call)[k])))
  {
    hide Inv, Serial, Atomic, NotLogged, OwnersOk, Partly, LockOrder, UpdatedLedger, CoveredBy;
    InvParts(limits, root, init, st, t);
    PartlyNow(limits, root, init, st, t);
    NextUpdate(limits, Serial(limits, init, st.log), st.mem, st.threads[t].call, k);
    MoveOn(limits, root, init, st, t, k);
  }

  lemma {:induction false} MoveOn(limits: Limits, root: ScopeId, init: Mem, st: State, t: nat, k: nat)
    requires Inv(limits, root, init, st) && t < |st.threads|
    requires st.threads[t].phase == Updating(k) && k < |LockOrder(st.threads[t].call)|
    requires var call := st.threads[t].call;
             && (call.Settle? ==> CoveredBy(call.amounts, In(st.mem.reserved, LockOrder(call)[k])))
             && Partly(Serial(limits, init, st.log), UpdatedLedger(st.mem, call, LockOrder(call)[k]), call, k + 1)
    ensures Inv(limits, root, init,
      GoTo(st, t, Updating(k + 1)).(mem := UpdatedLedger(st.mem, st.threads[t].call, LockOrder(st.threads[t].call)[k])))
  {
    var call, serial := st.threads[t].call, Serial(limits, init, st.log);
    var st' := GoTo(st, t, Updating(k + 1)).(mem := UpdatedLedger(st.mem, call, LockOrder(call)[k]));
    InvParts(limits, root, init, st, t);
    hide Serial, OwnersOk, Partly, LogOk, ThreadsOk, UpdatedLedger, LockOrder, ThreadOk, MemOk;
    MoveOnThreads(limits, root, init, st, st', t, k);
    assert LogOk(limits, init, st'.log, |st'.threads|);
    assert st'.threads[t] == st.threads[t].(phase := Updating(k + 1)) && InUpdate(st', t);
    hide CoveredBy, In, GoTo;
    OnlyOneUpdates(serial, st', t);
  }

  lemma OnlyOneUpdates(serial: Mem, st: State, t: nat)
    requires InUpdate(st, t) && forall u: nat :: InUpdate(st, u) ==> u == t
    requires st.threads[t].phase.next <= |LockOrder(st.threads[t].call)|
    requires Partly(serial, st.mem, st.threads[t].call, st.threads[t].phase.next)
    ensures MemOk(serial, st)
  {
    hide Partly, LockOrder;
  }

  lemma {:induction false} MoveOnThreads(limits: Limits, root: ScopeId, init: Mem, st: State, st': State, t: nat,
                                         k: nat)
    requires Inv(limits, root, init, st) && t < |st.threads|
    requires st.threads[t].phase == Updating(k) && k < |LockOrder(st.threads[t].call)|
    requires st'.threads == GoTo(st, t, Updating(k + 1)).threads && st'.owner == st.owner
    ensures OwnersOk(st')
    ensures var serial := Serial(limits, init, st.log);
            ThreadsOk(limits, root, serial, st.log, st'.threads)
    ensures forall u: nat :: InUpdate(st', u) ==> u == t
  {
    var serial := Serial(limits, init, st.log);
    InvParts(limits, root, init, st, t);
    RootHolderIsAlone(limits, root, init, st, t);
    hide Inv, Serial, LockOrder, Atomic, OwnersOk, LogOk, MemOk;
    SameOwners(st, st', t, st'.threads[t]);
    assert forall u: nat :: InUpdate(st', u) && u != t ==> InUpdate(st, u);
    forall u: nat | u < |st.threads| ensures ThreadOk(limits, root, serial, st.log, u, st'.threads[u]) {
      InvParts(limits, root, init, st, u);
    }
  }

  lemma {:induction false} AdvanceKeepsInv(limits: Limits, root: ScopeId, init: Mem, st: State, t: nat)
    requires Inv(limits, root, init, st) && Enabled(st, t)
    ensures Inv(limits, root, init, Advance(limits, st, t))
  {
    hide Inv, OwnersOk, LogOk, MemOk, Serial, LockOrder, GoTo, Conclude, UpdatedLedger, UpdatedHandles, Locked, FitsIn,
      CoveredBy;
    match st.threads[t].phase
    case Locking(k) =>
      if k >= |LockOrder(st.threads[t].call)| {
        LockedStep(limits, root, init, st, t);
      } else {
        LockStep(limits, root, init, st, t, k);
      }
    case Checking(_) => CheckStep(limits, root, init, st, t);
    case Updating(k) =>
      if k >= |LockOrder(st.threads[t].call)| {
        CommitStep(limits, root, init, st, t);
      } else {
        LedgerStep(limits, root, init, st, t, k);
      }
    case Releasing(k, outcome) => LettingGo(limits, root, init, st, t, k, outcome);
    case Returned(_) =>
  }

  lemma {:induction false} LettingGo(limits: Limits, root: ScopeId, init: Mem, st: State, t: nat, k: nat,
                                     outcome: Outcome)
    requires Inv(limits, root, init, st) && Enabled(st, t) && st.threads[t].phase == Releasing(k, outcome)
    ensures Inv(limits, root, init, Advance(limits, st, t))
  {
    hide Inv, OwnersOk, LogOk, MemOk, Serial, LockOrder, GoTo, LoggedAs;
    InvParts(limits, root, init, st, t);
    if k == 0 {
      ReturnStep(limits, root, init, st, t, outcome);
    } else {
      ReleaseStep(limits, root, init, st, t, k, outcome);
    }
  }

  /** Every step of every thread, and every new call, keeps the invariant. */
  lemma {:induction false} MoveKeepsInv(limits: Limits, root: ScopeId, init: Mem, st: State, move: Move)
    requires Inv(limits, root, init, st) && Allowed(root, st, move)
    ensures Inv(limits, root, init, Apply(limits, root, st, move))
  {
    hide Inv, Advance, Enabled, MayStart;
    match move
    case Start(call) => StartStep(limits, root, init, st, call);
    case Go(t) => AdvanceKeepsInv(limits, root, init, st, t);
  }

  lemma {:induction false} StartMem(limits: Limits, root: ScopeId, init: Mem, st: State, st': State, th: Thread)
    requires Inv(limits, root, init, st) && st'.mem == st.mem && st'.threads == st.threads + [th] && !th.phase.Updating?
    ensures MemOk(Serial(limits, init, st.log), st')
    ensures st.mem.handles == Serial(limits, init, st.log).handles
  {
    if u: nat :| InUpdate(st, u) {
      PartlyNow(limits, root, init, st, u);
      assert InUpdate(st', u);
    }
    hide Serial, Partly, OwnersOk, ThreadOk, Explained;
    assert forall u: nat :: InUpdate(st', u) ==> InUpdate(st, u);
    assert forall u: nat :: InUpdate(st, u) ==> InUpdate(st', u);
  }

  lemma {:induction false} StartStep(limits: Limits, root: ScopeId, init: Mem, st: State, call: Call)
    requires Inv(limits, root, init, st) && MayStart(root, st, call)
    ensures Inv(limits, root, init, st.(threads := st.threads + [Thread(call, Locking(0))]))
  {
    hide Serial, Atomic, MemOk, Partly, MemInv;
    var st' := st.(threads := st.threads + [Thread(call, Locking(0))]);
    var serial, n := Serial(limits, init, st.log), |st.threads|;
    StartMem(limits, root, init, st, st', Thread(call, Locking(0)));
    forall s, u: nat ensures OwnerOk(st', s, u) {
      assert OwnerOk(st, s, u);
    }
    hide Serial, OwnersOk, MemOk, Atomic;
    forall u: nat | u < |st'.threads| ensures ThreadOk(limits, root, serial, st.log, u, st'.threads[u]) {
      if u < n {
        InvParts(limits, root, init, st, u);
      }
    }
  }
}
