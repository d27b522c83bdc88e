/** What holds of every interleaving of calls on one tree of ledgers: answers and numbers are
    those of a serial order of whole calls, nobody waits for ever, and every call can return. */
module LockRuns {
  import opened Scopes
  import opened BudgetBook
  import opened LedgerSpec
  import opened BudgetLocks
  import opened LockSteps

  predicate Feasible(limits: Limits, root: ScopeId, st: State, moves: seq<Move>)
    decreases |moves|
  {
    |moves| > 0 ==> Allowed(root, st, moves[0]) && Feasible(limits, root, Apply(limits, root, st, moves[0]), moves[1..])
  }

  function Run(limits: Limits, root: ScopeId, st: State, moves: seq<Move>): State
    requires Feasible(limits, root, st, moves)
    decreases |moves|
  {
    if |moves| == 0 then st else Run(limits, root, Apply(limits, root, st, moves[0]), moves[1..])
  }

  function Idle(init: Mem): State {
    State(init, map[], [], [])
  }

  lemma {:induction false} RunKeepsInv(limits: Limits, root: ScopeId, init: Mem, st: State, moves: seq<Move>)
    requires Inv(limits, root, init, st) && Feasible(limits, root, st, moves)
    ensures Inv(limits, root, init, Run(limits, root, st, moves))
    decreases |moves|
  {
    if |moves| > 0 {
      hide Inv, Apply, Allowed;
      MoveKeepsInv(limits, root, init, st, moves[0]);
      RunKeepsInv(limits, root, init, Apply(limits, root, st, moves[0]), moves[1..]);
    }
  }

  lemma {:induction false} IdleInv(limits: Limits, root: ScopeId, init: Mem, book: Book)
    requires MemInv(init, book)
    ensures Inv(limits, root, init, Idle(init))
  {
    assert MemInv(Serial(limits, init, []), book);
  }

  ghost predicate AllReturned(st: State) {
    forall t :: 0 <= t < |st.threads| ==> st.threads[t].phase.Returned?
  }

  /** However the calls interleave, the calls that have returned gave exactly the answers of one
      serial order of whole calls, and when no call is running the dictionaries are its outcome. */
  lemma {:induction false} Serializable(limits: Limits, root: ScopeId, init: Mem, book: Book, moves: seq<Move>)
    requires MemInv(init, book) && Feasible(limits, root, Idle(init), moves)
    ensures var st := Run(limits, root, Idle(init), moves);
            && Explained(limits, init, st.log)
            && (forall i, j :: 0 <= i < j < |st.log| ==> st.log[i].thread != st.log[j].thread)
            && (forall i :: 0 <= i < |st.log| ==> st.log[i].thread < |st.threads|)
            && (forall t :: 0 <= t < |st.threads| && st.threads[t].phase.Returned? ==>
                  LoggedAs(st.log, t, st.threads[t].call, st.threads[t].phase.outcome))
            && (AllReturned(st) ==> st.mem == Serial(limits, init, st.log) && st.owner == map[])
  {
    var st := Run(limits, root, Idle(init), moves);
    IdleInv(limits, root, init, book);
    RunKeepsInv(limits, root, init, Idle(init), moves);
    forall t: nat | t < |st.threads| && st.threads[t].phase.Returned?
      ensures LoggedAs(st.log, t, st.threads[t].call, st.threads[t].phase.outcome)
    {
      InvParts(limits, root, init, st, t);
    }
    if AllReturned(st) {
      assert forall t: nat :: !InUpdate(st, t);
      forall s ensures s !in st.owner {
        assert s in st.owner ==> OwnerOk(st, s, st.owner[s]);
      }
    }
  }

  /** No call ever finds a hold missing: the branch for a negative reservation is dead. */
  lemma {:induction false} NeverCorrupt(limits: Limits, root: ScopeId, init: Mem, book: Book, moves: seq<Move>, t: nat)
    requires MemInv(init, book) && Feasible(limits, root, Idle(init), moves)
    ensures var st := Run(limits, root, Idle(init), moves);
            t < |st.threads| && st.threads[t].phase.Updating?
            && st.threads[t].phase.next < |LockOrder(st.threads[t].call)|
            && st.threads[t].call.Settle? ==>
            CoveredBy(st.threads[t].call.amounts,
              In(st.mem.reserved, LockOrder(st.threads[t].call)[st.threads[t].phase.next]))
  {
    var st := Run(limits, root, Idle(init), moves);
    IdleInv(limits, root, init, book);
    RunKeepsInv(limits, root, init, Idle(init), moves);
    hide Run, Feasible, Inv, CoveredBy, LockOrder;
    if t < |st.threads| && st.threads[t].phase.Updating? && st.threads[t].phase.next < |LockOrder(st.threads[t].call)| {
      LedgerStep(limits, root, init, st, t, st.threads[t].phase.next);
    }
  }

  lemma {:induction false} LogOnlyGrows(limits: Limits, root: ScopeId, st: State, moves: seq<Move>)
    requires Feasible(limits, root, st, moves)
    ensures st.log <= Run(limits, root, st, moves).log
    decreases |moves|
  {
    if |moves| > 0 {
      var next := Apply(limits, root, st, moves[0]);
      assert st.log <= next.log;
      hide Apply, Allowed;
      LogOnlyGrows(limits, root, next, moves[1..]);
    }
  }

  /** The serial order respects real time: a call that had returned before another one started
      comes before it. */
  lemma {:induction false} RealTimeOrder(limits: Limits, root: ScopeId, init: Mem, book: Book,
                                         before: seq<Move>, after: seq<Move>, i: nat, j: nat)
    requires MemInv(init, book) && Feasible(limits, root, Idle(init), before)
    requires Feasible(limits, root, Run(limits, root, Idle(init), before), after)
    requires var mid, end := Run(limits, root, Idle(init), before),
      Run(limits, root, Run(limits, root, Idle(init), before), after);
             && i < |end.log| && j < |end.log|
             && end.log[i].thread < |mid.threads| && mid.threads[end.log[i].thread].phase.Returned?
             && end.log[j].thread >= |mid.threads|
    ensures i < j
  {
    var mid := Run(limits, root, Idle(init), before);
    var end := Run(limits, root, mid, after);
    IdleInv(limits, root, init, book);
    RunKeepsInv(limits, root, init, Idle(init), before);
    RunKeepsInv(limits, root, init, mid, after);
    LogOnlyGrows(limits, root, mid, after);
    var t := end.log[i].thread;
    InvParts(limits, root, init, mid, t);
    assert exists k :: 0 <= k < |mid.log| && mid.log[k] == Logged(t, mid.threads[t].call, mid.threads[t].phase.outcome);
    var k :| 0 <= k < |mid.log| && mid.log[k] == Logged(t, mid.threads[t].call, mid.threads[t].phase.outcome);
    assert end.log[k] == mid.log[k];
  }

  // ----- no deadlock, and every call comes to an end -----

  lemma {:induction false} OwnerCanMove(limits: Limits, root: ScopeId, init: Mem, st: State, s: ScopeId)
    requires Inv(limits, root, init, st) && s in st.owner
    ensures st.owner[s] < |st.threads|
    ensures Enabled(st, st.owner[s]) || HoldsRoot(st.threads[st.owner[s]])
  {
    var u := st.owner[s];
    assert OwnerOk(st, s, u);
    InvParts(limits, root, init, st, u);
  }

  lemma {:induction false} RootHolderMoves(limits: Limits, root: ScopeId, init: Mem, st: State, t: nat) returns (u: nat)
    requires Inv(limits, root, init, st) && t < |st.threads| && HoldsRoot(st.threads[t])
    ensures Enabled(st, u)
  {
    u := t;
    if !Enabled(st, t) {
      var s := LockOrder(st.threads[t].call)[st.threads[t].phase.next];
      u := st.owner[s];
      InvParts(limits, root, init, st, t);
      OwnerCanMove(limits, root, init, st, s);
      RootHolderIsAlone(limits, root, init, st, t);
      assert OwnerOk(st, s, t);
      LockOrderDistinct(st.threads[t].call);
      assert s !in LockOrder(st.threads[t].call)[..st.threads[t].phase.next];
      assert HoldsRoot(st.threads[u]) ==> u == t;
    }
  }

  lemma {:induction false} SomeoneMoves(limits: Limits, root: ScopeId, init: Mem, st: State)
    requires Inv(limits, root, init, st)
    ensures AllReturned(st) || exists u :: Enabled(st, u)
  {
    if !AllReturned(st) {
      var t :| 0 <= t < |st.threads| && !st.threads[t].phase.Returned?;
      if !Enabled(st, t) {
        var s := LockOrder(st.threads[t].call)[st.threads[t].phase.next];
        OwnerCanMove(limits, root, init, st, s);
        var u := st.owner[s];
        if !Enabled(st, u) {
          assert OwnerOk(st, s, u);
          var w := RootHolderMoves(limits, root, init, st, u);
        }
      }
    }
  }

  /** As long as some call has not returned, some thread can take a step. */
  lemma {:induction false} NoDeadlock(limits: Limits, root: ScopeId, init: Mem, book: Book, moves: seq<Move>)
    requires MemInv(init, book) && Feasible(limits, root, Idle(init), moves)
    ensures var st := Run(limits, root, Idle(init), moves); AllReturned(st) || exists u :: Enabled(st, u)
  {
    IdleInv(limits, root, init, book);
    RunKeepsInv(limits, root, init, Idle(init), moves);
    SomeoneMoves(limits, root, init, Run(limits, root, Idle(init), moves));
  }

  /** How many steps a call still has ahead of it at most. */
  function StepsLeft(th: Thread): nat {
    var n := |LockOrder(th.call)|;
    match th.phase
    case Locking(k) => 3 * n + 5 + (if k < n then n - k else 0)
    case Checking(k) => 2 * n + 4 + (if k < n then n - k else 0)
    case Updating(k) => n + 3 + (if k < n then n - k else 0)
    case Releasing(k, _) => 1 + (if k <= n then k else 0)
    case Returned(_) => 0
  }

  function AllStepsLeft(threads: seq<Thread>): nat {
    if |threads| == 0 then 0 else StepsLeft(threads[0]) + AllStepsLeft(threads[1..])
  }

  lemma {:induction false} OneThreadChanged(threads: seq<Thread>, t: nat, th: Thread)
    requires t < |threads|
    ensures AllStepsLeft(threads[t := th]) + StepsLeft(threads[t]) == AllStepsLeft(threads) + StepsLeft(th)
  {
    if t == 0 {
      assert threads[t := th][1..] == threads[1..];
    } else {
      assert threads[t := th][1..] == threads[1..][t - 1 := th];
      OneThreadChanged(threads[1..], t - 1, th);
    }
  }

  lemma {:induction false} StepTaken(limits: Limits, st: State, t: nat)
    requires Enabled(st, t)
    ensures |Advance(limits, st, t).threads| == |st.threads|
    ensures Advance(limits, st, t).threads == st.threads[t := Advance(limits, st, t).threads[t]]
    ensures StepsLeft(Advance(limits, st, t).threads[t]) < StepsLeft(st.threads[t])
  {
    hide LockOrder, FitsIn, UpdatedLedger, UpdatedHandles, CoveredBy;
    match st.threads[t].phase
    case Locking(k) =>
    case Checking(k) =>
    case Updating(k) =>
    case Releasing(k, _) =>
    case Returned(_) =>
  }

  lemma {:induction false} EveryStepCounts(limits: Limits, st: State, t: nat)
    requires Enabled(st, t)
    ensures AllStepsLeft(Advance(limits, st, t).threads) < AllStepsLeft(st.threads)
  {
    StepTaken(limits, st, t);
    hide Advance, StepsLeft;
    OneThreadChanged(st.threads, t, Advance(limits, st, t).threads[t]);
  }

  /** Started calls cannot go on for ever: a run without new calls is bounded in length. */
  lemma {:induction false} RunsEnd(limits: Limits, root: ScopeId, st: State, moves: seq<Move>)
    requires Feasible(limits, root, st, moves) && forall m :: m in moves ==> m.Go?
    ensures |moves| <= AllStepsLeft(st.threads)
    decreases |moves|
  {
    if |moves| > 0 {
      EveryStepCounts(limits, st, moves[0].thread);
      hide Advance, Enabled;
      RunsEnd(limits, root, Apply(limits, root, st, moves[0]), moves[1..]);
    }
  }

  /** From every reachable state the calls under way can all be brought to their end. */
  lemma {:induction false} EveryCallCanReturn(limits: Limits, root: ScopeId, init: Mem,
                                              st: State) returns (moves: seq<Move>)
    requires Inv(limits, root, init, st)
    ensures Feasible(limits, root, st, moves) && (forall m :: m in moves ==> m.Go?)
    ensures AllReturned(Run(limits, root, st, moves))
    decreases AllStepsLeft(st.threads)
  {
    moves := [];
    if !AllReturned(st) {
      SomeoneMoves(limits, root, init, st);
      var u :| Enabled(st, u);
      EveryStepCounts(limits, st, u);
      MoveKeepsInv(limits, root, init, st, Go(u));
      hide Inv, Advance, Enabled;
      var rest := EveryCallCanReturn(limits, root, init, Apply(limits, root, st, Go(u)));
      moves := [Go(u)] + rest;
      assert moves[1..] == rest;
    }
  }
}
