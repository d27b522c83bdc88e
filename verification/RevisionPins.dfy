/** The second pin of a drained execution: a callback may pin the revision elsewhere before the drain
    controller is asked, and a matching one gives it back. */
module RevisionPins {
  import opened Scopes
  import opened Draining
  import opened DrainedService

  // ----- one step -----

  /** The callback was absent or named the revision that the call is bound to. */
  predicate Agrees(e: Exec, callback: Callback) {
    callback == Absent || callback == Names(e.key.revision)
  }

  /** A call goes on to the controller exactly when the callback agrees; it owes a pin from the moment
      one is named, be it the right one or not, and none if the callback was absent or raised. Nobody
      else is touched. */
  lemma {:induction false} CallbackDecides(cap: Capacity, norm: Normalizer, w: World, i: nat, callback: Callback)
    requires i < |w.execs| && w.execs[i].phase.Claimed?
    ensures var w' := Step(cap, norm, w, i, callback);
      && PhaseMoved(w, w', i) && w'.tables == w.tables && w'.active == w.active
      && (Agrees(w.execs[i], callback) <==> w'.execs[i].phase.Ready?)
      && (!Agrees(w.execs[i], callback) <==> w'.execs[i].phase.Leaving?)
      && (Owes(w'.execs[i]) <==> callback.Names?)
  {
  }

  /** From the controller's answer on, a call that is admitted works and any other leaves; what it
      owes stays owed until it has left. */
  lemma {:induction false} OthersGoOn(cap: Capacity, norm: Normalizer, w: World, i: nat, callback: Callback)
    requires i < |w.execs| && !w.execs[i].phase.Claimed?
    ensures var e, w' := w.execs[i], Step(cap, norm, w, i, callback);
            var after := w'.execs[i].phase;
      && PhaseMoved(w, w', i)
      && (e.phase.Arriving? ==>
            if e.id in w.active then after == Returned && w'.active == w.active
            else after == Claimed && w'.active == w.active + {e.id})
      && (e.phase.Ready? ==>
            && (after.Running? <==>
                  norm(e.id).Some? && Admit(cap, w.tables, e.key, norm(e.id).value, e.cancellable).1.Admitted?)
            && (!after.Running? ==> after.Leaving?))
      && (e.phase.Running? ==> after.Leaving?)
      && (e.phase.Ready? || e.phase.Running? ==> (Owes(w'.execs[i]) <==> Owes(e)))
      && (e.phase.Leaving? ==> after == Discarding && w'.active == w.active)
      && (e.phase.Discarding? ==> after == Returned && w'.active == w.active - {e.id})
  {
    hide Admit, Release;
  }

  /** The call has a revision pin to give back. */
  predicate Owes(e: Exec) {
    e.phase == Ready(true) || e.phase == Running(true) || e.phase == Leaving(true)
  }

  // ----- what a running call went through -----

  /** Call `i` has not yet heard from the callback. */
  predicate Unheard(w: World, i: nat) {
    i < |w.execs| ==> w.execs[i].phase.Arriving? || w.execs[i].phase.Claimed?
  }

  predicate Gone(w: World, i: nat) {
    i < |w.execs| && (w.execs[i].phase.Leaving? || w.execs[i].phase.Discarding? || w.execs[i].phase.Returned?)
  }

  /** At some move of the run, the callback of call `i` agreed. */
  ghost predicate HeardAgreement(cap: Capacity, norm: Normalizer, names: iset<string>, w: World, moves: seq<Move>,
                                 i: nat)
    requires Feasible(cap, norm, names, w, moves)
    decreases |moves|
  {
    |moves| > 0
    && ((moves[0].Continue? && moves[0].index == i
         && w.execs[i].phase.Claimed? && Agrees(w.execs[i], moves[0].callback))
        || HeardAgreement(cap, norm, names, Next(cap, norm, w, moves[0]), moves[1..], i))
  }

  /** One move, seen by call `i`. */
  lemma {:induction false} OneMove(cap: Capacity, norm: Normalizer, names: iset<string>, w: World, move: Move, i: nat)
    requires Permitted(names, w, move)
    ensures var w' := Next(cap, norm, w, move);
      && (Gone(w, i) ==> Gone(w', i))
      && (Unheard(w, i) ==>
            || Unheard(w', i) || Gone(w', i)
            || (move.Continue? && move.index == i && w.execs[i].phase.Claimed? && Agrees(w.execs[i], move.callback)))
  {
    hide Apply;
    if move.Continue? {
      if w.execs[move.index].phase.Claimed? {
        CallbackDecides(cap, norm, w, move.index, move.callback);
      } else {
        OthersGoOn(cap, norm, w, move.index, move.callback);
      }
    }
    hide Step, Apply;
  }

  lemma {:induction false} GoneForGood(cap: Capacity, norm: Normalizer, names: iset<string>, w: World,
                                       moves: seq<Move>, i: nat)
    requires Feasible(cap, norm, names, w, moves) && Gone(w, i)
    ensures Gone(Run(cap, norm, names, w, moves), i)
    decreases |moves|
  {
    hide Gone, Next;
    if |moves| > 0 {
      OneMove(cap, norm, names, w, moves[0], i);
      GoneForGood(cap, norm, names, Next(cap, norm, w, moves[0]), moves[1..], i);
    }
  }

  /** No provider works unless the callback, if there is one, named the very revision that the call is
      bound to; in every interleaving. */
  lemma {:induction false} ProviderWasAgreed(cap: Capacity, norm: Normalizer, names: iset<string>, w: World,
                                             moves: seq<Move>, i: nat)
    requires Feasible(cap, norm, names, w, moves) && Unheard(w, i)
    requires var w' := Run(cap, norm, names, w, moves); i < |w'.execs| && w'.execs[i].phase.Running?
    ensures HeardAgreement(cap, norm, names, w, moves, i)
    decreases |moves|
  {
    hide Next;
    if |moves| > 0 {
      var next := Next(cap, norm, w, moves[0]);
      OneMove(cap, norm, names, w, moves[0], i);
      if Gone(next, i) {
        GoneForGood(cap, norm, names, next, moves[1..], i);
      } else if Unheard(next, i) {
        ProviderWasAgreed(cap, norm, names, next, moves[1..], i);
      }
    }
  }

  // ----- pins handed out and given back -----

  function Owed(execs: seq<Exec>): nat {
    if |execs| == 0 then 0 else Owed(execs[1..]) + (if Owes(execs[0]) then 1 else 0)
  }

  lemma {:induction false} OwedMoved(execs: seq<Exec>, i: nat, e: Exec)
    requires i < |execs|
    ensures Owed(execs[i := e]) == Owed(execs) + (if Owes(e) then 1 else 0) - (if Owes(execs[i]) then 1 else 0)
  {
    var after := execs[i := e];
    if i == 0 {
      assert after[1..] == execs[1..];
    } else {
      OwedMoved(execs[1..], i - 1, e);
      assert after[1..] == execs[1..][i - 1 := e];
    }
  }

  lemma {:induction false} OwedEntered(execs: seq<Exec>, e: Exec)
    requires !Owes(e)
    ensures Owed(execs + [e]) == Owed(execs)
  {
    if |execs| > 0 {
      OwedEntered(execs[1..], e);
      assert (execs + [e])[1..] == execs[1..] + [e];
    }
  }

  /** The callback names a revision, and so has pinned it. */
  predicate HandsOut(w: World, move: Move) {
    move.Continue? && move.index < |w.execs| && w.execs[move.index].phase.Claimed? && move.callback.Names?
  }

  /** A call leaves that owes a pin: its release callback is called. */
  predicate GivesBack(w: World, move: Move) {
    move.Continue? && move.index < |w.execs| && w.execs[move.index].phase == Leaving(true)
  }

  ghost function HandedOut(cap: Capacity, norm: Normalizer, names: iset<string>, w: World, moves: seq<Move>): nat
    requires Feasible(cap, norm, names, w, moves)
    decreases |moves|
  {
    if |moves| == 0 then 0
    else (if HandsOut(w, moves[0]) then 1 else 0)
         + HandedOut(cap, norm, names, Next(cap, norm, w, moves[0]), moves[1..])
  }

  ghost function GivenBack(cap: Capacity, norm: Normalizer, names: iset<string>, w: World, moves: seq<Move>): nat
    requires Feasible(cap, norm, names, w, moves)
    decreases |moves|
  {
    if |moves| == 0 then 0
    else (if GivesBack(w, moves[0]) then 1 else 0)
         + GivenBack(cap, norm, names, Next(cap, norm, w, moves[0]), moves[1..])
  }

  lemma {:induction false} OneMoveOwes(cap: Capacity, norm: Normalizer, names: iset<string>, w: World, move: Move)
    requires Permitted(names, w, move)
    ensures Owed(Next(cap, norm, w, move).execs) + (if GivesBack(w, move) then 1 else 0)
         == Owed(w.execs) + (if HandsOut(w, move) then 1 else 0)
  {
    hide Apply, Owed;
    match move
    case Enter(key, cancellable, id) => OwedEntered(w.execs, Exec(key, cancellable, id, Arriving));
    case Control(_) =>
    case Continue(i, callback) =>
      var w' := Step(cap, norm, w, i, callback);
      if w.execs[i].phase.Claimed? {
        CallbackDecides(cap, norm, w, i, callback);
      } else {
        OthersGoOn(cap, norm, w, i, callback);
      }
      hide Step;
      OwedMoved(w.execs, i, w'.execs[i]);
      assert w'.execs == w.execs[i := w'.execs[i]];
  }

  /** In every interleaving, the revision pins handed out are those given back and those still owed. */
  lemma {:induction false} RevisionPinsBalance(cap: Capacity, norm: Normalizer, names: iset<string>, w: World,
                                               moves: seq<Move>)
    requires Feasible(cap, norm, names, w, moves)
    ensures Owed(Run(cap, norm, names, w, moves).execs) + GivenBack(cap, norm, names, w, moves)
         == Owed(w.execs) + HandedOut(cap, norm, names, w, moves)
    decreases |moves|
  {
    hide Next, Owed, GivesBack, HandsOut;
    if |moves| > 0 {
      OneMoveOwes(cap, norm, names, w, moves[0]);
      RevisionPinsBalance(cap, norm, names, Next(cap, norm, w, moves[0]), moves[1..]);
    }
  }

  lemma {:induction false} NoneOwed(execs: seq<Exec>)
    requires forall i :: 0 <= i < |execs| ==> execs[i].phase.Returned?
    ensures Owed(execs) == 0
  {
    if |execs| > 0 {
      NoneOwed(execs[1..]);
    }
  }

  /** When every call has come back, as many revision pins were given back as were handed out. */
  lemma {:induction false} RevisionPinsReturn(cap: Capacity, norm: Normalizer, names: iset<string>, before: Tables,
                                              moves: seq<Move>)
    requires Feasible(cap, norm, names, Fresh(before), moves)
    requires AllReturned(Run(cap, norm, names, Fresh(before), moves))
    ensures GivenBack(cap, norm, names, Fresh(before), moves) == HandedOut(cap, norm, names, Fresh(before), moves)
  {
    hide Feasible, GivenBack, HandedOut;
    RevisionPinsBalance(cap, norm, names, Fresh(before), moves);
    NoneOwed(Run(cap, norm, names, Fresh(before), moves).execs);
  }
}
