/** What each call on the drain controller does, state by state and pin by pin, and exactly when it is
    refused or has to wait. */
module DrainEffects {
  import opened Scopes
  import opened Draining
  import opened DrainRuns

  // ----- reading -----

  function RevisionState(d: Tables, k: Key): Option<Life> {
    if k in d.revisions then Some(d.revisions[k]) else None
  }

  function CoordinateState(d: Tables, c: string): Option<Life> {
    if c in d.coordinates then Some(d.coordinates[c]) else None
  }

  function PinNamed(d: Tables, p: string): Option<Pin> {
    if p in d.pins then Some(d.pins[p]) else None
  }

  /** Pin `p` is on revision `r` of `c`, or anywhere on `c`. */
  predicate On(d: Tables, p: string, c: string, r: Option<string>) {
    p in d.pins && d.pins[p].coordinate == c && (r.Some? ==> d.pins[p].revision == r.value)
  }

  predicate Pinned(d: Tables, k: Key) {
    exists p :: p in d.pins && On(d, p, k.coordinate, Some(k.revision))
  }

  lemma PinnedIs(d: Tables, k: Key)
    ensures Pinned(d, k) <==> PinsOn(d, k.coordinate, Some(k.revision)) != {}
  {
    if p :| p in d.pins && On(d, p, k.coordinate, Some(k.revision)) {
      assert p in PinsOn(d, k.coordinate, Some(k.revision));
    }
    if p :| p in PinsOn(d, k.coordinate, Some(k.revision)) {
      assert On(d, p, k.coordinate, Some(k.revision));
    }
  }

  // ----- advancing -----

  predicate Unasked(d: Tables, p: string, c: string, r: Option<string>) {
    On(d, p, c, r) && d.pins[p].cancellable && !d.pins[p].requested
  }

  /** Advancing a draining target waits exactly until the deadline; from then on it asks exactly the
      cancellable pins of the target that were not asked before, and is blocked exactly when there is
      none left to ask. Whoever was asked is marked, and nothing else changes. */
  lemma {:induction false} AdvanceExactly(d: Tables, c: string, r: Option<string>, deadline: real, now: real)
    requires Sound(d) && TargetState(d, c, r) == Some(Draining) && deadline >= 0.0 && now >= 0.0
    ensures var (d', a) := Advance(d, c, r, deadline, now);
      && a.Progress? && a.outcome != Done
      && (a.outcome == Waiting <==> now < deadline)
      && (a.outcome == Blocked <==> deadline <= now && forall p :: p in d.pins ==> !Unasked(d, p, c, r))
      && (forall p :: p in a.requests <==> deadline <= now && Unasked(d, p, c, r))
      && d'.coordinates == d.coordinates && d'.revisions == d.revisions && d'.pins.Keys == d.pins.Keys
      && (forall p :: p in d.pins ==>
            d'.pins[p] == if p in a.requests then d.pins[p].(requested := true) else d.pins[p])
  {
    AdvanceNeverRetires(d, c, r, deadline, now);
    hide Sound, TargetState, ViewOf;
    var requests := NewRequests(d, c, r);
    forall p ensures p in requests <==> Unasked(d, p, c, r) {
      assert p in PinsOn(d, c, r) <==> On(d, p, c, r);
    }
    if requests == {} {
      forall p | p in d.pins ensures !Unasked(d, p, c, r) {
        assert p !in requests;
      }
    } else {
      var p :| p in requests;
      assert p in d.pins && Unasked(d, p, c, r);
    }
    hide PinsOn, NewRequests, Unasked;
  }

  /** After the deadline every cancellable pin of the target has been asked. */
  lemma {:induction false} AfterTheDeadlineAllAreAsked(d: Tables, c: string, r: Option<string>, deadline: real,
                                                       now: real)
    requires Sound(d) && TargetState(d, c, r) == Some(Draining) && 0.0 <= deadline <= now
    ensures var d' := Advance(d, c, r, deadline, now).0;
            forall p :: p in d'.pins && On(d', p, c, r) && d'.pins[p].cancellable ==> d'.pins[p].requested
  {
    AdvanceExactly(d, c, r, deadline, now);
    hide Advance;
  }

  /** What is not draining is not advanced: a retired target is reported done, an accepting one is
      refused, a missing one is not found, and times have to be valid. */
  lemma {:induction false} AdvanceElsewhere(d: Tables, c: string, r: Option<string>, deadline: real, now: real)
    requires TargetState(d, c, r) != Some(Draining) || deadline < 0.0 || now < 0.0
    ensures Advance(d, c, r, deadline, now).0 == d
    ensures Advance(d, c, r, deadline, now).1 ==
            if deadline < 0.0 || now < 0.0 then Refused(InvalidTime)
            else if TargetState(d, c, r) == Some(Retired) then Progress(Done, {})
            else if TargetState(d, c, r) == Some(Accepting) then Refused(NotDraining)
            else Refused(if c in d.coordinates then RevisionNotFound else CoordinateNotFound)
  {
    hide PinsOn, NewRequests;
    match TargetState(d, c, r)
    case None =>
    case Some(life) => assert life == Accepting || life == Draining || life == Retired;
  }

  /** In no run is a pin asked but by an advance of its revision or coordinate at or after the
      deadline of that advance. */
  lemma {:induction false} AskedAtTheDeadline(cap: Capacity, d: Tables, call: Call, p: string)
    requires AsksFor(cap, d, call, p)
    ensures call.Advancing? && 0.0 <= call.deadline <= call.now && Unasked(d, p, call.coordinate, call.revision)
  {
    hide PinsOn, CloseCoordinate, AllRetired, NewRequests;
    if call.Advancing? {
      AskedThen(d, call, p);
    }
  }

  lemma AskedThen(d: Tables, call: Call, p: string)
    requires call.Advancing?
    requires var a := Advance(d, call.coordinate, call.revision, call.deadline, call.now).1;
             a.Progress? && p in a.requests
    ensures 0.0 <= call.deadline <= call.now && Unasked(d, p, call.coordinate, call.revision)
  {
  }

  lemma {:induction false} MarkedByAsking(cap: Capacity, d: Tables, call: Call, p: string)
    requires Asked(Apply(cap, d, call).0, p) && !AsksFor(cap, d, call, p)
    ensures Asked(d, p) && call != Releasing(p)
  {
    hide PinsOn, AllRetired;
  }

  /** Call `i` is an advance at or after its deadline that asks for `p`, which is not released later. */
  ghost predicate AskedBy(cap: Capacity, calls: seq<Call>, i: nat, p: string)
    requires i < |calls|
  {
    && calls[i].Advancing? && 0.0 <= calls[i].deadline <= calls[i].now
    && AsksFor(cap, Run(cap, NOTHING, calls[..i]), calls[i], p)
    && forall j :: i < j < |calls| ==> calls[j] != Releasing(p)
  }

  lemma AskedEarlier(cap: Capacity, calls: seq<Call>, i: nat, p: string)
    requires |calls| > 0 && i < |calls| - 1 && AskedBy(cap, calls[..|calls| - 1], i, p)
    requires calls[|calls| - 1] != Releasing(p)
    ensures AskedBy(cap, calls, i, p)
  {
    hide Run, AsksFor;
    var n := |calls| - 1;
    assert calls[..n][..i] == calls[..i] && calls[..n][i] == calls[i];
    forall j | i < j < |calls| ensures calls[j] != Releasing(p) {
      assert j < n ==> calls[..n][j] == calls[j];
    }
  }

  /** A pin that is marked was asked by an advance at or after its deadline, and not released since. */
  lemma {:induction false} MarkedPinsWereAsked(cap: Capacity, calls: seq<Call>, p: string)
    requires Asked(Run(cap, NOTHING, calls), p)
    ensures exists i :: 0 <= i < |calls| && AskedBy(cap, calls, i, p)
    decreases |calls|
  {
    if |calls| > 0 {
      var n := |calls| - 1;
      var before := Run(cap, NOTHING, calls[..n]);
      RunLast(cap, NOTHING, calls);
      hide Run, Apply, AsksFor;
      if AsksFor(cap, before, calls[n], p) {
        AskedAtTheDeadline(cap, before, calls[n], p);
        assert AskedBy(cap, calls, n, p);
      } else {
        MarkedByAsking(cap, before, calls[n], p);
        MarkedPinsWereAsked(cap, calls[..n], p);
        var i :| 0 <= i < n && AskedBy(cap, calls[..n], i, p);
        hide AskedBy;
        AskedEarlier(cap, calls, i, p);
      }
    }
  }

  /** The answer tells the state of the target and how many of its pins there are, may be cancelled,
      and were asked to. */
  predicate Shows(d: Tables, c: string, r: Option<string>, a: Answer) {
    && a.Snapshot?
    && Some(a.state) == (if r.None? then CoordinateState(d, c) else RevisionState(d, Key(c, r.value)))
    && a.inFlight == |set p | p in d.pins && On(d, p, c, r)|
    && a.cancellable == |set p | p in d.pins && On(d, p, c, r) && d.pins[p].cancellable|
    && a.cancelling == |set p | p in d.pins && On(d, p, c, r) && d.pins[p].requested|
  }

  lemma {:induction false} ViewShows(d: Tables, c: string, r: Option<string>, state: Life)
    requires Some(state) == if r.None? then CoordinateState(d, c) else RevisionState(d, Key(c, r.value))
    ensures Shows(d, c, r, ViewOf(d, c, r, state))
  {
    var pins := PinsOn(d, c, r);
    assert pins == set p | p in d.pins && On(d, p, c, r);
    assert (set p | p in pins && d.pins[p].cancellable)
        == set p | p in d.pins && On(d, p, c, r) && d.pins[p].cancellable;
    assert (set p | p in pins && d.pins[p].requested) == set p | p in d.pins && On(d, p, c, r) && d.pins[p].requested;
    hide PinsOn, On;
  }

  /** A look shows the target, or says what is missing. */
  lemma {:induction false} LookExactly(d: Tables, c: string, r: Option<string>)
    ensures c in d.coordinates && (r.Some? ==> Key(c, r.value) in d.revisions) <==> Shows(d, c, r, Look(d, c, r))
    ensures c !in d.coordinates <==> Look(d, c, r) == Refused(CoordinateNotFound)
    ensures c in d.coordinates && r.Some? && Key(c, r.value) !in d.revisions <==>
            Look(d, c, r) == Refused(RevisionNotFound)
  {
    if TargetState(d, c, r).Some? {
      ViewShows(d, c, r, TargetState(d, c, r).value);
    }
    hide Shows, PinsOn;
    if Shows(d, c, r, Look(d, c, r)) {
      ShownIsSnapshot(d, c, r, Look(d, c, r));
    }
  }

  lemma ShownIsSnapshot(d: Tables, c: string, r: Option<string>, a: Answer)
    requires Shows(d, c, r, a)
    ensures a.Snapshot?
  {
    hide On;
  }

  /** Registering, starting to drain and forcing answer with what the target has become. */
  lemma {:induction false} AnswersShow(cap: Capacity, d: Tables, call: Call)
    requires call.Registering? || call.Beginning? || call.Forcing?
    ensures var (d', a) := Apply(cap, d, call);
      && (call.Registering? ==> a.Refused? || Shows(d', call.key.coordinate, Some(call.key.revision), a))
      && (!call.Registering? ==> a.Refused? || Shows(d', call.coordinate, call.revision, a))
  {
    hide Shows, PinsOn, DrainAll, CloseCoordinate, RetireTarget;
    var (d', a) := Apply(cap, d, call);
    if !a.Refused? {
      if call.Registering? {
        ViewShows(d', call.key.coordinate, Some(call.key.revision), d'.revisions[call.key]);
      } else {
        LookExactly(d', call.coordinate, call.revision);
      }
    }
  }

  /** Why an execution is not admitted, or a revision not taken in. */
  lemma {:induction false} RefusedFor(cap: Capacity, d: Tables, k: Key, p: string, cancellable: bool)
    ensures var a := Admit(cap, d, k, p, cancellable).1;
            var states := (RevisionState(d, k), CoordinateState(d, k.coordinate));
      && (a == Refused(RevisionNotFound) <==> states.0.None? || states.1.None?)
      && (a == Refused(NotAccepting) <==>
            states.0.Some? && states.1.Some? && states != (Some(Accepting), Some(Accepting)))
      && (a == Refused(PinConflict) <==>
            && states == (Some(Accepting), Some(Accepting)) && p in d.pins
            && !(On(d, p, k.coordinate, Some(k.revision)) && d.pins[p].cancellable == cancellable))
      && (a == Refused(PinCapacity) <==>
            states == (Some(Accepting), Some(Accepting)) && p !in d.pins && |d.pins| >= cap.inFlight)
    ensures var a, state := Register(cap, d, k).1, CoordinateState(d, k.coordinate);
      && (a == Refused(CoordinateNotAccepting) <==> k !in d.revisions && state !in {None, Some(Accepting)})
      && (a.Refused? ==> a == Refused(CoordinateNotAccepting) || a == Refused(StateCapacity))
  {
    hide PinsOn;
  }

  // ----- admitting -----

  /** An execution is admitted exactly when its revision and its coordinate accept and its pin name is
      free with room for one more, or holds that very execution already; and then it has its pin. */
  lemma {:induction false} AdmitExactly(cap: Capacity, d: Tables, k: Key, p: string, cancellable: bool)
    ensures var (d', a) := Admit(cap, d, k, p, cancellable);
      && (a.Admitted? <==>
            && RevisionState(d, k) == Some(Accepting) && CoordinateState(d, k.coordinate) == Some(Accepting)
            && if p in d.pins then On(d, p, k.coordinate, Some(k.revision)) && d.pins[p].cancellable == cancellable
               else |d.pins| < cap.inFlight)
      && (a.Admitted? ==>
            && a.id == p && PinNamed(d', p) == Some(a.pin)
            && a.pin.coordinate == k.coordinate && a.pin.revision == k.revision && a.pin.cancellable == cancellable
            && (p !in d.pins ==> !a.pin.requested) && (p in d.pins ==> d' == d))
      && (!a.Admitted? ==> d' == d)
      && d'.coordinates == d.coordinates && d'.revisions == d.revisions
      && (forall q :: q != p ==> PinNamed(d', q) == PinNamed(d, q))
  {
  }

  // ----- registering -----

  /** A known revision is left as it is; a new one is taken in, accepting, exactly when its coordinate
      is new or accepting and there is room. Nothing else changes. */
  lemma {:induction false} RegisterExactly(cap: Capacity, d: Tables, k: Key)
    ensures var (d', a) := Register(cap, d, k);
      && (a.Refused? <==>
            && k !in d.revisions
            && (CoordinateState(d, k.coordinate) !in {None, Some(Accepting)} || |d.revisions| >= cap.revisions
                || (k.coordinate !in d.coordinates && |d.coordinates| >= cap.coordinates)))
      && (a.Refused? || k in d.revisions ==> d' == d)
      && (!a.Refused? && k !in d.revisions ==>
            && RevisionState(d', k) == Some(Accepting) && CoordinateState(d', k.coordinate) == Some(Accepting)
            && (forall j :: j != k ==> RevisionState(d', j) == RevisionState(d, j))
            && (forall c :: c != k.coordinate ==> CoordinateState(d', c) == CoordinateState(d, c)))
      && d'.pins == d.pins
  {
    hide PinsOn;
  }

  // ----- releasing, draining, forcing -----

  /** A draining coordinate retires when none of its revisions is left open, and only then. */
  function Closed(before: Option<Life>, open: bool): Option<Life> {
    if before == Some(Draining) && !open then Some(Retired) else before
  }

  /** Some revision of the coordinate is not retired. */
  predicate StillOpen(d: Tables, c: string) {
    exists k :: k in d.revisions && k.coordinate == c && d.revisions[k] != Retired
  }

  lemma {:induction false} CloseExactly(d: Tables, c: string)
    ensures var d' := CloseCoordinate(d, c);
      && CoordinateState(d', c) == Closed(CoordinateState(d, c), StillOpen(d, c))
      && (forall b :: b != c ==> CoordinateState(d', b) == CoordinateState(d, b))
      && d'.revisions == d.revisions && d'.pins == d.pins
  {
    assert AllRetired(d, c) <==> !StillOpen(d, c);
  }

  /** Releasing takes away exactly that pin. Its revision retires exactly when it drains and no other
      pin is left on it, and its coordinate when that drains and nothing of it is left open. */
  lemma {:induction false} ReleaseExactly(d: Tables, p: string)
    requires Sound(d)
    ensures var (d', a) := Release(d, p);
      && a == Released(p in d.pins)
      && (forall q :: PinNamed(d', q) == if q == p then None else PinNamed(d, q))
      && (p !in d.pins ==> d' == d)
      && (p in d.pins ==>
            var k := Key(d.pins[p].coordinate, d.pins[p].revision);
            && RevisionState(d', k) ==
               (if RevisionState(d, k) == Some(Draining) && !Pinned(d', k) then Some(Retired) else RevisionState(d, k))
            && (forall j :: j != k ==> RevisionState(d', j) == RevisionState(d, j))
            && CoordinateState(d', k.coordinate) ==
               Closed(CoordinateState(d, k.coordinate), StillOpen(d', k.coordinate))
            && (forall c :: c != k.coordinate ==> CoordinateState(d', c) == CoordinateState(d, c)))
  {
    if p in d.pins {
      var k := Key(d.pins[p].coordinate, d.pins[p].revision);
      assert PinOk(d, p);
      hide Sound, PinOk;
      FreedIs(d, p);
      CloseExactly(Freed(d, p), k.coordinate);
      FreedExactly(d, p);
      hide Release, Freed, CloseCoordinate;
    }
  }

  lemma {:induction false} FreedExactly(d: Tables, p: string)
    requires p in d.pins && Key(d.pins[p].coordinate, d.pins[p].revision) in d.revisions
    ensures var f, k := Freed(d, p), Key(d.pins[p].coordinate, d.pins[p].revision);
      && f.coordinates == d.coordinates
      && (forall q :: PinNamed(f, q) == if q == p then None else PinNamed(d, q))
      && RevisionState(f, k) ==
         (if RevisionState(d, k) == Some(Draining) && !Pinned(f, k) then Some(Retired) else RevisionState(d, k))
      && (forall j :: j != k ==> RevisionState(f, j) == RevisionState(d, j))
  {
    var f, k := Freed(d, p), Key(d.pins[p].coordinate, d.pins[p].revision);
    PinnedIs(f, k);
    assert f.pins == d.pins - {p};
    hide Pinned;
  }

  /** What becomes of a revision that starts to drain: if it accepts, it drains while it is pinned and
      retires at once if it is not. */
  function DrainingFrom(before: Option<Life>, pinned: bool): Option<Life> {
    if before != Some(Accepting) then before else if pinned then Some(Draining) else Some(Retired)
  }

  /** Starting to drain one revision changes that revision only. */
  lemma {:induction false} BeginRevisionExactly(d: Tables, k: Key)
    ensures var (d', a) := BeginDrain(d, k.coordinate, Some(k.revision));
      && (a.Refused? <==> k.coordinate !in d.coordinates || k !in d.revisions) && (a.Refused? ==> d' == d)
      && (!a.Refused? ==> RevisionState(d', k) == DrainingFrom(RevisionState(d, k), Pinned(d, k)))
      && (forall j :: j != k ==> RevisionState(d', j) == RevisionState(d, j))
      && d'.coordinates == d.coordinates && d'.pins == d.pins
  {
    PinnedIs(d, k);
    hide Pinned, PinsOn;
  }

  /** Starting to drain a coordinate does so to each of its revisions; the coordinate no longer accepts,
      and retires at once when nothing of it is left open. */
  lemma {:induction false} BeginCoordinateExactly(d: Tables, c: string)
    ensures var (d', a) := BeginDrain(d, c, None);
      && (a.Refused? <==> c !in d.coordinates) && (a.Refused? ==> d' == d)
      && (!a.Refused? ==>
            && (forall k :: RevisionState(d', k) ==
                  if k.coordinate == c then DrainingFrom(RevisionState(d, k), Pinned(d, k)) else RevisionState(d, k))
            && CoordinateState(d', c) ==
               Closed(if CoordinateState(d, c) == Some(Accepting) then Some(Draining) else CoordinateState(d, c),
                      StillOpen(d', c))
            && (forall b :: b != c ==> CoordinateState(d', b) == CoordinateState(d, b)))
      && d'.pins == d.pins
  {
    if c in d.coordinates {
      var f := DrainingAll(d, c);
      forall k ensures Pinned(d, k) <==> PinsOn(d, k.coordinate, Some(k.revision)) != {} {
        PinnedIs(d, k);
      }
      CloseExactly(f, c);
      hide Pinned, PinsOn, CloseCoordinate, StillOpen;
    }
  }

  /** Forcing retires a draining target without asking who still uses it: of a coordinate, itself and
      all its draining revisions; of a revision, that one, and its coordinate if nothing else is open.
      It has to be allowed, and no pin is touched. */
  lemma {:induction false} ForceExactly(d: Tables, c: string, r: Option<string>, allowed: bool)
    requires Sound(d)
    ensures var (d', a) := ForceRetire(d, c, r, allowed);
      && (a.Refused? <==> !allowed || TargetState(d, c, r) != Some(Draining)) && (a.Refused? ==> d' == d)
      && (!a.Refused? ==>
            && (forall k :: RevisionState(d', k) ==
                  if k.coordinate == c && (r.None? || k.revision == r.value) && RevisionState(d, k) == Some(Draining)
                  then Some(Retired) else RevisionState(d, k))
            && CoordinateState(d', c) ==
               (if r.None? then Some(Retired) else Closed(CoordinateState(d, c), StillOpen(d', c)))
            && (forall b :: b != c ==> CoordinateState(d', b) == CoordinateState(d, b)))
      && d'.pins == d.pins
  {
    if allowed && TargetState(d, c, r) == Some(Draining) && r.Some? {
      CloseExactly(d.(revisions := d.revisions[Key(c, r.value) := Retired]), c);
      hide CloseCoordinate, StillOpen;
    }
    hide Sound, PinsOn;
  }
}
