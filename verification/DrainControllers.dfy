/** The lifecycle controller as an object whose tables the calls update entry by entry. */
module DrainControllers {
  import opened Scopes
  import opened Draining
  import opened DrainRuns

  method TargetPins(d: Tables, c: string, r: Option<string>) returns (found: set<string>)
    ensures found == PinsOn(d, c, r)
  {
    found := {};
    var todo := d.pins.Keys;
    while todo != {}
      invariant todo <= d.pins.Keys
      invariant found == set p | p in PinsOn(d, c, r) && p !in todo
      decreases todo
    {
      var p :| p in todo;
      if Targets(d.pins[p], c, r) {
        found := found + {p};
      }
      todo := todo - {p};
    }
  }

  method Describe(d: Tables, c: string, r: Option<string>, state: Life) returns (a: Answer)
    ensures a == ViewOf(d, c, r, state)
  {
    var found := TargetPins(d, c, r);
    var cancellable, requested: set<string> := {}, {};
    var todo := found;
    while todo != {}
      invariant todo <= found
      invariant cancellable == set p | p in found && p !in todo && d.pins[p].cancellable
      invariant requested == set p | p in found && p !in todo && d.pins[p].requested
      decreases todo
    {
      var p :| p in todo;
      if d.pins[p].cancellable {
        cancellable := cancellable + {p};
      }
      if d.pins[p].requested {
        requested := requested + {p};
      }
      todo := todo - {p};
    }
    assert cancellable == set p | p in PinsOn(d, c, r) && d.pins[p].cancellable;
    assert requested == set p | p in PinsOn(d, c, r) && d.pins[p].requested;
    a := Snapshot(state, |found|, |cancellable|, |requested|);
  }

  method EveryRevisionRetired(d: Tables, c: string) returns (all: bool)
    ensures all == AllRetired(d, c)
  {
    var todo := d.revisions.Keys;
    while todo != {}
      invariant todo <= d.revisions.Keys
      invariant forall k :: k in d.revisions && k !in todo && k.coordinate == c ==> d.revisions[k] == Retired
      decreases todo
    {
      var k :| k in todo;
      if k.coordinate == c && d.revisions[k] != Retired {
        return false;
      }
      todo := todo - {k};
    }
    all := true;
  }

  lemma StillThere(d: Tables, c: string)
    requires c in d.coordinates
    ensures DrainAll(d, c) == CloseCoordinate(DrainingAll(d, c), c) && c in DrainAll(d, c).coordinates
  {
  }

  class DrainController {
    const cap: Capacity
    var coordinates: map<string, Life>
    var revisions: map<Key, Life>
    var pins: map<string, Pin>

    function Value(): Tables
      reads this
    {
      Tables(coordinates, revisions, pins)
    }

    constructor (maxCoordinates: nat, maxRevisions: nat, maxInFlight: nat)
      requires maxCoordinates > 0 && maxRevisions > 0 && maxInFlight > 0
      ensures Value() == NOTHING && Sound(Value()) && cap == Capacity(maxCoordinates, maxRevisions, maxInFlight)
    {
      cap := Capacity(maxCoordinates, maxRevisions, maxInFlight);
      coordinates, revisions, pins := map[], map[], map[];
    }

    method RegisterRevision(c: string, r: string) returns (a: Answer)
      requires Sound(Value())
      modifies this`coordinates, this`revisions
      ensures (Value(), a) == Register(cap, old(Value()), Key(c, r)) && Sound(Value())
    {
      RegisterKeeps(cap, Value(), Key(c, r));
      hide Sound, ViewOf;
      var k := Key(c, r);
      if k in revisions {
        a := Describe(Value(), c, Some(r), revisions[k]);
        return;
      }
      if c in coordinates && coordinates[c] != Accepting {
        return Refused(CoordinateNotAccepting);
      }
      if |revisions| >= cap.revisions {
        return Refused(StateCapacity);
      }
      if c !in coordinates {
        if |coordinates| >= cap.coordinates {
          return Refused(StateCapacity);
        }
        coordinates := coordinates[c := Accepting];
      }
      assert coordinates == old(coordinates)[c := Accepting];
      revisions := revisions[k := Accepting];
      a := Describe(Value(), c, Some(r), Accepting);
    }

    method AdmitExecution(c: string, r: string, p: string, cancellable: bool) returns (a: Answer)
      requires Sound(Value())
      modifies this`pins
      ensures (Value(), a) == Admit(cap, old(Value()), Key(c, r), p, cancellable) && Sound(Value())
    {
      AdmitKeeps(cap, Value(), Key(c, r), p, cancellable);
      hide Sound;
      var k := Key(c, r);
      if k !in revisions || c !in coordinates {
        return Refused(RevisionNotFound);
      }
      if coordinates[c] != Accepting || revisions[k] != Accepting {
        return Refused(NotAccepting);
      }
      if p in pins {
        var existing := pins[p];
        if existing.coordinate == c && existing.revision == r && existing.cancellable == cancellable {
          return Admitted(p, existing);
        }
        return Refused(PinConflict);
      }
      if |pins| >= cap.inFlight {
        return Refused(PinCapacity);
      }
      pins := pins[p := Pin(c, r, cancellable, false)];
      a := Admitted(p, pins[p]);
    }

    method ReleasePin(p: string) returns (found: bool)
      requires Sound(Value())
      modifies this
      ensures (Value(), Released(found)) == Release(old(Value()), p) && Sound(Value())
    {
      ReleaseKeeps(Value(), p);
      if p !in pins {
        return false;
      }
      assert PinOk(Value(), p);
      FreedIs(Value(), p);
      hide Sound, Orderly, Forward, Release, CloseCoordinate, Freed, PinOk;
      var c := pins[p].coordinate;
      DropPin(p);
      MaybeRetireCoordinate(c);
      found := true;
    }

    /** Takes the pin away and retires its revision if that was draining and this was its last pin. */
    method DropPin(p: string)
      requires p in pins && PinOk(Value(), p)
      modifies this`pins, this`revisions
      ensures Value() == Freed(old(Value()), p)
    {
      var k := Key(pins[p].coordinate, pins[p].revision);
      pins := pins - {p};
      if revisions[k] == Draining {
        var left := TargetPins(Value(), k.coordinate, Some(k.revision));
        if |left| == 0 {
          revisions := revisions[k := Retired];
        }
      }
    }

    method MaybeRetireCoordinate(c: string)
      modifies this`coordinates
      ensures Value() == CloseCoordinate(old(Value()), c)
    {
      if c in coordinates && coordinates[c] == Draining {
        var all := EveryRevisionRetired(Value(), c);
        if all {
          coordinates := coordinates[c := Retired];
        }
      }
    }

    /** Starts draining one revision; one without pins retires at once. */
    method BeginRevisionDrain(k: Key)
      requires k in revisions
      modifies this`revisions
      ensures Value() == old(Value()).(revisions := old(revisions)[k := Drained(old(Value()), k)])
    {
      if revisions[k] == Accepting {
        var found := TargetPins(Value(), k.coordinate, Some(k.revision));
        revisions := revisions[k := if |found| == 0 then Retired else Draining];
      }
    }

    method BeginDrainOf(c: string, r: Option<string>) returns (a: Answer)
      requires Sound(Value())
      modifies this`coordinates, this`revisions
      ensures (Value(), a) == BeginDrain(old(Value()), c, r) && Sound(Value())
    {
      BeginKeeps(Value(), c, r);
      hide Sound, ViewOf, DrainAll;
      if c !in coordinates {
        return Refused(CoordinateNotFound);
      }
      if r.Some? {
        var k := Key(c, r.value);
        if k !in revisions {
          return Refused(RevisionNotFound);
        }
        BeginRevisionDrain(k);
        a := Describe(Value(), c, r, revisions[k]);
        return;
      }
      BeginCoordinateDrain(c);
      a := Describe(Value(), c, r, coordinates[c]);
    }

    method BeginCoordinateDrain(c: string)
      requires c in coordinates
      modifies this`coordinates, this`revisions
      ensures Value() == DrainAll(old(Value()), c) && c in coordinates
    {
      hide CloseCoordinate;
      ghost var before := Value();
      if coordinates[c] == Accepting {
        coordinates := coordinates[c := Draining];
      }
      assert forall k :: k in revisions ==>
        PinsOn(Value(), k.coordinate, Some(k.revision)) == PinsOn(before, k.coordinate, Some(k.revision));
      BeginEveryRevision(c);
      assert Value() == DrainingAll(before, c);
      MaybeRetireCoordinate(c);
      StillThere(before, c);
    }

    method BeginEveryRevision(c: string)
      modifies this`revisions
      ensures Value() == old(Value()).(revisions :=
        map k | k in old(revisions) :: if k.coordinate == c then Drained(old(Value()), k) else old(revisions)[k])
    {
      ghost var before := Value();
      var todo := revisions.Keys;
      while todo != {}
        invariant todo <= revisions.Keys == before.revisions.Keys
        invariant coordinates == before.coordinates && pins == before.pins
        invariant forall k :: k in revisions ==>
          revisions[k] == if k !in todo && k.coordinate == c then Drained(before, k) else before.revisions[k]
        decreases todo
      {
        var k :| k in todo;
        if k.coordinate == c {
          assert PinsOn(Value(), k.coordinate, Some(k.revision)) == PinsOn(before, k.coordinate, Some(k.revision));
          BeginRevisionDrain(k);
        }
        todo := todo - {k};
      }
    }

    /** Past the deadline, asks every cancellable pin of the target that was not asked before. */
    method AdvanceDrain(c: string, r: Option<string>, deadline: real, now: real) returns (a: Answer)
      modifies this
      ensures (Value(), a) == Advance(old(Value()), c, r, deadline, now)
      ensures old(Sound(Value())) ==> Sound(Value())
    {
      if Sound(Value()) {
        AdvanceKeeps(Value(), c, r, deadline, now);
      }
      hide Sound, Forward, Orderly;
      if deadline < 0.0 || now < 0.0 {
        return Refused(InvalidTime);
      }
      var state := TargetState(Value(), c, r);
      if state.None? {
        return Missing(Value(), c);
      }
      if state.value == Retired {
        return Progress(Done, {});
      }
      if state.value != Draining {
        return Refused(NotDraining);
      }
      var found := TargetPins(Value(), c, r);
      if |found| == 0 {
        RetireTargetNow(c, r);
        return Progress(Done, {});
      }
      if now < deadline {
        return Progress(Waiting, {});
      }
      var requests := AskToCancel(c, r, found);
      if requests != {} {
        return Progress(CancelRequested, requests);
      }
      assert pins == old(pins);
      a := Progress(Blocked, {});
    }

    method AskToCancel(c: string, r: Option<string>, found: set<string>) returns (requests: set<string>)
      requires found == PinsOn(Value(), c, r)
      modifies this`pins
      ensures requests == NewRequests(old(Value()), c, r)
      ensures Value() == old(Value()).(pins :=
        map p | p in old(pins) :: if p in requests then old(pins)[p].(requested := true) else old(pins)[p])
    {
      ghost var before := Value();
      requests := {};
      var todo := found;
      while todo != {}
        invariant todo <= found && coordinates == before.coordinates && revisions == before.revisions
        invariant pins.Keys == before.pins.Keys
        invariant requests == set p | p in NewRequests(before, c, r) && p !in todo
        invariant forall p :: p in pins ==>
          pins[p] == if p in requests then before.pins[p].(requested := true) else before.pins[p]
        decreases todo
      {
        var p :| p in todo;
        if pins[p].cancellable && !pins[p].requested {
          pins := pins[p := pins[p].(requested := true)];
          requests := requests + {p};
        }
        todo := todo - {p};
      }
    }

    method RetireTargetNow(c: string, r: Option<string>)
      requires c in coordinates
      modifies this`coordinates, this`revisions
      ensures Value() == RetireTarget(old(Value()), c, r)
    {
      match r
      case Some(v) =>
        revisions := revisions[Key(c, v) := Retired];
        MaybeRetireCoordinate(c);
      case None =>
        ghost var before := Value();
        var todo := revisions.Keys;
        while todo != {}
          invariant todo <= revisions.Keys == before.revisions.Keys
          invariant coordinates == before.coordinates && pins == before.pins
          invariant forall k :: k in revisions ==>
            revisions[k] == if k !in todo && k.coordinate == c && before.revisions[k] == Draining then Retired
                            else before.revisions[k]
          decreases todo
        {
          var k :| k in todo;
          if k.coordinate == c && revisions[k] == Draining {
            revisions := revisions[k := Retired];
          }
          todo := todo - {k};
        }
        coordinates := coordinates[c := Retired];
    }

    method ForceRetireTarget(c: string, r: Option<string>, allowed: bool) returns (a: Answer)
      requires Sound(Value())
      modifies this`coordinates, this`revisions
      ensures (Value(), a) == ForceRetire(old(Value()), c, r, allowed) && Sound(Value())
    {
      ForceKeeps(Value(), c, r, allowed);
      hide Sound, ViewOf;
      if !allowed {
        return Refused(ForceDenied);
      }
      var state := TargetState(Value(), c, r);
      if state.None? {
        return Missing(Value(), c);
      }
      if state.value != Draining {
        return Refused(NotDraining);
      }
      RetireTargetNow(c, r);
      var after := TargetState(Value(), c, r);
      a := Describe(Value(), c, r, after.value);
    }

    method Inspect(c: string, r: Option<string>) returns (a: Answer)
      ensures a == Look(Value(), c, r)
    {
      var state := TargetState(Value(), c, r);
      if state.None? {
        return Missing(Value(), c);
      }
      a := Describe(Value(), c, r, state.value);
    }
  }
}
