/** What every run of the lifecycle controller keeps. */
module DrainRuns {
  import opened Scopes
  import opened Draining

  // ----- one call -----

  lemma {:induction false} CloseKeeps(d: Tables, c: string)
    requires forall k :: k in d.revisions ==> RevisionOk(d, k)
    requires forall p :: p in d.pins ==> PinOk(d, p)
    requires forall b :: b in d.coordinates && b != c ==> CoordinateOk(d, b)
    requires c in d.coordinates && (d.coordinates[c] == Retired ==> AllRetired(d, c))
    ensures Sound(CloseCoordinate(d, c)) && Forward(d, CloseCoordinate(d, c))
    ensures Orderly(d) ==> Orderly(CloseCoordinate(d, c))
  {
    var d' := CloseCoordinate(d, c);
    forall k | k in d'.revisions ensures RevisionOk(d', k) {
      assert RevisionOk(d, k);
      assert PinsOn(d', k.coordinate, Some(k.revision)) == PinsOn(d, k.coordinate, Some(k.revision));
    }
    forall b | b in d'.coordinates ensures CoordinateOk(d', b) {
      if b != c {
        assert CoordinateOk(d, b);
        assert HasDraining(d, b) ==> HasDraining(d', b);
        assert AllRetired(d, b) ==> AllRetired(d', b);
      } else if d.coordinates[c] == Draining && !AllRetired(d, c) {
        var k :| k in d.revisions && k.coordinate == c && d.revisions[k] != Retired;
        assert RevisionOk(d, k);
        assert HasDraining(d', c);
      } else {
        assert AllRetired(d, c) ==> AllRetired(d', c);
      }
    }
    forall p | p in d'.pins ensures PinOk(d', p) {
      assert PinOk(d, p);
    }
    if Orderly(d) {
      forall p | p in d'.pins && PinOk(d', p)
        ensures d'.revisions[Key(d'.pins[p].coordinate, d'.pins[p].revision)] != Retired
      {
        assert PinOk(d, p);
      }
    }
  }

  /** A coordinate whose own entries did not change stays as it was. */
  lemma {:induction false} OtherCoordinateStays(d: Tables, f: Tables, b: string)
    requires Sound(d) && b in d.coordinates && b in f.coordinates && f.coordinates[b] == d.coordinates[b]
    requires f.revisions.Keys == d.revisions.Keys
    requires forall k :: k in d.revisions && k.coordinate == b ==> f.revisions[k] == d.revisions[k]
    ensures CoordinateOk(f, b)
  {
    assert CoordinateOk(d, b);
    if HasDraining(d, b) {
      var k :| k in d.revisions && k.coordinate == b && d.revisions[k] == Draining;
      assert f.revisions[k] == Draining;
      assert HasDraining(f, b);
    }
  }

  /** A new revision of an accepting coordinate. */
  function WithRevision(d: Tables, k: Key): Tables {
    d.(coordinates := d.coordinates[k.coordinate := Accepting], revisions := d.revisions[k := Accepting])
  }

  lemma {:induction false} NewRevision(d: Tables, k: Key)
    requires Sound(d) && k !in d.revisions
    requires k.coordinate in d.coordinates ==> d.coordinates[k.coordinate] == Accepting
    ensures Sound(WithRevision(d, k)) && Forward(d, WithRevision(d, k))
  {
    var d' := WithRevision(d, k);
    forall j | j in d'.revisions ensures RevisionOk(d', j) {
      assert j != k ==> RevisionOk(d, j);
      assert PinsOn(d', j.coordinate, Some(j.revision)) == PinsOn(d, j.coordinate, Some(j.revision));
    }
    forall p | p in d'.pins ensures PinOk(d', p) {
      assert PinOk(d, p);
    }
    forall b | b in d'.coordinates ensures CoordinateOk(d', b) {
      if b != k.coordinate {
        assert CoordinateOk(d, b);
        assert HasDraining(d, b) ==> HasDraining(d', b);
      }
    }
  }

  lemma {:induction false} RegisterKeeps(cap: Capacity, d: Tables, k: Key)
    requires Sound(d)
    ensures var d' := Register(cap, d, k).0; Sound(d') && Forward(d, d') && (Orderly(d) ==> Orderly(d'))
  {
    hide PinsOn, ViewOf;
    var d' := Register(cap, d, k).0;
    if k !in d.revisions && k in d'.revisions {
      NewRevision(d, k);
      assert d' == WithRevision(d, k);
      forall p | p in d.pins ensures PinOk(d, p) {
      }
      hide Sound, Forward, PinsOn, ViewOf;
    }
  }

  lemma {:induction false} AdmitKeeps(cap: Capacity, d: Tables, k: Key, p: string, cancellable: bool)
    requires Sound(d)
    ensures var d' := Admit(cap, d, k, p, cancellable).0; Sound(d') && Forward(d, d') && (Orderly(d) ==> Orderly(d'))
  {
    var d' := Admit(cap, d, k, p, cancellable).0;
    if d' != d {
      forall j | j in d'.revisions ensures RevisionOk(d', j) {
        assert RevisionOk(d, j);
        assert PinsOn(d, j.coordinate, Some(j.revision)) <= PinsOn(d', j.coordinate, Some(j.revision));
      }
      forall b | b in d'.coordinates ensures CoordinateOk(d', b) {
        assert CoordinateOk(d, b);
        assert HasDraining(d, b) ==> HasDraining(d', b);
        assert AllRetired(d, b) ==> AllRetired(d', b);
      }
      forall q | q in d'.pins ensures PinOk(d', q) && (Orderly(d) ==>
        d'.revisions[Key(d'.pins[q].coordinate, d'.pins[q].revision)] != Retired) {
        assert q != p ==> PinOk(d, q);
      }
    }
  }

  /** The pin is gone and its revision may have retired; only the coordinate is still to close. */
  function Freed(d: Tables, p: string): Tables
    requires p in d.pins
  {
    var k := Key(d.pins[p].coordinate, d.pins[p].revision);
    var freed := d.(pins := d.pins - {p});
    if k in d.revisions && d.revisions[k] == Draining && PinsOn(freed, k.coordinate, Some(k.revision)) == {}
    then freed.(revisions := d.revisions[k := Retired]) else freed
  }

  lemma {:induction false} FreedPins(d: Tables, p: string, k: Key)
    requires p in d.pins && PinOk(d, p) && k in d.revisions
    ensures k != Key(d.pins[p].coordinate, d.pins[p].revision) ==>
      PinsOn(Freed(d, p), k.coordinate, Some(k.revision)) == PinsOn(d, k.coordinate, Some(k.revision))
    ensures PinsOn(Freed(d, p), k.coordinate, Some(k.revision)) <= PinsOn(d, k.coordinate, Some(k.revision))
    ensures Freed(d, p).revisions.Keys == d.revisions.Keys
    ensures Freed(d, p).revisions[k] == d.revisions[k] || (d.revisions[k] == Draining &&
      Freed(d, p).revisions[k] == Retired)
    ensures Freed(d, p).revisions[k] == Draining && d.revisions[k] == Draining
            && PinsOn(d, k.coordinate, Some(k.revision)) != {} ==>
      PinsOn(Freed(d, p), k.coordinate, Some(k.revision)) != {}
    ensures Freed(d, p).revisions[k] != d.revisions[k] ==> PinsOn(Freed(d, p), k.coordinate, Some(k.revision)) == {}
  {
    var own := Key(d.pins[p].coordinate, d.pins[p].revision);
    var freed := d.(pins := d.pins - {p});
    assert PinsOn(Freed(d, p), k.coordinate, Some(k.revision)) == PinsOn(freed, k.coordinate, Some(k.revision));
    if k != own {
      assert PinsOn(freed, k.coordinate, Some(k.revision)) == PinsOn(d, k.coordinate, Some(k.revision));
    }
  }

  lemma {:induction false} ReleaseKeeps(d: Tables, p: string)
    requires Sound(d)
    ensures var d' := Release(d, p).0; Sound(d') && Forward(d, d') && (Orderly(d) ==> Orderly(d'))
  {
    if p in d.pins {
      assert PinOk(d, p);
      FreedRevisions(d, p);
      FreedKeepsRest(d, p);
      FreedIs(d, p);
      hide Sound, Orderly, Freed, AllRetired, CoordinateOk, RevisionOk, PinsOn, Release, Forward, CloseCoordinate,
        PinOk;
      CloseKeeps(Freed(d, p), d.pins[p].coordinate);
      ForwardChains(d, Freed(d, p), Release(d, p).0);
    }
  }

  lemma {:induction false} FreedRevisions(d: Tables, p: string)
    requires Sound(d) && p in d.pins && PinOk(d, p)
    ensures forall k :: k in Freed(d, p).revisions ==> RevisionOk(Freed(d, p), k)
  {
    forall k | k in Freed(d, p).revisions ensures RevisionOk(Freed(d, p), k) {
      assert RevisionOk(d, k);
      FreedPins(d, p, k);
    }
  }

  lemma FreedIs(d: Tables, p: string)
    requires p in d.pins
    ensures Release(d, p).0 == CloseCoordinate(Freed(d, p), d.pins[p].coordinate)
    ensures Forward(d, Freed(d, p))
  {
  }

  lemma {:induction false} FreedKeepsRest(d: Tables, p: string)
    requires Sound(d) && p in d.pins && PinOk(d, p)
    ensures var f, c := Freed(d, p), d.pins[p].coordinate;
            && c in f.coordinates
            && (f.coordinates[c] == Retired ==> AllRetired(f, c))
            && (forall q :: q in f.pins ==> PinOk(f, q))
            && (forall b :: b in f.coordinates && b != c ==> CoordinateOk(f, b))
            && (Orderly(d) ==> Orderly(f)) && Forward(d, f)
  {
    var f, c := Freed(d, p), d.pins[p].coordinate;
    assert RevisionOk(d, Key(c, d.pins[p].revision));
    assert CoordinateOk(d, c);
    forall q | q in f.pins
      ensures PinOk(f, q) && (Orderly(d) ==> f.revisions[Key(f.pins[q].coordinate, f.pins[q].revision)] != Retired)
    {
      assert PinOk(d, q);
      var k := Key(f.pins[q].coordinate, f.pins[q].revision);
      FreedPins(d, p, k);
      assert q in PinsOn(f, k.coordinate, Some(k.revision));
    }
    forall b | b in f.coordinates && b != c ensures CoordinateOk(f, b) {
      OtherCoordinateStays(d, f, b);
    }
  }

  lemma {:induction false} BeginKeeps(d: Tables, c: string, r: Option<string>)
    requires Sound(d)
    ensures var d' := BeginDrain(d, c, r).0; Sound(d') && Forward(d, d') && (Orderly(d) ==> Orderly(d'))
  {
    if TargetState(d, c, r).Some? {
      if r.None? {
        DrainAllKeeps(d, c);
      } else {
        DrainOneKeeps(d, Key(c, r.value));
      }
    }
  }

  lemma {:induction false} DrainOneKeeps(d: Tables, k: Key)
    requires Sound(d) && k in d.revisions
    ensures var d' := d.(revisions := d.revisions[k := Drained(d, k)]); Sound(d') && Forward(d, d') && (Orderly(d) ==>
      Orderly(d'))
  {
    var d' := d.(revisions := d.revisions[k := Drained(d, k)]);
    forall j | j in d'.revisions ensures RevisionOk(d', j) {
      assert RevisionOk(d, j);
      assert PinsOn(d', j.coordinate, Some(j.revision)) == PinsOn(d, j.coordinate, Some(j.revision));
    }
    forall b | b in d'.coordinates ensures CoordinateOk(d', b) {
      assert CoordinateOk(d, b);
      if HasDraining(d, b) {
        var j :| j in d.revisions && j.coordinate == b && d.revisions[j] == Draining;
        assert d'.revisions[j] == Draining;
        assert HasDraining(d', b);
      }
    }
    PinsStay(d, d', k);
  }

  /** Draining never retires a revision that still has a pin. */
  lemma {:induction false} PinsStay(d: Tables, d': Tables, k: Key)
    requires Sound(d) && d'.pins == d.pins && d'.revisions.Keys == d.revisions.Keys
    requires forall j :: j in d.revisions ==> d'.revisions[j] == d.revisions[j] || d'.revisions[j] == Drained(d, j)
    ensures forall p :: p in d'.pins ==> PinOk(d', p)
    ensures Orderly(d) ==> Orderly(d')
  {
    forall p | p in d'.pins ensures PinOk(d', p)
      ensures Orderly(d) ==> d'.revisions[Key(d'.pins[p].coordinate, d'.pins[p].revision)] != Retired
    {
      assert PinOk(d, p);
      assert p in PinsOn(d, d.pins[p].coordinate, Some(d.pins[p].revision));
    }
  }

  function DrainingAll(d: Tables, c: string): Tables
    requires c in d.coordinates
  {
    d.(coordinates := d.coordinates[c := if d.coordinates[c] == Accepting then Draining else d.coordinates[c]],
       revisions := map k | k in d.revisions :: if k.coordinate == c then Drained(d, k) else d.revisions[k])
  }

  lemma {:induction false} DrainingAllRevisions(d: Tables, c: string)
    requires Sound(d) && c in d.coordinates
    ensures var f := DrainingAll(d, c);
            && (forall k :: k in f.revisions ==> RevisionOk(f, k))
            && (d.coordinates[c] == Retired ==> AllRetired(f, c))
            && Forward(d, f)
  {
    var f := DrainingAll(d, c);
    assert CoordinateOk(d, c);
    forall k | k in f.revisions ensures RevisionOk(f, k) {
      assert RevisionOk(d, k);
      assert PinsOn(f, k.coordinate, Some(k.revision)) == PinsOn(d, k.coordinate, Some(k.revision));
    }
  }

  lemma {:induction false} DrainAllKeeps(d: Tables, c: string)
    requires Sound(d) && c in d.coordinates
    ensures Sound(DrainAll(d, c)) && Forward(d, DrainAll(d, c)) && (Orderly(d) ==> Orderly(DrainAll(d, c)))
  {
    hide Orderly, RevisionOk, PinOk, PinsOn;
    var f := DrainingAll(d, c);
    DrainingAllRevisions(d, c);
    forall b | b in f.coordinates && b != c ensures CoordinateOk(f, b) {
      OtherCoordinateStays(d, f, b);
    }
    PinsStay(d, f, Key(c, ""));
    hide RevisionOk, CoordinateOk, PinOk, Orderly, Sound, AllRetired;
    CloseKeeps(f, c);
  }

  /** A draining target always has a pin: the branch of `Advance` that retires is never taken. */
  lemma {:induction false} AdvanceNeverRetires(d: Tables, c: string, r: Option<string>, deadline: real, now: real)
    requires Sound(d)
    ensures TargetState(d, c, r) == Some(Draining) ==> PinsOn(d, c, r) != {}
    ensures var d' := Advance(d, c, r, deadline, now).0; d'.coordinates == d.coordinates && d'.revisions == d.revisions
  {
    DrainingIsPinned(d, c, r);
    hide Sound, PinsOn, ViewOf;
  }

  lemma {:induction false} DrainingIsPinned(d: Tables, c: string, r: Option<string>)
    requires Sound(d)
    ensures TargetState(d, c, r) == Some(Draining) ==> PinsOn(d, c, r) != {}
  {
    if TargetState(d, c, r) == Some(Draining) {
      assert CoordinateOk(d, c);
      var k :| k in d.revisions && k.coordinate == c && d.revisions[k] == Draining
        && (r.Some? ==> k.revision == r.value);
      assert RevisionOk(d, k);
      var p :| p in PinsOn(d, c, Some(k.revision));
      assert p in PinsOn(d, c, r);
    }
  }

  lemma {:induction false} AdvanceKeeps(d: Tables, c: string, r: Option<string>, deadline: real, now: real)
    requires Sound(d)
    ensures var d' := Advance(d, c, r, deadline, now).0; Sound(d') && Forward(d, d') && (Orderly(d) ==> Orderly(d'))
  {
    AdvanceNeverRetires(d, c, r, deadline, now);
    var d' := Advance(d, c, r, deadline, now).0;
    SamePlaces(d, d');
  }

  lemma {:induction false} SamePlaces(d: Tables, d': Tables)
    requires Sound(d) && d'.coordinates == d.coordinates && d'.revisions == d.revisions
    requires d'.pins.Keys == d.pins.Keys
    requires forall p :: p in d.pins ==> d'.pins[p] == d.pins[p] || d'.pins[p] == d.pins[p].(requested := true)
    ensures Sound(d') && Forward(d, d') && (Orderly(d) ==> Orderly(d'))
  {
    forall k | k in d'.revisions ensures RevisionOk(d', k) {
      assert RevisionOk(d, k);
      assert PinsOn(d', k.coordinate, Some(k.revision)) == PinsOn(d, k.coordinate, Some(k.revision));
    }
    forall b | b in d'.coordinates ensures CoordinateOk(d', b) {
      assert CoordinateOk(d, b);
      assert HasDraining(d, b) ==> HasDraining(d', b);
      assert AllRetired(d, b) ==> AllRetired(d', b);
    }
    forall p | p in d'.pins ensures PinOk(d', p) && (Orderly(d) ==>
      d'.revisions[Key(d'.pins[p].coordinate, d'.pins[p].revision)] != Retired) {
      assert PinOk(d, p);
    }
  }

  lemma {:induction false} ForceKeeps(d: Tables, c: string, r: Option<string>, allowed: bool)
    requires Sound(d)
    ensures var d' := ForceRetire(d, c, r, allowed).0; Sound(d') && Forward(d, d')
  {
    if allowed && TargetState(d, c, r) == Some(Draining) {
      assert CoordinateOk(d, c);
      if r.None? {
        ForceAllKeeps(d, c);
      } else {
        ForceOneKeeps(d, Key(c, r.value));
      }
    }
  }

  lemma {:induction false} ForceOneKeeps(d: Tables, k: Key)
    requires Sound(d) && k in d.revisions && d.revisions[k] == Draining
    ensures var d' := CloseCoordinate(d.(revisions := d.revisions[k := Retired]), k.coordinate);
      Sound(d') && Forward(d, d')
  {
    var f := d.(revisions := d.revisions[k := Retired]);
    OneRetired(d, k);
    hide Sound, AllRetired, CoordinateOk, RevisionOk, PinsOn, Orderly, PinOk;
    CloseKeeps(f, k.coordinate);
  }

  lemma {:induction false} OneRetired(d: Tables, k: Key)
    requires Sound(d) && k in d.revisions && d.revisions[k] == Draining
    ensures var f := d.(revisions := d.revisions[k := Retired]);
      && Forward(d, f)
      && (forall j :: j in f.revisions ==> RevisionOk(f, j))
      && (forall p :: p in f.pins ==> PinOk(f, p))
      && (forall b :: b in f.coordinates && b != k.coordinate ==> CoordinateOk(f, b))
      && k.coordinate in f.coordinates && (f.coordinates[k.coordinate] == Retired ==> AllRetired(f, k.coordinate))
  {
    hide Orderly;
    var f := d.(revisions := d.revisions[k := Retired]);
    assert RevisionOk(d, k) && CoordinateOk(d, k.coordinate);
    forall j | j in f.revisions ensures RevisionOk(f, j) {
      assert RevisionOk(d, j);
      assert PinsOn(f, j.coordinate, Some(j.revision)) == PinsOn(d, j.coordinate, Some(j.revision));
    }
    forall p | p in f.pins ensures PinOk(f, p) {
      assert PinOk(d, p);
    }
    forall b | b in f.coordinates && b != k.coordinate ensures CoordinateOk(f, b) {
      OtherCoordinateStays(d, f, b);
    }
  }

  lemma {:induction false} ForceAllKeeps(d: Tables, c: string)
    requires Sound(d) && c in d.coordinates && d.coordinates[c] == Draining
    ensures Sound(RetireTarget(d, c, None)) && Forward(d, RetireTarget(d, c, None))
  {
    var f := RetireTarget(d, c, None);
    forall j | j in f.revisions ensures RevisionOk(f, j) && (j.coordinate == c ==> f.revisions[j] == Retired) {
      assert RevisionOk(d, j);
      assert PinsOn(f, j.coordinate, Some(j.revision)) == PinsOn(d, j.coordinate, Some(j.revision));
    }
    forall p | p in f.pins ensures PinOk(f, p) {
      assert PinOk(d, p);
    }
    forall b | b in f.coordinates ensures CoordinateOk(f, b) {
      assert CoordinateOk(d, b);
      if b != c && HasDraining(d, b) {
        var j :| j in d.revisions && j.coordinate == b && d.revisions[j] == Draining;
        assert f.revisions[j] == Draining;
        assert HasDraining(f, b);
      }
    }
  }

  lemma {:induction false} CallKeeps(cap: Capacity, d: Tables, call: Call)
    requires Sound(d)
    ensures var d' := Apply(cap, d, call).0;
            Sound(d') && Forward(d, d') && (Orderly(d) && !call.Forcing? ==> Orderly(d'))
  {
    hide Sound, Forward, Orderly, Register, Admit, Release, BeginDrain, Advance, ForceRetire;
    match call
    case Registering(k) => RegisterKeeps(cap, d, k);
    case Admitting(k, p, cancellable) => AdmitKeeps(cap, d, k, p, cancellable);
    case Releasing(p) => ReleaseKeeps(d, p);
    case Beginning(c, r) => BeginKeeps(d, c, r);
    case Advancing(c, r, deadline, now) => AdvanceKeeps(d, c, r, deadline, now);
    case Forcing(c, r, allowed) => ForceKeeps(d, c, r, allowed);
  }

  // ----- when revisions retire -----

  /** Without force, a revision that started draining is retired exactly when nothing runs on it. */
  lemma {:induction false} RetiredExactly(d: Tables, k: Key)
    requires Sound(d) && Orderly(d) && k in d.revisions && d.revisions[k] != Accepting
    ensures d.revisions[k] == Retired <==> PinsOn(d, k.coordinate, Some(k.revision)) == {}
  {
    assert RevisionOk(d, k);
    forall p | p in PinsOn(d, k.coordinate, Some(k.revision)) ensures d.revisions[k] != Retired {
      assert PinOk(d, p);
    }
  }

  lemma {:induction false} OnlyReleaseRetires(cap: Capacity, d: Tables, call: Call, k: Key)
    requires Sound(d) && !call.Forcing? && !call.Releasing? && k in d.revisions && d.revisions[k] == Draining
    ensures k in Apply(cap, d, call).0.revisions && Apply(cap, d, call).0.revisions[k] == Draining
  {
    if call.Advancing? {
      AdvanceNeverRetires(d, call.coordinate, call.revision, call.deadline, call.now);
      hide Advance;
    }
    hide Sound, PinsOn, Look, ViewOf;
  }

  /** Without force, a draining revision retires in the very step that releases its last pin. */
  lemma {:induction false} RetiresWithLastPin(cap: Capacity, d: Tables, call: Call, k: Key)
    requires Sound(d) && !call.Forcing?
    requires k in d.revisions && d.revisions[k] == Draining
    ensures k in Apply(cap, d, call).0.revisions
    ensures Apply(cap, d, call).0.revisions[k] == Retired <==>
            call.Releasing? && PinsOn(d, k.coordinate, Some(k.revision)) == {call.id}
  {
    if call.Releasing? {
      LastPin(d, call.id, k);
      hide Release;
    } else {
      OnlyReleaseRetires(cap, d, call, k);
      hide Apply;
    }
  }

  lemma {:induction false} LastPin(d: Tables, p: string, k: Key)
    requires Sound(d) && k in d.revisions && d.revisions[k] == Draining
    ensures Release(d, p).0.revisions.Keys == d.revisions.Keys
    ensures Release(d, p).0.revisions[k] == Retired <==> PinsOn(d, k.coordinate, Some(k.revision)) == {p}
  {
    assert RevisionOk(d, k);
    if p in d.pins {
      assert PinOk(d, p);
      var freed := d.(pins := d.pins - {p});
      FreedIs(d, p);
      FreedPins(d, p, k);
      assert PinsOn(freed, k.coordinate, Some(k.revision)) == PinsOn(d, k.coordinate, Some(k.revision)) - {p};
    }
  }

  // ----- runs -----

  function Run(cap: Capacity, d: Tables, calls: seq<Call>): Tables
    decreases |calls|
  {
    if |calls| == 0 then d else Apply(cap, Run(cap, d, calls[..|calls| - 1]), calls[|calls| - 1]).0
  }

  predicate NoForce(calls: seq<Call>) {
    forall i :: 0 <= i < |calls| ==> !calls[i].Forcing?
  }

  lemma {:induction false} RunKeeps(cap: Capacity, d: Tables, calls: seq<Call>)
    requires Sound(d)
    ensures Sound(Run(cap, d, calls)) && Forward(d, Run(cap, d, calls))
    ensures Orderly(d) && NoForce(calls) ==> Orderly(Run(cap, d, calls))
    decreases |calls|
  {
    if |calls| > 0 {
      var before := Run(cap, d, calls[..|calls| - 1]);
      RunKeeps(cap, d, calls[..|calls| - 1]);
      CallKeeps(cap, before, calls[|calls| - 1]);
      ForwardChains(d, before, Run(cap, d, calls));
    }
  }

  lemma ForwardChains(a: Tables, b: Tables, c: Tables)
    requires Forward(a, b) && Forward(b, c)
    ensures Forward(a, c)
  {
  }

  /** The lifecycle theorem, read off any reachable table. */
  lemma {:induction false} ReachableLifecycle(cap: Capacity, calls: seq<Call>)
    ensures var d := Run(cap, NOTHING, calls);
      && (forall k :: k in d.revisions ==> k.coordinate in d.coordinates)
      && (forall k :: k in d.revisions && d.coordinates[k.coordinate] != Accepting ==> d.revisions[k] != Accepting)
      && (forall k :: k in d.revisions && d.revisions[k] == Draining ==>
        PinsOn(d, k.coordinate, Some(k.revision)) != {})
      && (forall c :: c in d.coordinates && d.coordinates[c] == Draining ==> HasDraining(d, c))
      && (NoForce(calls) ==> forall k :: k in d.revisions && d.revisions[k] == Retired ==>
            PinsOn(d, k.coordinate, Some(k.revision)) == {})
  {
    RunKeeps(cap, NOTHING, calls);
    var d := Run(cap, NOTHING, calls);
    hide Run;
    forall k | k in d.revisions
      ensures k.coordinate in d.coordinates
      ensures d.coordinates[k.coordinate] != Accepting ==> d.revisions[k] != Accepting
      ensures d.revisions[k] == Draining ==> PinsOn(d, k.coordinate, Some(k.revision)) != {}
      ensures NoForce(calls) && d.revisions[k] == Retired ==> PinsOn(d, k.coordinate, Some(k.revision)) == {}
    {
      assert RevisionOk(d, k);
      if NoForce(calls) && d.revisions[k] == Retired {
        RetiredExactly(d, k);
      }
    }
    forall c | c in d.coordinates ensures d.coordinates[c] == Draining ==> HasDraining(d, c) {
      assert CoordinateOk(d, c);
    }
  }

  // ----- cancellation requests -----

  predicate AsksFor(cap: Capacity, d: Tables, call: Call, p: string) {
    Apply(cap, d, call).1.Progress? && p in Apply(cap, d, call).1.requests
  }

  predicate Asked(d: Tables, p: string) {
    p in d.pins && d.pins[p].requested
  }

  lemma {:induction false} AskedStays(cap: Capacity, d: Tables, call: Call, p: string)
    requires Sound(d)
    ensures AsksFor(cap, d, call, p) ==>
      p in d.pins && d.pins[p].cancellable && !Asked(d, p) && Asked(Apply(cap, d, call).0, p)
    ensures Asked(d, p) && call != Releasing(p) ==> Asked(Apply(cap, d, call).0, p)
  {
    hide AllRetired;
    if call.Advancing? {
      AdvanceNeverRetires(d, call.coordinate, call.revision, call.deadline, call.now);
    }
  }

  lemma {:induction false} AskedUntilReleased(cap: Capacity, d: Tables, calls: seq<Call>, p: string)
    requires Sound(d) && Asked(d, p) && forall k :: 0 <= k < |calls| ==> calls[k] != Releasing(p)
    ensures Asked(Run(cap, d, calls), p)
    decreases |calls|
  {
    if |calls| > 0 {
      AskedUntilReleased(cap, d, calls[..|calls| - 1], p);
      RunKeeps(cap, d, calls[..|calls| - 1]);
      hide Sound, Run, Apply, Forward, Orderly;
      AskedStays(cap, Run(cap, d, calls[..|calls| - 1]), calls[|calls| - 1], p);
      assert Run(cap, d, calls) == Apply(cap, Run(cap, d, calls[..|calls| - 1]), calls[|calls| - 1]).0 by {
        RunLast(cap, d, calls);
      }
    }
  }

  lemma RunLast(cap: Capacity, d: Tables, calls: seq<Call>)
    requires |calls| > 0
    ensures Run(cap, d, calls) == Apply(cap, Run(cap, d, calls[..|calls| - 1]), calls[|calls| - 1]).0
  {
  }

  lemma {:induction false} RunSplits(cap: Capacity, d: Tables, a: seq<Call>, b: seq<Call>)
    ensures Run(cap, d, a + b) == Run(cap, Run(cap, d, a), b)
    decreases |b|
  {
    hide Apply;
    if |b| == 0 {
      assert a + b == a;
    } else {
      assert (a + b)[..|a + b| - 1] == a + b[..|b| - 1];
      RunSplits(cap, d, a, b[..|b| - 1]);
    }
  }

  lemma {:induction false} NotAskedAgain(cap: Capacity, a: seq<Call>, x: Call, b: seq<Call>, y: Call, p: string)
    requires AsksFor(cap, Run(cap, NOTHING, a), x, p)
    requires forall k :: 0 <= k < |b| ==> b[k] != Releasing(p)
    ensures !AsksFor(cap, Run(cap, NOTHING, a + [x] + b), y, p)
  {
    assert (a + [x])[..|a|] == a;
    RunLast(cap, NOTHING, a + [x]);
    RunSplits(cap, NOTHING, a + [x], b);
    RunKeeps(cap, NOTHING, a);
    RunKeeps(cap, NOTHING, a + [x]);
    RunKeeps(cap, NOTHING, a + [x] + b);
    hide Run, Sound, Forward, Orderly, Apply, AsksFor;
    AskedStays(cap, Run(cap, NOTHING, a), x, p);
    AskedUntilReleased(cap, Run(cap, NOTHING, a + [x]), b, p);
    AskedStays(cap, Run(cap, NOTHING, a + [x] + b), y, p);
  }

  lemma SplitAt(calls: seq<Call>, i: nat, j: nat)
    requires i < j <= |calls|
    ensures calls[..j] == calls[..i] + [calls[i]] + calls[i + 1..j]
  {
  }

  /** Each admission is asked to cancel at most once: between two requests for the same pin
      name, the first admission was released. */
  lemma {:induction false} AskedOnce(cap: Capacity, calls: seq<Call>, i: nat, j: nat, p: string)
    requires i < j < |calls|
    requires AsksFor(cap, Run(cap, NOTHING, calls[..i]), calls[i], p)
    requires AsksFor(cap, Run(cap, NOTHING, calls[..j]), calls[j], p)
    ensures exists k :: i < k < j && calls[k] == Releasing(p)
  {
    hide Run, AsksFor;
    if forall k :: i < k < j ==> calls[k] != Releasing(p) {
      SplitAt(calls, i, j);
      NotAskedAgain(cap, calls[..i], calls[i], calls[i + 1..j], calls[j], p);
    }
  }
}
