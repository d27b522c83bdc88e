/** The admission wrapper around execution: any number of `execute` calls, cut at every point
    where another caller may run, interleaved with registrations and drains. */
module DrainedService {
  import opened Scopes
  import opened Draining
  import opened DrainRuns

  /** `pinned` remembers whether the revision callback handed out a pin that must be given back. */
  datatype Phase =
    | Arriving
    | Claimed
    | Ready(pinned: bool)
    | Running(pinned: bool)
    | Leaving(pinned: bool)
    | Discarding
    | Returned

  datatype Exec = Exec(key: Key, cancellable: bool, id: string, phase: Phase)

  /** What the optional revision-pin callback does: absent, raises, or names a revision. */
  datatype Callback = Absent | Raises | Names(revision: string)

  datatype World = World(tables: Tables, active: set<string>, execs: seq<Exec>)

  /** How the controller reads an identifier; `None` stands for one it rejects. Reading twice is
      reading once, so a pin is released under the name it was admitted under. */
  type Normalizer = string -> Option<string>

  function Moved(w: World, i: nat, phase: Phase): World
    requires i < |w.execs|
  {
    w.(execs := w.execs[i := w.execs[i].(phase := phase)])
  }

  function AdmitStep(cap: Capacity, norm: Normalizer, w: World, i: nat, pinned: bool): World
    requires i < |w.execs|
  {
    var e := w.execs[i];
    match norm(e.id)
    case None => Moved(w, i, Leaving(pinned))
    case Some(p) =>
      var (tables, answer) := Admit(cap, w.tables, e.key, p, e.cancellable);
      Moved(w, i, if answer.Admitted? then Running(pinned) else Leaving(pinned)).(tables := tables)
  }

  function ReleaseStep(norm: Normalizer, w: World, i: nat, pinned: bool): World
    requires i < |w.execs|
  {
    match norm(w.execs[i].id)
    case None => Moved(w, i, Leaving(pinned))
    case Some(p) => Moved(w, i, Leaving(pinned)).(tables := Release(w.tables, p).0)
  }

  /** One step of call `i`. */
  function Step(cap: Capacity, norm: Normalizer, w: World, i: nat, callback: Callback): World
    requires i < |w.execs|
  {
    var e := w.execs[i];
    match e.phase
    case Arriving =>
      if e.id in w.active then Moved(w, i, Returned) else Moved(w, i, Claimed).(active := w.active + {e.id})
    case Claimed =>
      (match callback
       case Absent => Moved(w, i, Ready(false))
       case Raises => Moved(w, i, Leaving(false))
       case Names(r) => Moved(w, i, if r == e.key.revision then Ready(true) else Leaving(true)))
    case Ready(pinned) => AdmitStep(cap, norm, w, i, pinned)
    case Running(pinned) => ReleaseStep(norm, w, i, pinned)
    case Leaving(_) => Moved(w, i, Discarding)
    case Discarding => Moved(w, i, Returned).(active := w.active - {e.id})
    case Returned => w
  }

  datatype Move =
    | Enter(key: Key, cancellable: bool, id: string)
    | Continue(index: nat, callback: Callback)
    | Control(call: Call)

  /** The controller is fed only by the wrapper: nobody else admits or releases, nothing is forced.
      `names` are the pin names that calls may bring. */
  ghost predicate Permitted(names: iset<string>, w: World, move: Move) {
    match move
    case Enter(_, _, id) => id in names
    case Continue(i, _) => i < |w.execs|
    case Control(call) => call.Registering? || call.Beginning? || call.Advancing?
  }

  function Next(cap: Capacity, norm: Normalizer, w: World, move: Move): World
    requires move.Continue? ==> move.index < |w.execs|
  {
    match move
    case Enter(key, cancellable, id) => w.(execs := w.execs + [Exec(key, cancellable, id, Arriving)])
    case Continue(i, callback) => Step(cap, norm, w, i, callback)
    case Control(call) => w.(tables := Apply(cap, w.tables, call).0)
  }

  // ----- which pin names are safe -----

  predicate AcceptingAt(d: Tables, k: Key) {
    && k in d.revisions && d.revisions[k] == Accepting
    && k.coordinate in d.coordinates && d.coordinates[k.coordinate] == Accepting
  }

  function KeyOf(pin: Pin): Key {
    Key(pin.coordinate, pin.revision)
  }

  /** An execution could be admitted: there is room for a pin, and some revision accepts or can
      still be registered. */
  ghost predicate Open(cap: Capacity, d: Tables) {
    |d.pins| < cap.inFlight && exists k :: AcceptingAt(Register(cap, d, k).0, k)
  }

  predicate TakesOver(norm: Normalizer, before: Tables, x: string) {
    norm(x).Some? && norm(x).value in before.pins && AcceptingAt(before, KeyOf(before.pins[norm(x).value]))
  }

  predicate Confused(norm: Normalizer, before: Tables, x: string, y: string) {
    x != y && norm(x).Some? && norm(x) == norm(y) && norm(x).value !in before.pins
  }

  /** No name is read as one whose pin the controller already holds for an accepting revision, and
      no two names are read alike, as long as any execution could be admitted. */
  ghost predicate Separate(cap: Capacity, norm: Normalizer, before: Tables, names: iset<string>) {
    && (forall x :: x in names ==> !TakesOver(norm, before, x))
    && (Open(cap, before) ==> forall x, y :: x in names && y in names ==> !Confused(norm, before, x, y))
  }

  // ----- the invariant -----

  predicate Inside(e: Exec) {
    !e.phase.Arriving? && !e.phase.Returned?
  }

  predicate SamePin(a: Pin, b: Pin) {
    a.coordinate == b.coordinate && a.revision == b.revision && a.cancellable == b.cancellable
  }

  /** The pin of an admitted call, under the name the controller reads. */
  predicate HasPin(norm: Normalizer, d: Tables, e: Exec) {
    && norm(e.id).Some? && norm(e.id).value in d.pins
    && SamePin(d.pins[norm(e.id).value], Pin(e.key.coordinate, e.key.revision, e.cancellable, false))
  }

  ghost predicate ExecOk(norm: Normalizer, before: Tables, names: iset<string>, w: World, i: nat)
    requires i < |w.execs|
  {
    var e := w.execs[i];
    && e.id in names
    && (Inside(e) ==> e.id in w.active)
    && (e.phase.Running? ==> HasPin(norm, w.tables, e) && norm(e.id).value !in before.pins)
  }

  predicate Apart(a: Exec, b: Exec) {
    Inside(a) && Inside(b) ==> a.id != b.id
  }

  predicate Distinct(w: World) {
    forall i, j {:trigger Apart(w.execs[i], w.execs[j])} ::
      0 <= i < |w.execs| && 0 <= j < |w.execs| && i != j ==> Apart(w.execs[i], w.execs[j])
  }

  predicate Runs(norm: Normalizer, w: World, p: string) {
    exists i :: 0 <= i < |w.execs| && w.execs[i].phase.Running? && norm(w.execs[i].id) == Some(p)
  }

  predicate StillThere(before: Tables, d: Tables, p: string)
    requires p in before.pins
  {
    p in d.pins && SamePin(d.pins[p], before.pins[p])
  }

  predicate ActiveAccounted(w: World, id: string) {
    exists i :: 0 <= i < |w.execs| && Inside(w.execs[i]) && w.execs[i].id == id
  }

  predicate NoneRuns(w: World) {
    forall i :: 0 <= i < |w.execs| ==> !w.execs[i].phase.Running?
  }

  /** What concerns the controller alone. */
  ghost predicate TablesOk(cap: Capacity, before: Tables, d: Tables) {
    && Sound(d) && Orderly(d) && Forward(before, d)
    && (forall p :: p in before.pins ==> StillThere(before, d, p))
    && (!Open(cap, before) ==> !Open(cap, d))
  }

  ghost predicate ExecsOk(norm: Normalizer, before: Tables, names: iset<string>, w: World) {
    forall i :: 0 <= i < |w.execs| ==> ExecOk(norm, before, names, w, i)
  }

  predicate ActivesOk(w: World) {
    forall id :: id in w.active ==> ActiveAccounted(w, id)
  }

  predicate NewPinsRun(norm: Normalizer, before: Tables, w: World) {
    forall p :: p in w.tables.pins && p !in before.pins ==> Runs(norm, w, p)
  }

  ghost predicate Inv(cap: Capacity, norm: Normalizer, before: Tables, names: iset<string>, w: World) {
    && TablesOk(cap, before, w.tables)
    && ExecsOk(norm, before, names, w)
    && Distinct(w)
    && ActivesOk(w)
    && NewPinsRun(norm, before, w)
    && (!Open(cap, before) ==> NoneRuns(w))
  }

  /** Only the phase of call `i` differs. */
  predicate PhaseMoved(w: World, w': World, i: nat) {
    && i < |w.execs| == |w'.execs|
    && w'.execs == w.execs[i := w.execs[i].(phase := w'.execs[i].phase)]
  }

  // ----- every move keeps it -----

  lemma {:induction false} StillApart(w: World, w': World, i: nat)
    requires Distinct(w) && PhaseMoved(w, w', i)
    requires forall j :: 0 <= j < |w'.execs| && j != i ==> Apart(w'.execs[i], w'.execs[j])
    ensures Distinct(w')
  {
    forall j, k | 0 <= j < |w'.execs| && 0 <= k < |w'.execs| && j != k ensures Apart(w'.execs[j], w'.execs[k]) {
      if j != i && k != i {
        assert Apart(w.execs[j], w.execs[k]);
      } else if j == i {
        assert Apart(w'.execs[i], w'.execs[k]);
      } else {
        assert Apart(w'.execs[i], w'.execs[j]);
      }
    }
  }

  /** A call that stays inside keeps apart from the others, and its name stays accounted for. */
  lemma {:induction false} StaysInside(w: World, w': World, i: nat)
    requires Distinct(w) && ActivesOk(w) && PhaseMoved(w, w', i) && w'.active == w.active
    requires Inside(w.execs[i]) && Inside(w'.execs[i])
    ensures Distinct(w') && ActivesOk(w')
  {
    forall j | 0 <= j < |w'.execs| && j != i ensures Apart(w'.execs[i], w'.execs[j]) {
      assert Apart(w.execs[i], w.execs[j]);
    }
    StillApart(w, w', i);
    forall a | a in w'.active ensures ActiveAccounted(w', a) {
      assert ActiveAccounted(w, a);
      var j :| 0 <= j < |w.execs| && Inside(w.execs[j]) && w.execs[j].id == a;
      assert w'.execs[j].id == a;
    }
  }

  /** A call that goes in claims a name nobody holds; one that comes out gives its own back. */
  lemma {:induction false} GoesThrough(norm: Normalizer, before: Tables, names: iset<string>, w: World, w': World,
                                       i: nat)
    requires ExecsOk(norm, before, names, w) && Distinct(w) && ActivesOk(w) && PhaseMoved(w, w', i)
    requires Inside(w.execs[i]) != Inside(w'.execs[i])
    requires if Inside(w.execs[i]) then w'.active == w.active - {w.execs[i].id}
             else w.execs[i].id !in w.active && w'.active == w.active + {w.execs[i].id}
    ensures Distinct(w') && ActivesOk(w')
    ensures forall j :: 0 <= j < |w'.execs| && Inside(w'.execs[j]) ==> w'.execs[j].id in w'.active
  {
    hide HasPin;
    var id := w.execs[i].id;
    forall j | 0 <= j < |w'.execs| && j != i ensures Apart(w'.execs[i], w'.execs[j]) && Apart(w.execs[i], w.execs[j]) {
      assert ExecOk(norm, before, names, w, j);
    }
    StillApart(w, w', i);
    forall j | 0 <= j < |w'.execs| && Inside(w'.execs[j]) ensures w'.execs[j].id in w'.active {
      assert ExecOk(norm, before, names, w, j);
      if j != i {
        assert Apart(w.execs[i], w.execs[j]);
      }
    }
    forall a | a in w'.active ensures ActiveAccounted(w', a) {
      if a == id {
        assert Inside(w'.execs[i]) && w'.execs[i].id == a;
      } else {
        assert ActiveAccounted(w, a);
        var j :| 0 <= j < |w.execs| && Inside(w.execs[j]) && w.execs[j].id == a;
        assert Inside(w'.execs[j]) && w'.execs[j].id == a;
      }
    }
  }

  /** Whoever ran still runs, except call `i`. */
  lemma {:induction false} StillRun(norm: Normalizer, before: Tables, w: World, w': World, i: nat)
    requires PhaseMoved(w, w', i) && NewPinsRun(norm, before, w)
    ensures forall p ::
      (p in w.tables.pins && p !in before.pins && (w.execs[i].phase.Running? ==> norm(w.execs[i].id) != Some(p)))
      ==> Runs(norm, w', p)
  {
    forall p | p in w.tables.pins && p !in before.pins && (w.execs[i].phase.Running? ==> norm(w.execs[i].id) != Some(p))
      ensures Runs(norm, w', p)
    {
      assert Runs(norm, w, p);
      var j :| 0 <= j < |w.execs| && w.execs[j].phase.Running? && norm(w.execs[j].id) == Some(p);
      assert w'.execs[j] == w.execs[j];
    }
  }

  /** A move of call `i` that leaves the controller alone. */
  lemma {:induction false} QuietMove(cap: Capacity, norm: Normalizer, before: Tables, names: iset<string>, w: World,
                                     w': World, i: nat)
    requires Inv(cap, norm, before, names, w) && PhaseMoved(w, w', i) && w'.tables == w.tables
    requires !w.execs[i].phase.Running? && !w'.execs[i].phase.Running?
    requires if Inside(w.execs[i]) == Inside(w'.execs[i]) then w'.active == w.active
             else if Inside(w.execs[i]) then w'.active == w.active - {w.execs[i].id}
             else w.execs[i].id !in w.active && w'.active == w.active + {w.execs[i].id}
    ensures Inv(cap, norm, before, names, w')
  {
    hide TablesOk, Open, HasPin;
    QuietInside(norm, before, names, w, w', i);
    QuietExecs(norm, before, names, w, w', i);
    hide ExecsOk, Distinct, ActivesOk;
    StillRun(norm, before, w, w', i);
  }

  lemma {:induction false} QuietInside(norm: Normalizer, before: Tables, names: iset<string>, w: World, w': World,
                                       i: nat)
    requires ExecsOk(norm, before, names, w) && Distinct(w) && ActivesOk(w) && PhaseMoved(w, w', i)
    requires if Inside(w.execs[i]) == Inside(w'.execs[i]) then w'.active == w.active
             else if Inside(w.execs[i]) then w'.active == w.active - {w.execs[i].id}
             else w.execs[i].id !in w.active && w'.active == w.active + {w.execs[i].id}
    ensures Distinct(w') && ActivesOk(w')
    ensures forall j :: 0 <= j < |w'.execs| && Inside(w'.execs[j]) ==> w'.execs[j].id in w'.active
  {
    if Inside(w.execs[i]) != Inside(w'.execs[i]) {
      hide ExecsOk, Distinct, ActivesOk;
      GoesThrough(norm, before, names, w, w', i);
    } else {
      forall j | 0 <= j < |w'.execs| ensures (Inside(w'.execs[j]) ==> w'.execs[j].id in w'.active) {
        assert ExecOk(norm, before, names, w, j);
      }
      hide ExecsOk;
      if Inside(w.execs[i]) {
        StaysInside(w, w', i);
      } else {
        StaysOutside(w, w', i);
      }
    }
  }

  lemma {:induction false} StaysOutside(w: World, w': World, i: nat)
    requires Distinct(w) && ActivesOk(w) && PhaseMoved(w, w', i) && w'.active == w.active
    requires !Inside(w.execs[i]) && !Inside(w'.execs[i])
    ensures Distinct(w') && ActivesOk(w')
  {
    StillApart(w, w', i);
    forall a | a in w'.active ensures ActiveAccounted(w', a) {
      assert ActiveAccounted(w, a);
      var j :| 0 <= j < |w.execs| && Inside(w.execs[j]) && w.execs[j].id == a;
      assert w'.execs[j] == w.execs[j];
    }
  }

  lemma {:induction false} QuietExecs(norm: Normalizer, before: Tables, names: iset<string>, w: World, w': World,
                                      i: nat)
    requires ExecsOk(norm, before, names, w) && PhaseMoved(w, w', i) && w'.tables == w.tables
    requires !w'.execs[i].phase.Running?
    requires forall j :: 0 <= j < |w'.execs| && Inside(w'.execs[j]) ==> w'.execs[j].id in w'.active
    ensures ExecsOk(norm, before, names, w')
  {
    hide HasPin;
    forall j | 0 <= j < |w'.execs| ensures ExecOk(norm, before, names, w', j) {
      assert ExecOk(norm, before, names, w, j);
    }
  }

  /** What is accepting now was accepting from the start, unless it was registered since. */
  lemma AcceptedBefore(before: Tables, d: Tables, k: Key)
    requires Sound(before) && Forward(before, d) && AcceptingAt(d, k) && k in before.revisions
    ensures AcceptingAt(before, k)
  {
    assert RevisionOk(before, k);
  }

  /** A call that is admitted is not handed a pin of before. */
  lemma {:induction false} NotTakenOver(cap: Capacity, norm: Normalizer, before: Tables, d: Tables, e: Exec)
    requires Sound(before) && TablesOk(cap, before, d) && !TakesOver(norm, before, e.id) && norm(e.id).Some?
    requires Admit(cap, d, e.key, norm(e.id).value, e.cancellable).1.Admitted?
    ensures norm(e.id).value !in before.pins
  {
    var p := norm(e.id).value;
    assert AcceptingAt(d, e.key);
    if p in before.pins {
      assert StillThere(before, d, p) && PinOk(before, p);
      assert KeyOf(before.pins[p]) == e.key;
      AcceptedBefore(before, d, e.key);
      assert false;
    }
  }

  /** Calls inside the wrapper are read under different names, except for names already taken. */
  lemma {:induction false} NamesApart(cap: Capacity, norm: Normalizer, before: Tables, names: iset<string>, w: World,
                                      i: nat, j: nat)
    requires Separate(cap, norm, before, names) && Inv(cap, norm, before, names, w) && Open(cap, before)
    requires i < |w.execs| && j < |w.execs| && i != j && Inside(w.execs[i]) && Inside(w.execs[j])
    requires norm(w.execs[i].id).Some? && norm(w.execs[i].id).value !in before.pins
    ensures norm(w.execs[i].id) != norm(w.execs[j].id)
  {
    hide Sound, Orderly, Forward;
    hide TablesOk, TakesOver, Open, HasPin;
    assert ExecOk(norm, before, names, w, i) && ExecOk(norm, before, names, w, j);
    assert Apart(w.execs[i], w.execs[j]);
    assert !Confused(norm, before, w.execs[i].id, w.execs[j].id);
  }

  /** Nor does another call run under its name. */
  lemma {:induction false} NobodyElseRuns(cap: Capacity, norm: Normalizer, before: Tables, names: iset<string>,
                                          w: World, i: nat)
    requires Separate(cap, norm, before, names) && Inv(cap, norm, before, names, w) && i < |w.execs|
    requires w.execs[i].phase.Ready? && norm(w.execs[i].id).Some? && norm(w.execs[i].id).value !in before.pins
    ensures norm(w.execs[i].id).value !in w.tables.pins
  {
    hide Sound, Orderly, Forward;
    var e := w.execs[i];
    var p := norm(e.id).value;
    hide TablesOk, TakesOver, Open, HasPin;
    assert ExecOk(norm, before, names, w, i);
    if p in w.tables.pins {
      assert Runs(norm, w, p);
      var j :| 0 <= j < |w.execs| && w.execs[j].phase.Running? && norm(w.execs[j].id) == Some(p);
      NamesApart(cap, norm, before, names, w, j, i);
    }
  }

  /** The name of a call that is admitted is free. */
  lemma {:induction false} NameIsFree(cap: Capacity, norm: Normalizer, before: Tables, names: iset<string>, w: World,
                                      i: nat)
    requires Sound(before) && Separate(cap, norm, before, names)
    requires Inv(cap, norm, before, names, w) && i < |w.execs| && w.execs[i].phase.Ready? && norm(w.execs[i].id).Some?
    requires Admit(cap, w.tables, w.execs[i].key, norm(w.execs[i].id).value, w.execs[i].cancellable).1.Admitted?
    ensures norm(w.execs[i].id).value !in w.tables.pins
  {
    assert ExecOk(norm, before, names, w, i) && !TakesOver(norm, before, w.execs[i].id);
    NotTakenOver(cap, norm, before, w.tables, w.execs[i]);
    hide Inv, Separate, Sound, Admit;
    NobodyElseRuns(cap, norm, before, names, w, i);
  }

  // ----- admission -----

  lemma {:induction false} PinsStayed(before: Tables, d: Tables, d': Tables)
    requires forall p :: p in before.pins ==> StillThere(before, d, p)
    requires forall p :: p in before.pins && p in d.pins ==> p in d'.pins && SamePin(d'.pins[p], d.pins[p])
    ensures forall p :: p in before.pins ==> StillThere(before, d', p)
  {
    forall p | p in before.pins ensures StillThere(before, d', p) {
      assert StillThere(before, d, p);
    }
  }

  lemma AdmittedIs(cap: Capacity, d: Tables, k: Key, p: string, cancellable: bool)
    requires Admit(cap, d, k, p, cancellable).1.Admitted? && p !in d.pins
    ensures Admit(cap, d, k, p, cancellable).0 ==
      d.(pins := d.pins[p := Pin(k.coordinate, k.revision, cancellable, false)])
    ensures Open(cap, d)
  {
    assert AcceptingAt(d, k);
    assert Register(cap, d, k).0 == d by {
      hide ViewOf;
    }
  }

  lemma {:induction false} AdmittedTables(cap: Capacity, before: Tables, d: Tables, k: Key, p: string,
                                          cancellable: bool)
    requires TablesOk(cap, before, d) && Admit(cap, d, k, p, cancellable).1.Admitted? && p !in d.pins
    ensures Open(cap, before) && TablesOk(cap, before, Admit(cap, d, k, p, cancellable).0)
  {
    var d' := Admit(cap, d, k, p, cancellable).0;
    hide Sound, Orderly, Open, Forward, Admit;
    AdmittedIs(cap, d, k, p, cancellable);
    AdmitKeeps(cap, d, k, p, cancellable);
    ForwardChains(before, d, d');
    PinsStayed(before, d, d');
  }

  lemma {:induction false} PinTaken(cap: Capacity, norm: Normalizer, before: Tables, names: iset<string>,
                                    w: World, w': World, i: nat)
    requires Inv(cap, norm, before, names, w) && PhaseMoved(w, w', i) && w'.active == w.active
    requires w.execs[i].phase.Ready? && w'.execs[i].phase.Running? && norm(w.execs[i].id).Some?
    requires Open(cap, before) && TablesOk(cap, before, w'.tables)
    requires var e, p := w.execs[i], norm(w.execs[i].id).value;
             && p !in w.tables.pins
             && w'.tables.pins == w.tables.pins[p := Pin(e.key.coordinate, e.key.revision, e.cancellable, false)]
    ensures Inv(cap, norm, before, names, w')
  {
    hide Sound, Orderly, Forward, Open;
    var p := norm(w.execs[i].id).value;
    assert p !in before.pins by {
      assert p in before.pins ==> StillThere(before, w.tables, p);
    }
    assert HasPin(norm, w'.tables, w'.execs[i]) && Inside(w.execs[i]) && Inside(w'.execs[i]);
    assert Runs(norm, w', p) by {
      assert norm(w'.execs[i].id) == Some(p);
    }
    hide TablesOk, Open, ExecsOk, Distinct, ActivesOk, PhaseMoved, HasPin, Inside, Runs;
    OneMoreRuns(norm, before, names, w, w', i);
    StaysInside(w, w', i);
    StillRun(norm, before, w, w', i);
  }

  lemma {:induction false} OneMoreRuns(norm: Normalizer, before: Tables, names: iset<string>, w: World, w': World,
                                       i: nat)
    requires ExecsOk(norm, before, names, w) && PhaseMoved(w, w', i) && w'.active == w.active
    requires Inside(w.execs[i]) && w'.execs[i].phase.Running?
    requires HasPin(norm, w'.tables, w'.execs[i]) && norm(w.execs[i].id).value !in before.pins
    requires forall q :: q in w.tables.pins ==> q in w'.tables.pins && SamePin(w'.tables.pins[q], w.tables.pins[q])
    ensures ExecsOk(norm, before, names, w')
  {
    forall j | 0 <= j < |w'.execs| ensures ExecOk(norm, before, names, w', j) {
      assert ExecOk(norm, before, names, w, j);
    }
  }

  lemma {:induction false} AdmitMove(cap: Capacity, norm: Normalizer, before: Tables, names: iset<string>, w: World,
                                     i: nat, pinned: bool)
    requires Sound(before) && Separate(cap, norm, before, names)
    requires Inv(cap, norm, before, names, w) && i < |w.execs| && w.execs[i].phase == Ready(pinned)
    ensures Inv(cap, norm, before, names, AdmitStep(cap, norm, w, i, pinned))
  {
    hide Sound, Orderly, Forward;
    var e := w.execs[i];
    var w' := AdmitStep(cap, norm, w, i, pinned);
    if norm(e.id).Some? && Admit(cap, w.tables, e.key, norm(e.id).value, e.cancellable).1.Admitted? {
      hide Separate, Open;
      NameIsFree(cap, norm, before, names, w, i);
      AdmittedIs(cap, w.tables, e.key, norm(e.id).value, e.cancellable);
      assert TablesOk(cap, before, w'.tables) && Open(cap, before) by {
        hide Admit;
        AdmittedTables(cap, before, w.tables, e.key, norm(e.id).value, e.cancellable);
      }
      hide Inv, TablesOk, Admit;
      PinTaken(cap, norm, before, names, w, w', i);
    } else {
      hide Inv, Separate;
      QuietMove(cap, norm, before, names, w, w', i);
    }
  }

  // ----- release -----

  lemma ReleasedPins(d: Tables, p: string)
    ensures Release(d, p).0.pins == d.pins - {p}
  {
  }

  lemma {:induction false} ReleasedTables(cap: Capacity, before: Tables, d: Tables, p: string)
    requires TablesOk(cap, before, d) && Open(cap, before) && p !in before.pins
    ensures TablesOk(cap, before, Release(d, p).0)
  {
    var d' := Release(d, p).0;
    hide Sound, Orderly, Open, Forward, Release;
    ReleaseKeeps(d, p);
    ReleasedPins(d, p);
    ForwardChains(before, d, d');
    PinsStayed(before, d, d');
  }

  lemma {:induction false} PinGiven(cap: Capacity, norm: Normalizer, before: Tables, names: iset<string>,
                                    w: World, w': World, i: nat)
    requires Separate(cap, norm, before, names) && Inv(cap, norm, before, names, w)
    requires PhaseMoved(w, w', i) && w'.active == w.active && w.execs[i].phase.Running? && w'.execs[i].phase.Leaving?
    requires HasPin(norm, w.tables, w.execs[i]) && norm(w.execs[i].id).value !in before.pins
    requires TablesOk(cap, before, w'.tables) && w'.tables.pins == w.tables.pins - {norm(w.execs[i].id).value}
    ensures Inv(cap, norm, before, names, w')
  {
    hide Sound, Orderly, Forward, Open;
    forall j | 0 <= j < |w.execs| && j != i && w.execs[j].phase.Running?
      ensures norm(w.execs[j].id) != norm(w.execs[i].id)
    {
      hide Separate, Inv;
      assert Inside(w.execs[i]);
      NamesApart(cap, norm, before, names, w, i, j);
    }
    assert Inside(w.execs[i]) && Inside(w'.execs[i]) && norm(w.execs[i].id).Some?;
    hide TablesOk, Open, Separate, ExecsOk, Distinct, ActivesOk, PhaseMoved, HasPin, Inside, Runs;
    OneFewerRuns(norm, before, names, w, w', i);
    StaysInside(w, w', i);
    StillRun(norm, before, w, w', i);
  }

  lemma {:induction false} OneFewerRuns(norm: Normalizer, before: Tables, names: iset<string>, w: World, w': World,
                                        i: nat)
    requires ExecsOk(norm, before, names, w) && PhaseMoved(w, w', i) && w'.active == w.active
    requires Inside(w.execs[i]) && !w'.execs[i].phase.Running?
    requires norm(w.execs[i].id).Some? && w'.tables.pins == w.tables.pins - {norm(w.execs[i].id).value}
    requires forall j :: 0 <= j < |w.execs| && j != i && w.execs[j].phase.Running? ==>
      norm(w.execs[j].id) != norm(w.execs[i].id)
    ensures ExecsOk(norm, before, names, w')
  {
    forall j | 0 <= j < |w'.execs| ensures ExecOk(norm, before, names, w', j) {
      assert ExecOk(norm, before, names, w, j);
    }
  }

  lemma {:induction false} ReleaseMove(cap: Capacity, norm: Normalizer, before: Tables, names: iset<string>, w: World,
                                       i: nat, pinned: bool)
    requires Separate(cap, norm, before, names)
    requires Inv(cap, norm, before, names, w) && i < |w.execs| && w.execs[i].phase == Running(pinned)
    ensures Inv(cap, norm, before, names, ReleaseStep(norm, w, i, pinned))
  {
    hide Sound, Orderly, Forward;
    assert ExecOk(norm, before, names, w, i);
    var p := norm(w.execs[i].id).value;
    assert Open(cap, before);
    ReleasedTables(cap, before, w.tables, p);
    ReleasedPins(w.tables, p);
    hide Inv, TablesOk, Open, Separate, Release, HasPin;
    PinGiven(cap, norm, before, names, w, ReleaseStep(norm, w, i, pinned), i);
  }

  // ----- control -----

  lemma {:induction false} ControlPins(cap: Capacity, d: Tables, call: Call)
    requires call.Registering? || call.Beginning? || call.Advancing?
    ensures Apply(cap, d, call).0.pins.Keys == d.pins.Keys
    ensures forall p :: p in d.pins ==> SamePin(Apply(cap, d, call).0.pins[p], d.pins[p])
  {
    hide PinsOn, AllRetired, ViewOf;
  }

  /** Same places, and none that accepts again. */
  predicate NoneReopened(d: Tables, d': Tables) {
    d'.revisions.Keys == d.revisions.Keys && d'.coordinates.Keys == d.coordinates.Keys && Forward(d, d')
  }

  lemma {:induction false} DrainingReopensNothing(cap: Capacity, d: Tables, call: Call)
    requires Sound(d) && (call.Beginning? || call.Advancing?)
    ensures NoneReopened(d, Apply(cap, d, call).0)
  {
    hide Sound, Orderly, Forward;
    CallKeeps(cap, d, call);
    SamePlaces(cap, d, call);
    hide Apply;
  }

  lemma SamePlaces(cap: Capacity, d: Tables, call: Call)
    requires call.Beginning? || call.Advancing?
    ensures var d' := Apply(cap, d, call).0;
            d'.revisions.Keys == d.revisions.Keys && d'.coordinates.Keys == d.coordinates.Keys
  {
    hide PinsOn, ViewOf, AllRetired, Look, NewRequests;
  }

  lemma {:induction false} NoNewRoom(cap: Capacity, d: Tables, d': Tables, k: Key)
    requires Sound(d) && NoneReopened(d, d') && AcceptingAt(Register(cap, d', k).0, k)
    ensures AcceptingAt(Register(cap, d, k).0, k)
  {
    assert |d'.revisions| == |d'.revisions.Keys| == |d.revisions|;
    assert |d'.coordinates| == |d'.coordinates.Keys| == |d.coordinates|;
    if k in d.revisions {
      assert RevisionOk(d, k);
    }
    hide Sound, ViewOf;
  }

  lemma {:induction false} ShutStays(cap: Capacity, d: Tables, call: Call)
    requires Sound(d) && (call.Registering? || call.Beginning? || call.Advancing?) && !Open(cap, d)
    ensures !Open(cap, Apply(cap, d, call).0)
  {
    var d' := Apply(cap, d, call).0;
    ControlPins(cap, d, call);
    assert |d'.pins| == |d'.pins.Keys| == |d.pins.Keys| == |d.pins|;
    if |d.pins| < cap.inFlight {
      if call.Registering? {
        assert !AcceptingAt(Register(cap, d, call.key).0, call.key);
        assert d' == d by {
          hide ViewOf;
        }
      } else {
        forall k ensures !AcceptingAt(Register(cap, d', k).0, k) {
          if AcceptingAt(Register(cap, d', k).0, k) {
            DrainingReopensNothing(cap, d, call);
            NoNewRoom(cap, d, d', k);
          }
        }
      }
    }
  }

  lemma {:induction false} ControlTables(cap: Capacity, before: Tables, d: Tables, call: Call)
    requires TablesOk(cap, before, d) && (call.Registering? || call.Beginning? || call.Advancing?)
    ensures TablesOk(cap, before, Apply(cap, d, call).0)
  {
    var d' := Apply(cap, d, call).0;
    CallKeeps(cap, d, call);
    ControlPins(cap, d, call);
    if !Open(cap, d) {
      ShutStays(cap, d, call);
    }
    hide Sound, Orderly, Open, Apply;
    ForwardChains(before, d, d');
    hide Forward;
    PinsStayed(before, d, d');
  }

  lemma {:induction false} ControlMove(cap: Capacity, norm: Normalizer, before: Tables, names: iset<string>, w: World,
                                       call: Call)
    requires Inv(cap, norm, before, names, w) && (call.Registering? || call.Beginning? || call.Advancing?)
    ensures Inv(cap, norm, before, names, w.(tables := Apply(cap, w.tables, call).0))
  {
    var w' := w.(tables := Apply(cap, w.tables, call).0);
    ControlTables(cap, before, w.tables, call);
    ControlPins(cap, w.tables, call);
    hide TablesOk, Open, Apply, Distinct;
    forall j | 0 <= j < |w'.execs| ensures ExecOk(norm, before, names, w', j) {
      assert ExecOk(norm, before, names, w, j);
    }
    assert Distinct(w') by {
      forall j, k | 0 <= j < |w.execs| && 0 <= k < |w.execs| && j != k ensures Apart(w'.execs[j], w'.execs[k]) {
        assert Apart(w.execs[j], w.execs[k]);
      }
    }
    forall a | a in w'.active ensures ActiveAccounted(w', a) {
      assert ActiveAccounted(w, a);
    }
    forall p | p in w'.tables.pins && p !in before.pins ensures Runs(norm, w', p) {
      assert Runs(norm, w, p);
    }
  }

  lemma {:induction false} EnterMove(cap: Capacity, norm: Normalizer, before: Tables, names: iset<string>, w: World,
                                     e: Exec)
    requires Inv(cap, norm, before, names, w) && e.phase.Arriving? && e.id in names
    ensures Inv(cap, norm, before, names, w.(execs := w.execs + [e]))
  {
    var w' := w.(execs := w.execs + [e]);
    hide TablesOk, Open, HasPin;
    forall j | 0 <= j < |w'.execs| ensures ExecOk(norm, before, names, w', j) {
      if j < |w.execs| {
        assert ExecOk(norm, before, names, w, j);
      }
    }
    forall a | a in w'.active ensures ActiveAccounted(w', a) {
      assert ActiveAccounted(w, a);
      var j :| 0 <= j < |w.execs| && Inside(w.execs[j]) && w.execs[j].id == a;
      assert w'.execs[j].id == a;
    }
    forall p | p in w'.tables.pins && p !in before.pins ensures Runs(norm, w', p) {
      assert Runs(norm, w, p);
      var j :| 0 <= j < |w.execs| && w.execs[j].phase.Running? && norm(w.execs[j].id) == Some(p);
      assert w'.execs[j] == w.execs[j];
    }
  }

  lemma {:induction false} StepKeeps(cap: Capacity, norm: Normalizer, before: Tables, names: iset<string>, w: World,
                                     i: nat, callback: Callback)
    requires Sound(before) && Separate(cap, norm, before, names)
    requires Inv(cap, norm, before, names, w) && i < |w.execs|
    ensures Inv(cap, norm, before, names, Step(cap, norm, w, i, callback))
  {
    hide Inv, Separate, Sound, AdmitStep, ReleaseStep;
    match w.execs[i].phase
    case Ready(pinned) => AdmitMove(cap, norm, before, names, w, i, pinned);
    case Running(pinned) => ReleaseMove(cap, norm, before, names, w, i, pinned);
    case Returned =>
    case _ => QuietMove(cap, norm, before, names, w, Step(cap, norm, w, i, callback), i);
  }

  lemma {:induction false} MoveKeeps(cap: Capacity, norm: Normalizer, before: Tables, names: iset<string>, w: World,
                                     move: Move)
    requires Sound(before) && Separate(cap, norm, before, names)
    requires Inv(cap, norm, before, names, w) && Permitted(names, w, move)
    ensures Inv(cap, norm, before, names, Next(cap, norm, w, move))
  {
    hide Inv, Separate, Sound, Apply, Step;
    match move
    case Enter(key, cancellable, id) => EnterMove(cap, norm, before, names, w, Exec(key, cancellable, id, Arriving));
    case Control(call) => ControlMove(cap, norm, before, names, w, call);
    case Continue(i, callback) => StepKeeps(cap, norm, before, names, w, i, callback);
  }

  // ----- runs -----

  ghost predicate Feasible(cap: Capacity, norm: Normalizer, names: iset<string>, w: World, moves: seq<Move>)
    decreases |moves|
  {
    |moves| > 0 ==>
      Permitted(names, w, moves[0]) && Feasible(cap, norm, names, Next(cap, norm, w, moves[0]), moves[1..])
  }

  ghost function Run(cap: Capacity, norm: Normalizer, names: iset<string>, w: World, moves: seq<Move>): World
    requires Feasible(cap, norm, names, w, moves)
    decreases |moves|
  {
    if |moves| == 0 then w else Run(cap, norm, names, Next(cap, norm, w, moves[0]), moves[1..])
  }

  lemma {:induction false} RunKeeps(cap: Capacity, norm: Normalizer, before: Tables, names: iset<string>, w: World,
                                    moves: seq<Move>)
    requires Sound(before) && Separate(cap, norm, before, names)
    requires Inv(cap, norm, before, names, w) && Feasible(cap, norm, names, w, moves)
    ensures Inv(cap, norm, before, names, Run(cap, norm, names, w, moves))
    decreases |moves|
  {
    if |moves| > 0 {
      hide Inv, Separate, Sound, Next, Permitted;
      MoveKeeps(cap, norm, before, names, w, moves[0]);
      RunKeeps(cap, norm, before, names, Next(cap, norm, w, moves[0]), moves[1..]);
    }
  }

  predicate Starting(before: Tables) {
    Sound(before) && Orderly(before)
  }

  function Fresh(before: Tables): World {
    World(before, {}, [])
  }

  lemma FreshInv(cap: Capacity, norm: Normalizer, before: Tables, names: iset<string>)
    requires Starting(before)
    ensures Inv(cap, norm, before, names, Fresh(before))
  {
    hide Sound, Orderly, Open;
  }

  /** Call `i` works under its own pin on its bound revision, which is not retired. */
  predicate Protected(norm: Normalizer, w: World, i: nat)
    requires i < |w.execs|
  {
    var e := w.execs[i];
    && HasPin(norm, w.tables, e)
    && e.key in w.tables.revisions && w.tables.revisions[e.key] != Retired
    && forall j :: 0 <= j < |w.execs| && j != i && w.execs[j].phase.Running? ==> norm(w.execs[j].id) != norm(e.id)
  }

  predicate EveryProviderProtected(norm: Normalizer, w: World) {
    forall i :: 0 <= i < |w.execs| && w.execs[i].phase.Running? ==> Protected(norm, w, i)
  }

  predicate AllReturned(w: World) {
    forall i :: 0 <= i < |w.execs| ==> w.execs[i].phase.Returned?
  }

  /** The wrapper remembers nobody, and the controller holds the pins it held before. */
  predicate Restored(before: Tables, w: World) {
    && w.active == {}
    && w.tables.pins.Keys == before.pins.Keys
    && forall p :: p in before.pins ==> StillThere(before, w.tables, p)
  }

  /** While the provider works, the call holds its own pin on its bound revision, no other
      running call shares it, and that revision is not retired. */
  lemma {:induction false} ProviderIsProtected(cap: Capacity, norm: Normalizer, before: Tables, names: iset<string>,
                                               moves: seq<Move>)
    requires Starting(before) && Separate(cap, norm, before, names) && Feasible(cap, norm, names, Fresh(before), moves)
    ensures EveryProviderProtected(norm, Run(cap, norm, names, Fresh(before), moves))
  {
    var w := Run(cap, norm, names, Fresh(before), moves);
    FreshInv(cap, norm, before, names);
    RunKeeps(cap, norm, before, names, Fresh(before), moves);
    hide Run, Feasible, Open;
    forall i: nat | i < |w.execs| && w.execs[i].phase.Running? ensures Protected(norm, w, i) {
      assert ExecOk(norm, before, names, w, i);
      assert PinOk(w.tables, norm(w.execs[i].id).value);
      hide Sound, Orderly, Forward, Inv, Separate;
      forall j | 0 <= j < |w.execs| && j != i && w.execs[j].phase.Running?
        ensures norm(w.execs[j].id) != norm(w.execs[i].id)
      {
        NamesApart(cap, norm, before, names, w, i, j);
      }
    }
  }

  /** When every call has come back, the controller holds the pins it held before and the
      wrapper remembers none. */
  lemma {:induction false} PinsAreRestored(cap: Capacity, norm: Normalizer, before: Tables, names: iset<string>,
                                           moves: seq<Move>)
    requires Starting(before) && Separate(cap, norm, before, names) && Feasible(cap, norm, names, Fresh(before), moves)
    ensures var w := Run(cap, norm, names, Fresh(before), moves); AllReturned(w) ==> Restored(before, w)
  {
    var w := Run(cap, norm, names, Fresh(before), moves);
    FreshInv(cap, norm, before, names);
    RunKeeps(cap, norm, before, names, Fresh(before), moves);
    hide Run, Feasible, Sound, Orderly, Open, Separate, Forward;
    if AllReturned(w) {
      forall id ensures id !in w.active {
        assert id in w.active ==> ActiveAccounted(w, id);
      }
      forall p ensures p in w.tables.pins <==> p in before.pins {
        assert p in w.tables.pins && p !in before.pins ==> Runs(norm, w, p);
        assert p in before.pins ==> StillThere(before, w.tables, p);
      }
    }
  }
}
