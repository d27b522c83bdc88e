/** The lifecycle of capability revisions: accepting, draining while admitted executions
    finish, retired. The controller's tables as a value, and what each call makes of them. */
module Draining {
  import opened Scopes

  datatype Life = Accepting | Draining | Retired
  datatype Pin = Pin(coordinate: string, revision: string, cancellable: bool, requested: bool)
  datatype Key = Key(coordinate: string, revision: string)
  datatype Capacity = Capacity(coordinates: nat, revisions: nat, inFlight: nat)

  datatype Tables = Tables(
    coordinates: map<string, Life>,
    revisions: map<Key, Life>,
    pins: map<string, Pin>)

  datatype Refusal =
    | CoordinateNotAccepting
    | CoordinateNotFound
    | RevisionNotFound
    | NotAccepting
    | NotDraining
    | PinConflict
    | PinCapacity
    | StateCapacity
    | ForceDenied
    | InvalidTime

  datatype Outcome = Waiting | CancelRequested | Blocked | Done

  datatype Answer =
    | Snapshot(state: Life, inFlight: nat, cancellable: nat, cancelling: nat)
    | Admitted(id: string, pin: Pin)
    | Released(found: bool)
    | Progress(outcome: Outcome, requests: set<string>)
    | Refused(why: Refusal)

  // ----- reading the tables -----

  predicate Targets(pin: Pin, c: string, r: Option<string>) {
    pin.coordinate == c && (r.None? || pin.revision == r.value)
  }

  /** The pins on one revision, or on every revision of a coordinate. */
  function PinsOn(d: Tables, c: string, r: Option<string>): set<string> {
    set p | p in d.pins && Targets(d.pins[p], c, r)
  }

  function ViewOf(d: Tables, c: string, r: Option<string>, state: Life): Answer {
    Snapshot(state, |PinsOn(d, c, r)|,
             |set p | p in PinsOn(d, c, r) && d.pins[p].cancellable|,
             |set p | p in PinsOn(d, c, r) && d.pins[p].requested|)
  }

  function TargetState(d: Tables, c: string, r: Option<string>): Option<Life> {
    if c !in d.coordinates then None
    else if r.None? then Some(d.coordinates[c])
    else if Key(c, r.value) in d.revisions then Some(d.revisions[Key(c, r.value)]) else None
  }

  function Missing(d: Tables, c: string): Answer {
    Refused(if c in d.coordinates then RevisionNotFound else CoordinateNotFound)
  }

  function Look(d: Tables, c: string, r: Option<string>): Answer {
    match TargetState(d, c, r)
    case Some(state) => ViewOf(d, c, r, state)
    case None => Missing(d, c)
  }

  predicate AllRetired(d: Tables, c: string) {
    forall k :: k in d.revisions && k.coordinate == c ==> d.revisions[k] == Retired
  }

  // ----- the calls -----

  function Register(cap: Capacity, d: Tables, k: Key): (r: (Tables, Answer)) {
    if k in d.revisions then (d, ViewOf(d, k.coordinate, Some(k.revision), d.revisions[k]))
    else if k.coordinate in d.coordinates && d.coordinates[k.coordinate] != Accepting then
      (d, Refused(CoordinateNotAccepting))
    else if |d.revisions| >= cap.revisions || (k.coordinate !in d.coordinates &&
      |d.coordinates| >= cap.coordinates) then
      (d, Refused(StateCapacity))
    else
      var d' := d.(coordinates := d.coordinates[k.coordinate := Accepting], revisions := d.revisions[k := Accepting]);
      (d', ViewOf(d', k.coordinate, Some(k.revision), Accepting))
  }

  /** Admitting the same execution again hands out the same pin; another one may not take its name. */
  function Admit(cap: Capacity, d: Tables, k: Key, p: string, cancellable: bool): (r: (Tables, Answer)) {
    if k !in d.revisions || k.coordinate !in d.coordinates then (d, Refused(RevisionNotFound))
    else if d.coordinates[k.coordinate] != Accepting || d.revisions[k] != Accepting then (d, Refused(NotAccepting))
    else if p in d.pins then
      (d, if Targets(d.pins[p], k.coordinate, Some(k.revision)) && d.pins[p].cancellable == cancellable
          then Admitted(p, d.pins[p]) else Refused(PinConflict))
    else if |d.pins| >= cap.inFlight then (d, Refused(PinCapacity))
    else
      var pin := Pin(k.coordinate, k.revision, cancellable, false);
      (d.(pins := d.pins[p := pin]), Admitted(p, pin))
  }

  /** A draining coordinate retires with its last revision. */
  function CloseCoordinate(d: Tables, c: string): Tables {
    if c in d.coordinates && d.coordinates[c] == Draining && AllRetired(d, c)
    then d.(coordinates := d.coordinates[c := Retired]) else d
  }

  function Release(d: Tables, p: string): (r: (Tables, Answer)) {
    if p !in d.pins then (d, Released(false))
    else
      var k := Key(d.pins[p].coordinate, d.pins[p].revision);
      var freed := d.(pins := d.pins - {p});
      var last := k in d.revisions && d.revisions[k] == Draining && PinsOn(freed, k.coordinate, Some(k.revision)) == {};
      (CloseCoordinate(if last then freed.(revisions := d.revisions[k := Retired]) else freed, k.coordinate),
        Released(true))
  }

  /** What starting to drain makes of a revision. */
  function Drained(d: Tables, k: Key): Life
    requires k in d.revisions
  {
    if d.revisions[k] != Accepting then d.revisions[k]
    else if PinsOn(d, k.coordinate, Some(k.revision)) == {} then Retired else Draining
  }

  function DrainAll(d: Tables, c: string): Tables
    requires c in d.coordinates
  {
    CloseCoordinate(
      d.(coordinates := d.coordinates[c := if d.coordinates[c] == Accepting then Draining else d.coordinates[c]],
         revisions := map k | k in d.revisions :: if k.coordinate == c then Drained(d, k) else d.revisions[k]), c)
  }

  function BeginDrain(d: Tables, c: string, r: Option<string>): (r': (Tables, Answer)) {
    if TargetState(d, c, r).None? then (d, Missing(d, c))
    else if r.None? then (DrainAll(d, c), Look(DrainAll(d, c), c, r))
    else
      var d' := d.(revisions := d.revisions[Key(c, r.value) := Drained(d, Key(c, r.value))]);
      (d', Look(d', c, r))
  }

  function RetireTarget(d: Tables, c: string, r: Option<string>): Tables
    requires c in d.coordinates
  {
    match r
    case None =>
      d.(coordinates := d.coordinates[c := Retired],
         revisions := map k | k in d.revisions ::
           if k.coordinate == c && d.revisions[k] == Draining then Retired else d.revisions[k])
    case Some(v) => CloseCoordinate(d.(revisions := d.revisions[Key(c, v) := Retired]), c)
  }

  function NewRequests(d: Tables, c: string, r: Option<string>): set<string> {
    set p | p in PinsOn(d, c, r) && d.pins[p].cancellable && !d.pins[p].requested
  }

  function Advance(d: Tables, c: string, r: Option<string>, deadline: real, now: real): (r': (Tables, Answer)) {
    if deadline < 0.0 || now < 0.0 then (d, Refused(InvalidTime))
    else if TargetState(d, c, r).None? then (d, Missing(d, c))
    else if TargetState(d, c, r) == Some(Retired) then (d, Progress(Done, {}))
    else if TargetState(d, c, r) == Some(Accepting) then (d, Refused(NotDraining))
    else if PinsOn(d, c, r) == {} then (RetireTarget(d, c, r), Progress(Done, {}))
    else if now < deadline then (d, Progress(Waiting, {}))
    else
      var requests := NewRequests(d, c, r);
      if requests == {} then (d, Progress(Blocked, {}))
      else
        (d.(pins := map p | p in d.pins :: if p in requests then d.pins[p].(requested := true) else d.pins[p]),
         Progress(CancelRequested, requests))
  }

  function ForceRetire(d: Tables, c: string, r: Option<string>, allowed: bool): (r': (Tables, Answer)) {
    if !allowed then (d, Refused(ForceDenied))
    else if TargetState(d, c, r).None? then (d, Missing(d, c))
    else if TargetState(d, c, r) != Some(Draining) then (d, Refused(NotDraining))
    else (RetireTarget(d, c, r), Look(RetireTarget(d, c, r), c, r))
  }

  datatype Call =
    | Registering(key: Key)
    | Admitting(key: Key, id: string, cancellable: bool)
    | Releasing(id: string)
    | Beginning(coordinate: string, revision: Option<string>)
    | Advancing(coordinate: string, revision: Option<string>, deadline: real, now: real)
    | Forcing(coordinate: string, revision: Option<string>, allowed: bool)

  function Apply(cap: Capacity, d: Tables, call: Call): (r: (Tables, Answer)) {
    match call
    case Registering(k) => Register(cap, d, k)
    case Admitting(k, p, cancellable) => Admit(cap, d, k, p, cancellable)
    case Releasing(p) => Release(d, p)
    case Beginning(c, r) => BeginDrain(d, c, r)
    case Advancing(c, r, deadline, now) => Advance(d, c, r, deadline, now)
    case Forcing(c, r, allowed) => ForceRetire(d, c, r, allowed)
  }

  // ----- what every reachable table satisfies -----

  predicate HasDraining(d: Tables, c: string) {
    exists k :: k in d.revisions && k.coordinate == c && d.revisions[k] == Draining
  }

  predicate RevisionOk(d: Tables, k: Key)
    requires k in d.revisions
  {
    && k.coordinate in d.coordinates
    && (d.coordinates[k.coordinate] != Accepting ==> d.revisions[k] != Accepting)
    && (d.revisions[k] == Draining ==> PinsOn(d, k.coordinate, Some(k.revision)) != {})
  }

  predicate CoordinateOk(d: Tables, c: string)
    requires c in d.coordinates
  {
    && (d.coordinates[c] == Draining ==> HasDraining(d, c))
    && (d.coordinates[c] == Retired ==> AllRetired(d, c))
  }

  predicate PinOk(d: Tables, p: string)
    requires p in d.pins
  {
    Key(d.pins[p].coordinate, d.pins[p].revision) in d.revisions
  }

  predicate Sound(d: Tables) {
    && (forall k :: k in d.revisions ==> RevisionOk(d, k))
    && (forall c :: c in d.coordinates ==> CoordinateOk(d, c))
    && (forall p :: p in d.pins ==> PinOk(d, p))
  }

  /** Nothing still running has lost its revision. */
  predicate Orderly(d: Tables) {
    forall p :: p in d.pins && PinOk(d, p) ==> d.revisions[Key(d.pins[p].coordinate, d.pins[p].revision)] != Retired
  }

  const NOTHING: Tables := Tables(map[], map[], map[])

  function Rank(life: Life): nat {
    match life case Accepting => 0 case Draining => 1 case Retired => 2
  }

  /** Nothing is ever forgotten, and states only move forward. */
  predicate Forward(d: Tables, d': Tables) {
    && (forall c :: c in d.coordinates ==> c in d'.coordinates && Rank(d.coordinates[c]) <= Rank(d'.coordinates[c]))
    && (forall k :: k in d.revisions ==> k in d'.revisions && Rank(d.revisions[k]) <= Rank(d'.revisions[k]))
  }
}
