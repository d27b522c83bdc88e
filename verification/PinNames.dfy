/** Which pin names are safe to bring: exactly those that the controller tells apart. */
module PinNames {
  import opened Scopes
  import opened Draining
  import opened DrainedService

  /** Every provider is protected, and when nobody is left the pins are those of before. */
  predicate Secure(norm: Normalizer, before: Tables, w: World) {
    EveryProviderProtected(norm, w) && (AllReturned(w) ==> Restored(before, w))
  }

  /** No interleaving of calls that bring these names goes wrong. */
  ghost predicate Safe(cap: Capacity, norm: Normalizer, before: Tables, names: iset<string>) {
    forall moves :: Feasible(cap, norm, names, Fresh(before), moves) ==>
      Secure(norm, before, Run(cap, norm, names, Fresh(before), moves))
  }

  ghost predicate Leads(cap: Capacity, norm: Normalizer, names: iset<string>, w: World, moves: seq<Move>, end: World) {
    Feasible(cap, norm, names, w, moves) && Run(cap, norm, names, w, moves) == end
  }

  lemma Stays(cap: Capacity, norm: Normalizer, names: iset<string>, w: World)
    ensures Leads(cap, norm, names, w, [], w)
  {
  }

  lemma LeadsOn(cap: Capacity, norm: Normalizer, names: iset<string>, w: World, move: Move, moves: seq<Move>,
                end: World)
    requires Permitted(names, w, move) && Leads(cap, norm, names, Next(cap, norm, w, move), moves, end)
    ensures Leads(cap, norm, names, w, [move] + moves, end)
  {
    assert ([move] + moves)[1..] == moves;
  }

  lemma Unsafe(cap: Capacity, norm: Normalizer, before: Tables, names: iset<string>, moves: seq<Move>, end: World)
    requires Leads(cap, norm, names, Fresh(before), moves, end) && !Secure(norm, before, end)
    ensures !Safe(cap, norm, before, names)
  {
    hide Secure, Run, Feasible;
  }

  // ----- a name that takes over a pin of before -----

  function Only(k: Key, cancellable: bool, x: string, phase: Phase): seq<Exec> {
    [Exec(k, cancellable, x, phase)]
  }

  lemma TakingSteps(cap: Capacity, norm: Normalizer, d: Tables, x: string, p: string)
    requires norm(x) == Some(p) && p in d.pins && AcceptingAt(d, KeyOf(d.pins[p]))
    ensures var k, c := KeyOf(d.pins[p]), d.pins[p].cancellable;
      && Next(cap, norm, World(d, {x}, Only(k, c, x, Ready(false))), Continue(0, Absent))
         == World(d, {x}, Only(k, c, x, Running(false)))
      && Next(cap, norm, World(d, {x}, Only(k, c, x, Running(false))), Continue(0, Absent))
         == World(Release(d, p).0, {x}, Only(k, c, x, Leaving(false)))
  {
    hide Release;
  }

  lemma ComingIn(cap: Capacity, norm: Normalizer, d: Tables, k: Key, c: bool, x: string)
    ensures Next(cap, norm, Fresh(d), Enter(k, c, x)) == World(d, {}, Only(k, c, x, Arriving))
    ensures Next(cap, norm, World(d, {}, Only(k, c, x, Arriving)), Continue(0, Absent))
         == World(d, {x}, Only(k, c, x, Claimed))
    ensures Next(cap, norm, World(d, {x}, Only(k, c, x, Claimed)), Continue(0, Absent))
         == World(d, {x}, Only(k, c, x, Ready(false)))
  {
  }

  lemma GoingOut(cap: Capacity, norm: Normalizer, d: Tables, k: Key, c: bool, x: string)
    ensures Next(cap, norm, World(d, {x}, Only(k, c, x, Leaving(false))), Continue(0, Absent))
         == World(d, {x}, Only(k, c, x, Discarding))
    ensures Next(cap, norm, World(d, {x}, Only(k, c, x, Discarding)), Continue(0, Absent))
         == World(d, {}, Only(k, c, x, Returned))
  {
  }

  /** One call, alone, is handed the pin of someone else and gives it back. */
  lemma {:induction false} TakingOver(cap: Capacity, norm: Normalizer, before: Tables, names: iset<string>, x: string)
    requires x in names && TakesOver(norm, before, x)
    ensures !Safe(cap, norm, before, names)
  {
    var p := norm(x).value;
    var k, c := KeyOf(before.pins[p]), before.pins[p].cancellable;
    var d := Release(before, p).0;
    var w1 := World(before, {}, Only(k, c, x, Arriving));
    var w2 := World(before, {x}, Only(k, c, x, Claimed));
    var w3 := World(before, {x}, Only(k, c, x, Ready(false)));
    var w4 := World(before, {x}, Only(k, c, x, Running(false)));
    var w5 := World(d, {x}, Only(k, c, x, Leaving(false)));
    var w6 := World(d, {x}, Only(k, c, x, Discarding));
    var w7 := World(d, {}, Only(k, c, x, Returned));
    assert !Secure(norm, before, w7) by {
      ReleasedPins(before, p);
    }
    ComingIn(cap, norm, before, k, c, x);
    TakingSteps(cap, norm, before, x, p);
    GoingOut(cap, norm, d, k, c, x);
    hide Next, Leads, Release, Secure;
    var go := Continue(0, Absent);
    Stays(cap, norm, names, w7);
    LeadsOn(cap, norm, names, w6, go, [], w7);
    LeadsOn(cap, norm, names, w5, go, [go] + [], w7);
    LeadsOn(cap, norm, names, w4, go, [go] + ([go] + []), w7);
    LeadsOn(cap, norm, names, w3, go, [go] + ([go] + ([go] + [])), w7);
    LeadsOn(cap, norm, names, w2, go, [go] + ([go] + ([go] + ([go] + []))), w7);
    LeadsOn(cap, norm, names, w1, go, [go] + ([go] + ([go] + ([go] + ([go] + [])))), w7);
    var moves := [go] + ([go] + ([go] + ([go] + ([go] + ([go] + [])))));
    LeadsOn(cap, norm, names, Fresh(before), Enter(k, c, x), moves, w7);
    Unsafe(cap, norm, before, names, [Enter(k, c, x)] + moves, w7);
  }

  // ----- two names read as one -----

  function Both(k: Key, x: string, y: string, first: Phase, second: Phase): seq<Exec> {
    [Exec(k, true, x, first), Exec(k, true, y, second)]
  }

  function Holding(d: Tables, k: Key, p: string): Tables {
    d.(pins := d.pins[p := Pin(k.coordinate, k.revision, true, false)])
  }

  lemma BothComeIn(cap: Capacity, norm: Normalizer, d: Tables, k: Key, x: string, y: string)
    requires x != y
    ensures Next(cap, norm, Fresh(d), Enter(k, true, x)) == World(d, {}, [Exec(k, true, x, Arriving)])
    ensures Next(cap, norm, World(d, {}, [Exec(k, true, x, Arriving)]), Enter(k, true, y))
         == World(d, {}, Both(k, x, y, Arriving, Arriving))
    ensures Next(cap, norm, World(d, {}, Both(k, x, y, Arriving, Arriving)), Continue(0, Absent))
         == World(d, {x}, Both(k, x, y, Claimed, Arriving))
    ensures Next(cap, norm, World(d, {x}, Both(k, x, y, Claimed, Arriving)), Continue(1, Absent))
         == World(d, {x, y}, Both(k, x, y, Claimed, Claimed))
  {
  }

  lemma BothGetReady(cap: Capacity, norm: Normalizer, d: Tables, k: Key, x: string, y: string)
    ensures Next(cap, norm, World(d, {x, y}, Both(k, x, y, Claimed, Claimed)), Continue(0, Absent))
         == World(d, {x, y}, Both(k, x, y, Ready(false), Claimed))
    ensures Next(cap, norm, World(d, {x, y}, Both(k, x, y, Ready(false), Claimed)), Continue(1, Absent))
         == World(d, {x, y}, Both(k, x, y, Ready(false), Ready(false)))
  {
  }

  /** The second admission is handed the first one's pin, and the first release takes it away. */
  lemma {:induction false} SharedSteps(cap: Capacity, norm: Normalizer, d: Tables, k: Key, x: string, y: string,
                                       p: string)
    requires norm(x) == Some(p) && norm(y) == Some(p) && p !in d.pins && |d.pins| < cap.inFlight && AcceptingAt(d, k)
    ensures var h := Holding(d, k, p);
      && Next(cap, norm, World(d, {x, y}, Both(k, x, y, Ready(false), Ready(false))), Continue(0, Absent))
         == World(h, {x, y}, Both(k, x, y, Running(false), Ready(false)))
      && Next(cap, norm, World(h, {x, y}, Both(k, x, y, Running(false), Ready(false))), Continue(1, Absent))
         == World(h, {x, y}, Both(k, x, y, Running(false), Running(false)))
      && Next(cap, norm, World(h, {x, y}, Both(k, x, y, Running(false), Running(false))), Continue(0, Absent))
         == World(Release(h, p).0, {x, y}, Both(k, x, y, Leaving(false), Running(false)))
  {
    hide Release;
  }

  lemma {:induction false} SharingAfter(cap: Capacity, norm: Normalizer, names: iset<string>, d: Tables, k: Key,
                                        x: string, y: string, p: string) returns (moves: seq<Move>, end: World)
    requires x in names && y in names && x != y && norm(x) == Some(p) && norm(y) == Some(p)
    requires p !in d.pins && |d.pins| < cap.inFlight && AcceptingAt(d, k)
    ensures Leads(cap, norm, names, Fresh(d), moves, end)
    ensures |end.execs| == 2 && end.execs[1] == Exec(k, true, y, Running(false)) && p !in end.tables.pins
  {
    var h := Holding(d, k, p);
    var w1 := World(d, {}, [Exec(k, true, x, Arriving)]);
    var w2 := World(d, {}, Both(k, x, y, Arriving, Arriving));
    var w3 := World(d, {x}, Both(k, x, y, Claimed, Arriving));
    var w4 := World(d, {x, y}, Both(k, x, y, Claimed, Claimed));
    var w5 := World(d, {x, y}, Both(k, x, y, Ready(false), Claimed));
    var w6 := World(d, {x, y}, Both(k, x, y, Ready(false), Ready(false)));
    var w7 := World(h, {x, y}, Both(k, x, y, Running(false), Ready(false)));
    var w8 := World(h, {x, y}, Both(k, x, y, Running(false), Running(false)));
    end := World(Release(h, p).0, {x, y}, Both(k, x, y, Leaving(false), Running(false)));
    ReleasedPins(h, p);
    BothComeIn(cap, norm, d, k, x, y);
    BothGetReady(cap, norm, d, k, x, y);
    SharedSteps(cap, norm, d, k, x, y, p);
    hide Next, Leads, Release, AcceptingAt, Holding;
    Stays(cap, norm, names, end);
    moves := [];
    LeadsOn(cap, norm, names, w8, Continue(0, Absent), moves, end);
    moves := [Continue(0, Absent)] + moves;
    LeadsOn(cap, norm, names, w7, Continue(1, Absent), moves, end);
    moves := [Continue(1, Absent)] + moves;
    LeadsOn(cap, norm, names, w6, Continue(0, Absent), moves, end);
    moves := [Continue(0, Absent)] + moves;
    LeadsOn(cap, norm, names, w5, Continue(1, Absent), moves, end);
    moves := [Continue(1, Absent)] + moves;
    LeadsOn(cap, norm, names, w4, Continue(0, Absent), moves, end);
    moves := [Continue(0, Absent)] + moves;
    LeadsOn(cap, norm, names, w3, Continue(1, Absent), moves, end);
    moves := [Continue(1, Absent)] + moves;
    LeadsOn(cap, norm, names, w2, Continue(0, Absent), moves, end);
    moves := [Continue(0, Absent)] + moves;
    LeadsOn(cap, norm, names, w1, Enter(k, true, y), moves, end);
    moves := [Enter(k, true, y)] + moves;
    LeadsOn(cap, norm, names, Fresh(d), Enter(k, true, x), moves, end);
    moves := [Enter(k, true, x)] + moves;
  }

  predicate RunsUnpinned(norm: Normalizer, w: World, x: string) {
    exists i :: 0 <= i < |w.execs| && w.execs[i].phase.Running? && w.execs[i].id == x &&
      !HasPin(norm, w.tables, w.execs[i])
  }

  /** Two calls whose different names the controller reads as one share a single pin: when the
      first call is done, the second works on without any. */
  lemma {:induction false} TwoNamesOnePin(cap: Capacity, norm: Normalizer, before: Tables, names: iset<string>,
                                          x: string, y: string)
    requires Open(cap, before) && x in names && y in names && Confused(norm, before, x, y)
    ensures exists moves, end :: Leads(cap, norm, names, Fresh(before), moves, end) && RunsUnpinned(norm, end, y)
    ensures !Safe(cap, norm, before, names)
  {
    hide Leads, Secure, RunsUnpinned, Safe, Feasible, Run;
    var p := norm(x).value;
    var k :| AcceptingAt(Register(cap, before, k).0, k);
    var d := Register(cap, before, k).0;
    SamePins(cap, before, k);
    hide Open, Register;
    var moves, end := SharingAfter(cap, norm, names, d, k, x, y, p);
    RegisteringFirst(cap, norm, before, k);
    LeadsOn(cap, norm, names, Fresh(before), Control(Registering(k)), moves, end);
    SecondIsUnpinned(norm, before, end, y);
    Unsafe(cap, norm, before, names, [Control(Registering(k))] + moves, end);
  }

  lemma SamePins(cap: Capacity, d: Tables, k: Key)
    ensures Register(cap, d, k).0.pins == d.pins
  {
  }

  lemma RegisteringFirst(cap: Capacity, norm: Normalizer, d: Tables, k: Key)
    ensures Next(cap, norm, Fresh(d), Control(Registering(k))) == Fresh(Register(cap, d, k).0)
  {
    hide Register;
  }

  lemma SecondIsUnpinned(norm: Normalizer, before: Tables, w: World, y: string)
    requires |w.execs| == 2 && w.execs[1].phase.Running? && w.execs[1].id == y
    requires norm(y).Some? && norm(y).value !in w.tables.pins
    ensures RunsUnpinned(norm, w, y) && !Secure(norm, before, w)
  {
    assert !HasPin(norm, w.tables, w.execs[1]);
    assert !Protected(norm, w, 1);
  }

  // ----- exactly the separate names are safe -----

  /** The pins are safe with these names if and only if the controller tells the names apart, from
      each other and from the pins it already holds where they could still be handed out. */
  lemma {:induction false} SafeExactlyWhenSeparate(cap: Capacity, norm: Normalizer, before: Tables, names: iset<string>)
    requires Starting(before)
    ensures Safe(cap, norm, before, names) <==> Separate(cap, norm, before, names)
  {
    hide Starting, Feasible, Run, Open, TakesOver, Confused;
    if Separate(cap, norm, before, names) {
      forall moves | Feasible(cap, norm, names, Fresh(before), moves)
        ensures Secure(norm, before, Run(cap, norm, names, Fresh(before), moves))
      {
        ProviderIsProtected(cap, norm, before, names, moves);
        PinsAreRestored(cap, norm, before, names, moves);
      }
    } else if x :| x in names && TakesOver(norm, before, x) {
      TakingOver(cap, norm, before, names, x);
    } else {
      var x, y :| x in names && y in names && Confused(norm, before, x, y);
      TwoNamesOnePin(cap, norm, before, names, x, y);
    }
  }

  /** On a controller that holds no pin and can admit, names are safe exactly when no two of them
      are read alike. */
  lemma {:induction false} SafeExactlyWhenReadApart(cap: Capacity, norm: Normalizer, before: Tables,
                                                    names: iset<string>)
    requires Starting(before) && before.pins == map[] && Open(cap, before)
    ensures Safe(cap, norm, before, names) <==>
            forall x, y :: x in names && y in names && norm(x).Some? && norm(x) == norm(y) ==> x == y
  {
    hide Starting, Open, Safe;
    SafeExactlyWhenSeparate(cap, norm, before, names);
    assert forall x :: !TakesOver(norm, before, x);
    if Separate(cap, norm, before, names) {
      forall x, y | x in names && y in names && norm(x).Some? && norm(x) == norm(y) ensures x == y {
        assert !Confused(norm, before, x, y);
      }
    }
  }
}
