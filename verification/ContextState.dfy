/** Context residency that survives failures and restarts: every change is saved, a failed change
    is rolled back, and both rollback and restart number the accesses afresh. */
module ContextState {
  import opened Scopes
  import opened Sums
  import opened Versions
  import opened Residency

  // ----- inventories that differ only in how they number the accesses -----

  predicate SameBut(a: Section, b: Section) {
    a == b.(access := a.access)
  }

  predicate SameOrder(a: Entries, b: Entries, k: string, l: string)
    requires k in a && l in a && k in b && l in b
  {
    a[k].access <= a[l].access <==> b[k].access <= b[l].access
  }

  ghost predicate Renumbered(a: Entries, b: Entries) {
    && a.Keys == b.Keys
    && (forall k :: k in a ==> SameBut(a[k], b[k]))
    && (forall k, l :: k in a && l in a ==> SameOrder(a, b, k, l))
  }

  /** Two states nobody can tell apart except by the numbers themselves. */
  ghost predicate Alike(a: Inventory, b: Inventory) {
    a.cap == b.cap && Sound(a) && Sound(b) && Renumbered(a.entries, b.entries)
  }

  /** A reply with the access number blanked out. */
  function Masked(r: Reply): Reply {
    match r
    case Accessed(s) => Accessed(s.(access := 0))
    case _ => r
  }

  lemma {:induction false} SameGoesBefore(a: Entries, b: Entries, k: string, l: string)
    requires Keyed(a) && Keyed(b) && Renumbered(a, b) && k in a && l in a
    ensures GoesBefore(a[k], a[l]) <==> GoesBefore(b[k], b[l])
  {
    assert SameBut(a[k], b[k]) && SameBut(a[l], b[l]);
    assert SameOrder(a, b, k, l) && SameOrder(a, b, l, k);
    assert Worth(a[k]) == Worth(b[k]) && Worth(a[l]) == Worth(b[l]);
    hide Worth, StringLeq;
  }

  lemma {:induction false} SameVictim(a: Entries, b: Entries, keep: string)
    requires Keyed(a) && Keyed(b) && Renumbered(a, b) && Candidates(a, keep) != {}
    ensures Candidates(a, keep) == Candidates(b, keep) && Victim(a, keep) == Victim(b, keep)
  {
    SameCandidates(a, b, keep);
    var v := Victim(a, keep);
    forall k | k in Candidates(b, keep) ensures GoesBefore(b[v], b[k]) {
      SameGoesBefore(a, b, v, k);
    }
    hide GoesBefore;
    OneVictim(b, keep, v);
  }

  lemma SameCandidates(a: Entries, b: Entries, keep: string)
    requires Renumbered(a, b)
    ensures Candidates(a, keep) == Candidates(b, keep)
  {
  }

  lemma RenumberedWithout(a: Entries, b: Entries, gone: set<string>)
    requires Renumbered(a, b)
    ensures Renumbered(a - gone, b - gone)
  {
    forall k, l | k in a - gone && l in a - gone ensures SameOrder(a - gone, b - gone, k, l) {
      assert SameOrder(a, b, k, l);
    }
  }

  lemma {:induction false} SameEvictions(cap: nat, a: Entries, b: Entries, keep: string)
    requires Keyed(a) && Keyed(b) && Renumbered(a, b)
    ensures Tokens(a) == Tokens(b)
    ensures Evict(cap, a, keep).1 == Evict(cap, b, keep).1 && Evict(cap, a, keep).2 == Evict(cap, b, keep).2
    ensures Renumbered(Evict(cap, a, keep).0, Evict(cap, b, keep).0)
    decreases |Candidates(a, keep)|
  {
    hide Tokens, Victim;
    SameSizes(a, b);
    SameCandidates(a, b, keep);
    if Tokens(a) > cap && Candidates(a, keep) != {} {
      SameVictim(a, b, keep);
      var v := Victim(a, keep);
      assert Candidates(a - {v}, keep) == Candidates(a, keep) - {v};
      RenumberedWithout(a, b, {v});
      SameEvictions(cap, a - {v}, b - {v}, keep);
    }
    hide Tokens, Candidates, Victim, Renumbered, Keyed;
  }

  /** Touching a section moves it behind everything else, however the rest is numbered. */
  lemma {:induction false} TouchedAlike(a: Inventory, b: Inventory, s: Section, t: Section)
    requires Alike(a, b) && SameBut(s, t)
    ensures Renumbered(Placed(a, s), Placed(b, t)) && Keyed(Placed(a, s)) && Keyed(Placed(b, t))
  {
    var p, q := Placed(a, s), Placed(b, t);
    hide Tokens;
    forall k, l | k in p && l in p ensures SameOrder(p, q, k, l) {
      if k != s.key && l != s.key {
        assert SameOrder(a.entries, b.entries, k, l);
      }
    }
  }

  lemma {:induction false} SameList(p: Entries, q: Entries, gone: seq<string>)
    requires Renumbered(p, q)
    ensures Evictions(p, gone) == Evictions(q, gone)
  {
    forall k | k in p ensures p[k].tokens == q[k].tokens {
      assert SameBut(p[k], q[k]);
    }
  }

  lemma StayingAlike(a: Entries, b: Entries, keep: string)
    requires Renumbered(a, b)
    ensures Renumbered(Staying(a, keep), Staying(b, keep))
  {
    SameSubset(a, b, Staying(a, keep), Staying(b, keep));
  }

  lemma AddIs(inv: Inventory, s: Section)
    requires s.key != ""
    ensures var (left, gone, ok) := Evict(inv.cap, Placed(inv, s), s.key);
            if ok then Add(inv, s).0.entries == left && Add(inv, s).1 == Added(Evictions(Placed(inv, s), gone))
            else Add(inv, s).1 == Exhausted
  {
  }

  lemma {:induction false} SameAdd(a: Inventory, b: Inventory, s: Section)
    requires Alike(a, b)
    ensures Renumbered(Add(a, s).0.entries, Add(b, s).0.entries) && Add(a, s).1 == Add(b, s).1
  {
    if s.key != "" {
      TouchedAlike(a, b, s, s);
      SameEvictions(a.cap, Placed(a, s), Placed(b, s), s.key);
      SameList(Placed(a, s), Placed(b, s), Evict(a.cap, Placed(a, s), s.key).1);
      AddIs(a, s);
      AddIs(b, s);
      if Add(a, s).1 == Exhausted {
        AddExactly(a, s);
        AddExactly(b, s);
        StayingAlike(a.entries, b.entries, s.key);
      }
      hide Evict, Tokens, Add, Renumbered, Sound, Evictions, Staying, Placed;
    }
  }

  lemma SameSubset(a: Entries, b: Entries, c: Entries, d: Entries)
    requires Renumbered(a, b) && c.Keys == d.Keys
    requires forall k :: k in c ==> k in a && c[k] == a[k] && d[k] == b[k]
    ensures Renumbered(c, d)
  {
    forall k, l | k in c && l in c ensures SameOrder(c, d, k, l) {
      assert SameOrder(a, b, k, l);
    }
  }

  lemma {:induction false} AccessAlike(a: Inventory, b: Inventory, k: string)
    requires Alike(a, b)
    ensures Renumbered(Access(a, k).0.entries, Access(b, k).0.entries)
    ensures Masked(Access(a, k).1) == Masked(Access(b, k).1)
  {
    if k in a.entries {
      assert SameBut(a.entries[k], b.entries[k]);
      TouchedAlike(a, b, a.entries[k], b.entries[k]);
      assert a.entries[k].key == k && b.entries[k].key == k;
      hide Sound, SameOrder, Renumbered, Tokens;
    }
  }

  lemma {:induction false} PinAlike(a: Inventory, b: Inventory, k: string, value: bool)
    requires Alike(a, b)
    ensures Renumbered(Pin(a, k, value).0.entries, Pin(b, k, value).0.entries)
    ensures Pin(a, k, value).1 == Pin(b, k, value).1
  {
    if k in a.entries {
      assert SameBut(a.entries[k], b.entries[k]);
      TouchedAlike(a, b, a.entries[k].(pinned := value), b.entries[k].(pinned := value));
      assert a.entries[k].key == k && b.entries[k].key == k;
      hide Sound, SameOrder, Renumbered, Tokens;
    }
  }

  lemma {:induction false} RemoveAlike(a: Inventory, b: Inventory, k: string)
    requires Alike(a, b)
    ensures Renumbered(Remove(a, k).0.entries, Remove(b, k).0.entries)
    ensures Remove(a, k).1 == Remove(b, k).1
  {
    RenumberedWithout(a.entries, b.entries, {k});
    if k in a.entries {
      assert SameBut(a.entries[k], b.entries[k]);
    }
    hide Sound, SameOrder;
  }

  lemma {:induction false} EntriesAlike(a: Inventory, b: Inventory, call: Call)
    requires Alike(a, b)
    ensures Renumbered(Apply(a, call).0.entries, Apply(b, call).0.entries)
    ensures Masked(Apply(a, call).1) == Masked(Apply(b, call).1)
  {
    hide Add, Access, Pin, Remove, Alike, Renumbered;
    match call
    case Adding(s) => SameAdd(a, b, s);
    case Accessing(k) => AccessAlike(a, b, k);
    case Pinning(k, value) => PinAlike(a, b, k, value);
    case Removing(k) => RemoveAlike(a, b, k);
  }

  /** States that differ only in numbering answer every call alike and stay that way. */
  lemma {:induction false} CallsAlike(a: Inventory, b: Inventory, call: Call)
    requires Alike(a, b)
    ensures Alike(Apply(a, call).0, Apply(b, call).0)
    ensures Masked(Apply(a, call).1) == Masked(Apply(b, call).1)
    ensures Tokens(Apply(a, call).0.entries) == Tokens(Apply(b, call).0.entries)
  {
    CallKeeps(a, call);
    CallKeeps(b, call);
    EntriesAlike(a, b, call);
    SameTokens(Apply(a, call).0.entries, Apply(b, call).0.entries);
    hide Tokens, Apply, Sound, Renumbered;
  }

  lemma SameTokens(a: Entries, b: Entries)
    requires Renumbered(a, b)
    ensures Tokens(a) == Tokens(b)
  {
    forall k | k in a ensures a[k].tokens == b[k].tokens {
      assert SameBut(a[k], b[k]);
    }
    SameSizes(a, b);
  }

  lemma AlikeFlips(a: Inventory, b: Inventory)
    requires Alike(a, b)
    ensures Alike(b, a)
  {
    NumberingFlips(a.entries, b.entries);
    hide Sound, Renumbered;
  }

  lemma NumberingFlips(a: Entries, b: Entries)
    requires Renumbered(a, b)
    ensures Renumbered(b, a)
  {
    forall k, l | k in a && l in a ensures SameOrder(b, a, k, l) {
      assert SameOrder(a, b, k, l);
    }
    forall k | k in b ensures SameBut(b[k], a[k]) {
      assert SameBut(a[k], b[k]);
    }
  }

  lemma {:induction false} ChainOfNumberings(a: Entries, b: Entries, c: Entries)
    requires Renumbered(a, b) && Renumbered(b, c)
    ensures Renumbered(a, c)
  {
    forall k | k in a ensures SameBut(a[k], c[k]) {
      assert SameBut(a[k], b[k]) && SameBut(b[k], c[k]);
    }
    forall k, l | k in a && l in a ensures SameOrder(a, c, k, l) {
      assert SameOrder(a, b, k, l) && SameOrder(b, c, k, l);
    }
  }

  lemma AlikeChains(a: Inventory, b: Inventory, c: Inventory)
    requires Alike(a, b) && Alike(b, c)
    ensures Alike(a, c)
  {
    ChainOfNumberings(a.entries, b.entries, c.entries);
    hide Sound, Renumbered;
  }

  // ----- numbering afresh -----

  function NotAfter(entries: Entries, k: string): set<string>
    requires k in entries
  {
    set l | l in entries && entries[l].access <= entries[k].access
  }

  function Rank(entries: Entries, k: string): nat
    requires k in entries
  {
    |NotAfter(entries, k)|
  }

  /** The same entries, numbered 1, 2, 3, ... in the order of their accesses. */
  function Renumber(entries: Entries): Entries {
    map k | k in entries :: entries[k].(access := Rank(entries, k))
  }

  function Restored(cap: nat, entries: Entries): Inventory {
    Inventory(cap, Renumber(entries), |entries|)
  }

  predicate Distinct(entries: Entries) {
    forall k, l :: k in entries && l in entries && k != l ==> entries[k].access != entries[l].access
  }

  lemma {:induction false} RankOrders(entries: Entries, k: string, l: string)
    requires k in entries && l in entries
    ensures entries[k].access <= entries[l].access <==> Rank(entries, k) <= Rank(entries, l)
    ensures Rank(entries, k) <= |entries|
  {
    SubsetSize(NotAfter(entries, k), entries.Keys);
    if entries[k].access <= entries[l].access {
      SubsetSize(NotAfter(entries, k), NotAfter(entries, l));
    } else {
      SubsetSize(NotAfter(entries, l), NotAfter(entries, k));
      assert k in NotAfter(entries, k) && k !in NotAfter(entries, l);
    }
  }

  lemma {:induction false} RenumberIsRenumbered(entries: Entries)
    ensures Renumbered(entries, Renumber(entries)) && Renumbered(Renumber(entries), entries)
    ensures forall k :: k in entries ==> Renumber(entries)[k].access <= |entries|
  {
    forall k | k in entries ensures Renumber(entries)[k].access <= |entries| &&
      SameBut(entries[k], Renumber(entries)[k]) {
      RankOrders(entries, k, k);
    }
    forall k, l | k in entries && l in entries ensures SameOrder(entries, Renumber(entries), k, l) {
      RankOrders(entries, k, l);
    }
    hide Rank, SameBut, SameOrder;
    NumberingFlips(entries, Renumber(entries));
  }

  lemma {:induction false} RestoredIsAlike(cap: nat, entries: Entries, inv: Inventory)
    requires Sound(inv) && inv.cap == cap && Renumbered(entries, inv.entries)
    ensures Alike(inv, Restored(cap, entries))
  {
    hide Tokens, Rank;
    RenumberIsRenumbered(entries);
    var e := Renumber(entries);
    NumberingFlips(entries, inv.entries);
    ChainOfNumberings(inv.entries, entries, e);
    SameTokens(inv.entries, e);
    StillDistinct(inv.entries, e);
    hide Tokens, Renumber, Renumbered;
  }

  lemma StillDistinct(a: Entries, b: Entries)
    requires Renumbered(a, b) && Keyed(a) && Distinct(a)
    ensures Keyed(b) && Distinct(b)
  {
    forall k, l | k in b && l in b && k != l ensures b[k].access != b[l].access {
      assert SameOrder(a, b, k, l) && SameOrder(a, b, l, k);
    }
    forall k | k in b ensures b[k].key == k {
      assert SameBut(a[k], b[k]);
    }
  }

  // ----- the persistent state -----

  datatype Saved = Saved(generation: nat, entries: Entries)
  datatype Local = Local(inv: Inventory, generation: nat, disk: Option<Saved>)

  predicate Acceptable(s: Section) {
    s.key != "" && s.revision != "" && s.name != "" && s.reloadCost > 0 && s.reuseScore > 0
  }

  ghost function Tried(inv: Inventory, call: Call): (Inventory, Reply) {
    if call.Adding? && !Acceptable(call.section) then (inv, Invalid) else Apply(inv, call)
  }

  predicate Failed(r: Reply) {
    r.Invalid? || r.Unknown? || r.Exhausted? || r.WriteFailed?
  }

  /** A change is written out before it counts; anything that fails is rolled back. */
  ghost function Attempt(l: Local, call: Call, saves: bool): (r: (Local, Reply)) {
    var (inv, reply) := Tried(l.inv, call);
    if Failed(reply) then (l.(inv := Restored(l.inv.cap, l.inv.entries)), reply)
    else if !saves then (l.(inv := Restored(l.inv.cap, l.inv.entries)), WriteFailed)
    else (Local(inv, l.generation + 1, Some(Saved(l.generation + 1, inv.entries))), reply)
  }

  /** A new process reads what the last successful change left on disk. */
  function Restart(l: Local): Local {
    match l.disk
    case None => Local(Restored(l.inv.cap, map[]), 0, None)
    case Some(saved) => Local(Restored(l.inv.cap, saved.entries), saved.generation, l.disk)
  }

  ghost predicate Valid(l: Local) {
    Sound(l.inv) &&
    match l.disk
    case None => l.generation == 0 && l.inv.entries == map[]
    case Some(saved) => saved.generation == l.generation && Renumbered(saved.entries, l.inv.entries)
  }

  /** The same to every observer, numbering apart. */
  ghost predicate Indistinguishable(a: Local, b: Local) {
    Valid(a) && Valid(b) && a.generation == b.generation && Alike(a.inv, b.inv)
  }

  lemma SameNumbering(a: Entries)
    ensures Renumbered(a, a)
  {
  }

  /** Rolling back leaves a state indistinguishable from the one before the call. */
  lemma {:induction false} RollbackIsInvisible(l: Local)
    requires Valid(l)
    ensures Indistinguishable(l, l.(inv := Restored(l.inv.cap, l.inv.entries)))
  {
    SameNumbering(l.inv.entries);
    RestoredIsAlike(l.inv.cap, l.inv.entries, l.inv);
    var inv' := Restored(l.inv.cap, l.inv.entries);
    if l.disk.Some? {
      ChainOfNumberings(l.disk.value.entries, l.inv.entries, inv'.entries);
    } else {
      assert inv'.entries == map[];
    }
    hide Tokens, Renumber;
  }

  /** So does starting again from what is on disk. */
  lemma {:induction false} RestartIsInvisible(l: Local)
    requires Valid(l)
    ensures Indistinguishable(l, Restart(l)) && Restart(l).disk == l.disk
  {
    match l.disk
    case None =>
      SameNumbering(map[]);
      RestoredIsAlike(l.inv.cap, map[], l.inv);
      assert Renumber(map[]) == map[];
    case Some(saved) =>
      RestoredIsAlike(l.inv.cap, saved.entries, l.inv);
      ChainOfNumberings(saved.entries, l.inv.entries, Renumber(saved.entries));
      hide Renumber;
  }

  lemma {:induction false} AttemptKeeps(l: Local, call: Call, saves: bool)
    requires Valid(l)
    ensures Valid(Attempt(l, call, saves).0)
    ensures Failed(Attempt(l, call, saves).1) ==>
      Indistinguishable(l, Attempt(l, call, saves).0) && Attempt(l, call, saves).0.disk == l.disk
  {
    hide Apply, Renumbered, Tokens, Rank;
    CallKeeps(l.inv, call);
    RollbackIsInvisible(l);
    SameNumbering(Tried(l.inv, call).0.entries);
    hide Apply, Restored, Renumbered, Sound, Alike;
  }

  lemma {:induction false} TriedAlike(a: Inventory, b: Inventory, call: Call)
    requires Alike(a, b)
    ensures Alike(Tried(a, call).0, Tried(b, call).0)
    ensures Masked(Tried(a, call).1) == Masked(Tried(b, call).1)
    ensures Failed(Tried(a, call).1) <==> Failed(Tried(b, call).1)
  {
    CallsAlike(a, b, call);
    hide Apply, Alike;
  }

  /** Indistinguishable states answer every call alike and stay indistinguishable. */
  lemma {:induction false} AttemptsAlike(a: Local, b: Local, call: Call, saves: bool)
    requires Indistinguishable(a, b)
    ensures Masked(Attempt(a, call, saves).1) == Masked(Attempt(b, call, saves).1)
    ensures Indistinguishable(Attempt(a, call, saves).0, Attempt(b, call, saves).0)
  {
    AttemptKeeps(a, call, saves);
    AttemptKeeps(b, call, saves);
    TriedAlike(a.inv, b.inv, call);
    if Failed(Attempt(a, call, saves).1) {
      var a', b' := Attempt(a, call, saves).0, Attempt(b, call, saves).0;
      AlikeFlips(a.inv, a'.inv);
      AlikeChains(a'.inv, a.inv, b.inv);
      AlikeChains(a'.inv, b.inv, b'.inv);
    }
    hide Tried, Restored, Alike, Valid;
  }

  // ----- runs with failures and restarts -----

  datatype Event = Doing(call: Call, saves: bool) | Restarting

  ghost function Happen(l: Local, e: Event): (r: (Local, Option<Reply>)) {
    match e
    case Doing(call, saves) => var (l', reply) := Attempt(l, call, saves); (l', Some(reply))
    case Restarting => (Restart(l), None)
  }

  ghost function Run(l: Local, events: seq<Event>): Local
    decreases |events|
  {
    if |events| == 0 then l else Run(Happen(l, events[0]).0, events[1..])
  }

  /** The masked answers of the calls that succeeded. */
  ghost function Answers(l: Local, events: seq<Event>): seq<Reply>
    decreases |events|
  {
    if |events| == 0 then []
    else
      var (l', reply) := Happen(l, events[0]);
      (if reply.Some? && !Failed(reply.value) then [Masked(reply.value)] else []) + Answers(l', events[1..])
  }

  /** The calls that succeeded, without the failures and the restarts in between. */
  ghost function Successes(l: Local, events: seq<Event>): seq<Event>
    decreases |events|
  {
    if |events| == 0 then []
    else
      var (l', reply) := Happen(l, events[0]);
      (if reply.Some? && !Failed(reply.value) then [events[0]] else []) + Successes(l', events[1..])
  }

  ghost predicate Succeeds(l: Local, e: Event) {
    Happen(l, e).1.Some? && !Failed(Happen(l, e).1.value)
  }

  /** Failures, failed writes and restarts might as well never have happened: the calls that
      succeeded give the same answers, and lead to an indistinguishable state, without them. */
  lemma {:induction false} OnlySuccessesCount(l: Local, m: Local, events: seq<Event>)
    requires Indistinguishable(l, m)
    ensures Answers(m, Successes(l, events)) == Answers(l, events)
    ensures Indistinguishable(Run(l, events), Run(m, Successes(l, events)))
    decreases |events|
  {
    hide Indistinguishable, Happen, Masked;
    if |events| > 0 {
      var l' := Happen(l, events[0]).0;
      var rest := Successes(l', events[1..]);
      if Succeeds(l, events[0]) {
        SuccessCounts(l, m, events[0]);
        OnlySuccessesCount(l', Happen(m, events[0]).0, events[1..]);
        assert Successes(l, events) == [events[0]] + rest;
        assert ([events[0]] + rest)[1..] == rest;
      } else {
        NothingCounts(l, m, events[0]);
        OnlySuccessesCount(l', m, events[1..]);
        assert Successes(l, events) == rest;
      }
    }
  }

  lemma SuccessCounts(l: Local, m: Local, e: Event)
    requires Indistinguishable(l, m) && Succeeds(l, e)
    ensures Indistinguishable(Happen(l, e).0, Happen(m, e).0) && Succeeds(m, e)
    ensures Masked(Happen(m, e).1.value) == Masked(Happen(l, e).1.value)
  {
    AttemptsAlike(l, m, e.call, e.saves);
    hide Attempt, Indistinguishable;
  }

  lemma {:induction false} NothingCounts(l: Local, m: Local, e: Event)
    requires Indistinguishable(l, m) && !Succeeds(l, e)
    ensures Indistinguishable(Happen(l, e).0, m)
  {
    if e.Doing? {
      AttemptKeeps(l, e.call, e.saves);
    } else {
      RestartIsInvisible(l);
    }
    var l' := Happen(l, e).0;
    AlikeFlips(l.inv, l'.inv);
    AlikeChains(l'.inv, l.inv, m.inv);
    hide Attempt, Restart, Valid, Alike;
  }
}
