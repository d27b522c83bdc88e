/** Sections resident in a bounded model context, and which of them make room for a new one. */
module Residency {
  import opened Scopes
  import opened Sums
  import opened Versions
  import opened Orders

  datatype Section = Section(
    key: string,
    revision: string,
    name: string,
    tokens: nat,
    reloadCost: int,
    reuseScore: int,
    sensitive: bool,
    pinned: bool,
    access: nat)

  type Entries = map<string, Section>

  /** `clock` numbers the accesses; every entry carries the number of its last one. */
  datatype Inventory = Inventory(cap: nat, entries: Entries, clock: nat)

  datatype Eviction = Eviction(key: string, tokens: nat, reason: string)

  const PRESSURE: string := "budget_pressure"
  const EXPLICIT: string := "explicit"

  datatype Reply =
    | Added(evictions: seq<Eviction>)
    | Accessed(section: Section)
    | Pinned
    | Removed(eviction: Eviction)
    | Invalid
    | Unknown
    | Exhausted
    | WriteFailed

  // ----- the order of eviction -----

  function Penalty(s: Section): nat {
    if s.sensitive then 2 else 1
  }

  /** What a section is worth per token, as an exact quotient. */
  function Worth(s: Section): real {
    (s.reuseScore * s.reloadCost) as real / (if s.tokens * Penalty(s) > 1 then s.tokens * Penalty(s) else 1) as real
  }

  predicate GoesBefore(a: Section, b: Section) {
    Worth(a) < Worth(b)
    || (Worth(a) == Worth(b) && (a.access < b.access || (a.access == b.access && StringLeq(a.key, b.key))))
  }

  lemma {:induction false} GoesBeforeTotal(a: Section, b: Section)
    ensures GoesBefore(a, b) || GoesBefore(b, a)
    ensures GoesBefore(a, b) && GoesBefore(b, a) ==> a.key == b.key
  {
    StringOrder(a.key, b.key);
  }

  lemma {:induction false} GoesBeforeTransitive(a: Section, b: Section, c: Section)
    requires GoesBefore(a, b) && GoesBefore(b, c)
    ensures GoesBefore(a, c)
  {
    if StringLeq(a.key, b.key) && StringLeq(b.key, c.key) {
      StringTransitive(a.key, b.key, c.key);
    }
    hide Worth, StringLeq;
  }

  // ----- tokens -----

  function Sizes(entries: Entries): map<string, nat> {
    map k | k in entries :: entries[k].tokens
  }

  ghost function Tokens(entries: Entries): nat {
    Total(Sizes(entries))
  }

  lemma {:induction false} TokensWithout(entries: Entries, k: string)
    requires k in entries
    ensures Tokens(entries) == Tokens(entries - {k}) + entries[k].tokens
  {
    assert Sizes(entries - {k}) == Sizes(entries) - {k};
    TotalWithout(Sizes(entries), k);
  }

  lemma {:induction false} TokensMonotone(small: Entries, large: Entries)
    requires forall k :: k in small ==> k in large && large[k].tokens == small[k].tokens
    ensures Tokens(small) <= Tokens(large)
  {
    TotalMonotone(Sizes(small), Sizes(large));
  }

  // ----- who may go, and in which order -----

  /** Everything that is neither pinned nor the section being added. */
  function Candidates(entries: Entries, keep: string): set<string> {
    set k | k in entries && !entries[k].pinned && k != keep
  }

  function Staying(entries: Entries, keep: string): Entries {
    map k | k in entries && (entries[k].pinned || k == keep) :: entries[k]
  }

  predicate Keyed(entries: Entries) {
    forall k :: k in entries ==> entries[k].key == k
  }

  predicate FirstOf(entries: Entries, among: set<string>, v: string)
    requires among <= entries.Keys
  {
    v in among && forall k :: k in among ==> GoesBefore(entries[v], entries[k])
  }

  predicate IsVictim(entries: Entries, keep: string, v: string) {
    FirstOf(entries, Candidates(entries, keep), v)
  }

  lemma {:induction false} FirstExists(entries: Entries, among: set<string>)
    requires among != {} && among <= entries.Keys
    ensures exists v :: FirstOf(entries, among, v)
  {
    var leq := (a, b) => a in entries && b in entries && GoesBefore(entries[a], entries[b]);
    forall a, b | a in among && b in among ensures leq(a, b) || leq(b, a) {
      GoesBeforeTotal(entries[a], entries[b]);
    }
    forall a, b, c | a in among && b in among && c in among && leq(a, b) && leq(b, c) ensures leq(a, c) {
      GoesBeforeTransitive(entries[a], entries[b], entries[c]);
    }
    hide GoesBefore;
    LeastExists(leq, among);
    var v :| IsLeast(leq, among, v);
    assert FirstOf(entries, among, v) by {
      forall k | k in among ensures GoesBefore(entries[v], entries[k]) {
        assert leq(v, k);
      }
    }
  }

  ghost function Victim(entries: Entries, keep: string): (v: string)
    requires Candidates(entries, keep) != {}
    ensures IsVictim(entries, keep, v)
  {
    FirstExists(entries, Candidates(entries, keep));
    var v :| FirstOf(entries, Candidates(entries, keep), v);
    v
  }

  lemma OneVictim(entries: Entries, keep: string, v: string)
    requires Keyed(entries) && IsVictim(entries, keep, v)
    ensures Victim(entries, keep) == v
  {
    GoesBeforeTotal(entries[v], entries[Victim(entries, keep)]);
  }

  /** All candidates, from the first to go to the last. */
  ghost function Ranked(entries: Entries, keep: string): seq<string>
    decreases |Candidates(entries, keep)|
  {
    if Candidates(entries, keep) == {} then []
    else
      var v := Victim(entries, keep);
      assert Candidates(entries - {v}, keep) == Candidates(entries, keep) - {v};
      [v] + Ranked(entries - {v}, keep)
  }

  predicate InOrder(entries: Entries, ranked: seq<string>) {
    && (forall k :: k in ranked ==> k in entries)
    && forall i, j :: 0 <= i < j < |ranked| ==>
      ranked[i] != ranked[j] && GoesBefore(entries[ranked[i]], entries[ranked[j]])
  }

  /** The ranking is what it should be: every candidate once, in the order of eviction. */
  lemma {:induction false} RankedIs(entries: Entries, keep: string)
    ensures forall k :: k in Ranked(entries, keep) <==> k in Candidates(entries, keep)
    ensures InOrder(entries, Ranked(entries, keep))
    decreases |Candidates(entries, keep)|
  {
    if Candidates(entries, keep) != {} {
      var v := Victim(entries, keep);
      assert Candidates(entries - {v}, keep) == Candidates(entries, keep) - {v};
      RankedIs(entries - {v}, keep);
      var rest := Ranked(entries - {v}, keep);
      assert Ranked(entries, keep) == [v] + rest;
      forall k | k in rest ensures k != v && k in entries && GoesBefore(entries[v], entries[k]) {
      }
    }
  }

  // ----- evicting to the limit -----

  /** What is left, who went, and whether it was enough. */
  ghost function Evict(cap: nat, entries: Entries, keep: string): (r: (Entries, seq<string>, bool))
    decreases |Candidates(entries, keep)|
  {
    if Tokens(entries) <= cap then (entries, [], true)
    else if Candidates(entries, keep) == {} then (entries, [], false)
    else
      var v := Victim(entries, keep);
      assert Candidates(entries - {v}, keep) == Candidates(entries, keep) - {v};
      var (left, gone, ok) := Evict(cap, entries - {v}, keep);
      (left, [v] + gone, ok)
  }

  function Dropping(entries: Entries, gone: seq<string>): Entries {
    entries - (set k | k in gone)
  }

  lemma DroppingOne(entries: Entries, v: string, gone: seq<string>)
    ensures Dropping(entries, [v] + gone) == Dropping(entries - {v}, gone)
  {
  }

  /** Dropping the first `n` of the ranking still leaves too much. */
  ghost predicate TooMuch(cap: nat, entries: Entries, ranked: seq<string>, n: nat)
    requires n <= |ranked|
  {
    Tokens(Dropping(entries, ranked[..n])) > cap
  }

  lemma {:induction false} StillTooMuch(cap: nat, entries: Entries, v: string, rest: seq<string>, n: nat)
    requires n <= |rest| && TooMuch(cap, entries - {v}, rest, n)
    ensures TooMuch(cap, entries, [v] + rest, n + 1)
  {
    assert ([v] + rest)[..n + 1] == [v] + rest[..n];
    DroppingOne(entries, v, rest[..n]);
  }

  /** `gone` is the shortest prefix of the ranking after which the rest fits, or all of it. */
  ghost predicate Shortest(cap: nat, entries: Entries, ranked: seq<string>, left: Entries, gone: seq<string>,
                           ok: bool) {
    && |gone| <= |ranked| && gone == ranked[..|gone|]
    && left == Dropping(entries, gone)
    && (forall n :: 0 <= n < |gone| ==> TooMuch(cap, entries, ranked, n))
    && (if ok then Tokens(left) <= cap else |gone| == |ranked| && Tokens(left) > cap)
  }

  lemma {:induction false} OneMoreEvicted(cap: nat, entries: Entries, v: string, rest: seq<string>, left: Entries,
                                          gone: seq<string>, ok: bool)
    requires Tokens(entries) > cap && Shortest(cap, entries - {v}, rest, left, gone, ok)
    ensures Shortest(cap, entries, [v] + rest, left, [v] + gone, ok)
  {
    DroppingOne(entries, v, gone);
    assert ([v] + rest)[..|gone| + 1] == [v] + gone;
    TooMuchAllAlong(cap, entries, v, rest, |gone|);
    hide Tokens, Dropping, TooMuch;
  }

  /** The evicted are the shortest prefix of the ranking that makes the rest fit. */
  lemma {:induction false} ShortestPrefix(cap: nat, entries: Entries, keep: string)
    ensures var (left, gone, ok) := Evict(cap, entries, keep);
            Shortest(cap, entries, Ranked(entries, keep), left, gone, ok)
    decreases |Candidates(entries, keep)|
  {
    assert Dropping(entries, []) == entries;
    if Tokens(entries) > cap && Candidates(entries, keep) != {} {
      var v := Victim(entries, keep);
      assert Candidates(entries - {v}, keep) == Candidates(entries, keep) - {v};
      hide Shortest, Tokens, Dropping, TooMuch;
      ShortestPrefix(cap, entries - {v}, keep);
      var (left, gone, ok) := Evict(cap, entries - {v}, keep);
      OneMoreEvicted(cap, entries, v, Ranked(entries - {v}, keep), left, gone, ok);
    }
  }

  lemma {:induction false} TooMuchAllAlong(cap: nat, entries: Entries, v: string, rest: seq<string>, upTo: nat)
    requires Tokens(entries) > cap && upTo <= |rest|
    requires forall n :: 0 <= n < upTo ==> TooMuch(cap, entries - {v}, rest, n)
    ensures forall n :: 0 <= n < upTo + 1 ==> TooMuch(cap, entries, [v] + rest, n)
  {
    assert ([v] + rest)[..0] == [] && Dropping(entries, []) == entries;
    hide Tokens, Dropping;
    forall n | 0 <= n < upTo + 1 ensures TooMuch(cap, entries, [v] + rest, n) {
      if n > 0 {
        StillTooMuch(cap, entries, v, rest, n - 1);
      }
    }
  }

  /** It is enough exactly when what may not go fits by itself. */
  lemma {:induction false} EnoughIff(cap: nat, entries: Entries, keep: string)
    ensures Evict(cap, entries, keep).2 <==> Tokens(Staying(entries, keep)) <= cap
    ensures !Evict(cap, entries, keep).2 ==> Evict(cap, entries, keep).0 == Staying(entries, keep)
  {
    ShortestPrefix(cap, entries, keep);
    RankedIs(entries, keep);
    var (left, gone, ok) := Evict(cap, entries, keep);
    if ok {
      TokensMonotone(Staying(entries, keep), left);
    } else {
      assert gone == Ranked(entries, keep);
      assert left == Staying(entries, keep);
    }
  }

  ghost function Freed(entries: Entries, gone: seq<string>): nat {
    if |gone| == 0 then 0
    else (if gone[0] in entries then entries[gone[0]].tokens else 0) + Freed(entries, gone[1..])
  }

  /** No token appears or disappears: what stays and what went add up. */
  lemma {:induction false} TokensAreConserved(cap: nat, entries: Entries, keep: string)
    ensures Tokens(entries) == Tokens(Evict(cap, entries, keep).0) + Freed(entries, Evict(cap, entries, keep).1)
    decreases |Candidates(entries, keep)|
  {
    if Tokens(entries) > cap && Candidates(entries, keep) != {} {
      var v := Victim(entries, keep);
      assert Candidates(entries - {v}, keep) == Candidates(entries, keep) - {v};
      TokensWithout(entries, v);
      TokensAreConserved(cap, entries - {v}, keep);
      var gone := Evict(cap, entries - {v}, keep).1;
      ShortestPrefix(cap, entries - {v}, keep);
      RankedIs(entries - {v}, keep);
      FreedElsewhere(entries, v, gone);
      assert ([v] + gone)[1..] == gone;
    }
  }

  lemma {:induction false} FreedElsewhere(entries: Entries, v: string, gone: seq<string>)
    requires v !in gone
    ensures Freed(entries, gone) == Freed(entries - {v}, gone)
  {
    if |gone| > 0 {
      FreedElsewhere(entries, v, gone[1..]);
    }
  }

  // ----- the operations of the inventory -----

  function Ticked(inv: Inventory, s: Section): Section {
    s.(access := inv.clock + 1)
  }

  function Placed(inv: Inventory, s: Section): Entries {
    inv.entries[s.key := Ticked(inv, s)]
  }

  function Evictions(entries: Entries, gone: seq<string>): seq<Eviction> {
    seq(|gone|, i requires 0 <= i < |gone| =>
      Eviction(gone[i], if gone[i] in entries then entries[gone[i]].tokens else 0, PRESSURE))
  }

  /** A failed add takes the new section out again and puts a replaced one back, but what was
      evicted on the way stays evicted. */
  ghost function Add(inv: Inventory, s: Section): (r: (Inventory, Reply)) {
    if s.key == "" then (inv, Invalid)
    else
      var (left, gone, ok) := Evict(inv.cap, Placed(inv, s), s.key);
      if ok then (Inventory(inv.cap, left, inv.clock + 1), Added(Evictions(Placed(inv, s), gone)))
      else
        (Inventory(inv.cap, if s.key in inv.entries then left[s.key := inv.entries[s.key]] else left - {s.key},
          inv.clock + 1),
         Exhausted)
  }

  function Access(inv: Inventory, k: string): (r: (Inventory, Reply)) {
    if k !in inv.entries then (inv, Unknown)
    else
      var s := Ticked(inv, inv.entries[k]);
      (Inventory(inv.cap, inv.entries[k := s], inv.clock + 1), Accessed(s))
  }

  function Pin(inv: Inventory, k: string, value: bool): (r: (Inventory, Reply)) {
    if k !in inv.entries then (inv, Unknown)
    else (Inventory(inv.cap, inv.entries[k := Ticked(inv, inv.entries[k]).(pinned := value)], inv.clock + 1), Pinned)
  }

  function Remove(inv: Inventory, k: string): (r: (Inventory, Reply)) {
    if k !in inv.entries then (inv, Unknown)
    else (inv.(entries := inv.entries - {k}), Removed(Eviction(k, inv.entries[k].tokens, EXPLICIT)))
  }

  datatype Call = Adding(section: Section) | Accessing(key: string) | Pinning(key: string,
    value: bool) | Removing(key: string)

  ghost function Apply(inv: Inventory, call: Call): (r: (Inventory, Reply)) {
    match call
    case Adding(s) => Add(inv, s)
    case Accessing(k) => Access(inv, k)
    case Pinning(k, value) => Pin(inv, k, value)
    case Removing(k) => Remove(inv, k)
  }

  /** Entries under their own keys, accesses all different and none in the future, within the cap. */
  ghost predicate Sound(inv: Inventory) {
    && Keyed(inv.entries)
    && (forall k :: k in inv.entries ==> inv.entries[k].access <= inv.clock)
    && (forall k, l :: k in inv.entries && l in inv.entries && k != l ==>
      inv.entries[k].access != inv.entries[l].access)
    && Tokens(inv.entries) <= inv.cap
  }

  lemma {:induction false} EvictKeeps(cap: nat, entries: Entries, keep: string)
    ensures var left := Evict(cap, entries, keep).0;
            forall k :: k in left ==> k in entries && left[k] == entries[k]
    ensures keep in entries ==> keep in Evict(cap, entries, keep).0
  {
    ShortestPrefix(cap, entries, keep);
    RankedIs(entries, keep);
    var gone := Evict(cap, entries, keep).1;
    hide Evict, Ranked, Tokens, TooMuch;
    assert forall k :: k in gone ==> k in Ranked(entries, keep);
  }

  lemma {:induction false} SameSizes(a: Entries, b: Entries)
    requires a.Keys == b.Keys && forall k :: k in a ==> a[k].tokens == b[k].tokens
    ensures Tokens(a) == Tokens(b)
  {
    assert Sizes(a) == Sizes(b);
  }

  /** Entries taken from a sound inventory, and possibly the section just touched. */
  lemma {:induction false} StillSound(inv: Inventory, s: Section, left: Entries)
    requires Sound(inv) && Tokens(left) <= inv.cap
    requires forall k :: k in left ==>
      k in Placed(inv, s) && (left[k] == Placed(inv, s)[k] || (k in inv.entries && left[k] == inv.entries[k]))
    ensures Sound(Inventory(inv.cap, left, inv.clock + 1))
  {
    hide Tokens;
  }

  lemma {:induction false} AddKeeps(inv: Inventory, s: Section)
    requires Sound(inv)
    ensures Sound(Add(inv, s).0) && Add(inv, s).0.cap == inv.cap
  {
    hide Evict, Ranked, TooMuch, Tokens, Dropping;
    if s.key != "" {
      var placed := Placed(inv, s);
      ShortestPrefix(inv.cap, placed, s.key);
      EvictKeeps(inv.cap, placed, s.key);
      var left := Add(inv, s).0.entries;
      if !Evict(inv.cap, placed, s.key).2 {
        TokensMonotone(left, inv.entries);
      }
      hide Evict, Ranked, TooMuch, Tokens, Dropping, Sound;
      StillSound(inv, s, left);
    }
  }

  /** Every call keeps the inventory sound; in particular the cap holds in every reachable state. */
  lemma {:induction false} CallKeeps(inv: Inventory, call: Call)
    requires Sound(inv)
    ensures Sound(Apply(inv, call).0) && Apply(inv, call).0.cap == inv.cap
  {
    hide Tokens, Evict;
    var entries' := Apply(inv, call).0.entries;
    match call
    case Adding(s) => AddKeeps(inv, s);
    case Accessing(k) =>
      if k in inv.entries {
        SameSizes(inv.entries, entries');
      }
      hide Tokens;
    case Pinning(k, _) =>
      if k in inv.entries {
        SameSizes(inv.entries, entries');
      }
      hide Tokens;
    case Removing(k) =>
      if k in inv.entries {
        TokensMonotone(entries', inv.entries);
      }
      hide Tokens;
  }

  /** When an add succeeds, whom it evicts, and what it costs when it fails. */
  lemma {:induction false} AddExactly(inv: Inventory, s: Section)
    requires Sound(inv) && s.key != ""
    ensures var (inv', reply) := Add(inv, s);
            var placed := Placed(inv, s);
            var ranked := Ranked(placed, s.key);
      && (reply.Added? <==> Tokens(Staying(placed, s.key)) <= inv.cap)
      && (reply.Added? ==>
            var n := |reply.evictions|;
            && n <= |ranked| && inv'.entries == Dropping(placed, ranked[..n])
            && reply.evictions == Evictions(placed, ranked[..n])
            && (forall i :: 0 <= i < n ==> TooMuch(inv.cap, placed, ranked, i))
            && Tokens(placed) == Tokens(inv'.entries) + Freed(placed, ranked[..n]))
      && (!reply.Added? ==>
            reply == Exhausted && inv'.entries == Staying(inv.entries, s.key))
  {
    var placed := Placed(inv, s);
    ShortestPrefix(inv.cap, placed, s.key);
    EnoughIff(inv.cap, placed, s.key);
    TokensAreConserved(inv.cap, placed, s.key);
    RankedIs(placed, s.key);
    hide Evict, Ranked, Tokens, TooMuch, Freed;
    if Add(inv, s).1.Added? {
      var n := |Add(inv, s).1.evictions|;
      assert Evict(inv.cap, placed, s.key).1 == Ranked(placed, s.key)[..n];
    }
  }

  /** A failed add is free of charge exactly when there was nothing it could have evicted. */
  lemma {:induction false} FailedAddLoses(inv: Inventory, s: Section)
    requires Sound(inv) && Add(inv, s).1 == Exhausted
    ensures Add(inv, s).0.entries == inv.entries <==> forall k :: k in inv.entries && k != s.key ==>
      inv.entries[k].pinned
  {
    AddExactly(inv, s);
    hide Add, Ranked, Tokens, TooMuch, Freed;
    var kept := Staying(inv.entries, s.key);
    forall k | k in inv.entries && k != s.key && !inv.entries[k].pinned ensures kept != inv.entries {
      assert k !in kept;
    }
    assert (forall k :: k in inv.entries && k != s.key ==> inv.entries[k].pinned) ==> kept == inv.entries;
  }
}
