/** Which sections leave the context, told by their use, size and age, and what each call on the
    inventory and on its persistent form does. */
module ResidencyEffects {
  import opened Scopes
  import opened Sums
  import opened Versions
  import opened Residency
  import opened ContextState

  // ----- who goes first -----

  /** What a section weighs: its tokens, twice for a sensitive one, and never nothing. */
  function Weight(s: Section): nat
    ensures Weight(s) > 0
  {
    var tokens := if s.sensitive then s.tokens + s.tokens else s.tokens;
    if tokens == 0 then 1 else tokens
  }

  function Use(s: Section): int {
    s.reuseScore * s.reloadCost
  }

  lemma {:induction false} QuotientsCompare(n: int, d: nat, m: int, e: nat)
    requires d > 0 && e > 0
    ensures n as real / d as real < m as real / e as real <==> n * e < m * d
  {
    var x, y := n as real / d as real, m as real / e as real;
    assert x * d as real == n as real && y * e as real == m as real;
    var f := d as real * e as real;
    assert x < y <==> x * f < y * f;
    assert x * f == (n * e) as real && y * f == (m * d) as real;
  }

  /** The section of less use for its weight goes first; of equal ones, the one longer unused; never
      two ways round. */
  lemma {:induction false} LessUseGoesFirst(a: Section, b: Section)
    ensures Use(a) * Weight(b) < Use(b) * Weight(a) ==> GoesBefore(a, b) && !GoesBefore(b, a)
    ensures Use(a) * Weight(b) == Use(b) * Weight(a) && a.access < b.access ==> GoesBefore(a, b) && !GoesBefore(b, a)
    ensures Use(a) * Weight(b) == Use(b) * Weight(a) && a.access == b.access ==>
      (GoesBefore(a, b) <==> StringLeq(a.key, b.key))
  {
    hide StringLeq;
    QuotientsCompare(Use(a), Weight(a), Use(b), Weight(b));
    QuotientsCompare(Use(b), Weight(b), Use(a), Weight(a));
    WorthIs(a);
    WorthIs(b);
    hide Worth, Use, Weight;
  }

  lemma WorthIs(s: Section)
    ensures Worth(s) == Use(s) as real / Weight(s) as real
  {
  }

  /** With everything else equal: what is reused less, or cheaper to load again, goes first; of what is
      of use, the larger and the sensitive go first. */
  lemma {:induction false} OtherThingsEqual(a: Section, b: Section)
    requires a.reuseScore > 0 && a.reloadCost > 0
    ensures b == a.(reuseScore := b.reuseScore) && a.reuseScore < b.reuseScore ==>
      GoesBefore(a, b) && !GoesBefore(b, a)
    ensures b == a.(reloadCost := b.reloadCost) && a.reloadCost < b.reloadCost ==>
      GoesBefore(a, b) && !GoesBefore(b, a)
    ensures b == a.(tokens := b.tokens) && 0 < b.tokens < a.tokens ==> GoesBefore(a, b) && !GoesBefore(b, a)
    ensures b == a.(sensitive := false) && a.sensitive && a.tokens > 0 ==> GoesBefore(a, b) && !GoesBefore(b, a)
  {
    hide GoesBefore;
    LessUseGoesFirst(a, b);
    Larger(a.reloadCost, a.reuseScore, b.reuseScore);
    Larger(a.reuseScore, a.reloadCost, b.reloadCost);
    Larger(a.reuseScore, 0, a.reloadCost);
    Larger(Weight(a), Use(a), Use(b));
    Larger(Use(a), Weight(b), Weight(a));
    hide Use;
    UseIs(a);
    UseIs(b);
  }

  lemma UseIs(s: Section)
    ensures Use(s) == s.reuseScore * s.reloadCost
  {
  }

  lemma Larger(n: int, x: int, y: int)
    requires n > 0
    ensures x < y ==> n * x < n * y && x * n < y * n
    ensures n * x == x * n && n * y == y * n
  {
  }

  // ----- whom an added section evicts -----

  /** An evicted section was neither pinned nor the one being added, and goes before every unpinned
      one that stays. */
  ghost predicate RightlyEvicted(placed: Entries, kept: Entries, keep: string, e: Eviction) {
    && e.key in placed && !placed[e.key].pinned && e.key != keep && e.key !in kept
    && e.tokens == placed[e.key].tokens && e.reason == "budget_pressure"
    && forall k :: k in kept && k in placed && !placed[k].pinned && k != keep ==> GoesBefore(placed[e.key], placed[k])
  }

  /** The evicted in the order in which they go. */
  predicate GoInOrder(placed: Entries, gone: seq<Eviction>) {
    forall i, j :: 0 <= i < j < |gone| ==>
      gone[i].key in placed && gone[j].key in placed && gone[i].key != gone[j].key
      && GoesBefore(placed[gone[i].key], placed[gone[j].key])
  }

  /** A section that was added is there, touched last; exactly the evicted are gone, and each of those
      rightly; without evicting the last of them the rest would not have fitted. */
  lemma {:induction false} AddEvicts(inv: Inventory, s: Section)
    requires Sound(inv) && Apply(inv, Adding(s)).1.Added?
    ensures var (inv', reply) := Apply(inv, Adding(s));
            var placed := inv.entries[s.key := s.(access := inv.clock + 1)];
      && inv'.clock == inv.clock + 1 && s.key in inv'.entries
      && (forall k :: k in inv'.entries <==> k in placed && forall e :: e in reply.evictions ==> e.key != k)
      && (forall k :: k in inv'.entries ==> inv'.entries[k] == placed[k])
      && (forall e :: e in reply.evictions ==> RightlyEvicted(placed, inv'.entries, s.key, e))
      && GoInOrder(placed, reply.evictions)
      && Tokens(inv'.entries) <= inv.cap
      && (reply.evictions != [] ==>
            Tokens(inv'.entries) + reply.evictions[|reply.evictions| - 1].tokens > inv.cap)
  {
    hide Ranked, Tokens, Freed, Evict, GoesBefore, Sound;
    var (inv', reply) := Add(inv, s);
    var placed := Placed(inv, s);
    var ranked := Ranked(placed, s.key);
    var n := |reply.evictions|;
    AddExactly(inv, s);
    RankedIs(placed, s.key);
    AddKeeps(inv, s);
    assert Sound(inv') ==> Tokens(inv'.entries) <= inv'.cap by {
      SoundFits(inv');
    }
    hide Add;
    PrefixGone(placed, s.key, ranked, n, inv'.entries, reply.evictions);
    if n > 0 {
      LastWasNeeded(placed, ranked, n);
      assert TooMuch(inv.cap, placed, ranked, n - 1);
    }
  }

  lemma SoundFits(inv: Inventory)
    requires Sound(inv)
    ensures Tokens(inv.entries) <= inv.cap
  {
  }

  lemma {:induction false} LastWasNeeded(placed: Entries, ranked: seq<string>, n: nat)
    requires 0 < n <= |ranked| && InOrder(placed, ranked)
    ensures Tokens(Dropping(placed, ranked[..n - 1])) ==
            Tokens(Dropping(placed, ranked[..n])) + placed[ranked[n - 1]].tokens
  {
    hide Tokens, GoesBefore;
    var before := Dropping(placed, ranked[..n - 1]);
    assert ranked[..n] == ranked[..n - 1] + [ranked[n - 1]];
    assert before - {ranked[n - 1]} == Dropping(placed, ranked[..n]);
    TokensWithout(before, ranked[n - 1]);
  }

  lemma {:induction false} PrefixGone(placed: Entries, keep: string, ranked: seq<string>, n: nat, kept: Entries,
                                      gone: seq<Eviction>)
    requires keep in placed && InOrder(placed, ranked)
    requires forall k :: k in ranked <==> k in Candidates(placed, keep)
    requires n <= |ranked| && kept == Dropping(placed, ranked[..n]) && gone == Evictions(placed, ranked[..n])
    ensures keep in kept && forall k :: k in kept <==> k in placed && forall e :: e in gone ==> e.key != k
    ensures forall k :: k in kept ==> kept[k] == placed[k]
    ensures forall e :: e in gone ==> RightlyEvicted(placed, kept, keep, e)
    ensures GoInOrder(placed, gone)
  {
    hide GoesBefore, RightlyEvicted;
    forall k ensures k in ranked[..n] <==> exists e :: e in gone && e.key == k {
      if k in ranked[..n] {
        var i :| 0 <= i < n && ranked[..n][i] == k;
        assert gone[i] in gone && gone[i].key == k;
      }
    }
    assert keep !in ranked[..n] by {
      assert forall k :: k in ranked[..n] ==> k in ranked;
    }
    forall e | e in gone ensures RightlyEvicted(placed, kept, keep, e) {
      var i :| 0 <= i < n && gone[i] == e;
      GoneRightly(placed, keep, ranked, n, kept, i);
    }
    GoneInOrder(placed, ranked, n, gone);
  }

  lemma GoneInOrder(placed: Entries, ranked: seq<string>, n: nat, gone: seq<Eviction>)
    requires InOrder(placed, ranked) && n <= |ranked| && gone == Evictions(placed, ranked[..n])
    ensures GoInOrder(placed, gone)
  {
    hide GoesBefore;
    assert forall i :: 0 <= i < n ==> gone[i].key == ranked[i];
  }

  lemma {:induction false} GoneRightly(placed: Entries, keep: string, ranked: seq<string>, n: nat, kept: Entries,
                                       i: nat)
    requires InOrder(placed, ranked) && i < n <= |ranked| && kept == Dropping(placed, ranked[..n])
    requires forall k :: k in ranked <==> k in Candidates(placed, keep)
    ensures ranked[i] in placed
    ensures RightlyEvicted(placed, kept, keep, Eviction(ranked[i], placed[ranked[i]].tokens, PRESSURE))
  {
    hide GoesBefore;
    assert ranked[i] in ranked && ranked[i] == ranked[..n][i];
    forall k | k in kept && k in placed && !placed[k].pinned && k != keep
      ensures GoesBefore(placed[ranked[i]], placed[k])
    {
      assert k in Candidates(placed, keep) && k !in ranked[..n];
      assert ranked == ranked[..n] + ranked[n..];
      var j :| 0 <= j < |ranked| - n && ranked[n..][j] == k;
      assert ranked[n + j] == k;
    }
  }

  /** A section without a key is refused and nothing happens; one that cannot be fitted in costs every
      section that is not pinned, except the one it would have replaced. */
  lemma {:induction false} AddRefused(inv: Inventory, s: Section)
    requires Sound(inv) && !Apply(inv, Adding(s)).1.Added?
    ensures var (inv', reply) := Apply(inv, Adding(s));
      && (|s.key| == 0 ==> inv' == inv && reply == Invalid)
      && (|s.key| > 0 ==>
            && reply == Exhausted && inv'.clock == inv.clock + 1
            && (forall k :: k in inv'.entries <==> k in inv.entries && (inv.entries[k].pinned || k == s.key))
            && (forall k :: k in inv'.entries ==> inv'.entries[k] == inv.entries[k]))
  {
    hide Ranked, Tokens, Freed, Evict, Sound, TooMuch;
    if s.key != "" {
      AddExactly(inv, s);
    }
  }

  // ----- the other calls -----

  /** Used later than everything else there. */
  predicate TouchedLast(entries: Entries, k: string) {
    k in entries && forall l :: l in entries && l != k ==> entries[l].access < entries[k].access
  }

  predicate OnlyThis(entries: Entries, entries': Entries, k: string) {
    entries'.Keys == entries.Keys && forall l :: l in entries && l != k ==> entries'[l] == entries[l]
  }

  /** Access and pin find exactly what is there, move it behind everything else, and change nothing
      but that and the pin. */
  lemma {:induction false} TouchExactly(inv: Inventory, k: string, value: bool)
    requires Sound(inv)
    ensures var (inv', reply) := Apply(inv, Accessing(k));
      && (k in inv.entries ==>
            && OnlyThis(inv.entries, inv'.entries, k) && TouchedLast(inv'.entries, k)
            && inv'.clock == inv.clock + 1 == inv'.entries[k].access
            && inv'.entries[k] == inv.entries[k].(access := inv'.entries[k].access)
            && reply == Accessed(inv'.entries[k]))
      && (k !in inv.entries ==> inv' == inv && reply == Unknown)
    ensures var (inv', reply) := Apply(inv, Pinning(k, value));
      && (k in inv.entries ==>
            && OnlyThis(inv.entries, inv'.entries, k) && TouchedLast(inv'.entries, k)
            && inv'.clock == inv.clock + 1 == inv'.entries[k].access
            && inv'.entries[k] == inv.entries[k].(access := inv'.entries[k].access, pinned := value)
            && reply == Pinned)
      && (k !in inv.entries ==> inv' == inv && reply == Unknown)
  {
    hide Tokens;
  }

  /** Removing takes out exactly that section and reports its size. */
  lemma {:induction false} RemoveExactly(inv: Inventory, k: string)
    ensures var (inv', reply) := Apply(inv, Removing(k));
      && (forall l :: l in inv'.entries <==> l in inv.entries && l != k)
      && (forall l :: l in inv'.entries ==> inv'.entries[l] == inv.entries[l])
      && (k in inv.entries ==>
            && reply == Removed(Eviction(k, inv.entries[k].tokens, "explicit"))
            && Tokens(inv.entries) == Tokens(inv'.entries) + inv.entries[k].tokens)
      && (k !in inv.entries ==> inv' == inv && reply == Unknown)
  {
    if k in inv.entries {
      TokensWithout(inv.entries, k);
    }
    hide Tokens;
  }

  // ----- the persistent form -----

  /** A section with its names, of some use and some cost. */
  predicate Complete(s: Section) {
    |s.key| > 0 && |s.revision| > 0 && |s.name| > 0 && s.reloadCost >= 1 && s.reuseScore >= 1
  }

  /** A call counts exactly when the inventory takes it, a section it adds is complete, and the new
      state could be written; then the disk holds what the inventory holds, one generation on. */
  lemma {:induction false} AttemptExactly(l: Local, call: Call, saves: bool)
    ensures var (l', reply) := Attempt(l, call, saves);
            var (inv', direct) := Apply(l.inv, call);
            var acceptable := call.Adding? ==> Complete(call.section);
      && (!Failed(reply) <==> acceptable && !Failed(direct) && saves)
      && (!Failed(reply) ==>
            && l'.inv == inv' && reply == direct
            && l'.generation == l.generation + 1 && l'.disk == Some(Saved(l.generation + 1, inv'.entries)))
      && (Failed(reply) ==>
            && l'.generation == l.generation && l'.disk == l.disk
            && reply == if !acceptable then Invalid else if Failed(direct) then direct else WriteFailed)
  {
    hide Apply;
  }
}
