/** The inventory and the persistent state around it as objects. */
module ContextInventories {
  import opened Scopes
  import opened Sums
  import opened Versions
  import opened Residency
  import opened ContextState

  /** The eviction that began at `start` has removed `gone` so far. */
  ghost predicate Midway(cap: nat, start: Entries, keep: string, now: Entries, gone: seq<string>) {
    && Evict(cap, start, keep).0 == Evict(cap, now, keep).0
    && Evict(cap, start, keep).1 == gone + Evict(cap, now, keep).1
    && Evict(cap, start, keep).2 == Evict(cap, now, keep).2
  }

  lemma OneMoreGone(cap: nat, start: Entries, keep: string, now: Entries, gone: seq<string>, victim: string)
    requires Midway(cap, start, keep, now, gone) && Tokens(now) > cap
    requires Candidates(now, keep) != {} && victim == Victim(now, keep)
    ensures Midway(cap, start, keep, now - {victim}, gone + [victim])
  {
    assert Evict(cap, now, keep).1 == [victim] + Evict(cap, now - {victim}, keep).1;
    assert gone + ([victim] + Evict(cap, now - {victim}, keep).1) ==
      gone + [victim] + Evict(cap, now - {victim}, keep).1;
  }

  lemma EvictionsGrow(start: Entries, gone: seq<string>, k: string)
    requires k in start
    ensures Evictions(start, gone + [k]) == Evictions(start, gone) + [Eviction(k, start[k].tokens, PRESSURE)]
  {
  }

  lemma AccessThenPin(inv: Inventory, k: string, value: bool)
    requires k in inv.entries
    ensures k in Access(inv, k).0.entries
    ensures Pin(inv, k, value).0 ==
            Access(inv, k).0.(entries := Access(inv, k).0.entries[k := Access(inv, k).0.entries[k].(pinned := value)])
  {
  }

  lemma NobodyLeft(cap: nat, start: Entries, keep: string, now: Entries, gone: seq<string>)
    requires Midway(cap, start, keep, now, gone) && Tokens(now) > cap && Candidates(now, keep) == {}
    ensures Evict(cap, start, keep) == (now, gone, false)
  {
    assert gone + [] == gone;
  }

  lemma ItFits(cap: nat, start: Entries, keep: string, now: Entries, gone: seq<string>)
    requires Midway(cap, start, keep, now, gone) && Tokens(now) <= cap
    ensures Evict(cap, start, keep) == (now, gone, true)
  {
    assert gone + [] == gone;
  }

  class ContextInventory {
    const cap: nat
    var entries: Entries
    var clock: nat

    ghost function Value(): Inventory
      reads this
    {
      Inventory(cap, entries, clock)
    }

    constructor (cap: nat)
      requires cap > 0
      ensures Value() == Inventory(cap, map[], 0) && Sound(Value())
    {
      this.cap := cap;
      entries, clock := map[], 0;
      TotalZero(Sizes(map[]));
    }

    method UsedTokens() returns (used: nat)
      ensures used == Tokens(entries)
    {
      used := 0;
      ghost var counted: map<string, nat> := map[];
      TotalZero(counted);
      var todo := entries.Keys;
      while todo != {}
        invariant todo <= entries.Keys
        invariant counted == map k | k in entries && k !in todo :: entries[k].tokens
        invariant used == Total(counted)
        decreases todo
      {
        var k :| k in todo;
        TotalUpdate(counted, k, entries[k].tokens);
        used := used + entries[k].tokens;
        counted := counted[k := entries[k].tokens];
        todo := todo - {k};
      }
      assert counted == Sizes(entries);
    }

    method Touch(s: Section) returns (touched: Section)
      modifies this`clock
      ensures clock == old(clock) + 1 && touched == s.(access := clock)
    {
      clock := clock + 1;
      touched := s.(access := clock);
    }

    /** The candidate that comes first in the order of eviction. */
    method FindVictim(keep: string, candidates: set<string>) returns (victim: string)
      requires candidates == Candidates(entries, keep) && candidates != {} && Keyed(entries)
      ensures victim == Victim(entries, keep)
    {
      victim :| victim in candidates;
      var others := candidates - {victim};
      GoesBeforeTotal(entries[victim], entries[victim]);
      while others != {}
        invariant others <= candidates && FirstOf(entries, candidates - others, victim)
        decreases others
      {
        var k :| k in others;
        GoesBeforeTotal(entries[victim], entries[k]);
        GoesBeforeTotal(entries[k], entries[k]);
        if !GoesBefore(entries[victim], entries[k]) {
          forall l | l in candidates - others ensures GoesBefore(entries[k], entries[l]) {
            GoesBeforeTransitive(entries[k], entries[victim], entries[l]);
          }
          victim := k;
        }
        others := others - {k};
      }
      assert candidates - others == candidates;
      OneVictim(entries, keep, victim);
    }

    method PopVictim(keep: string) returns (victim: Option<Section>)
      requires Keyed(entries)
      modifies this`entries
      ensures victim.None? ==> Candidates(old(entries), keep) == {} && entries == old(entries)
      ensures victim.Some? ==>
        && Candidates(old(entries), keep) != {} && victim.value.key == Victim(old(entries), keep)
        && victim.value == old(entries)[victim.value.key] && entries == old(entries) - {victim.value.key}
    {
      var candidates := set k | k in entries && !entries[k].pinned && k != keep;
      assert candidates == Candidates(entries, keep);
      if candidates == {} {
        return None;
      }
      var k := FindVictim(keep, candidates);
      victim := Some(entries[k]);
      entries := entries - {k};
    }

    /** Pops one victim after the other until the rest fits, or nobody is left to go. */
    method EvictToLimit(keep: string) returns (evictions: seq<Eviction>, ok: bool)
      requires Keyed(entries)
      modifies this`entries
      ensures var (left, gone, fits) := Evict(cap, old(entries), keep);
              entries == left && ok == fits && evictions == Evictions(old(entries), gone)
    {
      evictions := [];
      ghost var gone: seq<string> := [];
      ghost var start := entries;
      assert evictions == Evictions(start, []);
      assert [] + Evict(cap, start, keep).1 == Evict(cap, start, keep).1;
      hide Evict, Tokens, Candidates, Evictions;
      var used := UsedTokens();
      while used > cap
        invariant used == Tokens(entries) && Keyed(entries)
        invariant evictions == Evictions(start, gone)
        invariant forall k :: k in entries ==> k in start && entries[k] == start[k]
        invariant Midway(cap, start, keep, entries, gone)
        decreases |entries|
      {
        ghost var before := entries;
        var victim := PopVictim(keep);
        if victim.None? {
          NobodyLeft(cap, start, keep, entries, gone);
          return evictions, false;
        }
        OneMoreGone(cap, start, keep, before, gone, victim.value.key);
        EvictionsGrow(start, gone, victim.value.key);
        evictions := evictions + [Eviction(victim.value.key, victim.value.tokens, PRESSURE)];
        gone := gone + [victim.value.key];
        assert entries.Keys == before.Keys - {victim.value.key};
        used := UsedTokens();
      }
      ItFits(cap, start, keep, entries, gone);
      ok := true;
    }

    method AddSection(s: Section) returns (reply: Reply)
      requires Sound(Value())
      modifies this
      ensures (Value(), reply) == Add(old(Value()), s) && Sound(Value())
    {
      hide Tokens, Evict, Evictions;
      AddKeeps(Value(), s);
      if s.key == "" {
        return Invalid;
      }
      ghost var before := Value();
      var previous := if s.key in entries then Some(entries[s.key]) else None;
      assert previous.Some? ==> previous.value.key == s.key;
      PlacedIsKeyed(before, s);
      hide Sound, Tokens, Evict, Evictions, Keyed;
      entries := entries - {s.key};
      var touched := Touch(s);
      entries := entries[s.key := touched];
      assert entries == Placed(before, s);
      hide Placed, Ticked;
      reply := MakeRoom(s.key, previous);
    }

    /** Evicts for the section that was just placed, or takes it out again. */
    method MakeRoom(k: string, previous: Option<Section>) returns (reply: Reply)
      requires Keyed(entries) && k in entries && (previous.Some? ==> previous.value.key == k)
      modifies this`entries
      ensures var (left, gone, ok) := Evict(cap, old(entries), k);
        if ok then entries == left && reply == Added(Evictions(old(entries), gone))
        else reply == Exhausted && entries == if previous.Some? then left[k := previous.value] else left - {k}
    {
      hide Evict;
      var evictions, ok := EvictToLimit(k);
      if ok {
        return Added(evictions);
      }
      ghost var left := entries;
      entries := entries - {k};
      if previous.Some? {
        entries := entries[previous.value.key := previous.value];
        assert entries == left[k := previous.value];
      }
      reply := Exhausted;
    }

    method AccessSection(k: string) returns (reply: Reply)
      requires Sound(Value())
      modifies this
      ensures (Value(), reply) == Access(old(Value()), k) && Sound(Value())
    {
      CallKeeps(Value(), Accessing(k));
      hide Sound;
      if k !in entries {
        return Unknown;
      }
      var touched := Touch(entries[k]);
      entries := entries[k := touched];
      reply := Accessed(touched);
    }

    method PinSection(k: string, value: bool) returns (reply: Reply)
      requires Sound(Value())
      modifies this
      ensures (Value(), reply) == Pin(old(Value()), k, value) && Sound(Value())
    {
      CallKeeps(Value(), Pinning(k, value));
      ghost var before := Value();
      hide Sound, Tokens;
      var accessed := AccessSection(k);
      if accessed == Unknown {
        return Unknown;
      }
      AccessThenPin(before, k, value);
      entries := entries[k := entries[k].(pinned := value)];
      reply := Pinned;
    }

    method RemoveSection(k: string) returns (reply: Reply)
      requires Sound(Value())
      modifies this
      ensures (Value(), reply) == Remove(old(Value()), k) && Sound(Value())
    {
      CallKeeps(Value(), Removing(k));
      hide Sound;
      if k !in entries {
        return Unknown;
      }
      reply := Removed(Eviction(k, entries[k].tokens, EXPLICIT));
      entries := entries - {k};
    }
  }

  lemma PlacedIsKeyed(inv: Inventory, s: Section)
    requires Sound(inv)
    ensures Keyed(Placed(inv, s))
  {
  }
}
