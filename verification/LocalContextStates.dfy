/** The persistent context state as an object: it owns one inventory, replaces it on rollback and
    restart, and writes every successful change before counting it. */
module LocalContextStates {
  import opened Scopes
  import opened Sums
  import opened Versions
  import opened Residency
  import opened ContextState
  import opened ContextInventories

  predicate Earlier(entries: Entries, rest: set<string>) {
    forall k, l :: k in entries && k !in rest && l in rest && l in entries ==> entries[k].access < entries[l].access
  }

  /** The entries outside `rest`, already in their new places. */
  ghost predicate Halfway(entries: Entries, rest: set<string>, restored: Inventory) {
    && Earlier(entries, rest) && Moved(entries, rest, restored.entries)
    && restored.clock == |restored.entries|
  }

  ghost predicate Moved(entries: Entries, rest: set<string>, to: Entries) {
    && to.Keys == entries.Keys - rest
    && forall k :: k in to ==> to[k] == entries[k].(access := Rank(entries, k))
  }

  method Oldest(entries: Entries, rest: set<string>) returns (k: string)
    requires rest != {} && rest <= entries.Keys && Distinct(entries)
    ensures k in rest && forall l :: l in rest && l != k ==> entries[k].access < entries[l].access
  {
    k :| k in rest;
    var others := rest - {k};
    while others != {}
      invariant others <= rest && k in rest && k !in others
      invariant forall l :: l in rest - others && l != k ==> entries[k].access < entries[l].access
      decreases others
    {
      var l :| l in others;
      if entries[l].access < entries[k].access {
        k := l;
      }
      others := others - {l};
    }
  }

  lemma {:induction false} RankOfOldest(entries: Entries, rest: set<string>, k: string)
    requires rest <= entries.Keys && k in rest && Earlier(entries, rest)
    requires forall l :: l in rest && l != k ==> entries[k].access < entries[l].access
    ensures Rank(entries, k) == |entries.Keys - rest| + 1
  {
    assert NotAfter(entries, k) == (entries.Keys - rest) + {k};
  }

  lemma {:induction false} FitsAtOnce(cap: nat, entries: Entries, rest: set<string>, restored: Inventory, k: string)
    requires Keyed(entries) && Tokens(entries) <= cap && restored.cap == cap && k in rest
    requires Halfway(entries, rest, restored) && rest <= entries.Keys
    ensures Add(restored, entries[k]).0 == Inventory(cap, Placed(restored, entries[k]), restored.clock + 1) || k == ""
  {
    hide Tokens, Rank, Earlier, Ranked, TooMuch;
    TokensMonotone(Placed(restored, entries[k]), entries);
    assert forall j :: j in Placed(restored, entries[k]) ==>
      Placed(restored, entries[k])[j].tokens == entries[j].tokens;
  }

  lemma {:induction false} OneMoreRestored(entries: Entries, rest: set<string>, restored: Inventory, k: string)
    requires Keyed(entries) && Halfway(entries, rest, restored) && k in rest && rest <= entries.Keys
    requires forall l :: l in rest && l != k ==> entries[k].access < entries[l].access
    ensures Halfway(entries, rest - {k}, Inventory(restored.cap, Placed(restored, entries[k]), restored.clock + 1))
  {
    RankOfOldest(entries, rest, k);
    assert restored.entries.Keys == entries.Keys - rest;
    assert |restored.entries| == |restored.entries.Keys|;
    OneMoved(entries, rest, restored, k);
    hide Rank, Moved;
  }

  lemma OneMoved(entries: Entries, rest: set<string>, restored: Inventory, k: string)
    requires Keyed(entries) && Moved(entries, rest, restored.entries) && k in rest && rest <= entries.Keys
    requires Rank(entries, k) == restored.clock + 1
    ensures Moved(entries, rest - {k}, Placed(restored, entries[k]))
  {
    hide Rank;
  }

  lemma AllRestored(cap: nat, entries: Entries, restored: Inventory)
    requires Halfway(entries, {}, restored) && restored.cap == cap
    ensures restored == Restored(cap, entries)
  {
    assert restored.entries == Renumber(entries);
    assert |restored.entries| == |restored.entries.Keys| == |entries.Keys| == |entries|;
    hide Rank;
  }

  /** Adds the entries to an empty inventory in the order of their accesses. */
  method Rebuild(cap: nat, entries: Entries) returns (inventory: ContextInventory)
    requires cap > 0 && Keyed(entries) && Distinct(entries) && Tokens(entries) <= cap && "" !in entries
    ensures fresh(inventory) && inventory.cap == cap
    ensures inventory.Value() == Restored(cap, entries) && Sound(inventory.Value())
  {
    inventory := new ContextInventory(cap);
    var rest := entries.Keys;
    assert entries.Keys - rest == {};
    assert Halfway(entries, rest, inventory.Value());
    hide Tokens, Rank, Add, Sound, Placed, Halfway, Restored;
    while rest != {}
      invariant rest <= entries.Keys && fresh(inventory) && inventory.cap == cap && Sound(inventory.Value())
      invariant Halfway(entries, rest, inventory.Value())
      decreases rest
    {
      var k := Oldest(entries, rest);
      FitsAtOnce(cap, entries, rest, inventory.Value(), k);
      OneMoreRestored(entries, rest, inventory.Value(), k);
      var reply := inventory.AddSection(entries[k]);
      rest := rest - {k};
    }
    AllRestored(cap, entries, inventory.Value());
  }

  class LocalContextState {
    var inventory: ContextInventory
    var generation: nat
    var disk: Option<Saved>

    ghost function Value(): Local
      reads this, inventory
    {
      Local(inventory.Value(), generation, disk)
    }

    ghost predicate Ready()
      reads this, inventory
    {
      Valid(Value()) && inventory.cap > 0 && "" !in inventory.entries
      && (disk.Some? ==> "" !in disk.value.entries)
    }

    constructor (cap: nat)
      requires cap > 0
      ensures Value() == Local(Inventory(cap, map[], 0), 0, None) && Ready() && fresh(inventory)
    {
      inventory := new ContextInventory(cap);
      generation, disk := 0, None;
    }

    /** Puts the inventory back to an earlier content, with the accesses numbered afresh. */
    method Restore(backup: Entries)
      requires inventory.cap > 0 && Keyed(backup) && Distinct(backup) && Tokens(backup) <= inventory.cap &&
        "" !in backup
      modifies this`inventory
      ensures inventory.Value() == Restored(old(inventory.cap), backup) && fresh(inventory)
    {
      inventory := Rebuild(inventory.cap, backup);
    }

    /** The shape that add, access, pin and remove share: try, write out, count; on any failure
        put the backup back. `saves` tells whether the write to disk succeeds. */
    method Change(call: Call, saves: bool) returns (reply: Reply)
      requires Ready()
      modifies this, inventory
      ensures (Value(), reply) == Attempt(old(Value()), call, saves) && Ready()
    {
      ghost var before := Value();
      hide Sound, Tokens, Restored, Renumbered, Valid, Keyed, Distinct, Attempt, Tried;
      AttemptIs(before, call, saves);
      var backup := inventory.entries;
      var tried := TryOn(inventory, call);
      ghost var inv := inventory.Value();
      assert (inv, tried) == Tried(before.inv, call);
      reply := Conclude(backup, tried, saves);
      if Failed(tried) || !saves {
        assert Value() == before.(inv := Restored(before.inv.cap, before.inv.entries));
      } else {
        assert Value() == Local(inv, before.generation + 1, Some(Saved(before.generation + 1, inv.entries)));
      }
    }

    /** Writes the new content out and counts the change, or puts the backup back. */
    method Conclude(backup: Entries, tried: Reply, saves: bool) returns (reply: Reply)
      requires inventory.cap > 0 && Keyed(backup) && Distinct(backup) && Tokens(backup) <= inventory.cap &&
        "" !in backup
      modifies this
      ensures if Failed(tried) || !saves then
          && fresh(inventory) && inventory.Value() == Restored(old(inventory.cap), backup)
          && generation == old(generation) && disk == old(disk)
          && reply == (if Failed(tried) then tried else WriteFailed)
        else
          && inventory == old(inventory) && generation == old(generation) + 1
          && disk == Some(Saved(generation, inventory.entries)) && reply == tried
    {
      hide Restored, Tokens, Keyed, Distinct;
      if Failed(tried) {
        Restore(backup);
        return tried;
      }
      if !saves {
        Restore(backup);
        return WriteFailed;
      }
      generation := generation + 1;
      disk := Some(Saved(generation, inventory.entries));
      reply := tried;
    }

    /** A new process: everything in memory is rebuilt from what is on disk. */
    method RestartNow()
      requires Ready()
      modifies this
      ensures Value() == Restart(old(Value())) && Ready() && fresh(inventory)
    {
      ghost var before := Value();
      RestartIs(before);
      hide Restored, Tokens, Sound, Renumbered, Valid, Keyed, Distinct, Alike, Restart, Indistinguishable;
      var saved := if disk.Some? then disk.value.entries else map[];
      assert saved == SavedEntries(before);
      Restore(saved);
      generation := if disk.Some? then disk.value.generation else 0;
      assert Value() == Restart(before);
    }
  }

  method TryOn(inventory: ContextInventory, call: Call) returns (reply: Reply)
    requires Sound(inventory.Value())
    modifies inventory
    ensures (inventory.Value(), reply) == Tried(old(inventory.Value()), call)
  {
    hide Sound, Add, Access, Pin, Remove;
    match call
    case Adding(s) =>
      if !Acceptable(s) {
        return Invalid;
      }
      reply := inventory.AddSection(s);
    case Accessing(k) => reply := inventory.AccessSection(k);
    case Pinning(k, value) => reply := inventory.PinSection(k, value);
    case Removing(k) => reply := inventory.RemoveSection(k);
  }

  lemma {:induction false} TriedNames(inv: Inventory, call: Call)
    requires Sound(inv) && "" !in inv.entries
    ensures "" !in Tried(inv, call).0.entries && Tried(inv, call).0.cap == inv.cap
  {
    if call.Adding? {
      EvictKeeps(inv.cap, Placed(inv, call.section), call.section.key);
    }
    hide Evict, Tokens, Sound;
  }

  /** What one attempt comes to, and that its result is a proper state again. */
  lemma {:induction false} AttemptIs(l: Local, call: Call, saves: bool)
    requires Valid(l) && "" !in l.inv.entries
    ensures Sound(l.inv) && Keyed(l.inv.entries) && Distinct(l.inv.entries) && Tokens(l.inv.entries) <= l.inv.cap
    ensures Valid(Attempt(l, call, saves).0)
    ensures var (inv, reply) := Tried(l.inv, call);
      && inv.cap == l.inv.cap && "" !in inv.entries
      && Attempt(l, call, saves) ==
         if Failed(reply) || !saves then
           (l.(inv := Restored(l.inv.cap, l.inv.entries)), if Failed(reply) then reply else WriteFailed)
         else (Local(inv, l.generation + 1, Some(Saved(l.generation + 1, inv.entries))), reply)
    ensures Restored(l.inv.cap, l.inv.entries).entries.Keys == l.inv.entries.Keys
    ensures Restored(l.inv.cap, l.inv.entries).cap == l.inv.cap
  {
    hide Tried, Rank, Tokens;
    TriedNames(l.inv, call);
    AttemptKeeps(l, call, saves);
  }

  function SavedEntries(l: Local): Entries {
    if l.disk.Some? then l.disk.value.entries else map[]
  }

  /** What is on disk fits into a new inventory, and a restart makes it the state. */
  lemma {:induction false} RestartIs(l: Local)
    requires Valid(l)
    ensures Keyed(SavedEntries(l)) && Distinct(SavedEntries(l)) && Tokens(SavedEntries(l)) <= l.inv.cap
    ensures SavedEntries(l).Keys == l.inv.entries.Keys
    ensures Valid(Restart(l)) && Restart(l).inv.entries.Keys == l.inv.entries.Keys && Restart(l).inv.cap == l.inv.cap
    ensures Restart(l) == Local(Restored(l.inv.cap, SavedEntries(l)), if l.disk.Some? then
      l.disk.value.generation else 0, l.disk)
  {
    RestartIsInvisible(l);
    if l.disk.Some? {
      NumberingFlips(SavedEntries(l), l.inv.entries);
      StillDistinct(l.inv.entries, SavedEntries(l));
      SameTokens(SavedEntries(l), l.inv.entries);
    }
    hide Tokens, Sound;
  }
}
