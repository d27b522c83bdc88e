/** The approval stores as an object: every call is one transaction over the record table, which
    expires what it looks at first and rolls that back when it fails. A key without a caller is one
    of the plain store, a key with a caller one of the scoped store. */
module ApprovalStores {
  import opened Scopes
  import opened Versions
  import opened Approvals

  method FindNewest(ties: Ties, rows: Rows, among: set<Key>) returns (newest: Key)
    requires among != {} && among <= rows.Keys
    ensures IsNewest(ties, rows, among, newest)
  {
    newest :| newest in among;
    var others := among - {newest};
    StringOrder(ties(newest), ties(newest));
    while others != {}
      invariant others <= among && IsNewest(ties, rows, among - others, newest)
      decreases others
    {
      var k :| k in others;
      StringOrder(ties(newest), ties(k));
      StringOrder(ties(k), ties(k));
      if !Newer(ties, rows, newest, k) {
        forall l | l in among - others ensures Newer(ties, rows, k, l) {
          NewerChains(ties, rows, k, newest, l);
        }
        newest := k;
      }
      others := others - {k};
    }
    assert among - others == among;
  }

  method TakeNewest(ties: Ties, rows: Rows, all: set<Key>, limit: nat) returns (records: seq<Record>)
    requires Breaks(ties) && all <= rows.Keys
    ensures records == NewestFirst(ties, rows, all, limit)
  {
    hide Newer, IsNewest, Breaks;
    var left, room := all, limit;
    records := [];
    while room > 0 && left != {}
      invariant left <= all
      invariant NewestFirst(ties, rows, all, limit) == records + NewestFirst(ties, rows, left, room)
      decreases room
    {
      var k := FindNewest(ties, rows, left);
      OneNewest(ties, rows, left, k);
      records, left, room := records + [rows[k]], left - {k}, room - 1;
    }
    assert NewestFirst(ties, rows, left, room) == [];
  }

  class ApprovalStore {
    const ties: Ties
    var rows: Rows

    constructor (ties: Ties)
      ensures this.ties == ties && rows == map[]
    {
      this.ties := ties;
      rows := map[];
    }

    /** Marks what is due: one record, or all records of a caller. */
    method Expire(caller: Option<Caller>, only: Option<Key>, now: real) returns (staged: Rows)
      requires only.Some? ==> only.value.caller == caller
      ensures staged == if only.Some? then ExpireOne(rows, only.value, now) else ExpireFor(rows, caller, now)
    {
      staged := rows;
      var todo := rows.Keys;
      while todo != {}
        invariant todo <= rows.Keys == staged.Keys
        invariant forall k :: k in staged ==>
          staged[k] == if k !in todo && k.caller == caller &&
            (only.None? || k == only.value) then AsOf(rows[k], now) else rows[k]
        decreases todo
      {
        var k :| k in todo;
        var record := staged[k];
        if k.caller == caller && (only.None? || k == only.value) && Open(record) && record.expires <= now {
          staged := staged[k := record.(status := Expired)];
        }
        todo := todo - {k};
      }
    }

    method RequestApproval(k: Key, intent: Intent, ttl: real, now: real) returns (a: Answer)
      modifies this
      ensures (rows, a) == Lazy(ties, old(rows), Requesting(k, intent, ttl, now))
    {
      if OtherCaller(k, intent) {
        return Refused(Missing);
      }
      if ttl <= 0.0 || k.id == "" || now < 0.0 {
        return Refused(Invalid);
      }
      if k in rows {
        return Refused(Duplicate);
      }
      rows := rows[k := Record(k.id, intent, Pending, now, now + ttl, None, None)];
      var inserted := rows;
      a := GetApproval(k, now);
      assert rows == inserted;
    }

    method GetApproval(k: Key, now: real) returns (a: Answer)
      modifies this
      ensures (rows, a) == Lazy(ties, old(rows), Getting(k, now))
    {
      if now < 0.0 || (k.caller.Some? && k.id == "") {
        return Refused(Invalid);
      }
      rows := Expire(k.caller, Some(k), now);
      if k !in rows {
        return Refused(Missing);
      }
      a := One(rows[k]);
    }

    /** `ORDER BY created_at DESC, id DESC LIMIT`; no two rows tie. */
    method ListApprovals(caller: Option<Caller>, status: Option<Status>, limit: int, now: real) returns (a: Answer)
      requires Breaks(ties)
      modifies this
      ensures (rows, a) == Lazy(ties, old(rows), Listing(caller, status, limit, now))
    {
      if !(1 <= limit <= 500) || now < 0.0 {
        return Refused(Invalid);
      }
      rows := Expire(caller, None, now);
      var wanted := set k | k in rows && k.caller == caller && (status.None? || rows[k].status == status.value);
      assert wanted == Wanted(rows, caller, status);
      var records := TakeNewest(ties, rows, wanted, limit);
      a := Many(records);
    }

    method DecideApproval(k: Key, approve: bool, decider: string, now: real) returns (a: Answer)
      modifies this
      ensures (rows, a) == Lazy(ties, old(rows), Deciding(k, approve, decider, now))
    {
      if decider == "" || now < 0.0 || (k.caller.Some? && k.id == "") {
        return Refused(Invalid);
      }
      var staged := Expire(k.caller, Some(k), now);
      if k !in staged {
        return Refused(Missing);
      }
      if staged[k].status != Pending {
        return Refused(DecideFault(k, staged[k].status));
      }
      staged := staged[k := staged[k].(status := if approve then
        Approved else Denied, decided := Some((now, decider)))];
      rows := staged;
      assert rows == old(rows)[k := Decided(AsOf(old(rows)[k], now), approve, decider, now)];
      a := One(rows[k]);
    }

    method ConsumeApproval(k: Key, intent: Intent, now: real) returns (a: Answer)
      modifies this
      ensures (rows, a) == Lazy(ties, old(rows), Consuming(k, intent, now))
    {
      if OtherCaller(k, intent) {
        return Refused(Missing);
      }
      if now < 0.0 || (k.caller.Some? && k.id == "") {
        return Refused(Invalid);
      }
      var staged := Expire(k.caller, Some(k), now);
      if k !in staged {
        return Refused(Missing);
      }
      var record := staged[k];
      if record.intent != intent {
        return Refused(OtherIntent);
      }
      if record.status != Approved {
        return Refused(ConsumeFault(record.status));
      }
      staged := staged[k := record.(status := Consumed, consumed := Some(now))];
      rows := staged;
      assert rows == old(rows)[k := Spent(AsOf(old(rows)[k], now), now)];
      a := One(rows[k]);
    }
  }
}
