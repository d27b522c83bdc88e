/** What each call on the approval records does, told by the records before and after: when it
    succeeds, what it writes, and that it leaves everything else alone; and what follows for the life
    of a record, with any clock. */
module ApprovalEffects {
  import opened Scopes
  import opened Versions
  import opened Approvals

  // ----- single calls -----

  /** Every record but that of `k` is as it was, and no other appeared. */
  predicate OthersStay(rows: Rows, rows': Rows, k: Key) {
    rows'.Keys == rows.Keys + {k} && forall l :: l in rows && l != k ==> rows'[l] == rows[l]
  }

  /** A request is taken exactly when it has a lifetime, a name that is free, and the caller's own
      intent; it is then open from now until its lifetime is over. */
  lemma {:induction false} RequestExactly(ties: Ties, rows: Rows, k: Key, intent: Intent, ttl: real, now: real)
    ensures var (rows', a) := Lazy(ties, rows, Requesting(k, intent, ttl, now));
      && (a.One? <==> now >= 0.0 && ttl > 0.0 && k.id != "" && k !in rows
                      && (k.caller == None || k.caller == Some(intent.caller)))
      && (a.One? ==>
            && OthersStay(rows, rows', k) && rows'[k] == a.record
            && a.record.status == Pending && a.record.id == k.id && a.record.intent == intent
            && a.record.created == now && a.record.expires == now + ttl
            && a.record.decided == None && a.record.consumed == None)
      && (!a.One? ==> rows' == rows && a.Refused?)
      && (a == Refused(Missing) <==> k.caller.Some? && k.caller.value != intent.caller)
      && (a == Refused(Duplicate) <==>
            && now >= 0.0 && ttl > 0.0 && k.id != "" && k in rows
            && (k.caller == None || k.caller == Some(intent.caller)))
      && (a.Refused? ==> a.fault in {Missing, Duplicate, Invalid})
  {
  }

  /** The record still waits for a decision, or for its use, and its deadline is ahead. */
  predicate Waits(rows: Rows, k: Key, now: real) {
    k in rows && rows[k].status == Pending && now < rows[k].expires
  }

  predicate Usable(rows: Rows, k: Key, now: real) {
    k in rows && rows[k].status == Approved && now < rows[k].expires
  }

  /** Only the decision was written. */
  predicate OnlyDecided(r: Record, r': Record) {
    r'.id == r.id && r'.intent == r.intent && r'.created == r.created && r'.expires == r.expires
    && r'.consumed == r.consumed
  }

  predicate OnlyConsumed(r: Record, r': Record) {
    r'.id == r.id && r'.intent == r.intent && r'.created == r.created && r'.expires == r.expires
    && r'.decided == r.decided
  }

  /** A decision is taken exactly while the request waits; it is then approved or denied, as was said,
      by whom and when. */
  lemma {:induction false} DecideExactly(ties: Ties, rows: Rows, k: Key, approve: bool, decider: string, now: real)
    ensures var (rows', a) := Lazy(ties, rows, Deciding(k, approve, decider, now));
      && (a.One? <==> decider != "" && now >= 0.0 && (k.caller.Some? ==> k.id != "") && Waits(rows, k, now))
      && (a.One? ==>
            && OthersStay(rows, rows', k) && rows'[k] == a.record && OnlyDecided(rows[k], a.record)
            && (approve ==> a.record.status == Approved) && (!approve ==> a.record.status == Denied)
            && a.record.decided == Some((now, decider)))
      && (!a.One? ==> rows' == rows && a.Refused?)
  {
  }

  /** An approval is used exactly while it is usable, for the very intent that was asked for. */
  lemma {:induction false} ConsumeExactly(ties: Ties, rows: Rows, k: Key, intent: Intent, now: real)
    ensures var (rows', a) := Lazy(ties, rows, Consuming(k, intent, now));
      && (a.One? <==> now >= 0.0 && (k.caller.Some? ==> k.id != "" && k.caller.value == intent.caller)
                      && Usable(rows, k, now) && rows[k].intent == intent)
      && (a.One? ==>
            && OthersStay(rows, rows', k) && rows'[k] == a.record && OnlyConsumed(rows[k], a.record)
            && a.record.status == Consumed && a.record.consumed == Some(now))
      && (!a.One? ==> rows' == rows && a.Refused?)
  {
  }

  /** Which refusal a decision or a consumption of a known record gets, by the state of the record. */
  lemma {:induction false} RefusalsExactly(ties: Ties, rows: Rows, k: Key, approve: bool, decider: string, now: real)
    requires k in rows && k.id != "" && now >= 0.0 && decider != ""
    requires k.caller.Some? ==> k.caller.value == rows[k].intent.caller
    ensures var r, due := rows[k], rows[k].status == Expired || (Open(rows[k]) && rows[k].expires <= now);
            var decided := Lazy(ties, rows, Deciding(k, approve, decider, now)).1;
            var consumed := Lazy(ties, rows, Consuming(k, rows[k].intent, now)).1;
      && (decided == Refused(TooLate) <==> due && k.caller.None?)
      && (decided == Refused(NotPending) <==>
            (due && k.caller.Some?) || (!due && (r.status == Approved || r.status == Denied || r.status == Consumed)))
      && (consumed == Refused(TooLate) <==> due)
      && (consumed == Refused(AlreadyConsumed) <==> r.status == Consumed)
      && (consumed == Refused(NotApproved) <==> !due && (r.status == Pending || r.status == Denied))
  {
  }

  /** Another intent is told apart from everything else, whatever the state of the record. */
  lemma {:induction false} OtherIntentExactly(ties: Ties, rows: Rows, k: Key, intent: Intent, now: real)
    ensures Lazy(ties, rows, Consuming(k, intent, now)).1 == Refused(OtherIntent) <==>
            && k in rows && rows[k].intent != intent && now >= 0.0
            && (k.caller.Some? ==> k.id != "" && k.caller.value == intent.caller)
  {
  }

  /** A record is shown as it is stored, except that an open one whose deadline has come is expired,
      and remains so. */
  lemma {:induction false} GetExactly(ties: Ties, rows: Rows, k: Key, now: real)
    requires now >= 0.0 && (k.caller.Some? ==> k.id != "")
    ensures var (rows', a) := Lazy(ties, rows, Getting(k, now));
      && (k !in rows ==> a == Refused(Missing) && rows' == rows)
      && (k in rows ==>
            && a.One? && OthersStay(rows, rows', k) && rows'[k] == a.record
            && (if (rows[k].status == Pending || rows[k].status == Approved) && now >= rows[k].expires
                then a.record == rows[k].(status := Expired) else a.record == rows[k]))
  {
  }

  // ----- listing -----

  /** The keys of the records listed, in their order. */
  ghost function KeysListed(ties: Ties, rows: Rows, among: set<Key>, limit: nat): seq<Key>
    requires among <= rows.Keys
    decreases limit
  {
    if limit == 0 || among == {} then []
    else
      var k := Newest(ties, rows, among);
      [k] + KeysListed(ties, rows, among - {k}, limit - 1)
  }

  /** The record of `k` is to be listed before that of `l`: it is newer, or as new with a greater name. */
  predicate ListedFirst(ties: Ties, rows: Rows, k: Key, l: Key)
    requires k in rows && l in rows
  {
    rows[k].created > rows[l].created || (rows[k].created == rows[l].created && StringLeq(ties(l), ties(k)))
  }

  /** The newest first, each once. */
  predicate InOrder(ties: Ties, rows: Rows, keys: seq<Key>)
    requires forall k :: k in keys ==> k in rows
  {
    forall i, j :: 0 <= i < j < |keys| ==> keys[i] != keys[j] && ListedFirst(ties, rows, keys[i], keys[j])
  }

  /** Left out is only what is not newer than anything listed, and only for want of room. */
  ghost predicate LeftOut(ties: Ties, rows: Rows, among: set<Key>, limit: nat, keys: seq<Key>)
    requires among <= rows.Keys && forall k :: k in keys ==> k in rows
  {
    forall k :: k in among && k !in keys ==>
      |keys| == limit && forall i :: 0 <= i < |keys| ==> ListedFirst(ties, rows, keys[i], k)
  }

  ghost predicate IsListing(ties: Ties, rows: Rows, among: set<Key>, limit: nat, keys: seq<Key>,
                            records: seq<Record>)
    requires among <= rows.Keys
  {
    && |keys| == |records| <= limit
    && (forall i :: 0 <= i < |keys| ==> keys[i] in among && records[i] == rows[keys[i]])
    && InOrder(ties, rows, keys) && LeftOut(ties, rows, among, limit, keys)
  }

  lemma {:induction false} NewestFirstIsListing(ties: Ties, rows: Rows, among: set<Key>, limit: nat)
    requires among <= rows.Keys
    ensures IsListing(ties, rows, among, limit, KeysListed(ties, rows, among, limit),
                      NewestFirst(ties, rows, among, limit))
    decreases limit
  {
    hide ListedFirst, InOrder, LeftOut;
    if limit > 0 && among != {} {
      var first := Newest(ties, rows, among);
      var keys := KeysListed(ties, rows, among - {first}, limit - 1);
      NewestFirstIsListing(ties, rows, among - {first}, limit - 1);
      assert forall k :: k in keys ==> k in among - {first};
      NewestIsListedFirst(ties, rows, among, first);
      FirstInOrder(ties, rows, first, keys);
      FirstNotLeftOut(ties, rows, among, limit, first, keys);
    } else {
      NothingListed(ties, rows, among, limit);
    }
  }

  lemma NothingListed(ties: Ties, rows: Rows, among: set<Key>, limit: nat)
    requires among <= rows.Keys && (limit == 0 || among == {})
    ensures InOrder(ties, rows, []) && LeftOut(ties, rows, among, limit, [])
  {
  }

  lemma NewestIsListedFirst(ties: Ties, rows: Rows, among: set<Key>, first: Key)
    requires among <= rows.Keys && IsNewest(ties, rows, among, first)
    ensures forall k :: k in among ==> ListedFirst(ties, rows, first, k)
  {
    forall k | k in among ensures ListedFirst(ties, rows, first, k) {
      assert Newer(ties, rows, first, k);
    }
  }

  lemma {:induction false} FirstInOrder(ties: Ties, rows: Rows, first: Key, keys: seq<Key>)
    requires first in rows && first !in keys && forall k :: k in keys ==> k in rows
    requires forall k :: k in keys ==> ListedFirst(ties, rows, first, k)
    requires InOrder(ties, rows, keys)
    ensures InOrder(ties, rows, [first] + keys)
  {
    hide ListedFirst;
    var all := [first] + keys;
    forall i, j | 0 <= i < j < |all| ensures all[i] != all[j] && ListedFirst(ties, rows, all[i], all[j]) {
      assert all[j] == keys[j - 1] && keys[j - 1] in keys;
    }
  }

  lemma {:induction false} FirstNotLeftOut(ties: Ties, rows: Rows, among: set<Key>, limit: nat, first: Key,
                                           keys: seq<Key>)
    requires limit > 0 && among <= rows.Keys && first in among && forall k :: k in keys ==> k in rows
    requires forall k :: k in among ==> ListedFirst(ties, rows, first, k)
    requires LeftOut(ties, rows, among - {first}, limit - 1, keys)
    ensures LeftOut(ties, rows, among, limit, [first] + keys)
  {
    hide ListedFirst;
    var all := [first] + keys;
    forall k | k in among && k !in all
      ensures |all| == limit && forall i :: 0 <= i < |all| ==> ListedFirst(ties, rows, all[i], k)
    {
      assert k != all[0] && forall i :: 0 <= i < |keys| ==> keys[i] == all[i + 1];
      assert k in among - {first} && k !in keys;
    }
  }

  /** A listing shows the caller's records in the state asked for, as they are now, newest first, and
      marks what is due of the caller's and of nobody else's. */
  lemma {:induction false} ListExactly(ties: Ties, rows: Rows, caller: Option<Caller>, status: Option<Status>,
                                       limit: int, now: real)
    ensures var (rows', a) := Lazy(ties, rows, Listing(caller, status, limit, now));
      && (a.Many? <==> 1 <= limit <= 500 && now >= 0.0)
      && (!a.Many? ==> a == Refused(Invalid) && rows' == rows)
      && (a.Many? ==>
            && rows'.Keys == rows.Keys
            && (forall k :: k in rows ==>
                  rows'[k] == if k.caller == caller && Open(rows[k]) && rows[k].expires <= now
                              then rows[k].(status := Expired) else rows[k])
            && var among := set k | k in rows' && k.caller == caller
                                    && (status.None? || rows'[k].status == status.value);
               exists keys :: IsListing(ties, rows', among, limit, keys, a.records))
  {
    if 1 <= limit <= 500 && now >= 0.0 {
      var seen := ExpireFor(rows, caller, now);
      var wanted := Wanted(seen, caller, status);
      assert wanted == set k | k in seen && k.caller == caller && (status.None? || seen[k].status == status.value);
      NewestFirstIsListing(ties, seen, wanted, limit);
      hide IsListing, NewestFirst, KeysListed;
    }
  }

  // ----- the life of a record -----

  predicate Final(status: Status) {
    status == Denied || status == Consumed || status == Expired
  }

  /** What may become of a record in one call. */
  predicate MovesOn(r: Record, r': Record) {
    && r'.id == r.id && r'.intent == r.intent && r'.created == r.created && r'.expires == r.expires
    && (Final(r.status) ==> r' == r)
    && (r.status == Pending ==> r'.status != Consumed)
    && (r.status == Approved ==> r'.status == Approved || r'.status == Consumed || r'.status == Expired)
  }

  /** No call takes a record away, changes what was asked for, or reopens what is closed. */
  lemma {:induction false} CallMovesOn(ties: Ties, rows: Rows, call: Call, k: Key)
    requires k in rows
    ensures k in Lazy(ties, rows, call).0 && MovesOn(rows[k], Lazy(ties, rows, call).0[k])
  {
    hide NewestFirst, Wanted;
  }

  predicate Denies(call: Call, k: Key) {
    call.Deciding? && call.key == k && !call.approve
  }

  predicate Decides(call: Call, k: Key) {
    call.Deciding? && call.key == k
  }

  /** What is denied, consumed or expired stays exactly as it is, through every run with any clock. */
  lemma {:induction false} ClosedForGood(ties: Ties, rows: Rows, calls: seq<Call>, k: Key, from: nat)
    requires from <= |calls| && k in After(ties, rows, calls[..from])
    requires Final(After(ties, rows, calls[..from])[k].status)
    ensures k in After(ties, rows, calls) && After(ties, rows, calls)[k] == After(ties, rows, calls[..from])[k]
    decreases |calls|
  {
    hide Lazy;
    if from == |calls| {
      assert calls[..from] == calls;
    } else {
      assert calls[..|calls| - 1][..from] == calls[..from];
      ClosedForGood(ties, rows, calls[..|calls| - 1], k, from);
      CallMovesOn(ties, After(ties, rows, calls[..|calls| - 1]), calls[|calls| - 1], k);
    }
  }

  /** A request that was once denied, or otherwise closed, is neither decided nor used afterwards. */
  lemma {:induction false} ClosedIsRefused(ties: Ties, rows: Rows, calls: seq<Call>, k: Key, from: nat, j: nat)
    requires from <= j < |calls| && k in After(ties, rows, calls[..from])
    requires Final(After(ties, rows, calls[..from])[k].status)
    requires Decides(calls[j], k) || Consumes(calls[j], k)
    ensures !Succeeds(ties, After(ties, rows, calls[..j]), calls[j])
  {
    assert calls[..j][..from] == calls[..from];
    ClosedForGood(ties, rows, calls[..j], k, from);
    var before := After(ties, rows, calls[..j]);
    match calls[j] {
      case Deciding(_, approve, decider, now) => DecideExactly(ties, before, k, approve, decider, now);
      case Consuming(_, intent, now) => ConsumeExactly(ties, before, k, intent, now);
      case _ =>
    }
    hide Lazy, After;
  }

  /** The step that made `status` true of the record, or there was none. */
  lemma {:induction false} OneCallCloses(ties: Ties, rows: Rows, call: Call, k: Key)
    ensures var rows' := Lazy(ties, rows, call).0;
      && (k in rows' && rows'[k].status == Denied <==>
            (k in rows && rows[k].status == Denied) || (Denies(call, k) && Succeeds(ties, rows, call)))
      && (k in rows' && rows'[k].status == Consumed <==>
            (k in rows && rows[k].status == Consumed) || (Consumes(call, k) && Succeeds(ties, rows, call)))
      && (k in rows' && rows'[k].decided.Some? <==>
            (k in rows && rows[k].decided.Some?) || (Decides(call, k) && Succeeds(ties, rows, call)))
  {
    hide NewestFirst, Wanted;
  }

  ghost predicate DeniedBefore(ties: Ties, calls: seq<Call>, k: Key) {
    exists i :: 0 <= i < |calls| && Denies(calls[i], k) && Succeeds(ties, After(ties, map[], calls[..i]), calls[i])
  }

  ghost predicate ConsumedBefore(ties: Ties, calls: seq<Call>, k: Key) {
    exists i :: 0 <= i < |calls| && Consumes(calls[i], k) && Succeeds(ties, After(ties, map[], calls[..i]), calls[i])
  }

  ghost predicate DecidedBefore(ties: Ties, calls: seq<Call>, k: Key) {
    exists i :: 0 <= i < |calls| && Decides(calls[i], k) && Succeeds(ties, After(ties, map[], calls[..i]), calls[i])
  }

  /** In every run a record reads denied, consumed, or decided exactly when a call succeeded in
      denying, consuming, or deciding it. */
  lemma {:induction false} RecordsTellHistory(ties: Ties, calls: seq<Call>, k: Key)
    ensures var rows := After(ties, map[], calls);
      && (k in rows && rows[k].status == Denied <==> DeniedBefore(ties, calls, k))
      && (k in rows && rows[k].status == Consumed <==> ConsumedBefore(ties, calls, k))
      && (k in rows && rows[k].decided.Some? <==> DecidedBefore(ties, calls, k))
    decreases |calls|
  {
    hide Lazy;
    if |calls| > 0 {
      var init := calls[..|calls| - 1];
      RecordsTellHistory(ties, init, k);
      OneCallCloses(ties, After(ties, map[], init), calls[|calls| - 1], k);
      assert forall i :: 0 <= i < |init| ==> init[i] == calls[i] && init[..i] == calls[..i];
      hide After, Succeeds;
    }
  }

  /** No request is decided twice, whatever was said first and whatever the clock does. */
  lemma {:induction false} DecidedOnce(ties: Ties, calls: seq<Call>, i: nat, j: nat, k: Key)
    requires i < j < |calls| && Decides(calls[i], k) && Decides(calls[j], k)
    requires Succeeds(ties, After(ties, map[], calls[..i]), calls[i])
    ensures !Succeeds(ties, After(ties, map[], calls[..j]), calls[j])
  {
    hide Lazy;
    assert calls[..j][..i] == calls[..i] && calls[..j][i] == calls[i];
    RecordsTellHistory(ties, calls[..j], k);
    assert DecidedBefore(ties, calls[..j], k);
    var rows := After(ties, map[], calls[..j]);
    if Waits(rows, k, calls[j].now) {
      PendingIsUndecided(ties, calls[..j], k);
    }
    DecideExactly(ties, rows, k, calls[j].approve, calls[j].decider, calls[j].now);
  }

  /** A record without a decision is what waits. */
  lemma {:induction false} PendingIsUndecided(ties: Ties, calls: seq<Call>, k: Key)
    requires k in After(ties, map[], calls) && After(ties, map[], calls)[k].status == Pending
    ensures After(ties, map[], calls)[k].decided.None?
    decreases |calls|
  {
    hide Lazy;
    if |calls| > 0 {
      var init := calls[..|calls| - 1];
      StillPending(ties, After(ties, map[], init), calls[|calls| - 1], k);
      if k in After(ties, map[], init) {
        PendingIsUndecided(ties, init, k);
      }
    }
  }

  lemma {:induction false} StillPending(ties: Ties, rows: Rows, call: Call, k: Key)
    requires k in Lazy(ties, rows, call).0 && Lazy(ties, rows, call).0[k].status == Pending
    ensures k in rows ==> rows[k] == Lazy(ties, rows, call).0[k]
    ensures k !in rows ==> Lazy(ties, rows, call).0[k].decided.None?
  {
    hide NewestFirst, Wanted;
  }

  /** A record is marked as expired only by a call that shows it, at or after its deadline; a refused
      decision or consumption leaves no mark. */
  lemma {:induction false} MarkedWhenShown(ties: Ties, rows: Rows, call: Call, k: Key)
    requires k in rows && rows[k].status != Expired
    ensures Lazy(ties, rows, call).0[k].status == Expired <==>
            && Open(rows[k]) && 0.0 <= call.now && rows[k].expires <= call.now
            && ((call.Getting? && call.key == k && (k.caller.Some? ==> k.id != ""))
                || (call.Listing? && call.caller == k.caller && 1 <= call.limit <= 500))
  {
    hide NewestFirst, Wanted;
  }
}
