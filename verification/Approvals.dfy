/** Approvals that expire: the stores mark a record as expired only when a call happens to look at
    it, and lose the mark again when that call fails. */
module Approvals {
  import opened Scopes
  import opened Versions
  import opened Orders

  datatype Caller = Caller(tenant: string, principal: string, session: string, task: string)

  /** Two intents are the same when their fingerprints are; those are taken to be injective. */
  datatype Intent = Intent(
    revision: string,
    operation: string,
    argumentsDigest: string,
    caller: Caller,
    sideEffect: string,
    policyRevision: string)

  datatype Status = Pending | Approved | Denied | Consumed | Expired
  datatype Record = Record(
    id: string,
    intent: Intent,
    status: Status,
    created: real,
    expires: real,
    decided: Option<(real, string)>,
    consumed: Option<real>)

  /** The plain store has no callers in its keys; the scoped store has one in each. */
  datatype Key = Key(caller: Option<Caller>, id: string)
  type Rows = map<Key, Record>

  datatype Fault =
    | Invalid
    | Duplicate
    | Missing
    | TooLate
    | NotPending
    | OtherIntent
    | AlreadyConsumed
    | NotApproved

  datatype Answer = One(record: Record) | Many(records: seq<Record>) | Refused(fault: Fault)

  datatype Call =
    | Requesting(key: Key, intent: Intent, ttl: real, now: real)
    | Getting(key: Key, now: real)
    | Listing(caller: Option<Caller>, status: Option<Status>, limit: int, now: real)
    | Deciding(key: Key, approve: bool, decider: string, now: real)
    | Consuming(key: Key, intent: Intent, now: real)

  // ----- expiry -----

  predicate Open(r: Record) {
    r.status == Pending || r.status == Approved
  }

  /** The record as it is at `now`. */
  function AsOf(r: Record, now: real): Record {
    if Open(r) && r.expires <= now then r.(status := Expired) else r
  }

  function AllAt(rows: Rows, now: real): Rows {
    map k | k in rows :: AsOf(rows[k], now)
  }

  function ExpireOne(rows: Rows, k: Key, now: real): Rows {
    if k in rows then rows[k := AsOf(rows[k], now)] else rows
  }

  function ExpireFor(rows: Rows, caller: Option<Caller>, now: real): Rows {
    map k | k in rows :: if k.caller == caller then AsOf(rows[k], now) else rows[k]
  }

  // ----- what a call does to rows that are up to date -----

  predicate OtherCaller(k: Key, intent: Intent) {
    k.caller.Some? && k.caller.value != intent.caller
  }

  function Request(rows: Rows, k: Key, intent: Intent, ttl: real, now: real): (r: (Rows, Answer)) {
    if OtherCaller(k, intent) then (rows, Refused(Missing))
    else if ttl <= 0.0 || k.id == "" || now < 0.0 then (rows, Refused(Invalid))
    else if k in rows then (rows, Refused(Duplicate))
    else
      var record := Record(k.id, intent, Pending, now, now + ttl, None, None);
      (rows[k := record], One(record))
  }

  /** The plain store tells an expired request apart, the scoped one only says it is not pending. */
  function DecideFault(k: Key, status: Status): Fault {
    if status == Expired && k.caller.None? then TooLate else NotPending
  }

  function Decided(r: Record, approve: bool, decider: string, now: real): Record {
    r.(status := if approve then Approved else Denied, decided := Some((now, decider)))
  }

  function ConsumeFault(status: Status): Fault {
    match status case Expired => TooLate case Consumed => AlreadyConsumed case _ => NotApproved
  }

  function Spent(r: Record, now: real): Record {
    r.(status := Consumed, consumed := Some(now))
  }

  // ----- listing, newest first -----

  /** How the store breaks ties between records of the same time. */
  type Ties = Key -> string

  predicate Newer(ties: Ties, rows: Rows, a: Key, b: Key)
    requires a in rows && b in rows
  {
    rows[a].created > rows[b].created || (rows[a].created == rows[b].created && StringLeq(ties(b), ties(a)))
  }

  predicate IsNewest(ties: Ties, rows: Rows, among: set<Key>, k: Key)
    requires among <= rows.Keys
  {
    k in among && forall l :: l in among ==> Newer(ties, rows, k, l)
  }

  lemma {:induction false} NewestExists(ties: Ties, rows: Rows, among: set<Key>)
    requires among != {} && among <= rows.Keys
    ensures exists k :: IsNewest(ties, rows, among, k)
  {
    var leq := (a, b) => a in rows && b in rows && Newer(ties, rows, a, b);
    forall a, b | a in among && b in among ensures leq(a, b) || leq(b, a) {
      StringOrder(ties(a), ties(b));
    }
    forall a, b, c | a in among && b in among && c in among && leq(a, b) && leq(b, c) ensures leq(a, c) {
      NewerChains(ties, rows, a, b, c);
    }
    hide Newer;
    LeastExists(leq, among);
    var k :| IsLeast(leq, among, k);
    assert IsNewest(ties, rows, among, k) by {
      forall l | l in among ensures Newer(ties, rows, k, l) {
        assert leq(k, l);
      }
    }
  }

  lemma NewerChains(ties: Ties, rows: Rows, a: Key, b: Key, c: Key)
    requires a in rows && b in rows && c in rows && Newer(ties, rows, a, b) && Newer(ties, rows, b, c)
    ensures Newer(ties, rows, a, c)
  {
    if StringLeq(ties(c), ties(b)) && StringLeq(ties(b), ties(a)) {
      StringTransitive(ties(c), ties(b), ties(a));
    }
  }

  ghost function Newest(ties: Ties, rows: Rows, among: set<Key>): (k: Key)
    requires among != {} && among <= rows.Keys
    ensures IsNewest(ties, rows, among, k)
  {
    NewestExists(ties, rows, among);
    var k :| IsNewest(ties, rows, among, k);
    k
  }

  ghost function NewestFirst(ties: Ties, rows: Rows, among: set<Key>, limit: nat): seq<Record>
    requires among <= rows.Keys
    decreases limit
  {
    if limit == 0 || among == {} then []
    else
      var k := Newest(ties, rows, among);
      [rows[k]] + NewestFirst(ties, rows, among - {k}, limit - 1)
  }

  function Wanted(rows: Rows, caller: Option<Caller>, status: Option<Status>): set<Key> {
    set k | k in rows && k.caller == caller && (status.None? || rows[k].status == status.value)
  }

  // ----- the lazy store -----

  ghost function Lazy(ties: Ties, rows: Rows, call: Call): (r: (Rows, Answer)) {
    match call
    case Requesting(k, intent, ttl, now) => Request(rows, k, intent, ttl, now)
    case Getting(k, now) =>
      if now < 0.0 || (k.caller.Some? && k.id == "") then (rows, Refused(Invalid))
      else
        var seen := ExpireOne(rows, k, now);
        (seen, if k in seen then One(seen[k]) else Refused(Missing))
    case Listing(caller, status, limit, now) =>
      if !(1 <= limit <= 500) || now < 0.0 then (rows, Refused(Invalid))
      else
        var seen := ExpireFor(rows, caller, now);
        (seen, Many(NewestFirst(ties, seen, Wanted(seen, caller, status), limit)))
    case Deciding(k, approve, decider, now) =>
      if decider == "" || now < 0.0 || (k.caller.Some? && k.id == "") then (rows, Refused(Invalid))
      else if k !in rows then (rows, Refused(Missing))
      else
        var record := AsOf(rows[k], now);
        if record.status != Pending then (rows, Refused(DecideFault(k, record.status)))
        else (rows[k := Decided(record, approve, decider, now)], One(Decided(record, approve, decider, now)))
    case Consuming(k, intent, now) =>
      if OtherCaller(k, intent) then (rows, Refused(Missing))
      else if now < 0.0 || (k.caller.Some? && k.id == "") then (rows, Refused(Invalid))
      else if k !in rows then (rows, Refused(Missing))
      else
        var record := AsOf(rows[k], now);
        if record.intent != intent then (rows, Refused(OtherIntent))
        else if record.status != Approved then (rows, Refused(ConsumeFault(record.status)))
        else (rows[k := Spent(record, now)], One(Spent(record, now)))
  }

  // ----- a store in which records expire by themselves -----

  /** At every moment the rows are up to date; calls never have to expire anything. */
  ghost function Eager(ties: Ties, rows: Rows, call: Call): (r: (Rows, Answer)) {
    if call.now < 0.0 then (rows, Prompt(ties, rows, call).1) else Prompt(ties, AllAt(rows, call.now), call)
  }

  ghost function Prompt(ties: Ties, rows: Rows, call: Call): (r: (Rows, Answer)) {
    match call
    case Requesting(k, intent, ttl, now) => Request(rows, k, intent, ttl, now)
    case Getting(k, now) =>
      (rows, if now < 0.0 || (k.caller.Some? && k.id == "") then Refused(Invalid)
             else if k in rows then One(rows[k]) else Refused(Missing))
    case Listing(caller, status, limit, now) =>
      (rows, if !(1 <= limit <= 500) || now < 0.0 then Refused(Invalid)
             else Many(NewestFirst(ties, rows, Wanted(rows, caller, status), limit)))
    case Deciding(k, approve, decider, now) =>
      if decider == "" || now < 0.0 || (k.caller.Some? && k.id == "") then (rows, Refused(Invalid))
      else if k !in rows then (rows, Refused(Missing))
      else if rows[k].status != Pending then (rows, Refused(DecideFault(k, rows[k].status)))
      else (rows[k := Decided(rows[k], approve, decider, now)], One(Decided(rows[k], approve, decider, now)))
    case Consuming(k, intent, now) =>
      if OtherCaller(k, intent) then (rows, Refused(Missing))
      else if now < 0.0 || (k.caller.Some? && k.id == "") then (rows, Refused(Invalid))
      else if k !in rows then (rows, Refused(Missing))
      else if rows[k].intent != intent then (rows, Refused(OtherIntent))
      else if rows[k].status != Approved then (rows, Refused(ConsumeFault(rows[k].status)))
      else (rows[k := Spent(rows[k], now)], One(Spent(rows[k], now)))
  }

  // ----- they agree as long as the clock does not run backwards -----

  /** Both stores come to the same once everything due at `now` is marked. */
  ghost predicate AgreeAt(lazy: Rows, eager: Rows, now: real) {
    AllAt(lazy, now) == AllAt(eager, now)
  }

  lemma {:induction false} AgreeLater(lazy: Rows, eager: Rows, before: real, now: real)
    requires AgreeAt(lazy, eager, before) && before <= now
    ensures AgreeAt(lazy, eager, now)
    ensures AllAt(AllAt(eager, now), now) == AllAt(eager, now)
    ensures lazy.Keys == eager.Keys && forall k :: k in lazy ==> AsOf(lazy[k], now) == AsOf(eager[k], now)
  {
    assert lazy.Keys == AllAt(lazy, before).Keys;
    forall k | k in lazy ensures AsOf(lazy[k], now) == AsOf(eager[k], now) {
      assert AllAt(lazy, before)[k] == AllAt(eager, before)[k];
    }
  }

  /** No two keys tie: identifiers are unique, and their digests are taken to be. */
  ghost predicate Breaks(ties: Ties) {
    forall k, l :: ties(k) == ties(l) ==> k == l
  }

  lemma OneNewest(ties: Ties, rows: Rows, among: set<Key>, k: Key)
    requires Breaks(ties) && among <= rows.Keys && IsNewest(ties, rows, among, k)
    ensures Newest(ties, rows, among) == k
  {
    var l := Newest(ties, rows, among);
    assert Newer(ties, rows, k, l) && Newer(ties, rows, l, k);
    StringOrder(ties(k), ties(l));
    assert ties(k) == ties(l);
  }

  lemma {:induction false} SameList(ties: Ties, a: Rows, b: Rows, among: set<Key>, limit: nat)
    requires Breaks(ties) && among <= a.Keys && among <= b.Keys && forall k :: k in among ==> a[k] == b[k]
    ensures NewestFirst(ties, a, among, limit) == NewestFirst(ties, b, among, limit)
    decreases limit
  {
    if limit > 0 && among != {} {
      var k, l := Newest(ties, a, among), Newest(ties, b, among);
      assert Newer(ties, a, k, l) && Newer(ties, b, l, k);
      StringOrder(ties(k), ties(l));
      assert ties(k) == ties(l);
      SameList(ties, a, b, among - {k}, limit - 1);
    }
  }

  /** One call on a lazy and on an eager store: the same answer, and agreement from then on. */
  lemma {:induction false} CallsAgree(ties: Ties, lazy: Rows, eager: Rows, before: real, call: Call)
    requires Breaks(ties) && AgreeAt(lazy, eager, before) && (call.now >= 0.0 ==> before <= call.now)
    ensures Lazy(ties, lazy, call).1 == Eager(ties, eager, call).1
    ensures AgreeAt(Lazy(ties, lazy, call).0, Eager(ties, eager, call).0, if call.now >= 0.0 then call.now else before)
  {
    hide Lazy, Eager, AllAt, AsOf;
    if call.now >= 0.0 {
      AgreeLater(lazy, eager, before, call.now);
      assert UpToDate(lazy, eager, call.now);
      hide AgreeAt, UpToDate;
      match call {
        case Requesting(_, _, _, _) => RequestsAgree(ties, lazy, eager, call);
        case Getting(_, _) => GetsAgree(ties, lazy, eager, call);
        case Listing(_, _, _, _) => ListsAgree(ties, lazy, eager, call);
        case Deciding(_, _, _, _) => DecisionsAgree(ties, lazy, eager, call);
        case Consuming(_, _, _) => ConsumptionsAgree(ties, lazy, eager, call);
      }
      UpToDateAgree(Lazy(ties, lazy, call).0, Eager(ties, eager, call).0, call.now);
    } else {
      NoTimeBefore(ties, lazy, eager, call);
    }
  }

  lemma UpToDateAgree(lazy: Rows, eager: Rows, now: real)
    requires UpToDate(lazy, eager, now)
    ensures AgreeAt(lazy, eager, now)
  {
  }

  /** A negative time is refused, and alike. */
  lemma NoTimeBefore(ties: Ties, lazy: Rows, eager: Rows, call: Call)
    requires call.now < 0.0
    ensures Lazy(ties, lazy, call) == (lazy, Eager(ties, eager, call).1) && Eager(ties, eager, call).0 == eager
  {
    hide NewestFirst, Wanted, AsOf;
  }

  ghost predicate UpToDate(lazy: Rows, eager: Rows, now: real) {
    lazy.Keys == eager.Keys && (forall k :: k in lazy ==> AsOf(lazy[k], now) == AsOf(eager[k], now))
  }

  ghost predicate Agreeing(ties: Ties, lazy: Rows, eager: Rows, call: Call) {
    && Lazy(ties, lazy, call).1 == Eager(ties, eager, call).1
    && UpToDate(Lazy(ties, lazy, call).0, Eager(ties, eager, call).0, call.now)
  }

  lemma StaysUpToDate(lazy: Rows, eager: Rows, now: real)
    requires UpToDate(lazy, eager, now)
    ensures UpToDate(lazy, AllAt(eager, now), now)
  {
  }

  /** Writing the same record into both keeps them together. */
  lemma {:induction false} SameWrite(lazy: Rows, eager: Rows, k: Key, r: Record, now: real)
    requires UpToDate(lazy, eager, now)
    ensures UpToDate(lazy[k := r], AllAt(eager, now)[k := r], now)
    ensures UpToDate(lazy, AllAt(eager, now), now)
    ensures k in lazy ==> k in AllAt(eager, now) && AllAt(eager, now)[k] == AsOf(lazy[k], now)
  {
  }

  lemma {:induction false} RequestsAgree(ties: Ties, lazy: Rows, eager: Rows, call: Call)
    requires call.Requesting? && call.now >= 0.0 && UpToDate(lazy, eager, call.now)
    ensures Agreeing(ties, lazy, eager, call)
  {
    hide UpToDate;
    var record := Record(call.key.id, call.intent, Pending, call.now, call.now + call.ttl, None, None);
    SameWrite(lazy, eager, call.key, record, call.now);
    assert call.key in eager <==> call.key in AllAt(eager, call.now);
  }

  lemma {:induction false} GetsAgree(ties: Ties, lazy: Rows, eager: Rows, call: Call)
    requires call.Getting? && call.now >= 0.0 && UpToDate(lazy, eager, call.now)
    ensures Agreeing(ties, lazy, eager, call)
  {
    ExpiringKeeps(lazy, eager, call.key, call.now);
    hide UpToDate, AllAt, ExpireOne;
  }

  lemma ExpiringKeeps(lazy: Rows, eager: Rows, k: Key, now: real)
    requires UpToDate(lazy, eager, now)
    ensures UpToDate(ExpireOne(lazy, k, now), AllAt(eager, now), now)
    ensures k in ExpireOne(lazy, k, now) <==> k in AllAt(eager, now)
    ensures k in lazy ==> ExpireOne(lazy, k, now)[k] == AllAt(eager, now)[k]
  {
  }

  lemma {:induction false} ListsAgree(ties: Ties, lazy: Rows, eager: Rows, call: Call)
    requires Breaks(ties) && call.Listing? && call.now >= 0.0 && UpToDate(lazy, eager, call.now)
    ensures Agreeing(ties, lazy, eager, call)
  {
    hide NewestFirst, Breaks;
    if 1 <= call.limit <= 500 {
      var a, b := ExpireFor(lazy, call.caller, call.now), AllAt(eager, call.now);
      assert Wanted(a, call.caller, call.status) == Wanted(b, call.caller, call.status);
      SameList(ties, a, b, Wanted(a, call.caller, call.status), call.limit);
    }
    hide NewestFirst, Wanted, Breaks;
  }

  lemma {:induction false} DecisionsAgree(ties: Ties, lazy: Rows, eager: Rows, call: Call)
    requires call.Deciding? && call.now >= 0.0 && UpToDate(lazy, eager, call.now)
    ensures Agreeing(ties, lazy, eager, call)
  {
    var k := call.key;
    if k in lazy {
      SameWrite(lazy, eager, k, Decided(AsOf(lazy[k], call.now), call.approve, call.decider, call.now), call.now);
    } else {
      StaysUpToDate(lazy, eager, call.now);
      assert k !in AllAt(eager, call.now);
    }
    hide UpToDate, AllAt, At, Decided;
  }

  lemma {:induction false} ConsumptionsAgree(ties: Ties, lazy: Rows, eager: Rows, call: Call)
    requires call.Consuming? && call.now >= 0.0 && UpToDate(lazy, eager, call.now)
    ensures Agreeing(ties, lazy, eager, call)
  {
    var k := call.key;
    if k in lazy {
      SameWrite(lazy, eager, k, Spent(AsOf(lazy[k], call.now), call.now), call.now);
    } else {
      StaysUpToDate(lazy, eager, call.now);
      assert k !in AllAt(eager, call.now);
    }
    hide UpToDate, AllAt, At, Spent;
  }

  // ----- runs -----

  /** Calls with a negative time are refused and do not move the clock. */
  predicate ClockRises(before: real, calls: seq<Call>)
    decreases |calls|
  {
    |calls| > 0 ==>
      && (calls[0].now >= 0.0 ==> before <= calls[0].now)
      && ClockRises(if calls[0].now >= 0.0 then calls[0].now else before, calls[1..])
  }

  ghost function LazyAnswers(ties: Ties, rows: Rows, calls: seq<Call>): (answers: seq<Answer>)
    ensures |answers| == |calls|
    decreases |calls|
  {
    if |calls| == 0 then []
    else [Lazy(ties, rows, calls[0]).1] + LazyAnswers(ties, Lazy(ties, rows, calls[0]).0, calls[1..])
  }

  ghost function EagerAnswers(ties: Ties, rows: Rows, calls: seq<Call>): (answers: seq<Answer>)
    ensures |answers| == |calls|
    decreases |calls|
  {
    if |calls| == 0 then []
    else [Eager(ties, rows, calls[0]).1] + EagerAnswers(ties, Eager(ties, rows, calls[0]).0, calls[1..])
  }

  /** With a clock that never runs backwards, marking expiry late, and losing the mark when a call
      fails, cannot be told from records that expire at the instant of their deadline. */
  lemma {:induction false} LazyIsEager(ties: Ties, lazy: Rows, eager: Rows, before: real, calls: seq<Call>)
    requires Breaks(ties) && AgreeAt(lazy, eager, before) && ClockRises(before, calls)
    ensures LazyAnswers(ties, lazy, calls) == EagerAnswers(ties, eager, calls)
    decreases |calls|
  {
    if |calls| > 0 {
      CallsAgree(ties, lazy, eager, before, calls[0]);
      hide Lazy, Eager, AgreeAt, Breaks;
      LazyIsEager(ties, Lazy(ties, lazy, calls[0]).0, Eager(ties, eager, calls[0]).0,
                  if calls[0].now >= 0.0 then calls[0].now else before, calls[1..]);
    }
  }

  // ----- exactly when they disagree -----

  /** The record came due between `now` and an earlier call at `before`, and was never marked. */
  predicate Overtaken(r: Record, before: real, now: real) {
    Open(r) && now < r.expires <= before
  }

  /** An eager store is up to date at `before`, and the lazy one has the same records. */
  ghost predicate Caught(lazy: Rows, eager: Rows, before: real) {
    AgreeAt(lazy, eager, before) && eager == AllAt(eager, before)
  }

  lemma {:induction false} SeenBy(lazy: Rows, eager: Rows, before: real, now: real, k: Key)
    requires Caught(lazy, eager, before)
    ensures k in lazy <==> k in eager
    ensures k in lazy ==>
      AsOf(eager[k], now) == if Overtaken(lazy[k], before, now) then AsOf(lazy[k], before) else AsOf(lazy[k], now)
  {
    assert lazy.Keys == AllAt(lazy, before).Keys == eager.Keys;
    if k in lazy {
      assert AllAt(lazy, before)[k] == AllAt(eager, before)[k] == eager[k];
    }
  }

  /** With a clock set back, the two give the same answer about a record exactly when it is not one
      that came due in between and was never marked. */
  lemma {:induction false} ReadingsAgreeIff(ties: Ties, lazy: Rows, eager: Rows, before: real, k: Key, now: real)
    requires Caught(lazy, eager, before)
    ensures Lazy(ties, lazy, Getting(k, now)).1 == Eager(ties, eager, Getting(k, now)).1 <==>
            !(k in lazy && Overtaken(lazy[k], before, now) && now >= 0.0 && (k.caller.Some? ==> k.id != ""))
  {
    SeenBy(lazy, eager, before, now, k);
    hide AgreeAt, Caught;
  }

  /** Decisions disagree about such a record, except that the scoped store says of a request that was
      approved, and of one that came due, alike that it is not pending. */
  lemma {:induction false} DecisionsAgreeIff(ties: Ties, lazy: Rows, eager: Rows, before: real, k: Key,
                                             approve: bool, decider: string, now: real)
    requires Caught(lazy, eager, before)
    ensures var call := Deciding(k, approve, decider, now);
            Lazy(ties, lazy, call).1 == Eager(ties, eager, call).1 <==>
            !(k in lazy && Overtaken(lazy[k], before, now) && (lazy[k].status == Pending || k.caller.None?)
              && decider != "" && now >= 0.0 && (k.caller.Some? ==> k.id != ""))
  {
    SeenBy(lazy, eager, before, now, k);
    hide AgreeAt, Caught;
  }

  /** Consumptions disagree about such a record when they name its very intent: the lazy store spends
      it, or calls it not approved, where the eager one calls it too late. */
  lemma {:induction false} ConsumptionsAgreeIff(ties: Ties, lazy: Rows, eager: Rows, before: real, k: Key,
                                                intent: Intent, now: real)
    requires Caught(lazy, eager, before)
    ensures var call := Consuming(k, intent, now);
            Lazy(ties, lazy, call).1 == Eager(ties, eager, call).1 <==>
            !(k in lazy && Overtaken(lazy[k], before, now) && lazy[k].intent == intent && !OtherCaller(k, intent)
              && now >= 0.0 && (k.caller.Some? ==> k.id != ""))
  {
    SeenBy(lazy, eager, before, now, k);
    hide AgreeAt, Caught;
  }

  /** The keys of the records that a listing shows. */
  ghost function Shown(ties: Ties, rows: Rows, among: set<Key>, limit: nat): set<Key>
    requires among <= rows.Keys
    decreases limit
  {
    if limit == 0 || among == {} then {}
    else
      var k := Newest(ties, rows, among);
      {k} + Shown(ties, rows, among - {k}, limit - 1)
  }

  lemma {:induction false} ShownAre(ties: Ties, rows: Rows, among: set<Key>, limit: nat, k: Key)
    requires among <= rows.Keys && k in Shown(ties, rows, among, limit)
    ensures k in among && rows[k] in NewestFirst(ties, rows, among, limit)
    decreases limit
  {
    var first := Newest(ties, rows, among);
    if k != first {
      ShownAre(ties, rows, among - {first}, limit - 1, k);
    }
  }

  lemma {:induction false} NotListed(ties: Ties, rows: Rows, among: set<Key>, limit: nat, r: Record)
    requires among <= rows.Keys && forall k :: k in among ==> rows[k] != r
    ensures r !in NewestFirst(ties, rows, among, limit)
    decreases limit
  {
    if limit > 0 && among != {} {
      NotListed(ties, rows, among - {Newest(ties, rows, among)}, limit - 1, r);
    }
  }

  /** Two listings that show none of the records they disagree about are equal. */
  lemma {:induction false} SameShown(ties: Ties, a: Rows, b: Rows, ofA: set<Key>, ofB: set<Key>, limit: nat,
                                     apart: set<Key>)
    requires Breaks(ties) && ofA <= a.Keys && ofB <= b.Keys && a.Keys == b.Keys
    requires forall k :: k in ofA + ofB ==> a[k].created == b[k].created
    requires forall k :: k in ofA + ofB && k !in apart ==> a[k] == b[k] && k in ofA && k in ofB
    requires Shown(ties, a, ofA, limit) !! apart && Shown(ties, b, ofB, limit) !! apart
    ensures NewestFirst(ties, a, ofA, limit) == NewestFirst(ties, b, ofB, limit)
    decreases limit
  {
    if limit > 0 && (ofA != {} || ofB != {}) {
      var k := if ofA != {} then Newest(ties, a, ofA) else Newest(ties, b, ofB);
      assert k !in apart && k in ofA && k in ofB;
      var l := Newest(ties, b, ofB);
      assert l !in apart && l in ofA;
      assert Newer(ties, a, Newest(ties, a, ofA), l) && Newer(ties, b, l, Newest(ties, a, ofA));
      StringOrder(ties(Newest(ties, a, ofA)), ties(l));
      assert Newest(ties, a, ofA) == l;
      SameShown(ties, a, b, ofA - {l}, ofB - {l}, limit - 1, apart);
    }
  }

  /** Every record carries its own identifier. */
  predicate Named(rows: Rows) {
    forall k :: k in rows ==> rows[k].id == k.id
  }

  lemma {:induction false} CallKeepsNames(ties: Ties, rows: Rows, call: Call)
    requires Named(rows)
    ensures Named(Lazy(ties, rows, call).0)
  {
    hide NewestFirst, Wanted;
  }

  /** The keys a listing at `now` would show. */
  ghost function ShownAt(ties: Ties, seen: Rows, caller: Option<Caller>, status: Option<Status>, limit: int): set<Key> {
    if limit < 0 then {} else Shown(ties, seen, Wanted(seen, caller, status), limit)
  }

  ghost predicate ShowsOvertaken(lazy: Rows, shown: set<Key>, before: real, now: real) {
    exists k :: k in shown && k in lazy && Overtaken(lazy[k], before, now)
  }

  lemma {:induction false} SeenApart(lazy: Rows, eager: Rows, before: real, caller: Option<Caller>,
                                     status: Option<Status>, now: real)
    requires Caught(lazy, eager, before)
    ensures var a, b := ExpireFor(lazy, caller, now), AllAt(eager, now);
      && a.Keys == b.Keys == lazy.Keys
      && forall k :: k in Wanted(a, caller, status) + Wanted(b, caller, status) ==>
           && a[k].created == b[k].created
           && (!Overtaken(lazy[k], before, now) ==>
                 a[k] == b[k] && k in Wanted(a, caller, status) && k in Wanted(b, caller, status))
  {
    forall k ensures k in lazy <==> k in eager {
      SeenBy(lazy, eager, before, now, k);
    }
    var a, b := ExpireFor(lazy, caller, now), AllAt(eager, now);
    forall k | k in Wanted(a, caller, status) + Wanted(b, caller, status)
      ensures a[k].created == b[k].created && (!Overtaken(lazy[k], before, now) ==> a[k] == b[k])
    {
      SeenBy(lazy, eager, before, now, k);
    }
  }

  /** An eager store lists no open record that is due. */
  lemma {:induction false} OpenNotListed(ties: Ties, eager: Rows, before: real, now: real, among: set<Key>,
                                         limit: nat, r: Record)
    requires eager == AllAt(eager, before) && among <= AllAt(eager, now).Keys && Open(r) && r.expires <= before
    ensures r !in NewestFirst(ties, AllAt(eager, now), among, limit)
  {
    forall k | k in among ensures AllAt(eager, now)[k] != r {
      assert eager[k] == AsOf(eager[k], before);
    }
    NotListed(ties, AllAt(eager, now), among, limit, r);
  }

  /** A lazy store lists no expired form of a record it sees open. */
  lemma {:induction false} ExpiredNotListed(ties: Ties, a: Rows, among: set<Key>, limit: nat, k: Key, r: Record)
    requires Named(a) && among <= a.Keys && k in a && forall l :: l in among ==> l.caller == k.caller
    requires r.id == k.id && Open(a[k]) && !Open(r)
    ensures r !in NewestFirst(ties, a, among, limit)
  {
    forall l | l in among ensures a[l] != r {
      assert l.id == k.id ==> l == k;
    }
    NotListed(ties, a, among, limit, r);
  }

  /** Listings disagree when one of them shows such a record. */
  lemma {:induction false} ListingsAgreeIff(ties: Ties, lazy: Rows, eager: Rows, before: real,
                                            caller: Option<Caller>, status: Option<Status>, limit: int, now: real)
    requires Breaks(ties) && Caught(lazy, eager, before) && Named(lazy)
    ensures var call := Listing(caller, status, limit, now);
            Lazy(ties, lazy, call).1 == Eager(ties, eager, call).1 <==>
            !(1 <= limit <= 500 && now >= 0.0
              && (ShowsOvertaken(lazy, ShownAt(ties, ExpireFor(lazy, caller, now), caller, status, limit), before, now)
                  || ShowsOvertaken(lazy, ShownAt(ties, AllAt(eager, now), caller, status, limit), before, now)))
  {
    if 1 <= limit <= 500 && now >= 0.0 {
      var a, b := ExpireFor(lazy, caller, now), AllAt(eager, now);
      var ofA, ofB := Wanted(a, caller, status), Wanted(b, caller, status);
      if ShowsOvertaken(lazy, Shown(ties, a, ofA, limit), before, now) {
        LazyShowsMore(ties, lazy, eager, before, caller, status, limit, now);
      } else if ShowsOvertaken(lazy, Shown(ties, b, ofB, limit), before, now) {
        EagerShowsMore(ties, lazy, eager, before, caller, status, limit, now);
      } else {
        SeenApart(lazy, eager, before, caller, status, now);
        hide AllAt, ExpireFor, Caught, Wanted;
        SameShown(ties, a, b, ofA, ofB, limit, set k | k in lazy && Overtaken(lazy[k], before, now));
      }
    }
  }

  lemma {:induction false} LazyShowsMore(ties: Ties, lazy: Rows, eager: Rows, before: real,
                                         caller: Option<Caller>, status: Option<Status>, limit: nat, now: real)
    requires Caught(lazy, eager, before) && Named(lazy)
    requires var a := ExpireFor(lazy, caller, now);
             ShowsOvertaken(lazy, Shown(ties, a, Wanted(a, caller, status), limit), before, now)
    ensures var a, b := ExpireFor(lazy, caller, now), AllAt(eager, now);
            NewestFirst(ties, a, Wanted(a, caller, status), limit) !=
              NewestFirst(ties, b, Wanted(b, caller, status), limit)
  {
    var a, b := ExpireFor(lazy, caller, now), AllAt(eager, now);
    var k :| k in Shown(ties, a, Wanted(a, caller, status), limit) && k in lazy && Overtaken(lazy[k], before, now);
    ShownAre(ties, a, Wanted(a, caller, status), limit, k);
    StaleSeen(lazy, eager, before, caller, now, k);
    hide NewestFirst, Shown;
    OpenNotListed(ties, eager, before, now, Wanted(b, caller, status), limit, a[k]);
  }

  lemma {:induction false} EagerShowsMore(ties: Ties, lazy: Rows, eager: Rows, before: real,
                                          caller: Option<Caller>, status: Option<Status>, limit: nat, now: real)
    requires Caught(lazy, eager, before) && Named(lazy)
    requires var b := AllAt(eager, now);
             ShowsOvertaken(lazy, Shown(ties, b, Wanted(b, caller, status), limit), before, now)
    ensures var a, b := ExpireFor(lazy, caller, now), AllAt(eager, now);
            NewestFirst(ties, a, Wanted(a, caller, status), limit) !=
              NewestFirst(ties, b, Wanted(b, caller, status), limit)
  {
    var a, b := ExpireFor(lazy, caller, now), AllAt(eager, now);
    var k :| k in Shown(ties, b, Wanted(b, caller, status), limit) && k in lazy && Overtaken(lazy[k], before, now);
    ShownAre(ties, b, Wanted(b, caller, status), limit, k);
    StaleSeen(lazy, eager, before, caller, now, k);
    hide NewestFirst, Shown;
    ExpiredNotListed(ties, a, Wanted(a, caller, status), limit, k, b[k]);
  }

  /** The lazy store still sees the record open, the eager one has it expired. */
  lemma {:induction false} StaleSeen(lazy: Rows, eager: Rows, before: real, caller: Option<Caller>, now: real, k: Key)
    requires Caught(lazy, eager, before) && Named(lazy)
    requires k in lazy && k.caller == caller && Overtaken(lazy[k], before, now)
    ensures k in eager && eager == AllAt(eager, before)
    ensures Named(ExpireFor(lazy, caller, now)) && ExpireFor(lazy, caller, now)[k] == lazy[k]
    ensures AllAt(eager, now)[k] == lazy[k].(status := Expired)
  {
    SeenBy(lazy, eager, before, now, k);
  }

  /** A consumption refused as too late at 10 loses the mark; at 5 the lazy store then still spends
      the approval, the eager one does not. */
  lemma ClockSetBack(ties: Ties, k: Key, intent: Intent)
    requires k.caller.None? && k.id != ""
    ensures var calls := [Requesting(k, intent, 8.0, 0.0), Deciding(k, true, "approver", 1.0),
                          Consuming(k, intent, 10.0), Consuming(k, intent, 5.0)];
            && LazyAnswers(ties, map[], calls)[2] == Refused(TooLate)
            && LazyAnswers(ties, map[], calls)[3].One?
            && EagerAnswers(ties, map[], calls)[3] == Refused(TooLate)
  {
    var a, b, c, d := Requesting(k, intent, 8.0, 0.0), Deciding(k, true, "approver", 1.0), Consuming(k, intent, 10.0),
                      Consuming(k, intent, 5.0);
    var calls := [a, b, c, d];
    assert calls[1..] == [b, c, d] && [b, c, d][1..] == [c, d] && [c, d][1..] == [d] && [d][1..] == [];
    var l1 := Lazy(ties, map[], a).0;
    var l2 := Lazy(ties, l1, b).0;
    assert Lazy(ties, l2, c) == (l2, Refused(TooLate));
    assert Lazy(ties, l2, d).1.One?;
    var e1 := Eager(ties, map[], a).0;
    var e2 := Eager(ties, e1, b).0;
    var e3 := Eager(ties, e2, c).0;
    assert Eager(ties, e3, d).1 == Refused(TooLate);
    assert LazyAnswers(ties, map[], calls)[2] ==
      LazyAnswers(ties, l1, [b, c, d])[1] == LazyAnswers(ties, l2, [c, d])[0];
    assert LazyAnswers(ties, map[], calls)[3] == LazyAnswers(ties, l1, [b, c, d])[2] == LazyAnswers(ties, l2, [c, d])[1]
        == LazyAnswers(ties, l2, [d])[0];
    assert EagerAnswers(ties, map[], calls)[3] ==
      EagerAnswers(ties, e1, [b, c, d])[2] == EagerAnswers(ties, e2, [c, d])[1]
        == EagerAnswers(ties, e3, [d])[0];
  }

  // ----- single use, whatever the clock does -----

  ghost function After(ties: Ties, rows: Rows, calls: seq<Call>): Rows
    decreases |calls|
  {
    if |calls| == 0 then rows else Lazy(ties, After(ties, rows, calls[..|calls| - 1]), calls[|calls| - 1]).0
  }

  ghost predicate Succeeds(ties: Ties, rows: Rows, call: Call) {
    Lazy(ties, rows, call).1.One?
  }

  predicate Consumes(call: Call, k: Key) {
    call.Consuming? && call.key == k
  }

  /** A successful consumption found an approved record before its deadline with this very intent. */
  lemma {:induction false} ConsumedInTime(ties: Ties, rows: Rows, call: Call)
    requires call.Consuming? && Succeeds(ties, rows, call)
    ensures call.key in rows
    ensures var r := rows[call.key];
            && r.status == Approved && call.now < r.expires && r.intent == call.intent
            && Lazy(ties, rows, call).0 == rows[call.key := r.(status := Consumed, consumed := Some(call.now))]
  {
  }

  lemma {:induction false} SpentStays(ties: Ties, rows: Rows, call: Call, k: Key)
    requires k in rows && rows[k].status == Consumed
    ensures k in Lazy(ties, rows, call).0 && Lazy(ties, rows, call).0[k].status == Consumed
    ensures Consumes(call, k) ==> !Succeeds(ties, rows, call)
  {
  }

  lemma {:induction false} SpentForGood(ties: Ties, rows: Rows, calls: seq<Call>, k: Key, from: nat)
    requires from <= |calls| && k in After(ties, rows, calls[..from]) &&
      After(ties, rows, calls[..from])[k].status == Consumed
    ensures k in After(ties, rows, calls) && After(ties, rows, calls)[k].status == Consumed
    decreases |calls|
  {
    if from == |calls| {
      assert calls[..from] == calls;
    } else {
      assert calls[..|calls| - 1][..from] == calls[..from];
      SpentForGood(ties, rows, calls[..|calls| - 1], k, from);
      SpentStays(ties, After(ties, rows, calls[..|calls| - 1]), calls[|calls| - 1], k);
      hide Lazy;
    }
  }

  /** An approval is consumed at most once. */
  lemma {:induction false} ConsumedOnce(ties: Ties, rows: Rows, calls: seq<Call>, i: nat, j: nat, k: Key)
    requires i < j < |calls| && Consumes(calls[i], k) && Consumes(calls[j], k)
    requires Succeeds(ties, After(ties, rows, calls[..i]), calls[i])
    ensures !Succeeds(ties, After(ties, rows, calls[..j]), calls[j])
  {
    ConsumedInTime(ties, After(ties, rows, calls[..i]), calls[i]);
    assert calls[..i + 1][..i] == calls[..i] && calls[..j][..i + 1] == calls[..i + 1];
    SpentForGood(ties, rows, calls[..j], k, i + 1);
    SpentStays(ties, After(ties, rows, calls[..j]), calls[j], k);
    hide Lazy;
  }

  predicate Approves(call: Call, k: Key) {
    call.Deciding? && call.key == k && call.approve
  }

  ghost predicate ApprovedBefore(ties: Ties, calls: seq<Call>, k: Key) {
    exists i :: 0 <= i < |calls| && Approves(calls[i], k) && Succeeds(ties, After(ties, map[], calls[..i]), calls[i])
  }

  lemma {:induction false} OneCallApproves(ties: Ties, rows: Rows, call: Call, k: Key)
    requires k in Lazy(ties, rows, call).0 && Lazy(ties, rows, call).0[k].status == Approved
    ensures (k in rows && rows[k].status == Approved) || (Approves(call, k) && Succeeds(ties, rows, call))
  {
  }

  /** Whatever is approved was approved by a call. */
  lemma {:induction false} ApprovalHasACause(ties: Ties, calls: seq<Call>, k: Key)
    requires k in After(ties, map[], calls) && After(ties, map[], calls)[k].status == Approved
    ensures ApprovedBefore(ties, calls, k)
    decreases |calls|
  {
    if |calls| > 0 {
      var init := calls[..|calls| - 1];
      OneCallApproves(ties, After(ties, map[], init), calls[|calls| - 1], k);
      hide Lazy;
      if k in After(ties, map[], init) && After(ties, map[], init)[k].status == Approved {
        ApprovalHasACause(ties, init, k);
        var i :| 0 <= i < |init| && Approves(init[i], k) && Succeeds(ties, After(ties, map[], init[..i]), init[i]);
        assert init[..i] == calls[..i];
      }
    }
  }

  /** A consumption succeeds only after an approval of the same request, for the intent that was
      requested, and before the deadline; with any clock. */
  lemma {:induction false} ConsumedAfterApproval(ties: Ties, calls: seq<Call>, j: nat, k: Key)
    requires j < |calls| && Consumes(calls[j], k) && Succeeds(ties, After(ties, map[], calls[..j]), calls[j])
    ensures ApprovedBefore(ties, calls[..j], k)
    ensures k in After(ties, map[], calls[..j])
    ensures calls[j].intent == After(ties, map[], calls[..j])[k].intent &&
      calls[j].now < After(ties, map[], calls[..j])[k].expires
  {
    ConsumedInTime(ties, After(ties, map[], calls[..j]), calls[j]);
    hide Lazy;
    ApprovalHasACause(ties, calls[..j], k);
  }
}
