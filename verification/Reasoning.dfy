/** Choosing a reasoning tier: the in-memory router and the persisted recommender, two separately
    written versions of one bounded-escalation machine, and why nobody can tell them apart. */
module Reasoning {
  import opened Scopes
  import opened Json

  datatype Tier = Low | Medium | High
  datatype Risk = NoEffect | Reads | ReversibleWrite | Irreversible

  const TIERS: seq<Tier> := [Low, Medium, High]

  function Position(t: Tier): nat {
    match t case Low => 0 case Medium => 1 case High => 2
  }

  function TierName(t: Tier): string {
    match t case Low => "low" case Medium => "medium" case High => "high"
  }

  function RiskFloor(r: Risk): Tier {
    match r case NoEffect => Low case Reads => Low case ReversibleWrite => Medium case Irreversible => High
  }

  function Higher(a: Tier, b: Tier): Tier {
    if Position(a) >= Position(b) then a else b
  }

  /** Stand-ins for the digest of a JSON value and for the normalized form of a reason. */
  datatype Config = Config(
    policyRevision: string,
    maxEscalations: nat,
    maxEquivalent: nat,
    estimate: map<Tier, nat>,
    digest: Json -> string,
    reasonCode: string -> string)

  predicate Valid(cfg: Config) {
    cfg.policyRevision != "" && cfg.maxEquivalent > 0 && (forall t: Tier :: t in cfg.estimate)
  }

  /** A missing attempt or evidence signature is JSON null. */
  datatype Request = Request(
    task: string,
    eligible: Option<set<Tier>>,
    risk: Risk,
    policyMinimum: Tier,
    escalation: Option<string>,
    attempt: Json,
    evidence: Json)

  datatype TaskState = TaskState(tier: Option<Tier>, escalations: nat, attempts: map<(string, string), nat>)

  const FRESH: TaskState := TaskState(None, 0, map[])

  datatype Decision = Decision(tier: Tier, reasons: seq<string>, escalations: nat)

  // ----- the candidates -----

  function Ascending(eligible: set<Tier>): seq<Tier> {
    (if Low in eligible then [Low] else []) + (if Medium in eligible then [Medium] else [])
    + (if High in eligible then [High] else [])
  }

  function AtLeast(tiers: seq<Tier>, floor: Tier): seq<Tier> {
    if |tiers| == 0 then []
    else (if Position(tiers[0]) >= Position(floor) then [tiers[0]] else []) + AtLeast(tiers[1..], floor)
  }

  function Above(tiers: seq<Tier>, t: Tier): Option<Tier> {
    if |tiers| == 0 then None else if Position(tiers[0]) > Position(t) then Some(tiers[0]) else Above(tiers[1..], t)
  }

  function Floor(risk: Risk, policyMinimum: Tier): Tier {
    Higher(RiskFloor(risk), policyMinimum)
  }

  function Requested(eligible: Option<set<Tier>>): seq<Tier> {
    if eligible.None? then TIERS else Ascending(eligible.value)
  }

  function Affordable(cfg: Config, tiers: seq<Tier>, remaining: Option<nat>): seq<Tier>
    requires Valid(cfg)
  {
    if |tiers| == 0 then []
    else (if remaining.None? || cfg.estimate[tiers[0]] <= remaining.value then [tiers[0]] else [])
         + Affordable(cfg, tiers[1..], remaining)
  }

  // ----- the in-memory router -----

  function FloorReasons(risk: Risk, policyMinimum: Tier): seq<string> {
    (if RiskFloor(risk) != Low then ["risk_floor:" + TierName(RiskFloor(risk))] else [])
    + (if policyMinimum != Low then ["policy_floor:" + TierName(policyMinimum)] else [])
  }

  function PairOf(cfg: Config, attempt: Json, evidence: Json): (string, string) {
    (cfg.digest(attempt), cfg.digest(evidence))
  }

  function Occurrences(attempts: map<(string, string), nat>, pair: (string, string)): nat {
    if pair in attempts then attempts[pair] else 0
  }

  function Counted(cfg: Config, attempts: map<(string, string), nat>, attempt: Json, evidence: Json)
    : map<(string, string), nat>
  {
    if attempt == Null then attempts
    else attempts[PairOf(cfg, attempt, evidence) := Occurrences(attempts, PairOf(cfg, attempt, evidence)) + 1]
  }

  predicate Repeated(cfg: Config, attempts: map<(string, string), nat>, attempt: Json, evidence: Json) {
    attempt != Null && Occurrences(attempts, PairOf(cfg, attempt, evidence)) >= cfg.maxEquivalent
  }

  /** The tier to start from: the task's own if it is still a candidate, else the cheapest. */
  function Start(state: TaskState, candidates: seq<Tier>): Tier
    requires |candidates| > 0
  {
    var kept := if state.tier.Some? && state.tier.value in candidates then state.tier.value else candidates[0];
    if Position(kept) < Position(candidates[0]) then candidates[0] else kept
  }

  function Decide(cfg: Config, state: TaskState, candidates: seq<Tier>, r: Request): Decision
    requires |candidates| > 0
  {
    var start, floors := Start(state, candidates), FloorReasons(r.risk, r.policyMinimum);
    if Repeated(cfg, state.attempts, r.attempt, r.evidence) then
      Decision(start, floors + ["equivalent_attempt", "no_progress", "stop"], state.escalations)
    else if r.escalation.Some? then
      if state.escalations >= cfg.maxEscalations then
        Decision(start, floors + ["escalation_cap_reached", "stop"], state.escalations)
      else if Above(candidates, start).None? then
        Decision(start, floors + ["highest_eligible_tier", "stop"], state.escalations)
      else
        Decision(Above(candidates, start).value, floors + ["escalated:" + cfg.reasonCode(r.escalation.value)],
                 state.escalations + 1)
    else
      Decision(start, floors + [if start == candidates[0] then "cheapest_eligible" else "retained_escalated_tier"],
               state.escalations)
  }

  /** One routed call on one task; `None` when no tier reaches the floor. */
  function Routed(cfg: Config, state: TaskState, eligible: seq<Tier>, r: Request): Option<(TaskState, Decision)> {
    var candidates := AtLeast(eligible, Floor(r.risk, r.policyMinimum));
    if |candidates| == 0 then None
    else
      var d := Decide(cfg, state, candidates, r);
      Some((TaskState(Some(d.tier), d.escalations, Counted(cfg, state.attempts, r.attempt, r.evidence)), d))
  }

  // ----- recommendations -----

  datatype Recommendation = Recommendation(
    task: string,
    tier: Tier,
    reasons: seq<string>,
    estimate: nat,
    remaining: Option<nat>,
    headroom: Option<int>,
    escalations: nat,
    policyRevision: string,
    shouldStop: bool)

  datatype Outcome = Advice(recommendation: Recommendation) | EmptyTask | NoEligibleTier

  function Advise(cfg: Config, task: string, d: Decision, remaining: Option<nat>): Recommendation
    requires Valid(cfg)
  {
    Recommendation(task, d.tier, d.reasons, cfg.estimate[d.tier], remaining,
                   if remaining.None? then None else Some(remaining.value - cfg.estimate[d.tier]),
                   d.escalations, cfg.policyRevision, "stop" in d.reasons)
  }

  function OrNull(n: Option<int>): Json {
    if n.None? then Null else Number(n.value)
  }

  function Payload(rec: Recommendation): map<string, Json> {
    map["budget_headroom" := OrNull(rec.headroom), "budget_remaining" := OrNull(rec.remaining),
        "estimated_tokens" := Number(rec.estimate), "reason_codes" := Arr(Strings(rec.reasons)),
        "should_stop" := Bool(rec.shouldStop), "tier" := Str(TierName(rec.tier))]
  }

  /** What the in-memory version keeps: the router's tasks, and two dictionaries of its own. */
  datatype Memory = Memory(
    tasks: map<string, TaskState>,
    last: map<string, Recommendation>,
    counts: map<string, nat>)

  function StateOf(tasks: map<string, TaskState>, task: string): TaskState {
    if task in tasks then tasks[task] else FRESH
  }

  function RecommendMemory(cfg: Config, m: Memory, r: Request, remaining: Option<nat>): (o: (Memory, Outcome))
    requires Valid(cfg)
  {
    if r.task == "" then (m, EmptyTask)
    else
      match Routed(cfg, StateOf(m.tasks, r.task), Affordable(cfg, Requested(r.eligible), remaining), r)
      case None => (m, NoEligibleTier)
      case Some((state, decision)) =>
        var rec := Advise(cfg, r.task, decision, remaining);
        (Memory(m.tasks[r.task := state], m.last[r.task := rec],
                m.counts[r.task := (if r.task in m.counts then m.counts[r.task] else 0) + 1]), Advice(rec))
  }

  function ResetMemory(m: Memory, task: string): Memory {
    Memory(m.tasks - {task}, m.last - {task}, m.counts - {task})
  }

  // ----- the persisted recommender -----

  datatype Stored = Stored(
    tier: Option<Tier>,
    escalations: nat,
    count: nat,
    attempts: map<(string, string), nat>,
    last: Option<map<string, Json>>)

  const BLANK: Stored := Stored(None, 0, 0, map[], None)

  function RowOf(rows: map<string, Stored>, task: string): Stored {
    if task in rows then rows[task] else BLANK
  }

  function Without(reasons: seq<string>, word: string): seq<string> {
    if |reasons| == 0 then []
    else (if reasons[0] == word then [] else [reasons[0]]) + Without(reasons[1..], word)
  }

  /** The candidates are rebuilt from the answer of a throw-away router that may not escalate. */
  function RecommendStored(cfg: Config, rows: map<string, Stored>, r: Request, remaining: Option<nat>)
    : (o: (map<string, Stored>, Outcome))
    requires Valid(cfg)
  {
    if r.task == "" then (rows, EmptyTask)
    else
      var affordable := Affordable(cfg, Requested(r.eligible), remaining);
      var throwAway := cfg.(maxEscalations := 0);
      match Routed(throwAway, FRESH, affordable, r.(escalation := None, attempt := Null, evidence := Null))
      case None => (rows, NoEligibleTier)
      case Some((_, baseline)) =>
        var rec := Advise(cfg, r.task, UpdateDecision(cfg, RowOf(rows, r.task), affordable, baseline, r), remaining);
        var row := Stored(Some(rec.tier), rec.escalations, RowOf(rows, r.task).count + 1,
                          Counted(cfg, RowOf(rows, r.task).attempts, r.attempt, r.evidence), Some(Payload(rec)));
        (rows[r.task := row], Advice(rec))
  }

  function UpdateDecision(cfg: Config, row: Stored, affordable: seq<Tier>, baseline: Decision, r: Request): Decision {
    var safe := AtLeast(affordable, baseline.tier);
    var current := if row.tier.Some? && row.tier.value in safe then row.tier.value else baseline.tier;
    var reasons := Without(baseline.reasons, "cheapest_eligible");
    if Repeated(cfg, row.attempts, r.attempt, r.evidence) then
      Decision(current, reasons + ["equivalent_attempt", "no_progress", "stop"], row.escalations)
    else if r.escalation.Some? then
      if row.escalations >= cfg.maxEscalations then
        Decision(current, reasons + ["escalation_cap_reached", "stop"], row.escalations)
      else if Above(safe, current).None? then
        Decision(current, reasons + ["highest_eligible_tier", "stop"], row.escalations)
      else
        Decision(Above(safe, current).value, reasons + ["escalated:" + cfg.reasonCode(r.escalation.value)],
                 row.escalations + 1)
    else
      Decision(current, reasons + [if current == baseline.tier then "cheapest_eligible" else "retained_escalated_tier"],
               row.escalations)
  }

  // ----- the two machines agree -----

  predicate Rising(tiers: seq<Tier>) {
    forall i, j :: 0 <= i < j < |tiers| ==> Position(tiers[i]) < Position(tiers[j])
  }

  lemma {:induction false} AtLeastIs(tiers: seq<Tier>, floor: Tier, t: Tier)
    ensures t in AtLeast(tiers, floor) <==> t in tiers && Position(t) >= Position(floor)
  {
    if |tiers| > 0 {
      AtLeastIs(tiers[1..], floor, t);
      assert tiers == [tiers[0]] + tiers[1..];
    }
  }

  lemma {:induction false} AtLeastRises(tiers: seq<Tier>, floor: Tier)
    requires Rising(tiers)
    ensures Rising(AtLeast(tiers, floor))
  {
    if |tiers| > 0 {
      AtLeastRises(tiers[1..], floor);
      forall t | t in AtLeast(tiers[1..], floor) ensures Position(tiers[0]) < Position(t) {
        AtLeastIs(tiers[1..], floor, t);
      }
    }
  }

  /** Restricting to the cheapest candidate and up loses nothing. */
  lemma {:induction false} SameCandidates(tiers: seq<Tier>, floor: Tier)
    requires Rising(tiers) && |AtLeast(tiers, floor)| > 0
    ensures AtLeast(tiers, AtLeast(tiers, floor)[0]) == AtLeast(tiers, floor)
  {
    if Position(tiers[0]) < Position(floor) {
      SameCandidates(tiers[1..], floor);
      assert AtLeast(tiers, floor) == AtLeast(tiers[1..], floor);
      assert AtLeast(tiers, floor)[0] in AtLeast(tiers, floor);
      AtLeastIs(tiers, floor, AtLeast(tiers, floor)[0]);
    } else {
      AllKept(tiers, tiers[0]);
      AllKept(tiers, floor);
    }
  }

  lemma {:induction false} AllKept(tiers: seq<Tier>, floor: Tier)
    requires forall t :: t in tiers ==> Position(t) >= Position(floor)
    ensures AtLeast(tiers, floor) == tiers
  {
    if |tiers| > 0 {
      AllKept(tiers[1..], floor);
    }
  }

  lemma {:induction false} AffordableIs(cfg: Config, tiers: seq<Tier>, remaining: Option<nat>, t: Tier)
    requires Valid(cfg)
    ensures t in Affordable(cfg, tiers, remaining) <==>
      t in tiers && (remaining.None? || cfg.estimate[t] <= remaining.value)
  {
    if |tiers| > 0 {
      AffordableIs(cfg, tiers[1..], remaining, t);
      assert tiers == [tiers[0]] + tiers[1..];
    }
  }

  lemma {:induction false} AffordableRises(cfg: Config, tiers: seq<Tier>, remaining: Option<nat>)
    requires Valid(cfg) && Rising(tiers)
    ensures Rising(Affordable(cfg, tiers, remaining))
  {
    if |tiers| > 0 {
      AffordableRises(cfg, tiers[1..], remaining);
      forall t | t in Affordable(cfg, tiers[1..], remaining) ensures Position(tiers[0]) < Position(t) {
        AffordableIs(cfg, tiers[1..], remaining, t);
      }
    }
  }

  lemma {:induction false} WithoutNothing(reasons: seq<string>, word: string)
    requires word !in reasons
    ensures Without(reasons, word) == reasons && Without(reasons + [word], word) == reasons
  {
    if |reasons| > 0 {
      WithoutNothing(reasons[1..], word);
      assert (reasons + [word])[1..] == reasons[1..] + [word];
    }
  }

  lemma FloorReasonsAreFloors(risk: Risk, policyMinimum: Tier)
    ensures "cheapest_eligible" !in FloorReasons(risk, policyMinimum)
    ensures "stop" !in FloorReasons(risk, policyMinimum)
  {
    forall x | x in FloorReasons(risk, policyMinimum) ensures x[0] == 'r' || x[0] == 'p' {
    }
  }

  lemma {:induction false} BaselineIs(cfg: Config, candidates: seq<Tier>, r: Request)
    requires |candidates| > 0
    ensures Decide(cfg.(maxEscalations := 0), FRESH, candidates,
                   r.(escalation := None, attempt := Null, evidence := Null))
         == Decision(candidates[0], FloorReasons(r.risk, r.policyMinimum) + ["cheapest_eligible"], 0)
  {
    hide FloorReasons;
  }

  lemma StartIs(state: TaskState, candidates: seq<Tier>)
    requires |candidates| > 0 && Rising(candidates)
    ensures Start(state, candidates) ==
            if state.tier.Some? && state.tier.value in candidates then state.tier.value else candidates[0]
  {
  }

  lemma {:induction false} UpdateIsDecision(cfg: Config, row: Stored, affordable: seq<Tier>, candidates: seq<Tier>,
                                            r: Request)
    requires |candidates| > 0 && Rising(candidates) && AtLeast(affordable, candidates[0]) == candidates
    ensures UpdateDecision(cfg, row, affordable,
                           Decision(candidates[0], FloorReasons(r.risk, r.policyMinimum) + ["cheapest_eligible"], 0), r)
         == Decide(cfg, TaskState(row.tier, row.escalations, row.attempts), candidates, r)
  {
    FloorReasonsAreFloors(r.risk, r.policyMinimum);
    WithoutNothing(FloorReasons(r.risk, r.policyMinimum), "cheapest_eligible");
    StartIs(TaskState(row.tier, row.escalations, row.attempts), candidates);
    hide AtLeast, FloorReasons, Without, Repeated, Above, Start;
  }

  /** What the persisted update computes is what the router would have answered. */
  lemma {:induction false} UpdateIsRoute(cfg: Config, row: Stored, affordable: seq<Tier>, r: Request)
    requires Rising(affordable)
    ensures var baseline := Routed(cfg.(maxEscalations := 0), FRESH, affordable,
                                   r.(escalation := None, attempt := Null, evidence := Null));
            var routed := Routed(cfg, TaskState(row.tier, row.escalations, row.attempts), affordable, r);
            && (baseline.None? <==> routed.None?)
            && (routed.Some? ==>
                  && routed.value.1 == UpdateDecision(cfg, row, affordable, baseline.value.1, r)
                  && routed.value.0 == TaskState(Some(routed.value.1.tier), routed.value.1.escalations,
                                                 Counted(cfg, row.attempts, r.attempt, r.evidence)))
  {
    var candidates := AtLeast(affordable, Floor(r.risk, r.policyMinimum));
    if |candidates| > 0 {
      SameCandidates(affordable, Floor(r.risk, r.policyMinimum));
      AtLeastRises(affordable, Floor(r.risk, r.policyMinimum));
      BaselineIs(cfg, candidates, r);
      UpdateIsDecision(cfg, row, affordable, candidates, r);
      hide AtLeast, FloorReasons, Decide, UpdateDecision, Counted;
    }
  }

  predicate AgreeOn(m: Memory, rows: map<string, Stored>, task: string) {
    var row := RowOf(rows, task);
    && StateOf(m.tasks, task) == TaskState(row.tier, row.escalations, row.attempts)
    && (if task in m.counts then m.counts[task] else 0) == row.count
    && (if task in m.last then Some(Payload(m.last[task])) else None) == row.last
  }

  ghost predicate Agree(m: Memory, rows: map<string, Stored>) {
    && "" !in m.tasks && "" !in m.last && "" !in m.counts && "" !in rows
    && forall task :: AgreeOn(m, rows, task)
  }

  const NOTHING: Memory := Memory(map[], map[], map[])

  lemma StartAgrees()
    ensures Agree(NOTHING, map[])
  {
  }

  lemma RequestedRises(eligible: Option<set<Tier>>)
    ensures Rising(Requested(eligible))
  {
  }

  /** The two versions of one recommendation, task by task. */
  lemma {:induction false} RecommendsAlike(cfg: Config, m: Memory, rows: map<string, Stored>, r: Request,
                                           remaining: Option<nat>)
    requires Valid(cfg) && AgreeOn(m, rows, r.task)
    ensures var (m', a) := RecommendMemory(cfg, m, r, remaining);
            var (rows', b) := RecommendStored(cfg, rows, r, remaining);
            a == b && AgreeOn(m', rows', r.task)
  {
    var affordable := Affordable(cfg, Requested(r.eligible), remaining);
    RequestedRises(r.eligible);
    AffordableRises(cfg, Requested(r.eligible), remaining);
    UpdateIsRoute(cfg, RowOf(rows, r.task), affordable, r);
    hide Routed, UpdateDecision, Affordable, Requested, Counted, Payload, Advise;
  }

  lemma OthersUntouched(cfg: Config, m: Memory, rows: map<string, Stored>, r: Request, remaining: Option<nat>,
                        task: string)
    requires Valid(cfg) && task != r.task
    ensures AgreeOn(RecommendMemory(cfg, m, r, remaining).0, RecommendStored(cfg, rows, r, remaining).0, task)
       <==> AgreeOn(m, rows, task)
  {
    hide Routed, UpdateDecision, Affordable, Requested, Counted, Payload, Advise;
  }

  lemma {:induction false} RecommendAgrees(cfg: Config, m: Memory, rows: map<string, Stored>, r: Request,
                                           remaining: Option<nat>)
    requires Valid(cfg) && Agree(m, rows)
    ensures var (m', a) := RecommendMemory(cfg, m, r, remaining);
            var (rows', b) := RecommendStored(cfg, rows, r, remaining);
            a == b && Agree(m', rows')
  {
    assert AgreeOn(m, rows, r.task);
    RecommendsAlike(cfg, m, rows, r, remaining);
    NamesStay(cfg, m, rows, r, remaining);
    hide RecommendMemory, RecommendStored, AgreeOn;
    forall task
      ensures AgreeOn(RecommendMemory(cfg, m, r, remaining).0, RecommendStored(cfg, rows, r, remaining).0, task)
    {
      assert AgreeOn(m, rows, task);
      if task != r.task {
        OthersUntouched(cfg, m, rows, r, remaining, task);
      }
    }
  }

  lemma NamesStay(cfg: Config, m: Memory, rows: map<string, Stored>, r: Request, remaining: Option<nat>)
    requires Valid(cfg) && "" !in m.tasks && "" !in m.last && "" !in m.counts && "" !in rows
    ensures var m', rows' := RecommendMemory(cfg, m, r, remaining).0, RecommendStored(cfg, rows, r, remaining).0;
            "" !in m'.tasks && "" !in m'.last && "" !in m'.counts && "" !in rows'
  {
    hide Routed, UpdateDecision, Affordable, Requested, Counted, Payload, Advise;
  }

  datatype Call = Recommending(request: Request, remaining: Option<nat>) | Resetting(task: string)
  datatype Reply = Recommended(outcome: Outcome) | WasReset | ResetRefused

  function StepMemory(cfg: Config, m: Memory, call: Call): (o: (Memory, Reply))
    requires Valid(cfg)
  {
    match call
    case Recommending(r, remaining) => var (m', a) := RecommendMemory(cfg, m, r, remaining); (m', Recommended(a))
    case Resetting(task) => (ResetMemory(m, task), WasReset)
  }

  /** The store refuses an empty task name. */
  function StepStored(cfg: Config, rows: map<string, Stored>, call: Call): (o: (map<string, Stored>, Reply))
    requires Valid(cfg)
  {
    match call
    case Recommending(r, remaining) =>
      var (rows', a) := RecommendStored(cfg, rows, r, remaining); (rows', Recommended(a))
    case Resetting(task) => if task == "" then (rows, ResetRefused) else (rows - {task}, WasReset)
  }

  /** The two versions answer alike on every call but one: resetting the empty task name. */
  lemma {:induction false} StepsAgree(cfg: Config, m: Memory, rows: map<string, Stored>, call: Call)
    requires Valid(cfg) && Agree(m, rows)
    ensures var (m', a) := StepMemory(cfg, m, call);
            var (rows', b) := StepStored(cfg, rows, call);
            Agree(m', rows') && (a == b <==> call != Resetting(""))
  {
    match call
    case Recommending(r, remaining) => RecommendAgrees(cfg, m, rows, r, remaining);
    case Resetting(task) =>
      var m', rows' := ResetMemory(m, task), StepStored(cfg, rows, call).0;
      forall t ensures AgreeOn(m', rows', t) {
        assert AgreeOn(m, rows, t);
      }
  }

  function RunMemory(cfg: Config, m: Memory, calls: seq<Call>): (o: (Memory, seq<Reply>))
    requires Valid(cfg)
    ensures |o.1| == |calls|
    decreases |calls|
  {
    if |calls| == 0 then (m, [])
    else
      var (m1, a) := StepMemory(cfg, m, calls[0]);
      var (m2, rest) := RunMemory(cfg, m1, calls[1..]);
      (m2, [a] + rest)
  }

  function RunStored(cfg: Config, rows: map<string, Stored>, calls: seq<Call>): (o: (map<string, Stored>, seq<Reply>))
    requires Valid(cfg)
    ensures |o.1| == |calls|
    decreases |calls|
  {
    if |calls| == 0 then (rows, [])
    else
      var (r1, a) := StepStored(cfg, rows, calls[0]);
      var (r2, rest) := RunStored(cfg, r1, calls[1..]);
      (r2, [a] + rest)
  }

  /** Over any run the two versions give the same answers, call by call, and end in agreement. */
  lemma {:induction false} RunsAgree(cfg: Config, m: Memory, rows: map<string, Stored>, calls: seq<Call>)
    requires Valid(cfg) && Agree(m, rows)
    ensures Agree(RunMemory(cfg, m, calls).0, RunStored(cfg, rows, calls).0)
    ensures forall i :: 0 <= i < |calls| ==>
      (RunMemory(cfg, m, calls).1[i] == RunStored(cfg, rows, calls).1[i] <==> calls[i] != Resetting(""))
    decreases |calls|
  {
    if |calls| > 0 {
      StepsAgree(cfg, m, rows, calls[0]);
      hide StepMemory, StepStored, Agree;
      RunsAgree(cfg, StepMemory(cfg, m, calls[0]).0, StepStored(cfg, rows, calls[0]).0, calls[1..]);
    }
  }

  /** What `state` shows of a task. */
  datatype View = View(tier: Option<Tier>, attempts: nat, escalations: nat, last: Option<map<string, Json>>, count: nat)

  function ViewMemory(m: Memory, task: string): Option<View> {
    if task == "" then None
    else Some(View(StateOf(m.tasks, task).tier, |StateOf(m.tasks, task).attempts|, StateOf(m.tasks, task).escalations,
                   if task in m.last then Some(Payload(m.last[task])) else None,
                   if task in m.counts then m.counts[task] else 0))
  }

  function ViewStored(rows: map<string, Stored>, task: string): Option<View> {
    if task == "" then None
    else
      var row := RowOf(rows, task);
      Some(View(row.tier, |row.attempts|, row.escalations, row.last, row.count))
  }

  /** So after any run both show the same state of every task. */
  lemma {:induction false} ViewsAgree(cfg: Config, calls: seq<Call>, task: string)
    requires Valid(cfg)
    ensures ViewMemory(RunMemory(cfg, NOTHING, calls).0, task) == ViewStored(RunStored(cfg, map[], calls).0, task)
  {
    StartAgrees();
    RunsAgree(cfg, NOTHING, map[], calls);
    assert AgreeOn(RunMemory(cfg, NOTHING, calls).0, RunStored(cfg, map[], calls).0, task);
    hide RunMemory, RunStored, Payload;
  }

  // ----- bounds -----

  ghost predicate Capped(cfg: Config, m: Memory) {
    forall task :: task in m.tasks ==> m.tasks[task].escalations <= cfg.maxEscalations
  }

  lemma {:induction false} AboveIsThere(tiers: seq<Tier>, t: Tier)
    ensures Above(tiers, t).Some? ==> Above(tiers, t).value in tiers && Position(Above(tiers, t).value) > Position(t)
    ensures Above(tiers, t).None? ==> forall x :: x in tiers ==> Position(x) <= Position(t)
  {
    if |tiers| > 0 {
      AboveIsThere(tiers[1..], t);
      assert tiers == [tiers[0]] + tiers[1..];
    }
  }

  /** Advice for a task that has spent `spent` escalations names an affordable, requested tier at or
      above the safety floor, spends at most one more and never more than the cap; a refusal means
      that no such tier exists. */
  predicate WithinBounds(cfg: Config, spent: nat, r: Request, remaining: Option<nat>, o: Outcome)
    requires Valid(cfg)
  {
    && (o.Advice? ==>
          && Position(o.recommendation.tier) >= Position(RiskFloor(r.risk))
          && Position(o.recommendation.tier) >= Position(r.policyMinimum)
          && o.recommendation.tier in Requested(r.eligible)
          && (remaining.Some? ==> cfg.estimate[o.recommendation.tier] <= remaining.value)
          && spent <= o.recommendation.escalations <= cfg.maxEscalations
          && o.recommendation.escalations <= spent + 1)
    && (o.NoEligibleTier? ==>
          forall t :: t in Requested(r.eligible) ==>
            Position(t) < Position(Floor(r.risk, r.policyMinimum))
            || (remaining.Some? && cfg.estimate[t] > remaining.value))
  }

  lemma {:induction false} RecommendationsAreBounded(cfg: Config, m: Memory, r: Request, remaining: Option<nat>)
    requires Valid(cfg) && Capped(cfg, m)
    ensures var (m', o) := RecommendMemory(cfg, m, r, remaining);
            && Capped(cfg, m') && WithinBounds(cfg, StateOf(m.tasks, r.task).escalations, r, remaining, o)
            && (!o.Advice? ==> m' == m)
  {
    hide Routed, Requested, Affordable, AtLeast;
    var affordable := Affordable(cfg, Requested(r.eligible), remaining);
    var state := StateOf(m.tasks, r.task);
    if r.task != "" {
      var routed := Routed(cfg, state, affordable, r);
      RoutedIsBounded(cfg, state, affordable, r);
      hide Routed, Requested, Affordable, AtLeast;
      if routed.Some? {
        AtLeastIs(affordable, Floor(r.risk, r.policyMinimum), routed.value.1.tier);
        AffordableIs(cfg, Requested(r.eligible), remaining, routed.value.1.tier);
      } else {
        forall t | t in Requested(r.eligible)
          ensures Position(t) < Position(Floor(r.risk, r.policyMinimum)) ||
            (remaining.Some? && cfg.estimate[t] > remaining.value)
        {
          AtLeastIs(affordable, Floor(r.risk, r.policyMinimum), t);
          AffordableIs(cfg, Requested(r.eligible), remaining, t);
        }
      }
    }
  }

  lemma {:induction false} DecisionIsBounded(cfg: Config, state: TaskState, candidates: seq<Tier>, r: Request)
    requires state.escalations <= cfg.maxEscalations && |candidates| > 0
    ensures var d := Decide(cfg, state, candidates, r);
            d.tier in candidates && state.escalations <= d.escalations <= state.escalations + 1 &&
              d.escalations <= cfg.maxEscalations
  {
    AboveIsThere(candidates, Start(state, candidates));
    hide Above, Repeated, FloorReasons;
  }

  lemma {:induction false} RoutedIsBounded(cfg: Config, state: TaskState, eligible: seq<Tier>, r: Request)
    requires state.escalations <= cfg.maxEscalations
    ensures var routed := Routed(cfg, state, eligible, r);
            var candidates := AtLeast(eligible, Floor(r.risk, r.policyMinimum));
      && (routed.None? <==> |candidates| == 0)
      && (routed.Some? ==>
            && routed.value.1.tier in candidates
            && routed.value.0.tier == Some(routed.value.1.tier) &&
              routed.value.0.escalations == routed.value.1.escalations
            && state.escalations <= routed.value.1.escalations <= state.escalations + 1
            && routed.value.1.escalations <= cfg.maxEscalations)
  {
    var candidates := AtLeast(eligible, Floor(r.risk, r.policyMinimum));
    if |candidates| > 0 {
      DecisionIsBounded(cfg, state, candidates, r);
      hide Decide, AtLeast;
    }
  }

  /** Over any run, no task is ever escalated beyond the cap. */
  lemma {:induction false} RunsAreCapped(cfg: Config, m: Memory, calls: seq<Call>)
    requires Valid(cfg) && Capped(cfg, m)
    ensures Capped(cfg, RunMemory(cfg, m, calls).0)
    decreases |calls|
  {
    if |calls| > 0 {
      if calls[0].Recommending? {
        RecommendationsAreBounded(cfg, m, calls[0].request, calls[0].remaining);
      }
      hide RecommendMemory, WithinBounds;
      RunsAreCapped(cfg, StepMemory(cfg, m, calls[0]).0, calls[1..]);
    }
  }

  /** The same of the persisted version: after any run from the empty store every row is within the
      cap, and so is whatever the next recommendation says. */
  lemma {:induction false} StoredRunsAreBounded(cfg: Config, calls: seq<Call>, r: Request, remaining: Option<nat>)
    requires Valid(cfg)
    ensures var rows := RunStored(cfg, map[], calls).0;
            && (forall task :: RowOf(rows, task).escalations <= cfg.maxEscalations)
            && WithinBounds(cfg, RowOf(rows, r.task).escalations, r, remaining,
              RecommendStored(cfg, rows, r, remaining).1)
  {
    var m, rows := RunMemory(cfg, NOTHING, calls).0, RunStored(cfg, map[], calls).0;
    StartAgrees();
    RunsAgree(cfg, NOTHING, map[], calls);
    RunsAreCapped(cfg, NOTHING, calls);
    RecommendAgrees(cfg, m, rows, r, remaining);
    RecommendationsAreBounded(cfg, m, r, remaining);
    hide RunMemory, RunStored, RecommendMemory, RecommendStored, WithinBounds;
    forall task ensures RowOf(rows, task).escalations == StateOf(m.tasks, task).escalations {
      assert AgreeOn(m, rows, task);
    }
  }
}
