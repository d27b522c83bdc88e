/** What a recommendation says, told by which tiers are open to the request and by what the task has
    been through; the same of the in-memory version and of the persisted one. */
module ReasoningAdvice {
  import opened Scopes
  import opened Json
  import opened Reasoning

  // ----- which tiers are open -----

  /** A tier that was asked for, at or above both floors, and within what is left to spend. */
  predicate Able(cfg: Config, r: Request, remaining: Option<nat>, t: Tier)
    requires Valid(cfg)
  {
    && (r.eligible.None? || t in r.eligible.value)
    && Position(t) >= Position(RiskFloor(r.risk)) && Position(t) >= Position(r.policyMinimum)
    && (remaining.None? || cfg.estimate[t] <= remaining.value)
  }

  /** The risk alone demands the highest tier for what cannot be undone, at least the middle one for
      other writes, and nothing for reading or less. */
  lemma RiskDemands(risk: Risk, t: Tier)
    ensures Position(t) >= Position(RiskFloor(risk)) <==>
            (risk == Irreversible ==> t == High) && (risk == ReversibleWrite ==> t != Low)
  {
  }

  function Candidates(cfg: Config, r: Request, remaining: Option<nat>): seq<Tier>
    requires Valid(cfg)
  {
    AtLeast(Affordable(cfg, Requested(r.eligible), remaining), Floor(r.risk, r.policyMinimum))
  }

  lemma {:induction false} CandidatesAreAble(cfg: Config, r: Request, remaining: Option<nat>)
    requires Valid(cfg)
    ensures forall t :: t in Candidates(cfg, r, remaining) <==> Able(cfg, r, remaining, t)
    ensures Rising(Candidates(cfg, r, remaining))
  {
    hide Affordable, AtLeast, Requested, Rising, RiskFloor, Floor, Position, Able;
    var affordable := Affordable(cfg, Requested(r.eligible), remaining);
    RequestedRises(r.eligible);
    AffordableRises(cfg, Requested(r.eligible), remaining);
    AtLeastRises(affordable, Floor(r.risk, r.policyMinimum));
    forall t ensures t in Candidates(cfg, r, remaining) <==> Able(cfg, r, remaining, t) {
      AtLeastIs(affordable, Floor(r.risk, r.policyMinimum), t);
      AffordableIs(cfg, Requested(r.eligible), remaining, t);
      AbleIs(cfg, r, remaining, t);
    }
  }

  lemma AbleIs(cfg: Config, r: Request, remaining: Option<nat>, t: Tier)
    requires Valid(cfg)
    ensures Able(cfg, r, remaining, t) <==>
            && t in Requested(r.eligible) && (remaining.None? || cfg.estimate[t] <= remaining.value)
            && Position(t) >= Position(Floor(r.risk, r.policyMinimum))
  {
  }

  // ----- where a request starts, and where it may rise to -----

  /** The task's own tier while it is open, otherwise the lowest open one. */
  predicate StartsAt(cfg: Config, own: Option<Tier>, r: Request, remaining: Option<nat>, t: Tier)
    requires Valid(cfg)
  {
    && Able(cfg, r, remaining, t)
    && if own.Some? && Able(cfg, r, remaining, own.value) then t == own.value
       else forall x :: Able(cfg, r, remaining, x) ==> Position(t) <= Position(x)
  }

  /** The next open tier above. */
  predicate NextAbove(cfg: Config, r: Request, remaining: Option<nat>, t: Tier, next: Tier)
    requires Valid(cfg)
  {
    && Able(cfg, r, remaining, next) && Position(t) < Position(next)
    && forall x :: Able(cfg, r, remaining, x) && Position(t) < Position(x) ==> Position(next) <= Position(x)
  }

  predicate IsTop(cfg: Config, r: Request, remaining: Option<nat>, t: Tier)
    requires Valid(cfg)
  {
    forall x :: Able(cfg, r, remaining, x) ==> Position(x) <= Position(t)
  }

  lemma {:induction false} AboveIsNext(tiers: seq<Tier>, t: Tier)
    requires Rising(tiers)
    ensures Above(tiers, t).Some? ==> forall x :: x in tiers && Position(t) < Position(x) ==>
              Position(Above(tiers, t).value) <= Position(x)
  {
    if |tiers| > 0 {
      AboveIsNext(tiers[1..], t);
      assert forall x :: x in tiers <==> x == tiers[0] || x in tiers[1..];
    }
  }

  // ----- the advice -----

  /** How often this attempt was made before with this evidence; an attempt without a signature is
      never counted. */
  function TimesSeen(cfg: Config, state: TaskState, r: Request): nat {
    if r.attempt == Null then 0 else Occurrences(state.attempts, (cfg.digest(r.attempt), cfg.digest(r.evidence)))
  }

  /** The reasons for the floors, in words. */
  function FloorWords(r: Request): seq<string> {
    (match RiskFloor(r.risk) case Low => [] case Medium => ["risk_floor:medium"] case High => ["risk_floor:high"])
    + (match r.policyMinimum case Low => [] case Medium => ["policy_floor:medium"] case High => ["policy_floor:high"])
  }

  /** The advice, when the request starts at `start`: an attempt seen too often stops where it is; an
      escalation rises to the next open tier, unless the cap or the top stops it; otherwise the task
      stays at its tier. */
  predicate Follows(cfg: Config, state: TaskState, r: Request, remaining: Option<nat>, start: Tier, rec: Recommendation)
    requires Valid(cfg)
  {
    if TimesSeen(cfg, state, r) >= cfg.maxEquivalent then
      && rec.tier == start && rec.escalations == state.escalations && rec.shouldStop
      && rec.reasons == FloorWords(r) + ["equivalent_attempt", "no_progress", "stop"]
    else if r.escalation.None? then
      && rec.tier == start && rec.escalations == state.escalations && !rec.shouldStop
      && rec.reasons == FloorWords(r) + [if StartsAt(cfg, None, r, remaining, start) then "cheapest_eligible"
                                         else "retained_escalated_tier"]
    else if state.escalations >= cfg.maxEscalations then
      && rec.tier == start && rec.escalations == state.escalations && rec.shouldStop
      && rec.reasons == FloorWords(r) + ["escalation_cap_reached", "stop"]
    else if IsTop(cfg, r, remaining, start) then
      && rec.tier == start && rec.escalations == state.escalations && rec.shouldStop
      && rec.reasons == FloorWords(r) + ["highest_eligible_tier", "stop"]
    else
      && NextAbove(cfg, r, remaining, start, rec.tier) && rec.escalations == state.escalations + 1 && !rec.shouldStop
      && rec.reasons == FloorWords(r) + ["escalated:" + cfg.reasonCode(r.escalation.value)]
  }

  /** What the advice costs and leaves. */
  predicate Priced(cfg: Config, r: Request, remaining: Option<nat>, rec: Recommendation)
    requires Valid(cfg)
  {
    && rec.task == r.task && rec.policyRevision == cfg.policyRevision
    && rec.estimate == cfg.estimate[rec.tier] && rec.remaining == remaining
    && (remaining.None? ==> rec.headroom.None?)
    && (remaining.Some? ==> rec.headroom.Some? && rec.headroom.value + rec.estimate == remaining.value
                            && rec.headroom.value >= 0)
  }

  /** Answered as it should be: refused without a task or without an open tier, otherwise advised. */
  ghost predicate Answered(cfg: Config, state: TaskState, r: Request, remaining: Option<nat>, o: Outcome)
    requires Valid(cfg)
  {
    && (o.EmptyTask? <==> r.task == "")
    && (o.NoEligibleTier? <==> r.task != "" && forall t :: !Able(cfg, r, remaining, t))
    && (o.Advice? ==>
          && Priced(cfg, r, remaining, o.recommendation) && Able(cfg, r, remaining, o.recommendation.tier)
          && exists start :: StartsAt(cfg, state.tier, r, remaining, start)
                             && Follows(cfg, state, r, remaining, start, o.recommendation))
  }

  /** The task afterwards: at the tier and the escalations of the advice, with the attempt counted. */
  ghost predicate Remembered(cfg: Config, state: TaskState, r: Request, rec: Recommendation, state': TaskState) {
    && state'.tier == Some(rec.tier) && state'.escalations == rec.escalations
    && forall pair :: Occurrences(state'.attempts, pair) ==
         Occurrences(state.attempts, pair)
         + (if r.attempt != Null && pair == (cfg.digest(r.attempt), cfg.digest(r.evidence)) then 1 else 0)
  }

  lemma {:induction false} StartIsStart(cfg: Config, state: TaskState, r: Request, remaining: Option<nat>)
    requires Valid(cfg) && |Candidates(cfg, r, remaining)| > 0
    ensures StartsAt(cfg, state.tier, r, remaining, Start(state, Candidates(cfg, r, remaining)))
    ensures StartsAt(cfg, None, r, remaining, Candidates(cfg, r, remaining)[0])
  {
    CandidatesAreAble(cfg, r, remaining);
    var candidates := Candidates(cfg, r, remaining);
    StartIs(state, candidates);
    hide Candidates, Able, Start;
    forall x | Able(cfg, r, remaining, x) ensures Position(candidates[0]) <= Position(x) {
      assert x in candidates;
    }
  }

  /** One routed decision, and the state it leaves. */
  lemma {:induction false} RoutedFollows(cfg: Config, state: TaskState, r: Request, remaining: Option<nat>)
    requires Valid(cfg) && r.task != ""
    ensures var routed := Routed(cfg, state, Affordable(cfg, Requested(r.eligible), remaining), r);
      && (routed.None? <==> forall t :: !Able(cfg, r, remaining, t))
      && (routed.Some? ==>
            var rec := Advise(cfg, r.task, routed.value.1, remaining);
            && Answered(cfg, state, r, remaining, Advice(rec)) && Remembered(cfg, state, r, rec, routed.value.0))
  {
    hide Able, Start, Decide, Advise, Affordable, AtLeast, StartsAt, Follows, Priced, Remembered, Requested, Floor;
    var candidates := Candidates(cfg, r, remaining);
    SomeCandidate(cfg, r, remaining);
    if |candidates| > 0 {
      var start := Start(state, candidates);
      var rec := Advise(cfg, r.task, Decide(cfg, state, candidates, r), remaining);
      StartIsStart(cfg, state, r, remaining);
      DecisionFollows(cfg, state, r, remaining, start);
      AdviceIsPriced(cfg, state, r, remaining, start);
      AttemptIsCounted(cfg, state, candidates, r, remaining);
    }
  }

  lemma {:induction false} SomeCandidate(cfg: Config, r: Request, remaining: Option<nat>)
    requires Valid(cfg)
    ensures |Candidates(cfg, r, remaining)| == 0 <==> forall t :: !Able(cfg, r, remaining, t)
  {
    CandidatesAreAble(cfg, r, remaining);
    hide Candidates, Able;
    if |Candidates(cfg, r, remaining)| > 0 {
      assert Candidates(cfg, r, remaining)[0] in Candidates(cfg, r, remaining);
    }
  }

  lemma {:induction false} AdviceIsPriced(cfg: Config, state: TaskState, r: Request, remaining: Option<nat>,
                                          start: Tier)
    requires Valid(cfg) && |Candidates(cfg, r, remaining)| > 0 && StartsAt(cfg, state.tier, r, remaining, start)
    requires var rec := Advise(cfg, r.task, Decide(cfg, state, Candidates(cfg, r, remaining), r), remaining);
             Follows(cfg, state, r, remaining, start, rec)
    ensures var rec := Advise(cfg, r.task, Decide(cfg, state, Candidates(cfg, r, remaining), r), remaining);
            Priced(cfg, r, remaining, rec) && Able(cfg, r, remaining, rec.tier)
  {
    hide Candidates, Decide;
    hide IsTop, FloorWords, TimesSeen;
  }

  lemma {:induction false} AttemptIsCounted(cfg: Config, state: TaskState, candidates: seq<Tier>, r: Request,
                                            remaining: Option<nat>)
    requires Valid(cfg) && |candidates| > 0
    ensures var decision := Decide(cfg, state, candidates, r);
            Remembered(cfg, state, r, Advise(cfg, r.task, decision, remaining),
                       TaskState(Some(decision.tier), decision.escalations,
                                 Counted(cfg, state.attempts, r.attempt, r.evidence)))
  {
    hide Decide;
  }

  lemma {:induction false} DecisionFollows(cfg: Config, state: TaskState, r: Request, remaining: Option<nat>,
                                           start: Tier)
    requires Valid(cfg) && |Candidates(cfg, r, remaining)| > 0
    requires start == Start(state, Candidates(cfg, r, remaining)) && StartsAt(cfg, state.tier, r, remaining, start)
    ensures var rec := Advise(cfg, r.task, Decide(cfg, state, Candidates(cfg, r, remaining), r), remaining);
            Follows(cfg, state, r, remaining, start, rec)
  {
    hide Candidates, Able, Start, Above, FloorReasons, FloorWords, Rising, Occurrences;
    var candidates := Candidates(cfg, r, remaining);
    StartIsStart(cfg, state, r, remaining);
    RisesToNext(cfg, r, remaining, start);
    LowestStart(cfg, r, remaining, start);
    WordsAreWords(r);
    hide StartsAt, NextAbove, IsTop;
    if r.escalation.Some? {
      assert ("escalated:" + cfg.reasonCode(r.escalation.value))[0] == 'e';
    }
  }

  lemma {:induction false} RisesToNext(cfg: Config, r: Request, remaining: Option<nat>, start: Tier)
    requires Valid(cfg)
    ensures Above(Candidates(cfg, r, remaining), start).None? <==> IsTop(cfg, r, remaining, start)
    ensures Above(Candidates(cfg, r, remaining), start).Some? ==>
            NextAbove(cfg, r, remaining, start, Above(Candidates(cfg, r, remaining), start).value)
  {
    var candidates := Candidates(cfg, r, remaining);
    CandidatesAreAble(cfg, r, remaining);
    AboveIsNext(candidates, start);
    AboveIsThere(candidates, start);
    hide Candidates, Able, Above;
  }

  lemma {:induction false} LowestStart(cfg: Config, r: Request, remaining: Option<nat>, start: Tier)
    requires Valid(cfg) && |Candidates(cfg, r, remaining)| > 0 && Able(cfg, r, remaining, start)
    ensures StartsAt(cfg, None, r, remaining, start) <==> start == Candidates(cfg, r, remaining)[0]
  {
    StartIsStart(cfg, FRESH, r, remaining);
    hide Candidates, Able, Start;
    var first := Candidates(cfg, r, remaining)[0];
    assert Position(first) == Position(start) ==> first == start;
  }

  lemma WordsAreWords(r: Request)
    ensures FloorReasons(r.risk, r.policyMinimum) == FloorWords(r)
    ensures "stop" !in FloorWords(r)
  {
    assert "risk_floor:" + "medium" == "risk_floor:medium" && "risk_floor:" + "high" == "risk_floor:high";
    assert "policy_floor:" + "medium" == "policy_floor:medium" && "policy_floor:" + "high" == "policy_floor:high";
  }

  // ----- both versions -----

  function CountOf(m: Memory, task: string): nat {
    if task in m.counts then m.counts[task] else 0
  }

  /** The in-memory version advises so, and remembers it of this task and of no other. */
  lemma {:induction false} MemoryAdvises(cfg: Config, m: Memory, r: Request, remaining: Option<nat>)
    requires Valid(cfg)
    ensures var (m', o) := RecommendMemory(cfg, m, r, remaining);
      && Answered(cfg, StateOf(m.tasks, r.task), r, remaining, o)
      && (o.Advice? ==>
            && Remembered(cfg, StateOf(m.tasks, r.task), r, o.recommendation, StateOf(m'.tasks, r.task))
            && r.task in m'.last && m'.last[r.task] == o.recommendation
            && CountOf(m', r.task) == CountOf(m, r.task) + 1)
      && (!o.Advice? ==> m' == m)
      && forall task :: task != r.task ==> StateOf(m'.tasks, task) == StateOf(m.tasks, task)
  {
    if r.task != "" {
      RoutedFollows(cfg, StateOf(m.tasks, r.task), r, remaining);
    }
    hide Routed, Able, StartsAt, Follows, Priced, Remembered, Affordable, Advise;
  }

  /** What the stored row says of the task. */
  function StateIn(rows: map<string, Stored>, task: string): TaskState {
    TaskState(RowOf(rows, task).tier, RowOf(rows, task).escalations, RowOf(rows, task).attempts)
  }

  /** So does the persisted version, from whatever row it finds. */
  lemma {:induction false} StoreAdvises(cfg: Config, rows: map<string, Stored>, r: Request, remaining: Option<nat>)
    requires Valid(cfg)
    ensures var (rows', o) := RecommendStored(cfg, rows, r, remaining);
      && Answered(cfg, StateIn(rows, r.task), r, remaining, o)
      && (o.Advice? ==>
            && Remembered(cfg, StateIn(rows, r.task), r, o.recommendation, StateIn(rows', r.task))
            && RowOf(rows', r.task).last == Some(Payload(o.recommendation))
            && RowOf(rows', r.task).count == RowOf(rows, r.task).count + 1)
      && (!o.Advice? ==> rows' == rows)
      && forall task :: task != r.task ==> RowOf(rows', task) == RowOf(rows, task)
  {
    if r.task != "" {
      var affordable := Affordable(cfg, Requested(r.eligible), remaining);
      RequestedRises(r.eligible);
      AffordableRises(cfg, Requested(r.eligible), remaining);
      UpdateIsRoute(cfg, RowOf(rows, r.task), affordable, r);
      RoutedFollows(cfg, StateIn(rows, r.task), r, remaining);
    }
    hide Routed, Able, StartsAt, Follows, Priced, Remembered, Affordable, Advise, UpdateDecision, Requested, Counted,
      Payload;
  }

  /** A reset forgets all of that task and nothing of any other, in both versions. */
  lemma {:induction false} ResetForgets(cfg: Config, m: Memory, rows: map<string, Stored>, task: string, other: string)
    requires Valid(cfg)
    ensures var m', rows' := StepMemory(cfg, m, Resetting(task)).0, StepStored(cfg, rows, Resetting(task)).0;
      && task !in m'.tasks && task !in m'.last && task !in m'.counts && (task != "" ==> task !in rows')
      && (other != task ==>
            && StateOf(m'.tasks, other) == StateOf(m.tasks, other) && CountOf(m', other) == CountOf(m, other)
            && (other in m'.last <==> other in m.last) && (other in m.last ==> m'.last[other] == m.last[other])
            && RowOf(rows', other) == RowOf(rows, other))
      && (task == "" ==> rows' == rows)
  {
  }

  // ----- how often an attempt was seen -----

  /** Call by call, how often the task was advised on this attempt with this evidence since it was last
      reset, on top of `before` times. */
  function Tally(cfg: Config, m: Memory, calls: seq<Call>, task: string, pair: (string, string), before: nat): nat
    requires Valid(cfg)
    decreases |calls|
  {
    if |calls| == 0 then before
    else
      Tally(cfg, StepMemory(cfg, m, calls[0]).0, calls[1..], task, pair,
            CountedOnce(cfg, m, calls[0], task, pair, before))
  }

  function CountedOnce(cfg: Config, m: Memory, call: Call, task: string, pair: (string, string), before: nat): nat
    requires Valid(cfg)
  {
    match call
    case Resetting(t) => if t == task then 0 else before
    case Recommending(r, remaining) =>
      if r.task == task && r.attempt != Null && pair == (cfg.digest(r.attempt), cfg.digest(r.evidence))
         && RecommendMemory(cfg, m, r, remaining).1.Advice? then before + 1 else before
  }

  /** What the task state counts is exactly that, so an attempt is stopped as a repetition exactly when
      the task has been advised on it, with the same evidence, as often as is allowed since its reset. */
  lemma {:induction false} CountsAreTallies(cfg: Config, m: Memory, calls: seq<Call>, task: string,
                                            pair: (string, string))
    requires Valid(cfg)
    ensures Occurrences(StateOf(RunMemory(cfg, m, calls).0.tasks, task).attempts, pair) ==
            Tally(cfg, m, calls, task, pair, Occurrences(StateOf(m.tasks, task).attempts, pair))
    decreases |calls|
  {
    hide StepMemory;
    if |calls| > 0 {
      var next := StepMemory(cfg, m, calls[0]).0;
      CallIsTallied(cfg, m, calls[0], task, pair);
      CountsAreTallies(cfg, next, calls[1..], task, pair);
    }
  }

  lemma {:induction false} CallIsTallied(cfg: Config, m: Memory, call: Call, task: string, pair: (string, string))
    requires Valid(cfg)
    ensures Occurrences(StateOf(StepMemory(cfg, m, call).0.tasks, task).attempts, pair) ==
            CountedOnce(cfg, m, call, task, pair, Occurrences(StateOf(m.tasks, task).attempts, pair))
  {
    hide RecommendMemory, Answered;
    if call.Recommending? {
      MemoryAdvises(cfg, m, call.request, call.remaining);
    }
  }
}
