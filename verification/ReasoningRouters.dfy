/** The router, the state store and the orchestrator as objects, and the stored form of a task. */
module ReasoningRouters {
  import opened Scopes
  import opened Json
  import opened Reasoning

  class ReasoningRouter {
    const cfg: Config
    var tasks: map<string, TaskState>

    constructor (cfg: Config)
      requires Valid(cfg)
      ensures this.cfg == cfg && tasks == map[]
    {
      this.cfg := cfg;
      tasks := map[];
    }

    /** Decides one call and remembers the outcome; a refused call leaves no trace. */
    method Route(r: Request, eligible: seq<Tier>) returns (d: Option<Decision>)
      requires r.task != ""
      modifies this
      ensures var routed := Routed(cfg, old(StateOf(tasks, r.task)), eligible, r);
        if routed.None? then d.None? && tasks == old(tasks)
        else d == Some(routed.value.1) && tasks == old(tasks)[r.task := routed.value.0]
    {
      var candidates := AtLeast(eligible, Floor(r.risk, r.policyMinimum));
      hide AtLeast, FloorReasons, Above;
      if |candidates| == 0 {
        return None;
      }
      var state := StateOf(tasks, r.task);
      var current := Start(state, candidates);
      var reasons := FloorReasons(r.risk, r.policyMinimum);
      var attempts, noProgress, escalations := state.attempts, false, state.escalations;
      if r.attempt != Null {
        var pair := PairOf(cfg, r.attempt, r.evidence);
        var previous := Occurrences(attempts, pair);
        attempts := attempts[pair := previous + 1];
        noProgress := previous >= cfg.maxEquivalent;
      }
      if noProgress {
        reasons := reasons + ["equivalent_attempt", "no_progress", "stop"];
      } else if r.escalation.Some? {
        if escalations >= cfg.maxEscalations {
          reasons := reasons + ["escalation_cap_reached", "stop"];
        } else {
          var higher := Above(candidates, current);
          if higher.None? {
            reasons := reasons + ["highest_eligible_tier", "stop"];
          } else {
            current, escalations := higher.value, escalations + 1;
            reasons := reasons + ["escalated:" + cfg.reasonCode(r.escalation.value)];
          }
        }
      } else {
        reasons := reasons + [if current == candidates[0] then "cheapest_eligible" else "retained_escalated_tier"];
      }
      tasks := tasks[r.task := TaskState(Some(current), escalations, attempts)];
      d := Some(Decision(current, reasons, escalations));
    }

    method Forget(task: string)
      modifies this
      ensures tasks == old(tasks) - {task}
    {
      tasks := tasks - {task};
    }
  }

  /** One row per task; a write replaces the whole row. */
  class ReasoningStore {
    var rows: map<string, Stored>

    constructor ()
      ensures rows == map[]
    {
      rows := map[];
    }

    method Replace(task: string, row: Stored)
      requires task != ""
      modifies this
      ensures rows == old(rows)[task := row]
    {
      rows := rows[task := row];
    }

    method Delete(task: string) returns (ok: bool)
      modifies this
      ensures ok == (task != "") && rows == if ok then old(rows) - {task} else old(rows)
    {
      ok := task != "";
      if ok {
        rows := rows - {task};
      }
    }
  }

  class ReasoningOrchestrator {
    const cfg: Config
    const router: ReasoningRouter
    const store: ReasoningStore?
    var last: map<string, Recommendation>
    var counts: map<string, nat>

    ghost predicate Ready()
    {
      Valid(cfg) && router.cfg == cfg
    }

    ghost function InMemory(): Memory
      reads this, router
    {
      Memory(router.tasks, last, counts)
    }

    constructor (router: ReasoningRouter, store: ReasoningStore?)
      requires Valid(router.cfg)
      ensures Ready() && this.router == router && this.store == store && last == map[] && counts == map[]
    {
      this.cfg := router.cfg;
      this.router := router;
      this.store := store;
      last, counts := map[], map[];
    }

    /** `remaining` is the headroom the budget ledger shows at this moment, if it is limited. */
    method Recommend(r: Request, remaining: Option<nat>) returns (o: Outcome)
      requires Ready()
      modifies this, router, if store == null then {} else {store}
      ensures store == null ==> (InMemory(), o) == RecommendMemory(cfg, old(InMemory()), r, remaining)
      ensures store != null ==>
        (store.rows, o) == RecommendStored(cfg, old(store.rows), r, remaining) && InMemory() == old(InMemory())
    {
      var affordable := Affordable(cfg, Requested(r.eligible), remaining);
      hide Affordable, Requested, Routed, Payload;
      if r.task == "" {
        return EmptyTask;
      }
      if store != null {
        o := RecommendPersisted(r, affordable, remaining);
        return;
      }
      var d := router.Route(r, affordable);
      if d.None? {
        return NoEligibleTier;
      }
      var rec := Advise(cfg, r.task, d.value, remaining);
      last := last[r.task := rec];
      counts := counts[r.task := (if r.task in counts then counts[r.task] else 0) + 1];
      o := Advice(rec);
    }

    method RecommendPersisted(r: Request, affordable: seq<Tier>, remaining: Option<nat>) returns (o: Outcome)
      requires Ready() && store != null && r.task != "" &&
        affordable == Affordable(cfg, Requested(r.eligible), remaining)
      modifies store
      ensures (store.rows, o) == RecommendStored(cfg, old(store.rows), r, remaining)
    {
      hide Affordable, Requested, Routed, Payload, UpdateDecision;
      var throwAway := new ReasoningRouter(cfg.(maxEscalations := 0));
      var baseline := throwAway.Route(r.(escalation := None, attempt := Null, evidence := Null), affordable);
      if baseline.None? {
        return NoEligibleTier;
      }
      var row := RowOf(store.rows, r.task);
      var rec := Advise(cfg, r.task, UpdateDecision(cfg, row, affordable, baseline.value, r), remaining);
      store.Replace(r.task, Stored(Some(rec.tier), rec.escalations, row.count + 1,
                                   Counted(cfg, row.attempts, r.attempt, r.evidence), Some(Payload(rec))));
      o := Advice(rec);
    }

    method Reset(task: string) returns (reply: Reply)
      requires Ready()
      modifies this, router, if store == null then {} else {store}
      ensures store == null ==> (InMemory(), reply) == StepMemory(cfg, old(InMemory()), Resetting(task))
      ensures store != null ==> (store.rows, reply) == StepStored(cfg, old(store.rows), Resetting(task))
    {
      router.Forget(task);
      if store != null {
        var ok := store.Delete(task);
        if !ok {
          return ResetRefused;
        }
      }
      last, counts := last - {task}, counts - {task};
      reply := WasReset;
    }

    method State(task: string) returns (view: Option<View>)
      requires Ready()
      ensures view == if store == null then ViewMemory(InMemory(), task) else ViewStored(store.rows, task)
    {
      if task == "" {
        return None;
      }
      if store == null {
        var state := StateOf(router.tasks, task);
        view := Some(View(state.tier, |state.attempts|, state.escalations,
                          if task in last then Some(Payload(last[task])) else None,
                          if task in counts then counts[task] else 0));
      } else {
        var row := RowOf(store.rows, task);
        view := Some(View(row.tier, |row.attempts|, row.escalations, row.last, row.count));
      }
    }
  }

  // ----- the stored form of one task -----

  function TierNamed(name: string): Option<Tier> {
    if name == "low" then Some(Low) else if name == "medium" then Some(Medium) else if name == "high" then
      Some(High) else None
  }

  function Triple(pair: (string, string), count: nat): Json {
    Arr([Str(pair.0), Str(pair.1), Number(count)])
  }

  predicate IsTriple(j: Json) {
    j.Arr? && |j.items| == 3 && j.items[0].Str? && j.items[1].Str? && j.items[2].Number? && j.items[2].n >= 0
  }

  /** Reads the attempts from the back to the front, so a later repetition wins. */
  function ReadAttempts(items: seq<Json>): Option<map<(string, string), nat>> {
    if |items| == 0 then Some(map[])
    else
      var item := items[|items| - 1];
      if !IsTriple(item) then None
      else
        match ReadAttempts(items[..|items| - 1])
        case None => None
        case Some(rest) => Some(rest[(item.items[0].s, item.items[1].s) := item.items[2].n])
  }

  function ReadTier(j: Json): Option<Option<Tier>> {
    if j == Null then Some(None)
    else if j.Str? && TierNamed(j.s).Some? then Some(TierNamed(j.s))
    else None
  }

  function ReadLast(j: Json): Option<Option<map<string, Json>>> {
    if j == Null then Some(None) else if j.Obj? then Some(Some(j.fields)) else None
  }

  const FIELDS: set<string> := {"attempts", "tier", "last_recommendation", "escalations_used", "recommendation_count"}

  /** A missing entry is a blank task; anything malformed is refused. */
  function Decode(value: Json): Option<Stored> {
    if value == Null then Some(BLANK)
    else if !value.Obj? || !(FIELDS <= value.fields.Keys) then None
    else
      var f := value.fields;
      if !f["attempts"].Arr? || !f["escalations_used"].Number? || !f["recommendation_count"].Number?
         || f["escalations_used"].n < 0 || f["recommendation_count"].n < 0 then None
      else
        match (ReadAttempts(f["attempts"].items), ReadTier(f["tier"]), ReadLast(f["last_recommendation"]))
        case (Some(attempts), Some(tier), Some(last)) =>
          Some(Stored(tier, f["escalations_used"].n, f["recommendation_count"].n, attempts, last))
        case _ => None
  }

  function Encoded(state: Stored, attempts: seq<Json>): Json {
    Obj(map["attempts" := Arr(attempts), "escalations_used" := Number(state.escalations),
            "last_recommendation" := if state.last.None? then Null else Obj(state.last.value),
            "recommendation_count" := Number(state.count),
            "tier" := if state.tier.None? then Null else Str(TierName(state.tier.value))])
  }

  /** Writing a task and reading it back gives the same task. */
  method Encode(state: Stored) returns (value: Json)
    ensures Decode(value) == Some(state)
  {
    var items: seq<Json> := [];
    ghost var written: map<(string, string), nat> := map[];
    var todo := state.attempts.Keys;
    while todo != {}
      invariant todo <= state.attempts.Keys
      invariant ReadAttempts(items) == Some(written) && written.Keys == state.attempts.Keys - todo
      invariant forall p :: p in written ==> written[p] == state.attempts[p]
      decreases todo
    {
      var pair :| pair in todo;
      ReadsOneMore(items, pair, state.attempts[pair]);
      written := written[pair := state.attempts[pair]];
      items := items + [Triple(pair, state.attempts[pair])];
      todo := todo - {pair};
    }
    assert written == state.attempts;
    value := Encoded(state, items);
    DecodesEncoded(state, items);
  }

  lemma ReadsOneMore(items: seq<Json>, pair: (string, string), count: nat)
    requires ReadAttempts(items).Some?
    ensures ReadAttempts(items + [Triple(pair, count)]) == Some(ReadAttempts(items).value[pair := count])
  {
    assert (items + [Triple(pair, count)])[..|items|] == items;
  }

  lemma DecodesEncoded(state: Stored, items: seq<Json>)
    requires ReadAttempts(items) == Some(state.attempts)
    ensures Decode(Encoded(state, items)) == Some(state)
  {
    hide ReadAttempts;
  }
}
