/** What the calls on the registry do to it, and exactly when they succeed, told by what the manifests
    themselves declare. */
module RegistryEffects {
  import opened Scopes
  import opened Versions
  import opened Cycles
  import opened Registry

  // ----- which active sets are allowed -----

  /** The active capability at `a` depends on the one at `b`, and `b` is there in a version that will do. */
  predicate Uses(selected: map<string, Manifest>, a: string, b: string) {
    && a in selected && b in selected
    && exists d :: d in selected[a].dependencies && d.coordinate == b
                   && Satisfies(selected[b].identity.version, d.constraint)
  }

  /** Capabilities that use each other in a circle, the first one named again at the end. */
  ghost predicate Circle(selected: map<string, Manifest>, p: seq<string>) {
    |p| >= 2 && p[0] == p[|p| - 1] && forall i :: 0 <= i < |p| - 1 ==> Uses(selected, p[i], p[i + 1])
  }

  predicate Provided(selected: map<string, Manifest>, c: string, d: Dependency)
    requires c in selected
  {
    d in selected[c].dependencies && !d.optional ==>
      d.coordinate in selected && Satisfies(selected[d.coordinate].identity.version, d.constraint)
  }

  /** Every required dependency is provided, nothing runs in a circle, no claim is shared, and the
      projections resolve. */
  ghost predicate Allowed(policy: Policy, selected: map<string, Manifest>) {
    && (forall c, d :: c in selected ==> Provided(selected, c, d))
    && (forall p :: !Circle(selected, p))
    && (forall a, b, x :: a in selected && b in selected && x in selected[a].conflicts && x in selected[b].conflicts ==>
          a == b)
    && policy(selected.Values).Some?
  }

  lemma {:induction false} EdgesAreUses(selected: map<string, Manifest>, a: string, b: string)
    ensures Edge(GraphOf(selected), a, b) <==> Uses(selected, a, b)
  {
    if a in selected {
      TargetsAre(selected, selected[a].dependencies, b);
    }
    hide Satisfies;
  }

  lemma {:induction false} CirclesAreCycles(selected: map<string, Manifest>)
    ensures Cyclic(GraphOf(selected)) <==> exists p :: Circle(selected, p)
  {
    forall a, b ensures Edge(GraphOf(selected), a, b) <==> Uses(selected, a, b) {
      EdgesAreUses(selected, a, b);
    }
    hide Uses, GraphOf;
    if Cyclic(GraphOf(selected)) {
      var p :| ClosedWalk(GraphOf(selected), p);
      assert Circle(selected, p);
    }
    if p :| Circle(selected, p) {
      assert ClosedWalk(GraphOf(selected), p);
    }
  }

  /** A set of pointers passes validation exactly when what they select is allowed. */
  lemma {:induction false} ValidatedExactly(policy: Policy, revisions: Revisions, active: Pointers)
    ensures ActiveFault(policy, revisions, active).None? <==> Allowed(policy, Selected(revisions, active))
  {
    hide Satisfies, Circle, GraphOf, Selected, Provided, DependenciesMet;
    var selected := Selected(revisions, active);
    CirclesAreCycles(selected);
    MetMeansProvided(selected);
  }

  lemma {:induction false} MetMeansProvided(selected: map<string, Manifest>)
    ensures DependenciesMet(selected) <==> forall c, d :: c in selected ==> Provided(selected, c, d)
  {
    hide Satisfies;
    if forall c, d :: c in selected ==> Provided(selected, c, d) {
      forall c, d | c in selected && d in selected[c].dependencies && !d.optional ensures Usable(selected, d) {
        assert Provided(selected, c, d);
      }
    }
  }

  // ----- the calls -----

  /** Every pointer of `active` that is not excluded, with `c` pointing at `r`. */
  ghost predicate Repointed(active: Pointers, excluded: set<string>, c: string, r: string, active': Pointers) {
    && (forall b :: b in active' <==> (b in active || b == c) && b !in excluded)
    && (forall b :: b in active' ==> active'[b] == if b == c then r else active[b])
  }

  /** Activating a revision succeeds exactly when it is registered for the coordinate, which is not
      excluded, and what the pointers then select is allowed; then they point there. */
  lemma {:induction false} ActivateExactly(policy: Policy, reg: Reg, c: string, r: string, active': Pointers)
    requires Repointed(reg.active, reg.excluded, c, r, active')
    ensures var (reg', fault) := Activate(policy, reg, c, Some(r));
            && (fault.None? <==>
                  && !reg.frozen && SameCoordinate(reg.revisions, r, c) && c !in reg.excluded
                  && Allowed(policy, Selected(reg.revisions, active')))
            && (fault.None? ==> reg' == Reg(reg.revisions, active', reg.excluded, false))
            && (fault.Some? ==> reg' == reg)
            && (reg.frozen ==> fault == Some(Frozen))
  {
    assert Candidate(reg, c, r) == active';
    ValidatedExactly(policy, reg.revisions, active');
    hide ActiveFault, Allowed, Selected;
  }

  /** What is wrong with what the pointers select, if anything: the first thing of these. */
  ghost predicate WrongWith(policy: Policy, selected: map<string, Manifest>, fault: Fault) {
    match fault
    case DependencyUnmet => exists c, d :: c in selected && !Provided(selected, c, d)
    case DependencyCycle => (forall c, d :: c in selected ==> Provided(selected, c, d))
                            && exists p :: Circle(selected, p)
    case ConflictClaimed => (forall p :: !Circle(selected, p))
                            && exists a, b, x :: a in selected && b in selected && a != b
                                                 && x in selected[a].conflicts && x in selected[b].conflicts
    case ProjectionFailed => policy(selected.Values).None?
    case _ => false
  }

  lemma {:induction false} FaultIsWrong(policy: Policy, revisions: Revisions, active: Pointers)
    ensures var fault := ActiveFault(policy, revisions, active);
            fault.Some? ==> WrongWith(policy, Selected(revisions, active), fault.value)
  {
    var selected := Selected(revisions, active);
    CirclesAreCycles(selected);
    MetMeansProvided(selected);
    hide Satisfies, Circle, GraphOf, Selected, Provided, DependenciesMet;
  }

  /** Which refusal an activation gets: by what was named, or by what would then be selected. */
  lemma {:induction false} ActivationRefused(policy: Policy, reg: Reg, c: string, r: string, active': Pointers)
    requires Repointed(reg.active, reg.excluded, c, r, active') && !reg.frozen
    ensures var fault := Activate(policy, reg, c, Some(r)).1;
            var there := r in reg.revisions && reg.revisions[r].identity.Coordinate() == c;
      && (fault == Some(UnknownRevision) <==> r !in reg.revisions)
      && (fault == Some(CoordinateMismatch) <==> r in reg.revisions && !there)
      && (fault == Some(Excluded) <==> there && c in reg.excluded)
      && (there && c !in reg.excluded && fault.Some? ==>
            WrongWith(policy, Selected(reg.revisions, active'), fault.value))
  {
    assert Candidate(reg, c, r) == active';
    FaultIsWrong(policy, reg.revisions, active');
    hide ActiveFault, Selected, Circle, Provided;
  }

  ghost predicate Dropped(active: Pointers, c: string, active': Pointers) {
    && (forall b :: b in active' <==> b in active && b != c)
    && (forall b :: b in active' ==> active'[b] == active[b])
  }

  /** Deactivating takes away exactly that pointer, and succeeds exactly when the coordinate is active
      and what is left is allowed. */
  lemma {:induction false} DeactivateExactly(policy: Policy, reg: Reg, c: string, active': Pointers)
    requires Dropped(reg.active, c, active')
    ensures var (reg', fault) := Deactivate(policy, reg, c);
            && (fault.None? <==>
                  !reg.frozen && c in reg.active && Allowed(policy, Selected(reg.revisions, active')))
            && (fault.None? ==> reg' == Reg(reg.revisions, active', reg.excluded, false))
            && (fault.Some? ==> reg' == reg)
            && (fault == Some(Frozen) <==> reg.frozen)
            && (fault == Some(Inactive) <==> !reg.frozen && c !in reg.active)
            && (fault.Some? && !reg.frozen && c in reg.active ==>
                  WrongWith(policy, Selected(reg.revisions, active'), fault.value))
  {
    assert reg.active - {c} == active';
    ValidatedExactly(policy, reg.revisions, active');
    FaultIsWrong(policy, reg.revisions, active');
    hide ActiveFault, Allowed, Selected;
  }

  /** No two manifests of the batch, and none of the batch and of the registry, differ under one name. */
  predicate Unambiguous(revisions: Revisions, additions: seq<Manifest>) {
    && (forall m :: m in additions && m.identity.Revision() in revisions ==> revisions[m.identity.Revision()] == m)
    && (forall m, n :: m in additions && n in additions && m.identity.Revision() == n.identity.Revision() ==> m == n)
  }

  /** The earlier revisions and those of the batch, each under its own name, and no other. */
  ghost predicate Combined(revisions: Revisions, additions: seq<Manifest>, combined: Revisions) {
    && (forall r :: r in combined <==> r in revisions || exists m :: m in additions && m.identity.Revision() == r)
    && (forall r :: r in revisions ==> combined[r] == revisions[r])
    && (forall m :: m in additions ==> m.identity.Revision() in combined && combined[m.identity.Revision()] == m)
  }

  lemma {:induction false} StagedExactly(revisions: Revisions, additions: seq<Manifest>)
    ensures Staged(revisions, additions).Some? <==> Unambiguous(revisions, additions)
    ensures Staged(revisions, additions).Some? ==> Combined(revisions, additions, Staged(revisions, additions).value)
    decreases |additions|
  {
    hide Unambiguous, Combined;
    if |additions| > 0 {
      var first, r := additions[0], additions[0].identity.Revision();
      UnambiguousStep(revisions, additions);
      StagedExactly(revisions[r := first], additions[1..]);
      if Staged(revisions, additions).Some? {
        CombinedStep(revisions, additions, Staged(revisions, additions).value);
      }
    } else {
      NothingAdded(revisions);
    }
  }

  lemma NothingAdded(revisions: Revisions)
    ensures Unambiguous(revisions, []) && Combined(revisions, [], revisions)
  {
  }

  lemma {:induction false} CombinedStep(revisions: Revisions, additions: seq<Manifest>, combined: Revisions)
    requires |additions| > 0
    requires var first, r := additions[0], additions[0].identity.Revision();
             (r in revisions ==> revisions[r] == first) && Combined(revisions[r := first], additions[1..], combined)
    ensures Combined(revisions, additions, combined)
  {
    assert forall m :: m in additions <==> m == additions[0] || m in additions[1..];
  }

  lemma {:induction false} UnambiguousStep(revisions: Revisions, additions: seq<Manifest>)
    requires |additions| > 0
    ensures var first, r := additions[0], additions[0].identity.Revision();
            Unambiguous(revisions, additions) <==>
            (r in revisions ==> revisions[r] == first) && Unambiguous(revisions[r := first], additions[1..])
  {
    assert forall m :: m in additions <==> m == additions[0] || m in additions[1..];
  }

  lemma {:induction false} StagedIsCombined(revisions: Revisions, additions: seq<Manifest>, combined: Revisions)
    requires Combined(revisions, additions, combined)
    ensures Unambiguous(revisions, additions) && Staged(revisions, additions) == Some(combined)
  {
    assert Unambiguous(revisions, additions);
    StagedExactly(revisions, additions);
    var staged := Staged(revisions, additions).value;
    hide Unambiguous, Staged;
    forall r | r in staged ensures staged[r] == combined[r] {
      if r !in revisions {
        var m :| m in additions && m.identity.Revision() == r;
      }
    }
    assert staged == combined;
  }

  /** Registering an unambiguous batch succeeds exactly when the projections of the latest revisions
      resolve; then exactly the batch is added, the projections are those, and what is active stays. An
      ambiguous batch is refused as that. */
  lemma {:induction false} RegisterExactly(policy: Policy, reg: Reg, additions: seq<Manifest>, combined: Revisions)
    ensures var (reg', fault) := RegisterMany(policy, reg, additions);
            && (fault == Some(Frozen) <==> reg.frozen)
            && (fault == Some(DuplicateRevision) <==> !reg.frozen && !Unambiguous(reg.revisions, additions))
            && (Combined(reg.revisions, additions, combined) && !reg.frozen ==>
                  var excluded := policy(LatestManifests(combined));
                  && fault == (if excluded.None? then Some(ProjectionFailed) else None)
                  && (excluded.Some? ==> reg' == Reg(combined, reg.active, excluded.value, false)))
            && (fault.None? ==> Combined(reg.revisions, additions, reg'.revisions))
            && (fault.Some? ==> reg' == reg)
  {
    StagedExactly(reg.revisions, additions);
    hide Unambiguous, Staged, LatestManifests;
    if Combined(reg.revisions, additions, combined) {
      StagedIsCombined(reg.revisions, additions, combined);
    }
    hide Combined;
    if Staged(reg.revisions, additions).Some? {
      assert Combined(reg.revisions, additions, Staged(reg.revisions, additions).value);
    }
  }
}
