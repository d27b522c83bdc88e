/** Activating a whole catalog: try everything, keep what was refused, repeat until nothing moves. */
module Catalog {
  import opened Scopes
  import opened Versions
  import opened Cycles
  import opened Registry
  import opened CapabilityRegistries

  // ----- the least set of coordinates that support each other -----

  predicate Supported(all: map<string, Manifest>, have: seq<string>, c: string) {
    c in all && forall d :: d in all[c].dependencies ==>
      d.coordinate in have && d.coordinate in all && Satisfies(all[d.coordinate].identity.version, d.constraint)
  }

  /** Every entry finds its dependencies, in satisfying versions, further to the front. */
  predicate Derivation(all: map<string, Manifest>, order: seq<string>) {
    forall i :: 0 <= i < |order| ==> Supported(all, order[..i], order[i])
  }

  ghost predicate Derivable(all: map<string, Manifest>, c: string) {
    exists order :: Derivation(all, order) && c in order
  }

  ghost function LeastFixedPoint(all: map<string, Manifest>): set<string> {
    set c | c in all && Derivable(all, c)
  }

  /** Nothing outside `closed` is supported by it. */
  predicate ClosedUnder(all: map<string, Manifest>, closed: set<string>) {
    forall c | c in all && SupportedBy(all, closed, c) :: c in closed
  }

  predicate SupportedBy(all: map<string, Manifest>, have: set<string>, c: string)
    requires c in all
  {
    forall d :: d in all[c].dependencies ==>
      d.coordinate in have && d.coordinate in all && Satisfies(all[d.coordinate].identity.version, d.constraint)
  }

  lemma {:induction false} DerivationStays(all: map<string, Manifest>, order: seq<string>, closed: set<string>, i: nat)
    requires Derivation(all, order) && ClosedUnder(all, closed) && i < |order|
    ensures order[i] in closed
    decreases i
  {
    assert Supported(all, order[..i], order[i]);
    forall d | d in all[order[i]].dependencies ensures d.coordinate in closed {
      var j :| 0 <= j < i && order[j] == d.coordinate;
      DerivationStays(all, order, closed, j);
    }
  }

  /** It is the least set closed under support. */
  lemma {:induction false} LeastIsLeast(all: map<string, Manifest>, closed: set<string>)
    requires ClosedUnder(all, closed)
    ensures LeastFixedPoint(all) <= closed
  {
    forall c | c in LeastFixedPoint(all) ensures c in closed {
      var order :| Derivation(all, order) && c in order;
      var i :| 0 <= i < |order| && order[i] == c;
      DerivationStays(all, order, closed, i);
    }
  }

  lemma {:induction false} DerivationGrows(all: map<string, Manifest>, order: seq<string>, c: string)
    requires Derivation(all, order) && Supported(all, order, c)
    ensures Derivation(all, order + [c])
  {
    var longer := order + [c];
    forall i | 0 <= i < |longer| ensures Supported(all, longer[..i], longer[i]) {
      if i < |order| {
        assert Supported(all, order[..i], order[i]);
        assert longer[..i] == order[..i];
      } else {
        assert longer[..i] == order;
      }
    }
  }

  /** A derivation that nothing can extend has found the least fixed point. */
  lemma {:induction false} StuckIsLeast(all: map<string, Manifest>, order: seq<string>)
    requires Derivation(all, order)
    requires forall c :: c in all && c !in order ==> !Supported(all, order, c)
    ensures LeastFixedPoint(all) == set c | c in order
  {
    var found := set c | c in order;
    forall c | c in all && SupportedBy(all, found, c) ensures c in found {
      assert c !in order ==> Supported(all, order, c);
    }
    LeastIsLeast(all, found);
    forall c | c in found ensures c in LeastFixedPoint(all) {
      var i :| 0 <= i < |order| && order[i] == c;
      assert Supported(all, order[..i], order[i]);
      assert Derivable(all, c);
    }
  }

  lemma {:induction false} MaximalDerivation(all: map<string, Manifest>, order: seq<string>,
                                             found: set<string>) returns (longest: seq<string>)
    requires Derivation(all, order) && found == (set c | c in order) && found <= all.Keys
    ensures Derivation(all, longest) && forall c :: c in all && c !in longest ==> !Supported(all, longest, c)
    decreases all.Keys - found
  {
    if c :| c in all && c !in order && Supported(all, order, c) {
      DerivationGrows(all, order, c);
      longest := MaximalDerivation(all, order + [c], found + {c});
    } else {
      longest := order;
    }
  }

  /** It is a fixed point: its members are exactly the capabilities it supports. */
  lemma {:induction false} LeastIsFixed(all: map<string, Manifest>, c: string)
    requires c in all
    ensures c in LeastFixedPoint(all) <==> SupportedBy(all, LeastFixedPoint(all), c)
  {
    var longest := MaximalDerivation(all, [], {});
    StuckIsLeast(all, longest);
    if c in longest {
      var i :| 0 <= i < |longest| && longest[i] == c;
      assert Supported(all, longest[..i], longest[i]);
    }
    assert Supported(all, longest, c) <==> SupportedBy(all, LeastFixedPoint(all), c);
  }

  /** A capability that depends on itself is never part of it. */
  lemma {:induction false} NeverItsOwnSupport(all: map<string, Manifest>, c: string)
    requires c in all && exists d :: d in all[c].dependencies && d.coordinate == c
    ensures c !in LeastFixedPoint(all)
  {
    LeastIsLeast(all, all.Keys - {c});
  }

  // ----- when an activation succeeds -----

  predicate DistinctCoordinates(revisions: Revisions, pending: seq<string>) {
    && (forall r :: r in pending ==> r in revisions)
    && forall i, j :: 0 <= i < j < |pending| ==>
         revisions[pending[i]].identity.Coordinate() != revisions[pending[j]].identity.Coordinate()
  }

  /** The catalog, one registered revision per coordinate. */
  function Offered(revisions: Revisions, pending: seq<string>): map<string, Manifest>
    requires DistinctCoordinates(revisions, pending)
  {
    map r | r in pending :: revisions[r].identity.Coordinate() := revisions[r]
  }

  /** The part of the catalog that the projections do not exclude. */
  function Admitted(offered: map<string, Manifest>, excluded: set<string>): map<string, Manifest> {
    offered - excluded
  }

  /** No conflict claims, no optional dependencies, and projections that can be resolved for any of
      the manifests together. */
  ghost predicate Simple(policy: Policy, reg: Reg, all: map<string, Manifest>) {
    && (forall s :: s <= all.Values ==> policy(s).Some?)
    && forall c :: c in all ==>
      && c !in reg.excluded && |all[c].conflicts| == 0
      && all[c].identity.Coordinate() == c
      && all[c].identity.Revision() in reg.revisions && reg.revisions[all[c].identity.Revision()] == all[c]
      && forall d :: d in all[c].dependencies ==> !d.optional
  }

  /** The registry has activated exactly the entries of a derivation. */
  ghost predicate Reached(reg: Reg, all: map<string, Manifest>, order: seq<string>) {
    && !reg.frozen && Derivation(all, order)
    && reg.active.Keys == (set c | c in order)
    && forall c :: c in reg.active ==> c in all && reg.active[c] == all[c].identity.Revision()
  }

  function With(all: map<string, Manifest>, order: seq<string>, c: string): map<string, Manifest> {
    map b | b in all && (b in order || b == c) :: all[b]
  }

  lemma {:induction false} SelectedIs(policy: Policy, reg: Reg, all: map<string, Manifest>, order: seq<string>,
                                      c: string)
    requires Simple(policy, reg, all) && Reached(reg, all, order) && c in all && c !in order
    ensures Candidate(reg, c, all[c].identity.Revision()) == reg.active[c := all[c].identity.Revision()]
    ensures Selected(reg.revisions, reg.active[c := all[c].identity.Revision()]) == With(all, order, c)
  {
    hide Derivation, Supported;
  }

  lemma {:induction false} OrderIsTopological(all: map<string, Manifest>, order: seq<string>, selected: map<string,
                                              Manifest>)
    requires Derivation(all, order) && forall c :: c in order ==> c in selected && c in all && selected[c] == all[c]
    ensures Topological(GraphOf(selected), order)
  {
    forall i | 0 <= i < |order| ensures PointsBack(GraphOf(selected), order, i) {
      assert Supported(all, order[..i], order[i]);
      forall b | b in GraphOf(selected)[order[i]] ensures b in order[..i] {
        TargetsAre(selected, all[order[i]].dependencies, b);
      }
    }
  }

  lemma {:induction false} SupportedActivates(policy: Policy, reg: Reg, all: map<string, Manifest>, order: seq<string>,
                                              c: string)
    requires Simple(policy, reg, all) && Reached(reg, all, order) && c in all && c !in order && Supported(all, order, c)
    ensures ActiveFault(policy, reg.revisions, Candidate(reg, c, all[c].identity.Revision())).None?
  {
    hide Satisfies, Candidate;
    var selected := With(all, order, c);
    SelectedIs(policy, reg, all, order, c);
    DerivationGrows(all, order, c);
    OrderIsTopological(all, order + [c], selected);
    OrderedIsAcyclic(GraphOf(selected), order + [c]);
    forall b, d | b in selected && d in selected[b].dependencies && !d.optional ensures Usable(selected, d) {
      if b != c {
        var i :| 0 <= i < |order| && order[i] == b;
        assert Supported(all, order[..i], order[i]);
      }
    }
    assert ConflictFree(selected);
    assert selected.Values <= all.Values;
  }

  lemma {:induction false} UnsupportedFails(policy: Policy, reg: Reg, all: map<string, Manifest>, order: seq<string>,
                                            c: string)
    requires Simple(policy, reg, all) && Reached(reg, all, order) && c in all && c !in order &&
      !Supported(all, order, c)
    ensures ActiveFault(policy, reg.revisions, Candidate(reg, c, all[c].identity.Revision())).Some?
  {
    hide Satisfies, Derivation, Candidate, ConflictFree, Projected;
    var selected := With(all, order, c);
    SelectedIs(policy, reg, all, order, c);
    UnsupportedSelection(all, order, c);
    hide Simple, Reached, Supported, DependenciesMet, Cyclic, GraphOf, Selected, With;
  }

  lemma {:induction false} UnsupportedSelection(all: map<string, Manifest>, order: seq<string>, c: string)
    requires c in all && (forall d :: d in all[c].dependencies ==> !d.optional) && !Supported(all, order, c)
    ensures !DependenciesMet(With(all, order, c)) || Cyclic(GraphOf(With(all, order, c)))
  {
    hide Satisfies;
    var selected := With(all, order, c);
    var d :| d in all[c].dependencies &&
      !(d.coordinate in order && d.coordinate in all && Satisfies(all[d.coordinate].identity.version, d.constraint));
    assert c in selected && selected[c] == all[c];
    if Usable(selected, d) {
      assert d.coordinate == c;
      TargetsAre(selected, all[c].dependencies, c);
      assert Edge(GraphOf(selected), c, c);
      assert ClosedWalk(GraphOf(selected), [c, c]);
    } else {
      assert !DependenciesMet(selected);
    }
  }

  lemma {:induction false} ReachedGrows(reg: Reg, all: map<string, Manifest>, order: seq<string>, c: string)
    requires Reached(reg, all, order) && Supported(all, order, c)
    ensures Reached(reg.(active := reg.active[c := all[c].identity.Revision()]), all, order + [c])
  {
    DerivationGrows(all, order, c);
    hide Derivation;
  }

  lemma {:induction false} ActivationOutcome(policy: Policy, reg: Reg, all: map<string, Manifest>, order: seq<string>,
                                             c: string)
    requires Simple(policy, reg, all) && Reached(reg, all, order) && c in all && c !in order
    ensures var r := all[c].identity.Revision();
      if ActiveFault(policy, reg.revisions, Candidate(reg, c, r)).None? then
        Activate(policy, reg, c, Some(r)) == (reg.(active := reg.active[c := r]), None)
      else Activate(policy, reg, c, Some(r)).1.Some? && Activate(policy, reg, c, Some(r)).0 == reg
  {
    SelectedIs(policy, reg, all, order, c);
    hide ActiveFault, Derivation, Candidate;
  }

  /** Revision `r` is the one the catalog offers at its coordinate, or an excluded one. */
  predicate OfferedAt(reg: Reg, all: map<string, Manifest>, r: string) {
    && r in reg.revisions
    && var c := reg.revisions[r].identity.Coordinate();
       c in reg.excluded || (c in all && all[c].identity.Revision() == r)
  }

  /** An attempt succeeds exactly when the active set already supports the capability; an excluded
      one never does. */
  lemma {:induction false} AttemptDecides(policy: Policy, reg: Reg, all: map<string, Manifest>, order: seq<string>,
                                          r: string)
    requires Simple(policy, reg, all) && Reached(reg, all, order) && OfferedAt(reg, all, r)
    requires reg.revisions[r].identity.Coordinate() !in order
    ensures var c := reg.revisions[r].identity.Coordinate();
      if Supported(all, order, c) then Activate(policy, reg, c, Some(r)) == (reg.(active := reg.active[c := r]), None)
      else Activate(policy, reg, c, Some(r)).1.Some? && Activate(policy, reg, c, Some(r)).0 == reg
  {
    var c := reg.revisions[r].identity.Coordinate();
    if c in reg.excluded {
      assert c !in all;
      hide ActiveFault, Reached, Candidate;
    } else {
      ActivationOutcome(policy, reg, all, order, c);
      hide Activate, ActiveFault, Simple, Reached, Candidate;
      if Supported(all, order, c) {
        SupportedActivates(policy, reg, all, order, c);
      } else {
        UnsupportedFails(policy, reg, all, order, c);
      }
    }
  }

  // ----- the loop -----

  /** What is left to try, and what has been reached, make up the whole catalog. */
  ghost predicate Trying(policy: Policy, reg: Reg, all: map<string, Manifest>, order: seq<string>, left: seq<string>) {
    && Simple(policy, reg, all) && Reached(reg, all, order)
    && DistinctCoordinates(reg.revisions, left)
    && (forall r :: r in left ==> OfferedAt(reg, all, r) && reg.revisions[r].identity.Coordinate() !in order)
    && (forall c :: c in all ==> c in order || all[c].identity.Revision() in left)
  }

  /** None of these could be activated on top of `order`. */
  ghost predicate Refused(revisions: Revisions, all: map<string, Manifest>, order: seq<string>, tried: seq<string>) {
    forall r :: r in tried && r in revisions ==> !Supported(all, order, revisions[r].identity.Coordinate())
  }

  lemma RefusedToo(revisions: Revisions, all: map<string, Manifest>, order: seq<string>, tried: seq<string>, r: string)
    requires Refused(revisions, all, order, tried)
    requires r in revisions && !Supported(all, order, revisions[r].identity.Coordinate())
    ensures Refused(revisions, all, order, tried + [r])
  {
  }

  method TryOne(registry: CapabilityRegistry, remaining: seq<string>, waiting: seq<string>, i: nat,
                ghost simple: bool, ghost all: map<string, Manifest>, ghost order: seq<string>) returns (ok: bool)
    requires registry.Sound() && i < |waiting| && waiting[i] in registry.revisions
    requires simple ==> Trying(registry.policy, registry.Value(), all, order, remaining + waiting[i..])
    modifies registry`active
    ensures registry.Sound()
    ensures simple ==>
      var c := registry.revisions[waiting[i]].identity.Coordinate();
      if ok then Trying(registry.policy, registry.Value(), all, order + [c], remaining + waiting[i + 1..])
      else !Supported(all, order, c)
           && Trying(registry.policy, registry.Value(), all, order, remaining + [waiting[i]] + waiting[i + 1..])
  {
    if simple {
      NextAttempt(registry.policy, registry.Value(), all, order, remaining, waiting, i);
    }
    hide Trying, Activate, Supported;
    var fault := registry.ActivateCoordinate(registry.revisions[waiting[i]].identity.Coordinate(), Some(waiting[i]));
    ok := fault.None?;
  }

  /** One round over everything that is still waiting. */
  method TryAll(registry: CapabilityRegistry, waiting: seq<string>, refused: set<string>,
                ghost simple: bool, ghost all: map<string, Manifest>, ghost before: seq<string>)
    returns (remaining: seq<string>, progress: bool, failed: set<string>, ghost order: seq<string>)
    requires registry.Sound() && forall r :: r in waiting ==> r in registry.revisions
    requires simple ==> Trying(registry.policy, registry.Value(), all, before, waiting)
    modifies registry`active
    ensures registry.Sound() && forall r :: r in remaining ==> r in registry.revisions
    ensures progress ==> |remaining| < |waiting|
    ensures simple ==> Trying(registry.policy, registry.Value(), all, order, remaining)
    ensures simple && !progress ==> Refused(registry.revisions, all, order, remaining)
  {
    remaining, progress, failed, order := [], false, refused, before;
    ghost var left := waiting;
    assert Refused(registry.revisions, all, order, remaining);
    hide Trying, Supported, Refused, Valid, IndexOk, KindsOk;
    for i := 0 to |waiting|
      invariant registry.Sound() && forall r :: r in remaining ==> r in registry.revisions
      invariant |remaining| <= i && (progress ==> |remaining| < i)
      invariant left == remaining + waiting[i..]
      invariant simple ==> Trying(registry.policy, registry.Value(), all, order, left)
      invariant simple && !progress ==> Refused(registry.revisions, all, order, remaining)
    {
      var r := waiting[i];
      var ok := TryOne(registry, remaining, waiting, i, simple, all, order);
      if ok {
        failed := failed - {r};
        progress := true;
        order := order + [registry.revisions[r].identity.Coordinate()];
      } else {
        failed := failed + {r};
        if simple && !progress {
          RefusedToo(registry.revisions, all, order, remaining, r);
        }
        remaining := remaining + [r];
      }
      left := remaining + waiting[i + 1..];
    }
    assert left == remaining;
  }

  ghost predicate StartsSimple(policy: Policy, reg: Reg, pending: seq<string>) {
    DistinctCoordinates(reg.revisions, pending) && !reg.frozen && reg.active == map[]
    && Simple(policy, reg, Admitted(Offered(reg.revisions, pending), reg.excluded))
  }

  /** Whatever the order of `pending`, the outcome is the least fixed point of what is not excluded. */
  method ActivateCatalog(registry: CapabilityRegistry, pending: seq<string>) returns (failed: set<string>)
    requires registry.Sound() && forall r :: r in pending ==> r in registry.revisions
    modifies registry`active
    ensures registry.Sound()
    ensures old(StartsSimple(registry.policy, registry.Value(), pending)) ==>
      registry.active.Keys == LeastFixedPoint(Admitted(Offered(registry.revisions, pending), registry.excluded))
  {
    ghost var simple := StartsSimple(registry.policy, registry.Value(), pending);
    ghost var all := if simple then Admitted(Offered(registry.revisions, pending), registry.excluded) else map[];
    ghost var order: seq<string> := [];
    var waiting := pending;
    failed := {};
    if simple {
      StartTrying(registry.policy, registry.Value(), pending);
    }
    hide Trying, LeastFixedPoint, Simple, Offered, Admitted;
    while |waiting| > 0
      invariant registry.Sound() && forall r :: r in waiting ==> r in registry.revisions
      invariant simple ==> Trying(registry.policy, registry.Value(), all, order, waiting)
      decreases |waiting|
    {
      var remaining, progress;
      remaining, progress, failed, order := TryAll(registry, waiting, failed, simple, all, order);
      if !progress {
        if simple {
          NothingLeft(registry.policy, registry.Value(), all, order, remaining);
        }
        return;
      }
      waiting := remaining;
    }
    if simple {
      NothingLeft(registry.policy, registry.Value(), all, order, waiting);
    }
  }

  lemma StartTrying(policy: Policy, reg: Reg, pending: seq<string>)
    requires Valid(reg)
    requires StartsSimple(policy, reg, pending)
    ensures Trying(policy, reg, Admitted(Offered(reg.revisions, pending), reg.excluded), [], pending)
  {
  }

  lemma {:induction false} NextAttempt(policy: Policy, reg: Reg, all: map<string, Manifest>, order: seq<string>,
                                       remaining: seq<string>, waiting: seq<string>, i: nat)
    requires i < |waiting| && Trying(policy, reg, all, order, remaining + waiting[i..])
    ensures waiting[i] in reg.revisions
    ensures var c := reg.revisions[waiting[i]].identity.Coordinate();
            var (reg', fault) := Activate(policy, reg, c, Some(waiting[i]));
            && (fault.None? <==> Supported(all, order, c))
            && (fault.None? ==> Trying(policy, reg', all, order + [c], remaining + waiting[i + 1..]))
            && (fault.Some? ==>
                 reg' == reg && Trying(policy, reg, all, order, remaining + [waiting[i]] + waiting[i + 1..]))
  {
    var left := remaining + waiting[i..];
    assert left[|remaining|] == waiting[i];
    assert left == remaining + [waiting[i]] + waiting[i + 1..];
    var c := reg.revisions[waiting[i]].identity.Coordinate();
    AttemptDecides(policy, reg, all, order, waiting[i]);
    if Supported(all, order, c) {
      StillTrying(policy, reg, all, order, remaining, waiting, i);
    }
    hide Activate, Trying, Supported;
  }

  lemma {:induction false} StillTrying(policy: Policy, reg: Reg, all: map<string, Manifest>, order: seq<string>,
                                       remaining: seq<string>, waiting: seq<string>, i: nat)
    requires i < |waiting| && Trying(policy, reg, all, order, remaining + waiting[i..])
    requires waiting[i] in reg.revisions && Supported(all, order, reg.revisions[waiting[i]].identity.Coordinate())
    ensures var c := reg.revisions[waiting[i]].identity.Coordinate();
            Trying(policy, reg.(active := reg.active[c := waiting[i]]), all, order + [c], remaining + waiting[i + 1..])
  {
    hide Reached;
    var left := remaining + waiting[i..];
    assert left[|remaining|] == waiting[i];
    var c := reg.revisions[waiting[i]].identity.Coordinate();
    OneFewer(reg.revisions, remaining, waiting, i);
    ReachedGrows(reg, all, order, c);
    hide DistinctCoordinates;
    assert forall r :: r in left <==> r in remaining + waiting[i + 1..] || r == waiting[i];
  }

  lemma OneFewer(revisions: Revisions, remaining: seq<string>, waiting: seq<string>, i: nat)
    requires i < |waiting| && DistinctCoordinates(revisions, remaining + waiting[i..])
    ensures DistinctCoordinates(revisions, remaining + waiting[i + 1..])
    ensures forall r :: r in remaining + waiting[i + 1..] ==>
      r in revisions && revisions[r].identity.Coordinate() != revisions[waiting[i]].identity.Coordinate()
  {
    var left, fewer := remaining + waiting[i..], remaining + waiting[i + 1..];
    assert left[|remaining|] == waiting[i] && waiting[i] in left;
    forall k | 0 <= k < |fewer|
      ensures fewer[k] in left && fewer[k] == left[if k < |remaining| then k else k + 1]
      ensures revisions[fewer[k]].identity.Coordinate() != revisions[waiting[i]].identity.Coordinate()
    {
      var at := if k < |remaining| then k else k + 1;
      assert fewer[k] == left[at];
      assert at < |remaining| || at > |remaining|;
    }
  }

  lemma {:induction false} NothingLeft(policy: Policy, reg: Reg, all: map<string, Manifest>, order: seq<string>,
                                       left: seq<string>)
    requires Trying(policy, reg, all, order, left) && Refused(reg.revisions, all, order, left)
    ensures reg.active.Keys == LeastFixedPoint(all)
  {
    forall c | c in all && c !in order ensures !Supported(all, order, c) {
      assert all[c].identity.Revision() in left;
    }
    StuckIsLeast(all, order);
  }
}
