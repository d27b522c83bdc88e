/** Immutable capability revisions and the pointers that activate them. */
module Registry {
  import opened Scopes
  import opened Versions
  import opened Cycles

  datatype Identity = Identity(namespace: string, name: string, version: string, digest: string)
  {
    function Coordinate(): string {
      namespace + "/" + name
    }

    function Revision(): string {
      Coordinate() + "@" + version + "#" + digest
    }
  }

  datatype Dependency = Dependency(coordinate: string, constraint: string, optional: bool)
  datatype Claim = Claim(kind: string, value: string)

  /** `content` stands for everything in a manifest that the registry only stores. */
  datatype Manifest = Manifest(
    identity: Identity,
    kind: string,
    provider: string,
    source: string,
    dependencies: seq<Dependency>,
    conflicts: seq<Claim>,
    content: string)

  type Revisions = map<string, Manifest>
  type Pointers = map<string, string>

  /** The projection policy: which coordinates it excludes from a set of manifests, or a refusal. */
  type Policy = set<Manifest> -> Option<set<string>>

  datatype Reg = Reg(revisions: Revisions, active: Pointers, excluded: set<string>, frozen: bool)

  datatype Fault =
    | Frozen
    | DuplicateRevision
    | ProjectionFailed
    | UnknownCoordinate
    | UnknownRevision
    | CoordinateMismatch
    | Excluded
    | Inactive
    | DependencyUnmet
    | DependencyCycle
    | ConflictClaimed

  // ----- the active graph -----

  /** The manifests the pointers select. */
  function Selected(revisions: Revisions, active: Pointers): map<string, Manifest> {
    map c | c in active && active[c] in revisions :: revisions[active[c]]
  }

  predicate Usable(selected: map<string, Manifest>, d: Dependency) {
    d.coordinate in selected && Satisfies(selected[d.coordinate].identity.version, d.constraint)
  }

  predicate DependenciesMet(selected: map<string, Manifest>) {
    forall c, d :: c in selected && d in selected[c].dependencies && !d.optional ==> Usable(selected, d)
  }

  function Targets(selected: map<string, Manifest>, ds: seq<Dependency>): seq<string> {
    if |ds| == 0 then []
    else Targets(selected, ds[..|ds| - 1]) + (if Usable(selected, ds[|ds| - 1]) then [ds[|ds| - 1].coordinate] else [])
  }

  function GraphOf(selected: map<string, Manifest>): Graph {
    map c | c in selected :: Targets(selected, selected[c].dependencies)
  }

  lemma {:induction false} TargetsAre(selected: map<string, Manifest>, ds: seq<Dependency>, b: string)
    ensures b in Targets(selected, ds) <==> exists d :: d in ds && Usable(selected, d) && d.coordinate == b
  {
    if |ds| > 0 {
      TargetsAre(selected, ds[..|ds| - 1], b);
      assert ds == ds[..|ds| - 1] + [ds[|ds| - 1]];
      if b in Targets(selected, ds[..|ds| - 1]) {
        var d :| d in ds[..|ds| - 1] && Usable(selected, d) && d.coordinate == b;
        assert d in ds;
      }
      if exists d :: d in ds && Usable(selected, d) && d.coordinate == b {
        var d :| d in ds && Usable(selected, d) && d.coordinate == b;
        assert d in ds[..|ds| - 1] || d == ds[|ds| - 1];
      }
    }
  }

  lemma GraphIsClosed(selected: map<string, Manifest>)
    ensures Closed(GraphOf(selected))
  {
    forall a, b | Edge(GraphOf(selected), a, b) ensures b in GraphOf(selected) {
      TargetsAre(selected, selected[a].dependencies, b);
    }
  }

  predicate ConflictFree(selected: map<string, Manifest>) {
    forall a, b, x :: a in selected && b in selected && x in selected[a].conflicts && x in selected[b].conflicts ==>
      a == b
  }

  function Projected(policy: Policy, selected: map<string, Manifest>): Option<set<string>> {
    policy(selected.Values)
  }

  /** The first of the validations that a set of pointers does not pass. */
  ghost function ActiveFault(policy: Policy, revisions: Revisions, active: Pointers): Option<Fault> {
    var selected := Selected(revisions, active);
    if !DependenciesMet(selected) then Some(DependencyUnmet)
    else if Cyclic(GraphOf(selected)) then Some(DependencyCycle)
    else if !ConflictFree(selected) then Some(ConflictClaimed)
    else if Projected(policy, selected).None? then Some(ProjectionFailed)
    else None
  }

  // ----- latest revisions -----

  predicate Before(revisions: Revisions, a: string, b: string)
    requires a in revisions && b in revisions
  {
    RevisionLeq(revisions[a].identity.version, a, revisions[b].identity.version, b)
  }

  predicate SameCoordinate(revisions: Revisions, r: string, c: string) {
    r in revisions && revisions[r].identity.Coordinate() == c
  }

  ghost predicate Latest(revisions: Revisions, c: string, r: string) {
    SameCoordinate(revisions, r, c) && forall s :: SameCoordinate(revisions, s, c) ==> Before(revisions, s, r)
  }

  lemma LatestIsUnique(revisions: Revisions, c: string, r: string, s: string)
    requires Latest(revisions, c, r) && Latest(revisions, c, s)
    ensures r == s
  {
    RevisionOrder(revisions[r].identity.version, r, revisions[s].identity.version, s);
  }

  ghost function LatestOf(revisions: Revisions, c: string): Option<string> {
    if r :| Latest(revisions, c, r) then Some(r) else None
  }

  ghost function LatestManifests(revisions: Revisions): set<Manifest> {
    set r | r in revisions && Latest(revisions, revisions[r].identity.Coordinate(), r) :: revisions[r]
  }

  // ----- the calls -----

  function Staged(staged: Revisions, additions: seq<Manifest>): Option<Revisions>
    decreases |additions|
  {
    if |additions| == 0 then Some(staged)
    else
      var r := additions[0].identity.Revision();
      if r in staged && staged[r] != additions[0] then None
      else Staged(staged[r := additions[0]], additions[1..])
  }

  ghost function RegisterMany(policy: Policy, reg: Reg, additions: seq<Manifest>): (r: (Reg, Option<Fault>)) {
    if reg.frozen then (reg, Some(Frozen))
    else match Staged(reg.revisions, additions)
      case None => (reg, Some(DuplicateRevision))
      case Some(staged) =>
        match policy(LatestManifests(staged))
        case None => (reg, Some(ProjectionFailed))
        case Some(excluded) => (reg.(revisions := staged, excluded := excluded), None)
  }

  /** The pointers an activation would leave; pointers to excluded coordinates are dropped. */
  function Candidate(reg: Reg, c: string, r: string): Pointers {
    map b | b in reg.active.Keys + {c} && b !in reg.excluded :: if b == c then r else reg.active[b]
  }

  ghost function Chosen(reg: Reg, c: string, revision: Option<string>): Option<string> {
    if revision.Some? then revision else LatestOf(reg.revisions, c)
  }

  ghost function Activate(policy: Policy, reg: Reg, c: string, revision: Option<string>): (r: (Reg, Option<Fault>)) {
    if reg.frozen then (reg, Some(Frozen))
    else match Chosen(reg, c, revision)
      case None => (reg, Some(UnknownCoordinate))
      case Some(r) =>
        if r !in reg.revisions then (reg, Some(UnknownRevision))
        else if reg.revisions[r].identity.Coordinate() != c then (reg, Some(CoordinateMismatch))
        else if c in reg.excluded then (reg, Some(Excluded))
        else
          match ActiveFault(policy, reg.revisions, Candidate(reg, c, r))
          case Some(fault) => (reg, Some(fault))
          case None => (reg.(active := Candidate(reg, c, r)), None)
  }

  ghost function Deactivate(policy: Policy, reg: Reg, c: string): (r: (Reg, Option<Fault>)) {
    if reg.frozen then (reg, Some(Frozen))
    else if c !in reg.active then (reg, Some(Inactive))
    else
      match ActiveFault(policy, reg.revisions, reg.active - {c})
      case Some(fault) => (reg, Some(fault))
      case None => (reg.(active := reg.active - {c}), None)
  }

  datatype Call =
    | Registering(additions: seq<Manifest>)
    | Activating(coordinate: string, revision: Option<string>)
    | Deactivating(coordinate: string)
    | Freezing

  ghost function Apply(policy: Policy, reg: Reg, call: Call): (r: (Reg, Option<Fault>)) {
    match call
    case Registering(additions) => RegisterMany(policy, reg, additions)
    case Activating(c, r) => Activate(policy, reg, c, r)
    case Deactivating(c) => Deactivate(policy, reg, c)
    case Freezing => (reg.(frozen := true), None)
  }

  // ----- what every registry satisfies -----

  predicate Named(revisions: Revisions) {
    forall r :: r in revisions ==> revisions[r].identity.Revision() == r
  }

  predicate Pointed(revisions: Revisions, active: Pointers) {
    forall c :: c in active ==> SameCoordinate(revisions, active[c], c)
  }

  /** Complete, version-satisfied, acyclic and free of shared claims. */
  ghost predicate Consistent(selected: map<string, Manifest>) {
    DependenciesMet(selected) && !Cyclic(GraphOf(selected)) && ConflictFree(selected)
  }

  ghost predicate Valid(reg: Reg) {
    && Named(reg.revisions) && Pointed(reg.revisions, reg.active)
    && Consistent(Selected(reg.revisions, reg.active))
  }

  predicate Extends(old': Revisions, new': Revisions) {
    forall r :: r in old' ==> r in new' && new'[r] == old'[r]
  }

  lemma {:induction false} StagedExtends(staged: Revisions, additions: seq<Manifest>)
    requires Named(staged)
    ensures Staged(staged, additions).Some? ==>
      && Named(Staged(staged, additions).value) && Extends(staged, Staged(staged, additions).value)
      && forall m :: m in additions ==>
           m.identity.Revision() in Staged(staged, additions).value &&
             Staged(staged, additions).value[m.identity.Revision()] == m
    decreases |additions|
  {
    if |additions| > 0 {
      var m := additions[0];
      if !(m.identity.Revision() in staged && staged[m.identity.Revision()] != m) {
        StagedExtends(staged[m.identity.Revision() := m], additions[1..]);
        assert additions == [m] + additions[1..];
      }
    }
  }

  lemma SelectedStays(revisions: Revisions, more: Revisions, active: Pointers)
    requires Extends(revisions, more) && Pointed(revisions, active)
    ensures Selected(more, active) == Selected(revisions, active)
  {
  }

  lemma NothingActive(revisions: Revisions)
    ensures Consistent(Selected(revisions, map[]))
  {
    OrderedIsAcyclic(GraphOf(Selected(revisions, map[])), []);
  }

  /** Every call keeps the registry consistent, never changes a stored manifest, and changes
      nothing at all when it is refused. */
  lemma {:induction false} CallKeeps(policy: Policy, reg: Reg, call: Call)
    requires Valid(reg)
    ensures var (reg', fault) := Apply(policy, reg, call);
            && Valid(reg') && Extends(reg.revisions, reg'.revisions)
            && (fault.Some? ==> reg' == reg)
            && (reg.frozen ==> reg' == reg)
  {
    hide RegisterMany, Activate, Deactivate, Valid, Extends;
    match call
    case Registering(additions) => RegisterKeeps(policy, reg, additions);
    case Activating(c, r) => ActivateKeeps(policy, reg, c, r);
    case Deactivating(c) => DeactivateKeeps(policy, reg, c);
    case Freezing => FreezeKeeps(reg);
  }

  lemma FreezeKeeps(reg: Reg)
    requires Valid(reg)
    ensures Valid(reg.(frozen := true)) && Extends(reg.revisions, reg.revisions)
    ensures reg.frozen ==> reg.(frozen := true) == reg
  {
  }

  lemma {:induction false} RegisterKeeps(policy: Policy, reg: Reg, additions: seq<Manifest>)
    requires Valid(reg)
    ensures var (reg', fault) := RegisterMany(policy, reg, additions);
            && Valid(reg') && Extends(reg.revisions, reg'.revisions) && reg'.active == reg.active
            && (fault.Some? ==> reg' == reg) && (reg.frozen ==> reg' == reg)
  {
    StagedExtends(reg.revisions, additions);
    hide Consistent, Staged, LatestManifests;
    if Staged(reg.revisions, additions).Some? {
      SelectedStays(reg.revisions, Staged(reg.revisions, additions).value, reg.active);
    }
  }

  lemma {:induction false} DeactivateKeeps(policy: Policy, reg: Reg, c: string)
    requires Valid(reg)
    ensures var (reg', fault) := Deactivate(policy, reg, c);
            && Valid(reg') && Extends(reg.revisions, reg'.revisions)
            && (fault.Some? ==> reg' == reg) && (reg.frozen ==> reg' == reg)
  {
    hide Cyclic, ConflictFree, DependenciesMet, GraphOf;
  }

  lemma {:induction false} ActivateKeeps(policy: Policy, reg: Reg, c: string, revision: Option<string>)
    requires Valid(reg)
    ensures var (reg', fault) := Activate(policy, reg, c, revision);
            && Valid(reg') && Extends(reg.revisions, reg'.revisions)
            && (fault.Some? ==> reg' == reg) && (reg.frozen ==> reg' == reg)
  {
    hide Cyclic, ConflictFree, DependenciesMet, GraphOf, LatestOf;
  }

  /** A successful activation points the coordinate at the chosen revision, and every other pointer
      stays unless the policy has come to exclude it. */
  lemma {:induction false} ActivationPoints(policy: Policy, reg: Reg, c: string, revision: Option<string>)
    requires Valid(reg)
    ensures Activate(policy, reg, c, revision).1.None? ==>
      var reg' := Activate(policy, reg, c, revision).0;
      && c in reg'.active && reg'.active[c] in reg.revisions
      && Chosen(reg, c, revision) == Some(reg'.active[c])
      && forall b :: b in reg.active && b != c && b !in reg.excluded ==>
        b in reg'.active && reg'.active[b] == reg.active[b]
  {
    hide Cyclic, ConflictFree, DependenciesMet, GraphOf, LatestOf;
  }

  // ----- runs -----

  ghost function Run(policy: Policy, reg: Reg, calls: seq<Call>): Reg
    decreases |calls|
  {
    if |calls| == 0 then reg else Run(policy, Apply(policy, reg, calls[0]).0, calls[1..])
  }

  lemma {:induction false} RunKeeps(policy: Policy, reg: Reg, calls: seq<Call>)
    requires Valid(reg)
    ensures Valid(Run(policy, reg, calls)) && Extends(reg.revisions, Run(policy, reg, calls).revisions)
    decreases |calls|
  {
    if |calls| > 0 {
      CallKeeps(policy, reg, calls[0]);
      hide Apply, Valid;
      RunKeeps(policy, Apply(policy, reg, calls[0]).0, calls[1..]);
    }
  }

  function Empty(excluded: set<string>): Reg {
    Reg(map[], map[], excluded, false)
  }

  /** What a reader of any registry may rely on. */
  lemma {:induction false} ReachableRegistry(policy: Policy, excluded: set<string>, calls: seq<Call>)
    ensures var reg := Run(policy, Empty(excluded), calls);
            var selected := Selected(reg.revisions, reg.active);
      && (forall c :: c in reg.active ==> c in selected && selected[c].identity.Coordinate() == c)
      && (forall c, d :: c in selected && d in selected[c].dependencies && !d.optional ==>
            d.coordinate in selected && Satisfies(selected[d.coordinate].identity.version, d.constraint))
      && !Cyclic(GraphOf(selected))
      && ConflictFree(selected)
  {
    NothingActive(map[]);
    RunKeeps(policy, Empty(excluded), calls);
    hide Run, Cyclic, Satisfies, GraphOf, ConflictFree;
    var reg := Run(policy, Empty(excluded), calls);
    var selected := Selected(reg.revisions, reg.active);
    forall c, d | c in selected && d in selected[c].dependencies && !d.optional
      ensures d.coordinate in selected && Satisfies(selected[d.coordinate].identity.version, d.constraint)
    {
      assert Usable(selected, d);
    }
  }

  /** A stored revision means the same manifest for ever. */
  lemma {:induction false} RevisionsAreImmutable(policy: Policy, excluded: set<string>, before: seq<Call>,
                                                 after: seq<Call>, r: string)
    requires r in Run(policy, Empty(excluded), before).revisions
    ensures var mid := Run(policy, Empty(excluded), before);
            var end := Run(policy, mid, after);
            r in end.revisions && end.revisions[r] == mid.revisions[r]
  {
    NothingActive(map[]);
    RunKeeps(policy, Empty(excluded), before);
    RunKeeps(policy, Run(policy, Empty(excluded), before), after);
    hide Run, Valid;
  }
}
