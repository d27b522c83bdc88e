/** The registry as an object: stored revisions, activation pointers, and two indexes that are
    rebuilt after every registration. */
module CapabilityRegistries {
  import opened Scopes
  import opened Versions
  import opened Cycles
  import opened Registry

  // ----- grouping and ordering revisions -----

  predicate Groups(revisions: Revisions, groups: map<string, seq<string>>, todo: set<string>) {
    && (forall c :: c in groups ==> |groups[c]| > 0 && NoRepeats(groups[c]))
    && (forall c, r :: c in groups && r in groups[c] ==> r !in todo && SameCoordinate(revisions, r, c))
    && (forall r :: r in revisions && r !in todo ==>
          revisions[r].identity.Coordinate() in groups && r in groups[revisions[r].identity.Coordinate()])
  }

  method GroupByCoordinate(revisions: Revisions) returns (groups: map<string, seq<string>>)
    ensures Groups(revisions, groups, {})
  {
    groups := map[];
    var todo := revisions.Keys;
    while todo != {}
      invariant todo <= revisions.Keys && Groups(revisions, groups, todo)
      decreases todo
    {
      var r :| r in todo;
      var c := revisions[r].identity.Coordinate();
      var items := if c in groups then groups[c] else [];
      groups := groups[c := items + [r]];
      todo := todo - {r};
    }
  }

  /** The greatest of some revisions of one coordinate. */
  method MaxRevision(revisions: Revisions, items: seq<string>) returns (best: string)
    requires |items| > 0 && forall r :: r in items ==> r in revisions
    ensures best in items && forall r :: r in items ==> Before(revisions, r, best)
  {
    hide RevisionLeq;
    best := items[0];
    RevisionOrder(revisions[best].identity.version, best, revisions[best].identity.version, best);
    for i := 1 to |items|
      invariant best in items
      invariant forall j :: 0 <= j < i ==> Before(revisions, items[j], best)
    {
      var next := items[i];
      RevisionOrder(revisions[best].identity.version, best, revisions[next].identity.version, next);
      RevisionOrder(revisions[next].identity.version, next, revisions[next].identity.version, next);
      if Before(revisions, best, next) {
        forall j | 0 <= j < i ensures Before(revisions, items[j], next) {
          RevisionTransitive(revisions[items[j]].identity.version, items[j], revisions[best].identity.version, best,
                             revisions[next].identity.version, next);
        }
        best := next;
      }
    }
  }

  predicate InOrder(revisions: Revisions, items: seq<string>) {
    && (forall r :: r in items ==> r in revisions)
    && forall i, j :: 0 <= i < j < |items| ==> Before(revisions, items[i], items[j]) && items[i] != items[j]
  }

  function Insert(revisions: Revisions, items: seq<string>, r: string): seq<string>
    requires r in revisions && forall s :: s in items ==> s in revisions
  {
    if |items| == 0 then [r]
    else if Before(revisions, r, items[0]) then [r] + items
    else [items[0]] + Insert(revisions, items[1..], r)
  }

  /** What comes before all of an ordered list may stand in front of it. */
  lemma InFront(revisions: Revisions, first: string, rest: seq<string>)
    requires InOrder(revisions, rest) && first in revisions
    requires forall s :: s in rest ==> Before(revisions, first, s) && s != first
    ensures InOrder(revisions, [first] + rest)
  {
    hide Before;
  }

  lemma {:induction false} InsertKeepsOrder(revisions: Revisions, items: seq<string>, r: string)
    requires InOrder(revisions, items) && r in revisions && r !in items
    ensures InOrder(revisions, Insert(revisions, items, r))
    ensures forall s :: s in Insert(revisions, items, r) <==> s in items || s == r
    ensures |Insert(revisions, items, r)| == |items| + 1
  {
    hide RevisionLeq;
    if |items| > 0 {
      RevisionOrder(revisions[r].identity.version, r, revisions[items[0]].identity.version, items[0]);
      if Before(revisions, r, items[0]) {
        forall s | s in items ensures Before(revisions, r, s) {
          if s != items[0] {
            var j :| 1 <= j < |items| && items[j] == s;
            RevisionTransitive(revisions[r].identity.version, r, revisions[items[0]].identity.version, items[0],
                               revisions[s].identity.version, s);
          }
        }
        InFront(revisions, r, items);
      } else {
        InsertKeepsOrder(revisions, items[1..], r);
        var rest := Insert(revisions, items[1..], r);
        forall s | s in rest ensures Before(revisions, items[0], s) && s != items[0] {
          if s != r {
            var j :| 1 <= j < |items| && items[j] == s;
          }
        }
        InFront(revisions, items[0], rest);
        assert items == [items[0]] + items[1..];
      }
    }
  }

  function Sorted(revisions: Revisions, items: seq<string>): seq<string>
    requires forall r :: r in items ==> r in revisions
    ensures forall s :: s in Sorted(revisions, items) ==> s in revisions
  {
    if |items| == 0 then []
    else
      var rest := Sorted(revisions, items[1..]);
      InsertStays(revisions, rest, items[0]);
      Insert(revisions, rest, items[0])
  }

  lemma {:induction false} InsertStays(revisions: Revisions, items: seq<string>, r: string)
    requires r in revisions && forall s :: s in items ==> s in revisions
    ensures forall s :: s in Insert(revisions, items, r) ==> s in revisions
  {
    if |items| > 0 && !Before(revisions, r, items[0]) {
      InsertStays(revisions, items[1..], r);
    }
  }

  lemma {:induction false} SortedIsOrdered(revisions: Revisions, items: seq<string>)
    requires NoRepeats(items) && forall r :: r in items ==> r in revisions
    ensures InOrder(revisions, Sorted(revisions, items))
    ensures forall s :: s in Sorted(revisions, items) <==> s in items
    ensures |Sorted(revisions, items)| == |items|
  {
    if |items| > 0 {
      SortedIsOrdered(revisions, items[1..]);
      assert items[0] !in items[1..];
      InsertKeepsOrder(revisions, Sorted(revisions, items[1..]), items[0]);
      assert items == [items[0]] + items[1..];
    }
  }

  // ----- validation -----

  predicate MetOutside(selected: map<string, Manifest>, todo: set<string>) {
    forall c, d :: c in selected && c !in todo && d in selected[c].dependencies && !d.optional ==> Usable(selected, d)
  }

  /** The edges out of one manifest; `ok` is false as soon as a required dependency is unusable. */
  method CollectTargets(selected: map<string, Manifest>, ds: seq<Dependency>) returns (targets: seq<string>, ok: bool)
    ensures ok <==> forall d :: d in ds && !d.optional ==> Usable(selected, d)
    ensures ok ==> targets == Targets(selected, ds)
  {
    targets := [];
    for i := 0 to |ds|
      invariant targets == Targets(selected, ds[..i])
      invariant forall j :: 0 <= j < i && !ds[j].optional ==> Usable(selected, ds[j])
    {
      assert ds[..i + 1][..i] == ds[..i];
      if Usable(selected, ds[i]) {
        targets := targets + [ds[i].coordinate];
      } else if !ds[i].optional {
        return targets, false;
      }
    }
    assert ds[..|ds|] == ds;
    ok := true;
  }

  method ListOf(items: set<string>) returns (list: seq<string>)
    ensures forall x :: x in list <==> x in items
  {
    list := [];
    var todo := items;
    while todo != {}
      invariant todo <= items && forall x :: x in list <==> x in items && x !in todo
      decreases todo
    {
      var x :| x in todo;
      list := list + [x];
      todo := todo - {x};
    }
  }

  method ValidateDependencies(selected: map<string, Manifest>) returns (fault: Option<Fault>)
    ensures fault == if !DependenciesMet(selected) then Some(DependencyUnmet)
                     else if Cyclic(GraphOf(selected)) then Some(DependencyCycle) else None
  {
    var graph: Graph := map[];
    var todo := selected.Keys;
    while todo != {}
      invariant todo <= selected.Keys && MetOutside(selected, todo)
      invariant graph == map c | c in selected && c !in todo :: Targets(selected, selected[c].dependencies)
      decreases todo
    {
      var c :| c in todo;
      var targets, ok := CollectTargets(selected, selected[c].dependencies);
      if !ok {
        return Some(DependencyUnmet);
      }
      graph := graph[c := targets];
      todo := todo - {c};
    }
    assert graph == GraphOf(selected);
    GraphIsClosed(selected);
    var nodes := ListOf(graph.Keys);
    var finder := new CycleFinder(graph);
    var cycle := finder.Search(nodes);
    fault := if cycle.Some? then Some(DependencyCycle) else None;
  }

  predicate ClaimsOk(selected: map<string, Manifest>, claims: map<Claim, string>, todo: set<string>) {
    && (forall x :: x in claims ==> claims[x] in selected && x in selected[claims[x]].conflicts && claims[x] !in todo)
    && (forall c, x :: c in selected && c !in todo && x in selected[c].conflicts ==> x in claims && claims[x] == c)
  }

  /** Claims every value for `c`; stops at one that somebody else holds. */
  method ClaimAll(before: map<Claim, string>, c: string, wanted: seq<Claim>)
    returns (claims: map<Claim, string>, clash: Option<Claim>)
    requires forall x :: x in before ==> before[x] != c
    ensures clash.Some? ==> clash.value in wanted && clash.value in before
    ensures clash.None? ==>
      && (forall x :: x in wanted ==> x !in before)
      && (forall x :: x in claims <==> x in before || x in wanted)
      && (forall x :: x in claims ==> claims[x] == if x in wanted then c else before[x])
  {
    claims := before;
    for i := 0 to |wanted|
      invariant forall x :: x in claims <==> x in before || x in wanted[..i]
      invariant forall x :: x in claims ==> claims[x] == if x in wanted[..i] then c else before[x]
      invariant forall x :: x in wanted[..i] ==> x !in before
    {
      var x := wanted[i];
      if x in claims && claims[x] != c {
        return claims, Some(x);
      }
      claims := claims[x := c];
    }
    assert wanted[..|wanted|] == wanted;
    clash := None;
  }

  method ValidateConflicts(selected: map<string, Manifest>) returns (ok: bool)
    ensures ok <==> ConflictFree(selected)
  {
    var claims: map<Claim, string> := map[];
    var todo := selected.Keys;
    while todo != {}
      invariant todo <= selected.Keys && ClaimsOk(selected, claims, todo)
      decreases todo
    {
      var c :| c in todo;
      var next, clash := ClaimAll(claims, c, selected[c].conflicts);
      if clash.Some? {
        assert clash.value in selected[claims[clash.value]].conflicts && clash.value in selected[c].conflicts;
        return false;
      }
      claims := next;
      todo := todo - {c};
    }
    NoSharedClaims(selected, claims);
    ok := true;
  }

  lemma NoSharedClaims(selected: map<string, Manifest>, claims: map<Claim, string>)
    requires ClaimsOk(selected, claims, {})
    ensures ConflictFree(selected)
  {
    forall a, b, x | a in selected && b in selected && x in selected[a].conflicts && x in selected[b].conflicts
      ensures a == b
    {
      assert x in claims && claims[x] == a && claims[x] == b;
    }
  }

  // ----- the registry -----

  ghost predicate IndexOk(revisions: Revisions, index: map<string, seq<string>>) {
    && (forall c :: c in index ==> |index[c]| > 0 && InOrder(revisions, index[c]))
    && (forall c, r :: SameCoordinate(revisions, r, c) <==> c in index && r in index[c])
  }

  ghost predicate KindsOk(revisions: Revisions, kinds: map<string, set<string>>) {
    forall k :: KindIn(kinds, k) == OfKind(revisions, {}, k)
  }

  function OfKind(revisions: Revisions, todo: set<string>, k: string): set<string> {
    set r | r in revisions && r !in todo && revisions[r].kind == k
  }

  function KindIn(kinds: map<string, set<string>>, k: string): set<string> {
    if k in kinds then kinds[k] else {}
  }

  /** The greatest revision of every coordinate. */
  method SelectLatest(revisions: Revisions) returns (selected: set<Manifest>)
    ensures selected == LatestManifests(revisions)
  {
    var groups := GroupByCoordinate(revisions);
    var latest: set<string> := {};
    var todo := groups.Keys;
    while todo != {}
      invariant todo <= groups.Keys
      invariant forall r :: r in latest <==>
        exists c :: c in groups && c !in todo && Latest(revisions, c, r)
      decreases todo
    {
      var c :| c in todo;
      GroupIsAll(revisions, groups, c);
      assert forall r :: r in groups[c] ==> SameCoordinate(revisions, r, c);
      var best := MaxRevision(revisions, groups[c]);
      assert Latest(revisions, c, best);
      forall r | Latest(revisions, c, r) ensures r == best {
        LatestIsUnique(revisions, c, r, best);
      }
      latest := latest + {best};
      todo := todo - {c};
    }
    forall r ensures r in latest <==> r in revisions && Latest(revisions, revisions[r].identity.Coordinate(), r) {
    }
    selected := set r | r in latest :: revisions[r];
  }

  lemma GroupIsAll(revisions: Revisions, groups: map<string, seq<string>>, c: string)
    requires Groups(revisions, groups, {})
    ensures forall r :: SameCoordinate(revisions, r, c) <==> c in groups && r in groups[c]
  {
  }

  /** Adds the manifests one by one; a different manifest under a taken revision stops it. */
  method StageAll(revisions: Revisions, additions: seq<Manifest>) returns (staged: Option<Revisions>)
    ensures staged == Staged(revisions, additions)
  {
    var current := revisions;
    assert additions[0..] == additions;
    for i := 0 to |additions|
      invariant Staged(revisions, additions) == Staged(current, additions[i..])
    {
      var r := additions[i].identity.Revision();
      assert additions[i..][1..] == additions[i + 1..];
      if r in current && current[r] != additions[i] {
        return None;
      }
      current := current[r := additions[i]];
    }
    staged := Some(current);
  }

  method SortGroups(revisions: Revisions, groups: map<string, seq<string>>) returns (sorted: map<string, seq<string>>)
    requires Groups(revisions, groups, {})
    ensures IndexOk(revisions, sorted)
  {
    sorted := map[];
    var todo := groups.Keys;
    while todo != {}
      invariant todo <= groups.Keys && sorted.Keys == groups.Keys - todo
      invariant forall c :: c in sorted ==> |sorted[c]| > 0 && InOrder(revisions, sorted[c])
      invariant forall c, r :: c in sorted ==> (r in sorted[c] <==> r in groups[c])
      decreases todo
    {
      var c :| c in todo;
      assert forall r :: r in groups[c] ==> SameCoordinate(revisions, r, c);
      SortedIsOrdered(revisions, groups[c]);
      sorted := sorted[c := Sorted(revisions, groups[c])];
      todo := todo - {c};
    }
    forall c, r ensures SameCoordinate(revisions, r, c) <==> c in sorted && r in sorted[c] {
      GroupIsAll(revisions, groups, c);
    }
  }

  method GroupByKind(revisions: Revisions) returns (byKind: map<string, set<string>>)
    ensures KindsOk(revisions, byKind)
  {
    byKind := map[];
    var todo := revisions.Keys;
    while todo != {}
      invariant todo <= revisions.Keys
      invariant forall k :: KindIn(byKind, k) == OfKind(revisions, todo, k)
      decreases todo
    {
      var r :| r in todo;
      var own := revisions[r].kind;
      ghost var before := byKind;
      byKind := byKind[own := KindIn(byKind, own) + {r}];
      forall k ensures KindIn(byKind, k) == OfKind(revisions, todo - {r}, k) {
        assert KindIn(before, k) == OfKind(revisions, todo, k);
      }
      todo := todo - {r};
    }
  }

  /** The coordinate lists are sorted by revision order, the kind sets are filters. */
  method BuildIndexes(revisions: Revisions) returns (byCoordinate: map<string, seq<string>>, byKind: map<string,
                      set<string>>)
    ensures IndexOk(revisions, byCoordinate) && KindsOk(revisions, byKind)
  {
    var groups := GroupByCoordinate(revisions);
    byCoordinate := SortGroups(revisions, groups);
    byKind := GroupByKind(revisions);
  }

  class CapabilityRegistry {
    const policy: Policy
    var revisions: Revisions
    var byCoordinate: map<string, seq<string>>
    var byKind: map<string, set<string>>
    var active: Pointers
    var excluded: set<string>
    var frozen: bool

    ghost function Value(): Reg
      reads this
    {
      Reg(revisions, active, excluded, frozen)
    }

    /** The stored graph is consistent and the indexes are exactly the filters of the revisions. */
    ghost predicate Sound()
      reads this
    {
      Valid(Value()) && IndexOk(revisions, byCoordinate) && KindsOk(revisions, byKind)
    }

    constructor (policy: Policy)
      requires policy({}).Some?
      ensures Sound() && Value() == Empty(policy({}).value) && this.policy == policy
    {
      this.policy := policy;
      revisions, byCoordinate, byKind, active := map[], map[], map[], map[];
      excluded, frozen := policy({}).value, false;
      NothingActive(map[]);
    }

    method Freeze()
      requires Sound()
      modifies this`frozen
      ensures Value() == old(Value()).(frozen := true) && Sound()
    {
      frozen := true;
    }

    method RegisterAll(additions: seq<Manifest>) returns (fault: Option<Fault>)
      requires Sound()
      modifies this`revisions, this`byCoordinate, this`byKind, this`excluded
      ensures (Value(), fault) == RegisterMany(policy, old(Value()), additions)
      ensures Sound()
    {
      RegisterKeeps(policy, Value(), additions);
      hide Valid, LatestManifests;
      if frozen {
        return Some(Frozen);
      }
      var staged := StageAll(revisions, additions);
      if staged.None? {
        return Some(DuplicateRevision);
      }
      var selected := SelectLatest(staged.value);
      var resolution := policy(selected);
      if resolution.None? {
        return Some(ProjectionFailed);
      }
      revisions := staged.value;
      byCoordinate, byKind := BuildIndexes(revisions);
      excluded := resolution.value;
      fault := None;
    }

    method ValidateActive(candidate: Pointers) returns (fault: Option<Fault>)
      ensures fault == ActiveFault(policy, revisions, candidate)
    {
      var selected := Selected(revisions, candidate);
      fault := ValidateDependencies(selected);
      hide DependenciesMet, Cyclic, ConflictFree;
      if fault.None? {
        var ok := ValidateConflicts(selected);
        if !ok {
          return Some(ConflictClaimed);
        }
        if policy(selected.Values).None? {
          return Some(ProjectionFailed);
        }
      }
    }

    /** Without a revision, the greatest registered one of the coordinate is taken. */
    method ActivateCoordinate(c: string, revision: Option<string>) returns (fault: Option<Fault>)
      requires Sound()
      modifies this`active
      ensures (Value(), fault) == Activate(policy, old(Value()), c, revision)
      ensures Sound()
    {
      ActivateKeeps(policy, Value(), c, revision);
      hide Valid, ActiveFault, Extends, Candidate, Pointed;
      if frozen {
        return Some(Frozen);
      }
      var chosen := revision;
      if chosen.None? {
        chosen := ActiveCandidate(c);
        if chosen.None? {
          return Some(UnknownCoordinate);
        }
      }
      fault := PointAt(c, chosen.value);
    }

    method PointAt(c: string, r: string) returns (fault: Option<Fault>)
      requires !frozen
      modifies this`active
      ensures (Value(), fault) == Activate(policy, old(Value()), c, Some(r))
    {
      hide ActiveFault;
      if r !in revisions {
        return Some(UnknownRevision);
      }
      if revisions[r].identity.Coordinate() != c {
        return Some(CoordinateMismatch);
      }
      if c in excluded {
        return Some(Excluded);
      }
      var pointed := active[c := r];
      var candidate := map b | b in pointed && b !in excluded :: pointed[b];
      assert candidate == Candidate(Value(), c, r);
      fault := ValidateActive(candidate);
      if fault.None? {
        active := candidate;
      }
    }

    method ActiveCandidate(c: string) returns (chosen: Option<string>)
      requires Sound()
      ensures chosen == LatestOf(revisions, c)
    {
      chosen := None;
      if c in byCoordinate {
        var best := MaxRevision(revisions, byCoordinate[c]);
        assert Latest(revisions, c, best);
        forall r | Latest(revisions, c, r) ensures r == best {
          LatestIsUnique(revisions, c, r, best);
        }
        chosen := Some(best);
      }
    }

    method DeactivateCoordinate(c: string) returns (fault: Option<Fault>)
      requires Sound()
      modifies this`active
      ensures (Value(), fault) == Deactivate(policy, old(Value()), c)
      ensures Sound()
    {
      DeactivateKeeps(policy, Value(), c);
      hide Valid, ActiveFault;
      if frozen {
        return Some(Frozen);
      }
      if c !in active {
        return Some(Inactive);
      }
      fault := ValidateActive(active - {c});
      if fault.None? {
        active := active - {c};
      }
    }
  }
}
