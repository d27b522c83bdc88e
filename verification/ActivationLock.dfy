/** Locks that pin down the whole active registry: the closure of every active capability, the
    exported document, and its validation. */
module ActivationLock {
  import opened Scopes
  import opened Versions
  import opened Cycles
  import opened Registry
  import opened Json
  import Orders

  // ----- sorted lists without repeats -----

  predicate Ascending(items: seq<string>) {
    forall i, j :: 0 <= i < j < |items| ==> StringLeq(items[i], items[j]) && items[i] != items[j]
  }

  predicate IsLeast(items: set<string>, least: string) {
    least in items && forall x :: x in items ==> StringLeq(least, x)
  }

  ghost function Least(items: set<string>): (least: string)
    requires items != {}
    ensures IsLeast(items, least)
  {
    LeastExists(items);
    var least :| IsLeast(items, least);
    least
  }

  lemma LeastExists(items: set<string>)
    requires items != {}
    ensures exists least :: IsLeast(items, least)
  {
    var leq := (a: string, b: string) => StringLeq(a, b);
    forall a, b ensures leq(a, b) || leq(b, a) {
      StringOrder(a, b);
    }
    forall a, b, c | leq(a, b) && leq(b, c) ensures leq(a, c) {
      StringTransitive(a, b, c);
    }
    Orders.LeastExists(leq, items);
    var least :| Orders.IsLeast(leq, items, least);
    assert IsLeast(items, least) by {
      forall x | x in items ensures StringLeq(least, x) {
        assert leq(least, x);
      }
    }
  }

  /** The elements of a set in ascending order. */
  ghost function Listed(items: set<string>): seq<string>
    decreases |items|
  {
    if items == {} then [] else [Least(items)] + Listed(items - {Least(items)})
  }

  lemma {:induction false} ListedIs(items: set<string>)
    ensures Ascending(Listed(items))
    ensures forall x :: x in Listed(items) <==> x in items
    decreases |items|
  {
    if items != {} {
      ListedIs(items - {Least(items)});
      assert forall x :: x in Listed(items - {Least(items)}) ==> x in items && x != Least(items);
      assert Listed(items) == [Least(items)] + Listed(items - {Least(items)});
    }
  }

  lemma HasMember(b: seq<string>)
    requires b != []
    ensures exists x :: x in b
  {
    assert b[0] in b;
  }

  lemma Tail(a: seq<string>, x: string)
    requires Ascending(a) && |a| > 0
    ensures x in a[1..] <==> x in a && x != a[0]
  {
    assert a == [a[0]] + a[1..];
  }

  /** Ascending lists of the same elements are the same list. */
  lemma {:induction false} AscendingIsUnique(a: seq<string>, b: seq<string>)
    requires Ascending(a) && Ascending(b) && forall x :: x in a <==> x in b
    ensures a == b
  {
    if |a| == 0 {
      if b != [] {
        HasMember(b);
      }
    } else {
      assert a[0] in a && a[0] in b;
      assert b[0] in b && b[0] in a;
      StringOrder(a[0], b[0]);
      assert StringLeq(a[0], b[0]) && StringLeq(b[0], a[0]) by {
        var i :| 0 <= i < |a| && a[i] == b[0];
        var j :| 0 <= j < |b| && b[j] == a[0];
        StringOrder(a[0], a[0]);
      }
      forall x ensures x in a[1..] <==> x in b[1..] {
        Tail(a, x);
        Tail(b, x);
      }
      AscendingIsUnique(a[1..], b[1..]);
      assert a == [a[0]] + a[1..] && b == [b[0]] + b[1..];
    }
  }

  method SortTexts(items: set<string>) returns (list: seq<string>)
    ensures list == Listed(items)
  {
    hide StringLeq;
    list := [];
    var todo := items;
    while todo != {}
      invariant todo <= items && Listed(items) == list + Listed(todo)
      decreases todo
    {
      var least :| least in todo;
      var others := todo - {least};
      StringOrder(least, least);
      while others != {}
        invariant others <= todo && least in todo
        invariant forall x :: x in todo && x !in others ==> StringLeq(least, x)
        decreases others
      {
        var next :| next in others;
        StringOrder(least, next);
        if !StringLeq(least, next) {
          forall x | x in todo && x !in others ensures StringLeq(next, x) {
            StringTransitive(next, least, x);
          }
          least := next;
          StringOrder(next, next);
        }
        others := others - {next};
      }
      OneLeast(todo, least);
      list := list + [least];
      todo := todo - {least};
    }
  }

  lemma OneLeast(items: set<string>, least: string)
    requires IsLeast(items, least)
    ensures Least(items) == least
  {
    StringOrder(Least(items), least);
  }

  // ----- the dependency closure -----

  /** Every declared dependency that is active counts, optional or not, satisfied or not. */
  function Declared(manifests: map<string, Manifest>): Graph {
    map a | a in manifests :: Active(manifests, manifests[a].dependencies)
  }

  function Active(manifests: map<string, Manifest>, ds: seq<Dependency>): seq<string> {
    if |ds| == 0 then []
    else Active(manifests, ds[..|ds| - 1]) + (if ds[|ds| - 1].coordinate in manifests then
      [ds[|ds| - 1].coordinate] else [])
  }

  lemma {:induction false} ActiveAre(manifests: map<string, Manifest>, ds: seq<Dependency>, b: string)
    ensures b in Active(manifests, ds) <==> b in manifests && exists i :: 0 <= i < |ds| && ds[i].coordinate == b
  {
    if |ds| > 0 {
      var n := |ds| - 1;
      ActiveAre(manifests, ds[..n], b);
      if i :| 0 <= i < |ds| && ds[i].coordinate == b {
        assert i < n ==> ds[..n][i].coordinate == b;
      }
    }
  }

  predicate WalkFromTo(g: Graph, p: seq<string>, a: string, b: string) {
    |p| >= 2 && p[0] == a && p[|p| - 1] == b && IsWalk(g, p)
  }

  /** `b` can be reached from `a` by one or more edges. */
  ghost predicate Reaches(g: Graph, a: string, b: string) {
    exists p :: WalkFromTo(g, p, a, b)
  }

  lemma ReachesByOne(g: Graph, a: string, b: string)
    requires Edge(g, a, b)
    ensures Reaches(g, a, b)
  {
    assert WalkFromTo(g, [a, b], a, b);
  }

  lemma {:induction false} ReachesFurther(g: Graph, a: string, b: string, c: string)
    requires Reaches(g, a, b) && Edge(g, b, c)
    ensures Reaches(g, a, c)
  {
    var p :| WalkFromTo(g, p, a, b);
    var q := p + [c];
    forall i | 0 <= i < |q| - 1 ensures Edge(g, q[i], q[i + 1]) {
      assert i < |p| - 1 ==> Edge(g, p[i], p[i + 1]);
    }
    assert WalkFromTo(g, q, a, c);
  }

  /** A set that holds the targets of `a` and of all its members holds all that `a` reaches. */
  lemma {:induction false} ClosedHoldsAll(g: Graph, found: set<string>, a: string, p: seq<string>, k: nat)
    requires IsWalk(g, p) && |p| >= 2 && p[0] == a && 1 <= k < |p|
    requires forall x, y :: (x == a || x in found) && Edge(g, x, y) ==> y in found
    ensures p[k] in found
  {
    assert Edge(g, p[k - 1], p[k]);
    if k > 1 {
      ClosedHoldsAll(g, found, a, p, k - 1);
    }
  }

  ghost predicate IsClosure(manifests: map<string, Manifest>, root: string, found: set<string>) {
    forall b :: b in found <==> b != root && Reaches(Declared(manifests), root, b)
  }

  ghost predicate Exploring(g: Graph, root: string, found: set<string>, pending: seq<string>) {
    && (forall b :: b in found ==> Reaches(g, root, b) && b in g)
    && (forall b :: b in pending ==> b == root || b in found)
    && (forall a, b :: (a == root || a in found) && a !in pending && Edge(g, a, b) ==> b in found)
  }

  /** The worklist: what is found but not yet looked at waits in `pending`. */
  method FindClosure(manifests: map<string, Manifest>, root: string) returns (found: set<string>)
    requires root in manifests
    ensures IsClosure(manifests, root, found) && found <= manifests.Keys
  {
    ghost var g := Declared(manifests);
    found := {};
    var pending := [root];
    while |pending| > 0
      invariant Exploring(g, root, found, pending) && found <= manifests.Keys
      decreases manifests.Keys - found, |pending|
    {
      var a := pending[|pending| - 1];
      var rest := pending[..|pending| - 1];
      assert pending == rest + [a];
      found, pending := Expand(manifests, root, found, rest, a);
    }
    forall b | Reaches(g, root, b) ensures b in found {
      var p :| WalkFromTo(g, p, root, b);
      ClosedHoldsAll(g, found, root, p, |p| - 1);
    }
    found := found - {root};
  }

  method Expand(manifests: map<string, Manifest>, root: string, before: set<string>, rest: seq<string>, a: string)
    returns (found: set<string>, pending: seq<string>)
    requires root in manifests && before <= manifests.Keys
    requires Exploring(Declared(manifests), root, before, rest + [a])
    ensures Exploring(Declared(manifests), root, found, pending) && before <= found <= manifests.Keys
    ensures found == before ==> pending == rest
  {
    ghost var g := Declared(manifests);
    found, pending := before, rest;
    var ds := manifests[a].dependencies;
    for i := 0 to |ds|
      invariant before <= found <= manifests.Keys && (found == before ==> pending == rest)
      invariant forall b :: b in found ==> Reaches(g, root, b)
      invariant forall b :: b in rest || b in found - before ==> b in pending
      invariant forall b :: b in pending ==> b == root || b in found
      invariant forall j :: 0 <= j < i && ds[j].coordinate in manifests ==> ds[j].coordinate in found
    {
      var b := ds[i].coordinate;
      if b in manifests && b !in found {
        ActiveAre(manifests, ds, b);
        assert Edge(g, a, b);
        if a == root {
          ReachesByOne(g, root, b);
        } else {
          ReachesFurther(g, root, a, b);
        }
        found := found + {b};
        pending := pending + [b];
      }
    }
    forall x, y | (x == root || x in found) && x !in pending && Edge(g, x, y) ensures y in found {
      if x == a {
        ActiveAre(manifests, ds, y);
      } else {
        assert x !in rest + [a];
      }
    }
  }

  // ----- the document -----

  const API_VERSION: string := "capabilityhub.io/v1alpha1"
  const LOCK_KIND: string := "CapabilityActivationLock"
  const DIGEST_PREFIX: string := "sha256:"

  function EntryOf(m: Manifest, closure: seq<string>): Json {
    Obj(map["revision" := Str(m.identity.Revision()), "digest" := Str(m.identity.digest), "provider" := Str(m.provider),
            "source" := Str(m.source), "dependencyClosure" := Arr(Strings(closure))])
  }

  function Unsigned(capabilities: map<string, Json>): Json {
    Obj(map["apiVersion" := Str(API_VERSION), "kind" := Str(LOCK_KIND), "capabilities" := Obj(capabilities)])
  }

  function Signed(capabilities: map<string, Json>, digest: string): Json {
    Obj(map["apiVersion" := Str(API_VERSION), "kind" := Str(LOCK_KIND), "capabilities" := Obj(capabilities),
            "lockDigest" := Str(digest)])
  }

  /** The closure of `c` as a set of coordinates. */
  ghost function ClosureOf(manifests: map<string, Manifest>, c: string): set<string> {
    set b | b in manifests && b != c && Reaches(Declared(manifests), c, b)
  }

  ghost function ClosureRevisions(manifests: map<string, Manifest>, c: string): seq<string> {
    Listed(set b | b in ClosureOf(manifests, c) :: manifests[b].identity.Revision())
  }

  ghost function Capabilities(manifests: map<string, Manifest>): map<string, Json> {
    map c | c in manifests :: EntryOf(manifests[c], ClosureRevisions(manifests, c))
  }

  /** A digest of canonical JSON; it always starts with the name of its algorithm. */
  type Digest = Json -> string

  predicate DigestOk(digest: Digest, j: Json) {
    StartsWith(digest(j), DIGEST_PREFIX)
  }

  ghost function Exported(digest: Digest, manifests: map<string, Manifest>): Json {
    Signed(Capabilities(manifests), digest(Unsigned(Capabilities(manifests))))
  }

  /** Active manifests under their own coordinates, no revision twice, as the registry keeps them:
      so sorting the revisions of a closure gives a list without repeats. */
  predicate ActiveSet(manifests: map<string, Manifest>) {
    && (forall c :: c in manifests ==> manifests[c].identity.Coordinate() == c)
    && (forall b, c | b in manifests && c in manifests && b != c ::
          manifests[b].identity.Revision() != manifests[c].identity.Revision())
  }

  /** What the registry selects is such a set. */
  lemma RegistrySelects(reg: Reg)
    requires Valid(reg)
    ensures ActiveSet(Selected(reg.revisions, reg.active))
    ensures Selected(reg.revisions, reg.active).Keys == reg.active.Keys
  {
  }

  /** The exported document depends only on which revisions are active, not on how they came to be. */
  lemma SameActiveSameLock(digest: Digest, a: Reg, b: Reg)
    requires Valid(a) && Valid(b) && a.active == b.active
    requires forall c :: c in a.active ==> a.revisions[a.active[c]] == b.revisions[b.active[c]]
    ensures Exported(digest, Selected(a.revisions, a.active)) == Exported(digest, Selected(b.revisions, b.active))
  {
    assert Selected(a.revisions, a.active) == Selected(b.revisions, b.active);
  }

  method EntryFor(manifests: map<string, Manifest>, c: string) returns (entry: Json)
    requires ActiveSet(manifests) && c in manifests
    ensures entry == EntryOf(manifests[c], ClosureRevisions(manifests, c))
  {
    var found := FindClosure(manifests, c);
    hide Reaches, Declared;
    assert found == ClosureOf(manifests, c);
    var closure := SortTexts(set b | b in found :: manifests[b].identity.Revision());
    entry := EntryOf(manifests[c], closure);
  }

  method Export(digest: Digest, manifests: map<string, Manifest>) returns (lock: Json)
    requires ActiveSet(manifests)
    ensures lock == Exported(digest, manifests)
  {
    hide ClosureRevisions, EntryOf, ActiveSet;
    var capabilities: map<string, Json> := map[];
    var todo := manifests.Keys;
    while todo != {}
      invariant todo <= manifests.Keys
      invariant capabilities.Keys == manifests.Keys - todo
      invariant forall c :: c in capabilities ==>
        capabilities[c] == EntryOf(manifests[c], ClosureRevisions(manifests, c))
      decreases todo
    {
      var c :| c in todo;
      var entry := EntryFor(manifests, c);
      capabilities := capabilities[c := entry];
      todo := todo - {c};
    }
    assert capabilities == Capabilities(manifests);
    lock := Signed(capabilities, digest(Unsigned(capabilities)));
  }

  // ----- validation -----

  predicate EntryFields(fields: map<string, Json>) {
    && fields.Keys == {"revision", "digest", "provider", "source", "dependencyClosure"}
    && fields["revision"].Str? && fields["digest"].Str? && fields["provider"].Str? && fields["source"].Str?
    && fields["dependencyClosure"].Arr? && AllStrings(fields["dependencyClosure"].items)
    && Ascending(TextsOf(fields["dependencyClosure"].items))
  }

  predicate EntryOk(c: string, entry: Json) {
    c != "" && entry.Obj? && EntryFields(entry.fields)
  }

  predicate WellFormed(document: Json) {
    && document.Obj?
    && document.fields.Keys == {"apiVersion", "kind", "capabilities", "lockDigest"}
    && document.fields["apiVersion"] == Str(API_VERSION) && document.fields["kind"] == Str(LOCK_KIND)
    && document.fields["lockDigest"].Str? && StartsWith(document.fields["lockDigest"].s, DIGEST_PREFIX)
    && document.fields["capabilities"].Obj?
    && forall c :: c in document.fields["capabilities"].fields ==> EntryOk(c, document.fields["capabilities"].fields[c])
  }

  datatype LockFault = Malformed | DigestMismatch | Drifted(missing: set<string>, extra: set<string>,
    changed: set<string>)

  method CheckDocument(document: Json) returns (ok: bool)
    ensures ok == WellFormed(document)
  {
    if !document.Obj? || document.fields.Keys != {"apiVersion", "kind", "capabilities", "lockDigest"} {
      return false;
    }
    if document.fields["apiVersion"] != Str(API_VERSION) || document.fields["kind"] != Str(LOCK_KIND) {
      return false;
    }
    var digest, capabilities := document.fields["lockDigest"], document.fields["capabilities"];
    if !digest.Str? || !StartsWith(digest.s, DIGEST_PREFIX) || !capabilities.Obj? {
      return false;
    }
    var todo := capabilities.fields.Keys;
    while todo != {}
      invariant todo <= capabilities.fields.Keys
      invariant forall c :: c in capabilities.fields && c !in todo ==> EntryOk(c, capabilities.fields[c])
      decreases todo
    {
      var c :| c in todo;
      if !EntryOk(c, capabilities.fields[c]) {
        return false;
      }
      todo := todo - {c};
    }
    ok := true;
  }

  /** The document carries the digest of the rest of it. */
  predicate SelfSigned(digest: Digest, document: Json)
    requires WellFormed(document)
  {
    document.fields["lockDigest"].s == digest(Obj(document.fields - {"lockDigest"}))
  }

  /** Missing is what is locked but not active, extra what is active but not locked, changed what is
      both, but not as it was locked; and there is some such. */
  ghost predicate DriftOf(document: Json, manifests: map<string, Manifest>, fault: LockFault)
    requires WellFormed(document) && fault.Drifted?
  {
    var locked := document.fields["capabilities"].fields;
    && (forall c :: c in fault.missing <==> c in locked && c !in manifests)
    && (forall c :: c in fault.extra <==> c in manifests && c !in locked)
    && (forall c :: c in fault.changed <==>
          c in manifests && c in locked && locked[c] != EntryOf(manifests[c], ClosureRevisions(manifests, c)))
    && (fault.missing != {} || fault.extra != {} || fault.changed != {})
  }

  /** Accepts exactly the document that the active registry exports right now, and says what is wrong
      with any other. */
  method Validate(digest: Digest, document: Json, manifests: map<string, Manifest>) returns (fault: Option<LockFault>)
    requires ActiveSet(manifests) && DigestOk(digest, Unsigned(Capabilities(manifests)))
    ensures fault.None? <==> document == Exported(digest, manifests)
    ensures fault == Some(Malformed) <==> !WellFormed(document)
    ensures fault == Some(DigestMismatch) <==> WellFormed(document) && !SelfSigned(digest, document)
    ensures fault.Some? && fault.value.Drifted? ==> DriftOf(document, manifests, fault.value)
  {
    hide Exported, WellFormed, Capabilities, ActiveSet, DigestOk, SelfSigned, DriftOf, IsDrift;
    var ok := CheckDocument(document);
    ExportIsWellFormed(digest, manifests);
    if !ok {
      return Some(Malformed);
    }
    ReadBack(document);
    var locked := document.fields["capabilities"].fields;
    SignedOverRest(digest, document);
    if document.fields["lockDigest"].s != digest(Unsigned(locked)) {
      OnlyOneSignature(digest, manifests);
      return Some(DigestMismatch);
    }
    var expected := Export(digest, manifests);
    OnlyOneSignature(digest, manifests);
    var drift := Compare(locked, expected.fields["capabilities"].fields);
    if drift.Some? {
      DriftIsOf(document, manifests, drift.value);
    }
    fault := drift;
  }

  /** The differences between two maps of entries, of which there are some. */
  ghost predicate IsDrift(locked: map<string, Json>, active: map<string, Json>, drift: LockFault) {
    && drift.Drifted?
    && drift.missing == locked.Keys - active.Keys && drift.extra == active.Keys - locked.Keys
    && drift.changed == (set c | c in locked && c in active && locked[c] != active[c])
    && (drift.missing != {} || drift.extra != {} || drift.changed != {})
  }

  method Compare(locked: map<string, Json>, active: map<string, Json>) returns (drift: Option<LockFault>)
    ensures drift.None? <==> locked == active
    ensures drift.Some? ==> IsDrift(locked, active, drift.value)
  {
    var missing, extra := locked.Keys - active.Keys, active.Keys - locked.Keys;
    var changed := set c | c in locked && c in active && locked[c] != active[c];
    if missing != {} || extra != {} || changed != {} {
      return Some(Drifted(missing, extra, changed));
    }
    assert locked == active by {
      forall c ensures c in locked <==> c in active {
        assert c !in missing && c !in extra;
      }
      forall c | c in locked ensures locked[c] == active[c] {
        assert c !in changed;
      }
    }
    drift := None;
  }

  lemma DriftIsOf(document: Json, manifests: map<string, Manifest>, drift: LockFault)
    requires WellFormed(document)
    requires IsDrift(document.fields["capabilities"].fields, Capabilities(manifests), drift)
    ensures DriftOf(document, manifests, drift)
  {
    hide EntryOf, ClosureRevisions, EntryOk;
  }

  lemma SignedOverRest(digest: Digest, document: Json)
    requires WellFormed(document)
    ensures SelfSigned(digest, document) <==>
            document.fields["lockDigest"].s == digest(Unsigned(document.fields["capabilities"].fields))
  {
    hide EntryOk;
    assert document.fields - {"lockDigest"} == Unsigned(document.fields["capabilities"].fields).fields;
  }

  lemma ReadBack(document: Json)
    requires WellFormed(document)
    ensures document.Obj? && "lockDigest" in document.fields && "capabilities" in document.fields
    ensures document.fields["lockDigest"].Str? && document.fields["capabilities"].Obj?
    ensures document == Signed(document.fields["capabilities"].fields, document.fields["lockDigest"].s)
  {
  }

  lemma OnlyOneSignature(digest: Digest, manifests: map<string, Manifest>)
    ensures Exported(digest, manifests).Obj? && "capabilities" in Exported(digest, manifests).fields
    ensures Exported(digest, manifests).fields["capabilities"] == Obj(Capabilities(manifests))
    ensures Exported(digest, manifests) == Signed(Capabilities(manifests), digest(Unsigned(Capabilities(manifests))))
  {
  }

  lemma SignedIsWellFormed(capabilities: map<string, Json>, digest: string)
    requires forall c :: c in capabilities ==> EntryOk(c, capabilities[c])
    requires StartsWith(digest, DIGEST_PREFIX)
    ensures WellFormed(Signed(capabilities, digest))
  {
    hide EntryOk, StartsWith;
  }

  lemma {:induction false} ExportIsWellFormed(digest: Digest, manifests: map<string, Manifest>)
    requires ActiveSet(manifests) && DigestOk(digest, Unsigned(Capabilities(manifests)))
    ensures WellFormed(Exported(digest, manifests))
  {
    hide EntryOk, EntryOf, ClosureRevisions, WellFormed, Signed, Unsigned, ActiveSet, StartsWith;
    forall c | c in Capabilities(manifests) ensures EntryOk(c, Capabilities(manifests)[c]) {
      EntryIsOk(manifests, c);
    }
    SignedIsWellFormed(Capabilities(manifests), digest(Unsigned(Capabilities(manifests))));
  }

  lemma {:induction false} EntryIsOk(manifests: map<string, Manifest>, c: string)
    requires ActiveSet(manifests) && c in manifests
    ensures EntryOk(c, EntryOf(manifests[c], ClosureRevisions(manifests, c)))
  {
    var closure := ClosureRevisions(manifests, c);
    ListedIs(set b | b in ClosureOf(manifests, c) :: manifests[b].identity.Revision());
    assert TextsOf(Strings(closure)) == closure;
    assert manifests[c].identity.Coordinate() == c;
    hide ClosureRevisions, ClosureOf, Ascending, ActiveSet;
  }
}
