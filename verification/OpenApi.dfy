/** Inlining the references of an OpenAPI schema. */
module OpenApi {
  import opened Scopes
  import opened Json
  import opened Texts

  // ----- pointers (section 4 of RFC 6901) -----

  /** Replaces every `from` by `to`, from left to right. */
  function Replaced(s: string, a: char, b: char, to: string): string {
    if |s| >= 2 && s[0] == a && s[1] == b then to + Replaced(s[2..], a, b, to)
    else if |s| >= 1 then [s[0]] + Replaced(s[1..], a, b, to)
    else ""
  }

  function Unescaped(part: string): string {
    Replaced(Replaced(part, '~', '1', "/"), '~', '0', "~")
  }

  function Escaped(key: string): string {
    if key == "" then ""
    else (if key[0] == '~' then "~0" else if key[0] == '/' then "~1" else [key[0]]) + Escaped(key[1..])
  }

  datatype Fault = CyclicReference | NotAnObject | RemoteReference | NotFound

  datatype Found = Found(value: Json) | Missed(fault: Fault)

  function Follow(value: Json, parts: seq<string>): Found {
    if |parts| == 0 then Found(value)
    else
      var key := Unescaped(parts[0]);
      if !value.Obj? || key !in value.fields then Missed(NotFound) else Follow(value.fields[key], parts[1..])
  }

  function Lookup(root: Json, reference: string): Found {
    if |reference| < 2 || reference[..2] != "#/" then Missed(RemoteReference)
    else Follow(root, Split(reference[2..], '/'))
  }

  /** Going down through objects, key by key. */
  function Descend(value: Json, keys: seq<string>): Found {
    if |keys| == 0 then Found(value)
    else if !value.Obj? || keys[0] !in value.fields then Missed(NotFound)
    else Descend(value.fields[keys[0]], keys[1..])
  }

  function Pointer(keys: seq<string>): string
    requires |keys| > 0
  {
    if |keys| == 1 then Escaped(keys[0]) else Escaped(keys[0]) + "/" + Pointer(keys[1..])
  }

  /** The key with only its tildes escaped. */
  function HalfEscaped(key: string): string {
    if key == "" then "" else (if key[0] == '~' then "~0" else [key[0]]) + HalfEscaped(key[1..])
  }

  lemma {:induction false} SlashesReturn(key: string)
    ensures Replaced(Escaped(key), '~', '1', "/") == HalfEscaped(key)
  {
    if key != "" {
      SlashesReturn(key[1..]);
      var rest := Escaped(key[1..]);
      if key[0] == '~' {
        assert Escaped(key) == "~0" + rest;
        assert Escaped(key)[1..] == "0" + rest && ("0" + rest)[1..] == rest;
      } else if key[0] == '/' {
        assert Escaped(key) == "~1" + rest && Escaped(key)[2..] == rest;
      } else {
        assert Escaped(key)[1..] == rest;
      }
    }
  }

  lemma {:induction false} TildesReturn(key: string)
    ensures Replaced(HalfEscaped(key), '~', '0', "~") == key
  {
    if key != "" {
      TildesReturn(key[1..]);
      var rest := HalfEscaped(key[1..]);
      if key[0] == '~' {
        assert HalfEscaped(key) == "~0" + rest && HalfEscaped(key)[2..] == rest;
      } else {
        assert HalfEscaped(key)[1..] == rest;
      }
      assert key == [key[0]] + key[1..];
    }
  }

  lemma {:induction false} NoSlashes(key: string)
    ensures '/' !in Escaped(key)
  {
    if key != "" {
      NoSlashes(key[1..]);
    }
  }

  /** A pointer written for a path of object keys finds what that path leads to. */
  lemma {:induction false} PointerFollowsKeys(root: Json, keys: seq<string>)
    requires |keys| > 0
    ensures Follow(root, Split(Pointer(keys), '/')) == Descend(root, keys)
  {
    var part := Escaped(keys[0]);
    NoSlashes(keys[0]);
    SlashesReturn(keys[0]);
    TildesReturn(keys[0]);
    assert Unescaped(part) == keys[0];
    if |keys| == 1 {
      OnePart(part, '/');
      assert Split(Pointer(keys), '/') == [part];
      assert [part][1..] == [] && keys[1..] == [];
    } else {
      var rest := Pointer(keys[1..]);
      SplitsAfter(part, rest, '/');
      assert Pointer(keys) == part + ['/'] + rest;
      assert ([part] + Split(rest, '/'))[1..] == Split(rest, '/');
      if root.Obj? && keys[0] in root.fields {
        PointerFollowsKeys(root.fields[keys[0]], keys[1..]);
      }
    }
  }

  /** So looking up such a pointer inverts the escaping. */
  lemma PointerRoundTrip(root: Json, keys: seq<string>)
    requires |keys| > 0
    ensures Lookup(root, "#/" + Pointer(keys)) == Descend(root, keys)
  {
    var reference := "#/" + Pointer(keys);
    assert reference[2..] == Pointer(keys) && reference[..2] == "#/";
    PointerFollowsKeys(root, keys);
  }

  // ----- the references of a document -----

  function ReferenceOf(fields: map<string, Json>): Option<string> {
    if "$ref" in fields && fields["$ref"].Str? then Some(fields["$ref"].s) else None
  }

  /** Every reference anywhere inside a value. */
  function AllRefs(j: Json): set<string> {
    match j
    case Obj(fields) =>
      (if ReferenceOf(fields).Some? then {ReferenceOf(fields).value} else {})
      + (set k, r | k in fields && r in AllRefs(fields[k]) :: r)
    case Arr(items) => set i, r | 0 <= i < |items| && r in AllRefs(items[i]) :: r
    case _ => {}
  }

  lemma {:induction false} FollowedRefs(value: Json, parts: seq<string>)
    ensures Follow(value, parts).Found? ==> AllRefs(Follow(value, parts).value) <= AllRefs(value)
    decreases |parts|
  {
    if |parts| > 0 && value.Obj? && Unescaped(parts[0]) in value.fields {
      FollowedRefs(value.fields[Unescaped(parts[0])], parts[1..]);
    }
  }

  // ----- inlining -----

  /** The value with every reference replaced, or what may go wrong: a run stops at whichever of
      the faults it meets first. */
  datatype Inlined = Done(value: Json) | Failed(possible: set<Fault>)

  predicate AllDone(parts: seq<Inlined>) {
    forall i :: 0 <= i < |parts| ==> parts[i].Done?
  }

  function Listed(parts: seq<Inlined>): Inlined {
    if AllDone(parts) then Done(Arr(seq(|parts|, i requires 0 <= i < |parts| => parts[i].value)))
    else Failed(set i, f | 0 <= i < |parts| && parts[i].Failed? && f in parts[i].possible :: f)
  }

  predicate EveryDone(parts: map<string, Inlined>) {
    forall k :: k in parts ==> parts[k].Done?
  }

  function Gathered(parts: map<string, Inlined>): Inlined {
    if EveryDone(parts) then Done(Obj(map k | k in parts :: parts[k].value))
    else Failed(set k, f | k in parts && parts[k].Failed? && f in parts[k].possible :: f)
  }

  function Visited(seen: seq<string>): set<string> {
    set r | r in seen
  }

  /** `seen` are the references being expanded right now; `all` bounds what can still come. */
  function Schema(root: Json, value: Json, seen: seq<string>, ghost all: set<string>): Inlined
    requires AllRefs(root) <= all && AllRefs(value) <= all
    decreases all - Visited(seen), value, 1
  {
    if !value.Obj? then Failed({NotAnObject})
    else
      match ReferenceOf(value.fields)
      case Some(r) =>
        if r in seen then Failed({CyclicReference})
        else
          (match Lookup(root, r)
           case Missed(fault) => Failed({fault})
           case Found(target) =>
             assert AllRefs(target) <= all by { FollowedRefs(root, Split(r[2..], '/')); }
             assert Visited(seen + [r]) == Visited(seen) + {r};
             Schema(root, target, seen + [r], all))
      case None => Gathered(SchemaFields(root, value, seen, all))
  }

  function SchemaFields(root: Json, value: Json, seen: seq<string>, ghost all: set<string>): (parts: map<string,
                        Inlined>)
    requires AllRefs(root) <= all && AllRefs(value) <= all && value.Obj?
    ensures parts.Keys == value.fields.Keys
    decreases all - Visited(seen), value, 0
  {
    map k | k in value.fields :: SchemaField(root, value.fields[k], seen, all)
  }

  function SchemaField(root: Json, value: Json, seen: seq<string>, ghost all: set<string>): Inlined
    requires AllRefs(root) <= all && AllRefs(value) <= all
    decreases all - Visited(seen), value, 2
  {
    match value
    case Obj(_) => Schema(root, value, seen, all)
    case Arr(_) => Listed(SchemaItems(root, value, seen, all))
    case _ => Done(value)
  }

  function SchemaItems(root: Json, value: Json, seen: seq<string>, ghost all: set<string>): (parts: seq<Inlined>)
    requires AllRefs(root) <= all && AllRefs(value) <= all && value.Arr?
    ensures |parts| == |value.items|
    decreases all - Visited(seen), value, 1
  {
    seq(|value.items|, i requires 0 <= i < |value.items| =>
      if value.items[i].Obj? then Schema(root, value.items[i], seen, all) else Done(value.items[i]))
  }

  // ----- unfolding without looking back -----

  function Joined(parts: map<string, Option<Json>>): Option<Json> {
    if forall k :: k in parts ==> parts[k].Some? then Some(Obj(map k | k in parts :: parts[k].value)) else None
  }

  function Strung(parts: seq<Option<Json>>): Option<Json> {
    if forall i :: 0 <= i < |parts| ==> parts[i].Some? then
      Some(Arr(seq(|parts|, i requires 0 <= i < |parts| => parts[i].value)))
    else None
  }

  /** Expands every reference, as deep as `fuel` references inside one another. */
  function Unfold(root: Json, value: Json, fuel: nat): Option<Json>
    decreases fuel, value, 1
  {
    if !value.Obj? then None
    else
      match ReferenceOf(value.fields)
      case Some(r) =>
        if fuel == 0 then None
        else (match Lookup(root, r) case Missed(_) => None case Found(target) => Unfold(root, target, fuel - 1))
      case None => Joined(UnfoldFields(root, value, fuel))
  }

  function UnfoldFields(root: Json, value: Json, fuel: nat): (parts: map<string, Option<Json>>)
    requires value.Obj?
    ensures parts.Keys == value.fields.Keys
    decreases fuel, value, 0
  {
    map k | k in value.fields :: UnfoldField(root, value.fields[k], fuel)
  }

  function UnfoldField(root: Json, value: Json, fuel: nat): Option<Json>
    decreases fuel, value, 2
  {
    match value
    case Obj(_) => Unfold(root, value, fuel)
    case Arr(_) => Strung(UnfoldItems(root, value, fuel))
    case _ => Some(value)
  }

  function UnfoldItems(root: Json, value: Json, fuel: nat): (parts: seq<Option<Json>>)
    requires value.Arr?
    ensures |parts| == |value.items|
    decreases fuel, value, 1
  {
    seq(|value.items|, i requires 0 <= i < |value.items| =>
      if value.items[i].Obj? then Unfold(root, value.items[i], fuel) else Some(value.items[i]))
  }

  /** What a reference itself unfolds to. */
  function Expand(root: Json, r: string, fuel: nat): Option<Json> {
    if fuel == 0 then None
    else match Lookup(root, r) case Missed(_) => None case Found(target) => Unfold(root, target, fuel - 1)
  }

  // ----- the references that are met -----

  /** The references met before any is followed; beside a reference nothing else is looked at. */
  function Met(value: Json): set<string>
    decreases value, 0
  {
    match value
    case Obj(fields) =>
      if ReferenceOf(fields).Some? then {ReferenceOf(fields).value}
      else set k, r | k in fields && r in MetIn(fields[k]) :: r
    case _ => {}
  }

  /** Lists of objects are looked into, lists of lists are not. */
  function MetIn(value: Json): set<string>
    decreases value, 1
  {
    match value
    case Obj(_) => Met(value)
    case Arr(items) => set i, r | 0 <= i < |items| && r in Met(items[i]) :: r
    case _ => {}
  }

  /** `refs` holds all references that are ever met, and each of them leads to an object. */
  predicate Grounded(root: Json, value: Json, refs: set<string>) {
    && Met(value) <= refs
    && forall r :: r in refs ==>
      Lookup(root, r).Found? && Lookup(root, r).value.Obj? && Met(Lookup(root, r).value) <= refs
  }

  // ----- what inlining returns -----

  lemma GatheredIsJoined(parts: map<string, Inlined>, unfolded: map<string, Option<Json>>)
    requires EveryDone(parts) && parts.Keys == unfolded.Keys
    requires forall k :: k in parts ==> unfolded[k] == Some(parts[k].value)
    ensures Joined(unfolded) == Some(Gathered(parts).value)
  {
    assert (map k | k in unfolded :: unfolded[k].value) == (map k | k in parts :: parts[k].value);
  }

  lemma ListedIsStrung(parts: seq<Inlined>, unfolded: seq<Option<Json>>)
    requires AllDone(parts) && |parts| == |unfolded|
    requires forall i :: 0 <= i < |parts| ==> unfolded[i] == Some(parts[i].value)
    ensures Strung(unfolded) == Some(Listed(parts).value)
  {
    var n := |parts|;
    assert seq(n, i requires 0 <= i < n => unfolded[i].value) == seq(n, i requires 0 <= i < n => parts[i].value);
  }

  lemma ReferenceTogether(root: Json, value: Json, seen: seq<string>, all: set<string>, fuel: nat)
    requires AllRefs(root) <= all && AllRefs(value) <= all && value.Obj? && ReferenceOf(value.fields).Some?
    ensures var r := ReferenceOf(value.fields).value;
      && r in all
      && (Lookup(root, r).Found? ==> AllRefs(Lookup(root, r).value) <= all)
      && Visited(seen + [r]) == Visited(seen) + {r} && (r in Visited(seen) <==> r in seen)
      && Schema(root, value, seen, all) ==
         (if r in seen then Failed({CyclicReference})
          else match Lookup(root, r) case Missed(f) => Failed({f}) case Found(t) => Schema(root, t, seen + [r], all))
      && Unfold(root, value, fuel) == Expand(root, r, fuel)
  {
    var r := ReferenceOf(value.fields).value;
    if Lookup(root, r).Found? {
      FollowedRefs(root, Split(r[2..], '/'));
    }
    assert Visited(seen + [r]) == Visited(seen) + {r};
    hide SchemaFields, UnfoldFields, Gathered, Joined, Follow, Split;
  }

  /** A finished inlining is the full unfolding. */
  lemma {:induction false} DoneIsUnfolded(root: Json, value: Json, seen: seq<string>, all: set<string>,
                                          refs: set<string>)
    requires AllRefs(root) <= all && AllRefs(value) <= all && Grounded(root, value, refs)
    requires Schema(root, value, seen, all).Done?
    ensures Unfold(root, value, |refs - Visited(seen)|) == Some(Schema(root, value, seen, all).value)
    decreases all - Visited(seen), value, 1
  {
    assert value.Obj?;
    if ReferenceOf(value.fields).Some? {
      ReferenceIsUnfolded(root, value, seen, all, refs);
    } else {
      var fuel := |refs - Visited(seen)|;
      DoneTogether(root, value, seen, all, fuel);
      hide Schema, Unfold, Gathered, Joined, SchemaFields, UnfoldFields, AllRefs, Visited;
      FieldsAreUnfolded(root, value, seen, all, refs);
      GatheredIsJoined(SchemaFields(root, value, seen, all), UnfoldFields(root, value, fuel));
    }
  }

  lemma {:induction false} ReferenceIsUnfolded(root: Json, value: Json, seen: seq<string>, all: set<string>,
                                               refs: set<string>)
    requires AllRefs(root) <= all && AllRefs(value) <= all && Grounded(root, value, refs)
    requires Schema(root, value, seen, all).Done? && value.Obj? && ReferenceOf(value.fields).Some?
    ensures Unfold(root, value, |refs - Visited(seen)|) == Some(Schema(root, value, seen, all).value)
    decreases all - Visited(seen), value, 0
  {
    hide Schema, Unfold, Lookup, AllRefs, Met, Grounded, Visited;
    var r, fuel := ReferenceOf(value.fields).value, |refs - Visited(seen)|;
    ReferenceTogether(root, value, seen, all, fuel);
    ReferenceIsMet(root, value, refs);
    OneFewerLeft(refs, seen, r);
    assert r in all - Visited(seen) && r !in all - Visited(seen + [r]);
    DoneIsUnfolded(root, Lookup(root, r).value, seen + [r], all, refs);
  }

  lemma DoneTogether(root: Json, value: Json, seen: seq<string>, all: set<string>, fuel: nat)
    requires AllRefs(root) <= all && AllRefs(value) <= all && value.Obj? && ReferenceOf(value.fields).None?
    ensures Schema(root, value, seen, all) == Gathered(SchemaFields(root, value, seen, all))
    ensures Schema(root, value, seen, all).Done? <==> EveryDone(SchemaFields(root, value, seen, all))
    ensures Unfold(root, value, fuel) == Joined(UnfoldFields(root, value, fuel))
  {
    hide SchemaFields, UnfoldFields;
  }

  /** A reference that is met resolves to an object in which again only such references are met. */
  lemma ReferenceIsMet(root: Json, value: Json, refs: set<string>)
    requires Grounded(root, value, refs) && value.Obj? && ReferenceOf(value.fields).Some?
    ensures var r := ReferenceOf(value.fields).value;
            && r in refs && Lookup(root, r).Found? && Lookup(root, r).value.Obj?
            && Grounded(root, Lookup(root, r).value, refs)
  {
    hide Lookup;
  }

  lemma OneFewerLeft(refs: set<string>, seen: seq<string>, r: string)
    requires r in refs && r !in seen
    ensures |refs - Visited(seen)| == |refs - Visited(seen + [r])| + 1
  {
    assert refs - Visited(seen + [r]) == (refs - Visited(seen)) - {r};
  }

  lemma {:induction false} FieldsAreUnfolded(root: Json, value: Json, seen: seq<string>, all: set<string>,
                                             refs: set<string>)
    requires AllRefs(root) <= all && AllRefs(value) <= all && Grounded(root, value, refs)
    requires value.Obj? && ReferenceOf(value.fields).None? && EveryDone(SchemaFields(root, value, seen, all))
    ensures forall k :: k in value.fields ==>
      UnfoldFields(root, value, |refs - Visited(seen)|)[k] ==
        Some(SchemaFields(root, value, seen, all)[k].value) decreases all - Visited(seen), value, 0
  {
    forall k | k in value.fields
      ensures UnfoldFields(root, value, |refs - Visited(seen)|)[k] ==
        Some(SchemaFields(root, value, seen, all)[k].value)
    {
      assert SchemaFields(root, value, seen, all)[k].Done?;
      FieldIsUnfolded(root, value.fields[k], seen, all, refs);
    }
  }

  lemma {:induction false} FieldIsUnfolded(root: Json, value: Json, seen: seq<string>, all: set<string>,
                                           refs: set<string>)
    requires AllRefs(root) <= all && AllRefs(value) <= all && MetIn(value) <= refs && Grounded(root, Null, refs)
    requires SchemaField(root, value, seen, all).Done?
    ensures UnfoldField(root, value, |refs - Visited(seen)|) == Some(SchemaField(root, value, seen, all).value)
    decreases all - Visited(seen), value, 2
  {
    match value
    case Obj(_) => DoneIsUnfolded(root, value, seen, all, refs);
    case Arr(items) =>
      var parts, unfolded := SchemaItems(root, value, seen, all), UnfoldItems(root, value, |refs - Visited(seen)|);
      assert AllDone(parts);
      forall i | 0 <= i < |items| ensures unfolded[i] == Some(parts[i].value) {
        assert parts[i].Done?;
        if items[i].Obj? {
          DoneIsUnfolded(root, items[i], seen, all, refs);
        }
      }
      ListedIsStrung(parts, unfolded);
    case _ =>
  }

  /** Only a cycle can stop the inlining when every reference met leads to an object. */
  lemma {:induction false} OnlyCycles(root: Json, value: Json, seen: seq<string>, all: set<string>, refs: set<string>)
    requires AllRefs(root) <= all && AllRefs(value) <= all && Grounded(root, value, refs) && value.Obj?
    ensures Schema(root, value, seen, all).Failed? ==> Schema(root, value, seen, all).possible == {CyclicReference}
    decreases all - Visited(seen), value, 1
  {
    match ReferenceOf(value.fields)
    case Some(r) =>
      ReferenceTogether(root, value, seen, all, 0);
      hide Schema, Unfold, Lookup, AllRefs;
      if r !in seen {
        OnlyCycles(root, Lookup(root, r).value, seen + [r], all, refs);
      }
    case None =>
      var parts := SchemaFields(root, value, seen, all);
      forall k | k in parts ensures parts[k].Failed? ==> parts[k].possible == {CyclicReference} {
        FieldOnlyCycles(root, value.fields[k], seen, all, refs);
      }
      GatheredFaults(parts);
  }

  lemma GatheredFaults(parts: map<string, Inlined>)
    requires forall k :: k in parts ==> (parts[k].Failed? ==> parts[k].possible == {CyclicReference})
    ensures Gathered(parts).Failed? ==> Gathered(parts).possible == {CyclicReference}
  {
    if !EveryDone(parts) {
      var k :| k in parts && parts[k].Failed?;
      assert CyclicReference in parts[k].possible;
    }
  }

  lemma ListedFaults(parts: seq<Inlined>)
    requires forall i :: 0 <= i < |parts| ==> (parts[i].Failed? ==> parts[i].possible == {CyclicReference})
    ensures Listed(parts).Failed? ==> Listed(parts).possible == {CyclicReference}
  {
    if !AllDone(parts) {
      var i :| 0 <= i < |parts| && parts[i].Failed?;
      assert CyclicReference in parts[i].possible;
    }
  }

  lemma {:induction false} FieldOnlyCycles(root: Json, value: Json, seen: seq<string>, all: set<string>,
                                           refs: set<string>)
    requires AllRefs(root) <= all && AllRefs(value) <= all && MetIn(value) <= refs && Grounded(root, Null, refs)
    ensures SchemaField(root, value, seen, all).Failed? ==>
      SchemaField(root, value, seen, all).possible == {CyclicReference}
    decreases all - Visited(seen), value, 2
  {
    match value
    case Obj(_) => OnlyCycles(root, value, seen, all, refs);
    case Arr(items) =>
      var parts := SchemaItems(root, value, seen, all);
      forall i | 0 <= i < |items| ensures parts[i].Failed? ==> parts[i].possible == {CyclicReference} {
        if items[i].Obj? {
          OnlyCycles(root, items[i], seen, all, refs);
        }
      }
      ListedFaults(parts);
    case _ =>
  }

  // ----- when inlining fails -----

  lemma {:induction false} MoreFuel(root: Json, value: Json, fuel: nat)
    requires Unfold(root, value, fuel).Some?
    ensures Unfold(root, value, fuel + 1) == Unfold(root, value, fuel)
    decreases fuel, value, 1
  {
    match ReferenceOf(value.fields)
    case Some(r) =>
      MoreFuel(root, Lookup(root, r).value, fuel - 1);
    case None =>
      var less, more := UnfoldFields(root, value, fuel), UnfoldFields(root, value, fuel + 1);
      forall k | k in value.fields ensures more[k] == less[k] {
        assert less[k].Some?;
        MoreFuelInField(root, value.fields[k], fuel);
      }
      assert more == less;
  }

  lemma {:induction false} MoreFuelInField(root: Json, value: Json, fuel: nat)
    requires UnfoldField(root, value, fuel).Some?
    ensures UnfoldField(root, value, fuel + 1) == UnfoldField(root, value, fuel)
    decreases fuel, value, 2
  {
    match value
    case Obj(_) => MoreFuel(root, value, fuel);
    case Arr(items) =>
      var less, more := UnfoldItems(root, value, fuel), UnfoldItems(root, value, fuel + 1);
      forall i | 0 <= i < |items| ensures more[i] == less[i] {
        assert less[i].Some?;
        if items[i].Obj? {
          MoreFuel(root, items[i], fuel);
        }
      }
      assert more == less;
    case _ =>
  }

  /** Expanding `r` to the end means unfolding `value` to the end on the way. */
  ghost predicate Within(root: Json, r: string, value: Json) {
    forall fuel: nat :: Expand(root, r, fuel).Some? ==> fuel > 0 && Unfold(root, value, fuel - 1).Some?
  }

  ghost predicate AllWithin(root: Json, seen: seq<string>, value: Json) {
    forall r :: r in seen ==> Within(root, r, value)
  }

  /** A reference within its own expansion never comes to an end. */
  lemma {:induction false} NeverEnds(root: Json, r: string, value: Json, fuel: nat)
    requires value.Obj? && ReferenceOf(value.fields) == Some(r) && Within(root, r, value)
    ensures Expand(root, r, fuel).None?
    decreases fuel
  {
    if fuel > 0 {
      NeverEnds(root, r, value, fuel - 1);
      assert Unfold(root, value, fuel - 1) == Expand(root, r, fuel - 1);
    }
  }

  lemma {:induction false} WithinTarget(root: Json, seen: seq<string>, value: Json, r: string)
    requires value.Obj? && ReferenceOf(value.fields) == Some(r) && AllWithin(root, seen, value) &&
      Lookup(root, r).Found?
    ensures AllWithin(root, seen + [r], Lookup(root, r).value)
  {
    var target := Lookup(root, r).value;
    forall s | s in seen + [r] ensures Within(root, s, target) {
      forall fuel: nat | Expand(root, s, fuel).Some? ensures fuel > 0 && Unfold(root, target, fuel - 1).Some? {
        if s in seen {
          assert Within(root, s, value);
          assert Unfold(root, value, fuel - 1).Some?;
          MoreFuel(root, target, fuel - 2);
        }
      }
    }
  }

  /** Inside a value that unfolds, everything unfolds. */
  lemma {:induction false} WithinField(root: Json, seen: seq<string>, value: Json, k: string, part: Json)
    requires value.Obj? && ReferenceOf(value.fields).None? && AllWithin(root, seen, value) && k in value.fields
    requires part.Obj? && (part == value.fields[k] || (value.fields[k].Arr? && part in value.fields[k].items))
    ensures AllWithin(root, seen, part)
  {
    hide Unfold, Expand, Lookup;
    forall s | s in seen ensures Within(root, s, part) {
      forall fuel: nat | Expand(root, s, fuel).Some? ensures fuel > 0 && Unfold(root, part, fuel - 1).Some? {
        assert Within(root, s, value);
        UnfoldsInside(root, value, k, part, fuel - 1);
      }
    }
  }

  lemma {:induction false} UnfoldsInside(root: Json, value: Json, k: string, part: Json, fuel: nat)
    requires value.Obj? && ReferenceOf(value.fields).None? && k in value.fields && Unfold(root, value, fuel).Some?
    requires part.Obj? && (part == value.fields[k] || (value.fields[k].Arr? && part in value.fields[k].items))
    ensures Unfold(root, part, fuel).Some?
  {
    assert UnfoldFields(root, value, fuel)[k].Some?;
    assert UnfoldField(root, value.fields[k], fuel).Some?;
    if value.fields[k].Arr? {
      assert Strung(UnfoldItems(root, value.fields[k], fuel)).Some?;
      var i :| 0 <= i < |value.fields[k].items| && value.fields[k].items[i] == part;
      assert UnfoldItems(root, value.fields[k], fuel)[i].Some?;
    }
  }

  /** A refused inlining has no finite unfolding. */
  lemma {:induction false} FailedNeverEnds(root: Json, value: Json, seen: seq<string>, all: set<string>,
                                           refs: set<string>, fuel: nat)
    requires AllRefs(root) <= all && AllRefs(value) <= all && Grounded(root, value, refs) && value.Obj?
    requires AllWithin(root, seen, value) && Schema(root, value, seen, all).Failed?
    ensures Unfold(root, value, fuel).None?
    decreases all - Visited(seen), value, 1
  {
    match ReferenceOf(value.fields)
    case Some(r) =>
      ReferenceTogether(root, value, seen, all, fuel);
      if r in seen {
        hide Schema, Lookup, AllRefs;
        NeverEnds(root, r, value, fuel);
      } else {
        WithinTarget(root, seen, value, r);
        hide Schema, Unfold, Lookup, AllRefs, AllWithin;
        if fuel > 0 {
          FailedNeverEnds(root, Lookup(root, r).value, seen + [r], all, refs, fuel - 1);
        }
      }
    case None =>
      DoneTogether(root, value, seen, all, fuel);
      var k := FailingField(root, value, seen, all);
      FieldNeverEnds(root, value, k, seen, all, refs, fuel);
      hide Schema, Unfold, SchemaFields;
  }

  lemma MetInside(value: Json, k: string)
    requires value.Obj? && ReferenceOf(value.fields).None? && k in value.fields
    ensures MetIn(value.fields[k]) <= Met(value)
    ensures value.fields[k].Arr? ==> forall part :: part in value.fields[k].items ==> Met(part) <= Met(value)
  {
    if value.fields[k].Arr? {
      forall part | part in value.fields[k].items ensures Met(part) <= MetIn(value.fields[k]) {
        var i :| 0 <= i < |value.fields[k].items| && value.fields[k].items[i] == part;
      }
    }
  }

  lemma FailingField(root: Json, value: Json, seen: seq<string>, all: set<string>) returns (k: string)
    requires AllRefs(root) <= all && AllRefs(value) <= all && value.Obj? &&
      !EveryDone(SchemaFields(root, value, seen, all))
    ensures k in value.fields && AllRefs(value.fields[k]) <= all &&
      SchemaField(root, value.fields[k], seen, all).Failed?
  {
    k :| k in value.fields && SchemaFields(root, value, seen, all)[k].Failed?;
  }

  lemma {:induction false} FieldNeverEnds(root: Json, value: Json, k: string, seen: seq<string>, all: set<string>,
                                          refs: set<string>, fuel: nat)
    requires AllRefs(root) <= all && AllRefs(value) <= all && Grounded(root, value, refs)
    requires value.Obj? && ReferenceOf(value.fields).None? && AllWithin(root, seen, value)
    requires k in value.fields && AllRefs(value.fields[k]) <= all &&
      SchemaField(root, value.fields[k], seen, all).Failed?
    ensures UnfoldFields(root, value, fuel)[k].None?
    decreases all - Visited(seen), value, 0
  {
    MetInside(value, k);
    match value.fields[k]
    case Obj(_) =>
      WithinField(root, seen, value, k, value.fields[k]);
      FailedNeverEnds(root, value.fields[k], seen, all, refs, fuel);
    case Arr(items) =>
      var i :| 0 <= i < |items| && SchemaItems(root, value.fields[k], seen, all)[i].Failed?;
      WithinField(root, seen, value, k, items[i]);
      FailedNeverEnds(root, items[i], seen, all, refs, fuel);
      assert UnfoldItems(root, value.fields[k], fuel)[i].None?;
  }

  /** Inlining a schema always comes to an end. When all references met lead to objects, it is
      refused exactly when the unfolding is infinite, then only as a cycle, and otherwise it is
      the full unfolding. */
  lemma {:induction false} InliningIsExact(root: Json, value: Json, all: set<string>, refs: set<string>)
    requires AllRefs(root) <= all && AllRefs(value) <= all && value.Obj? && Grounded(root, value, refs)
    ensures var result := Schema(root, value, [], all);
      && (result == Failed({CyclicReference}) <==> forall fuel: nat :: Unfold(root, value, fuel).None?)
      && (result.Done? ==> exists fuel: nat :: Unfold(root, value, fuel) == Some(result.value))
      && (result.Done? || result == Failed({CyclicReference}))
  {
    OnlyCycles(root, value, [], all, refs);
    if Schema(root, value, [], all).Done? {
      DoneIsUnfolded(root, value, [], all, refs);
    } else {
      forall fuel: nat ensures Unfold(root, value, fuel).None? {
        FailedNeverEnds(root, value, [], all, refs, fuel);
      }
    }
    hide Schema, Unfold, Grounded, AllRefs;
  }
}
