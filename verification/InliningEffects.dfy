/** What inlining leaves behind: no reference where it looks, everything else as it was, and nothing
    more to do the second time. */
module InliningEffects {
  import opened Scopes
  import opened Json
  import opened Texts
  import opened OpenApi

  // ----- no reference is left -----

  /** An object without a text under "$ref", whose objects, and the objects listed in it, are likewise. */
  predicate Plain(value: Json)
    decreases value, 0
  {
    && value.Obj?
    && !("$ref" in value.fields && value.fields["$ref"].Str?)
    && forall k :: k in value.fields ==> PlainInside(value.fields[k])
  }

  predicate PlainInside(value: Json)
    decreases value, 1
  {
    match value
    case Obj(_) => Plain(value)
    case Arr(items) => forall i :: 0 <= i < |items| && items[i].Obj? ==> Plain(items[i])
    case _ => true
  }

  lemma GatheredIsPlain(parts: map<string, Inlined>)
    requires EveryDone(parts) && forall k :: k in parts ==> PlainInside(parts[k].value)
    requires "$ref" in parts ==> !parts["$ref"].value.Str?
    ensures Plain(Gathered(parts).value)
  {
  }

  /** Whatever comes out holds no reference where inlining looks. */
  lemma {:induction false} DoneIsPlain(root: Json, value: Json, seen: seq<string>, all: set<string>)
    requires AllRefs(root) <= all && AllRefs(value) <= all && Schema(root, value, seen, all).Done?
    ensures Plain(Schema(root, value, seen, all).value)
    decreases all - Visited(seen), value, 1
  {
    if ReferenceOf(value.fields).Some? {
      var r := ReferenceOf(value.fields).value;
      ReferenceTogether(root, value, seen, all, 0);
      hide Schema, Lookup, AllRefs, Plain;
      assert r !in seen && Lookup(root, r).Found?;
      DoneIsPlain(root, Lookup(root, r).value, seen + [r], all);
    } else {
      var parts := SchemaFields(root, value, seen, all);
      DoneTogether(root, value, seen, all, 0);
      forall k | k in parts ensures PlainInside(parts[k].value) && (parts[k].value.Str? ==> value.fields[k].Str?) {
        FieldIsPlain(root, value.fields[k], seen, all);
      }
      hide Schema, Plain, PlainInside, AllRefs, Lookup;
      GatheredIsPlain(parts);
    }
  }

  lemma {:induction false} FieldIsPlain(root: Json, value: Json, seen: seq<string>, all: set<string>)
    requires AllRefs(root) <= all && AllRefs(value) <= all && SchemaField(root, value, seen, all).Done?
    ensures PlainInside(SchemaField(root, value, seen, all).value)
    ensures SchemaField(root, value, seen, all).value.Str? ==> value.Str?
    decreases all - Visited(seen), value, 2
  {
    match value
    case Obj(_) => DoneIsPlain(root, value, seen, all);
    case Arr(items) =>
      var parts := SchemaItems(root, value, seen, all);
      assert AllDone(parts);
      forall i | 0 <= i < |items| && parts[i].value.Obj? ensures Plain(parts[i].value) {
        DoneIsPlain(root, items[i], seen, all);
      }
    case _ =>
  }

  // ----- nothing else is touched -----

  /** A schema without references is returned as it is, in whatever document and under whatever
      expansion. */
  lemma {:induction false} PlainIsKept(root: Json, value: Json, seen: seq<string>, all: set<string>)
    requires AllRefs(root) <= all && AllRefs(value) <= all && Plain(value)
    ensures Schema(root, value, seen, all) == Done(value)
    decreases value, 1
  {
    var parts := SchemaFields(root, value, seen, all);
    forall k | k in parts ensures parts[k] == Done(value.fields[k]) {
      PlainFieldIsKept(root, value.fields[k], seen, all);
    }
    assert (map k | k in parts :: parts[k].value) == value.fields;
  }

  lemma {:induction false} PlainFieldIsKept(root: Json, value: Json, seen: seq<string>, all: set<string>)
    requires AllRefs(root) <= all && AllRefs(value) <= all && PlainInside(value)
    ensures SchemaField(root, value, seen, all) == Done(value)
    decreases value, 2
  {
    match value
    case Obj(_) => PlainIsKept(root, value, seen, all);
    case Arr(items) =>
      var parts := SchemaItems(root, value, seen, all);
      forall i | 0 <= i < |items| ensures parts[i] == Done(items[i]) {
        if items[i].Obj? {
          PlainIsKept(root, items[i], seen, all);
        }
      }
      assert seq(|parts|, i requires 0 <= i < |parts| => parts[i].value) == items;
    case _ =>
  }

  /** Inlining what was inlined changes nothing. */
  lemma {:induction false} InliningTwice(root: Json, value: Json, all: set<string>)
    requires AllRefs(root) <= all && AllRefs(value) <= all && Schema(root, value, [], all).Done?
    ensures var once := Schema(root, value, [], all).value;
            Schema(root, once, [], all + AllRefs(once)) == Schema(root, value, [], all)
  {
    hide Schema, Plain, AllRefs;
    var once := Schema(root, value, [], all).value;
    DoneIsPlain(root, value, [], all);
    PlainIsKept(root, once, [], all + AllRefs(once));
  }

  // ----- references stand for their targets -----

  /** What could be inlined during more expansions comes out the same during fewer. */
  lemma {:induction false} FewerExpansions(root: Json, value: Json, seen: seq<string>, fewer: seq<string>,
                                           all: set<string>)
    requires AllRefs(root) <= all && AllRefs(value) <= all && Schema(root, value, seen, all).Done?
    requires Visited(fewer) <= Visited(seen)
    ensures Schema(root, value, fewer, all) == Schema(root, value, seen, all)
    decreases all - Visited(seen), value, 1
  {
    if ReferenceOf(value.fields).Some? {
      var r := ReferenceOf(value.fields).value;
      ReferenceTogether(root, value, seen, all, 0);
      ReferenceTogether(root, value, fewer, all, 0);
      hide Schema, Lookup, AllRefs;
      FewerExpansions(root, Lookup(root, r).value, seen + [r], fewer + [r], all);
    } else {
      var parts, others := SchemaFields(root, value, seen, all), SchemaFields(root, value, fewer, all);
      DoneTogether(root, value, seen, all, 0);
      DoneTogether(root, value, fewer, all, 0);
      forall k | k in parts ensures others[k] == parts[k] {
        FewerInField(root, value.fields[k], seen, fewer, all);
      }
      hide Schema, SchemaFields, AllRefs;
      assert others == parts;
    }
  }

  lemma {:induction false} FewerInField(root: Json, value: Json, seen: seq<string>, fewer: seq<string>,
                                        all: set<string>)
    requires AllRefs(root) <= all && AllRefs(value) <= all && SchemaField(root, value, seen, all).Done?
    requires Visited(fewer) <= Visited(seen)
    ensures SchemaField(root, value, fewer, all) == SchemaField(root, value, seen, all)
    decreases all - Visited(seen), value, 2
  {
    match value
    case Obj(_) => FewerExpansions(root, value, seen, fewer, all);
    case Arr(items) =>
      var parts, others := SchemaItems(root, value, seen, all), SchemaItems(root, value, fewer, all);
      assert AllDone(parts);
      forall i | 0 <= i < |items| ensures others[i] == parts[i] {
        assert parts[i].Done?;
        if items[i].Obj? {
          FewerExpansions(root, items[i], seen, fewer, all);
        }
      }
      assert others == parts;
    case _ =>
  }

  /** A schema that is a reference, whatever stands beside it, becomes what its target becomes. */
  lemma {:induction false} ReferenceIsItsTarget(root: Json, value: Json, all: set<string>)
    requires AllRefs(root) <= all && AllRefs(value) <= all && Schema(root, value, [], all).Done?
    requires value.Obj? && "$ref" in value.fields && value.fields["$ref"].Str?
    ensures var found := Lookup(root, value.fields["$ref"].s);
            found.Found? && AllRefs(found.value) <= all
            && Schema(root, found.value, [], all) == Schema(root, value, [], all)
  {
    var r := value.fields["$ref"].s;
    ReferenceTogether(root, value, [], all, 0);
    hide Schema, Lookup, AllRefs;
    assert [] + [r] == [r];
    FewerExpansions(root, Lookup(root, r).value, [r], [], all);
  }

  /** Any other schema keeps its names: what is neither object nor list stays, objects are inlined, and
      so are the objects of a list, each in its place. */
  lemma {:induction false} OthersKeepTheirShape(root: Json, value: Json, all: set<string>)
    requires AllRefs(root) <= all && AllRefs(value) <= all && Schema(root, value, [], all).Done?
    requires value.Obj? && !("$ref" in value.fields && value.fields["$ref"].Str?)
    ensures var after := Schema(root, value, [], all).value;
      && after.Obj? && after.fields.Keys == value.fields.Keys
      && forall k :: k in value.fields ==> ShapeKept(root, value.fields[k], after.fields[k], all)
  {
    var parts := SchemaFields(root, value, [], all);
    DoneTogether(root, value, [], all, 0);
    hide ShapeKept;
    forall k | k in value.fields ensures ShapeKept(root, value.fields[k], parts[k].value, all) {
      FieldKeepsShape(root, value.fields[k], all);
    }
  }

  predicate ShapeKept(root: Json, before: Json, after: Json, all: set<string>)
    requires AllRefs(root) <= all
  {
    AllRefs(before) <= all &&
    match before
    case Obj(_) => Schema(root, before, [], all) == Done(after)
    case Arr(items) =>
      && after.Arr? && |after.items| == |items|
      && forall i :: 0 <= i < |items| ==>
           if items[i].Obj? then AllRefs(items[i]) <= all && Schema(root, items[i], [], all) == Done(after.items[i])
           else after.items[i] == items[i]
    case _ => after == before
  }

  lemma {:induction false} FieldKeepsShape(root: Json, before: Json, all: set<string>)
    requires AllRefs(root) <= all && AllRefs(before) <= all && SchemaField(root, before, [], all).Done?
    ensures ShapeKept(root, before, SchemaField(root, before, [], all).value, all)
  {
    if before.Arr? {
      var parts := SchemaItems(root, before, [], all);
      assert AllDone(parts);
      forall i | 0 <= i < |before.items| ensures AllRefs(before.items[i]) <= all && parts[i].Done? {
      }
    }
  }
}
