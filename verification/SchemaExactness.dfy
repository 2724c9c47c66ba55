/** Where the translation of a schema loses nothing, or exactly its constraints on additional properties:
    nothing beside a reference overrides its target, exclusive bounds are whole bounds of integers without
    inclusive ones beside them, items start where they did, and no property (nor pattern, nor dependency)
    bears the name of a dropped keyword. */
module SchemaExactness {
  import opened Domain
  import opened JsonPointer
  import opened SchemaTranslation
  import opened SchemaReferences
  import opened SchemaMeaning
  import opened SchemaWeakening
  import opened SchemaConditions

  // ---------------------------------------------------------------- what is lost

  /** Keywords that do not say which instances are accepted; with `strict` unset, additionalProperties is
      one of them. */
  predicate Silent(k: string, strict: bool) {
    k == "$defs" || k == "$schema" || (!strict && k == "additionalProperties")
  }

  predicate Overrides(target: Fields, fields: Fields, strict: bool) {
    exists k :: k in fields && k in target && k != "$ref" && !Silent(k, strict) && fields[k] != target[k]
  }

  predicate KeepsBound(fields: Fields, lower: bool) {
    Exclusive(lower) in fields ==>
      IntegerBound(fields, lower) && Whole(fields[Exclusive(lower)].n) && Inclusive(lower) !in fields
  }

  /** Where `items` start stays the same for the target and for what stands beside the reference. */
  predicate KeepsItems(target: Fields, fields: Fields) {
    var merged := PrefixLength(Merged(target, fields));
    ("items" in target ==> merged == PrefixLength(target)) && ("items" in fields ==> merged == PrefixLength(fields))
  }

  predicate KeepsNames(fields: Fields) {
    forall k :: k in MAP_VALUED && k in fields && fields[k].Object? ==> fields[k].fields.Keys !! DROPPED
  }

  predicate KeepsAll(fields: Fields, strict: bool) {
    && (strict ==> "additionalProperties" !in fields)
    && KeepsBound(fields, true)
    && KeepsBound(fields, false)
    && KeepsNames(fields)
  }

  /** The walk from `v`, with the references in `resolving` open, meets no failure and drops nothing
      that constrains; with `strict` unset, except additionalProperties. */
  ghost predicate Faithful(root: Json, v: Json, resolving: set<string>, strict: bool)
    requires RefsIn(v) <= RefsIn(root)
    decreases RefsIn(root) - resolving, v
  {
    match v
    case Array(items) => forall i :: 0 <= i < |items| ==> Faithful(root, items[i], resolving, strict)
    case Object(fields) =>
      (match RefOf(fields)
       case Some(reference) =>
         MergedRefs(root, fields, reference);
         var target := Resolve(root, reference);
         && reference !in resolving
         && target.Found? && target.value.Object?
         && !Overrides(target.value.fields, fields, strict) && KeepsItems(target.value.fields, fields)
         && Faithful(root, Object(Merged(target.value.fields, fields)), resolving + {reference}, strict)
       case None =>
         && KeepsAll(fields, strict)
         && forall k :: k in fields && k !in DROPPED ==> Faithful(root, fields[k], resolving, strict))
    case _ => true
  }

  lemma {:induction false} FaithfulIsSafe(
    root: Json, v: Json, resolving: set<string>, strict: bool, what: Finding)
    requires RefsIn(v) <= RefsIn(root) && Faithful(root, v, resolving, strict)
    ensures !Meets(root, v, resolving, what)
    decreases RefsIn(root) - resolving, v
  {
    match v
    case Array(items) =>
      forall i | 0 <= i < |items| ensures !Meets(root, items[i], resolving, what) {
        FaithfulIsSafe(root, items[i], resolving, strict, what);
      }
    case Object(fields) =>
      match RefOf(fields) {
        case Some(reference) =>
          MergedRefs(root, fields, reference);
          FaithfulIsSafe(root, Entered(root, fields).value, resolving + {reference}, strict, what);
        case None =>
          BoundsAreWhole(fields, strict);
          forall k | k in fields && k !in DROPPED
            ensures RefsIn(fields[k]) <= RefsIn(root) && !Meets(root, fields[k], resolving, what)
          {
            PartRefs(v, fields[k]);
            FaithfulIsSafe(root, fields[k], resolving, strict, what);
          }
      }
    case _ =>
  }

  lemma BoundsAreWhole(fields: Fields, strict: bool)
    requires KeepsAll(fields, strict)
    ensures !Fractional(fields)
  {
    assert Exclusive(true) == "exclusiveMinimum" && Exclusive(false) == "exclusiveMaximum";
  }

  // ---------------------------------------------------------------- the theorem

  /** A schema and its translation accept the same instances. */
  lemma TranslationMeansTheSame(schema: Json, leaf: Leaf, inst: Json)
    requires Schema(leaf, schema) && TargetsAreSchemas(leaf, schema) && Faithful(schema, schema, {}, true)
    ensures Safe(schema, schema, {})
    ensures var out := Translate(schema, schema, {});
      Valid(Context(schema, leaf, true), schema, inst, {}) <==> Valid(Context(out, leaf, true), out, inst, {})
  {
    OriginalAndTranslation(schema, leaf, inst, true);
  }

  /** Dropping additionalProperties loses exactly that: the translation accepts the instances the schema
      accepts once nothing is said about additional properties, at any depth. */
  lemma TranslationLosesExactlyAdditionalProperties(schema: Json, leaf: Leaf, inst: Json)
    requires Schema(leaf, schema) && TargetsAreSchemas(leaf, schema) && Faithful(schema, schema, {}, false)
    ensures Safe(schema, schema, {})
    ensures var out := Translate(schema, schema, {});
      Valid(Context(schema, leaf, false), schema, inst, {}) <==> Valid(Context(out, leaf, true), out, inst, {})
  {
    OriginalAndTranslation(schema, leaf, inst, false);
  }

  lemma OriginalAndTranslation(schema: Json, leaf: Leaf, inst: Json, strict: bool)
    requires Schema(leaf, schema) && TargetsAreSchemas(leaf, schema) && Faithful(schema, schema, {}, strict)
    ensures Safe(schema, schema, {})
    ensures var out := Translate(schema, schema, {});
      Valid(Context(schema, leaf, strict), schema, inst, {}) <==> Valid(Context(out, leaf, true), out, inst, {})
  {
    forall what ensures !Meets(schema, schema, {}, what) {
      FaithfulIsSafe(schema, schema, {}, strict, what);
    }
    var out := Translate(schema, schema, {});
    var c, d := Context(schema, leaf, strict), Context(out, leaf, true);
    if Valid(c, schema, inst, {}) {
      ValidRelaxes(c, Context(schema, leaf, false), schema, inst, {}, {});
      Weakens(Context(schema, leaf, false), d, schema, {}, inst, {});
    }
    if Valid(d, out, inst, {}) {
      Strengthens(c, d, schema, {}, inst, {});
    }
  }

  /** What can be said of a faithful part of a schema. */
  ghost predicate Part(c: Context, v: Json, resolving: set<string>) {
    && TargetsAreSchemas(c.leaf, c.root)
    && RefsIn(v) <= RefsIn(c.root)
    && Faithful(c.root, v, resolving, c.strict)
    && Translatable(c.root, v, resolving)
  }

  lemma PartOf(c: Context, v: Json, resolving: set<string>, inner: Json)
    requires Part(c, v, resolving) && KeptPart(v, inner)
    ensures Part(c, inner, resolving)
  {
    Within(c.root, v, resolving, inner);
  }

  /** `c` reads the original, `d` the translation. */
  lemma {:induction false} Strengthens(
    c: Context, d: Context, v: Json, resolving: set<string>, inst: Json, open: set<string>)
    requires d.leaf == c.leaf && open <= resolving
    requires Schema(c.leaf, v) && Part(c, v, resolving)
    requires Valid(d, Translate(c.root, v, resolving), inst, {})
    ensures Valid(c, v, inst, open)
    decreases RefsIn(c.root) - resolving, v, 4
  {
    if v.Object? {
      if RefOf(v.fields).Some? {
        ReferenceStrengthens(c, d, v.fields, resolving, inst, open);
      } else {
        forall k | k in v.fields ensures Holds(c, v.fields, k, inst, open) {
          EntryStrengthens(c, d, v, resolving, k, inst, open);
        }
      }
    }
  }

  lemma {:induction false} ReferenceStrengthens(
    c: Context, d: Context, fields: Fields, resolving: set<string>, inst: Json, open: set<string>)
    requires d.leaf == c.leaf && open <= resolving
    requires Schema(c.leaf, Object(fields)) && Part(c, Object(fields), resolving) && RefOf(fields).Some?
    requires Valid(d, Translate(c.root, Object(fields), resolving), inst, {})
    ensures Valid(c, Object(fields), inst, open)
    decreases RefsIn(c.root) - resolving, Object(fields), 3
  {
    var reference := RefOf(fields).value;
    Opens(c.root, fields, resolving, reference);
    NothingAdditional(c.root, fields, resolving, c.strict);
    var target := Resolve(c.root, reference).value.fields;
    MergedIsSchema(c.leaf, target, fields);
    Strengthens(c, d, Object(Merged(target, fields)), resolving + {reference}, inst, open + {reference});
    assert KeepsItems(target, fields);
    MergedOnlyIfValid(c, target, fields, inst, open);
  }

  lemma {:induction false} NothingAdditional(root: Json, fields: Fields, resolving: set<string>, strict: bool)
    requires RefsIn(Object(fields)) <= RefsIn(root) && Faithful(root, Object(fields), resolving, strict)
    ensures strict ==> "additionalProperties" !in fields
    ensures strict && RefOf(fields).Some? ==>
              "additionalProperties" !in Resolve(root, RefOf(fields).value).value.fields
    decreases RefsIn(root) - resolving
  {
    if RefOf(fields).Some? {
      var reference := RefOf(fields).value;
      MergedRefs(root, fields, reference);
      NothingAdditional(root, Merged(Resolve(root, reference).value.fields, fields), resolving + {reference}, strict);
    }
  }

  /** Where nothing is overridden and items start where they did, an instance that satisfies the merged
      object satisfies the reference and what stands beside it. */
  lemma MergedOnlyIfValid(c: Context, target: Fields, fields: Fields, inst: Json, open: set<string>)
    requires RefOf(fields).Some? && RefOf(fields).value in RefsIn(c.root) - open
    requires Resolve(c.root, RefOf(fields).value) == Found(Object(target))
    requires !Overrides(target, fields, c.strict) && KeepsItems(target, fields)
    requires c.strict ==> "additionalProperties" !in target && "additionalProperties" !in fields
    requires Valid(c, Object(Merged(target, fields)), inst, open + {RefOf(fields).value})
    ensures Valid(c, Object(fields), inst, open)
  {
    var inside := open + {RefOf(fields).value};
    var merged := Merged(target, fields);
    forall k | k in target ensures Holds(c, target, k, inst, inside) {
      TargetHolds(c, target, fields, k, inst, inside);
    }
    assert Valid(c, Object(target), inst, inside);
    forall k | k in fields && k != "$ref" ensures Holds(c, fields, k, inst, open) {
      assert Holds(c, merged, k, inst, inside) && merged[k] == fields[k];
      SameEntry(c, merged, fields, k, inst, inside);
      HoldsRelaxes(c, c, fields, k, inst, inside, open);
    }
  }

  lemma TargetHolds(c: Context, target: Fields, fields: Fields, k: string, inst: Json, inside: set<string>)
    requires k in target && !Overrides(target, fields, c.strict) && KeepsItems(target, fields)
    requires c.strict ==> "additionalProperties" !in target && "additionalProperties" !in fields
    requires Valid(c, Object(Merged(target, fields)), inst, inside)
    ensures Holds(c, target, k, inst, inside)
  {
    var merged := Merged(target, fields);
    if !Silent(k, c.strict) {
      TargetEntryStays(target, fields, k, c.strict);
      assert Holds(c, merged, k, inst, inside);
      SameEntry(c, merged, target, k, inst, inside);
    }
  }

  lemma TargetEntryStays(target: Fields, fields: Fields, k: string, strict: bool)
    requires k in target && !Overrides(target, fields, strict) && !Silent(k, strict)
    ensures k in Merged(target, fields) && Merged(target, fields)[k] == target[k]
  {
  }

  lemma SameEntry(c: Context, merged: Fields, fields: Fields, k: string, inst: Json, open: set<string>)
    requires k in merged && k in fields && merged[k] == fields[k] && (k == "additionalProperties" ==> !c.strict)
    requires k == "items" ==> PrefixLength(merged) == PrefixLength(fields)
    requires Holds(c, merged, k, inst, open)
    ensures Holds(c, fields, k, inst, open)
  {
    if k != "additionalProperties" {
      LaterItems(c, k, fields[k], PrefixLength(merged), PrefixLength(fields), inst, open);
    }
  }

  lemma {:induction false} EntryStrengthens(
    c: Context, d: Context, v: Json, resolving: set<string>, k: string, inst: Json, open: set<string>)
    requires d.leaf == c.leaf && open <= resolving
    requires v.Object? && Schema(c.leaf, v) && Part(c, v, resolving) && RefOf(v.fields).None?
    requires k in v.fields && Valid(d, Translate(c.root, v, resolving), inst, {})
    ensures Holds(c, v.fields, k, inst, open)
    decreases RefsIn(c.root) - resolving, v, 3
  {
    if k == "exclusiveMinimum" || k == "exclusiveMaximum" {
      ExclusiveStrengthens(c, d, v, resolving, k == "exclusiveMinimum", inst, open);
    } else if k !in DROPPED {
      var value, from := v.fields[k], PrefixLength(v.fields);
      IsNoReference(c.leaf, v.fields, k);
      PartOf(c, v, resolving, value);
      KeptHolds(c, d, v, resolving, k, inst);
      ValueStrengthens(c, d, k, value, from, resolving, inst, open);
    }
  }

  lemma ExclusiveStrengthens(
    c: Context, d: Context, v: Json, resolving: set<string>, lower: bool, inst: Json, open: set<string>)
    requires d.leaf == c.leaf
    requires v.Object? && Schema(c.leaf, v) && Part(c, v, resolving) && RefOf(v.fields).None?
    requires Exclusive(lower) in v.fields && Valid(d, Translate(c.root, v, resolving), inst, {})
    ensures Holds(c, v.fields, Exclusive(lower), inst, open)
  {
    var kept := TranslateFields(c.root, v.fields, resolving);
    TypeStays(c.root, v, resolving);
    BoundStrengthens(c, d, v.fields, kept, lower, inst, open);
  }

  lemma TypeStays(root: Json, v: Json, resolving: set<string>)
    requires v.Object? && RefsIn(v) <= RefsIn(root) && Translatable(root, v, resolving) && RefOf(v.fields).None?
    requires "type" in v.fields && v.fields["type"] == Text("integer")
    ensures var kept := TranslateFields(root, v.fields, resolving);
      "type" in kept && kept["type"] == Text("integer")
  {
    assert "type" !in DROPPED;
    Within(root, v, resolving, v.fields["type"]);
  }

  lemma IsNoReference(leaf: Leaf, fields: Fields, k: string)
    requires Schema(leaf, Object(fields)) && RefOf(fields).None? && k in fields
    ensures k != "$ref" && Shape(leaf, k, fields[k])
  {
    assert Shape(leaf, k, fields[k]);
  }

  lemma BoundStrengthens(
    c: Context, d: Context, fields: Fields, kept: Fields, lower: bool, inst: Json, open: set<string>)
    requires KeepsAll(fields, c.strict) && Exclusive(lower) in fields
    requires "type" in kept && kept["type"] == Text("integer") && Valid(d, Object(WithBounds(fields, kept)), inst, {})
    ensures Holds(c, fields, Exclusive(lower), inst, open)
  {
    var out := WithBounds(fields, kept);
    assert Holds(d, out, "type", inst, {});
    WholeBoundsAreExact(c, d, fields, kept, lower, inst, open);
    assert Holds(d, out, Inclusive(lower), inst, {});
  }

  /** An entry that is not dropped stands translated in the result, as no bound is written over it. */
  lemma KeptHolds(c: Context, d: Context, v: Json, resolving: set<string>, k: string, inst: Json)
    requires v.Object? && Schema(c.leaf, v) && Part(c, v, resolving) && RefOf(v.fields).None?
    requires k in v.fields && k !in DROPPED
    requires Part(c, v.fields[k], resolving) && Valid(d, Translate(c.root, v, resolving), inst, {})
    ensures ValueHolds(d, k, Translate(c.root, v.fields[k], resolving), PrefixLength(v.fields), inst, {})
  {
    var kept := TranslateFields(c.root, v.fields, resolving);
    var out := WithBounds(v.fields, kept);
    assert Translate(c.root, v, resolving) == Object(out);
    assert kept[k] == Translate(c.root, v.fields[k], resolving);
    NotReplaced(v.fields, kept, k, c.strict);
    assert Holds(d, out, k, inst, {});
    SamePrefix(c, v, resolving);
  }

  lemma SamePrefix(c: Context, v: Json, resolving: set<string>)
    requires v.Object? && Schema(c.leaf, v) && Part(c, v, resolving) && RefOf(v.fields).None?
    ensures PrefixLength(WithBounds(v.fields, TranslateFields(c.root, v.fields, resolving))) == PrefixLength(v.fields)
  {
    if "prefixItems" in v.fields {
      assert Shape(c.leaf, "prefixItems", v.fields["prefixItems"]) && "prefixItems" !in DROPPED;
      Within(c.root, v, resolving, v.fields["prefixItems"]);
      LeavesAndItems(c.root, v.fields["prefixItems"], resolving);
    }
    BoundsByKey(v.fields, TranslateFields(c.root, v.fields, resolving));
  }

  lemma NotReplaced(fields: Fields, kept: Fields, k: string, strict: bool)
    requires KeepsAll(fields, strict) && k in fields && k in kept
    ensures k in WithBounds(fields, kept) && WithBounds(fields, kept)[k] == kept[k]
  {
    assert Inclusive(true) == "minimum" && Inclusive(false) == "maximum";
  }

  // ---------------------------------------------------------------- keyword by keyword

  lemma {:induction false} ValueStrengthens(
    c: Context, d: Context, k: string, value: Json, from: nat, resolving: set<string>, inst: Json, open: set<string>)
    requires d.leaf == c.leaf && open <= resolving && k !in DROPPED && k != "$ref"
    requires Shape(c.leaf, k, value) && Part(c, value, resolving)
    requires k in MAP_VALUED ==> value.fields.Keys !! DROPPED
    requires ValueHolds(d, k, Translate(c.root, value, resolving), from, inst, {})
    ensures ValueHolds(c, k, value, from, inst, open)
    decreases RefsIn(c.root) - resolving, value, 6
  {
    if k in ON_ITEMS {
      if inst.Array? {
        ItemsStrengthen(c, d, k, value, from, resolving, inst);
      }
    } else if k in ON_PROPERTIES {
      if inst.Object? {
        PropertiesStrengthen(c, d, k, value, resolving, inst);
      }
    } else if k in IN_PLACE {
      InPlaceStrengthens(c, d, k, value, resolving, inst, open);
    } else if k in BOUNDS || k == "type" || Clean(value) {
      CleanStays(c.root, value, resolving);
    }
  }

  lemma {:induction false} ItemsStrengthen(
    c: Context, d: Context, k: string, value: Json, from: nat, resolving: set<string>, inst: Json)
    requires d.leaf == c.leaf && k in ON_ITEMS && inst.Array?
    requires Shape(c.leaf, k, value) && Part(c, value, resolving)
    requires ItemsHold(d, k, Translate(c.root, value, resolving), from, inst)
    ensures ItemsHold(c, k, value, from, inst)
    decreases RefsIn(c.root) - resolving, value, 5
  {
    var out := Translate(c.root, value, resolving);
    if k == "items" {
      forall i | from <= i < |inst.items| ensures Valid(c, value, inst.items[i], {}) {
        Strengthens(c, d, value, resolving, inst.items[i], {});
      }
    } else if k == "prefixItems" {
      forall i | 0 <= i < |value.items| && i < |inst.items| ensures Valid(c, value.items[i], inst.items[i], {}) {
        PartOf(c, value, resolving, value.items[i]);
        assert out.items[i] == Translate(c.root, value.items[i], resolving);
        Strengthens(c, d, value.items[i], resolving, inst.items[i], {});
      }
    } else {
      var i :| 0 <= i < |inst.items| && Valid(d, out, inst.items[i], {});
      Strengthens(c, d, value, resolving, inst.items[i], {});
    }
  }

  lemma {:induction false} PropertiesStrengthen(
    c: Context, d: Context, k: string, value: Json, resolving: set<string>, inst: Json)
    requires d.leaf == c.leaf && k in ON_PROPERTIES && inst.Object?
    requires Shape(c.leaf, k, value) && Part(c, value, resolving)
    requires k in MAP_VALUED ==> value.fields.Keys !! DROPPED
    requires PropertiesHold(d, k, Translate(c.root, value, resolving), inst)
    ensures PropertiesHold(c, k, value, inst)
    decreases RefsIn(c.root) - resolving, value, 5
  {
    var out := Translate(c.root, value, resolving);
    if k == "propertyNames" {
      forall p | p in inst.fields ensures Valid(c, value, Text(p), {}) {
        Strengthens(c, d, value, resolving, Text(p), {});
      }
    } else {
      MapStaysMap(c.leaf, c.root, value, resolving);
      forall p, name | p in value.fields && name in inst.fields && Concerns(c.leaf, k, p, name)
        ensures Valid(c, value.fields[p], inst.fields[name], {})
      {
        PartOf(c, value, resolving, value.fields[p]);
        Strengthens(c, d, value.fields[p], resolving, inst.fields[name], {});
      }
    }
  }

  lemma {:induction false} InPlaceStrengthens(
    c: Context, d: Context, k: string, value: Json, resolving: set<string>, inst: Json, open: set<string>)
    requires d.leaf == c.leaf && open <= resolving && k in IN_PLACE
    requires Shape(c.leaf, k, value) && Part(c, value, resolving)
    requires k in MAP_VALUED ==> value.fields.Keys !! DROPPED
    requires InPlaceHolds(d, k, Translate(c.root, value, resolving), inst, {})
    ensures InPlaceHolds(c, k, value, inst, open)
    decreases RefsIn(c.root) - resolving, value, 5
  {
    var out := Translate(c.root, value, resolving);
    if k == "anyOf" {
      var i :| 0 <= i < |out.items| && Valid(d, out.items[i], inst, {});
      PartOf(c, value, resolving, value.items[i]);
      Strengthens(c, d, value.items[i], resolving, inst, open);
    } else if k == "allOf" {
      forall i | 0 <= i < |value.items| ensures Valid(c, value.items[i], inst, open) {
        PartOf(c, value, resolving, value.items[i]);
        assert out.items[i] == Translate(c.root, value.items[i], resolving);
        Strengthens(c, d, value.items[i], resolving, inst, open);
      }
    } else {
      MapStaysMap(c.leaf, c.root, value, resolving);
      if inst.Object? {
        forall p | p in value.fields && p in inst.fields ensures Valid(c, value.fields[p], inst, open) {
          PartOf(c, value, resolving, value.fields[p]);
          Strengthens(c, d, value.fields[p], resolving, inst, open);
        }
      }
    }
  }
}
