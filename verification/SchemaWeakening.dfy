/** What inlining does to meaning: every instance the original schema accepts is accepted by its
    translation, unless an integer has a fractional exclusive bound, a constant holds what the
    translation rewrites, or a reference has a shorter `prefixItems` beside it than its target has. */
module SchemaWeakening {
  import opened Domain
  import opened JsonPointer
  import opened SchemaTranslation
  import opened SchemaReferences
  import opened SchemaMeaning

  /** The walk meets no failure and nothing it translates to something stricter. */
  ghost predicate Safe(root: Json, v: Json, resolving: set<string>) {
    RefsIn(v) <= RefsIn(root) && forall what :: !Meets(root, v, resolving, what)
  }

  lemma WithinSafe(root: Json, v: Json, resolving: set<string>, part: Json)
    requires Safe(root, v, resolving) && KeptPart(v, part)
    ensures Safe(root, part, resolving)
  {
    PartRefs(v, part);
    forall what ensures !Meets(root, part, resolving, what) {
      assert !Meets(root, v, resolving, what);
    }
  }

  lemma OpensSafe(root: Json, fields: Fields, resolving: set<string>, reference: string)
    requires Safe(root, Object(fields), resolving) && RefOf(fields) == Some(reference)
    ensures reference !in resolving && reference in RefsIn(root)
    ensures var target := Resolve(root, reference);
      && target.Found? && target.value.Object?
      && Safe(root, Object(Merged(target.value.fields, fields)), resolving + {reference})
  {
    Opens(root, fields, resolving, reference);
    var merged := Object(Merged(Resolve(root, reference).value.fields, fields));
    forall what ensures !Meets(root, merged, resolving + {reference}, what) {
      assert !Meets(root, Object(fields), resolving, what);
    }
  }

  // ---------------------------------------------------------------- merging only asks for less

  /** Where an instance satisfies an object with a reference, it satisfies the merged object, if that
      does not let the items of the target start earlier. */
  lemma MergedIsValid(c: Context, target: Fields, fields: Fields, inst: Json, open: set<string>)
    requires !c.strict && RefOf(fields).Some? && Valid(c, Object(fields), inst, open)
    requires Resolve(c.root, RefOf(fields).value) == Found(Object(target)) && !MovesItems(target, fields)
    ensures Valid(c, Object(Merged(target, fields)), inst, open)
  {
    var reference := RefOf(fields).value;
    var merged := Merged(target, fields);
    assert Holds(c, fields, "$ref", inst, open);
    ValidRelaxes(c, c, Object(target), inst, open + {reference}, open);
    forall k | k in merged ensures Holds(c, merged, k, inst, open) {
      if k in fields && k != "$ref" {
        EntryMoves(c, fields, merged, k, inst, open);
      } else {
        EntryMoves(c, target, merged, k, inst, open);
      }
    }
  }

  lemma EntryMoves(c: Context, fields: Fields, merged: Fields, k: string, inst: Json, open: set<string>)
    requires !c.strict && k in fields && k in merged && merged[k] == fields[k]
    requires k == "items" ==> PrefixLength(fields) <= PrefixLength(merged)
    requires Valid(c, Object(fields), inst, open)
    ensures Holds(c, merged, k, inst, open)
  {
    assert Holds(c, fields, k, inst, open);
    if k != "additionalProperties" {
      LaterItems(c, k, fields[k], PrefixLength(fields), PrefixLength(merged), inst, open);
    }
  }

  lemma MergedIsSchema(leaf: Leaf, target: Fields, fields: Fields)
    requires Schema(leaf, Object(target)) && Schema(leaf, Object(fields))
    ensures Schema(leaf, Object(Merged(target, fields)))
  {
  }

  // ---------------------------------------------------------------- clean values and maps of schemas

  lemma {:induction false} CleanStays(root: Json, v: Json, resolving: set<string>)
    requires RefsIn(v) <= RefsIn(root) && Translatable(root, v, resolving) && Clean(v)
    ensures Translate(root, v, resolving) == v
    decreases v
  {
    match v
    case Array(items) =>
      forall i | 0 <= i < |items|
        ensures RefsIn(items[i]) <= RefsIn(root) && Translatable(root, items[i], resolving)
                && Translate(root, items[i], resolving) == items[i]
      {
        Within(root, v, resolving, items[i]);
        CleanStays(root, items[i], resolving);
      }
    case Object(fields) =>
      forall k | k in fields ensures TranslateFields(root, fields, resolving)[k] == fields[k] {
        Within(root, v, resolving, fields[k]);
        CleanStays(root, fields[k], resolving);
      }
      assert TranslateFields(root, fields, resolving) == fields;
    case _ =>
  }

  /** A map of schemas is no reference, whatever its keys. */
  lemma MapStaysMap(leaf: Leaf, root: Json, value: Json, resolving: set<string>)
    requires value.Object? && (forall p :: p in value.fields ==> Schema(leaf, value.fields[p]))
    requires RefsIn(value) <= RefsIn(root) && Translatable(root, value, resolving)
    ensures RefOf(value.fields).None?
    ensures var out := Translate(root, value, resolving);
      && out.Object?
      && (forall p :: p in out.fields <==> p in value.fields && p !in DROPPED)
      && forall p :: p in value.fields && p !in DROPPED ==>
           KeptPart(value, value.fields[p]) && RefsIn(value.fields[p]) <= RefsIn(root)
           && Translatable(root, value.fields[p], resolving)
           && out.fields[p] == Translate(root, value.fields[p], resolving)
  {
    assert "$ref" in value.fields ==> Schema(leaf, value.fields["$ref"]);
    forall p | p in value.fields && p !in DROPPED
      ensures KeptPart(value, value.fields[p]) && RefsIn(value.fields[p]) <= RefsIn(root)
              && Translatable(root, value.fields[p], resolving)
    {
      Within(root, value, resolving, value.fields[p]);
    }
    NoBoundInMap(leaf, value.fields, "exclusiveMinimum");
    NoBoundInMap(leaf, value.fields, "exclusiveMaximum");
    assert Translate(root, value, resolving) == Object(TranslateFields(root, value.fields, resolving));
  }

  lemma NoBoundInMap(leaf: Leaf, fields: Fields, k: string)
    requires forall p :: p in fields ==> Schema(leaf, fields[p])
    ensures InclusiveBound(fields, k, 1.0).None? && InclusiveBound(fields, k, -1.0).None?
  {
    assert k in fields ==> Schema(leaf, fields[k]);
  }

  // ---------------------------------------------------------------- the theorem

  /** Every instance valid for the original is valid for the translation. */
  lemma TranslationAcceptsMore(schema: Json, leaf: Leaf, inst: Json)
    requires Schema(leaf, schema) && TargetsAreSchemas(leaf, schema) && Safe(schema, schema, {})
    requires Valid(Context(schema, leaf, true), schema, inst, {})
    ensures var out := Translate(schema, schema, {}); Valid(Context(out, leaf, true), out, inst, {})
  {
    var c, d := Context(schema, leaf, true), Context(schema, leaf, false);
    ValidRelaxes(c, d, schema, inst, {}, {});
    Weakens(d, Context(Translate(schema, schema, {}), leaf, true), schema, {}, inst, {});
  }

  /** `c` reads the original, `d` the translation. */
  lemma {:induction false} Weakens(
    c: Context, d: Context, v: Json, resolving: set<string>, inst: Json, open: set<string>)
    requires !c.strict && d.leaf == c.leaf
    requires Schema(c.leaf, v) && TargetsAreSchemas(c.leaf, c.root) && Safe(c.root, v, resolving)
    requires Valid(c, v, inst, open)
    ensures Valid(d, Translate(c.root, v, resolving), inst, {})
    decreases RefsIn(c.root) - resolving, v, 4
  {
    if v.Object? {
      if RefOf(v.fields).Some? {
        ReferenceWeakens(c, d, v.fields, resolving, inst, open);
      } else {
        ObjectWeakens(c, d, v, resolving, inst, open);
      }
    }
  }

  lemma {:induction false} ReferenceWeakens(
    c: Context, d: Context, fields: Fields, resolving: set<string>, inst: Json, open: set<string>)
    requires !c.strict && d.leaf == c.leaf
    requires Schema(c.leaf, Object(fields)) && TargetsAreSchemas(c.leaf, c.root)
    requires Safe(c.root, Object(fields), resolving)
    requires RefOf(fields).Some? && Valid(c, Object(fields), inst, open)
    ensures Valid(d, Translate(c.root, Object(fields), resolving), inst, {})
    decreases RefsIn(c.root) - resolving, Object(fields), 3
  {
    var reference := RefOf(fields).value;
    OpensSafe(c.root, fields, resolving, reference);
    var target := Resolve(c.root, reference).value.fields;
    MergedIsSchema(c.leaf, target, fields);
    assert !Meets(c.root, Object(fields), resolving, EarlierItems);
    MergedIsValid(c, target, fields, inst, open);
    Weakens(c, d, Object(Merged(target, fields)), resolving + {reference}, inst, open);
  }

  lemma {:induction false} ObjectWeakens(
    c: Context, d: Context, v: Json, resolving: set<string>, inst: Json, open: set<string>)
    requires !c.strict && d.leaf == c.leaf
    requires v.Object? && Schema(c.leaf, v) && TargetsAreSchemas(c.leaf, c.root) && Safe(c.root, v, resolving)
    requires RefOf(v.fields).None? && Valid(c, v, inst, open)
    ensures Valid(d, Object(Kept(c.root, v, resolving)), inst, {})
    decreases RefsIn(c.root) - resolving, v, 3
  {
    var kept := Kept(c.root, v, resolving);
    forall k | k in kept ensures Holds(d, kept, k, inst, {}) {
      EntryWeakens(c, d, v, resolving, k, inst, open);
    }
  }

  /** The entries of a translated object. */
  ghost function Kept(root: Json, v: Json, resolving: set<string>): (kept: Fields)
    requires v.Object? && RefOf(v.fields).None? && Safe(root, v, resolving)
    ensures Translate(root, v, resolving) == Object(kept)
  {
    WithBounds(v.fields, TranslateFields(root, v.fields, resolving))
  }

  lemma {:induction false} EntryWeakens(
    c: Context, d: Context, v: Json, resolving: set<string>, k: string, inst: Json, open: set<string>)
    requires !c.strict && d.leaf == c.leaf
    requires v.Object? && Schema(c.leaf, v) && TargetsAreSchemas(c.leaf, c.root) && Safe(c.root, v, resolving)
    requires RefOf(v.fields).None? && k in Kept(c.root, v, resolving)
    requires Valid(c, v, inst, open)
    ensures Holds(d, Kept(c.root, v, resolving), k, inst, {})
    decreases RefsIn(c.root) - resolving, v, 2
  {
    if Replaced(v.fields, k) {
      assert !Meets(c.root, v, resolving, FractionalBound);
      BoundsWeaken(c, d, v.fields, TranslateFields(c.root, v.fields, resolving), k, inst, open);
    } else {
      var value, from := v.fields[k], PrefixLength(v.fields);
      KeptEntry(c, v, resolving, k);
      assert Holds(c, v.fields, k, inst, open);
      ValueWeakens(c, d, k, value, from, resolving, inst, open);
      if k == "items" {
        PrefixStays(c, v, resolving);
      }
      LaterItems(d, k, Translate(c.root, value, resolving), from, PrefixLength(Kept(c.root, v, resolving)), inst, {});
    }
  }

  /** An entry that no bound replaces stands translated in the result. */
  lemma KeptEntry(c: Context, v: Json, resolving: set<string>, k: string)
    requires v.Object? && Schema(c.leaf, v) && Safe(c.root, v, resolving) && RefOf(v.fields).None?
    requires k in Kept(c.root, v, resolving) && !Replaced(v.fields, k)
    ensures k in v.fields && k !in DROPPED && k != "$ref" && Shape(c.leaf, k, v.fields[k])
    ensures Safe(c.root, v.fields[k], resolving)
    ensures Kept(c.root, v, resolving)[k] == Translate(c.root, v.fields[k], resolving)
  {
    assert k in v.fields && k !in DROPPED;
    assert Shape(c.leaf, k, v.fields[k]);
    WithinSafe(c.root, v, resolving, v.fields[k]);
  }

  lemma PrefixStays(c: Context, v: Json, resolving: set<string>)
    requires v.Object? && Schema(c.leaf, v) && Safe(c.root, v, resolving) && RefOf(v.fields).None?
    ensures PrefixLength(Kept(c.root, v, resolving)) == PrefixLength(v.fields)
  {
    if "prefixItems" in v.fields {
      assert Shape(c.leaf, "prefixItems", v.fields["prefixItems"]);
      KeptEntry(c, v, resolving, "prefixItems");
    }
  }

  /** An inclusive bound that comes from an exclusive one. */
  predicate Replaced(fields: Fields, k: string) {
    || (k == "minimum" && "exclusiveMinimum" in fields && fields["exclusiveMinimum"].Number?)
    || (k == "maximum" && "exclusiveMaximum" in fields && fields["exclusiveMaximum"].Number?)
  }

  lemma BoundsWeaken(
    c: Context, d: Context, fields: Fields, kept: Fields, k: string, inst: Json, open: set<string>)
    requires Valid(c, Object(fields), inst, open) && !Fractional(fields) && Replaced(fields, k)
    ensures k in WithBounds(fields, kept) && Holds(d, WithBounds(fields, kept), k, inst, {})
  {
    var exclusive := if k == "minimum" then "exclusiveMinimum" else "exclusiveMaximum";
    assert Holds(c, fields, exclusive, inst, open);
    if "type" in fields && fields["type"] == Text("integer") {
      assert Holds(c, fields, "type", inst, open);
      assert Whole(fields[exclusive].n);
      WholeStep(inst.n, fields[exclusive].n);
    }
  }

  lemma WholeStep(x: real, bound: real)
    requires Whole(x) && Whole(bound)
    ensures x > bound <==> x >= bound + 1.0
    ensures x < bound <==> x <= bound - 1.0
  {
    var i, j := x.Floor, bound.Floor;
    assert x > bound <==> i > j;
  }

  // ---------------------------------------------------------------- keyword by keyword

  lemma {:induction false} ValueWeakens(
    c: Context, d: Context, k: string, value: Json, from: nat, resolving: set<string>, inst: Json, open: set<string>)
    requires !c.strict && d.leaf == c.leaf && k !in DROPPED && k != "$ref"
    requires Shape(c.leaf, k, value) && TargetsAreSchemas(c.leaf, c.root) && Safe(c.root, value, resolving)
    requires ValueHolds(c, k, value, from, inst, open)
    ensures ValueHolds(d, k, Translate(c.root, value, resolving), from, inst, {})
    decreases RefsIn(c.root) - resolving, value, 6
  {
    if k in ON_ITEMS {
      if inst.Array? {
        ItemsWeaken(c, d, k, value, from, resolving, inst);
      }
    } else if k in ON_PROPERTIES {
      if inst.Object? {
        PropertiesWeaken(c, d, k, value, resolving, inst);
      }
    } else if k in IN_PLACE {
      InPlaceWeakens(c, d, k, value, resolving, inst, open);
    } else if k in BOUNDS || k == "type" || Clean(value) {
      CleanStays(c.root, value, resolving);
    }
  }

  lemma {:induction false} ItemsWeaken(
    c: Context, d: Context, k: string, value: Json, from: nat, resolving: set<string>, inst: Json)
    requires !c.strict && d.leaf == c.leaf && k in ON_ITEMS && inst.Array?
    requires Shape(c.leaf, k, value) && TargetsAreSchemas(c.leaf, c.root) && Safe(c.root, value, resolving)
    requires ItemsHold(c, k, value, from, inst)
    ensures ItemsHold(d, k, Translate(c.root, value, resolving), from, inst)
    decreases RefsIn(c.root) - resolving, value, 5
  {
    var out := Translate(c.root, value, resolving);
    if k == "items" {
      forall i | from <= i < |inst.items| ensures Valid(d, out, inst.items[i], {}) {
        Weakens(c, d, value, resolving, inst.items[i], {});
      }
    } else if k == "prefixItems" {
      forall i | 0 <= i < |out.items| && i < |inst.items| ensures Valid(d, out.items[i], inst.items[i], {}) {
        WithinSafe(c.root, value, resolving, value.items[i]);
        Weakens(c, d, value.items[i], resolving, inst.items[i], {});
      }
    } else {
      var i :| 0 <= i < |inst.items| && Valid(c, value, inst.items[i], {});
      Weakens(c, d, value, resolving, inst.items[i], {});
    }
  }

  lemma {:induction false} PropertiesWeaken(
    c: Context, d: Context, k: string, value: Json, resolving: set<string>, inst: Json)
    requires !c.strict && d.leaf == c.leaf && k in ON_PROPERTIES && inst.Object?
    requires Shape(c.leaf, k, value) && TargetsAreSchemas(c.leaf, c.root) && Safe(c.root, value, resolving)
    requires PropertiesHold(c, k, value, inst)
    ensures PropertiesHold(d, k, Translate(c.root, value, resolving), inst)
    decreases RefsIn(c.root) - resolving, value, 5
  {
    var out := Translate(c.root, value, resolving);
    if k == "propertyNames" {
      forall p | p in inst.fields ensures Valid(d, out, Text(p), {}) {
        Weakens(c, d, value, resolving, Text(p), {});
      }
    } else {
      MapStaysMap(c.leaf, c.root, value, resolving);
      forall p, name | p in out.fields && name in inst.fields && Concerns(d.leaf, k, p, name)
        ensures Valid(d, out.fields[p], inst.fields[name], {})
      {
        WithinSafe(c.root, value, resolving, value.fields[p]);
        Weakens(c, d, value.fields[p], resolving, inst.fields[name], {});
      }
    }
  }

  lemma {:induction false} InPlaceWeakens(
    c: Context, d: Context, k: string, value: Json, resolving: set<string>, inst: Json, open: set<string>)
    requires !c.strict && d.leaf == c.leaf && k in IN_PLACE
    requires Shape(c.leaf, k, value) && TargetsAreSchemas(c.leaf, c.root) && Safe(c.root, value, resolving)
    requires InPlaceHolds(c, k, value, inst, open)
    ensures InPlaceHolds(d, k, Translate(c.root, value, resolving), inst, {})
    decreases RefsIn(c.root) - resolving, value, 5
  {
    var out := Translate(c.root, value, resolving);
    if k == "anyOf" {
      var i :| 0 <= i < |value.items| && Valid(c, value.items[i], inst, open);
      WithinSafe(c.root, value, resolving, value.items[i]);
      Weakens(c, d, value.items[i], resolving, inst, open);
      assert Valid(d, out.items[i], inst, {});
    } else if k == "allOf" {
      forall i | 0 <= i < |value.items| ensures Valid(d, out.items[i], inst, {}) {
        WithinSafe(c.root, value, resolving, value.items[i]);
        Weakens(c, d, value.items[i], resolving, inst, open);
      }
    } else {
      MapStaysMap(c.leaf, c.root, value, resolving);
      if inst.Object? {
        forall p | p in out.fields && p in inst.fields ensures Valid(d, out.fields[p], inst, {}) {
          WithinSafe(c.root, value, resolving, value.fields[p]);
          Weakens(c, d, value.fields[p], resolving, inst, open);
        }
      }
    }
  }
}
