/** What a JSON schema means: which instances it accepts (JSON Schema Core and Validation 2020-12). */
module SchemaMeaning {
  import opened Domain
  import opened JsonPointer
  import opened SchemaTranslation
  import opened SchemaReferences

  // ---------------------------------------------------------------- validity

  /** `leaf` says what every other keyword means: its meaning depends on its own value alone. With
      `strict` unset, additionalProperties is an annotation. */
  datatype Context = Context(root: Json, leaf: Leaf, strict: bool)

  type Leaf = (string, Json, Json) -> bool

  predicate IsA(name: string, inst: Json) {
    || (name == "integer" && inst.Number? && Whole(inst.n))
    || (name == "number" && inst.Number?)
    || (name == "string" && inst.Text?)
    || (name == "boolean" && inst.Boolean?)
    || (name == "null" && inst.Null?)
    || (name == "array" && inst.Array?)
    || (name == "object" && inst.Object?)
  }

  predicate TypeHolds(value: Json, inst: Json) {
    || (value.Text? && IsA(value.s, inst))
    || (value.Array? && exists i :: 0 <= i < |value.items| && value.items[i].Text? && IsA(value.items[i].s, inst))
  }

  predicate BoundHolds(keyword: string, bound: real, x: real) {
    && (keyword == "minimum" ==> x >= bound)
    && (keyword == "maximum" ==> x <= bound)
    && (keyword == "exclusiveMinimum" ==> x > bound)
    && (keyword == "exclusiveMaximum" ==> x < bound)
  }

  const BOUNDS: set<string> := {"minimum", "maximum", "exclusiveMinimum", "exclusiveMaximum"}

  const ON_ITEMS: set<string> := {"items", "prefixItems", "contains"}

  const ON_PROPERTIES: set<string> := {"properties", "patternProperties", "propertyNames"}

  const IN_PLACE: set<string> := {"anyOf", "allOf", "dependentSchemas"}

  /** The keyword `pattern` says which names a pattern matches. */
  predicate NameMatches(leaf: Leaf, pattern: string, name: string) {
    leaf("pattern", Text(pattern), Text(name))
  }

  predicate Entries(fields: Fields, k: string, name: string) {
    k in fields && fields[k].Object? && name in fields[k].fields
  }

  /** Not an additional property. */
  ghost predicate IsProperty(leaf: Leaf, fields: Fields, name: string) {
    || Entries(fields, "properties", name)
    || exists pattern :: Entries(fields, "patternProperties", pattern) && NameMatches(leaf, pattern, name)
  }

  const NONE: set<string> := {}

  /** Arrays and objects come after the names in them. */
  function Composite(inst: Json): nat {
    if inst.Array? || inst.Object? then 1 else 0
  }

  /** `open` holds the references entered for this very instance: going around a cycle of them
      without reaching into the instance means nothing, so it accepts nothing. */
  ghost predicate Valid(c: Context, v: Json, inst: Json, open: set<string>)
    decreases Composite(inst), inst, RefsIn(c.root) - open, v, 3
  {
    match v
    case Boolean(b) => b
    case Object(fields) => forall k :: k in fields ==> Holds(c, fields, k, inst, open)
    case _ => false
  }

  ghost predicate Holds(c: Context, fields: Fields, k: string, inst: Json, open: set<string>)
    requires k in fields
    decreases Composite(inst), inst, RefsIn(c.root) - open, Object(fields), 2
  {
    if k == "additionalProperties" then
      c.strict && inst.Object? ==>
        forall p :: p in inst.fields && !IsProperty(c.leaf, fields, p) ==> Valid(c, fields[k], inst.fields[p], {})
    else ValueHolds(c, k, fields[k], PrefixLength(fields), inst, open)
  }

  /** What keyword `k` with this value asks; `items` asks it of the items from `from` on. */
  ghost predicate ValueHolds(c: Context, k: string, value: Json, from: nat, inst: Json, open: set<string>)
    decreases Composite(inst), inst, RefsIn(c.root) - open, value, 1
  {
    if k == "$ref" && value.Text? then
      && value.s in RefsIn(c.root) - open
      && Resolve(c.root, value.s).Found?
      && Valid(c, Resolve(c.root, value.s).value, inst, open + {value.s})
    else if k == "type" then TypeHolds(value, inst)
    else if k in BOUNDS then value.Number? && (inst.Number? ==> BoundHolds(k, value.n, inst.n))
    else if k in ON_ITEMS then inst.Array? ==> ItemsHold(c, k, value, from, inst)
    else if k in ON_PROPERTIES then inst.Object? ==> PropertiesHold(c, k, value, inst)
    else if k in IN_PLACE then InPlaceHolds(c, k, value, inst, open)
    else if k == "$defs" || k == "$schema" then true
    else c.leaf(k, value, inst)
  }

  ghost predicate ItemsHold(c: Context, k: string, value: Json, from: nat, inst: Json)
    requires inst.Array?
    decreases 1, inst, NONE, value, 0
  {
    if k == "items" then forall i :: from <= i < |inst.items| ==> Valid(c, value, inst.items[i], {})
    else if k == "prefixItems" then
      value.Array? && forall i :: 0 <= i < |value.items| && i < |inst.items| ==>
                        Valid(c, value.items[i], inst.items[i], {})
    else exists i :: 0 <= i < |inst.items| && Valid(c, value, inst.items[i], {})
  }

  ghost predicate PropertiesHold(c: Context, k: string, value: Json, inst: Json)
    requires inst.Object?
    decreases 1, inst, NONE, value, 0
  {
    if k == "propertyNames" then forall p :: p in inst.fields ==> Valid(c, value, Text(p), {})
    else
      value.Object? && forall p, name :: p in value.fields && name in inst.fields && Concerns(c.leaf, k, p, name) ==>
                         Valid(c, value.fields[p], inst.fields[name], {})
  }

  /** `properties` names a property, `patternProperties` matches it. */
  predicate Concerns(leaf: Leaf, k: string, p: string, name: string) {
    if k == "properties" then p == name else NameMatches(leaf, p, name)
  }

  ghost predicate InPlaceHolds(c: Context, k: string, value: Json, inst: Json, open: set<string>)
    decreases Composite(inst), inst, RefsIn(c.root) - open, value, 0
  {
    if k == "anyOf" then
      value.Array? && exists i :: 0 <= i < |value.items| && Valid(c, value.items[i], inst, open)
    else if k == "allOf" then
      value.Array? && forall i :: 0 <= i < |value.items| ==> Valid(c, value.items[i], inst, open)
    else
      value.Object? && (inst.Object? ==>
        forall p :: p in value.fields && p in inst.fields ==> Valid(c, value.fields[p], inst, open))
  }

  // ---------------------------------------------------------------- the fragment

  const SCHEMA_VALUED: set<string> := {"items", "contains", "propertyNames", "additionalProperties"}

  const LIST_VALUED: set<string> := {"prefixItems", "anyOf", "allOf"}

  const MAP_VALUED: set<string> := {"properties", "patternProperties", "dependentSchemas"}

  /** A keyword that accepts every instance, whatever its value. */
  ghost predicate Annotation(leaf: Leaf, k: string) {
    forall value, inst :: leaf(k, value, inst)
  }

  ghost predicate Schema(leaf: Leaf, v: Json)
    decreases v, 0
  {
    match v
    case Boolean(_) => true
    case Object(fields) => forall k :: k in fields ==> Shape(leaf, k, fields[k])
    case _ => false
  }

  /** Annotations may hold anything; of the other keywords not interpreted here, and so of `const` and
      `enum`, the value must be one the translation does not rewrite. */
  ghost predicate Shape(leaf: Leaf, k: string, value: Json)
    decreases value, 1
  {
    if k == "$ref" then value.Text?
    else if k == "type" then Clean(value)
    else if k in BOUNDS then value.Number?
    else if k in SCHEMA_VALUED then Schema(leaf, value)
    else if k in LIST_VALUED then
      value.Array? && forall i :: 0 <= i < |value.items| ==> Schema(leaf, value.items[i])
    else if k in MAP_VALUED then value.Object? && forall p :: p in value.fields ==> Schema(leaf, value.fields[p])
    else if k == "$defs" || k == "$schema" then true
    else Clean(value) || Annotation(leaf, k)
  }

  /** Whatever a reference of the document leads to is a schema too. */
  ghost predicate TargetsAreSchemas(leaf: Leaf, root: Json) {
    forall r :: r in RefsIn(root) && Resolve(root, r).Found? ==> Schema(leaf, Resolve(root, r).value)
  }

  // ---------------------------------------------------------------- validity only asks for less

  ghost predicate LaxerThan(d: Context, c: Context) {
    d.root == c.root && d.leaf == c.leaf && (d.strict ==> c.strict)
  }

  /** Additional properties may be dropped, and fewer references be open. */
  lemma {:induction false} ValidRelaxes(
    c: Context, d: Context, v: Json, inst: Json, more: set<string>, fewer: set<string>)
    requires LaxerThan(d, c) && fewer <= more && Valid(c, v, inst, more)
    ensures Valid(d, v, inst, fewer)
    decreases Composite(inst), inst, RefsIn(c.root) - more, v, 3
  {
    if v.Object? {
      forall k | k in v.fields ensures Holds(d, v.fields, k, inst, fewer) {
        HoldsRelaxes(c, d, v.fields, k, inst, more, fewer);
      }
    }
  }

  lemma {:induction false} HoldsRelaxes(
    c: Context, d: Context, fields: Fields, k: string, inst: Json, more: set<string>, fewer: set<string>)
    requires LaxerThan(d, c) && fewer <= more && k in fields && Holds(c, fields, k, inst, more)
    ensures Holds(d, fields, k, inst, fewer)
    decreases Composite(inst), inst, RefsIn(c.root) - more, Object(fields), 2
  {
    if k != "additionalProperties" {
      ValueRelaxes(c, d, k, fields[k], PrefixLength(fields), inst, more, fewer);
    } else if d.strict && inst.Object? {
      forall p | p in inst.fields && !IsProperty(d.leaf, fields, p) ensures Valid(d, fields[k], inst.fields[p], {}) {
        ValidRelaxes(c, d, fields[k], inst.fields[p], {}, {});
      }
    }
  }

  lemma {:induction false} ValueRelaxes(
    c: Context, d: Context, k: string, value: Json, from: nat, inst: Json, more: set<string>, fewer: set<string>)
    requires LaxerThan(d, c) && fewer <= more && ValueHolds(c, k, value, from, inst, more)
    ensures ValueHolds(d, k, value, from, inst, fewer)
    decreases Composite(inst), inst, RefsIn(c.root) - more, value, 1
  {
    if k == "$ref" && value.Text? {
      ValidRelaxes(c, d, Resolve(c.root, value.s).value, inst, more + {value.s}, fewer + {value.s});
    } else if k in ON_ITEMS && inst.Array? {
      ItemsRelax(c, d, k, value, from, inst);
    } else if k in ON_PROPERTIES && inst.Object? {
      PropertiesRelax(c, d, k, value, inst);
    } else if k in IN_PLACE {
      InPlaceRelaxes(c, d, k, value, inst, more, fewer);
    }
  }

  lemma {:induction false} ItemsRelax(c: Context, d: Context, k: string, value: Json, from: nat, inst: Json)
    requires LaxerThan(d, c) && inst.Array? && ItemsHold(c, k, value, from, inst)
    ensures ItemsHold(d, k, value, from, inst)
    decreases 1, inst, NONE, value, 0
  {
    if k == "items" {
      forall i | from <= i < |inst.items| ensures Valid(d, value, inst.items[i], {}) {
        ValidRelaxes(c, d, value, inst.items[i], {}, {});
      }
    } else if k == "prefixItems" {
      forall i | 0 <= i < |value.items| && i < |inst.items| ensures Valid(d, value.items[i], inst.items[i], {}) {
        ValidRelaxes(c, d, value.items[i], inst.items[i], {}, {});
      }
    } else {
      var i :| 0 <= i < |inst.items| && Valid(c, value, inst.items[i], {});
      ValidRelaxes(c, d, value, inst.items[i], {}, {});
    }
  }

  lemma {:induction false} PropertiesRelax(c: Context, d: Context, k: string, value: Json, inst: Json)
    requires LaxerThan(d, c) && inst.Object? && PropertiesHold(c, k, value, inst)
    ensures PropertiesHold(d, k, value, inst)
    decreases 1, inst, NONE, value, 0
  {
    if k == "propertyNames" {
      forall p | p in inst.fields ensures Valid(d, value, Text(p), {}) {
        ValidRelaxes(c, d, value, Text(p), {}, {});
      }
    } else {
      forall p, name | p in value.fields && name in inst.fields && Concerns(d.leaf, k, p, name)
        ensures Valid(d, value.fields[p], inst.fields[name], {})
      {
        ValidRelaxes(c, d, value.fields[p], inst.fields[name], {}, {});
      }
    }
  }

  lemma {:induction false} InPlaceRelaxes(
    c: Context, d: Context, k: string, value: Json, inst: Json, more: set<string>, fewer: set<string>)
    requires LaxerThan(d, c) && fewer <= more && InPlaceHolds(c, k, value, inst, more)
    ensures InPlaceHolds(d, k, value, inst, fewer)
    decreases Composite(inst), inst, RefsIn(c.root) - more, value, 0
  {
    if k == "anyOf" {
      var i :| 0 <= i < |value.items| && Valid(c, value.items[i], inst, more);
      ValidRelaxes(c, d, value.items[i], inst, more, fewer);
    } else if k == "allOf" {
      forall i | 0 <= i < |value.items| ensures Valid(d, value.items[i], inst, fewer) {
        ValidRelaxes(c, d, value.items[i], inst, more, fewer);
      }
    } else if inst.Object? {
      forall p | p in value.fields && p in inst.fields ensures Valid(d, value.fields[p], inst, fewer) {
        ValidRelaxes(c, d, value.fields[p], inst, more, fewer);
      }
    }
  }

  /** Items that start later ask for less; no other keyword looks at where they start. */
  lemma LaterItems(c: Context, k: string, value: Json, from: nat, later: nat, inst: Json, open: set<string>)
    requires ValueHolds(c, k, value, from, inst, open) && (k == "items" ==> from <= later)
    ensures ValueHolds(c, k, value, later, inst, open)
  {
    if k in ON_ITEMS && inst.Array? {
      assert ItemsHold(c, k, value, later, inst);
    }
  }
}
