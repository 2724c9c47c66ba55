/** `_gemini_schema` (backend/app/v2/providers.py): local references are inlined, unsupported keywords
    dropped and exclusive bounds turned into inclusive ones. */
module SchemaTranslation {
  import opened Domain
  import opened JsonPointer

  type Fields = map<string, Json>

  const DROPPED: set<string> :=
    {"$defs", "$schema", "additionalProperties", "exclusiveMaximum", "exclusiveMinimum"}

  // ---------------------------------------------------------------- references

  function RefOf(fields: Fields): Option<string> {
    if "$ref" in fields && fields["$ref"].Text? then Some(fields["$ref"].s) else None
  }

  function OwnRef(fields: Fields): set<string> {
    if RefOf(fields).Some? then {RefOf(fields).value} else {}
  }

  /** Every reference string anywhere in a value. */
  ghost function RefsIn(v: Json): set<string> {
    match v
    case Array(items) => set i, r | 0 <= i < |items| && r in RefsIn(items[i]) :: r
    case Object(fields) => OwnRef(fields) + set k, r | k in fields && r in RefsIn(fields[k]) :: r
    case _ => {}
  }

  /** What is translated in place of an object with a reference: the target, updated with the
      object's other entries. */
  function Merged(target: Fields, fields: Fields): Fields {
    target + (fields - {"$ref"})
  }

  lemma {:induction false} DescendKeepsRefs(value: Json, parts: seq<string>)
    ensures var r := Descend(value, parts); r.Found? ==> RefsIn(r.value) <= RefsIn(value)
  {
    if parts != [] {
      var key := Unescape(parts[0]);
      if value.Object? && key in value.fields {
        DescendKeepsRefs(value.fields[key], parts[1..]);
        assert RefsIn(value.fields[key]) <= RefsIn(value);
      }
    }
  }

  lemma MergedRefs(root: Json, fields: Fields, reference: string)
    requires RefsIn(Object(fields)) <= RefsIn(root) && RefOf(fields) == Some(reference)
    ensures reference in RefsIn(root)
    ensures var target := Resolve(root, reference);
      target.Found? && target.value.Object? ==>
        && RefsIn(target.value) <= RefsIn(root)
        && RefsIn(Object(Merged(target.value.fields, fields))) <= RefsIn(root)
  {
    var target := Resolve(root, reference);
    if target.Found? && target.value.Object? {
      DescendKeepsRefs(root, SplitSlash(reference[2..]));
      var merged := Merged(target.value.fields, fields);
      forall k | k in merged ensures RefsIn(merged[k]) <= RefsIn(root) {
        if k in fields && k != "$ref" {
          assert RefsIn(fields[k]) <= RefsIn(Object(fields));
        } else {
          assert RefsIn(target.value.fields[k]) <= RefsIn(target.value);
        }
      }
      assert OwnRef(merged) <= OwnRef(target.value.fields);
    }
  }

  // ---------------------------------------------------------------- what a translation meets

  /** What the walk over the kept part of a schema can meet: a failure it raises; or what it translates
      although that refuses valid instances: an integer with a fractional exclusive bound, and a
      reference beside which a shorter `prefixItems` stands than its target has with `items`. */
  datatype Finding = Raised(failure: Failure) | FractionalBound | EarlierItems

  predicate Whole(x: real) {
    x == x.Floor as real
  }

  predicate Fractional(fields: Fields) {
    && "type" in fields && fields["type"] == Text("integer")
    && exists k :: k in {"exclusiveMinimum", "exclusiveMaximum"} && k in fields
                   && fields[k].Number? && !Whole(fields[k].n)
  }

  /** How many first items `items` leaves to `prefixItems`. */
  function PrefixLength(fields: Fields): nat {
    if "prefixItems" in fields && fields["prefixItems"].Array? then |fields["prefixItems"].items| else 0
  }

  /** The `items` of the target start earlier in the merged object. */
  predicate MovesItems(target: Fields, fields: Fields) {
    "items" in target && "items" !in fields && PrefixLength(Merged(target, fields)) < PrefixLength(target)
  }

  /** The walk from `v`, with the references in `resolving` open, comes upon `what`. */
  ghost predicate Meets(root: Json, v: Json, resolving: set<string>, what: Finding)
    requires RefsIn(v) <= RefsIn(root)
    decreases RefsIn(root) - resolving, v
  {
    match v
    case Array(items) => exists i :: 0 <= i < |items| && Meets(root, items[i], resolving, what)
    case Object(fields) =>
      (match RefOf(fields)
       case Some(reference) =>
         MergedRefs(root, fields, reference);
         var target := Resolve(root, reference);
         if reference in resolving then what == Raised(Recursive)
         else if target.Missing? then what == Raised(target.failure)
         else if !target.value.Object? then what == Raised(NotAnObject)
         else
           (what == EarlierItems && MovesItems(target.value.fields, fields))
           || Meets(root, Object(Merged(target.value.fields, fields)), resolving + {reference}, what)
       case None =>
         (what == FractionalBound && Fractional(fields))
         || exists k :: k in fields && k !in DROPPED && Meets(root, fields[k], resolving, what))
    case _ => false
  }

  ghost predicate Translatable(root: Json, v: Json, resolving: set<string>)
    requires RefsIn(v) <= RefsIn(root)
  {
    forall failure :: !Meets(root, v, resolving, Raised(failure))
  }

  // ---------------------------------------------------------------- the translation

  function InclusiveBound(fields: Fields, exclusive: string, adjustment: real): Option<Json> {
    if exclusive in fields && fields[exclusive].Number? then
      Some(Number(if "type" in fields && fields["type"] == Text("integer")
                  then fields[exclusive].n + adjustment else fields[exclusive].n))
    else None
  }

  function Put(fields: Fields, key: string, value: Option<Json>): Fields {
    if value.Some? then fields[key := value.value] else fields
  }

  function WithBounds(fields: Fields, kept: Fields): Fields {
    Put(Put(kept, "minimum", InclusiveBound(fields, "exclusiveMinimum", 1.0)),
        "maximum", InclusiveBound(fields, "exclusiveMaximum", -1.0))
  }

  ghost function Translate(root: Json, v: Json, resolving: set<string>): Json
    requires RefsIn(v) <= RefsIn(root) && Translatable(root, v, resolving)
    decreases RefsIn(root) - resolving, v, 1
  {
    match v
    case Array(items) =>
      Array(seq(|items|, i requires 0 <= i < |items| =>
        Within(root, v, resolving, items[i]); Translate(root, items[i], resolving)))
    case Object(fields) =>
      (match RefOf(fields)
       case Some(reference) =>
         Opens(root, fields, resolving, reference);
         var target := Resolve(root, reference).value.fields;
         Translate(root, Object(Merged(target, fields)), resolving + {reference})
       case None =>
         Object(WithBounds(fields, TranslateFields(root, fields, resolving))))
    case _ => v
  }

  ghost function TranslateFields(root: Json, fields: Fields, resolving: set<string>): (kept: Fields)
    requires RefsIn(Object(fields)) <= RefsIn(root) && Translatable(root, Object(fields), resolving)
    requires RefOf(fields).None?
    ensures kept.Keys == fields.Keys - DROPPED
    decreases RefsIn(root) - resolving, Object(fields), 0
  {
    map k | k in fields && k !in DROPPED ::
      (Within(root, Object(fields), resolving, fields[k]); Translate(root, fields[k], resolving))
  }

  predicate KeptPart(v: Json, part: Json) {
    || (v.Array? && part in v.items)
    || (v.Object? && RefOf(v.fields).None?
        && exists k :: k in v.fields && k !in DROPPED && v.fields[k] == part)
  }

  lemma Within(root: Json, v: Json, resolving: set<string>, part: Json)
    requires RefsIn(v) <= RefsIn(root) && Translatable(root, v, resolving) && KeptPart(v, part)
    ensures RefsIn(part) <= RefsIn(root) && Translatable(root, part, resolving)
  {
    PartRefs(v, part);
    forall failure ensures !Meets(root, part, resolving, Raised(failure)) {
      assert !Meets(root, v, resolving, Raised(failure));
    }
  }

  lemma PartRefs(v: Json, part: Json)
    requires KeptPart(v, part)
    ensures RefsIn(part) <= RefsIn(v)
  {
  }

  lemma Opens(root: Json, fields: Fields, resolving: set<string>, reference: string)
    requires RefsIn(Object(fields)) <= RefsIn(root) && Translatable(root, Object(fields), resolving)
    requires RefOf(fields) == Some(reference)
    ensures reference !in resolving && reference in RefsIn(root)
    ensures var target := Resolve(root, reference);
      && target.Found? && target.value.Object?
      && RefsIn(Object(Merged(target.value.fields, fields))) <= RefsIn(root)
      && Translatable(root, Object(Merged(target.value.fields, fields)), resolving + {reference})
  {
    MergedRefs(root, fields, reference);
    var v, target := Object(fields), Resolve(root, reference);
    assert !Meets(root, v, resolving, Raised(Recursive));
    var failure := if target.Missing? then target.failure else NotAnObject;
    assert !Meets(root, v, resolving, Raised(failure));
    var merged := Object(Merged(target.value.fields, fields));
    forall failure ensures !Meets(root, merged, resolving + {reference}, Raised(failure)) {
      assert !Meets(root, v, resolving, Raised(failure));
    }
  }

  // ---------------------------------------------------------------- transform

  datatype Outcome = Translated(value: Json) | Rejected(failure: Failure)

  /** An outcome the walk may have; which failure it raises first depends on the order of keys. */
  ghost predicate Allowed(root: Json, v: Json, resolving: set<string>, outcome: Outcome)
    requires RefsIn(v) <= RefsIn(root)
  {
    match outcome
    case Translated(value) => Translatable(root, v, resolving) && value == Translate(root, v, resolving)
    case Rejected(failure) => Meets(root, v, resolving, Raised(failure))
  }

  /** `transform` */
  method Transform(root: Json, v: Json, resolving: set<string>) returns (outcome: Outcome)
    requires RefsIn(v) <= RefsIn(root)
    ensures Allowed(root, v, resolving, outcome)
    decreases RefsIn(root) - resolving, v, 1
  {
    match v {
      case Array(items) =>
        outcome := TransformItems(root, items, resolving);
      case Object(fields) =>
        var reference := RefOf(fields);
        if reference.None? {
          outcome := TransformFields(root, fields, resolving);
          return;
        }
        if reference.value in resolving {
          return Rejected(Recursive);
        }
        MergedRefs(root, fields, reference.value);
        var target := ResolveReference(root, reference.value);
        if target.Missing? {
          return Rejected(target.failure);
        }
        if !target.value.Object? {
          return Rejected(NotAnObject);
        }
        var merged := Merged(target.value.fields, fields);
        outcome := Transform(root, Object(merged), resolving + {reference.value});
      case _ =>
        outcome := Translated(v);
    }
  }

  method TransformItems(root: Json, items: seq<Json>, resolving: set<string>) returns (outcome: Outcome)
    requires RefsIn(Array(items)) <= RefsIn(root)
    ensures Allowed(root, Array(items), resolving, outcome)
    decreases RefsIn(root) - resolving, Array(items), 0
  {
    var out: seq<Json> := [];
    for i := 0 to |items|
      invariant |out| == i
      invariant forall j :: 0 <= j < i ==>
        RefsIn(items[j]) <= RefsIn(root) && Translatable(root, items[j], resolving)
        && out[j] == Translate(root, items[j], resolving)
    {
      PartRefs(Array(items), items[i]);
      var item := Transform(root, items[i], resolving);
      if item.Rejected? {
        return item;
      }
      out := out + [item.value];
    }
    assert Translatable(root, Array(items), resolving);
    assert Translate(root, Array(items), resolving) == Array(out);
    return Translated(Array(out));
  }

  method TransformFields(root: Json, fields: Fields, resolving: set<string>) returns (outcome: Outcome)
    requires RefsIn(Object(fields)) <= RefsIn(root) && RefOf(fields).None?
    ensures Allowed(root, Object(fields), resolving, outcome)
    decreases RefsIn(root) - resolving, Object(fields), 0
  {
    var kept: Fields := map[];
    var todo := fields.Keys - DROPPED;
    while todo != {}
      invariant forall k :: k in todo ==> k in fields && k !in DROPPED
      invariant forall k :: k in kept <==> k in fields && k !in DROPPED && k !in todo
      invariant forall k :: k in kept ==> AllowedAt(root, fields, resolving, k, Translated(kept[k]))
      decreases |todo|
    {
      var k :| k in todo;
      todo := todo - {k};
      PartRefs(Object(fields), fields[k]);
      var item := Transform(root, fields[k], resolving);
      if item.Rejected? {
        FieldFails(root, fields, resolving, k, item.failure);
        return item;
      }
      kept := kept[k := item.value];
    }
    FieldsTranslate(root, fields, resolving, kept);
    return Translated(Object(WithBounds(fields, kept)));
  }

  ghost predicate AllowedAt(root: Json, fields: Fields, resolving: set<string>, k: string, outcome: Outcome) {
    k in fields && RefsIn(fields[k]) <= RefsIn(root) && Allowed(root, fields[k], resolving, outcome)
  }

  lemma FieldsTranslate(root: Json, fields: Fields, resolving: set<string>, kept: Fields)
    requires RefsIn(Object(fields)) <= RefsIn(root) && RefOf(fields).None?
    requires kept.Keys == fields.Keys - DROPPED
    requires forall k :: k in kept ==> AllowedAt(root, fields, resolving, k, Translated(kept[k]))
    ensures Allowed(root, Object(fields), resolving, Translated(Object(WithBounds(fields, kept))))
  {
    FieldsTranslatable(root, fields, resolving, kept);
    SameFields(root, fields, resolving, kept);
    var v := Object(fields);
    assert Translate(root, v, resolving) == Object(WithBounds(fields, TranslateFields(root, fields, resolving)));
  }

  lemma SameFields(root: Json, fields: Fields, resolving: set<string>, kept: Fields)
    requires RefsIn(Object(fields)) <= RefsIn(root) && RefOf(fields).None?
    requires Translatable(root, Object(fields), resolving)
    requires kept.Keys == fields.Keys - DROPPED
    requires forall k :: k in kept ==> AllowedAt(root, fields, resolving, k, Translated(kept[k]))
    ensures TranslateFields(root, fields, resolving) == kept
  {
    forall k | k in kept ensures TranslateFields(root, fields, resolving)[k] == kept[k] {
      assert AllowedAt(root, fields, resolving, k, Translated(kept[k]));
    }
  }

  lemma FieldsTranslatable(root: Json, fields: Fields, resolving: set<string>, kept: Fields)
    requires RefsIn(Object(fields)) <= RefsIn(root) && RefOf(fields).None?
    requires kept.Keys == fields.Keys - DROPPED
    requires forall k :: k in kept ==> AllowedAt(root, fields, resolving, k, Translated(kept[k]))
    ensures Translatable(root, Object(fields), resolving)
  {
    forall failure ensures !Meets(root, Object(fields), resolving, Raised(failure)) {
      forall k | k in fields && k !in DROPPED
        ensures RefsIn(fields[k]) <= RefsIn(root) && !Meets(root, fields[k], resolving, Raised(failure))
      {
        assert AllowedAt(root, fields, resolving, k, Translated(kept[k]));
      }
    }
  }

  lemma FieldFails(root: Json, fields: Fields, resolving: set<string>, k: string, failure: Failure)
    requires RefsIn(Object(fields)) <= RefsIn(root) && RefOf(fields).None?
    requires k !in DROPPED && AllowedAt(root, fields, resolving, k, Rejected(failure))
    ensures Meets(root, Object(fields), resolving, Raised(failure))
  {
  }

  /** `_gemini_schema` */
  method GeminiSchema(schema: Json) returns (outcome: Outcome)
    ensures Allowed(schema, schema, {}, outcome)
  {
    outcome := Transform(schema, schema, {});
  }

  // ---------------------------------------------------------------- entry by entry

  /** What a translation holds: leaves stay, arrays are translated item by item. */
  lemma LeavesAndItems(root: Json, v: Json, resolving: set<string>)
    requires RefsIn(v) <= RefsIn(root) && Translatable(root, v, resolving) && !v.Object?
    ensures var out := Translate(root, v, resolving);
      if !v.Array? then out == v
      else out.Array? && |out.items| == |v.items|
           && forall i :: 0 <= i < |v.items| ==>
                && RefsIn(v.items[i]) <= RefsIn(root) && Translatable(root, v.items[i], resolving)
                && out.items[i] == Translate(root, v.items[i], resolving)
  {
    if v.Array? {
      forall i | 0 <= i < |v.items|
        ensures RefsIn(v.items[i]) <= RefsIn(root) && Translatable(root, v.items[i], resolving)
      {
        Within(root, v, resolving, v.items[i]);
      }
    }
  }

  /** An exclusive bound that is a number stands in for the inclusive one. */
  predicate Bounded(fields: Fields, key: string) {
    || (key == "minimum" && "exclusiveMinimum" in fields && fields["exclusiveMinimum"].Number?)
    || (key == "maximum" && "exclusiveMaximum" in fields && fields["exclusiveMaximum"].Number?)
  }

  /** An object without a reference keeps exactly its entries under other keys than the five dropped
      ones, each translated; only a numeric exclusive bound becomes, or takes the place of, the inclusive
      one: the same number, or the next whole one where the type is `integer`. */
  lemma EntryByEntry(root: Json, fields: Fields, resolving: set<string>)
    requires RefsIn(Object(fields)) <= RefsIn(root) && Translatable(root, Object(fields), resolving)
    requires "$ref" !in fields || !fields["$ref"].Text?
    ensures var out := Translate(root, Object(fields), resolving);
      && out.Object?
      && (forall k :: k in out.fields <==>
            || Bounded(fields, k)
            || (k in fields && k != "$defs" && k != "$schema" && k != "additionalProperties"
                && k != "exclusiveMaximum" && k != "exclusiveMinimum"))
      && (forall k :: k in out.fields && !Bounded(fields, k) ==>
            && RefsIn(fields[k]) <= RefsIn(root) && Translatable(root, fields[k], resolving)
            && out.fields[k] == Translate(root, fields[k], resolving))
      && var whole := "type" in fields && fields["type"] == Text("integer");
      && (Bounded(fields, "minimum") ==>
            out.fields["minimum"] == Number(fields["exclusiveMinimum"].n + if whole then 1.0 else 0.0))
      && (Bounded(fields, "maximum") ==>
            out.fields["maximum"] == Number(fields["exclusiveMaximum"].n - if whole then 1.0 else 0.0))
  {
    FieldByField(root, fields, resolving);
    BoundsByKey(fields, TranslateFields(root, fields, resolving));
  }

  lemma FieldByField(root: Json, fields: Fields, resolving: set<string>)
    requires RefsIn(Object(fields)) <= RefsIn(root) && Translatable(root, Object(fields), resolving)
    requires RefOf(fields).None?
    ensures var kept := TranslateFields(root, fields, resolving);
      forall k :: k in kept ==>
        && RefsIn(fields[k]) <= RefsIn(root) && Translatable(root, fields[k], resolving)
        && kept[k] == Translate(root, fields[k], resolving)
  {
    forall k | k in fields && k !in DROPPED
      ensures RefsIn(fields[k]) <= RefsIn(root) && Translatable(root, fields[k], resolving)
    {
      Within(root, Object(fields), resolving, fields[k]);
    }
  }

  lemma BoundsByKey(fields: Fields, kept: Fields)
    ensures var out, whole := WithBounds(fields, kept), "type" in fields && fields["type"] == Text("integer");
      && (forall k :: k in out <==> Bounded(fields, k) || k in kept)
      && (forall k :: k in out && !Bounded(fields, k) ==> out[k] == kept[k])
      && (Bounded(fields, "minimum") ==>
            out["minimum"] == Number(fields["exclusiveMinimum"].n + if whole then 1.0 else 0.0))
      && (Bounded(fields, "maximum") ==>
            out["maximum"] == Number(fields["exclusiveMaximum"].n - if whole then 1.0 else 0.0))
  {
  }

  /** An object with a reference is translated as the object the reference leads to, with what else
      stands beside it put over that, and with the reference open. */
  lemma UseByEntry(root: Json, fields: Fields, resolving: set<string>, merged: Fields)
    requires RefsIn(Object(fields)) <= RefsIn(root) && Translatable(root, Object(fields), resolving)
    requires "$ref" in fields && fields["$ref"].Text?
    requires var target := Resolve(root, fields["$ref"].s);
      target.Found? && target.value.Object? ==>
        && (forall k :: k in merged <==> k in target.value.fields || (k in fields && k != "$ref"))
        && (forall k :: k in merged ==>
              merged[k] == if k in fields && k != "$ref" then fields[k] else target.value.fields[k])
    ensures Resolve(root, fields["$ref"].s).Found? && Resolve(root, fields["$ref"].s).value.Object?
    ensures var inner := resolving + {fields["$ref"].s};
      && RefsIn(Object(merged)) <= RefsIn(root) && Translatable(root, Object(merged), inner)
      && Translate(root, Object(fields), resolving) == Translate(root, Object(merged), inner)
  {
    Opens(root, fields, resolving, fields["$ref"].s);
    assert merged == Merged(Resolve(root, fields["$ref"].s).value.fields, fields);
  }
}
