/** Exactly when the translation of a keyword accepts what the keyword does, and schemas that show where
    it does not. */
module SchemaConditions {
  import opened Domain
  import opened JsonPointer
  import opened SchemaTranslation
  import opened SchemaReferences
  import SchemaCycles
  import opened SchemaMeaning
  import opened SchemaWeakening

  // ---------------------------------------------------------------- exclusive bounds

  function Exclusive(lower: bool): string {
    if lower then "exclusiveMinimum" else "exclusiveMaximum"
  }

  function Inclusive(lower: bool): string {
    if lower then "minimum" else "maximum"
  }

  predicate IntegerBound(fields: Fields, lower: bool) {
    && "type" in fields && fields["type"] == Text("integer")
    && Exclusive(lower) in fields && fields[Exclusive(lower)].Number?
  }

  /** For an integer with a whole exclusive bound the bound written in its place accepts exactly the
      same instances. */
  lemma WholeBoundsAreExact(
    c: Context, d: Context, fields: Fields, kept: Fields, lower: bool, inst: Json, open: set<string>)
    requires IntegerBound(fields, lower) && Whole(fields[Exclusive(lower)].n)
    requires Holds(c, fields, "type", inst, open)
    ensures var out := WithBounds(fields, kept);
      Inclusive(lower) in out
      && (Holds(c, fields, Exclusive(lower), inst, open) <==> Holds(d, out, Inclusive(lower), inst, {}))
  {
    WholeStep(inst.n, fields[Exclusive(lower)].n);
  }

  /** Whatever else an integer schema holds: everything its type and exclusive bound accept satisfies
      the bound written in its place exactly when that exclusive bound is whole. A fractional lower
      bound refuses the first integer above it, a fractional upper one the last below. */
  lemma IntegersWeakenIffTheBoundIsWhole(c: Context, d: Context, fields: Fields, kept: Fields, lower: bool)
    requires IntegerBound(fields, lower)
    ensures Inclusive(lower) in WithBounds(fields, kept)
    ensures (forall inst ::
              Holds(c, fields, "type", inst, {}) && Holds(c, fields, Exclusive(lower), inst, {})
              ==> Holds(d, WithBounds(fields, kept), Inclusive(lower), inst, {}))
            <==> Whole(fields[Exclusive(lower)].n)
  {
    var out, bound := WithBounds(fields, kept), fields[Exclusive(lower)].n;
    if Whole(bound) {
      forall inst | Holds(c, fields, "type", inst, {}) && Holds(c, fields, Exclusive(lower), inst, {})
        ensures Holds(d, out, Inclusive(lower), inst, {})
      {
        WholeBoundsAreExact(c, d, fields, kept, lower, inst, {});
      }
    } else {
      var nearest := Number((if lower then bound.Floor + 1 else bound.Floor) as real);
      assert Holds(c, fields, "type", nearest, {}) && Holds(c, fields, Exclusive(lower), nearest, {});
      assert !Holds(d, out, Inclusive(lower), nearest, {});
    }
  }

  function BareInteger(lower: bool, bound: real): Fields {
    map["type" := Text("integer"), Exclusive(lower) := Number(bound)]
  }

  function BareInclusive(lower: bool, bound: real): Fields {
    map["type" := Text("integer"), Inclusive(lower) := Number(if lower then bound + 1.0 else bound - 1.0)]
  }

  /** A schema of nothing but an integer's exclusive bound is translated to one that accepts all it
      accepts exactly when the bound is whole. */
  lemma BareIntegersWeakenIffTheBoundIsWhole(leaf: Leaf, lower: bool, bound: real)
    ensures var (schema, out) := (Object(BareInteger(lower, bound)), Object(BareInclusive(lower, bound)));
      && Translatable(schema, schema, {}) && Translate(schema, schema, {}) == out
      && ((forall inst :: Valid(Context(schema, leaf, true), schema, inst, {})
                          ==> Valid(Context(out, leaf, true), out, inst, {})) <==> Whole(bound))
  {
    var (schema, out) := (BareInteger(lower, bound), BareInclusive(lower, bound));
    var c, d := Context(Object(schema), leaf, true), Context(Object(out), leaf, true);
    BareTranslates(lower, bound);
    IntegersWeakenIffTheBoundIsWhole(c, d, schema, map["type" := Text("integer")], lower);
    forall inst ensures Valid(c, Object(schema), inst, {})
                        <==> Holds(c, schema, "type", inst, {}) && Holds(c, schema, Exclusive(lower), inst, {})
                ensures Valid(d, Object(out), inst, {})
                        <==> Holds(d, out, "type", inst, {}) && Holds(d, out, Inclusive(lower), inst, {})
    {
      BareMeaning(c, d, lower, bound, inst);
    }
    assert WithBounds(schema, map["type" := Text("integer")]) == out;
    if Whole(bound) {
      forall inst | Valid(c, Object(schema), inst, {}) ensures Valid(d, Object(out), inst, {}) {
        BareMeaning(c, d, lower, bound, inst);
      }
    } else {
      var refused :| Holds(c, schema, "type", refused, {}) && Holds(c, schema, Exclusive(lower), refused, {})
                     && !Holds(d, out, Inclusive(lower), refused, {});
      assert Valid(c, Object(schema), refused, {}) && !Valid(d, Object(out), refused, {});
    }
  }

  lemma BareMeaning(c: Context, d: Context, lower: bool, bound: real, inst: Json)
    ensures var schema := BareInteger(lower, bound);
      Valid(c, Object(schema), inst, {})
      <==> Holds(c, schema, "type", inst, {}) && Holds(c, schema, Exclusive(lower), inst, {})
    ensures var out := BareInclusive(lower, bound);
      Valid(d, Object(out), inst, {}) <==> Holds(d, out, "type", inst, {}) && Holds(d, out, Inclusive(lower), inst, {})
    ensures var (schema, out) := (BareInteger(lower, bound), BareInclusive(lower, bound));
      Holds(c, schema, "type", inst, {}) <==> Holds(d, out, "type", inst, {})
  {
    TwoEntries(c, BareInteger(lower, bound), "type", Exclusive(lower), inst);
    TwoEntries(d, BareInclusive(lower, bound), "type", Inclusive(lower), inst);
    TypeMeaning(c, BareInteger(lower, bound), inst);
    TypeMeaning(d, BareInclusive(lower, bound), inst);
  }

  lemma TwoEntries(c: Context, fields: Fields, j: string, k: string, inst: Json)
    requires fields.Keys == {j, k}
    ensures Valid(c, Object(fields), inst, {}) <==> Holds(c, fields, j, inst, {}) && Holds(c, fields, k, inst, {})
  {
  }

  lemma TypeMeaning(c: Context, fields: Fields, inst: Json)
    requires "type" in fields && fields["type"].Text?
    ensures Holds(c, fields, "type", inst, {}) <==> IsA(fields["type"].s, inst)
  {
  }

  lemma BareTranslates(lower: bool, bound: real)
    ensures var schema := Object(BareInteger(lower, bound));
      Translatable(schema, schema, {}) && Translate(schema, schema, {}) == Object(BareInclusive(lower, bound))
  {
    var fields := BareInteger(lower, bound);
    assert fields.Keys == {"type", Exclusive(lower)} && Exclusive(lower) in DROPPED;
    assert fields["type"] == Text("integer") && "type" !in DROPPED;
    assert TranslateFields(Object(fields), fields, {}) == map["type" := Text("integer")];
    assert WithBounds(fields, map["type" := Text("integer")]) == BareInclusive(lower, bound);
  }

  /** The integers above one half: 1 is valid, and its translation refuses it. */
  lemma FractionalBoundsRefuse(leaf: Leaf)
    ensures var schema := Object(map["type" := Text("integer"), "exclusiveMinimum" := Number(0.5)]);
      var out := Object(map["type" := Text("integer"), "minimum" := Number(1.5)]);
      && Translatable(schema, schema, {}) && Translate(schema, schema, {}) == out
      && Valid(Context(schema, leaf, true), schema, Number(1.0), {})
      && !Valid(Context(out, leaf, true), out, Number(1.0), {})
  {
    BareTranslates(true, 0.5);
    var (schema, out) := (BareInteger(true, 0.5), BareInclusive(true, 0.5));
    BareMeaning(Context(Object(schema), leaf, true), Context(Object(out), leaf, true), true, 0.5, Number(1.0));
    assert Whole(1.0);
  }

  // ---------------------------------------------------------------- constants

  /** `const` accepts its value, `enum` each of its items (sections 6.1.2 and 6.1.3). */
  predicate Accepts(k: string, value: Json, inst: Json) {
    if k == "const" then inst == value else value.Array? && inst in value.items
  }

  ghost predicate Constants(leaf: Leaf) {
    forall k, value, inst :: k in {"const", "enum"} ==> (leaf(k, value, inst) <==> Accepts(k, value, inst))
  }

  /** Translation leaves a value alone exactly when it is clean. */
  lemma StaysIffClean(root: Json, v: Json, resolving: set<string>)
    requires RefsIn(v) <= RefsIn(root) && Translatable(root, v, resolving)
    ensures Translate(root, v, resolving) == v <==> Clean(v)
  {
    TranslationIsClean(root, v, resolving);
    if Clean(v) {
      CleanStays(root, v, resolving);
    }
  }

  /** Constants are rewritten as if they were schemas: what `const` or `enum` accepts is accepted after
      translation exactly when the value is clean. */
  lemma ConstantsWeakenIffClean(c: Context, d: Context, v: Json, resolving: set<string>, k: string)
    requires Constants(c.leaf) && d.leaf == c.leaf && k in {"const", "enum"}
    requires v.Object? && RefOf(v.fields).None? && RefsIn(v) <= RefsIn(c.root) && Translatable(c.root, v, resolving)
    requires k in v.fields && (k == "enum" ==> v.fields[k].Array?)
    ensures var kept := WithBounds(v.fields, TranslateFields(c.root, v.fields, resolving));
      k in kept
      && ((forall inst :: Holds(c, v.fields, k, inst, {}) ==> Holds(d, kept, k, inst, {})) <==> Clean(v.fields[k]))
  {
    var value := v.fields[k];
    var kept := WithBounds(v.fields, TranslateFields(c.root, v.fields, resolving));
    Within(c.root, v, resolving, value);
    assert kept[k] == Translate(c.root, value, resolving);
    AcceptsIffClean(c.root, value, resolving, k);
    forall inst ensures Accepts(k, value, inst) <==> Holds(c, v.fields, k, inst, {})
                ensures Accepts(k, kept[k], inst) <==> Holds(d, kept, k, inst, {})
    {
      ConstantHolds(c, v.fields, k, inst);
      ConstantHolds(d, kept, k, inst);
    }
    if !Clean(value) {
      var refused :| Accepts(k, value, refused) && !Accepts(k, kept[k], refused);
      assert Holds(c, v.fields, k, refused, {}) && !Holds(d, kept, k, refused, {});
    }
  }

  lemma AcceptsIffClean(root: Json, value: Json, resolving: set<string>, k: string)
    requires RefsIn(value) <= RefsIn(root) && Translatable(root, value, resolving)
    requires k != "const" ==> value.Array?
    ensures (forall inst :: Accepts(k, value, inst) ==> Accepts(k, Translate(root, value, resolving), inst))
            <==> Clean(value)
  {
    StaysIffClean(root, value, resolving);
    if k == "const" {
      assert Accepts(k, value, value);
    } else {
      ItemsStayIffClean(root, value, resolving);
      assert forall inst :: inst in value.items <==> Accepts(k, value, inst);
    }
  }

  lemma ConstantHolds(c: Context, fields: Fields, k: string, inst: Json)
    requires Constants(c.leaf) && k in {"const", "enum"} && k in fields
    ensures Holds(c, fields, k, inst, {}) <==> Accepts(k, fields[k], inst)
  {
    assert Holds(c, fields, k, inst, {}) <==> c.leaf(k, fields[k], inst);
  }

  /** Every item of a list is among the translated ones exactly when all are clean. */
  lemma ItemsStayIffClean(root: Json, v: Json, resolving: set<string>)
    requires v.Array? && RefsIn(v) <= RefsIn(root) && Translatable(root, v, resolving)
    ensures var out := Translate(root, v, resolving);
      out.Array? && ((forall inst :: inst in v.items ==> inst in out.items) <==> Clean(v))
  {
    var out := Translate(root, v, resolving);
    TranslationIsClean(root, v, resolving);
    StaysIffClean(root, v, resolving);
    if forall inst :: inst in v.items ==> inst in out.items {
      forall i | 0 <= i < |v.items| ensures Clean(v.items[i]) {
        assert v.items[i] in v.items;
        var j :| 0 <= j < |out.items| && out.items[j] == v.items[i];
      }
    }
  }

  /** The constant of an object with an entry `$schema`: its translation refuses it. */
  lemma ConstantsAreRewritten(leaf: Leaf)
    requires Constants(leaf)
    ensures var value := Object(map["$schema" := Text("x")]);
      var schema, out := Object(map["const" := value]), Object(map["const" := Object(map[])]);
      && Translatable(schema, schema, {}) && Translate(schema, schema, {}) == out
      && Valid(Context(schema, leaf, true), schema, value, {})
      && !Valid(Context(out, leaf, true), out, value, {})
  {
    var value := Object(map["$schema" := Text("x")]);
    var schema, out := Object(map["const" := value]), Object(map["const" := Object(map[])]);
    ConstantIsEmptied(schema, value);
    ConstantHolds(Context(schema, leaf, true), schema.fields, "const", value);
    ConstantHolds(Context(out, leaf, true), out.fields, "const", value);
    assert "$schema" in value.fields && "$schema" !in out.fields["const"].fields;
  }

  lemma ConstantIsEmptied(schema: Json, value: Json)
    requires value == Object(map["$schema" := Text("x")]) && schema == Object(map["const" := value])
    ensures Translatable(schema, schema, {}) && Translate(schema, schema, {}) == Object(map["const" := Object(map[])])
  {
    assert schema.fields["const"] == value;
    PartRefs(schema, value);
    forall failure ensures !Meets(schema, schema, {}, Raised(failure)) {
      assert !Meets(schema, value, {}, Raised(failure));
    }
    ValueIsEmptied(schema, value);
    assert TranslateFields(schema, schema.fields, {}) == map["const" := Object(map[])];
  }

  lemma ValueIsEmptied(root: Json, value: Json)
    requires value == Object(map["$schema" := Text("x")]) && RefsIn(value) <= RefsIn(root)
    ensures Translatable(root, value, {}) && Translate(root, value, {}) == Object(map[])
  {
    assert TranslateFields(root, value.fields, {}) == map[];
  }

  // ---------------------------------------------------------------- items

  /** Items that start at `later` instead of at `from` accept all the arrays they did exactly when
      `later` is no earlier, or the schema of the items accepts everything. */
  lemma ItemsWeakenIffLaterOrFree(c: Context, value: Json, from: nat, later: nat)
    ensures (forall inst :: ItemsAccept(c, value, from, inst) ==> ItemsAccept(c, value, later, inst))
            <==> from <= later || forall x :: Valid(c, value, x, {})
  {
    if from <= later {
      forall inst | ItemsAccept(c, value, from, inst) ensures ItemsAccept(c, value, later, inst) {
        LaterItems(c, "items", value, from, later, inst, {});
      }
    } else if exists x :: !Valid(c, value, x, {}) {
      var x :| !Valid(c, value, x, {});
      var inst := EarlierItemsRefuse(c, value, from, later, x);
      assert !(ItemsAccept(c, value, from, inst) ==> ItemsAccept(c, value, later, inst));
      assert !forall inst :: ItemsAccept(c, value, from, inst) ==> ItemsAccept(c, value, later, inst);
    } else {
      forall inst ensures ItemsAccept(c, value, later, inst) {
        if inst.Array? {
          assert ItemsHold(c, "items", value, later, inst);
        }
      }
    }
  }

  lemma EarlierItemsRefuse(c: Context, value: Json, from: nat, later: nat, x: Json) returns (inst: Json)
    requires later < from && !Valid(c, value, x, {})
    ensures ItemsAccept(c, value, from, inst) && !ItemsAccept(c, value, later, inst)
  {
    inst := Array(seq(later + 1, _ => x));
    assert inst.items[later] == x;
    assert ItemsHold(c, "items", value, from, inst) && !ItemsHold(c, "items", value, later, inst);
  }

  ghost predicate ItemsAccept(c: Context, value: Json, from: nat, inst: Json) {
    ValueHolds(c, "items", value, from, inst, {})
  }

  const ANY: Json := Boolean(true)

  /** Pairs and nothing longer. */
  function Pairs(): Fields {
    map["prefixItems" := Array([ANY, ANY]), "items" := Boolean(false)]
  }

  /** A use of what `a` names, the pairs, with a `prefixItems` of one beside it. */
  function ShorterBeside(a: string): Fields {
    map["$ref" := Text(a), "prefixItems" := Array([ANY]), "$defs" := Object(map["A" := Object(Pairs())])]
  }

  function Inlined(): Fields {
    map["prefixItems" := Array([ANY]), "items" := Boolean(false)]
  }

  /** A pair is valid for a use of the pairs, and the translation of that use refuses it. */
  lemma ShorterPrefixesRefuse(leaf: Leaf)
    ensures var (schema, out) := (Object(ShorterBeside("#/$defs/A")), Object(Inlined()));
      var pair := Array([Null, Null]);
      && Translatable(schema, schema, {}) && Translate(schema, schema, {}) == out
      && Valid(Context(schema, leaf, true), schema, pair, {})
      && !Valid(Context(out, leaf, true), out, pair, {})
  {
    SchemaCycles.DefinitionNames();
    var a := "#/" + Pointer(["$defs", "A"]);
    SchemaCycles.DefinitionResolves(ShorterBeside(a), "A");
    var schema, out := Object(ShorterBeside(a)), Object(Inlined());
    UseTranslates(ShorterBeside(a), a);
    PairIsValid(Context(schema, leaf, true), ShorterBeside(a), a);
    PairIsRefused(Context(out, leaf, true));
  }

  predicate UsesPairs(use: Fields, a: string) {
    && use.Keys == {"$ref", "prefixItems", "$defs"}
    && use["$ref"] == Text(a) && use["prefixItems"] == Array([ANY])
    && Resolve(Object(use), a) == Found(Object(Pairs()))
  }

  lemma UseTranslates(use: Fields, a: string)
    requires UsesPairs(use, a)
    ensures Translatable(Object(use), Object(use), {}) && Translate(Object(use), Object(use), {}) == Object(Inlined())
  {
    var root, merged := Object(use), Merged(Pairs(), use);
    MergedRefs(root, use, a);
    MergedTranslates(root, merged, {a});
    assert {} + {a} == {a};
    UseIsItsMerge(root, use, Pairs(), {});
  }

  /** A use that is not open is translated as what it merges to. */
  lemma UseIsItsMerge(root: Json, use: Fields, target: Fields, resolving: set<string>)
    requires RefOf(use).Some? && RefsIn(Object(use)) <= RefsIn(root) && RefOf(use).value !in resolving
    requires Resolve(root, RefOf(use).value) == Found(Object(target))
    requires RefsIn(Object(Merged(target, use))) <= RefsIn(root)
    requires Translatable(root, Object(Merged(target, use)), resolving + {RefOf(use).value})
    ensures Translatable(root, Object(use), resolving)
    ensures Translate(root, Object(use), resolving)
            == Translate(root, Object(Merged(target, use)), resolving + {RefOf(use).value})
  {
    var merged := Object(Merged(target, use));
    forall failure ensures !Meets(root, Object(use), resolving, Raised(failure)) {
      assert !Meets(root, merged, resolving + {RefOf(use).value}, Raised(failure));
    }
  }

  lemma MergedTranslates(root: Json, merged: Fields, resolving: set<string>)
    requires RefsIn(Object(merged)) <= RefsIn(root)
    requires merged.Keys == {"prefixItems", "items", "$defs"}
    requires merged["prefixItems"] == Array([ANY]) && merged["items"] == Boolean(false)
    ensures Translatable(root, Object(merged), resolving)
    ensures Translate(root, Object(merged), resolving) == Object(Inlined())
  {
    ListStays(root, resolving);
    forall failure ensures !Meets(root, Object(merged), resolving, Raised(failure)) {
      MergedMeetsNothing(root, merged, resolving, failure);
    }
    KeptOfMerged(root, merged, resolving);
  }

  lemma ListStays(root: Json, resolving: set<string>)
    ensures var v := Array([ANY]);
      RefsIn(v) <= RefsIn(root) && Translatable(root, v, resolving) && Translate(root, v, resolving) == v
  {
    var v := Array([ANY]);
    assert RefsIn(v) == {};
    assert forall failure :: !Meets(root, v, resolving, Raised(failure));
    CleanStays(root, v, resolving);
  }

  lemma MergedMeetsNothing(root: Json, merged: Fields, resolving: set<string>, failure: Failure)
    requires RefsIn(Object(merged)) <= RefsIn(root)
    requires merged.Keys == {"prefixItems", "items", "$defs"} && merged["items"] == Boolean(false)
    requires RefsIn(merged["prefixItems"]) <= RefsIn(root)
    requires !Meets(root, merged["prefixItems"], resolving, Raised(failure))
    ensures !Meets(root, Object(merged), resolving, Raised(failure))
  {
  }

  lemma KeptOfMerged(root: Json, merged: Fields, resolving: set<string>)
    requires RefsIn(Object(merged)) <= RefsIn(root) && Translatable(root, Object(merged), resolving)
    requires merged.Keys == {"prefixItems", "items", "$defs"} && merged["items"] == Boolean(false)
    requires merged["prefixItems"] == Array([ANY])
    ensures Translate(root, Object(merged), resolving) == Object(Inlined())
  {
    ListStays(root, resolving);
    var kept := TranslateFields(root, merged, resolving);
    Within(root, Object(merged), resolving, merged["items"]);
    CleanStays(root, merged["items"], resolving);
    assert "items" in kept && kept["items"] == Translate(root, merged["items"], resolving);
    assert kept["prefixItems"] == Array([ANY]) && kept["items"] == Boolean(false);
    assert kept == Inlined();
    assert WithBounds(merged, kept) == kept;
  }

  lemma PairIsValid(c: Context, use: Fields, a: string)
    requires UsesPairs(use, a) && c.root == Object(use)
    ensures Valid(c, Object(use), Array([Null, Null]), {})
  {
    var pair := Array([Null, Null]);
    MergedRefs(c.root, use, a);
    PairsAccept(c, pair, {} + {a});
    assert ItemsHold(c, "prefixItems", Array([ANY]), 1, pair);
    UseAccepts(c, use, pair);
  }

  lemma PairsAccept(c: Context, pair: Json, open: set<string>)
    requires pair == Array([Null, Null])
    ensures Valid(c, Object(Pairs()), pair, open)
  {
    assert ItemsHold(c, "prefixItems", Array([ANY, ANY]), 2, pair);
    assert ItemsHold(c, "items", Boolean(false), 2, pair);
    assert Holds(c, Pairs(), "prefixItems", pair, open) && Holds(c, Pairs(), "items", pair, open);
  }

  lemma UseAccepts(c: Context, use: Fields, pair: Json)
    requires use.Keys == {"$ref", "prefixItems", "$defs"} && pair.Array?
    requires ValueHolds(c, "$ref", use["$ref"], PrefixLength(use), pair, {})
    requires ItemsHold(c, "prefixItems", use["prefixItems"], PrefixLength(use), pair)
    ensures Valid(c, Object(use), pair, {})
  {
    assert Holds(c, use, "$ref", pair, {}) && Holds(c, use, "prefixItems", pair, {});
  }

  lemma PairIsRefused(d: Context)
    ensures !Valid(d, Object(Inlined()), Array([Null, Null]), {})
  {
    var pair := Array([Null, Null]);
    assert !ItemsHold(d, "items", Boolean(false), 1, pair) by {
      assert !Valid(d, Boolean(false), pair.items[1], {});
    }
    assert !Holds(d, Inlined(), "items", pair, {});
  }
}
