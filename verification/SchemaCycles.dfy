/** When the recursion error means a reference cycle: always, as long as what stands beside a reference
    neither holds nor hides references; and two schemas that show why that is needed. */
module SchemaCycles {
  import opened Domain
  import opened JsonPointer
  import opened SchemaTranslation
  import opened SchemaReferences

  // ---------------------------------------------------------------- the graph of references

  /** The references at places the translation keeps. */
  ghost function KeptRefs(v: Json): set<string> {
    match v
    case Array(items) => set i, r | 0 <= i < |items| && r in KeptRefs(items[i]) :: r
    case Object(fields) =>
      OwnRef(fields) + set k, r | k in fields && k !in DROPPED && r in KeptRefs(fields[k]) :: r
    case _ => {}
  }

  ghost predicate RefersTo(root: Json, r: string, s: string) {
    Resolve(root, r).Found? && s in KeptRefs(Resolve(root, r).value)
  }

  ghost predicate Route(root: Json, names: seq<string>) {
    names != [] && forall i :: 0 <= i < |names| - 1 ==> RefersTo(root, names[i], names[i + 1])
  }

  /** A route of references from `v` that comes back to one it passed. */
  ghost predicate ComesBack(root: Json, v: Json, names: seq<string>) {
    Route(root, names) && names[0] in KeptRefs(v) && Repeats(names, {})
  }

  // ---------------------------------------------------------------- simple uses

  /** References each of which leads to an object that is itself a use of the next. */
  predicate Aliases(root: Json, chain: seq<string>) {
    && chain != []
    && forall i :: 0 <= i < |chain| - 1 ==> AliasOf(root, chain[i], chain[i + 1])
  }

  predicate AliasOf(root: Json, r: string, s: string) {
    var target := Resolve(root, r);
    target.Found? && target.value.Object? && RefOf(target.value.fields) == Some(s)
  }

  /** No object that `reference` leads to, by itself or over aliases, keeps a reference at `k`. */
  ghost predicate HidesNone(root: Json, reference: string, k: string) {
    forall chain :: Aliases(root, chain) && chain[0] == reference ==> KeepsNone(root, chain[|chain| - 1], k)
  }

  ghost predicate KeepsNone(root: Json, r: string, k: string) {
    var target := Resolve(root, r);
    target.Found? && target.value.Object? && k in target.value.fields ==> KeptRefs(target.value.fields[k]) == {}
  }

  /** A use whose other entries hold no references and hide none. */
  ghost predicate SimpleUse(root: Json, use: Use)
    requires RefOf(use).Some?
  {
    forall k :: k in use && k != "$ref" && k !in DROPPED ==>
      KeptRefs(use[k]) == {} && HidesNone(root, RefName(use), k)
  }

  ghost predicate SimpleUses(root: Json, v: Json) {
    match v
    case Array(items) => forall i :: 0 <= i < |items| ==> SimpleUses(root, items[i])
    case Object(fields) =>
      && (RefOf(fields).Some? ==> SimpleUse(root, fields))
      && forall k :: k in fields && k !in DROPPED ==> SimpleUses(root, fields[k])
    case _ => true
  }

  /** Every reference of the document leads to an object, and all are used simply. */
  ghost predicate Resolvable(root: Json) {
    && Resolves(root)
    && SimpleUses(root, root)
    && forall r :: r in RefsIn(root) ==> SimpleUses(root, Resolve(root, r).value)
  }

  /** Translation of such a schema succeeds exactly when no reference the schema keeps leads back to
      itself; otherwise it fails with the recursion error. */
  lemma TranslatableIffAcyclic(schema: Json)
    requires Resolvable(schema)
    ensures Translatable(schema, schema, {}) <==> !exists names :: ComesBack(schema, schema, names)
    ensures forall failure :: Meets(schema, schema, {}, Raised(failure)) ==> failure == Recursive
  {
    TranslatableIffNoUseRepeats(schema);
    forall path | UsesRepeat(schema, schema, {}, path) ensures ComesBack(schema, schema, Names(path)) {
      UsesMakeARoute(schema, schema, path);
    }
    forall names | ComesBack(schema, schema, names) ensures exists path :: UsesRepeat(schema, schema, {}, path) {
      var path := RouteComesFromUses(schema, schema, names);
      assert UsesRepeat(schema, schema, {}, path);
    }
  }

  // ---------------------------------------------------------------- uses and references

  lemma {:induction false} UsesMakeARoute(root: Json, v: Json, path: seq<Use>)
    requires Resolvable(root) && SimpleUses(root, v) && RefsIn(v) <= RefsIn(root)
    requires Nested(root, path) && path[0] in KeptUses(v)
    ensures Route(root, Names(path)) && Names(path)[0] in KeptRefs(v)
    decreases |path|
  {
    var inside := Inside(root, v, path[0]);
    if |path| > 1 {
      var rest := path[1..];
      assert Enters(root, path[0], path[1]);
      NestedTail(root, path);
      UsesMakeARoute(root, inside, rest);
      NamesCons(path[0], rest);
      assert path == [path[0]] + rest;
      RouteCons(root, RefName(path[0]), Names(rest));
    }
  }

  lemma {:induction false} RouteComesFromUses(root: Json, v: Json, names: seq<string>) returns (path: seq<Use>)
    requires Resolvable(root) && SimpleUses(root, v) && RefsIn(v) <= RefsIn(root)
    requires Route(root, names) && names[0] in KeptRefs(v)
    ensures Nested(root, path) && path[0] in KeptUses(v) && Names(path) == names
    decreases |names|
  {
    var use := UseNamed(root, v, names[0]);
    var inside := Inside(root, v, use);
    if |names| == 1 {
      path := [use];
    } else {
      assert RefersTo(root, names[0], names[1]);
      RouteTail(root, names);
      var rest := RouteComesFromUses(root, inside, names[1..]);
      path := [use] + rest;
      NestedCons(root, use, rest);
      NamesCons(use, rest);
    }
  }

  /** One step: a kept use, what it is translated as, and the references that leads to. */
  lemma Inside(root: Json, v: Json, use: Use) returns (inside: Json)
    requires Resolvable(root) && SimpleUses(root, v) && RefsIn(v) <= RefsIn(root) && use in KeptUses(v)
    ensures RefName(use) in KeptRefs(v) && Entered(root, use) == Some(inside)
    ensures SimpleUses(root, inside) && RefsIn(inside) <= RefsIn(root)
    ensures forall s :: RefersTo(root, RefName(use), s) <==> s in KeptRefs(inside)
  {
    UseOf(root, v, use);
    inside := EnteredIsSimple(root, use);
  }

  lemma RouteCons(root: Json, name: string, rest: seq<string>)
    requires Route(root, rest) && RefersTo(root, name, rest[0])
    ensures Route(root, [name] + rest)
  {
    var names := [name] + rest;
    forall i | 0 <= i < |names| - 1 ensures RefersTo(root, names[i], names[i + 1]) {
      assert i > 0 ==> names[i] == rest[i - 1] && names[i + 1] == rest[i];
    }
  }

  lemma RouteTail(root: Json, names: seq<string>)
    requires Route(root, names) && |names| > 1
    ensures Route(root, names[1..])
  {
    var rest := names[1..];
    forall i | 0 <= i < |rest| - 1 ensures RefersTo(root, rest[i], rest[i + 1]) {
      assert rest[i] == names[i + 1] && rest[i + 1] == names[i + 2];
    }
  }

  /** A kept use is simple where all are, and its reference is a kept one. */
  lemma {:induction false} UseOf(root: Json, v: Json, use: Use)
    requires SimpleUses(root, v) && use in KeptUses(v)
    ensures RefOf(use).Some? && SimpleUses(root, Object(use))
    ensures RefName(use) in KeptRefs(v) && RefsIn(Object(use)) <= RefsIn(v)
  {
    match v
    case Array(items) =>
      var i :| 0 <= i < |items| && use in KeptUses(items[i]);
      UseOf(root, items[i], use);
      PartRefs(v, items[i]);
    case Object(fields) =>
      if RefOf(fields).None? {
        var k :| k in fields && k !in DROPPED && use in KeptUses(fields[k]);
        UseOf(root, fields[k], use);
        PartRefs(v, fields[k]);
      }
    case _ =>
  }

  lemma {:induction false} UseNamed(root: Json, v: Json, name: string) returns (use: Use)
    requires SimpleUses(root, v) && name in KeptRefs(v)
    ensures use in KeptUses(v) && RefName(use) == name
  {
    match v
    case Array(items) =>
      var i :| 0 <= i < |items| && name in KeptRefs(items[i]);
      use := UseNamed(root, items[i], name);
    case Object(fields) =>
      if RefOf(fields).Some? {
        use := fields;
        OnlyOwnRef(root, fields);
      } else {
        var k :| k in fields && k !in DROPPED && name in KeptRefs(fields[k]);
        use := UseNamed(root, fields[k], name);
      }
    case _ =>
  }

  lemma OnlyOwnRef(root: Json, use: Use)
    requires RefOf(use).Some? && SimpleUse(root, use)
    ensures KeptRefs(Object(use)) == {RefName(use)}
  {
    assert KeptRefs(use["$ref"]) == {};
  }

  /** What a simple use is translated as has simple uses again, and the references of the target. */
  lemma EnteredIsSimple(root: Json, use: Use) returns (inside: Json)
    requires Resolvable(root) && RefOf(use).Some? && RefsIn(Object(use)) <= RefsIn(root)
    requires SimpleUses(root, Object(use))
    ensures Entered(root, use) == Some(inside)
    ensures SimpleUses(root, inside) && RefsIn(inside) <= RefsIn(root)
    ensures KeptRefs(inside) == KeptRefs(Resolve(root, RefName(use)).value)
  {
    MergedRefs(root, use, RefName(use));
    inside := Entered(root, use).value;
    MergedKeepsRefs(root, use, Resolve(root, RefName(use)).value.fields);
    MergedIsSimple(root, use, Resolve(root, RefName(use)).value.fields);
  }

  lemma HidesNoneHere(root: Json, reference: string, k: string)
    requires HidesNone(root, reference, k)
    ensures KeepsNone(root, reference, k)
  {
    assert Aliases(root, [reference]);
  }

  lemma HidesNoneBehind(root: Json, reference: string, alias: string, k: string)
    requires HidesNone(root, reference, k) && AliasOf(root, reference, alias)
    ensures HidesNone(root, alias, k)
  {
    forall chain | Aliases(root, chain) && chain[0] == alias ensures KeepsNone(root, chain[|chain| - 1], k) {
      var longer := [reference] + chain;
      forall i | 0 <= i < |longer| - 1 ensures AliasOf(root, longer[i], longer[i + 1]) {
        assert i > 0 ==> longer[i] == chain[i - 1] && longer[i + 1] == chain[i];
      }
      assert Aliases(root, longer) && longer[|longer| - 1] == chain[|chain| - 1];
    }
  }

  lemma MergedKeepsRefs(root: Json, use: Use, target: Fields)
    requires RefOf(use).Some? && SimpleUse(root, use) && Resolve(root, RefName(use)) == Found(Object(target))
    ensures KeptRefs(Object(Merged(target, use))) == KeptRefs(Object(target))
  {
    var merged := Merged(target, use);
    assert RefOf(merged) == RefOf(target);
    forall k | k in use && k != "$ref" && k !in DROPPED && k in target ensures KeptRefs(target[k]) == {} {
      HidesNoneHere(root, RefName(use), k);
    }
    forall r | r in KeptRefs(Object(target)) ensures r in KeptRefs(Object(merged)) {
      if r !in OwnRef(target) {
        var k :| k in target && k !in DROPPED && r in KeptRefs(target[k]);
        assert merged[k] == target[k];
      }
    }
    forall r | r in KeptRefs(Object(merged)) ensures r in KeptRefs(Object(target)) {
      if r !in OwnRef(merged) {
        var k :| k in merged && k !in DROPPED && r in KeptRefs(merged[k]);
        assert k in target && merged[k] == target[k];
      }
    }
  }

  lemma MergedIsSimple(root: Json, use: Use, target: Fields)
    requires RefOf(use).Some? && SimpleUses(root, Object(use))
    requires Resolve(root, RefName(use)) == Found(Object(target)) && SimpleUses(root, Object(target))
    ensures SimpleUses(root, Object(Merged(target, use)))
  {
    var merged := Merged(target, use);
    assert RefOf(merged) == RefOf(target);
    if RefOf(target).Some? {
      forall k | k in merged && k != "$ref" && k !in DROPPED
        ensures KeptRefs(merged[k]) == {} && HidesNone(root, RefName(target), k)
      {
        if k in use {
          HidesNoneBehind(root, RefName(use), RefName(target), k);
        }
      }
    }
  }

  // ---------------------------------------------------------------- siblings that hold or hide references

  function Refer(reference: string): Fields {
    map["$ref" := Text(reference)]
  }

  /** What `a` names uses nothing and what `b` names uses `a`; the schema uses `a`, with a use of `b`
      beside it. */
  function Holding(a: string, b: string): Fields {
    map["$ref" := Text(a), "items" := Object(Refer(b)), "$defs" := Object(map["A" := ArrayType(), "B" := User(a)])]
  }

  function ArrayType(): Json {
    Object(map["type" := Text("array")])
  }

  function User(reference: string): Json {
    Object(map["properties" := Object(map["a" := Object(Refer(reference))])])
  }

  /** No reference leads back to itself, and yet the recursion error is met: what stands beside the
      reference to A is translated while A is open. */
  lemma SiblingsCanLookRecursive()
    ensures var schema := Object(Holding("#/$defs/A", "#/$defs/B"));
      Meets(schema, schema, {}, Raised(Recursive)) && !exists names :: ComesBack(schema, schema, names)
  {
    DefinitionNames();
    var a, b := "#/" + Pointer(["$defs", "A"]), "#/" + Pointer(["$defs", "B"]);
    DefinitionResolves(Holding(a, b), "A");
    DefinitionResolves(Holding(a, b), "B");
    HoldingRecurses(a, b);
    forall names ensures !ComesBack(Object(Holding(a, b)), Object(Holding(a, b)), names) {
      HoldingHasNoCycle(a, b, names);
    }
  }

  lemma DefinitionNames()
    ensures "#/" + Pointer(["$defs", "A"]) == "#/$defs/A"
    ensures "#/" + Pointer(["$defs", "B"]) == "#/$defs/B"
  {
    PlainPointer("$defs", "A");
    PlainPointer("$defs", "B");
  }

  lemma PlainPointer(first: string, second: string)
    requires PlainKey(first) && PlainKey(second)
    ensures Pointer([first, second]) == first + "/" + second
  {
    PlainKeysStay(first);
    PlainKeysStay(second);
    assert [first, second][1..] == [second];
  }

  predicate PlainKey(key: string) {
    forall i :: 0 <= i < |key| ==> key[i] != '~' && key[i] != '/'
  }

  lemma {:induction false} PlainKeysStay(key: string)
    requires PlainKey(key)
    ensures Escape(key) == key
  {
    if key != "" {
      PlainKeysStay(key[1..]);
      assert key == [key[0]] + key[1..];
    }
  }

  lemma DefinitionResolves(root: Fields, name: string)
    requires "$defs" in root && root["$defs"].Object? && name in root["$defs"].fields
    ensures Resolve(Object(root), "#/" + Pointer(["$defs", name])) == Found(root["$defs"].fields[name])
  {
    PointersNameEveryPath(Object(root), ["$defs", name]);
    assert ["$defs", name][1..] == [name] && [name][1..] == [];
    assert At(root["$defs"], [name]) == At(root["$defs"].fields[name], []);
  }

  ghost predicate Named(root: Fields, reference: string, definition: Json) {
    Resolve(Object(root), reference) == Found(definition)
  }

  lemma HoldingRecurses(a: string, b: string)
    requires Named(Holding(a, b), a, ArrayType()) && Named(Holding(a, b), b, User(a))
    ensures Meets(Object(Holding(a, b)), Object(Holding(a, b)), {}, Raised(Recursive))
  {
    var schema := Object(Holding(a, b));
    var path := [Holding(a, b), Refer(b), Refer(a)];
    HoldingOpens(a, b);
    UserOpens(Holding(a, b), a, b);
    ThreeNames(path);
    assert UsesRepeat(schema, schema, {}, path);
    RecursionIffUsesRepeat(schema, schema, {});
  }

  lemma ThreeNames(path: seq<Use>)
    requires |path| == 3 && RefName(path[0]) == RefName(path[2])
    ensures Repeats(Names(path), {})
  {
    assert Names(path)[..2][0] == Names(path)[2];
  }

  lemma HoldingOpens(a: string, b: string)
    requires Named(Holding(a, b), a, ArrayType())
    ensures Enters(Object(Holding(a, b)), Holding(a, b), Refer(b))
  {
    var merged := Merged(ArrayType().fields, Holding(a, b));
    assert Refer(b) in KeptUses(merged["items"]);
    KeptUseAt(merged, "items", Refer(b));
  }

  lemma UserOpens(root: Fields, a: string, b: string)
    requires Named(root, b, User(a))
    ensures Enters(Object(root), Refer(b), Refer(a))
  {
    var merged := Merged(User(a).fields, Refer(b));
    KeptUseAt(map["a" := Object(Refer(a))], "a", Refer(a));
    KeptUseAt(merged, "properties", Refer(a));
  }

  lemma KeptUseAt(fields: Fields, k: string, use: Use)
    requires RefOf(fields).None? && k in fields && k !in DROPPED && use in KeptUses(fields[k])
    ensures use in KeptUses(Object(fields))
  {
  }

  lemma HoldingHasNoCycle(a: string, b: string, names: seq<string>)
    requires Named(Holding(a, b), a, ArrayType()) && Named(Holding(a, b), b, User(a))
    ensures !ComesBack(Object(Holding(a, b)), Object(Holding(a, b)), names)
  {
    var schema := Object(Holding(a, b));
    HoldingRefs(a, b);
    if |names| > 1 {
      assert names[0] in {a, b} && RefersTo(schema, names[0], names[1]) ==> names[0] == b && names[1] == a;
      assert |names| > 2 && RefersTo(schema, names[1], names[2]) ==> names[1] != a;
      assert |names| == 2 ==> names[..1] == [names[0]];
    }
  }

  lemma HoldingRefs(a: string, b: string)
    requires Named(Holding(a, b), a, ArrayType()) && Named(Holding(a, b), b, User(a))
    ensures a != b && KeptRefs(Object(Holding(a, b))) <= {a, b}
    ensures forall s :: !RefersTo(Object(Holding(a, b)), a, s)
    ensures forall s :: RefersTo(Object(Holding(a, b)), b, s) ==> s == a
  {
    NoRefs(map["type" := Text("array")]);
    UserRefs(a);
    HoldingKeeps(a, b);
    UserIsNoArray(a);
  }

  lemma UserIsNoArray(a: string)
    ensures ArrayType() != User(a)
  {
    assert "type" in ArrayType().fields && "type" !in User(a).fields;
  }

  lemma UserRefs(a: string)
    ensures KeptRefs(User(a)) == {a}
  {
    ReferRefs(a);
    TwoEntries("properties", "a", Object(Refer(a)));
  }

  lemma TwoEntries(outer: string, inner: string, v: Json)
    requires outer != "$ref" && inner != "$ref" && outer !in DROPPED && inner !in DROPPED
    ensures KeptRefs(Object(map[outer := Object(map[inner := v])])) == KeptRefs(v)
  {
    OnlyEntry(inner, v);
    OnlyEntry(outer, Object(map[inner := v]));
  }

  lemma HoldingKeeps(a: string, b: string)
    ensures KeptRefs(Object(Holding(a, b))) <= {a, b}
  {
    ReferRefs(b);
    var fields := Holding(a, b);
    assert KeptRefs(fields["$ref"]) == {} && KeptRefs(fields["items"]) == {b};
    assert forall k :: k in fields && k !in DROPPED ==> k == "$ref" || k == "items";
  }

  lemma NoRefs(fields: Fields)
    requires forall k :: k in fields ==> fields[k].Text? && k != "$ref"
    ensures KeptRefs(Object(fields)) == {}
  {
  }

  lemma ReferRefs(reference: string)
    ensures KeptRefs(Object(Refer(reference))) == RefsIn(Object(Refer(reference))) == {reference}
  {
  }

  /** An object of one entry that is no reference keeps what the entry does. */
  lemma OnlyEntry(k: string, v: Json)
    requires k != "$ref"
    ensures RefsIn(Object(map[k := v])) == RefsIn(v)
    ensures k !in DROPPED ==> KeptRefs(Object(map[k := v])) == KeptRefs(v)
  {
    var fields := map[k := v];
    assert fields[k] == v && OwnRef(fields) == {};
    assert forall r :: r in RefsIn(v) ==> r in RefsIn(Object(fields));
    if k !in DROPPED {
      assert forall r :: r in KeptRefs(v) ==> r in KeptRefs(Object(fields));
    }
  }

  /** What `a` names uses itself under `items`; the schema uses it, with an `items` of its own beside. */
  function Hiding(a: string): Fields {
    map["$ref" := Text(a), "items" := Boolean(true), "$defs" := Object(map["A" := Lists(a)])]
  }

  function Lists(reference: string): Json {
    Object(map["items" := Object(Refer(reference))])
  }

  /** A reference the schema keeps leads back to itself, and yet translation succeeds: the entry that
      holds it is overridden. */
  lemma SiblingsCanHideRecursion()
    ensures var schema := Object(Hiding("#/$defs/A"));
      Translatable(schema, schema, {}) && ComesBack(schema, schema, ["#/$defs/A", "#/$defs/A"])
  {
    DefinitionNames();
    var a := "#/" + Pointer(["$defs", "A"]);
    DefinitionResolves(Hiding(a), "A");
    HidingTranslates(a);
    HidingComesBack(a);
  }

  lemma HidingTranslates(a: string)
    requires Named(Hiding(a), a, Lists(a))
    ensures Translatable(Object(Hiding(a)), Object(Hiding(a)), {})
  {
    var schema := Object(Hiding(a));
    HidingRefs(a);
    TranslatableIffNoUseRepeats(schema);
    forall path ensures !UsesRepeat(schema, schema, {}, path) {
      HidingDoesNotRepeat(a, path);
    }
  }

  lemma HidingDoesNotRepeat(a: string, path: seq<Use>)
    requires Named(Hiding(a), a, Lists(a))
    ensures !UsesRepeat(Object(Hiding(a)), Object(Hiding(a)), {}, path)
  {
    HidingOpens(a);
    if |path| > 1 {
      assert !Enters(Object(Hiding(a)), Hiding(a), path[1]);
    } else if |path| == 1 {
      assert Names(path)[..0] == [];
    }
  }

  lemma HidingOpens(a: string)
    requires Named(Hiding(a), a, Lists(a))
    ensures forall next :: !Enters(Object(Hiding(a)), Hiding(a), next)
  {
    var merged := Merged(Lists(a).fields, Hiding(a));
    assert merged.Keys == {"items", "$defs"} && merged["items"] == Boolean(true);
    assert KeptUses(Object(merged)) == {};
  }

  lemma HidingRefs(a: string)
    requires Named(Hiding(a), a, Lists(a))
    ensures Resolves(Object(Hiding(a)))
  {
    var fields := Hiding(a);
    forall k | k in fields ensures RefsIn(fields[k]) <= {a} {
      HidingEntry(a, k);
    }
    OneRef(fields, a);
    ListsRefs(a);
  }

  lemma HidingEntry(a: string, k: string)
    requires k in Hiding(a)
    ensures RefsIn(Hiding(a)[k]) <= {a}
  {
    if k == "$defs" {
      ListsRefs(a);
      OnlyEntry("A", Lists(a));
    }
  }

  lemma OneRef(fields: Fields, a: string)
    requires OwnRef(fields) <= {a} && forall k :: k in fields ==> RefsIn(fields[k]) <= {a}
    ensures RefsIn(Object(fields)) <= {a}
  {
  }

  lemma ListsRefs(a: string)
    ensures KeptRefs(Lists(a)) == RefsIn(Lists(a)) == {a}
  {
    ReferRefs(a);
    OnlyEntry("items", Object(Refer(a)));
  }

  lemma HidingComesBack(a: string)
    requires Named(Hiding(a), a, Lists(a))
    ensures ComesBack(Object(Hiding(a)), Object(Hiding(a)), [a, a])
  {
    ListsRefs(a);
    assert RefersTo(Object(Hiding(a)), a, a);
  }
}
