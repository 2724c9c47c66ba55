/** What inlining does to references: none are left, and translation fails exactly at a cycle. */
module SchemaReferences {
  import opened Domain
  import opened JsonPointer
  import opened SchemaTranslation

  // ---------------------------------------------------------------- nothing unsupported is left

  /** No `$ref` and none of the dropped keywords at any depth. */
  predicate Clean(v: Json) {
    match v
    case Array(items) => forall i :: 0 <= i < |items| ==> Clean(items[i])
    case Object(fields) =>
      RefOf(fields).None? && forall k :: k in fields ==> k !in DROPPED && Clean(fields[k])
    case _ => true
  }

  lemma {:induction false} TranslationIsClean(root: Json, v: Json, resolving: set<string>)
    requires RefsIn(v) <= RefsIn(root) && Translatable(root, v, resolving)
    ensures Clean(Translate(root, v, resolving))
    decreases RefsIn(root) - resolving, v
  {
    match v
    case Array(items) =>
      forall i | 0 <= i < |items|
        ensures RefsIn(items[i]) <= RefsIn(root) && Translatable(root, items[i], resolving)
                && Clean(Translate(root, items[i], resolving))
      {
        Within(root, v, resolving, items[i]);
        TranslationIsClean(root, items[i], resolving);
      }
    case Object(fields) =>
      match RefOf(fields) {
        case Some(reference) =>
          Opens(root, fields, resolving, reference);
          var target := Resolve(root, reference).value.fields;
          TranslationIsClean(root, Object(Merged(target, fields)), resolving + {reference});
        case None =>
          forall k | k in fields && k !in DROPPED
            ensures Clean(TranslateFields(root, fields, resolving)[k])
          {
            Within(root, v, resolving, fields[k]);
            TranslationIsClean(root, fields[k], resolving);
          }
          NoRefAppears(root, fields, resolving);
          FieldsAreClean(fields, TranslateFields(root, fields, resolving));
      }
    case _ =>
  }

  lemma FieldsAreClean(fields: Fields, kept: Fields)
    requires RefOf(kept).None? && forall k :: k in kept ==> k !in DROPPED && Clean(kept[k])
    ensures Clean(Object(WithBounds(fields, kept)))
  {
    var out := WithBounds(fields, kept);
    assert "$ref" in out ==> "$ref" in kept && out["$ref"] == kept["$ref"];
  }

  lemma NoRefAppears(root: Json, fields: Fields, resolving: set<string>)
    requires RefsIn(Object(fields)) <= RefsIn(root) && Translatable(root, Object(fields), resolving)
    requires RefOf(fields).None?
    ensures RefOf(TranslateFields(root, fields, resolving)).None?
  {
    if "$ref" in fields {
      Within(root, Object(fields), resolving, fields["$ref"]);
      TextStaysText(root, fields["$ref"], resolving);
    }
  }

  lemma {:induction false} TextStaysText(root: Json, v: Json, resolving: set<string>)
    requires RefsIn(v) <= RefsIn(root) && Translatable(root, v, resolving)
    ensures Translate(root, v, resolving).Text? == v.Text?
    decreases RefsIn(root) - resolving, v
  {
    if v.Object? && RefOf(v.fields).Some? {
      var reference := RefOf(v.fields).value;
      Opens(root, v.fields, resolving, reference);
      var target := Resolve(root, reference).value.fields;
      TextStaysText(root, Object(Merged(target, v.fields)), resolving + {reference});
    }
  }

  // ---------------------------------------------------------------- routes of nested uses

  /** An object with a reference, together with its other entries. */
  type Use = Fields

  /** The uses at places the translation keeps; what stands beside a reference belongs to its use. */
  ghost function KeptUses(v: Json): set<Use> {
    match v
    case Array(items) => set i, u | 0 <= i < |items| && u in KeptUses(items[i]) :: u
    case Object(fields) =>
      if RefOf(fields).Some? then {fields}
      else set k, u | k in fields && k !in DROPPED && u in KeptUses(fields[k]) :: u
    case _ => {}
  }

  function RefName(use: Use): string {
    if RefOf(use).Some? then RefOf(use).value else ""
  }

  /** What a use is translated as: its target, updated with what stands beside the reference. */
  function Entered(root: Json, use: Use): Option<Json> {
    var target := Resolve(root, RefName(use));
    if target.Found? && target.value.Object? then Some(Object(Merged(target.value.fields, use))) else None
  }

  ghost predicate Enters(root: Json, use: Use, next: Use) {
    Entered(root, use).Some? && next in KeptUses(Entered(root, use).value)
  }

  function Names(path: seq<Use>): seq<string> {
    seq(|path|, i requires 0 <= i < |path| => RefName(path[i]))
  }

  ghost predicate Nested(root: Json, path: seq<Use>) {
    path != [] && forall i :: 0 <= i < |path| - 1 ==> Enters(root, path[i], path[i + 1])
  }

  /** A list of references whose last one is open or came before. */
  predicate Repeats(names: seq<string>, resolving: set<string>) {
    names != [] && (names[|names| - 1] in resolving || names[|names| - 1] in names[..|names| - 1])
  }

  /** A route of nested uses, starting in `v`, that comes to a reference again. */
  ghost predicate UsesRepeat(root: Json, v: Json, resolving: set<string>, path: seq<Use>) {
    Nested(root, path) && path[0] in KeptUses(v) && Repeats(Names(path), resolving)
  }

  /** The recursion error is met exactly when some route of nested uses comes to a reference that is
      open or was passed; whatever the schema, and whatever stands beside its references. */
  lemma RecursionIffUsesRepeat(root: Json, v: Json, resolving: set<string>)
    requires RefsIn(v) <= RefsIn(root)
    ensures Meets(root, v, resolving, Raised(Recursive)) <==> exists path :: UsesRepeat(root, v, resolving, path)
  {
    if Meets(root, v, resolving, Raised(Recursive)) {
      var path := RecursionRepeats(root, v, resolving);
    }
    forall path | UsesRepeat(root, v, resolving, path) ensures Meets(root, v, resolving, Raised(Recursive)) {
      RepeatsMeetRecursion(root, v, resolving, path);
    }
  }

  ghost predicate Resolves(root: Json) {
    forall r :: r in RefsIn(root) ==> Resolve(root, r).Found? && Resolve(root, r).value.Object?
  }

  /** A schema whose references all lead to objects is translated exactly when no route of nested
      uses repeats a reference. */
  lemma TranslatableIffNoUseRepeats(schema: Json)
    requires Resolves(schema)
    ensures Translatable(schema, schema, {}) <==> !exists path :: UsesRepeat(schema, schema, {}, path)
    ensures forall failure :: Meets(schema, schema, {}, Raised(failure)) ==> failure == Recursive
  {
    forall failure | Meets(schema, schema, {}, Raised(failure)) ensures failure == Recursive {
      OnlyRecursionFails(schema, schema, {}, failure);
    }
    RecursionIffUsesRepeat(schema, schema, {});
  }

  lemma {:induction false} OnlyRecursionFails(root: Json, v: Json, resolving: set<string>, failure: Failure)
    requires Resolves(root) && RefsIn(v) <= RefsIn(root)
    requires Meets(root, v, resolving, Raised(failure))
    ensures failure == Recursive
    decreases RefsIn(root) - resolving, v
  {
    match v
    case Array(items) =>
      var i :| 0 <= i < |items| && Meets(root, items[i], resolving, Raised(failure));
      OnlyRecursionFails(root, items[i], resolving, failure);
    case Object(fields) =>
      match RefOf(fields) {
        case Some(reference) =>
          if reference !in resolving {
            MergedRefs(root, fields, reference);
            OnlyRecursionFails(root, Entered(root, fields).value, resolving + {reference}, failure);
          }
        case None =>
          var k :| k in fields && k !in DROPPED && Meets(root, fields[k], resolving, Raised(failure));
          OnlyRecursionFails(root, fields[k], resolving, failure);
      }
    case _ =>
  }

  lemma {:induction false} RecursionRepeats(root: Json, v: Json, resolving: set<string>) returns (path: seq<Use>)
    requires RefsIn(v) <= RefsIn(root) && Meets(root, v, resolving, Raised(Recursive))
    ensures UsesRepeat(root, v, resolving, path)
    decreases RefsIn(root) - resolving, v
  {
    match v
    case Array(items) =>
      var i :| 0 <= i < |items| && Meets(root, items[i], resolving, Raised(Recursive));
      path := RecursionRepeats(root, items[i], resolving);
      assert path[0] in KeptUses(v);
    case Object(fields) =>
      match RefOf(fields) {
        case Some(reference) =>
          if reference in resolving {
            path := [fields];
          } else {
            MergedRefs(root, fields, reference);
            var rest := RecursionRepeats(root, Entered(root, fields).value, resolving + {reference});
            path := [fields] + rest;
            Prepends(root, fields, rest, resolving);
          }
        case None =>
          var k :| k in fields && k !in DROPPED && Meets(root, fields[k], resolving, Raised(Recursive));
          path := RecursionRepeats(root, fields[k], resolving);
          assert path[0] in KeptUses(v);
      }
    case _ =>
  }

  // ---------------------------------------------------------------- references that lead nowhere

  /** The reference leads to no object, and this is why. */
  predicate LeadsNowhere(root: Json, reference: string, failure: Failure) {
    match Resolve(root, reference)
    case Missing(why) => failure == why
    case Found(value) => !value.Object? && failure == NotAnObject
  }

  predicate Fresh(names: seq<string>, resolving: set<string>) {
    forall i :: 0 <= i < |names| ==> names[i] !in resolving && names[i] !in names[..i]
  }

  /** A route of nested uses, starting in `v` and without repetition, to one that leads nowhere. */
  ghost predicate UseLeadsNowhere(
    root: Json, v: Json, resolving: set<string>, path: seq<Use>, failure: Failure)
  {
    && Nested(root, path) && path[0] in KeptUses(v) && Fresh(Names(path), resolving)
    && LeadsNowhere(root, RefName(path[|path| - 1]), failure)
  }

  /** Every other failure is met exactly when a route of nested uses comes to a reference that leads
      nowhere for that reason. */
  lemma OtherFailuresIffLeadsNowhere(root: Json, v: Json, resolving: set<string>, failure: Failure)
    requires RefsIn(v) <= RefsIn(root) && failure != Recursive
    ensures Meets(root, v, resolving, Raised(failure))
            <==> exists path :: UseLeadsNowhere(root, v, resolving, path, failure)
  {
    if Meets(root, v, resolving, Raised(failure)) {
      var path := FailureHasRoute(root, v, resolving, failure);
    }
    forall path | UseLeadsNowhere(root, v, resolving, path, failure)
      ensures Meets(root, v, resolving, Raised(failure))
    {
      RouteMeetsFailure(root, v, resolving, path, failure);
    }
  }

  lemma {:induction false} FailureHasRoute(root: Json, v: Json, resolving: set<string>, failure: Failure)
    returns (path: seq<Use>)
    requires RefsIn(v) <= RefsIn(root) && failure != Recursive && Meets(root, v, resolving, Raised(failure))
    ensures UseLeadsNowhere(root, v, resolving, path, failure)
    decreases RefsIn(root) - resolving, v
  {
    match v
    case Array(items) =>
      var i :| 0 <= i < |items| && Meets(root, items[i], resolving, Raised(failure));
      path := FailureHasRoute(root, items[i], resolving, failure);
      assert path[0] in KeptUses(v);
    case Object(fields) =>
      match RefOf(fields) {
        case Some(reference) =>
          if LeadsNowhere(root, reference, failure) {
            path := [fields];
          } else {
            MergedRefs(root, fields, reference);
            var rest := FailureHasRoute(root, Entered(root, fields).value, resolving + {reference}, failure);
            path := [fields] + rest;
            NestedCons(root, fields, rest);
            NamesCons(fields, rest);
            FreshCons(reference, Names(rest), resolving);
          }
        case None =>
          var k :| k in fields && k !in DROPPED && Meets(root, fields[k], resolving, Raised(failure));
          path := FailureHasRoute(root, fields[k], resolving, failure);
          assert path[0] in KeptUses(v);
      }
    case _ =>
  }

  lemma FreshCons(name: string, rest: seq<string>, resolving: set<string>)
    ensures Fresh([name] + rest, resolving) <==> name !in resolving && Fresh(rest, resolving + {name})
  {
    var names := [name] + rest;
    forall i | 0 <= i < |rest| ensures names[i + 1] == rest[i] && names[..i + 1] == [name] + rest[..i] {
    }
    if name !in resolving && Fresh(rest, resolving + {name}) {
      forall i | 0 <= i < |names| ensures names[i] !in resolving && names[i] !in names[..i] {
        assert i > 0 ==> names[i] == rest[i - 1] && names[..i] == [name] + rest[..i - 1];
      }
    }
    if Fresh(names, resolving) {
      forall i | 0 <= i < |rest| ensures rest[i] !in resolving + {name} && rest[i] !in rest[..i] {
        assert names[i + 1] == rest[i] && names[..i + 1] == [name] + rest[..i];
      }
      assert names[0] == name;
    }
  }

  lemma {:induction false} RouteMeetsFailure(
    root: Json, v: Json, resolving: set<string>, path: seq<Use>, failure: Failure)
    requires RefsIn(v) <= RefsIn(root) && UseLeadsNowhere(root, v, resolving, path, failure)
    ensures Meets(root, v, resolving, Raised(failure))
    decreases RefsIn(root) - resolving, v
  {
    match v
    case Array(items) =>
      var i :| 0 <= i < |items| && path[0] in KeptUses(items[i]);
      PartRefs(v, items[i]);
      RouteMeetsFailure(root, items[i], resolving, path, failure);
    case Object(fields) =>
      match RefOf(fields) {
        case Some(reference) =>
          var names := Names(path);
          assert names == [reference] + Names(path[1..]);
          FreshCons(reference, Names(path[1..]), resolving);
          if |path| > 1 {
            MergedRefs(root, fields, reference);
            NestedTail(root, path);
            assert Enters(root, path[0], path[1]);
            RouteMeetsFailure(root, Entered(root, fields).value, resolving + {reference}, path[1..], failure);
          }
        case None =>
          var k :| k in fields && k !in DROPPED && path[0] in KeptUses(fields[k]);
          PartRefs(v, fields[k]);
          RouteMeetsFailure(root, fields[k], resolving, path, failure);
      }
    case _ =>
  }

  lemma Prepends(root: Json, use: Use, rest: seq<Use>, resolving: set<string>)
    requires Nested(root, rest) && Enters(root, use, rest[0]) && Repeats(Names(rest), resolving + {RefName(use)})
    ensures Nested(root, [use] + rest) && Repeats(Names([use] + rest), resolving)
  {
    NestedCons(root, use, rest);
    NamesCons(use, rest);
    RepeatsCons(RefName(use), Names(rest), resolving);
  }

  lemma NamesCons(use: Use, rest: seq<Use>)
    ensures Names([use] + rest) == [RefName(use)] + Names(rest)
  {
  }

  lemma NestedCons(root: Json, use: Use, rest: seq<Use>)
    requires Nested(root, rest) && Enters(root, use, rest[0])
    ensures Nested(root, [use] + rest)
  {
    var path := [use] + rest;
    forall i | 0 <= i < |path| - 1 ensures Enters(root, path[i], path[i + 1]) {
      assert i > 0 ==> path[i] == rest[i - 1] && path[i + 1] == rest[i];
    }
  }

  lemma RepeatsCons(name: string, rest: seq<string>, resolving: set<string>)
    requires rest != []
    ensures Repeats([name] + rest, resolving) <==> Repeats(rest, resolving + {name})
  {
    var names := [name] + rest;
    assert names[|names| - 1] == rest[|rest| - 1];
    assert names[..|names| - 1] == [name] + rest[..|rest| - 1];
  }

  lemma {:induction false} RepeatsMeetRecursion(root: Json, v: Json, resolving: set<string>, path: seq<Use>)
    requires RefsIn(v) <= RefsIn(root) && UsesRepeat(root, v, resolving, path)
    ensures Meets(root, v, resolving, Raised(Recursive))
    decreases RefsIn(root) - resolving, v
  {
    match v
    case Array(items) =>
      var i :| 0 <= i < |items| && path[0] in KeptUses(items[i]);
      PartRefs(v, items[i]);
      RepeatsMeetRecursion(root, items[i], resolving, path);
    case Object(fields) =>
      match RefOf(fields) {
        case Some(reference) =>
          if reference !in resolving {
            MergedRefs(root, fields, reference);
            Continues(root, fields, path, resolving);
            RepeatsMeetRecursion(root, Entered(root, fields).value, resolving + {reference}, path[1..]);
          }
        case None =>
          var k :| k in fields && k !in DROPPED && path[0] in KeptUses(fields[k]);
          PartRefs(v, fields[k]);
          RepeatsMeetRecursion(root, fields[k], resolving, path);
      }
    case _ =>
  }

  lemma Continues(root: Json, use: Use, path: seq<Use>, resolving: set<string>)
    requires Nested(root, path) && path[0] == use && RefName(use) !in resolving && Repeats(Names(path), resolving)
    ensures |path| > 1 && Enters(root, use, path[1])
    ensures Nested(root, path[1..]) && Repeats(Names(path[1..]), resolving + {RefName(use)})
  {
    assert Names(path)[0] == RefName(use);
    var rest := path[1..];
    assert Enters(root, path[0], path[1]);
    NestedTail(root, path);
    assert Names(path) == [RefName(use)] + Names(rest);
    RepeatsCons(RefName(use), Names(rest), resolving);
  }

  lemma NestedTail(root: Json, path: seq<Use>)
    requires Nested(root, path) && |path| > 1
    ensures Nested(root, path[1..])
  {
    var rest := path[1..];
    forall i | 0 <= i < |rest| - 1 ensures Enters(root, rest[i], rest[i + 1]) {
      assert rest[i] == path[i + 1] && rest[i + 1] == path[i + 2];
    }
  }
}
