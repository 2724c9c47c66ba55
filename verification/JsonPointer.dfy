/** JSON values and the `#/...` references `_gemini_schema` resolves inside one document
    (backend/app/v2/providers.py; section 4 of RFC 6901). */
module JsonPointer {
  import opened Domain

  datatype Json =
    | Null
    | Boolean(b: bool)
    | Number(n: real)
    | Text(s: string)
    | Array(items: seq<Json>)
    | Object(fields: map<string, Json>)

  /** Why a schema cannot be translated: a reference cycle or a reference out of the document
      (CAPABILITY), one that leads nowhere (INTERNAL), or one that does not lead to an object. */
  datatype Failure = Recursive | NonLocal | Unresolved | NotAnObject

  datatype Resolved = Found(value: Json) | Missing(failure: Failure)

  /** `text.split("/")` */
  function SplitSlash(text: string): (parts: seq<string>)
    ensures parts != []
  {
    if text == "" then [""]
    else
      var rest := SplitSlash(text[1..]);
      if text[0] == '/' then [""] + rest else [[text[0]] + rest[0]] + rest[1..]
  }

  /** `text.replace("~" + digit, [with])` */
  function Replace(text: string, digit: char, with: char): string {
    if |text| < 2 then text
    else if text[0] == '~' && text[1] == digit then [with] + Replace(text[2..], digit, with)
    else [text[0]] + Replace(text[1..], digit, with)
  }

  function Unescape(token: string): string {
    Replace(Replace(token, '1', '/'), '0', '~')
  }

  function Descend(value: Json, parts: seq<string>): (r: Resolved)
    ensures r.Missing? ==> r.failure == Unresolved
  {
    if parts == [] then Found(value)
    else
      var key := Unescape(parts[0]);
      if !value.Object? || key !in value.fields then Missing(Unresolved)
      else Descend(value.fields[key], parts[1..])
  }

  function Resolve(root: Json, reference: string): Resolved {
    if !("#/" <= reference) then Missing(NonLocal) else Descend(root, SplitSlash(reference[2..]))
  }

  /** `resolve` */
  method ResolveReference(root: Json, reference: string) returns (r: Resolved)
    ensures r == Resolve(root, reference)
  {
    if !("#/" <= reference) {
      return Missing(NonLocal);
    }
    var value := root;
    var parts := SplitSlash(reference[2..]);
    for i := 0 to |parts|
      invariant Descend(root, parts) == Descend(value, parts[i..])
    {
      var key := Unescape(parts[i]);
      if !value.Object? || key !in value.fields {
        return Missing(Unresolved);
      }
      value := value.fields[key];
      assert parts[i..][1..] == parts[i + 1..];
    }
    return Found(value);
  }

  // ---------------------------------------------------------------- every key can be named

  function Escape(key: string): string {
    if key == "" then ""
    else (if key[0] == '~' then "~0" else if key[0] == '/' then "~1" else [key[0]]) + Escape(key[1..])
  }

  function Pointer(keys: seq<string>): string {
    if keys == [] then ""
    else if |keys| == 1 then Escape(keys[0])
    else Escape(keys[0]) + "/" + Pointer(keys[1..])
  }

  function At(value: Json, keys: seq<string>): Option<Json> {
    if keys == [] then Some(value)
    else if value.Object? && keys[0] in value.fields then At(value.fields[keys[0]], keys[1..])
    else None
  }

  /** The pointer written from a path of keys resolves to exactly what stands at that path, whatever
      characters the keys contain. */
  lemma PointersNameEveryPath(root: Json, keys: seq<string>)
    requires keys != []
    ensures Resolve(root, "#/" + Pointer(keys)) ==
            match At(root, keys) case Some(value) => Found(value) case None => Missing(Unresolved)
  {
    var reference := "#/" + Pointer(keys);
    assert reference[2..] == Pointer(keys);
    SplitsIntoTokens(keys);
    DescendsTo(root, keys);
  }

  function Tokens(keys: seq<string>): seq<string> {
    seq(|keys|, i requires 0 <= i < |keys| => Escape(keys[i]))
  }

  lemma {:induction false} SplitsIntoTokens(keys: seq<string>)
    requires keys != []
    ensures SplitSlash(Pointer(keys)) == Tokens(keys)
  {
    EscapeHasNoSlash(keys[0]);
    if |keys| == 1 {
      NoSlashNoSplit(Escape(keys[0]));
    } else {
      SplitsIntoTokens(keys[1..]);
      SplitsAtSlash(Escape(keys[0]), Pointer(keys[1..]));
      assert Tokens(keys) == [Escape(keys[0])] + Tokens(keys[1..]);
      assert Escape(keys[0]) + "/" + Pointer(keys[1..]) == Escape(keys[0]) + ("/" + Pointer(keys[1..]));
    }
  }

  lemma {:induction false} EscapeHasNoSlash(key: string)
    ensures '/' !in Escape(key)
  {
    if key != "" {
      EscapeHasNoSlash(key[1..]);
    }
  }

  lemma {:induction false} NoSlashNoSplit(text: string)
    requires '/' !in text
    ensures SplitSlash(text) == [text]
  {
    if text != "" {
      NoSlashNoSplit(text[1..]);
      assert [text[0]] + text[1..] == text;
    }
  }

  lemma {:induction false} SplitsAtSlash(text: string, rest: string)
    requires '/' !in text
    ensures SplitSlash(text + ("/" + rest)) == [text] + SplitSlash(rest)
  {
    if text == "" {
      assert ("/" + rest)[1..] == rest;
      assert text + ("/" + rest) == "/" + rest;
    } else {
      var whole := text + ("/" + rest);
      assert whole[1..] == text[1..] + ("/" + rest);
      SplitsAtSlash(text[1..], rest);
      assert [text[0]] + text[1..] == text;
    }
  }

  lemma {:induction false} DescendsTo(value: Json, keys: seq<string>)
    ensures Descend(value, Tokens(keys)) ==
            match At(value, keys) case Some(v) => Found(v) case None => Missing(Unresolved)
  {
    if keys != [] {
      UnescapeUndoesEscape(keys[0]);
      assert Tokens(keys)[1..] == Tokens(keys[1..]);
      if value.Object? && keys[0] in value.fields {
        DescendsTo(value.fields[keys[0]], keys[1..]);
      }
    }
  }

  function TildesEscaped(key: string): string {
    if key == "" then "" else (if key[0] == '~' then "~0" else [key[0]]) + TildesEscaped(key[1..])
  }

  /** The order matters: `~1` first, then `~0`. */
  lemma UnescapeUndoesEscape(key: string)
    ensures Unescape(Escape(key)) == key
  {
    SlashesComeBack(key);
    TildesComeBack(key);
  }

  lemma {:induction false} SlashesComeBack(key: string)
    ensures Replace(Escape(key), '1', '/') == TildesEscaped(key)
  {
    if key != "" {
      SlashesComeBack(key[1..]);
      var rest := Escape(key[1..]);
      if key[0] == '~' {
        PassesOver("~0", rest, '1', '/');
      } else if key[0] == '/' {
        assert Escape(key)[2..] == rest;
      } else {
        PassesOver([key[0]], rest, '1', '/');
      }
    }
  }

  lemma {:induction false} TildesComeBack(key: string)
    ensures Replace(TildesEscaped(key), '0', '~') == key
  {
    if key != "" {
      TildesComeBack(key[1..]);
      var rest := TildesEscaped(key[1..]);
      if key[0] == '~' {
        assert TildesEscaped(key)[2..] == rest;
      } else {
        PassesOver([key[0]], rest, '0', '~');
      }
    }
  }

  /** A prefix that neither contains nor starts the pattern stays as it is. */
  lemma PassesOver(prefix: string, rest: string, digit: char, with: char)
    requires (|prefix| == 1 && prefix[0] != '~')
             || (|prefix| == 2 && prefix[0] == '~' && prefix[1] != digit && prefix[1] != '~')
    ensures Replace(prefix + rest, digit, with) == prefix + Replace(rest, digit, with)
  {
    var text := prefix + rest;
    if |prefix| == 1 {
      assert text[1..] == rest;
    } else {
      assert text[1..] == [prefix[1]] + rest;
      assert text[1..][1..] == rest;
    }
  }

  // ---------------------------------------------------------------- what any reference leads to

  /** `~1` stands for `/` and `~0` for `~`, read from the left; nothing else changes. */
  function Decoded(token: string): string {
    if token == "" then ""
    else if |token| >= 2 && token[0] == '~' && token[1] == '1' then "/" + Decoded(token[2..])
    else if |token| >= 2 && token[0] == '~' && token[1] == '0' then "~" + Decoded(token[2..])
    else [token[0]] + Decoded(token[1..])
  }

  function Slashes(token: string): string {
    Replace(token, '1', '/')
  }

  /** Two replacements in this order amount to one pass, for every token. */
  lemma {:induction false} UnescapeIsOnePass(token: string)
    ensures Unescape(token) == Decoded(token)
  {
    if |token| >= 2 && token[0] == '~' && token[1] == '1' {
      UnescapeIsOnePass(token[2..]);
      PassesOver("/", Slashes(token[2..]), '0', '~');
    } else if |token| >= 2 && token[0] == '~' && token[1] == '0' {
      UnescapeIsOnePass(token[2..]);
      var rest := Slashes(token[2..]);
      PassesOver("0", token[2..], '1', '/');
      assert token[1..] == "0" + token[2..];
      assert Slashes(token) == "~" + ("0" + rest);
      assert ("~" + ("0" + rest))[2..] == rest;
    } else if token != "" {
      UnescapeIsOnePass(token[1..]);
      var rest := Slashes(token[1..]);
      assert Slashes(token) == [token[0]] + rest;
      if token[0] == '~' {
        assert rest != "" ==> rest[0] != '0';
        assert ("~" + rest)[1..] == rest;
      } else {
        PassesOver([token[0]], rest, '0', '~');
      }
    }
  }

  function Rejoined(parts: seq<string>): string
    requires parts != []
  {
    if |parts| == 1 then parts[0] else parts[0] + "/" + Rejoined(parts[1..])
  }

  /** Splitting cuts at every slash and loses nothing else. */
  lemma {:induction false} SplitsAtEverySlash(text: string)
    ensures Rejoined(SplitSlash(text)) == text
    ensures forall i :: 0 <= i < |SplitSlash(text)| ==> '/' !in SplitSlash(text)[i]
  {
    if text != "" {
      SplitsAtEverySlash(text[1..]);
      var rest := SplitSlash(text[1..]);
      assert text == [text[0]] + text[1..];
      if text[0] == '/' {
        assert ([""] + rest)[1..] == rest;
      } else {
        assert SplitSlash(text)[1..] == rest[1..];
      }
    }
  }

  function Keys(parts: seq<string>): seq<string> {
    seq(|parts|, i requires 0 <= i < |parts| => Decoded(parts[i]))
  }

  /** Every reference, however it is written: one that does not start with `#/` is not local, any other
      leads to what stands under the decoded keys, if there is anything. */
  lemma ResolveMeans(root: Json, reference: string)
    ensures Resolve(root, reference) == Missing(NonLocal)
            <==> |reference| < 2 || reference[0] != '#' || reference[1] != '/'
    ensures Resolve(root, reference) != Missing(NonLocal) ==>
              Resolve(root, reference) ==
              match At(root, Keys(SplitSlash(reference[2..])))
              case Some(value) => Found(value)
              case None => Missing(Unresolved)
  {
    if "#/" <= reference {
      assert reference[0] == "#/"[0] && reference[1] == "#/"[1];
      DescendsByKeys(root, SplitSlash(reference[2..]));
    }
  }

  lemma {:induction false} DescendsByKeys(value: Json, parts: seq<string>)
    ensures Descend(value, parts) ==
            match At(value, Keys(parts)) case Some(v) => Found(v) case None => Missing(Unresolved)
  {
    if parts != [] {
      UnescapeIsOnePass(parts[0]);
      assert Keys(parts)[1..] == Keys(parts[1..]);
      if value.Object? && Keys(parts)[0] in value.fields {
        DescendsByKeys(value.fields[Keys(parts)[0]], parts[1..]);
      }
    }
  }
}
