/**
 * `useTranslations(lang)` and its inner `t(key)` (src/lib/i18n.ts): a dotted key is
 * followed segment by segment through the nested locale table of the chosen language,
 * and the key itself is the fallback. The locale tables are arbitrary JSON values.
 */
module I18n {
  import opened Wrappers
  import opened JsStrings
  import opened JsValues

  /** The two bundled languages, `en` and `am`. */
  datatype Lang = En | Am

  /** The `languages` record: one parsed locale file per language. */
  datatype Locales = Locales(en: Json, am: Json)
  {
    function Table(lang: Lang): Json
    {
      match lang
      case En => en
      case Am => am
    }
  }

  /** `typeof v === 'object'`: `null`, arrays and objects. */
  predicate IsObjectType(v: Json)
  {
    v.JNull? || v.JArr? || v.JObj?
  }

  /**
   * One step of the walk, `result && typeof result === 'object' && k in result` then
   * `result[k]`. Only own properties are followed: an inherited one (a prototype method,
   * an array's `length`) never leads to a string, so it ends in the key just as a miss does.
   */
  function Step(v: Json, k: string): (r: Option<Json>)
    ensures r.Some? ==> v.JObj? || v.JArr?
    ensures v.JObj? ==> (r.Some? <==> k in v.fields)
  {
    if Truthy(v) && IsObjectType(v) then Child(v, k) else None
  }

  /** The value at the end of a path of segments, None as soon as a segment is not found. */
  function Walk(v: Json, path: seq<string>): Option<Json>
    decreases |path|
  {
    if path == [] then Some(v)
    else match Step(v, path[0])
      case None => None
      case Some(c) => Walk(c, path[1..])
  }

  /** The string a key names in a table, if it names one. */
  function Lookup(table: Json, key: string): Option<string>
  {
    match Walk(table, Split(key, '.'))
    case Some(JStr(s)) => Some(s)
    case _ => None
  }

  /** `t(key)` for the language `lang`: the string found, or the key itself. */
  function Translation(locales: Locales, lang: Lang, key: string): string
  {
    Lookup(locales.Table(lang), key).GetOr(key)
  }

  /** The loop of `t`: `result` is reassigned segment by segment and a miss returns the key at once. */
  method Translate(locales: Locales, lang: Lang, key: string) returns (r: string)
    ensures r == Translation(locales, lang, key)
    ensures r == key || Walk(locales.Table(lang), Split(key, '.')) == Some(JStr(r))
  {
    var keys := Split(key, '.');
    var result := locales.Table(lang);
    ghost var table := result;
    var i := 0;
    while i < |keys|
      invariant 0 <= i <= |keys|
      invariant Walk(table, keys) == Walk(result, keys[i..])
    {
      var k := keys[i];
      assert keys[i..][1..] == keys[i + 1..];
      if Truthy(result) && IsObjectType(result) && Child(result, k).Some? {
        result := Child(result, k).value;
      } else {
        return key;
      }
      i := i + 1;
    }
    if result.JStr? {
      return result.s;
    }
    return key;
  }

  /** Walking a path in two pieces: the second piece starts where the first one ends. */
  lemma {:induction false} WalkAppend(v: Json, a: seq<string>, b: seq<string>)
    ensures Walk(v, a + b) == match Walk(v, a) case None => None case Some(w) => Walk(w, b)
    decreases |a|
  {
    if a == [] {
      assert a + b == b;
    } else {
      assert (a + b)[0] == a[0] && (a + b)[1..] == a[1..] + b;
      match Step(v, a[0])
      case None =>
      case Some(c) => WalkAppend(c, a[1..], b);
    }
  }

  /**
   * A key `head.rest` whose first segment names a member of the table is looked up in
   * that member with the remaining segments.
   */
  lemma NestedLookup(table: Json, head: string, rest: string)
    requires '.' !in head
    requires Step(table, head).Some?
    ensures Lookup(table, head + "." + rest) == Lookup(Step(table, head).value, rest)
  {
    var tail := "." + rest;
    SplitPrefix(head, tail, '.');
    assert tail[0] == '.' && tail[1..] == rest;
    assert Split(tail, '.') == [""] + Split(rest, '.');
    assert head + "" == head;
    assert head + "." + rest == head + tail;
    var path := Split(head + tail, '.');
    assert path == [head] + Split(rest, '.');
    assert path[0] == head && path[1..] == Split(rest, '.');
    assert Walk(table, path) == Walk(Step(table, head).value, Split(rest, '.'));
  }

  /** A key without a dot is one segment: the table's own entry, when it is a string. */
  lemma SingleSegmentLookup(table: Json, key: string)
    requires '.' !in key
    ensures Lookup(table, key) == match Step(table, key) case Some(JStr(s)) => Some(s) case _ => None
  {
    SplitWithoutSeparator(key, '.');
    var path := Split(key, '.');
    assert path[0] == key && path[1..] == [];
    match Step(table, key)
    case None =>
    case Some(c) => assert Walk(table, path) == Walk(c, []) == Some(c);
  }

  /**
   * Joining dot-free segments gives a key that reaches the string at their path, and the
   * key itself when no string is there.
   */
  lemma PathTranslation(locales: Locales, lang: Lang, path: seq<string>)
    requires |path| >= 1
    requires forall i :: 0 <= i < |path| ==> '.' !in path[i]
    ensures var key := Join(path, ".");
      Translation(locales, lang, key) == match Walk(locales.Table(lang), path) case Some(JStr(s)) => s case _ => key
  {
    SplitJoin(path, '.');
  }

  /**
   * If the walk stops at segment `i` (that segment is missing, or the value reached so far
   * is not an object), the key is returned, whatever the later segments are.
   */
  lemma MissingSegmentYieldsKey(locales: Locales, lang: Lang, key: string, i: nat)
    requires i < |Split(key, '.')|
    requires var keys := Split(key, '.');
      Walk(locales.Table(lang), keys[..i]).Some? && Step(Walk(locales.Table(lang), keys[..i]).value, keys[i]).None?
    ensures Translation(locales, lang, key) == key
  {
    var keys := Split(key, '.');
    WalkAppend(locales.Table(lang), keys[..i], keys[i..]);
    assert keys[..i] + keys[i..] == keys;
  }

  /** A path that ends on anything but a string, a nested table for instance, gives the key back. */
  lemma NonStringYieldsKey(locales: Locales, lang: Lang, key: string)
    requires Walk(locales.Table(lang), Split(key, '.')).Some?
    requires !Walk(locales.Table(lang), Split(key, '.')).value.JStr?
    ensures Translation(locales, lang, key) == key
  {
  }

  /** Every answer is the key or a string stored in the table of that language. */
  lemma TranslationIsKeyOrEntry(locales: Locales, lang: Lang, key: string)
    ensures var r := Translation(locales, lang, key);
      r == key || exists path :: Walk(locales.Table(lang), path) == Some(JStr(r))
  {
    var r := Translation(locales, lang, key);
    if r != key {
      assert Lookup(locales.Table(lang), key) == Some(r);
      var path := Split(key, '.');
      assert Walk(locales.Table(lang), path) == Some(JStr(r));
    }
  }
}
