/**
 * The part of `URLSearchParams` (URL Standard, sections 5 and 6.2) that the initData
 * check uses: parsing an application/x-www-form-urlencoded string into an ordered list
 * of name-value pairs, `get`, `Object.fromEntries(entries())`, `delete`, the stable
 * `sort` by name, and `toString`. Percent-decoding and -encoding of one name or value
 * are passed in as functions.
 */
module UrlParams {
  import opened Wrappers
  import opened JsStrings

  type Pair = (string, string)

  /** One non-empty `name=value` sequence, split at its first `=`; without `=` the value is empty. */
  function NameValue(sequence: string, decode: string -> string): Pair
  {
    var pieces := Split(sequence, '=');
    (decode(pieces[0]), decode(Join(pieces[1..], "=")))
  }

  /** A sequence without `=` is a name with the empty value. */
  lemma NameWithoutValue(sequence: string, decode: string -> string)
    requires '=' !in sequence
    requires decode("") == ""
    ensures NameValue(sequence, decode) == (decode(sequence), "")
  {
    SplitWithoutSeparator(sequence, '=');
    assert Split(sequence, '=')[1..] == [];
  }

  function ParsePieces(pieces: seq<string>, decode: string -> string): seq<Pair>
  {
    if pieces == [] then []
    else (if pieces[0] == "" then [] else [NameValue(pieces[0], decode)]) + ParsePieces(pieces[1..], decode)
  }

  /** `new URLSearchParams(init)` for a string: a leading `?` is dropped, the rest is split on `&` and empty sequences are skipped. */
  function ParseQuery(init: string, decode: string -> string): seq<Pair>
  {
    var input := if init != [] && init[0] == '?' then init[1..] else init;
    ParsePieces(Split(input, '&'), decode)
  }

  function SerializedPair(pair: Pair, encode: string -> string): string
  {
    encode(pair.0) + "=" + encode(pair.1)
  }

  /** `params.toString()`: every pair as `name=value`, joined with `&`. */
  function Serialize(list: seq<Pair>, encode: string -> string): string
  {
    Join(seq(|list|, i requires 0 <= i < |list| => SerializedPair(list[i], encode)), "&")
  }

  lemma {:induction false} ParsePiecesOfSerialized(list: seq<Pair>, encode: string -> string, decode: string -> string)
    requires forall s :: decode(encode(s)) == s && '&' !in encode(s) && '=' !in encode(s)
    ensures ParsePieces(seq(|list|, i requires 0 <= i < |list| => SerializedPair(list[i], encode)), decode) == list
  {
    var pieces := seq(|list|, i requires 0 <= i < |list| => SerializedPair(list[i], encode));
    if list != [] {
      var k, v := encode(list[0].0), encode(list[0].1);
      assert pieces[0] == k + "=" + v;
      assert Join([k, v], "=") == k + "=" + v;
      SplitJoin([k, v], '=');
      assert Split(pieces[0], '=') == [k, v];
      assert Join([v], "=") == v;
      assert NameValue(pieces[0], decode) == list[0];
      var rest := seq(|list| - 1, i requires 0 <= i < |list| - 1 => SerializedPair(list[1..][i], encode));
      assert pieces[1..] == rest;
      ParsePiecesOfSerialized(list[1..], encode, decode);
      assert [list[0]] + list[1..] == list;
    }
  }

  /** Parsing what `toString` produced gives the same list back, when the codec round-trips and escapes `&`, `=` and `?`. */
  lemma ParseSerialize(list: seq<Pair>, encode: string -> string, decode: string -> string)
    requires forall s :: decode(encode(s)) == s && '&' !in encode(s) && '=' !in encode(s) && '?' !in encode(s)
    ensures ParseQuery(Serialize(list, encode), decode) == list
  {
    var pieces := seq(|list|, i requires 0 <= i < |list| => SerializedPair(list[i], encode));
    var text := Serialize(list, encode);
    ParsePiecesOfSerialized(list, encode, decode);
    if list == [] {
      assert text == "";
      assert Split("", '&') == [""];
      assert ParsePieces([""], decode) == [];
    } else {
      forall i | 0 <= i < |pieces| ensures '&' !in pieces[i] {
        assert pieces[i] == encode(list[i].0) + "=" + encode(list[i].1);
      }
      SplitJoin(pieces, '&');
      SerializedHead(list, encode);
    }
  }

  /** A non-empty serialisation starts with the first name's encoding, or with `=` when that is empty. */
  lemma SerializedHead(list: seq<Pair>, encode: string -> string)
    requires list != []
    requires '?' !in encode(list[0].0)
    ensures Serialize(list, encode) != [] && Serialize(list, encode)[0] != '?'
  {
    var pieces := seq(|list|, i requires 0 <= i < |list| => SerializedPair(list[i], encode));
    var text := Serialize(list, encode);
    var k := encode(list[0].0);
    assert pieces[0] == k + "=" + encode(list[0].1);
    assert text[..|pieces[0]|] == pieces[0] by {
      if |pieces| > 1 {
        assert text == pieces[0] + ("&" + Join(pieces[1..], "&"));
      }
    }
    if k != [] { assert pieces[0][0] == k[0]; } else { assert pieces[0][0] == '='; }
  }

  /** `params.get(name)` (and `formData.get(name)`): the value of the first pair with that name, None standing for `null`. */
  function FirstValue<V>(list: seq<(string, V)>, name: string): (r: Option<V>)
    ensures r.Some? ==> exists i :: 0 <= i < |list| && list[i] == (name, r.value) && forall j :: 0 <= j < i ==> list[j].0 != name
    ensures r.None? ==> forall i :: 0 <= i < |list| ==> list[i].0 != name
  {
    if list == [] then None
    else if list[0].0 == name then Some(list[0].1)
    else FirstValue(list[1..], name)
  }

  /** `Object.fromEntries(entries)`: every name, with the value of its LAST pair. */
  function FromEntries<V>(list: seq<(string, V)>): (m: map<string, V>)
    ensures forall name :: name in m ==> (name, m[name]) in list
    ensures forall i :: 0 <= i < |list| ==> list[i].0 in m
  {
    if list == [] then map[]
    else
      var last := list[|list| - 1];
      var m := FromEntries(list[..|list| - 1])[last.0 := last.1];
      assert forall i :: 0 <= i < |list| - 1 ==> list[i] == list[..|list| - 1][i];
      m
  }

  /** The last pair with a name determines its entry. */
  lemma {:induction false} FromEntriesLastWins<V>(list: seq<(string, V)>, i: nat)
    requires i < |list|
    requires forall j :: i < j < |list| ==> list[j].0 != list[i].0
    ensures FromEntries(list)[list[i].0] == list[i].1
  {
    if i < |list| - 1 {
      FromEntriesLastWins(list[..|list| - 1], i);
    }
  }

  /** `params.delete(name)`: every pair with that name is removed, the others keep their order. */
  function RemoveName(list: seq<Pair>, name: string): (r: seq<Pair>)
    ensures forall i :: 0 <= i < |r| ==> r[i].0 != name
  {
    if list == [] then []
    else (if list[0].0 == name then [] else [list[0]]) + RemoveName(list[1..], name)
  }

  /** `delete` drops exactly the pairs with that name: every other pair keeps its multiplicity. */
  lemma {:induction false} RemoveNameCount(list: seq<Pair>, name: string, q: Pair)
    ensures multiset(RemoveName(list, name))[q] == if q.0 == name then 0 else multiset(list)[q]
  {
    if list != [] {
      RemoveNameCount(list[1..], name, q);
      assert list == [list[0]] + list[1..];
    }
  }

  /** Lexicographic order of code-unit sequences: `a` comes strictly before `b`. */
  predicate UnitsBelow(a: seq<int>, b: seq<int>)
  {
    if a == [] then b != []
    else if b == [] then false
    else if a[0] != b[0] then a[0] < b[0]
    else UnitsBelow(a[1..], b[1..])
  }

  lemma {:induction false} UnitsBelowIrreflexive(a: seq<int>)
    ensures !UnitsBelow(a, a)
  {
    if a != [] { UnitsBelowIrreflexive(a[1..]); }
  }

  lemma {:induction false} UnitsBelowTransitive(a: seq<int>, b: seq<int>, c: seq<int>)
    ensures UnitsBelow(a, b) && UnitsBelow(b, c) ==> UnitsBelow(a, c)
  {
    if a != [] && b != [] && c != [] && a[0] == b[0] == c[0] {
      UnitsBelowTransitive(a[1..], b[1..], c[1..]);
    }
  }

  lemma {:induction false} UnitsBelowTotal(a: seq<int>, b: seq<int>)
    ensures a == b || UnitsBelow(a, b) || UnitsBelow(b, a)
  {
    if a != [] && b != [] && a[0] == b[0] {
      UnitsBelowTotal(a[1..], b[1..]);
      assert a == [a[0]] + a[1..] && b == [b[0]] + b[1..];
    }
  }

  /** The order `sort` uses: `a` sorts strictly before `b` when its UTF-16 code units come first. */
  predicate Below(a: string, b: string)
  {
    UnitsBelow(Utf16(a), Utf16(b))
  }

  lemma BelowIrreflexive(a: string)
    ensures !Below(a, a)
  {
    UnitsBelowIrreflexive(Utf16(a));
  }

  lemma BelowTransitive(a: string, b: string, c: string)
    ensures Below(a, b) && Below(b, c) ==> Below(a, c)
  {
    UnitsBelowTransitive(Utf16(a), Utf16(b), Utf16(c));
  }

  lemma BelowTotal(a: string, b: string)
    ensures a == b || Below(a, b) || Below(b, a)
  {
    UnitsBelowTotal(Utf16(a), Utf16(b));
    if Utf16(a) == Utf16(b) {
      Utf16Injective(a, b);
    }
  }

  /**
   * Code-unit order is not code-point order: U+1F600 is stored as the surrogates
   * D83D DE00 and so sorts before U+FF01, although its code point is larger.
   */
  lemma AstralBeforeHighBmp()
    ensures Below("\U{1F600}", "\U{FF01}") && '\U{1F600}' > '\U{FF01}'
  {
    assert CodeUnits('\U{1F600}') == [0xD83D, 0xDE00];
    assert Utf16("\U{1F600}") == [0xD83D, 0xDE00];
    assert Utf16("\U{FF01}") == [0xFF01];
  }

  /** a < b <= c gives a < c. */
  lemma BelowThenAtMost(a: string, b: string, c: string)
    ensures Below(a, b) && !Below(c, b) ==> Below(a, c)
  {
    BelowTotal(b, c);
    BelowTransitive(a, b, c);
  }

  /** The names never decrease along the list. */
  predicate SortedByName(list: seq<Pair>)
  {
    forall i, j :: 0 <= i < j < |list| ==> !Below(list[j].0, list[i].0)
  }

  /** Inserts after every pair whose name is not above `p`'s, so equal names keep arrival order. */
  function Insert(sorted: seq<Pair>, p: Pair): (r: seq<Pair>)
    ensures multiset(r) == multiset(sorted) + multiset{p}
  {
    if sorted == [] then [p]
    else if Below(p.0, sorted[0].0) then [p] + sorted
    else
      assert sorted == [sorted[0]] + sorted[1..];
      [sorted[0]] + Insert(sorted[1..], p)
  }

  /** The specification of `params.sort()`: a stable sort by name. */
  function SortByName(list: seq<Pair>): (r: seq<Pair>)
    ensures multiset(r) == multiset(list)
  {
    if list == [] then []
    else
      assert list == list[..|list| - 1] + [list[|list| - 1]];
      Insert(SortByName(list[..|list| - 1]), list[|list| - 1])
  }

  /** A pair whose name is below the first name can go in front of a sorted list. */
  lemma PrependSorted(sorted: seq<Pair>, p: Pair)
    requires SortedByName(sorted) && sorted != [] && Below(p.0, sorted[0].0)
    ensures SortedByName([p] + sorted)
  {
    var r := [p] + sorted;
    forall i, j | 0 <= i < j < |r| ensures !Below(r[j].0, r[i].0) {
      if i == 0 {
        assert r[j] == sorted[j - 1];
        BelowTransitive(r[j].0, p.0, sorted[0].0);
        if j == 1 { BelowIrreflexive(sorted[0].0); }
      } else {
        assert r[i] == sorted[i - 1] && r[j] == sorted[j - 1];
      }
    }
  }

  /** The head of a sorted list, followed by a sorted rearrangement of its tail and `p`, is sorted when `p` is not below it. */
  lemma ConsSorted(sorted: seq<Pair>, p: Pair, rest: seq<Pair>)
    requires SortedByName(sorted) && sorted != [] && !Below(p.0, sorted[0].0)
    requires SortedByName(rest) && multiset(rest) == multiset(sorted[1..]) + multiset{p}
    ensures SortedByName([sorted[0]] + rest)
  {
    var r := [sorted[0]] + rest;
    forall i, j | 0 <= i < j < |r| ensures !Below(r[j].0, r[i].0) {
      if i == 0 {
        assert r[j] == rest[j - 1];
        assert r[j] in multiset(rest);
        if r[j] != p {
          assert r[j] in multiset(sorted[1..]);
          var k :| 0 <= k < |sorted[1..]| && sorted[1..][k] == r[j];
          assert sorted[k + 1] == r[j];
        }
      } else {
        assert r[i] == rest[i - 1] && r[j] == rest[j - 1];
      }
    }
  }

  lemma {:induction false} InsertSorted(sorted: seq<Pair>, p: Pair)
    requires SortedByName(sorted)
    ensures SortedByName(Insert(sorted, p))
  {
    if sorted == [] {
    } else if Below(p.0, sorted[0].0) {
      PrependSorted(sorted, p);
    } else {
      assert SortedByName(sorted[1..]) by {
        forall i, j | 0 <= i < j < |sorted| - 1 ensures !Below(sorted[1..][j].0, sorted[1..][i].0) {
          assert sorted[1..][j] == sorted[j + 1] && sorted[1..][i] == sorted[i + 1];
        }
      }
      InsertSorted(sorted[1..], p);
      ConsSorted(sorted, p, Insert(sorted[1..], p));
    }
  }

  /** After `sort()` the names are in code-unit order. */
  lemma {:induction false} SortByNameSorted(list: seq<Pair>)
    ensures SortedByName(SortByName(list))
  {
    if list != [] {
      SortByNameSorted(list[..|list| - 1]);
      InsertSorted(SortByName(list[..|list| - 1]), list[|list| - 1]);
    }
  }

  /** The pairs with one given name, in list order. */
  function Named(list: seq<Pair>, name: string): seq<Pair>
  {
    if list == [] then []
    else (if list[0].0 == name then [list[0]] else []) + Named(list[1..], name)
  }

  lemma {:induction false} NamedAppend(a: seq<Pair>, b: seq<Pair>, name: string)
    ensures Named(a + b, name) == Named(a, name) + Named(b, name)
  {
    if a == [] {
      assert a + b == b;
    } else {
      var head := if a[0].0 == name then [a[0]] else [];
      assert (a + b)[0] == a[0] && (a + b)[1..] == a[1..] + b;
      NamedAppend(a[1..], b, name);
      assert Named(a + b, name) == head + Named(a[1..] + b, name);
      assert Named(a, name) == head + Named(a[1..], name);
    }
  }

  lemma {:induction false} NamedNone(list: seq<Pair>, name: string)
    requires forall i :: 0 <= i < |list| ==> list[i].0 != name
    ensures Named(list, name) == []
  {
    if list != [] { NamedNone(list[1..], name); }
  }

  /** A sorted list whose first name is above `name` holds no pair with `name`. */
  lemma NamedAfterBelow(sorted: seq<Pair>, name: string)
    requires SortedByName(sorted) && sorted != [] && Below(name, sorted[0].0)
    ensures Named(sorted, name) == []
  {
    forall i | 0 <= i < |sorted| ensures sorted[i].0 != name {
      BelowThenAtMost(name, sorted[0].0, sorted[i].0);
      BelowIrreflexive(name);
    }
    NamedNone(sorted, name);
  }

  lemma {:induction false} InsertNamed(sorted: seq<Pair>, p: Pair, name: string)
    requires SortedByName(sorted)
    ensures Named(Insert(sorted, p), name) == Named(sorted, name) + (if p.0 == name then [p] else [])
  {
    var own := if p.0 == name then [p] else [];
    if sorted == [] {
      assert Named([p], name) == own + Named([], name);
    } else if Below(p.0, sorted[0].0) {
      assert Insert(sorted, p) == [p] + sorted;
      assert ([p] + sorted)[0] == p && ([p] + sorted)[1..] == sorted;
      assert Named([p] + sorted, name) == own + Named(sorted, name);
      if p.0 == name {
        NamedAfterBelow(sorted, p.0);
        assert own + [] == [] + own;
      } else {
        assert own == [];
      }
    } else {
      var rest := Insert(sorted[1..], p);
      assert SortedByName(sorted[1..]) by {
        forall i, j | 0 <= i < j < |sorted| - 1 ensures !Below(sorted[1..][j].0, sorted[1..][i].0) {
          assert sorted[1..][j] == sorted[j + 1] && sorted[1..][i] == sorted[i + 1];
        }
      }
      InsertNamed(sorted[1..], p, name);
      assert Insert(sorted, p) == [sorted[0]] + rest;
      assert ([sorted[0]] + rest)[1..] == rest;
      var head := if sorted[0].0 == name then [sorted[0]] else [];
      assert Named(Insert(sorted, p), name) == head + Named(rest, name);
      assert Named(sorted, name) == head + Named(sorted[1..], name);
      assert head + (Named(sorted[1..], name) + own) == (head + Named(sorted[1..], name)) + own;
    }
  }

  /** `sort()` is stable: for every name, its pairs keep their relative order. */
  lemma {:induction false} SortByNameStable(list: seq<Pair>, name: string)
    ensures Named(SortByName(list), name) == Named(list, name)
  {
    if list != [] {
      var init, last := list[..|list| - 1], list[|list| - 1];
      var tail := if last.0 == name then [last] else [];
      assert list == init + [last];
      assert SortByName(list) == Insert(SortByName(init), last);
      SortByNameStable(init, name);
      SortByNameSorted(init);
      InsertNamed(SortByName(init), last, name);
      assert Named(SortByName(list), name) == Named(init, name) + tail;
      NamedAppend(init, [last], name);
      assert Named([last], name) == tail + Named([], name);
    }
  }

  /** No two different pairs share a name (identical repeated pairs are allowed). */
  ghost predicate OneValuePerName(pairs: multiset<Pair>)
  {
    forall p, q :: p in pairs && q in pairs && p.0 == q.0 ==> p == q
  }

  lemma SortedHeadsAgree(x: seq<Pair>, y: seq<Pair>)
    requires SortedByName(x) && SortedByName(y)
    requires multiset(x) == multiset(y)
    requires OneValuePerName(multiset(x))
    requires x != []
    ensures y != [] && x[0] == y[0]
  {
    var x0 := x[0];
    assert x0 in multiset(y);
    var y0 := y[0];
    assert y0 in multiset(x);
    var j :| 0 <= j < |y| && y[j] == x0;
    var i :| 0 <= i < |x| && x[i] == y0;
    assert !Below(x0.0, y0.0) by {
      if j == 0 { BelowIrreflexive(x0.0); } else { assert !Below(y[j].0, y[0].0); }
    }
    assert !Below(y0.0, x0.0) by {
      if i == 0 { BelowIrreflexive(y0.0); } else { assert !Below(x[i].0, x[0].0); }
    }
    BelowTotal(x0.0, y0.0);
  }

  lemma TailsKeepPairs(x: seq<Pair>, y: seq<Pair>)
    requires multiset(x) == multiset(y)
    requires OneValuePerName(multiset(x))
    requires x != [] && y != [] && x[0] == y[0]
    ensures multiset(x[1..]) == multiset(y[1..])
    ensures OneValuePerName(multiset(x[1..]))
  {
    assert x == [x[0]] + x[1..] && y == [y[0]] + y[1..];
    assert multiset(x[1..]) == multiset(x) - multiset{x[0]};
    assert multiset(y[1..]) == multiset(y) - multiset{y[0]};
  }

  /** Two lists sorted by name with the same pairs, one value per name, are the same list. */
  lemma {:induction false} SortedUnique(x: seq<Pair>, y: seq<Pair>)
    requires SortedByName(x) && SortedByName(y)
    requires multiset(x) == multiset(y)
    requires OneValuePerName(multiset(x))
    ensures x == y
    decreases |x|
  {
    if x == [] {
      assert |multiset(y)| == 0;
    } else {
      SortedHeadsAgree(x, y);
      TailsKeepPairs(x, y);
      SortedUnique(x[1..], y[1..]);
      assert x == [x[0]] + x[1..] && y == [y[0]] + y[1..];
    }
  }

  /** `params.sort()` result depends only on the pairs present, not their order, when no name has two values. */
  lemma SortByNamePermutation(a: seq<Pair>, b: seq<Pair>)
    requires multiset(a) == multiset(b)
    requires OneValuePerName(multiset(a))
    ensures SortByName(a) == SortByName(b)
  {
    SortByNameSorted(a);
    SortByNameSorted(b);
    SortedUnique(SortByName(a), SortByName(b));
  }

  /** Equal pair multisets with one value per name give the same `get`. */
  lemma FirstValuePermutation(a: seq<Pair>, b: seq<Pair>, name: string)
    requires multiset(a) == multiset(b)
    requires OneValuePerName(multiset(a))
    ensures FirstValue(a, name) == FirstValue(b, name)
  {
    var fa, fb := FirstValue(a, name), FirstValue(b, name);
    if fa.Some? {
      assert (name, fa.value) in multiset(b);
      var i :| 0 <= i < |b| && b[i] == (name, fa.value);
      assert fb.Some?;
      assert (name, fb.value) in multiset(a);
    }
  }

  lemma FromEntriesIncluded(a: seq<Pair>, b: seq<Pair>, k: string)
    requires multiset(a) == multiset(b)
    requires OneValuePerName(multiset(a))
    requires k in FromEntries(a)
    ensures k in FromEntries(b) && FromEntries(b)[k] == FromEntries(a)[k]
  {
    var pa := (k, FromEntries(a)[k]);
    assert pa in multiset(b);
    var i :| 0 <= i < |b| && b[i] == pa;
    assert k in FromEntries(b);
    var pb := (k, FromEntries(b)[k]);
    assert pb in multiset(a);
  }

  /** Equal pair multisets with one value per name give the same `Object.fromEntries` map. */
  lemma FromEntriesPermutation(a: seq<Pair>, b: seq<Pair>)
    requires multiset(a) == multiset(b)
    requires OneValuePerName(multiset(a))
    ensures FromEntries(a) == FromEntries(b)
  {
    var ma, mb := FromEntries(a), FromEntries(b);
    forall k | k in ma ensures k in mb && mb[k] == ma[k] {
      FromEntriesIncluded(a, b, k);
    }
    forall k | k in mb ensures k in ma {
      FromEntriesIncluded(b, a, k);
    }
  }

  /** The search-parameter object the verifier builds and then changes in place. */
  class SearchParams {
    var list: seq<Pair>

    /** `new URLSearchParams(init)` */
    constructor (init: string, decode: string -> string)
      ensures list == ParseQuery(init, decode)
    {
      list := ParseQuery(init, decode);
    }

    /** `get(name)` */
    function Get(name: string): Option<string>
      reads this
    {
      FirstValue(list, name)
    }

    /** `delete(name)` */
    method Delete(name: string)
      modifies this
      ensures list == RemoveName(old(list), name)
      ensures forall i :: 0 <= i < |list| ==> list[i].0 != name
    {
      list := RemoveName(list, name);
    }

    /** `sort()`: sorted by name, the same pairs, and stable for equal names. */
    method Sort()
      modifies this
      ensures list == SortByName(old(list))
      ensures SortedByName(list)
      ensures multiset(list) == multiset(old(list))
      ensures forall name :: Named(list, name) == Named(old(list), name)
    {
      SortByNameSorted(list);
      forall name ensures Named(SortByName(list), name) == Named(list, name) {
        SortByNameStable(list, name);
      }
      list := SortByName(list);
    }
  }
}
