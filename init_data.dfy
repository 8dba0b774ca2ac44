/**
 * `validateInitData` (src/lib/utils.ts): Telegram's check of Mini App initData.
 * The pure function `VerifyParams` / `Verify` is the specification; the method
 * `ValidateInitData` follows the source step by step on a mutable `SearchParams`.
 */
module InitData {
  import opened Wrappers
  import opened JsStrings
  import opened JsValues
  import opened Platform
  import opened Crypto
  import opened UrlParams

  /** The three exceptions the verifier throws, with their messages. */
  datatype AuthError = HashMissing | InvalidHash | MalformedUser(reason: string) {
    function Message(): string
    {
      match this
      case HashMissing => "Hash is missing from initData"
      case InvalidHash => "Invalid hash: initData is not from Telegram"
      case MalformedUser(reason) => reason
    }
  }

  /** `{...userData, user}`: every received name except `user` with its last value (so `hash` too), and the parsed `user`. */
  datatype Validated = Validated(fields: map<string, string>, user: Json)

  function CheckLine(pair: Pair): string
  {
    pair.0 + "=" + pair.1
  }

  /** `entries.map(([key, value]) => `${key}=${value}`).join('\n')` */
  function DataCheckString(entries: seq<Pair>): string
  {
    Join(seq(|entries|, i requires 0 <= i < |entries| => CheckLine(entries[i])), "\n")
  }

  /** The canonical check string of a parameter list: without `hash`, stably sorted by name. */
  function CanonicalCheckString(params: seq<Pair>): string
  {
    DataCheckString(SortByName(RemoveName(params, "hash")))
  }

  /** `JSON.parse(userData.user)`: an absent `user` reaches the parser as the text "undefined", which it rejects. */
  function ParseUser(p: Primitives, userData: map<string, string>): Result<Json, AuthError>
  {
    match p.parseJson(if "user" in userData then userData["user"] else "undefined")
    case Failure(reason) => Failure(MalformedUser(reason))
    case Success(user) => Success(user)
  }

  /** The verdict on an already parsed parameter list. */
  function VerifyParams(p: Primitives, botToken: string, params: seq<Pair>): Result<Validated, AuthError>
  {
    var hash := FirstValue(params, "hash");
    var userData := FromEntries(params);
    if hash.None? || hash.value == "" then Failure(HashMissing)
    else if SignatureHex(p, botToken, CanonicalCheckString(params)) != hash.value then Failure(InvalidHash)
    else
      var user := ParseUser(p, userData);
      if user.Failure? then Failure(user.error) else Success(Validated(userData - {"user"}, user.value))
  }

  /** `validateInitData(botToken, initData)` as a function; Failure stands for the thrown Error. */
  function Verify(p: Primitives, botToken: string, initData: string): Result<Validated, AuthError>
  {
    VerifyParams(p, botToken, ParseQuery(initData, p.formDecode))
  }

  /** The verifier as the source runs it: parse, read `hash`, delete it, sort in place, sign, compare, parse `user`. */
  method ValidateInitData(p: Primitives, botToken: string, initData: string) returns (r: Result<Validated, AuthError>)
    ensures r == Verify(p, botToken, initData)
  {
    var urlParams := new SearchParams(initData, p.formDecode);
    var hash := urlParams.Get("hash");
    var userData := FromEntries(urlParams.list);
    ghost var params := urlParams.list;
    if hash.None? || hash.value == "" {
      return Failure(HashMissing);
    }
    urlParams.Delete("hash");
    urlParams.Sort();
    var dataCheckString := DataCheckString(urlParams.list);
    assert dataCheckString == CanonicalCheckString(params);
    var secretKey := SecretKey(p, botToken);
    var calculatedHash := Hex(p.hmacSha256(secretKey, p.utf8(dataCheckString)));
    if calculatedHash != hash.value {
      return Failure(InvalidHash);
    }
    var user := ParseUser(p, userData);
    if user.Failure? {
      return Failure(user.error);
    }
    r := Success(Validated(userData - {"user"}, user.value));
  }

  /** An authentic list without a `user` pair still fails: `JSON.parse(undefined)` throws. */
  lemma MissingUserRejected(p: Primitives, botToken: string, params: seq<Pair>)
    requires FixedResults(p)
    requires forall i :: 0 <= i < |params| ==> params[i].0 != "user"
    ensures VerifyParams(p, botToken, params).Failure?
  {
    assert "user" !in FromEntries(params);
  }

  /**
   * The three outcomes, in the order the source checks them: a missing or empty `hash`
   * is reported before any HMAC is computed, a wrong signature before `user` is parsed,
   * and nothing else (in particular no age limit on `auth_date`) is checked.
   */
  lemma VerifyOutcomes(p: Primitives, botToken: string, params: seq<Pair>)
    ensures var hash := FirstValue(params, "hash");
      && (VerifyParams(p, botToken, params) == Failure(HashMissing) <==> hash.None? || hash.value == "")
      && (VerifyParams(p, botToken, params) == Failure(InvalidHash) <==>
            hash.Some? && hash.value != "" && SignatureHex(p, botToken, CanonicalCheckString(params)) != hash.value)
      && (VerifyParams(p, botToken, params).Success? <==>
            hash.Some? && hash.value != "" && SignatureHex(p, botToken, CanonicalCheckString(params)) == hash.value
            && ParseUser(p, FromEntries(params)).Success?)
  {
  }

  /** `digest('hex')` is lowercase, so a hash sent with an upper-case or other non-hex character never matches. */
  lemma NonLowerHexHashRejected(p: Primitives, botToken: string, params: seq<Pair>, i: nat)
    requires FirstValue(params, "hash").Some?
    requires i < |FirstValue(params, "hash").value|
    requires !IsLowerHexDigit(FirstValue(params, "hash").value[i])
    ensures VerifyParams(p, botToken, params) == Failure(InvalidHash)
  {
  }

  /** The verdict depends on the parameter list only through the first `hash`, the canonical check string and the last value per name. */
  lemma VerdictDependsOn(p: Primitives, botToken: string, a: seq<Pair>, b: seq<Pair>)
    requires FirstValue(a, "hash") == FirstValue(b, "hash")
    requires CanonicalCheckString(a) == CanonicalCheckString(b)
    requires FromEntries(a) == FromEntries(b)
    ensures VerifyParams(p, botToken, a) == VerifyParams(p, botToken, b)
  {
  }

  /**
   * The signature binds the check string: with a collision-free digest, a parameter list
   * carrying an accepted hash but a different canonical check string is rejected.
   */
  lemma TamperedCheckStringRejected(p: Primitives, botToken: string, accepted: seq<Pair>, tampered: seq<Pair>)
    requires CollisionFree(p)
    requires VerifyParams(p, botToken, accepted).Success?
    requires FirstValue(tampered, "hash") == FirstValue(accepted, "hash")
    requires CanonicalCheckString(tampered) != CanonicalCheckString(accepted)
    ensures VerifyParams(p, botToken, tampered) == Failure(InvalidHash)
  {
    var a, b := CanonicalCheckString(accepted), CanonicalCheckString(tampered);
    var hash := FirstValue(accepted, "hash").value;
    assert SignatureHex(p, botToken, a) == hash;
    if SignatureHex(p, botToken, b) == hash {
      SignatureBindsMessage(p, botToken, a, b);
    }
  }

  lemma SignatureBindsMessage(p: Primitives, botToken: string, a: string, b: string)
    requires CollisionFree(p)
    requires SignatureHex(p, botToken, a) == SignatureHex(p, botToken, b)
    ensures a == b
  {
    var key := SecretKey(p, botToken);
    HexInjective(p.hmacSha256(key, p.utf8(a)), p.hmacSha256(key, p.utf8(b)));
  }

  /**
   * The check string does not escape line breaks inside values, so distinct parameter
   * lists can share one: the signature covers the string, not the list.
   */
  lemma CheckStringAmbiguous()
    ensures DataCheckString([("a", "1\nb=2")]) == DataCheckString([("a", "1"), ("b", "2")])
  {
    var one, two := [("a", "1\nb=2")], [("a", "1"), ("b", "2")];
    var lines1 := seq(|one|, i requires 0 <= i < |one| => CheckLine(one[i]));
    var lines2 := seq(|two|, i requires 0 <= i < |two| => CheckLine(two[i]));
    assert CheckLine(two[0]) == "a=1";
    assert CheckLine(two[1]) == "b=2";
    assert CheckLine(one[0]) == "a=1\nb=2";
    assert lines2 == ["a=1", "b=2"];
    assert lines1 == ["a=1\nb=2"];
    assert Join(lines2, "\n") == "a=1" + "\n" + Join(["b=2"], "\n");
  }

  /** `Object.fromEntries` minus one name: the remaining names, each with its last value. */
  lemma FromEntriesWithout(params: seq<Pair>, dropped: string)
    ensures var fields := FromEntries(params) - {dropped};
      && (forall name :: name in fields <==> name != dropped && exists i :: 0 <= i < |params| && params[i].0 == name)
      && (forall i :: 0 <= i < |params| && params[i].0 != dropped && (forall j :: i < j < |params| ==> params[j].0 != params[i].0)
            ==> fields[params[i].0] == params[i].1)
  {
    forall i | 0 <= i < |params| && params[i].0 != dropped && (forall j :: i < j < |params| ==> params[j].0 != params[i].0)
      ensures FromEntries(params)[params[i].0] == params[i].1
    {
      FromEntriesLastWins(params, i);
    }
  }

  /**
   * The validated object: every received name except `user`, `hash` included, each with
   * the last value received for it (whereas the signature was compared with the first `hash`).
   */
  lemma ValidatedFields(p: Primitives, botToken: string, params: seq<Pair>)
    requires VerifyParams(p, botToken, params).Success?
    ensures var v := VerifyParams(p, botToken, params).value;
      && "hash" in v.fields && "user" !in v.fields
      && (forall name :: name in v.fields <==> name != "user" && exists i :: 0 <= i < |params| && params[i].0 == name)
      && (forall i :: 0 <= i < |params| && params[i].0 != "user" && (forall j :: i < j < |params| ==> params[j].0 != params[i].0)
            ==> v.fields[params[i].0] == params[i].1)
  {
    var fields := VerifyParams(p, botToken, params).value.fields;
    assert fields == FromEntries(params) - {"user"};
    FromEntriesWithout(params, "user");
    assert ("hash", FirstValue(params, "hash").value) in params;
  }

  /** Removing a name keeps the multiset relation and the one-value-per-name property. */
  lemma RemoveNamePermutation(a: seq<Pair>, b: seq<Pair>, name: string)
    requires multiset(a) == multiset(b)
    requires OneValuePerName(multiset(a))
    ensures multiset(RemoveName(a, name)) == multiset(RemoveName(b, name))
    ensures OneValuePerName(multiset(RemoveName(a, name)))
  {
    var ra, rb := RemoveName(a, name), RemoveName(b, name);
    forall q ensures multiset(ra)[q] == multiset(rb)[q] {
      RemoveNameCount(a, name, q);
      RemoveNameCount(b, name, q);
    }
    forall x: Pair, y: Pair | x in multiset(ra) && y in multiset(ra) && x.0 == y.0 ensures x == y {
      RemoveNameCount(a, name, x);
      RemoveNameCount(a, name, y);
      assert x in multiset(a) && y in multiset(a);
    }
  }

  /** Reordering the received parameters changes nothing, as long as no name comes with two different values. */
  lemma VerifyIgnoresOrder(p: Primitives, botToken: string, a: seq<Pair>, b: seq<Pair>)
    requires multiset(a) == multiset(b)
    requires OneValuePerName(multiset(a))
    ensures VerifyParams(p, botToken, a) == VerifyParams(p, botToken, b)
  {
    FirstValuePermutation(a, b, "hash");
    FromEntriesPermutation(a, b);
    RemoveNamePermutation(a, b, "hash");
    SortByNamePermutation(RemoveName(a, "hash"), RemoveName(b, "hash"));
    VerdictDependsOn(p, botToken, a, b);
  }
}
