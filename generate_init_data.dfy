/**
 * generate-init-data.mjs: a development script that signs an initData string for the
 * first administrator, the inverse of the verifier.
 */
module GenerateInitData {
  import opened Wrappers
  import opened JsStrings
  import opened JsValues
  import opened Platform
  import opened Crypto
  import opened UrlParams
  import opened InitData
  import opened Admin

  const AbortMessage := "Please ensure ADMIN_TELEGRAM_IDS and TELEGRAM_BOT_TOKEN are set in your .env file."

  /** `"AA" + 'A'.repeat(28) + "AAAA" + 'A'.repeat(28)`: 62 letters A. */
  const QueryId: string := seq(62, _ => 'A')

  /**
   * The test profile. Its `id` is `parseInt` of the first allow-list entry; a NaN there
   * is written by `JSON.stringify` as `null`, which is the value the profile holds here.
   */
  function TestUser(adminIds: string): Json
  {
    var id := ParseInt(Split(adminIds, ',')[0]);
    JObj(map["first_name" := JStr("Test"), "last_name" := JStr("User"), "username" := JStr("testuser"),
             "language_code" := JStr("en"), "is_premium" := JBool(true),
             "id" := if id.Some? then JNum(id.value) else JNull])
  }

  /** The signed fields, in the order of the `data` object. */
  function SignedFields(p: Primitives, adminIds: string, nowMs: nat): seq<Pair>
  {
    [("auth_date", Decimal(nowMs / 1000)), ("query_id", QueryId), ("user", p.stringifyJson(TestUser(adminIds)))]
  }

  /** The script: abort when either variable is unset or empty; otherwise sign and serialise, `hash` last. */
  function Generate(p: Primitives, adminIds: Option<string>, botToken: Option<string>, nowMs: nat): (r: Result<string, string>)
    ensures r.Failure? <==> adminIds.None? || adminIds.value == "" || botToken.None? || botToken.value == ""
  {
    if adminIds.None? || adminIds.value == "" || botToken.None? || botToken.value == "" then Failure(AbortMessage)
    else
      var data := SignedFields(p, adminIds.value, nowMs);
      var hash := SignatureHex(p, botToken.value, DataCheckString(SortByName(data)));
      Success(Serialize(data + [("hash", hash)], p.formEncode))
  }

  /** What the generated string parses back to: the signed fields, then `hash`. */
  lemma GeneratedParams(p: Primitives, adminIds: string, botToken: string, nowMs: nat)
    requires FormCodecRoundTrips(p)
    requires adminIds != "" && botToken != ""
    ensures var data := SignedFields(p, adminIds, nowMs);
      ParseQuery(Generate(p, Some(adminIds), Some(botToken), nowMs).value, p.formDecode)
        == data + [("hash", SignatureHex(p, botToken, DataCheckString(SortByName(data))))]
  {
    var data := SignedFields(p, adminIds, nowMs);
    var list := data + [("hash", SignatureHex(p, botToken, DataCheckString(SortByName(data))))];
    ParseSerialize(list, p.formEncode, p.formDecode);
  }

  /** A pair appended after a list without its name is the first of its name, and `delete` removes just it. */
  lemma {:induction false} AppendedPair(list: seq<Pair>, name: string, value: string)
    requires forall i :: 0 <= i < |list| ==> list[i].0 != name
    ensures FirstValue(list + [(name, value)], name) == Some(value)
    ensures RemoveName(list + [(name, value)], name) == list
  {
    var whole := list + [(name, value)];
    if list == [] {
      assert whole == [(name, value)];
      assert whole[1..] == [];
    } else {
      assert whole[0] == list[0];
      assert whole[1..] == list[1..] + [(name, value)];
      AppendedPair(list[1..], name, value);
      assert list == [list[0]] + list[1..];
    }
  }

  /**
   * Any hash-free list, signed over its canonical check string with `hash` appended,
   * passes the verifier, which parses `user` from the list's own last `user` value.
   */
  lemma SignedListVerifies(p: Primitives, botToken: string, data: seq<Pair>, user: Json)
    requires DigestIs32Bytes(p)
    requires FirstValue(data, "hash").None?
    requires "user" in FromEntries(data) && p.parseJson(FromEntries(data)["user"]) == Success(user)
    ensures var params := data + [("hash", SignatureHex(p, botToken, DataCheckString(SortByName(data))))];
      VerifyParams(p, botToken, params) == Success(Validated(FromEntries(params) - {"user"}, user))
  {
    var hash := SignatureHex(p, botToken, DataCheckString(SortByName(data)));
    var params := data + [("hash", hash)];
    SignedListAuthentic(p, botToken, data);
    assert params[..|params| - 1] == data;
    assert FromEntries(params)["user"] == FromEntries(data)["user"];
  }

  /** The appended `hash` is the first one, is not empty, and signs the list's canonical check string. */
  lemma SignedListAuthentic(p: Primitives, botToken: string, data: seq<Pair>)
    requires DigestIs32Bytes(p)
    requires FirstValue(data, "hash").None?
    ensures var hash := SignatureHex(p, botToken, DataCheckString(SortByName(data)));
      var params := data + [("hash", hash)];
      && FirstValue(params, "hash") == Some(hash) && hash != ""
      && SignatureHex(p, botToken, CanonicalCheckString(params)) == hash
  {
    var hash := SignatureHex(p, botToken, DataCheckString(SortByName(data)));
    assert |hash| == 64;
    AppendedPair(data, "hash", hash);
  }

  /** The fields the verifier hands back for the generated list: each name once, with its value. */
  lemma GeneratedEntries(data: seq<Pair>, hash: string)
    requires |data| == 3 && data[0].0 == "auth_date" && data[1].0 == "query_id" && data[2].0 == "user"
    ensures var m := FromEntries(data + [("hash", hash)]) - {"user"};
      && m.Keys == {"auth_date", "query_id", "hash"}
      && m["auth_date"] == data[0].1 && m["query_id"] == data[1].1 && m["hash"] == hash
  {
    var params := data + [("hash", hash)];
    var full := FromEntries(params);
    assert params[0].0 == "auth_date" && params[1].0 == "query_id" && params[2].0 == "user" && params[3].0 == "hash";
    assert "user"[0] != "auth_date"[0] && "user"[0] != "query_id"[0] && "user"[0] != "hash"[0];
    assert "auth_date"[0] != "query_id"[0] && "auth_date"[0] != "hash"[0] && "query_id"[0] != "hash"[0];
    FromEntriesLastWins(params, 0);
    FromEntriesLastWins(params, 1);
    FromEntriesLastWins(params, 3);
    forall name | name in full ensures name in {"auth_date", "query_id", "user", "hash"} {
      var i :| 0 <= i < |params| && params[i] == (name, full[name]);
      assert i == 0 || i == 1 || i == 2 || i == 3;
    }
  }

  /** The three signed fields hold no `hash`, and `user` is read as the given text. */
  lemma UnsignedFields(authDate: string, queryId: string, userText: string)
    ensures var data := [("auth_date", authDate), ("query_id", queryId), ("user", userText)];
      && FirstValue(data, "hash").None?
      && "user" in FromEntries(data) && FromEntries(data)["user"] == userText
  {
    var data := [("auth_date", authDate), ("query_id", queryId), ("user", userText)];
    assert "auth_date"[0] != "hash"[0] && "query_id"[0] != "hash"[0] && "user"[0] != "hash"[0];
    assert data[1..][1..] == [data[2]];
    FromEntriesLastWins(data, 2);
  }

  /** The three signed fields, whatever their values, verify once signed, yielding the parsed `user` and the other two fields. */
  lemma SignedFieldsVerify(p: Primitives, botToken: string, authDate: string, queryId: string, userText: string, user: Json)
    requires DigestIs32Bytes(p)
    requires p.parseJson(userText) == Success(user)
    ensures var data := [("auth_date", authDate), ("query_id", queryId), ("user", userText)];
      var verdict := VerifyParams(p, botToken, data + [("hash", SignatureHex(p, botToken, DataCheckString(SortByName(data))))]);
      && verdict.Success?
      && verdict.value.user == user
      && verdict.value.fields.Keys == {"auth_date", "query_id", "hash"}
      && verdict.value.fields["auth_date"] == authDate
      && verdict.value.fields["query_id"] == queryId
  {
    var data := [("auth_date", authDate), ("query_id", queryId), ("user", userText)];
    var hash := SignatureHex(p, botToken, DataCheckString(SortByName(data)));
    UnsignedFields(authDate, queryId, userText);
    SignedListVerifies(p, botToken, data, user);
    GeneratedEntries(data, hash);
  }

  /**
   * Round trip: with a codec and a JSON parser that read back what they write, and a
   * 32-byte digest, the generated string verifies under the same bot token, at any
   * time (no freshness check), and yields the test profile and the signed fields.
   */
  lemma GeneratedInitDataVerifies(p: Primitives, adminIds: string, botToken: string, nowMs: nat)
    requires FormCodecRoundTrips(p) && JsonRoundTrips(p) && DigestIs32Bytes(p)
    requires adminIds != "" && botToken != ""
    ensures var verdict := Verify(p, botToken, Generate(p, Some(adminIds), Some(botToken), nowMs).value);
      && verdict.Success?
      && verdict.value.user == TestUser(adminIds)
      && verdict.value.fields.Keys == {"auth_date", "query_id", "hash"}
      && verdict.value.fields["auth_date"] == Decimal(nowMs / 1000)
      && verdict.value.fields["query_id"] == QueryId
  {
    GeneratedParams(p, adminIds, botToken, nowMs);
    SignedFieldsVerify(p, botToken, Decimal(nowMs / 1000), QueryId, p.stringifyJson(TestUser(adminIds)), TestUser(adminIds));
  }

  /**
   * The generated string admits its user as an administrator exactly when the first
   * allow-list entry is already in canonical decimal form ("42", not "042" or " 42") and
   * a safe integer, which `parseInt` returns exactly.
   */
  lemma GeneratedInitDataIsAdmin(p: Primitives, adminIds: string, botToken: string, nowMs: nat, n: int)
    requires FormCodecRoundTrips(p) && JsonRoundTrips(p) && DigestIs32Bytes(p)
    requires adminIds != "" && botToken != ""
    requires Split(adminIds, ',')[0] == Decimal(n) && -MaxSafeInteger <= n <= MaxSafeInteger
    ensures CheckAdmin(p, Config(botToken, Some(adminIds)), Generate(p, Some(adminIds), Some(botToken), nowMs).value)
  {
    var config := Config(botToken, Some(adminIds));
    var initData := Generate(p, Some(adminIds), Some(botToken), nowMs).value;
    GeneratedInitDataVerifies(p, adminIds, botToken, nowMs);
    TestUserId(adminIds, n);
    assert AdminList(config)[0] == Decimal(n);
    NumericIdAdmitted(p, config, initData, n);
  }

  /** The profile's `id` is the safe integer an entry in canonical decimal form denotes. */
  lemma TestUserId(adminIds: string, n: int)
    requires Split(adminIds, ',')[0] == Decimal(n) && -MaxSafeInteger <= n <= MaxSafeInteger
    ensures GetProp(TestUser(adminIds), "id") == Defined(JNum(n))
  {
    ParseIntDecimal(n);
    var user := TestUser(adminIds);
    assert user.fields["id"] == JNum(n);
  }
}
