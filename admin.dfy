/**
 * `checkAdmin` (copied verbatim into materials.ts, announcements.ts and
 * admin/user-management.ts): an initData string is an administrator's when it
 * verifies and its user's `id`, as text, is one of the comma-separated entries of
 * `ADMIN_TELEGRAM_IDS`.
 */
module Admin {
  import opened Wrappers
  import opened JsStrings
  import opened JsValues
  import opened Platform
  import opened InitData

  /** The two environment variables the handlers read; an unset variable is None. */
  datatype Config = Config(botToken: string, adminIds: Option<string>)

  /** `(import.meta.env.ADMIN_TELEGRAM_IDS || "").split(',')`: entries are not trimmed. */
  function AdminList(config: Config): (ids: seq<string>)
    ensures |ids| >= 1
  {
    Split(config.adminIds.GetOr(""), ',')
  }

  /** `adminIds.includes(user.id.toString())`, false where that expression throws. */
  function ListsUser(ids: seq<string>, user: Json): bool
  {
    match CallToString(GetProp(user, "id"))
    case None => false
    case Some(id) => id in ids
  }

  /** `checkAdmin(initData)`: every exception (verification, `null` user, missing `id`) yields false. */
  function CheckAdmin(p: Primitives, config: Config, initData: string): bool
  {
    match Verify(p, config.botToken, initData)
    case Failure(_) => false
    case Success(validated) => ListsUser(AdminList(config), validated.user)
  }

  /** Only an object with a non-null `id` can be listed; arrays have no `id` property. */
  lemma ListsUserCharacterized(ids: seq<string>, user: Json)
    ensures ListsUser(ids, user) <==>
      user.JObj? && "id" in user.fields && user.fields["id"] != JNull && JsString(user.fields["id"]) in ids
  {
    if user.JArr? {
      ArrayIndexSound("id", |user.items|);
    }
  }

  /** Administrator status in terms of the verifier's result and the user's `id`. */
  lemma CheckAdminCharacterized(p: Primitives, config: Config, initData: string)
    ensures CheckAdmin(p, config, initData) <==>
      && Verify(p, config.botToken, initData).Success?
      && var user := Verify(p, config.botToken, initData).value.user;
      && user.JObj? && "id" in user.fields && user.fields["id"] != JNull
      && JsString(user.fields["id"]) in AdminList(config)
  {
    var r := Verify(p, config.botToken, initData);
    if r.Success? {
      ListsUserCharacterized(AdminList(config), r.value.user);
    }
  }

  /**
   * Whatever the `id`, its text must equal an entry verbatim: a numeric id n is admitted
   * exactly when its decimal form is listed (below 1e21, where `toString` still writes
   * plain decimal digits).
   */
  lemma NumericIdAdmitted(p: Primitives, config: Config, initData: string, n: int)
    requires -ExponentFrom < n < ExponentFrom
    requires Verify(p, config.botToken, initData).Success?
    requires GetProp(Verify(p, config.botToken, initData).value.user, "id") == Defined(JNum(n))
    ensures CheckAdmin(p, config, initData) <==> Decimal(n) in AdminList(config)
  {
  }

  /**
   * With `ADMIN_TELEGRAM_IDS` unset or empty the list is `[""]`: no numeric id is an
   * administrator, and the only admitted users are those whose `id` renders as "".
   */
  lemma UnsetListAdmitsOnlyEmptyId(p: Primitives, config: Config, initData: string)
    requires config.adminIds.None? || config.adminIds == Some("")
    ensures AdminList(config) == [""]
    ensures CheckAdmin(p, config, initData) ==>
      CallToString(GetProp(Verify(p, config.botToken, initData).value.user, "id")) == Some("")
    ensures Verify(p, config.botToken, initData).Success? &&
      GetProp(Verify(p, config.botToken, initData).value.user, "id").Defined? &&
      GetProp(Verify(p, config.botToken, initData).value.user, "id").value.JNum?
      ==> !CheckAdmin(p, config, initData)
  {
    assert config.adminIds.GetOr("") == "";
    assert Split("", ',') == [""];
    var verdict := Verify(p, config.botToken, initData);
    if verdict.Success? {
      var id := GetProp(verdict.value.user, "id");
      if id.Defined? && id.value.JNum? {
        var n := id.value.n;
        assert Decimal(n) != "";
        assert CallToString(id) == Some(Decimal(n));
      }
    }
  }
}
