/** POST /api/user-status (src/pages/api/user-status.ts): a registered user pauses or resumes their membership. */
module UserStatus {
  import opened Wrappers
  import opened JsValues
  import opened Platform
  import opened InitData
  import opened Admin
  import opened Store
  import opened Requests

  /** `StatusUpdateSchema`: `status` is "Paused" or "Active". */
  predicate StatusAllowed(status: Prop)
  {
    status == Defined(JStr("Paused")) || status == Defined(JStr("Active"))
  }

  /** The update the handler sends for a verified user: their own row, keyed by the `telegram_id` text. */
  function StatusUpdate(user: Json, status: Json, nowIso: string): Op
    requires user != JNull
  {
    Update("users", map["status" := status, "updated_at" := JStr(nowIso)],
      Eq("telegram_id", TemplateString(GetProp(user, "id"))))
  }

  /** What the handler decides before it calls the store: an answer, or the update to send. */
  function StatusRequest(p: Primitives, config: Config, body: Json, nowIso: string): Result<Op, Response>
  {
    if body == JNull then Failure(Crash)  // destructuring `null`
    else match Authentication(p, config.botToken, JsonInitData(GetProp(body, "initData")))
      case Failure(answer) => Failure(answer)
      case Success(validated) =>
        if validated.user == JNull then Failure(Crash)  // `validatedUser.user.id` outside the try
        else if !StatusAllowed(GetProp(body, "status")) then Failure(Respond(400, Error("Invalid request payload.")))
        else Success(StatusUpdate(validated.user, GetProp(body, "status").value, nowIso))
  }

  method HandleStatusUpdate(p: Primitives, config: Config, supabase: Supabase, body: Json, nowIso: string)
    returns (resp: Response)
    requires supabase.Valid()
    modifies supabase
    ensures supabase.Valid()
    ensures var request := StatusRequest(p, config, body, nowIso);
      && (request.Failure? ==> resp == request.error && unchanged(supabase))
      && (request.Success? ==>
            && |supabase.log| == |old(supabase.log)| + 1
            && var e := supabase.log[|supabase.log| - 1];
            && supabase.log == old(supabase.log) + [e]
            && e.op == request.value
            && supabase.state == After(old(supabase.state), e.op, supabase.refuse(e.op))
            && resp == if e.reply.Failed? then Respond(500, Error("Failed to update status."))
                       else Respond(200, Message("Status updated successfully.")))
  {
    if body == JNull {
      return Crash;
    }
    var initData := GetProp(body, "initData");
    var status := GetProp(body, "status");
    var authenticated := Authenticate(p, config.botToken, JsonInitData(initData));
    if authenticated.Failure? {
      return authenticated.error;
    }
    var user := authenticated.value.user;
    if user == JNull {
      return Crash;
    }
    if !StatusAllowed(status) {
      return Respond(400, Error("Invalid request payload."));
    }
    var reply := supabase.Perform(StatusUpdate(user, status.value, nowIso));
    if reply.Failed? {
      resp := Respond(500, Error("Failed to update status."));
    } else {
      resp := Respond(200, Message("Status updated successfully."));
    }
  }

  /**
   * A status change reaches the store only for initData that verifies, and it can patch
   * no row but those whose `telegram_id` is the verified user's id.
   */
  lemma StatusUpdateIsOwnRow(p: Primitives, config: Config, body: Json, nowIso: string)
    requires StatusRequest(p, config, body, nowIso).Success?
    ensures var initData := GetProp(body, "initData");
      && PropTruthy(initData)
      && var verdict := Verify(p, config.botToken, JsonInitDataText(initData.value));
      && verdict.Success? && verdict.value.user != JNull
      && var op := StatusRequest(p, config, body, nowIso).value;
      && op.Update? && op.table == "users" && op.filter == Eq("telegram_id", TemplateString(GetProp(verdict.value.user, "id")))
      && op.patch.Keys == {"status", "updated_at"}
      && (op.patch["status"] == JStr("Paused") || op.patch["status"] == JStr("Active"))
  {
    var initData := JsonInitData(GetProp(body, "initData"));
    var auth := Authentication(p, config.botToken, initData);
    assert auth.Success?;
    var user := auth.value.user;
    assert user == Verify(p, config.botToken, initData.value).value.user;
    var status := GetProp(body, "status");
    assert StatusRequest(p, config, body, nowIso).value == StatusUpdate(user, status.value, nowIso);
  }
}
