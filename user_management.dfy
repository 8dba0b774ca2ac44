/** POST /api/admin/user-management (src/pages/api/admin/user-management.ts): an administrator approves or rejects a registration. */
module UserManagement {
  import opened Wrappers
  import opened JsValues
  import opened Platform
  import opened InitData
  import opened Admin
  import opened Store
  import opened Requests

  /** `AdminUserUpdateSchema`: the fields with an issue (`userId` a UUID string, `status` "Active" or "Rejected"). */
  function ReviewIssues(p: Primitives, userId: Prop, status: Prop): (issues: set<string>)
    ensures "userId" !in issues <==> userId.Defined? && userId.value.JStr? && p.isUuid(userId.value.s)
    ensures "status" !in issues <==> status == Defined(JStr("Active")) || status == Defined(JStr("Rejected"))
    ensures issues <= {"userId", "status"}
  {
    (if userId.Defined? && userId.value.JStr? && p.isUuid(userId.value.s) then {} else {"userId"})
    + (if status == Defined(JStr("Active")) || status == Defined(JStr("Rejected")) then {} else {"status"})
  }

  /** What the handler decides before it calls the store: an answer, or the update to send. */
  function ReviewRequest(p: Primitives, config: Config, body: Json, nowIso: string): Result<Op, Response>
  {
    if body == JNull then Failure(Crash)  // destructuring `null`
    else
      var initData := JsonInitData(GetProp(body, "initData"));
      if initData.None? || !CheckAdmin(p, config, initData.value) then Failure(Unauthorized)
      else
        var userId, status := GetProp(body, "userId"), GetProp(body, "status");
        var issues := ReviewIssues(p, userId, status);
        if issues != {} then Failure(Respond(400, SchemaError(issues)))
        else Success(Update("users", map["status" := status.value, "updated_at" := JStr(nowIso)],
                            Eq("id", userId.value.s)))
  }

  method HandleUserReview(p: Primitives, config: Config, supabase: Supabase, body: Json, nowIso: string)
    returns (resp: Response)
    requires supabase.Valid()
    modifies supabase
    ensures supabase.Valid()
    ensures var request := ReviewRequest(p, config, body, nowIso);
      && (request.Failure? ==> resp == request.error && unchanged(supabase))
      && (request.Success? ==>
            && |supabase.log| == |old(supabase.log)| + 1
            && var e := supabase.log[|supabase.log| - 1];
            && supabase.log == old(supabase.log) + [e]
            && e.op == request.value
            && supabase.state == After(old(supabase.state), e.op, supabase.refuse(e.op))
            && resp == if e.reply.Failed? then Respond(400, Error(e.reply.error.message))
                       else Respond(200, Message("User status updated")))
  {
    if body == JNull {
      return Crash;
    }
    var initData := JsonInitData(GetProp(body, "initData"));
    var userId, status := GetProp(body, "userId"), GetProp(body, "status");
    if initData.None? || !CheckAdmin(p, config, initData.value) {
      return Unauthorized;
    }
    var issues := ReviewIssues(p, userId, status);
    if issues != {} {
      return Respond(400, SchemaError(issues));
    }
    var reply := supabase.Perform(Update("users", map["status" := status.value, "updated_at" := JStr(nowIso)],
                                         Eq("id", userId.value.s)));
    if reply.Failed? {
      // `throw new Error(error.message)`, caught and answered 400
      resp := Respond(400, Error(reply.error.message));
    } else {
      resp := Respond(200, Message("User status updated"));
    }
  }

  /** Only an administrator's verified request reaches the store. */
  lemma ReviewNeedsAdmin(p: Primitives, config: Config, body: Json, nowIso: string)
    requires ReviewRequest(p, config, body, nowIso).Success?
    ensures body != JNull
    ensures JsonInitData(GetProp(body, "initData")).Some?
    ensures CheckAdmin(p, config, JsonInitData(GetProp(body, "initData")).value)
  {
  }

  /** An accepted review sets one user's `status` to "Active" or "Rejected" and nothing but `status` and `updated_at`. */
  lemma ReviewSetsStatus(p: Primitives, config: Config, body: Json, nowIso: string)
    requires ReviewRequest(p, config, body, nowIso).Success?
    ensures var op := ReviewRequest(p, config, body, nowIso).value;
      && op.Update? && op.table == "users" && op.filter.column == "id" && p.isUuid(op.filter.value)
      && op.patch.Keys == {"status", "updated_at"}
      && (op.patch["status"] == JStr("Active") || op.patch["status"] == JStr("Rejected"))
  {
    var userId, status := GetProp(body, "userId"), GetProp(body, "status");
    assert ReviewIssues(p, userId, status) == {};
    assert ReviewRequest(p, config, body, nowIso).value ==
      Update("users", map["status" := status.value, "updated_at" := JStr(nowIso)], Eq("id", userId.value.s));
  }
}
