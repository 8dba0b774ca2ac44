/** POST /api/announcements (src/pages/api/announcements.ts): an administrator posts an announcement. */
module Announcements {
  import opened Wrappers
  import opened JsStrings
  import opened JsValues
  import opened Platform
  import opened InitData
  import opened Admin
  import opened Store
  import opened Requests

  /** `AnnouncementSchema`: `content` is a string of at least 10 characters. */
  predicate ContentAllowed(content: Prop)
  {
    content.Defined? && content.value.JStr? && |Utf16(content.value.s)| >= 10
  }

  /** What the handler decides before it calls the store: an answer, or the insert to send. */
  function AnnouncementRequest(p: Primitives, config: Config, body: Json): Result<Op, Response>
  {
    if body == JNull then Failure(Crash)  // destructuring `null`
    else
      var initData := JsonInitData(GetProp(body, "initData"));
      if initData.None? || !CheckAdmin(p, config, initData.value) then Failure(Unauthorized)
      else
        var content := GetProp(body, "content");
        if !ContentAllowed(content) then Failure(Respond(400, SchemaError({"content"})))
        else Success(Insert("announcements", map["content" := content.value]))
  }

  method HandleAnnouncement(p: Primitives, config: Config, supabase: Supabase, body: Json)
    returns (resp: Response)
    requires supabase.Valid()
    modifies supabase
    ensures supabase.Valid()
    ensures var request := AnnouncementRequest(p, config, body);
      && (request.Failure? ==> resp == request.error && unchanged(supabase))
      && (request.Success? ==>
            && |supabase.log| == |old(supabase.log)| + 1
            && var e := supabase.log[|supabase.log| - 1];
            && supabase.log == old(supabase.log) + [e]
            && e.op == request.value
            && supabase.state == After(old(supabase.state), e.op, supabase.refuse(e.op))
            && resp == if e.reply.Failed? then Respond(400, Error(e.reply.error.message))
                       else Respond(201, Message("Announcement sent!")))
  {
    if body == JNull {
      return Crash;
    }
    var initData := JsonInitData(GetProp(body, "initData"));
    var content := GetProp(body, "content");
    if initData.None? || !CheckAdmin(p, config, initData.value) {
      return Unauthorized;
    }
    if !ContentAllowed(content) {
      return Respond(400, SchemaError({"content"}));
    }
    var reply := supabase.Perform(Insert("announcements", map["content" := content.value]));
    if reply.Failed? {
      resp := Respond(400, Error(reply.error.message));
    } else {
      resp := Respond(201, Message("Announcement sent!"));
    }
  }

  /** A successful post adds exactly one row, holding the content as sent, to `announcements`. */
  lemma PostedAnnouncementIsStored(p: Primitives, config: Config, body: Json, s: State)
    requires AnnouncementRequest(p, config, body).Success?
    ensures var op := AnnouncementRequest(p, config, body).value;
      && CheckAdmin(p, config, JsonInitData(GetProp(body, "initData")).value)
      && Outcome(s, op, None) == Done
      && Rows(After(s, op, None), "announcements") == Rows(s, "announcements") + [map["content" := GetProp(body, "content").value]]
      && |Utf16(GetProp(body, "content").value.s)| >= 10
      && forall t :: t != "announcements" ==> Rows(After(s, op, None), t) == Rows(s, t)
  {
  }
}
