/** POST /api/registration (src/pages/api/registration.ts): a Telegram user applies with a form and a payment receipt. */
module Registration {
  import opened Wrappers
  import opened JsStrings
  import opened JsValues
  import opened Platform
  import opened UrlParams
  import opened InitData
  import opened Admin
  import opened Store
  import opened Requests

  const ReceiptTypes := ["image/jpeg", "image/png", "image/webp"]

  /** `/^[a-zA-Z\s]+$/` */
  predicate NameChar(c: char)
  {
    'a' <= c <= 'z' || 'A' <= c <= 'Z' || IsJsSpace(c)
  }

  /** `/^[\d\s\-\+\(\)]+$/` */
  predicate PhoneChar(c: char)
  {
    '0' <= c <= '9' || IsJsSpace(c) || c == '-' || c == '+' || c == '(' || c == ')'
  }

  /** `z.string()` on a form entry: the text, when the entry is present and is not a file. */
  function TextField(data: map<string, FormValue>, name: string): Option<string>
  {
    if name in data && data[name].Text? then Some(data[name].text) else None
  }

  /** `z.coerce.number()`: `Number(value)`, None standing for NaN or a non-integer. */
  function NumberField(p: Primitives, data: map<string, FormValue>, name: string): Option<int>
  {
    if name !in data then None                        // Number(undefined) is NaN
    else p.numberOf(FormText(data[name]))
  }

  function FileField(data: map<string, FormValue>, name: string): Option<File>
  {
    if name in data && data[name].Blob? then Some(data[name].file) else None
  }

  predicate FullNameValid(s: Option<string>)
  {
    s.Some? && |Utf16(s.value)| >= 3 && forall i :: 0 <= i < |s.value| ==> NameChar(s.value[i])
  }

  predicate PhoneValid(s: Option<string>)
  {
    s.Some? && |Utf16(s.value)| >= 9 && forall i :: 0 <= i < |s.value| ==> PhoneChar(s.value[i])
  }

  predicate ReceiptValid(f: Option<File>)
  {
    f.Some? && f.value.size < 5 * MiB && f.value.mime in ReceiptTypes
  }

  /** `RegistrationSchema.parse(data)`: the fields with an issue. */
  function RegistrationIssues(p: Primitives, data: map<string, FormValue>): set<string>
  {
    var age := NumberField(p, data, "age");
    var email := TextField(data, "email");
    var grade := TextField(data, "grade");
    var language := TextField(data, "language");
    (if FullNameValid(TextField(data, "full_name")) then {} else {"full_name"})
    + (if age.Some? && 12 <= age.value <= 60 then {} else {"age"})
    + (if grade.Some? && |Utf16(grade.value)| >= 1 then {} else {"grade"})
    + (if PhoneValid(TextField(data, "phone")) then {} else {"phone"})
    + (if email.Some? && p.isEmail(email.value) then {} else {"email"})
    + (if ReceiptValid(FileField(data, "receipt")) then {} else {"receipt"})
    + (if language == Some("en") || language == Some("am") then {} else {"language"})
  }

  /** `age` sent as a file, or as an empty text, is coerced to NaN or 0 and rejected. */
  lemma FileOrEmptyAgeRejected(p: Primitives, data: map<string, FormValue>)
    requires FixedResults(p)
    requires "age" in data && (data["age"].Blob? || data["age"] == Text(""))
    ensures "age" in RegistrationIssues(p, data)
  {
  }

  /** The parsed form. */
  datatype Applicant = Applicant(fullName: string, age: int, grade: string, phone: string, email: string,
                                 receipt: File, language: string)

  function ApplicantOf(p: Primitives, data: map<string, FormValue>): Applicant
    requires RegistrationIssues(p, data) == {}
  {
    Applicant(TextField(data, "full_name").value, NumberField(p, data, "age").value, TextField(data, "grade").value,
              TextField(data, "phone").value, TextField(data, "email").value, FileField(data, "receipt").value,
              TextField(data, "language").value)
  }

  /** Name and phone characters lie below U+10000, so Zod's code-unit length is the character count. */
  lemma OneUnitPerChar(s: string)
    requires forall i :: 0 <= i < |s| ==> NameChar(s[i]) || PhoneChar(s[i])
    ensures |Utf16(s)| == |s|
  {
    forall i | 0 <= i < |s| ensures s[i] < '\U{10000}' {
      assert NameChar(s[i]) || PhoneChar(s[i]);
    }
    Utf16Length(s);
  }

  /** What an accepted form guarantees. */
  lemma AcceptedApplicant(p: Primitives, data: map<string, FormValue>)
    requires RegistrationIssues(p, data) == {}
    ensures var a := ApplicantOf(p, data);
      && |a.fullName| >= 3 && (forall i :: 0 <= i < |a.fullName| ==> NameChar(a.fullName[i]))
      && 12 <= a.age <= 60 && |a.grade| >= 1
      && |a.phone| >= 9 && (forall i :: 0 <= i < |a.phone| ==> PhoneChar(a.phone[i]))
      && p.isEmail(a.email)
      && a.receipt.size < 5 * MiB && a.receipt.mime in ReceiptTypes
      && (a.language == "en" || a.language == "am")
  {
    var issues := RegistrationIssues(p, data);
    assert "full_name" !in issues && "age" !in issues && "grade" !in issues && "phone" !in issues;
    assert "email" !in issues && "receipt" !in issues && "language" !in issues;
    var a := ApplicantOf(p, data);
    OneUnitPerChar(a.fullName);
    OneUnitPerChar(a.phone);
  }

  /** The duplicate check: `.from('users').select('telegram_id').eq('telegram_id', telegram_id).single()`. */
  function Lookup(id: Prop): Op
    requires !id.Throws?
  {
    SelectSingle("users", "telegram_id", Eq("telegram_id", TemplateString(id)))
  }

  function ReceiptPath(id: Prop, nowMs: int, a: Applicant): string
    requires !id.Throws?
  {
    UploadPath(TemplateString(id), nowMs, a.receipt.name)
  }

  /** The inserted row; an `undefined` id is left out of the JSON the client sends. */
  function RegistrationRow(id: Prop, a: Applicant, receiptPath: string): Row
  {
    (if id.Defined? then map["telegram_id" := id.value] else map[])
    + map["full_name" := JStr(a.fullName), "age" := JNum(a.age), "grade" := JStr(a.grade), "phone" := JStr(a.phone),
          "email" := JStr(a.email), "receipt_url" := JStr(receiptPath), "language_pref" := JStr(a.language)]
  }

  /** What the handler decides before it calls the store: an answer, or the user's `id` and the parsed form. */
  function RegistrationRequest(p: Primitives, config: Config, form: FormData): Result<(Prop, Applicant), Response>
  {
    match Authentication(p, config.botToken, FormInitData(form))
    case Failure(answer) => Failure(answer)
    case Success(validated) =>
      if validated.user == JNull then Failure(Crash)  // `validatedUser.user.id` outside the try
      else
        var data := FromEntries(form);
        var issues := RegistrationIssues(p, data);
        if issues != {} then Failure(Respond(400, FieldErrors(issues)))
        else Success((GetProp(validated.user, "id"), ApplicantOf(p, data)))
  }

  /** The store calls of an accepted request and the answer they lead to. */
  predicate RegistrationTrace(id: Prop, a: Applicant, nowMs: int, events: seq<Event>, resp: Response)
    requires !id.Throws?
  {
    && |events| >= 1 && events[0].op == Lookup(id)
    && LookupAnswered(id, a, nowMs, events[0].reply, events[1..], resp)
  }

  /** What follows the duplicate check's reply `existing`: an answer at once, or the storage calls. */
  predicate LookupAnswered(id: Prop, a: Applicant, nowMs: int, existing: Reply, events: seq<Event>, resp: Response)
    requires !id.Throws?
  {
    if existing.Failed? && existing.error.code != NoSingleRow then
      events == [] && resp == Respond(500, Error("Database error checking user."))
    else if existing.Found? then
      events == [] && resp == Respond(409, Error("This Telegram account is already registered."))
    else
      StorageTrace(id, a, nowMs, events, resp)
  }

  /** The calls after the duplicate check: the receipt upload, then the insert. */
  predicate StorageTrace(id: Prop, a: Applicant, nowMs: int, events: seq<Event>, resp: Response)
    requires !id.Throws?
  {
    && |events| >= 1 && events[0].op == Upload("payment_receipts", ReceiptPath(id, nowMs, a))
    && if events[0].reply.Failed? then
         |events| == 1 && resp == Respond(500, Error("Failed to upload receipt."))
       else
         && |events| == 2 && events[1].op == Insert("users", RegistrationRow(id, a, ReceiptPath(id, nowMs, a)))
         && resp == if events[1].reply.Failed? then Respond(500, Error("Failed to save registration data."))
                    else Respond(201, Message("Registration successful!"))
  }

  method HandleRegistration(p: Primitives, config: Config, supabase: Supabase, form: FormData, nowMs: int)
    returns (resp: Response)
    requires supabase.Valid()
    modifies supabase
    ensures supabase.Valid()
    ensures var request := RegistrationRequest(p, config, form);
      && (request.Failure? ==> resp == request.error && unchanged(supabase))
      && (request.Success? ==>
            && |old(supabase.log)| <= |supabase.log| && supabase.log[..|old(supabase.log)|] == old(supabase.log)
            && RegistrationTrace(request.value.0, request.value.1, nowMs, supabase.log[|old(supabase.log)|..], resp))
  {
    var authenticated := Authenticate(p, config.botToken, FormInitData(form));
    if authenticated.Failure? {
      return authenticated.error;
    }
    var user := authenticated.value.user;
    if user == JNull {
      return Crash;
    }
    var telegramId := GetProp(user, "id");
    var data := FromEntries(form);
    var issues := RegistrationIssues(p, data);
    assert RegistrationRequest(p, config, form) ==
      if issues != {} then Failure(Respond(400, FieldErrors(issues)))
      else Success((telegramId, ApplicantOf(p, data)));
    if issues != {} {
      return Respond(400, FieldErrors(issues));
    }
    resp := Register(supabase, telegramId, ApplicantOf(p, data), nowMs);
  }

  /** Steps 3 to 5 of the handler: the duplicate check, then the receipt upload and the insert. */
  method Register(supabase: Supabase, telegramId: Prop, applicant: Applicant, nowMs: int) returns (resp: Response)
    requires supabase.Valid()
    requires !telegramId.Throws?
    modifies supabase
    ensures supabase.Valid()
    ensures |old(supabase.log)| <= |supabase.log| && supabase.log[..|old(supabase.log)|] == old(supabase.log)
    ensures RegistrationTrace(telegramId, applicant, nowMs, supabase.log[|old(supabase.log)|..], resp)
  {
    ghost var before := supabase.log;
    var existing := supabase.Perform(Lookup(telegramId));
    ghost var middle := supabase.log;
    resp := AnswerLookup(supabase, telegramId, applicant, nowMs, existing);
    NewEventsAfterStep(before, Event(Lookup(telegramId), existing), supabase.log);
  }

  /** Steps 3 (its two early answers) to 5, once the duplicate check has replied `existing`. */
  method AnswerLookup(supabase: Supabase, telegramId: Prop, applicant: Applicant, nowMs: int, existing: Reply)
    returns (resp: Response)
    requires supabase.Valid()
    requires !telegramId.Throws?
    modifies supabase
    ensures supabase.Valid()
    ensures |old(supabase.log)| <= |supabase.log| && supabase.log[..|old(supabase.log)|] == old(supabase.log)
    ensures LookupAnswered(telegramId, applicant, nowMs, existing, supabase.log[|old(supabase.log)|..], resp)
  {
    if existing.Failed? && existing.error.code != NoSingleRow {
      resp := Respond(500, Error("Database error checking user."));
      assert supabase.log[|old(supabase.log)|..] == [];
    } else if existing.Found? {
      resp := Respond(409, Error("This Telegram account is already registered."));
      assert supabase.log[|old(supabase.log)|..] == [];
    } else {
      resp := StoreReceiptAndUser(supabase, telegramId, applicant, nowMs);
    }
  }

  /** Steps 4 and 5: upload the receipt under the user's folder, then insert the row. */
  method StoreReceiptAndUser(supabase: Supabase, telegramId: Prop, applicant: Applicant, nowMs: int) returns (resp: Response)
    requires supabase.Valid()
    requires !telegramId.Throws?
    modifies supabase
    ensures supabase.Valid()
    ensures |old(supabase.log)| <= |supabase.log| && supabase.log[..|old(supabase.log)|] == old(supabase.log)
    ensures StorageTrace(telegramId, applicant, nowMs, supabase.log[|old(supabase.log)|..], resp)
  {
    ghost var before := supabase.log;
    var path := ReceiptPath(telegramId, nowMs, applicant);
    var uploaded := supabase.Perform(Upload("payment_receipts", path));
    if uploaded.Failed? {
      OneNewEvent(before, Event(Upload("payment_receipts", path), uploaded), supabase.log);
      return Respond(500, Error("Failed to upload receipt."));
    }
    var row := RegistrationRow(telegramId, applicant, path);
    var inserted := supabase.Perform(Insert("users", row));
    TwoNewEvents(before, Event(Upload("payment_receipts", path), uploaded), Event(Insert("users", row), inserted), supabase.log);
    if inserted.Failed? {
      resp := Respond(500, Error("Failed to save registration data."));
    } else {
      resp := Respond(201, Message("Registration successful!"));
    }
  }

  /**
   * A registration stored from a state without a row for its `id` makes the duplicate
   * check of any later registration with that `id` find it: the second attempt is
   * answered 409 (when the store does not refuse the lookup).
   */
  lemma RepeatRegistrationConflicts(s: State, id: Prop, a: Applicant, path: string)
    requires id.Defined?
    requires Matching(Rows(s, "users"), Lookup(id).filter) == []
    ensures Outcome(After(s, Insert("users", RegistrationRow(id, a, path)), None), Lookup(id), None).Found?
  {
    var row := RegistrationRow(id, a, path);
    assert row["telegram_id"] == id.value;
    InsertedRowIsSingle(s, "users", row, "telegram_id", Lookup(id).filter);
  }

  /**
   * A user profile without an `id` is stored without `telegram_id`, and the duplicate
   * check looks for the text "undefined": such a row never blocks a later registration.
   */
  lemma UndefinedIdNeverConflicts(id: Prop, a: Applicant, path: string)
    requires id.Undefined?
    ensures !Matches(RegistrationRow(id, a, path), Lookup(id).filter)
  {
  }
}
