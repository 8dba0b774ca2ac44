/**
 * POST /api/materials (src/pages/api/materials.ts): an administrator uploads a course
 * material, or deletes one when the form's `_method` says DELETE.
 */
module Materials {
  import opened Wrappers
  import opened JsStrings
  import opened JsValues
  import opened Platform
  import opened UrlParams
  import opened InitData
  import opened Admin
  import opened Store
  import opened Requests

  const MaterialTypes := ["application/pdf", "video/mp4", "application/msword",
                          "application/vnd.openxmlformats-officedocument.wordprocessingml.document"]

  /** `title: z.string().min(3)` on `formData.get('title')`. */
  predicate TitleValid(title: Option<FormValue>)
  {
    title.Some? && title.value.Text? && |Utf16(title.value.text)| >= 3
  }

  /**
   * `description: z.string().optional()` on `formData.get('description')` as written:
   * `get` answers `null` for a missing entry and `optional()` admits only `undefined`,
   * so a form without a description fails.
   */
  predicate DescriptionValidAsWritten(description: Option<FormValue>)
  {
    description.Some? && description.value.Text?
  }

  /** The evident intent: the description may be left out; when present it must be text. */
  predicate DescriptionValid(description: Option<FormValue>)
  {
    description.None? || description.value.Text?
  }

  /** `material_file`: a file under 50 MiB of one of the four document and video types. */
  predicate MaterialFileValid(file: Option<FormValue>)
  {
    file.Some? && file.value.Blob? && file.value.file.size < 50 * MiB && file.value.file.mime in MaterialTypes
  }

  /** The fields `MaterialSchema.parse` reports, as written. */
  function MaterialIssuesAsWritten(title: Option<FormValue>, description: Option<FormValue>, file: Option<FormValue>): set<string>
  {
    (if TitleValid(title) then {} else {"title"})
    + (if DescriptionValidAsWritten(description) then {} else {"description"})
    + (if MaterialFileValid(file) then {} else {"material_file"})
  }

  /** The fields `MaterialSchema.parse` reports, with the description optional as intended. */
  function MaterialIssues(title: Option<FormValue>, description: Option<FormValue>, file: Option<FormValue>): set<string>
  {
    (if TitleValid(title) then {} else {"title"})
    + (if DescriptionValid(description) then {} else {"description"})
    + (if MaterialFileValid(file) then {} else {"material_file"})
  }

  /** As written, a well-formed upload that leaves the description out is answered 400. */
  lemma AbsentDescriptionRejectedAsWritten()
    ensures var title, file := Some(Text("Lecture 1")), Some(Blob(File("notes.pdf", 1000, "application/pdf")));
      && TitleValid(title) && MaterialFileValid(file)
      && MaterialIssuesAsWritten(title, None, file) == {"description"}
  {
    var title, file := Some(Text("Lecture 1")), Some(Blob(File("notes.pdf", 1000, "application/pdf")));
    assert file.value.file.mime == MaterialTypes[0];
  }

  /**
   * With the correction, a missing description is never an issue, the form is accepted
   * exactly when title and file are valid and a present description is text, and the
   * only difference from the schema as written is the missing description.
   */
  lemma DescriptionIsOptional(title: Option<FormValue>, description: Option<FormValue>, file: Option<FormValue>)
    ensures "description" !in MaterialIssues(title, None, file)
    ensures MaterialIssues(title, description, file) == {} <==>
      TitleValid(title) && MaterialFileValid(file) && (description.None? || description.value.Text?)
    ensures MaterialIssuesAsWritten(title, description, file) ==
      MaterialIssues(title, description, file) + (if description.None? then {"description"} else {})
  {
    var issues := MaterialIssues(title, description, file);
    if issues == {} {
      assert "title" !in issues && "material_file" !in issues && "description" !in issues;
    }
  }

  /**
   * The metadata row; a missing description is left out of the JSON the client sends.
   * Only the corrected schema lets a missing description through; as written, every
   * create carries one.
   */
  function MaterialRow(title: string, description: Option<string>, path: string, file: File): Row
  {
    (if description.Some? then map["description" := JStr(description.value)] else map[])
    + map["title" := JStr(title), "file_url" := JStr(path), "file_name" := JStr(file.name)]
  }

  /** What the handler does once the administrator is recognised. */
  datatype Action =
    | DeleteMaterial(id: string, fileUrl: string)
    | CreateMaterial(title: string, description: Option<string>, file: File)

  /** `method.toUpperCase() === 'DELETE'` */
  predicate IsDelete(requested: string)
  {
    UpperCase(requested) == "DELETE"
  }

  /** What the handler decides before it calls the store: an answer, or the action to carry out. */
  function MaterialsRequest(p: Primitives, config: Config, form: FormData): Result<Action, Response>
  {
    var initData := FormInitData(form);
    var methodEntry := FirstValue(form, "_method");
    if initData.None? || !CheckAdmin(p, config, initData.value) then Failure(Unauthorized)
    else if Given(methodEntry) && methodEntry.value.Blob? then Failure(Crash)  // a File has no toUpperCase
    else if Given(methodEntry) && IsDelete(methodEntry.value.text) then
      var id, fileUrl := FirstValue(form, "id"), FirstValue(form, "file_url");
      if !Given(id) || !Given(fileUrl) then Failure(Respond(400, Error("Missing ID or file URL for deletion.")))
      else Success(DeleteMaterial(FormText(id.value), FormText(fileUrl.value)))
    else
      var title, description, file := FirstValue(form, "title"), FirstValue(form, "description"), FirstValue(form, "material_file");
      var issues := MaterialIssuesAsWritten(title, description, file);
      if issues != {} then Failure(Respond(400, FieldErrors(issues)))
      else Success(CreateMaterial(title.value.text, Some(description.value.text),
                                  file.value.file))
  }

  /** The store calls of an action and the answer they lead to. */
  predicate MaterialsTrace(action: Action, nowMs: int, events: seq<Event>, resp: Response)
  {
    match action
    case DeleteMaterial(id, fileUrl) =>
      // the storage reply is only logged: a failed removal does not stop the delete
      && |events| == 2 && events[0].op == Remove("course_materials", [fileUrl])
      && events[1].op == Store.Delete("materials", Eq("id", id))
      && resp == if events[1].reply.Failed? then Respond(500, Error("DB Error: " + events[1].reply.error.message))
                 else Respond(200, Message("Material deleted"))
    case CreateMaterial(title, description, file) =>
      var path := UploadPath("protected", nowMs, file.name);
      && |events| >= 1 && events[0].op == Upload("course_materials", path)
      && if events[0].reply.Failed? then
           |events| == 1 && resp == Respond(500, Error("Failed to upload material file."))
         else
           && |events| == 2 && events[1].op == Insert("materials", MaterialRow(title, description, path, file))
           && resp == if events[1].reply.Failed? then Respond(500, Error("Failed to save material metadata."))
                      else Respond(201, Message("Material created"))
  }

  method HandleMaterials(p: Primitives, config: Config, supabase: Supabase, form: FormData, nowMs: int)
    returns (resp: Response)
    requires supabase.Valid()
    modifies supabase
    ensures supabase.Valid()
    ensures var request := MaterialsRequest(p, config, form);
      && (request.Failure? ==> resp == request.error && unchanged(supabase))
      && (request.Success? ==>
            && |old(supabase.log)| <= |supabase.log| && supabase.log[..|old(supabase.log)|] == old(supabase.log)
            && MaterialsTrace(request.value, nowMs, supabase.log[|old(supabase.log)|..], resp))
  {
    var initData := FormInitData(form);
    var methodEntry := FirstValue(form, "_method");
    var requested := if Given(methodEntry) then methodEntry.value else Text("POST");
    if initData.None? || !CheckAdmin(p, config, initData.value) {
      return Unauthorized;
    }
    if requested.Blob? {
      return Crash;
    }
    if IsDelete(requested.text) {
      var id, fileUrl := FirstValue(form, "id"), FirstValue(form, "file_url");
      if !Given(id) || !Given(fileUrl) {
        return Respond(400, Error("Missing ID or file URL for deletion."));
      }
      assert MaterialsRequest(p, config, form) == Success(DeleteMaterial(FormText(id.value), FormText(fileUrl.value)));
      resp := RemoveMaterial(supabase, FormText(id.value), FormText(fileUrl.value));
      return;
    }
    assert !IsDelete("POST") by { assert UpperCase("POST")[0] == 'P'; }
    var title, description, file := FirstValue(form, "title"), FirstValue(form, "description"), FirstValue(form, "material_file");
    var issues := MaterialIssuesAsWritten(title, description, file);
    if issues != {} {
      return Respond(400, FieldErrors(issues));
    }
    var action := CreateMaterial(title.value.text, Some(description.value.text),
                                 file.value.file);
    assert MaterialsRequest(p, config, form) == Success(action);
    resp := AddMaterial(supabase, action.title, action.description, action.file, nowMs);
  }

  method RemoveMaterial(supabase: Supabase, id: string, fileUrl: string) returns (resp: Response)
    requires supabase.Valid()
    modifies supabase
    ensures supabase.Valid()
    ensures |old(supabase.log)| <= |supabase.log| && supabase.log[..|old(supabase.log)|] == old(supabase.log)
    ensures MaterialsTrace(DeleteMaterial(id, fileUrl), 0, supabase.log[|old(supabase.log)|..], resp)
  {
    ghost var before := supabase.log;
    var removed := supabase.Perform(Remove("course_materials", [fileUrl]));
    var deleted := supabase.Perform(Store.Delete("materials", Eq("id", id)));
    TwoNewEvents(before, Event(Remove("course_materials", [fileUrl]), removed),
                 Event(Store.Delete("materials", Eq("id", id)), deleted), supabase.log);
    if deleted.Failed? {
      resp := Respond(500, Error("DB Error: " + deleted.error.message));
    } else {
      resp := Respond(200, Message("Material deleted"));
    }
  }

  method AddMaterial(supabase: Supabase, title: string, description: Option<string>, file: File, nowMs: int) returns (resp: Response)
    requires supabase.Valid()
    modifies supabase
    ensures supabase.Valid()
    ensures |old(supabase.log)| <= |supabase.log| && supabase.log[..|old(supabase.log)|] == old(supabase.log)
    ensures MaterialsTrace(CreateMaterial(title, description, file), nowMs, supabase.log[|old(supabase.log)|..], resp)
  {
    ghost var before := supabase.log;
    var path := UploadPath("protected", nowMs, file.name);
    var uploaded := supabase.Perform(Upload("course_materials", path));
    if uploaded.Failed? {
      OneNewEvent(before, Event(Upload("course_materials", path), uploaded), supabase.log);
      return Respond(500, Error("Failed to upload material file."));
    }
    var row := MaterialRow(title, description, path, file);
    var inserted := supabase.Perform(Insert("materials", row));
    TwoNewEvents(before, Event(Upload("course_materials", path), uploaded), Event(Insert("materials", row), inserted), supabase.log);
    if inserted.Failed? {
      resp := Respond(500, Error("Failed to save material metadata."));
    } else {
      resp := Respond(201, Message("Material created"));
    }
  }

  /** A non-administrator, or a request without initData, never reaches the store. */
  lemma MaterialsNeedAdmin(p: Primitives, config: Config, form: FormData)
    requires FormInitData(form).None? || !CheckAdmin(p, config, FormInitData(form).value)
    ensures MaterialsRequest(p, config, form) == Failure(Unauthorized)
  {
  }

  /**
   * The handler applies the schema as written: an administrator's upload with a valid title
   * and file but no `description` entry is answered 400 and nothing is stored.
   */
  lemma MissingDescriptionAnswered400(p: Primitives, config: Config, form: FormData)
    requires FormInitData(form).Some? && CheckAdmin(p, config, FormInitData(form).value)
    requires FirstValue(form, "_method").None?
    requires TitleValid(FirstValue(form, "title")) && MaterialFileValid(FirstValue(form, "material_file"))
    requires FirstValue(form, "description").None?
    ensures MaterialsRequest(p, config, form) == Failure(Respond(400, FieldErrors({"description"})))
  {
    DescriptionIsOptional(FirstValue(form, "title"), None, FirstValue(form, "material_file"));
  }

  /** `_method` is matched case-insensitively and exactly. */
  lemma DeleteOverride()
    ensures IsDelete("delete") && IsDelete("Delete") && IsDelete("DELETE")
    ensures !IsDelete("DELETE ") && !IsDelete("POST") && !IsDelete("PATCH")
  {
    assert UpperCase("delete") == "DELETE";
    assert UpperCase("Delete") == "DELETE";
    assert UpperCase("DELETE") == "DELETE";
    assert UpperCase("POST")[0] == 'P';
    assert UpperCase("PATCH")[0] == 'P';
  }

  /** `_method` selects the delete path exactly when it spells "delete" in any mix of cases. */
  lemma IsDeleteCharacterized(requested: string)
    ensures IsDelete(requested) <==>
      |requested| == 6 && forall i :: 0 <= i < 6 ==> requested[i] == "DELETE"[i] || requested[i] == "delete"[i]
  {
    var upper, lower := "DELETE", "delete";
    assert forall i :: 0 <= i < 6 ==> lower[i] as int == upper[i] as int + 32 && 'A' <= upper[i] <= 'Z';
    if IsDelete(requested) {
      forall i | 0 <= i < 6 ensures requested[i] == upper[i] || requested[i] == lower[i] {
        assert AsciiUpper(requested[i]) == UpperCase(requested)[i] == upper[i];
      }
    }
    if |requested| == 6 && forall i :: 0 <= i < 6 ==> requested[i] == upper[i] || requested[i] == lower[i] {
      assert forall i :: 0 <= i < 6 ==> UpperCase(requested)[i] == upper[i];
    }
  }
}
