/**
 * What the API handlers receive and answer: multipart form data or a JSON body, and a
 * response with a status and a JSON body. An exception a handler does not catch is
 * answered by the framework; the model records it as `Crash`.
 */
module Requests {
  import opened Wrappers
  import opened JsStrings
  import opened JsValues
  import opened UrlParams
  import opened Platform
  import opened InitData

  /** A `File` form entry: its name, size in bytes and MIME type. */
  datatype File = File(name: string, size: nat, mime: string)

  /** A `FormData` entry value: text or a file. */
  datatype FormValue = Text(text: string) | Blob(file: File)

  /** `FormData`, in the order the entries were sent. */
  type FormData = seq<(string, FormValue)>

  const MiB := 1024 * 1024

  /** `${folder}/${new Date().getTime()}.${file.name.split('.').pop()}`: where an uploaded file is stored. */
  function UploadPath(folder: string, nowMs: int, fileName: string): string
  {
    folder + "/" + Decimal(nowMs) + "." + LastPiece(fileName, '.')
  }

  /**
   * The stored name keeps the uploaded name's extension: the text after its last dot,
   * or the whole name when it has no dot (so "receipt" is stored as "<ms>.receipt").
   */
  lemma UploadPathExtension(folder: string, nowMs: int, fileName: string)
    ensures var ext := LastPiece(fileName, '.');
      && UploadPath(folder, nowMs, fileName) == folder + "/" + Decimal(nowMs) + "." + ext
      && '.' !in ext && |ext| <= |fileName| && fileName[|fileName| - |ext|..] == ext
      && ('.' !in fileName ==> ext == fileName)
      && ('.' in fileName ==> fileName[|fileName| - |ext| - 1] == '.')
  {
    LastPieceIsSuffix(fileName, '.');
  }

  /** `${value}` for a form entry value; a `File` renders as "[object File]". */
  function FormText(v: FormValue): string
  {
    match v
    case Text(s) => s
    case Blob(_) => "[object File]"
  }

  /** The truthiness of `formData.get(name)`: `null` and "" are falsy, a `File` is truthy. */
  predicate Given(v: Option<FormValue>)
  {
    v.Some? && v.value != Text("")
  }

  /**
   * The `initData` form entry, when it is truthy, as the text the verifier parses. A `File`
   * is an object without own enumerable properties, so `new URLSearchParams(file)` reads
   * no parameters from it, as from the empty string.
   */
  function FormInitData(form: FormData): Option<string>
  {
    var v := FirstValue(form, "initData");
    if !Given(v) then None
    else match v.value
      case Text(s) => Some(s)
      case Blob(_) => Some("")
  }

  /**
   * The text `new URLSearchParams(initData)` parses for an `initData` taken from a JSON
   * body: a string as it is, a number or boolean as `String(v)`. Arrays and objects are
   * read as carrying no parameters.
   */
  function JsonInitDataText(v: Json): string
  {
    match v
    case JStr(s) => s
    case JNum(_) => JsString(v)
    case JBool(_) => JsString(v)
    case _ => ""
  }

  /** The `initData` property of a JSON body, when it is truthy, as the text the verifier parses. */
  function JsonInitData(initData: Prop): Option<string>
  {
    if PropTruthy(initData) then Some(JsonInitDataText(initData.value)) else None
  }

  datatype Body =
    | Message(text: string)          // { message }
    | Error(text: string)            // { error }
    | FieldErrors(fields: set<string>)  // { errors: error.flatten().fieldErrors }: the fields with an issue
    | SchemaError(fields: set<string>)  // { error: zodError.message }: the issues' fields

  datatype Response = Respond(status: int, body: Body) | Crash

  const Unauthorized := Respond(403, Error("Unauthorized"))

  /**
   * The authentication step of registration.ts and user-status.ts: a falsy `initData`
   * and every verifier error are answered 401 with the error's message.
   */
  function Authentication(p: Primitives, botToken: string, initData: Option<string>): (r: Result<Validated, Response>)
    ensures r.Success? <==> initData.Some? && Verify(p, botToken, initData.value).Success?
    ensures r.Failure? ==> r.error.Respond? && r.error.status == 401
  {
    if initData.None? then Failure(Respond(401, Error("Authentication failed: initData is missing")))
    else match Verify(p, botToken, initData.value)
      case Failure(e) => Failure(Respond(401, Error("Authentication failed: " + e.Message())))
      case Success(v) => Success(v)
  }

  method Authenticate(p: Primitives, botToken: string, initData: Option<string>) returns (r: Result<Validated, Response>)
    ensures r == Authentication(p, botToken, initData)
  {
    if initData.None? {
      return Failure(Respond(401, Error("Authentication failed: initData is missing")));
    }
    var validated := ValidateInitData(p, botToken, initData.value);
    if validated.Failure? {
      return Failure(Respond(401, Error("Authentication failed: " + validated.error.Message())));
    }
    r := Success(validated.value);
  }
}
