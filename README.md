# Loa: Telegram Mini App back end, modelled in Dafny

Loa is an Astro site that runs as a Telegram Mini App for a course. Its back end is a
handful of API routes. Every route trusts a caller only after checking the Telegram
`initData` string the client sends: Telegram's HMAC-SHA256 signature over the sorted
`key=value` lines. This project models:

- `validateInitData` (`src/lib/utils.ts`): the verifier. It is a pure function
  (`InitData.Verify`) and also a method (`InitData.ValidateInitData`) that runs on a mutable
  `URLSearchParams` object (`UrlParams.SearchParams`: parse, `get`, `delete` in place and a
  stable in-place `sort`).
- `checkAdmin`, which is copied into three routes (`Admin`).
- The five POST routes. Each is a method on a `Store.Supabase` object, which stands for the
  Supabase service:
  - registration (`Registration`)
  - course materials (`Materials`)
  - user status (`UserStatus`)
  - administrator review of a user (`UserManagement`)
  - announcements (`Announcements`)
- The development script `generate-init-data.mjs` (`GenerateInitData`). It signs a test user's
  data, and the model proves that the verifier accepts the result and that `checkAdmin`
  admits it.
- The translation lookup `useTranslations(lang)(key)` (`I18n`).

Supporting modules:

- `JsValues`: parsed JSON values and the JavaScript property reads the handlers do.
- `JsStrings`: `split`, `join`, `parseInt`, number-to-text and ASCII `toUpperCase`.
- `Crypto`: lowercase hex encoding and the two-step HMAC key derivation.
- `Requests`: form data, JSON bodies and responses.

The store keeps its state together with a log of every operation it served.
`Supabase.Valid()` says that the state is the replay of that log from the initial state.
Every handler keeps this invariant. Every handler's contract then states:

- the answer it gives before touching the store, as a pure `…Request` function;
- which store operations it logs, in order, and the response each outcome leads to.

Platform primitives are fields of a `Platform.Primitives` value that is passed in, and
lemmas that need properties of them take those properties as hypotheses. The primitives are:
HMAC-SHA256, UTF-8, the urlencoded form codec, `JSON.parse`/`JSON.stringify`, `Number()`,
and Zod's e-mail and UUID checks.

Where the code and its documentation disagree, the model follows the code:

- The secret key is HMAC-SHA256 keyed by the text `WebAppData` over the bot token.
- The verified result keeps the `hash` field: `{...userData, user}` is built before `hash` is
  deleted.
- A store error in the review and announcement routes is answered with 400, not 500, because
  the rethrown error lands in the `catch`, which always answers 400.
- The names are sorted by UTF-16 code unit, and `URLSearchParams.sort` is stable. A name with a
  character beyond U+FFFF therefore sorts by its surrogate pair, before names that start with
  U+E000 to U+FFFF.

## Model

| member | source | states |
|---|---|---|
| InitData.ValidateInitData | src/lib/utils.ts:9-38 | The step-by-step verifier returns exactly the verdict of the pure specification `Verify`. It parses, reads `hash`, deletes it in place, sorts in place, joins the `key=value` lines, signs, compares, and parses `user`. |
| InitData.Verify | src/lib/utils.ts:9-38 | The specification of the verifier: the verdict on the parsed initData. |
| InitData.VerifyParams | src/lib/utils.ts:11-37 | The verdict on a parsed list: "hash missing" for an absent or empty `hash`, "invalid hash" when the signature differs, the parse error of `user`, or the fields with the parsed user. |
| InitData.ParseUser | src/lib/utils.ts:32 | `JSON.parse(userData.user)`; an absent `user` reaches the parser as the text "undefined". |
| InitData.CanonicalCheckString | src/lib/utils.ts:18-23 | The list without `hash`, stably sorted by name, as `name=value` lines joined by line breaks. |
| InitData.MissingUserRejected | src/lib/utils.ts:32 | An authentic list without a `user` pair is still rejected, because `JSON.parse` throws on the text "undefined". |
| InitData.VerifyOutcomes | src/lib/utils.ts:11-32 | The verdict is "hash missing" exactly when `hash` is absent or empty. It is "invalid hash" exactly when a nonempty `hash` differs from the signature of the canonical check string. It is success exactly when the signature matches and `user` parses. Nothing else is checked; in particular `auth_date` is never checked against an age limit. |
| InitData.NonLowerHexHashRejected | src/lib/utils.ts:26-30 | A `hash` that holds any character other than a lowercase hex digit is always rejected as invalid, because `digest('hex')` only produces lowercase hex. |
| InitData.VerdictDependsOn | src/lib/utils.ts:11-32 | Two parameter lists with the same first `hash`, the same canonical check string and the same `fromEntries` map get the same verdict. |
| InitData.TamperedCheckStringRejected | src/lib/utils.ts:18-30 | If a list was accepted, a list with the same `hash` but a different canonical check string is rejected as invalid. This assumes a collision-free HMAC and injective UTF-8. |
| InitData.SignatureBindsMessage | src/lib/utils.ts:25-26 | Under the same assumption, equal signatures mean equal check strings. |
| InitData.CheckStringAmbiguous | src/lib/utils.ts:21-23 | The check string does not escape line breaks: the single pair `a` = "1\nb=2" has the same check string as the two pairs `a=1` and `b=2`. |
| InitData.FromEntriesWithout | src/lib/utils.ts:12 | `Object.fromEntries` without one name holds exactly the other names received. Each of them maps to the value of its last occurrence. |
| InitData.ValidatedFields | src/lib/utils.ts:12-37 | A successful result holds every received name except `user`, each with its last value. `hash` is among them and `user` is not a field. |
| InitData.RemoveNamePermutation | src/lib/utils.ts:18 | Deleting a name from two permutations of a list with one value per name leaves permutations of each other. |
| InitData.VerifyIgnoresOrder | src/lib/utils.ts:10-32 | When each name has one value, the order of the pairs in initData does not change the verdict. |
| UrlParams.SearchParams.constructor | src/lib/utils.ts:10 | `new URLSearchParams(initData)` holds the parsed list of name/value pairs. |
| UrlParams.SearchParams.Delete | src/lib/utils.ts:18 | `delete('hash')` removes every pair with that name and keeps the others in order. |
| UrlParams.SearchParams.Sort | src/lib/utils.ts:19 | `sort()` replaces the list by its stable sort by name. The result is sorted, a permutation of the old list, and keeps each name's values in their old order. |
| UrlParams.ParseQuery | src/lib/utils.ts:10 | `new URLSearchParams(init)`: a leading `?` is dropped, the rest is split on `&`, empty sequences are skipped, and each sequence is split at its first `=`. |
| UrlParams.NameWithoutValue | src/lib/utils.ts:10 | A sequence without `=` is the decoded name with the empty value. |
| UrlParams.Serialize | generate-init-data.mjs:41 | `toString()`: every pair encoded as `name=value`, joined with `&`. |
| UrlParams.Below | src/lib/utils.ts:19 | The order `sort()` uses: lexicographic order of the names' UTF-16 code units. |
| UrlParams.BelowTotal | src/lib/utils.ts:19 | Of two different names, one sorts before the other. |
| UrlParams.BelowTransitive | src/lib/utils.ts:19 | The order is transitive. |
| UrlParams.AstralBeforeHighBmp | src/lib/utils.ts:19 | U+1F600 (code units D83D DE00) sorts before U+FF01, although it is the larger code point. |
| UrlParams.FirstValue | src/lib/utils.ts:11 | `get(name)` returns the value of the first pair with that name, or none when no pair has the name. |
| UrlParams.FromEntries | src/lib/utils.ts:12 | Every key of the map was received with its value, and every received name is a key. |
| UrlParams.FromEntriesLastWins | src/lib/utils.ts:12 | A name maps to the value of its last occurrence. |
| UrlParams.RemoveName | src/lib/utils.ts:18 | No pair with the deleted name remains. |
| UrlParams.RemoveNameCount | src/lib/utils.ts:18 | Delete keeps each other pair exactly as often as before and drops every pair with the name. |
| UrlParams.SortByName | src/lib/utils.ts:19 | The sorted list is a permutation of the input. |
| UrlParams.SortByNameSorted | src/lib/utils.ts:19 | The sorted list is ordered by name. |
| UrlParams.SortByNameStable | src/lib/utils.ts:19 | The sort is stable: the subsequence of pairs with any given name is unchanged. |
| UrlParams.InsertSorted | src/lib/utils.ts:19 | Inserting a pair into a sorted list keeps it sorted. |
| UrlParams.InsertNamed | src/lib/utils.ts:19 | Inserting a pair places it after every pair with the same name. |
| UrlParams.SortedUnique | src/lib/utils.ts:19 | Two sorted permutations of a list with one value per name are equal. |
| UrlParams.SortByNamePermutation | src/lib/utils.ts:19-23 | Permutations of a list with one value per name sort to the same list, so they give the same check string. |
| UrlParams.FirstValuePermutation | src/lib/utils.ts:11 | `get` gives the same answer on permutations of a list with one value per name. |
| UrlParams.FromEntriesPermutation | src/lib/utils.ts:12 | `Object.fromEntries` gives the same map on permutations of a list with one value per name. |
| UrlParams.ParseSerialize | generate-init-data.mjs:41 | Parsing the serialization of a pair list gives the same list back, when the codec decodes what it encodes and escapes `&`, `=` and `?`. |
| UrlParams.ParsePiecesOfSerialized | generate-init-data.mjs:41 | Each serialized `name=value` piece parses back to its pair. |
| Crypto.Hex | src/lib/utils.ts:26 | `digest('hex')` has two lowercase hex digits per byte. |
| Crypto.HexInjective | src/lib/utils.ts:26-28 | Different digests have different hex texts, so comparing the hex compares the digests. |
| Crypto.SecretKey | src/lib/utils.ts:25 | The secret key is HMAC-SHA256 keyed by the UTF-8 of `WebAppData` over the UTF-8 of the bot token. |
| Crypto.SignatureHex | src/lib/utils.ts:25-26 | The signature is the lowercase hex of HMAC-SHA256 keyed by the secret key over the UTF-8 check string. |
| Admin.AdminList | src/pages/api/materials.ts:16 | The split of `ADMIN_TELEGRAM_IDS`, or of "" when the variable is unset, has at least one entry. |
| Admin.ListsUser | src/pages/api/materials.ts:19 | `adminIds.includes(user.id.toString())`, false where that expression throws. |
| Admin.CheckAdmin | src/pages/api/materials.ts:15-23 | `checkAdmin`: false when verification throws, otherwise whether the verified user is listed. |
| Admin.ListsUserCharacterized | src/pages/api/materials.ts:19 | `adminIds.includes(user.id.toString())` holds exactly when the user is an object whose `id` is present, not null, and listed as text. A `null` user, an array user or a missing `id` throws, and the throw yields false. |
| Admin.CheckAdminCharacterized | src/pages/api/materials.ts:15-23 | `checkAdmin` is true exactly when the initData verifies and the verified user's `id`, as text, is in the list. |
| Admin.NumericIdAdmitted | src/pages/api/materials.ts:15-23 | For a verified user with numeric `id` n of magnitude below 10^21 (where `toString` still writes plain decimal), `checkAdmin` is true exactly when the decimal text of n is listed. |
| Admin.UnsetListAdmitsOnlyEmptyId | src/pages/api/materials.ts:16-19 | With the list unset or empty, the list is [""]. Only a user whose `id` renders as "" is admitted, and a numeric `id` never is. |
| Requests.Authentication | src/pages/api/registration.ts:26-32 | Authentication succeeds exactly when `initData` is truthy and verifies. Every failure is a 401. |
| Requests.Authenticate | src/pages/api/registration.ts:26-32 | The try/catch block returns the verdict of `Authentication`. |
| Requests.UploadPathExtension | src/pages/api/registration.ts:65-66 | An upload path is `folder/<ms>.<ext>`, where ext is the text after the file name's last dot. When the name has no dot, ext is the whole name. |
| Registration.AcceptedApplicant | src/pages/api/registration.ts:7-17 | A form the schema accepts yields an applicant that meets every constraint: name, age 12 to 60, grade, phone, e-mail, receipt under 5 MiB of an image type, and language `en` or `am`. |
| Registration.OneUnitPerChar | src/pages/api/registration.ts:8-11 | Name and phone characters lie below U+10000, so for them Zod's code-unit length is the character count. |
| Registration.RegistrationIssues | src/pages/api/registration.ts:7-17 | The fields the schema rejects: name, age (coerced by `Number()`, an integer from 12 to 60), grade, phone, e-mail, receipt and language. |
| Registration.FileOrEmptyAgeRejected | src/pages/api/registration.ts:9 | An `age` sent as a file (NaN) or as empty text (0) is an issue. |
| Registration.RegistrationRequest | src/pages/api/registration.ts:20-44 | The answer before the store: 401 when authentication fails, a crash on a `null` user, 400 with the schema's issues, or the applicant to store. |
| Registration.HandleRegistration | src/pages/api/registration.ts:20-102 | A rejected request (401, 400, or a crash on a `null` user) leaves the store untouched. An accepted request logs the duplicate check, then either answers at once or logs the receipt upload and the insert, with the answer each store reply leads to. The store invariant holds afterwards. |
| Registration.Register | src/pages/api/registration.ts:48-94 | The duplicate check is logged first, and the later calls follow the registration trace. |
| Registration.AnswerLookup | src/pages/api/registration.ts:55-94 | After the duplicate check, an error other than PGRST116 gives 500, an existing row gives 409, and otherwise the receipt is uploaded and the row inserted. |
| Registration.StoreReceiptAndUser | src/pages/api/registration.ts:63-94 | The receipt is uploaded to `<telegram_id>/<ms>.<ext>`. If the upload fails the answer is 500. Otherwise the row is inserted, and the answer is 500 on failure or 201 on success. |
| Registration.RepeatRegistrationConflicts | src/pages/api/registration.ts:49-87 | After a successful insert for a defined id, the duplicate check for the same id finds the row, so a second registration is answered 409. |
| Registration.UndefinedIdNeverConflicts | src/pages/api/registration.ts:34-79 | A user without an `id` registers a row that the `telegram_id = 'undefined'` duplicate check never matches. |
| Materials.HandleMaterials | src/pages/api/materials.ts:26-90 | A non-admin (403), a missing delete key or a failure of the schema as written (400, which includes a missing description), or a file sent as `_method` (a crash) is answered without touching the store. An accepted delete or create logs exactly the store calls of the materials trace and answers accordingly. |
| Materials.MaterialsRequest | src/pages/api/materials.ts:26-62 | The answer before the store: 403, the delete of an `id` and `file_url`, 400 for a missing one, 400 with the issues of the schema as written, a crash for a file `_method`, or the material to create. |
| Materials.MaterialIssuesAsWritten | src/pages/api/materials.ts:7-13 | The fields the schema as written rejects: a title shorter than 3, a description that is not text (a missing entry is `null`), and a file that is missing, 50 MiB or more, or not a PDF, MP4 or Word document. |
| Materials.MissingDescriptionAnswered400 | src/pages/api/materials.ts:58-62 | An administrator's create with a valid title and file but no description is answered 400, with the issue on `description`. |
| Materials.RemoveMaterial | src/pages/api/materials.ts:45-52 | A delete removes the file from storage and then the row. A storage failure is ignored. A DB failure gives 500 "DB Error: …", and success gives 200. |
| Materials.AddMaterial | src/pages/api/materials.ts:65-90 | A create uploads to `protected/<ms>.<ext>`. A failed upload gives 500. Otherwise it inserts the metadata row, and the answer is 500 on failure or 201 on success. |
| Materials.MaterialsNeedAdmin | src/pages/api/materials.ts:28-33 | A form whose `initData` is missing or not an administrator's is answered 403 Unauthorized. |
| Materials.DeleteOverride | src/pages/api/materials.ts:29-38 | `_method` selects the delete path case-insensitively: "delete", "Delete" and "DELETE" do, and "DELETE ", "POST" and "PATCH" do not. |
| Materials.IsDeleteCharacterized | src/pages/api/materials.ts:38 | `method.toUpperCase() === 'DELETE'` holds exactly when the method has six characters, each the upper- or lower-case letter of "delete" at its place. |
| Materials.AbsentDescriptionRejectedAsWritten | src/pages/api/materials.ts:58-62 | As written, a valid title and file without a description are rejected, with an issue on `description`. |
| Materials.DescriptionIsOptional | src/pages/api/materials.ts:58-62 | With the correction (`nullish()`), a missing description is no issue. A form is accepted exactly when the title and file are valid and a present description is text. The schema as written differs only in the missing case. |
| UserStatus.HandleStatusUpdate | src/pages/api/user-status.ts:10-43 | A rejected request (401, 400 or a crash) leaves the store untouched. An accepted one logs one update and answers 500 on a store error or 200 otherwise, and the new state is that update applied. |
| UserStatus.StatusRequest | src/pages/api/user-status.ts:10-29 | The answer before the store: 401, a crash on a `null` body or user, 400 for a status other than "Paused" or "Active", or the update of the caller's row. |
| UserStatus.StatusUpdateIsOwnRow | src/pages/api/user-status.ts:11-35 | An accepted request verified its initData. It updates only the row whose `telegram_id` is the caller's own id, setting just `status` ("Paused" or "Active") and `updated_at`. |
| UserManagement.ReviewIssues | src/pages/api/admin/user-management.ts:6-9 | `userId` passes exactly when it is a UUID string, and `status` exactly when it is "Active" or "Rejected". |
| UserManagement.HandleUserReview | src/pages/api/admin/user-management.ts:21-41 | A rejected request (403, 400 or a crash) leaves the store untouched. An accepted one logs one update and answers 400 with the store's message on error or 200 otherwise. |
| UserManagement.ReviewNeedsAdmin | src/pages/api/admin/user-management.ts:21-33 | An accepted review came with a non-null body whose `initData` is an administrator's. |
| UserManagement.ReviewSetsStatus | src/pages/api/admin/user-management.ts:28-33 | An accepted review updates the row whose `id` is a UUID, setting only `status` ("Active" or "Rejected") and `updated_at`. |
| UserManagement.ReviewRequest | src/pages/api/admin/user-management.ts:21-29 | The answer before the store: 403, a crash on a `null` body, 400 for a bad `userId` or `status`, or the update. |
| Announcements.HandleAnnouncement | src/pages/api/announcements.ts:20-40 | A rejected request (403, 400 or a crash) leaves the store untouched. An accepted one logs one insert and answers 400 with the store's message on error or 201 otherwise. |
| Announcements.AnnouncementRequest | src/pages/api/announcements.ts:20-28 | The answer before the store: 403, a crash on a `null` body, 400 for content shorter than 10, or the insert. |
| Announcements.PostedAnnouncementIsStored | src/pages/api/announcements.ts:21-32 | An accepted announcement came from an administrator and holds at least 10 UTF-16 code units. When the service does not refuse, it is appended as the only new row of `announcements`, and no other table changes. |
| Store.Supabase.constructor | src/pages/api/registration.ts:46 | A fresh client starts from the given state with an empty log and a valid invariant. |
| Store.Supabase.Perform | src/pages/api/registration.ts:49-53 | One call logs its operation and reply, moves the state by that operation, and keeps the state equal to the replay of the log. |
| Store.Outcome | src/pages/api/registration.ts:49-87 | The reply to one call: the refusal if any, PGRST116 for `.single()` without exactly one match, otherwise the selected column of the one match; an error for an upload to a taken path; success for every other call. |
| Store.After | src/pages/api/registration.ts:49-87 | The state after one call: unchanged on an error, otherwise moved by the insert, update, delete, upload or removal. |
| Store.InsertedRowIsSingle | src/pages/api/registration.ts:49-87 | After inserting a matching row into a table with no match, `.single()` finds exactly that row, projected on the selected column. |
| Store.UploadedPathIsTaken | src/pages/api/registration.ts:68-72 | Once a path is uploaded, a second upload to it fails and changes nothing. |
| Store.DeleteKeepsNonMatching | src/pages/api/materials.ts:49 | `.delete().eq(…)` keeps exactly the rows that do not match. |
| Store.UpdateTouchesMatching | src/pages/api/user-status.ts:30-33 | `.update(patch).eq(…)` patches exactly the matching rows and leaves the others as they were. |
| GenerateInitData.Generate | generate-init-data.mjs:10-14 | The script aborts exactly when `ADMIN_TELEGRAM_IDS` or `TELEGRAM_BOT_TOKEN` is unset or empty. |
| GenerateInitData.GeneratedParams | generate-init-data.mjs:25-41 | Parsing the generated string gives back `auth_date`, `query_id` and `user`, followed by `hash`, the signature of their sorted check string. |
| GenerateInitData.AppendedPair | generate-init-data.mjs:41 | For a pair appended under a new name, `get` finds it and `delete` restores the list without it. |
| GenerateInitData.SignedListAuthentic | generate-init-data.mjs:33-41 | The appended `hash` is nonempty, is found by `get`, and equals the signature the verifier computes over the same list. |
| GenerateInitData.SignedListVerifies | generate-init-data.mjs:27-41 | A list without `hash`, whose `user` parses, verifies once its signature is appended. The result holds the parsed user and every other field. |
| GenerateInitData.GeneratedEntries | generate-init-data.mjs:27-41 | The validated fields of a generated list are exactly `auth_date`, `query_id` and `hash`, with their values. |
| GenerateInitData.SignedFieldsVerify | generate-init-data.mjs:25-41 | The signed three-field list verifies, with exactly those fields and the parsed user. |
| GenerateInitData.GeneratedInitDataVerifies | generate-init-data.mjs:16-41 | The generated initData verifies under the same bot token. Its user is the test user, `auth_date` is the seconds of the clock, and `query_id` is the fixed query id. |
| GenerateInitData.TestUserId | generate-init-data.mjs:17 | When the first entry of `ADMIN_TELEGRAM_IDS` is the decimal text of a safe integer (magnitude below 2^53), the test user's `id` is that number. |
| GenerateInitData.GeneratedInitDataIsAdmin | generate-init-data.mjs:16-41 | When the first admin entry is the canonical decimal text of a safe integer, `checkAdmin` admits the generated initData. |
| JsStrings.ParseIntDecimal | generate-init-data.mjs:17 | `parseInt(text, 10)` of a safe integer's decimal text gives the number back. |
| JsStrings.ParseInt | generate-init-data.mjs:17 | `parseInt(text, 10)`: optional blanks and sign, then the longest run of decimal digits; NaN (none) without a digit. |
| JsStrings.Split | src/lib/i18n.ts:9 | `split` yields at least one piece, and no piece contains the separator. |
| JsStrings.JoinSplit | src/lib/i18n.ts:9 | Joining the pieces of a split with the separator gives back the text. |
| JsStrings.SplitJoin | src/lib/i18n.ts:9 | Splitting the join of separator-free pieces gives back the pieces. |
| JsStrings.LastPieceIsSuffix | src/pages/api/materials.ts:65 | `split('.').pop()` is the dot-free suffix after the last dot, or the whole name when there is no dot. |
| JsStrings.LastPiece | src/pages/api/materials.ts:65 | `split(sep).pop()`: the last piece of the split. |
| JsStrings.CodeUnits | src/lib/utils.ts:19 | A character is one UTF-16 code unit below U+10000 and a surrogate pair above; a pair is exactly a unit in D800 to DBFF followed by another. |
| JsStrings.Utf16Injective | src/lib/utils.ts:19 | Different strings have different UTF-16 encodings, so the sort order is total on names. |
| JsStrings.Decimal | src/pages/api/materials.ts:19 | A number's text is nonempty and starts with '-' exactly for negative numbers. |
| JsStrings.UpperCase | src/pages/api/materials.ts:38 | ASCII `toUpperCase`: maps a–z to A–Z and keeps every other character, so the length is kept. |
| JsStrings.UpperCaseIdempotent | src/pages/api/materials.ts:38 | Upper-casing twice is upper-casing once, and the result holds no letter a–z. |
| JsStrings.Utf16Length | src/pages/api/registration.ts:8-11 | A string's code-unit length, which Zod's `min` counts, is at most twice its character count, and equal to it when no character lies beyond U+FFFF. |
| JsValues.GetProp | src/pages/api/registration.ts:34 | Reading a property of `null` throws, and an object's property is defined exactly when it is an own key. This is exact for the names the core reads (`id`, `initData`, `status`, `userId`, `content`), which no object inherits. Inherited properties such as `toString` are not modelled. |
| JsValues.CallToString | src/pages/api/materials.ts:19 | `.toString()` succeeds exactly on a defined, non-null value. For a number it is the number's decimal text. |
| JsValues.ArrayIndexSound | src/lib/i18n.ts:12 | An array has a property exactly for the canonical decimal text of an index below its length. |
| I18n.Translate | src/lib/i18n.ts:7-20 | The loop returns the `Translation` of the key: the string at the key's dotted path in the chosen table, or the key itself. |
| I18n.Translation | src/lib/i18n.ts:7-20 | The string at the key's dotted path in the chosen table, or the key itself. |
| I18n.Step | src/lib/i18n.ts:12-13 | A step succeeds only into an object or array, and into an object exactly when the segment is one of its keys. |
| I18n.WalkAppend | src/lib/i18n.ts:11-18 | Walking a path in two pieces is the same as walking it whole. |
| I18n.NestedLookup | src/lib/i18n.ts:9-18 | The key `head.rest` is looked up as `rest` inside the member `head`. |
| I18n.SingleSegmentLookup | src/lib/i18n.ts:9-19 | A key without a dot names the table's own entry when that entry is a string. |
| I18n.PathTranslation | src/lib/i18n.ts:9-19 | For dot-free segments, the translation of their dotted join is the string at their path, or the key when no string is there. |
| I18n.MissingSegmentYieldsKey | src/lib/i18n.ts:12-16 | A walk that stops at any segment returns the key, whatever the later segments are. |
| I18n.NonStringYieldsKey | src/lib/i18n.ts:19 | A path that ends on a value other than a string returns the key. |
| I18n.TranslationIsKeyOrEntry | src/lib/i18n.ts:7-20 | Every translation is the key or a string stored somewhere in that language's table. |

## Left out

- Cryptography and encodings are parameters, not definitions. This covers HMAC-SHA256, UTF-8, percent-decoding and percent-encoding, and `JSON.parse`/`JSON.stringify`. Lemmas state the properties they use as hypotheses.
- The clock (`Date.now()`, `new Date().getTime()`, `toISOString()`) is an input: `nowMs` and `nowIso`.
- Console output, the environment file loading in the script, and `process.exit` are not modelled. `Generate` returns the failure message instead of exiting.
- `createSupabaseAdmin` (src/lib/supabase.ts) is not part of this model. Its own failure, and the 500 "An unexpected error occurred." it would lead to in the registration route, are not modelled.
- `request.formData()` and `request.json()` failing on a malformed body are not modelled. A crash is modelled only for the `null` JSON body, for a verified `null` user, and for a file sent as `_method` in the materials route (`toUpperCase` of a `File`).
- Materials.MaterialsRequest: a file sent as `file_url` is read as its text "[object File]", so the model removes a stored path of that name. The storage client would send the file inside `{prefixes: […]}`, where it serializes as `{}`. The reply is ignored either way, but the model's storage state can differ.
- Numbers are exact integers. JSON numbers with fractions or exponents, `Number()` coercion beyond integers, and the rounding of integers beyond 2^53 are not represented.
- JsStrings.ParseInt: returns the exact integer; JavaScript rounds a result beyond 2^53 to the nearest double. `ParseIntDecimal`, `TestUserId` and `GeneratedInitDataIsAdmin` therefore require a safe integer.
- JsValues.CallToString: writes every number in plain decimal; JavaScript switches to exponent form from 10^21 on. `NumericIdAdmitted` therefore requires a magnitude below 10^21.
- JsStrings.Decimal: the plain decimal text of an integer, which is what JavaScript writes only below 10^21.
- Zod's messages are left out: a 400 carries only the set of fields with an issue.
- Zod's `min` counts UTF-16 code units, as the model does. An accepted title or announcement can therefore hold fewer characters than its minimum when some lie beyond U+FFFF.
- JsStrings.UpperCase: maps ASCII letters only. JavaScript also upper-cases other letters ("é" to "É") and can lengthen a string ("ß" to "SS", U+FB06 to "ST"). `IsDelete` is unaffected, because no character outside ASCII upper-cases into the letters of "DELETE".
- Requests.JsonInitData: an object or array `initData` in a JSON body is read as "", which fails. `URLSearchParams` reads an object as a record of name/value pairs and an array as a list of pairs, which may verify, so the model rejects such bodies where the source may accept them.
- Requests.FormInitData: a `File` in the `initData` form field is treated as "", because a `File` has no own enumerable properties for `URLSearchParams` to read.
- I18n.Step: the `in` test follows only own properties. Inherited ones, such as prototype methods and an array's `length`, never lead to a string, so the model ends the walk there as it does for a missing segment.
- The store does not model column types, NULL handling or constraints. Any operation may be refused through the `refuse` oracle, and the only intrinsic refusals are `.single()` without exactly one match and an upload to a taken path.
- Concurrency between requests is not modelled: each handler runs alone on the store.
- An unset `TELEGRAM_BOT_TOKEN` is not modelled: `update(undefined)` would throw, while the model's token is always a string.

## Findings

| source | as written | input that shows it | evidently intended | confidence | as-written member | corrected member |
|---|---|---|---|---|---|---|
| src/pages/api/materials.ts:9 | `description: z.string().optional()` is fed `formData.get('description')` (line 60), which is `null` for a missing entry. `optional()` admits only `undefined`, so the upload is rejected with 400. | a form with title "Lecture 1" and a 1000-byte PDF `notes.pdf`, and no `description` entry | the description is optional: the upload is stored without one | not executed | Materials.MissingDescriptionAnswered400 | Materials.DescriptionIsOptional |
