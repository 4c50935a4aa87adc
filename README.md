# A verified model of the teacher/student REST core

This project models the core of a small Go REST API for a school
administration service, and proves properties of that model in Dafny.

- **Entity handlers.** `internal/api/handlers/teachers.go` and
  `students.go` implement GET-one, PUT, single PATCH, bulk PATCH, POST,
  single DELETE and bulk DELETE over a SQL table.
  - Here the table is a `map<int, Entity>` plus an AUTO_INCREMENT counter, the
    fields of the class `EntityTable.Table`.
  - A transaction is a local copy of the map that the handler's loop writes.
    Commit assigns it to the table; every rollback drops it.
  - Driver failures (Begin, Prepare, the n-th single-row SELECT, the n-th
    Exec, Commit) are an input of type `Faults`.
  - The struct type is a parameter `Schema`: one `Field(tag, kind, exported)`
    per struct field, field 0 being the integer ID. The allowed-field set
    and the blank-field test are parameters too.
- **Reflective merges.** The bulk PATCH and the single PATCH each merge a
  decoded JSON object into a struct through `reflect`. Both are methods with
  loops over the patch keys (`Merge.MergeBulk`, `Merge.MergeOne`), proved
  against field-by-field reference definitions.
- **teachers.go versus students.go.** The two files differ only in whether
  their SQL agrees with their Go bindings. This is the value `Binding`: whether
  a Scan has one destination per selected column, and whether an UPDATE has
  one argument per placeholder.
- **CORS gate.** `internal/api/middlewares/cors.go` implements the gate.
  The response writer is an `Http.Exchange` value threaded through handlers:
  - response headers;
  - status;
  - body;
  - lines printed on standard output.
- **Middleware chaining.** `ApplyMiddlewares` in
  `pkg/utils/middlewaresutils.go` is a loop that wraps the handler once per
  middleware, so the middleware listed last is outermost.
- **Stage list.** `cmd/api/server.go:93` passes the router to
  `ApplyMiddlewares` together with seven stages. CORS is the last of them,
  so it is the first to see a request.

The single-row handlers and the whole tables are written against
teachers.go. students.go has the same structure at the same line numbers;
`Handlers` instantiates the table with each file's `Binding`.

Two behaviours of the code are easy to misread:

- **Which stage is outermost.** `ApplyMiddlewares` wraps the handler in
  each middleware in list order, so the middleware listed LAST is the
  outermost one and sees a request first (`Middlewares.LastIsOutermost`).
- **Unknown patch keys.** A patch key that names no field is silently
  ignored by both merges, not rejected (`Merge.BulkIgnoresUnknownKey`,
  `Merge.OneIgnoresUnknownKey`).

## Model

| member | source | states |
|---|---|---|
| Values.TruncateToInt | internal/api/handlers/teachers.go:332 | converting a JSON number to an int field drops the fraction toward zero: the result lies within one of the input, on the input's side of zero |
| Values.ConvertibleTo | internal/api/handlers/teachers.go:331 | null and objects or arrays convert to nothing; a string converts only to a string field and a bool only to a bool field (a number to an int or float field) |
| Values.Convert | internal/api/handlers/teachers.go:331-332 | a value that is ConvertibleTo a field's kind converts to a cell of exactly that kind |
| Strconv.Atoi | internal/api/handlers/teachers.go:81 | a parsed ID is inside the int64 range, comes from a string starting with a digit or a sign, and is negative only after a '-' |
| Strconv.AtoiItoa | internal/api/handlers/teachers.go:81 | every int64 written in decimal is parsed back to itself |
| Strconv.AtoiIsStrict | internal/api/handlers/teachers.go:81 | trailing text, a leading blank, an empty string or a bare sign is an invalid ID |
| Merge.TargetsIffKeyOf | internal/api/handlers/teachers.go:327 | a field answers to key k exactly when its json tag is k followed by ",omitempty" |
| Merge.FirstTarget | internal/api/handlers/teachers.go:325-340 | the bulk search stops at a field the key targets, and no earlier field is targeted by it |
| Merge.MergeBulk | internal/api/handlers/teachers.go:321-342 | the bulk merge succeeds iff no key reaches a settable field its value cannot convert to (a null included); on success the result is the field-by-field bulk merge whatever the key order; a refusal for a null (for an inconvertible value) means some key refuses with a null (a non-null) value |
| Merge.BulkSetsFirstTarget | internal/api/handlers/teachers.go:325-340 | after a successful bulk merge, a key other than "id" holds the converted value in the first field it targets, when that field is settable; a later field with the same tag is never written |
| Merge.BulkKeepsUnnamed | internal/api/handlers/teachers.go:321-342 | a field that no key sets keeps its stored value |
| Merge.BulkIgnoresId | internal/api/handlers/teachers.go:322-324 | removing the "id" key changes neither whether the bulk merge refuses nor its result |
| Merge.BulkIgnoresUnknownKey | internal/api/handlers/teachers.go:325-327 | removing a key that matches no tag changes neither whether the bulk merge refuses nor its result |
| Merge.OneIgnoresUnknownKey | internal/api/handlers/teachers.go:405-415 | removing a key that matches no tag changes neither whether the single-row merge panics nor its result |
| Merge.BulkKeepsId | internal/api/handlers/teachers.go:322-324 | when the ID field is tagged "id,omitempty", no bulk patch changes the ID |
| Merge.MergeOne | internal/api/handlers/teachers.go:405-415 | the single-row merge completes iff no key reaches a settable field it cannot convert to; otherwise it stops (a panic); on success the result is the field-by-field single merge |
| Merge.OneSetsEveryTarget | internal/api/handlers/teachers.go:406-413 | after a successful single-row merge, every settable field a key targets holds that key's converted value |
| Merge.OneKeepsUnnamed | internal/api/handlers/teachers.go:405-415 | a field no key targets keeps its stored value |
| Merge.BulkAgreesWithOne | internal/api/handlers/teachers.go:405-415 | without an "id" key and with distinct tags, the two merges refuse on the same patches and produce the same row |
| EntityTable.ReadRow | internal/api/handlers/teachers.go:89-101 | the single-row SELECT and Scan give the stored row exactly when the query does not fail, the row exists and Scan has one destination per column; a missing row is "not found", a driver failure or a Scan mismatch an internal error |
| EntityTable.UpdateWhere | internal/api/handlers/teachers.go:344 | an UPDATE keyed by the struct's ID keeps the set of IDs; it writes that row and only that row, and writes nothing when the ID is absent |
| EntityTable.EntryWrite | internal/api/handlers/teachers.go:288-342 | what one bulk PATCH object writes is a well-formed row, and nothing is written when its SELECT fails |
| EntityTable.PatchRun | internal/api/handlers/teachers.go:287-352 | applying bulk objects in order keeps the set of IDs and a well-formed table |
| EntityTable.Table.BulkEntry | internal/api/handlers/teachers.go:288-342 | the per-object checks of the bulk loop (string ID, ID that parses, SELECT that succeeds and finds and scans the row, merge) compute exactly the object's write, which is a well-formed row |
| EntityTable.Table.ApplyEntries | internal/api/handlers/teachers.go:287-352 | the loop over the objects, writing into the transaction's copy, ends in exactly the reference result of applying them in order |
| EntityTable.PatchRunOkIff | internal/api/handlers/teachers.go:287-359 | all or nothing: the batch reaches Commit iff every object has a string ID that parses, its SELECT succeeds and finds its row, it merges, and its UPDATE succeeds |
| EntityTable.PatchRunUntouched | internal/api/handlers/teachers.go:344 | a row no object addresses is unchanged by the batch |
| EntityTable.PatchRunLastWins | internal/api/handlers/teachers.go:305 | the last object for an ID decides that row, merged from the row as it was before the batch, so earlier objects for the same ID are lost |
| EntityTable.DeleteRunSpec | internal/api/handlers/teachers.go:505-548 | the deletes succeed iff no Exec fails and the IDs are distinct and all present; on success exactly the listed rows are gone |
| EntityTable.Added | internal/api/handlers/teachers.go:176-194 | the POST response lists one struct per item, item i carrying ID start+i and its own other fields |
| EntityTable.InsertedSpec | internal/api/handlers/teachers.go:176-194 | inserting n items keeps every existing row, adds exactly the IDs start..start+n-1, grows the table by n, and stores item i under start+i as the response lists it |
| EntityTable.CheckKeysAllowed | internal/api/handlers/teachers.go:140-149 | the whitelist check passes iff every key of every object is allowed |
| EntityTable.CheckNoneBlank | internal/api/handlers/teachers.go:158-165 | the blank check passes iff no item is blank |
| EntityTable.Table.GetOne | internal/api/handlers/teachers.go:81-101 | invalid path ID, not found, a failing query or Scan (internal error), or exactly the stored row with its own ID |
| EntityTable.Table.Replace | internal/api/handlers/teachers.go:212-257 | PUT succeeds iff the ID parses, the SELECT succeeds and finds the row, and the write succeeds; then the body with the stored ID replaces that row and nothing else; any failure leaves the table unchanged |
| EntityTable.Table.PatchOne | internal/api/handlers/teachers.go:364-425 | single PATCH writes and returns the single-row merge of the stored row, keyed by the merged ID; a failing SELECT or UPDATE, a missing row or a panic leaves the table unchanged |
| EntityTable.Table.PatchMany | internal/api/handlers/teachers.go:262-361 | the transaction loop commits exactly the bulk PATCH reference result, and a failure anywhere (Begin, an object's checks, its SELECT or UPDATE, Commit) leaves the table unchanged with that failure's error |
| EntityTable.Table.AddMany | internal/api/handlers/teachers.go:106-209 | a disallowed key or a blank item inserts nothing; otherwise the items are inserted as the insert loop promises |
| EntityTable.Table.StoreNext | internal/api/handlers/teachers.go:180-192 | one INSERT stores the item under the current counter value, echoes it with that ID, and advances the counter by one; no other row changes |
| EntityTable.InsertedKeys | internal/api/handlers/teachers.go:176-194 | after n inserts the IDs are the old ones plus start..start+n-1 |
| EntityTable.InsertedAt | internal/api/handlers/teachers.go:180-192 | item i is stored under start+i with its own other fields |
| EntityTable.Table.InsertItems | internal/api/handlers/teachers.go:167-204 | with no failure every item is stored under the next counter value and echoed with it; a failed Prepare changes nothing; the first failing Exec k leaves items 0..k-1 stored, since there is no transaction |
| EntityTable.Table.DeleteOne | internal/api/handlers/teachers.go:430-468 | the single DELETE removes exactly the row asked for; an invalid ID, a failing Exec or a missing row change nothing and are reported as such |
| EntityTable.Table.DeleteMany | internal/api/handlers/teachers.go:472-561 | the transaction loop commits exactly the bulk DELETE reference result and returns the input IDs in order; an empty list reports that no IDs exist |
| Handlers.StudentsReadNothing | internal/api/handlers/students.go:89 | as written, reading a student always fails, with an internal error when the row exists, whether or not the query itself fails |
| Handlers.StudentsBulkPatchOnlyEmpty | internal/api/handlers/students.go:344 | as written, a bulk PATCH of students commits only when it lists no object |
| Handlers.StudentsCorrectedBulkPatch | internal/api/handlers/students.go:287-359 | with the bindings corrected, a bulk PATCH of objects that all pass their checks commits |
| Handlers.StudentsPostThenRead | internal/api/handlers/students.go:237 | as written, a student just stored by POST cannot be fetched or replaced: both answer with an internal error |
| Handlers.StudentsCorrectedPostThenRead | internal/api/handlers/students.go:212-257 | with the bindings corrected, GET returns the stored student and PUT replaces it, keeping its ID |
| Http.Get | internal/api/middlewares/cors.go:18 | a missing header reads as the empty string |
| Http.Error | internal/api/middlewares/cors.go:24 | the refusal is plain text of the message and a newline, with the given status unless one was already written; Content-Length is removed and every other header but the two it sets is kept |
| Cors.Listed | internal/api/middlewares/cors.go:43-51 | the search finds an origin iff it is in the list |
| Cors.IsOriginAllowed | internal/api/middlewares/cors.go:43-51 | an origin is allowed iff it equals one of the two listed origins exactly |
| Cors.AllowCors | internal/api/middlewares/cors.go:22-32 | Allow-Origin is the request's origin, and the five fixed headers have their fixed values; every other header, the status, the body and the output are untouched |
| Cors.ServeCors | internal/api/middlewares/cors.go:16-40 | a refused origin is logged and gets the 403 refusal; an accepted preflight is logged and gets exactly the six CORS headers of `AllowCors`, with Allow-Origin echoing its origin, and status and body untouched; any other accepted request ends with the gate's end line in the log |
| Cors.Cors | internal/api/middlewares/cors.go:14-40 | the middleware: the handler it returns serves each request as ServeCors does; its behaviour is stated by the lemmas below |
| Cors.RefusedNeverForwards | internal/api/middlewares/cors.go:21-26 | a disallowed origin gets 403 "Not Allowed By CORS", and the response does not depend on the next handler, so it never runs |
| Cors.MissingOriginRefused | internal/api/middlewares/cors.go:18-26 | a missing or empty Origin header is refused |
| Cors.PreflightStops | internal/api/middlewares/cors.go:34-36 | an allowed OPTIONS request gets exactly the logged exchange with the six CORS headers (Allow-Origin echoing the origin, Allow-Methods "GET, POST, PUT, DELETE") and does not reach the next handler |
| Cors.AcceptedForwardsOnce | internal/api/middlewares/cors.go:38-39 | any other allowed request runs the next handler once, on the exchange carrying the CORS headers |
| Cors.AcceptedLogOrder | internal/api/middlewares/cors.go:17-39 | the gate logs its entry and the origin before the next handler runs, and its end after |
| Middlewares.Chain | pkg/utils/middlewaresutils.go:9-11 | the left fold of the middleware list over the handler; LastIsOutermost and ChainAppend state its shape |
| Middlewares.ApplyMiddlewares | pkg/utils/middlewaresutils.go:8-12 | the loop yields the handler wrapped in every middleware once, in list order |
| Middlewares.NoMiddlewares | pkg/utils/middlewaresutils.go:8-12 | with no middleware the handler is unchanged |
| Middlewares.LastIsOutermost | pkg/utils/middlewaresutils.go:9-11 | the last middleware listed wraps all the others |
| Middlewares.ChainAppend | pkg/utils/middlewaresutils.go:9-11 | applying xs and then ys is applying xs followed by ys |
| Middlewares.IngressIsReversed | pkg/utils/middlewaresutils.go:9-11 | on the way in, stages run in the reverse of the listed order |
| Middlewares.ShortCircuitHidesInner | pkg/utils/middlewaresutils.go:9-11 | a stage at any position that answers some requests without its inner handler makes the handler and every stage listed before it irrelevant to those requests, provided the stages listed after it hand those requests on unchanged |
| Server.Stages | cmd/api/server.go:93 | the server lists seven stages, SecurityHeaders first and CORS last |
| Server.SecureMux | cmd/api/server.go:93 | the server's handler is the CORS gate around the other six stages around the router |
| Server.CorsAnswersRefused | internal/api/middlewares/cors.go:21-26 | the CORS gate answers every request from a refused origin by itself |
| Server.CorsPassesThrough | internal/api/middlewares/cors.go:38 | the CORS gate hands the request itself on unchanged, so it keeps any decision an inner stage takes on the request |
| Server.DisallowedOriginStopsAtCors | cmd/api/server.go:93 | a disallowed origin gets the CORS 403 whatever the router and the other six stages are |
| Server.DisallowedOriginOnFreshExchange | cmd/api/server.go:93 | a disallowed origin on a fresh response gets status 403, the body "Not Allowed By CORS" and a newline, and only the gate's entry line and the origin on standard output |
| Server.RateLimitedNeverReachesRouter | cmd/api/server.go:93 | a request the rate limiter answers by itself gets the same response whatever the router and the five stages listed before the limiter are |
| Server.EntryOrder | cmd/api/server.go:93 | with logging stand-ins for the six inner stages, a request passes the rate limiter, response timing, JWT, HPP, compression, then SecurityHeaders, then reaches the router |

## Left out

- Database plumbing: opening the connection, the DSN and failures to connect at the top of each handler are not part of this model. Driver failures enter only as `Faults`.
- JSON decoding and encoding of request and response bodies are not modelled. A bulk PATCH object arrives as a `map<string, Json>`, and the PUT and POST bodies arrive as decoded entities.
- The struct types in `internal/models` are not part of this model, and neither are `CheckFieldNames`, `CheckBlankFields`, `GenerateInsertQuery` and `GetStructValues`. The schema, the allowed-field set and the blank test are parameters.
- The GET list handlers, with their filter and sort builders (teachers.go:17-65, students.go:17-65), depend on `AddFilters`/`AddSorting`, which are not part of this model.
- EntityTable.Table.StoreNext and InsertItems: the generated INSERT (`GenerateInsertQuery`, `GetStructValues`, teachers.go:167 and 179) is assumed to write every non-ID field of the item and to let AUTO_INCREMENT choose the ID, as the commented-out statements at teachers.go:166 and 178 do; `Inserted`, `InsertedAt` and `InsertedSpec` rest on that assumption.
- EntityTable.Table.InsertItems: a failure of `LastInsertId` is not modelled. The ID of each insert is the next counter value.
- EntityTable.Table.DeleteOne and DeleteMany: a failure of `RowsAffected` is not modelled.
- HTTP status codes and response bodies of the handlers are not modelled. Many error branches only log. Outcomes are `Ok`/`Err`, with `Error` values that group failures by kind: `Internal` stands for every database failure ("Error retrieving data", "Error updating data", "Error adding data", "Error deleting data"), and `InvalidId` for a path ID that does not parse (GetOne's branch at teachers.go:81-85 logs only the conversion error) or a bulk "id" that is not a JSON string.
- Merge.MergeOne and Merge.MergeBulk: the two stop reasons, a panic on a null value and an inconvertible value, are kept apart. `EntityTable.MergeRefused` merges them at handler level.
- JSON numbers are float64 in Go. The model uses exact reals, so the rounding of decoding is not modelled: any decimal that float64 cannot represent exactly can truncate differently (2.9999999999999999 decodes to 3.0 and is stored as 3 in an int field, while the model truncates it to 2).
- Values.TruncateToInt and Values.Convert: Go's float64-to-int conversion has an implementation-defined result when the value is outside the int64 range; the model returns the unbounded truncated integer instead.
- Concurrent requests are not modelled. Each handler call is one sequential operation on the table.
- The response writer is a value passed from handler to handler. Aliasing of the header map between handlers is not modelled, and headers are single-valued with canonical names.
- Construction-time output ("Cors Middleware..." at cors.go:15) is not modelled. Only output printed while a request is served is.
- The other six stages are parameters, not models: security headers, compression, HPP, JWT with its path exclusions, response timing and the rate limiter. Compression's missing `return` and response timing's header written before `next` runs are therefore not covered. The rate limiter, HPP, JWT and the exclusion wrapper are not part of this model.
- The router (`routers.MainRouter`) is not part of this model; it is a parameter.
- Server startup (environment loading, TLS, ListenAndServeTLS) is not modelled.

## Findings

| source | as written | input that shows it | evidently intended | confidence | as-written member | corrected member |
|---|---|---|---|---|---|---|
| internal/api/handlers/students.go:89 | every single-row SELECT lists six columns but Scan gets five destinations (also lines 237, 305, 390), and every UPDATE has six placeholders but five arguments (lines 249, 344, 417) | POST one student into an empty table, then GET /students/1 or PUT /students/1 | scan and bind the sixth column, as teachers.go does | high, not executed | Handlers.StudentsPostThenRead | Handlers.StudentsCorrectedPostThenRead |
