# Favourite characters backend — a Dafny model

This project models the logic of a small serverless backend that keeps a list of
favourite Star Wars characters. Two AWS Lambda handlers sit over a MySQL table:
`POST /api/favorites` creates a record and `DELETE /api/favorites/{id}` removes one.
The model covers everything around the database calls:

- `FavoriteValidator` (`validator.dfy`, module `Validator`): `validate` collects every
  rule an untyped input breaks; `sanitize` trims the strings and drops blank optional
  fields; `validateAndSanitize` composes the two. `validate` and `sanitize` loop over
  field lists, so they are methods, `Validate` and `Sanitize`. Each is proved equal to
  a specification function (`Errors`, `Sanitized`), and the rules are proved about
  those functions.
- `ResponseHelper` (`responsehelper.dfy`): the CORS headers and the three response
  builders.
- `FavoritesRepository` (`repository.dfy`): `getAll`, `create` and `delete`. The
  database is an `Engine`, a function from statement to outcome. An outcome is a result
  header with rows, or a driver error with its code and message.
- The two handlers (`createfavorite.dfy`, `deletefavorite.dfy`). `JSON.parse` and the
  repository call are function parameters, so "the store is not called" can be stated
  as "the response does not depend on the store".
- `JsValues` (`jsvalues.dfy`): the JavaScript values the code handles and the language
  operations it relies on. These are `typeof`, truthiness, property reads, `trim`,
  `includes`, `toString` and `parseInt(s, 10)`.
- `Http` (`http.dfy`): the proxy event, the response, and the preflight answer.

Response bodies are kept as the structured value handed to `JSON.stringify`: an
`Envelope(success, message, payload)`, or `Empty` for a preflight.

Where the code and the intended design differ, the model follows the code:

- A duplicate id ends in 500, not 409 (see Findings).
- An id of blanks passes validation and is stored as `''`. Validation only asks for a
  non-empty string, and sanitize trims afterwards (`Validator.BlankIdAccepted`,
  `Validator.RevalidateSanitized`).
- The 100- and 50-character limits count UTF-16 code units, as `.length` does, so a
  character outside the Basic Multilingual Plane counts twice (`JsValues.JsLength`).
- Every helper response advertises `POST,OPTIONS`, including those of the delete
  handler.
- The create response carries the client's own id, not the `insertId`, because the
  record's spread comes after it.
- A delete failure from the engine whose message contains "no encontrado" is answered
  with 404, not 503. The handler tests for that text before it tests for the database.

## Model

| member | source | states |
|---|---|---|
| JsValues.Trim | src/utils/validator.ts:39 | `String.prototype.trim`: never longer than its input, and a non-empty result starts and ends with a non-blank |
| JsValues.TrimStartIsSuffix | src/utils/validator.ts:39 | trimStart keeps a suffix of its input, dropping only whitespace (with `TrimStartDropsWhitespace`) |
| JsValues.TrimEndIsPrefix | src/utils/validator.ts:39 | trimEnd keeps a prefix of its input, dropping only whitespace (with `TrimEndDropsWhitespace`) |
| JsValues.TrimEmptyIffAllWhitespace | src/utils/validator.ts:39 | a string trims to empty exactly when all its characters are whitespace |
| JsValues.TrimIdempotent | src/utils/validator.ts:77 | trimming twice gives the same as trimming once |
| JsValues.JsLength | src/utils/validator.ts:41 | `.length` counts UTF-16 code units: between the number of characters and twice it, and equal to it exactly when every character is in the Basic Multilingual Plane |
| JsValues.JsLengthTrim | src/utils/validator.ts:77 | trimming never makes a string longer in code units |
| JsValues.TypeOf | src/utils/validator.ts:26 | `typeof`, with null, arrays and objects all "object"; its rules are used by every validator lemma (no contract of its own) |
| JsValues.Truthy | src/utils/validator.ts:26 | ToBoolean: undefined, null, false, 0, NaN and `''` are falsy; no contract of its own, `JsValues.OrNull` states it for `\|\| null` |
| JsValues.Get | src/utils/validator.ts:32 | an own-property read of a parsed object, undefined otherwise; no contract of its own |
| JsValues.Includes | src/handlers/createFavorite.ts:71 | `String.prototype.includes`: some position where the needle occurs; its contract is in `IncludesAt`, `IncludesConcat` and `LacksChar` |
| JsValues.OrNull | src/repositories/favorites.repository.ts:53-59 | `v \|\| null` is null or `v`, keeps truthiness, and is never `''` or undefined |
| JsValues.IncludesConcat | src/handlers/deleteFavorite.ts:54 | when no match can start in the last characters of a prefix, `(p + m).includes(t)` holds exactly when `p` or `m` includes `t` |
| JsValues.LacksChar | src/handlers/createFavorite.ts:71 | a string lacking one of the needle's characters does not include the needle |
| JsValues.ParseInt | src/handlers/deleteFavorite.ts:39 | `parseInt(s, 10)` is a number or NaN |
| JsValues.DigitPrefixIsLongest | src/handlers/deleteFavorite.ts:39 | the digits parseInt reads are the longest run of digits at the start |
| JsValues.ParseIntDecimalString | src/handlers/deleteFavorite.ts:45 | parseInt reads back the decimal text of every integer, negative ones included |
| JsValues.ToJsString | src/utils/validator.ts:76 | `toString()` returns a string itself and writes an integer in decimal |
| Validator.Violations | src/utils/validator.ts:26-64 | the rules an input breaks, in check order: only "not an object" for a non-object; its properties are the rule lemmas below (no contract of its own) |
| Validator.Errors | src/utils/validator.ts:22-67 | validate's result as a value, one message per violation; its properties are the rule lemmas below (no contract of its own) |
| Validator.Validate | src/utils/validator.ts:22-67 | the method pushing messages in the source's order returns exactly `Errors(data)` |
| Validator.CheckFieldRules | src/utils/validator.ts:31-56 | the id, name, height and mass checks find exactly the field violations, in order |
| Validator.CheckLengthRules | src/utils/validator.ts:58-64 | the length loop finds exactly the text fields holding a string longer than 50 code units, in field order |
| Validator.NotAnObjectIsSingleError | src/utils/validator.ts:26-29 | a falsy or non-object input gets the single not-an-object message, and an object never gets it |
| Validator.MissingIdAndNameErrors | src/utils/validator.ts:32-43 | an object with neither id nor name gets the id and the name message, first and in that order: errors accumulate; they are the only two when no other rule is broken |
| Validator.IdRule | src/utils/validator.ts:32-34 | the id message appears once exactly when id is not a non-empty string, otherwise not at all |
| Validator.NameRule | src/utils/validator.ts:37-43 | at most one name message; none exactly when name is a string with non-blank content of at most 100 UTF-16 code units; which one follows the else-if order |
| Validator.NameViolationsAre | src/utils/validator.ts:37-43 | the name chain stated with the rules: missing or not text, else blank after trim, else too long |
| Validator.TypeRules | src/utils/validator.ts:46-56 | the height and mass messages appear once exactly when the value is not undefined, null, `''` or a string; no numeric format is checked |
| Validator.LengthRule | src/utils/validator.ts:58-64 | a text field's message appears exactly when the value is a string longer than 50 UTF-16 code units; other types pass |
| Validator.ErrorCount | src/utils/validator.ts:22-67 | for an object, each message occurs as often as its rule is broken |
| Validator.RuleOfMessage | src/utils/validator.ts:27-62 | every message validate can emit identifies its rule, so different rules never share a message |
| Validator.MessageCount | src/utils/validator.ts:22-67 | the number of copies of a message is the number of copies of its violation |
| Validator.ErrorsEmptyIffAcceptable | src/utils/validator.ts:22-67 | validate returns no error exactly when the input is an object satisfying all the field rules |
| Validator.ViolationsOfObjectAre | src/utils/validator.ts:31-64 | an object's violations are the id, name, height, mass and length findings concatenated in check order |
| Validator.Sanitized | src/utils/validator.ts:72-94 | sanitize's result as a value: none when it throws; its properties are `SanitizedFields` and `AcceptedSanitizes` (no contract of its own) |
| Validator.Sanitize | src/utils/validator.ts:72-94 | the method filling the record field by field returns exactly `Sanitized(data)` |
| Validator.SanitizedFields | src/utils/validator.ts:76-91 | the record holds the trimmed id and name, and an optional field exactly when its input is not undefined, null or `''`: trimmed if a string, unchanged otherwise; no other key |
| Validator.CopyOptionalKeys | src/utils/validator.ts:85-91 | the copy loop adds a key exactly for a non-blank field of the list, with its normalised value, and leaves other keys alone |
| Validator.AcceptedSanitizes | src/utils/validator.ts:76-77 | for an id and name that pass validation, sanitize does not throw and stores the trimmed id and a trimmed name of 1 to 100 code units |
| Validator.NormalizedKeepsRules | src/utils/validator.ts:87-89 | trimming never breaks a type or length rule a value passed |
| Validator.SanitizedKeepsOptionalRules | src/utils/validator.ts:80-91 | the sanitized record keeps the height, mass and length rules the input passed |
| Validator.RevalidateSanitized | src/utils/validator.ts:32 | the sanitized record of an accepted input passes the rules again exactly when its trimmed id is not empty |
| Validator.BlankIdAccepted | src/utils/validator.ts:32 | an id made only of whitespace never gets the id message, and whenever the name passes, sanitize stores that id as `''` |
| Validator.ValidateAndSanitize | src/utils/validator.ts:99-108 | valid exactly when there is no error; invalid carries validate's errors and no data; valid carries no error and the sanitized record, which always exists |
| Http.Preflight | src/handlers/createFavorite.ts:16-26 | a preflight answer is 200 with an empty body, any origin, the given methods and no Content-Type |
| ResponseHelper.CorsHeaders | src/utils/response.helper.ts:16-23 | the four fixed headers; `SuccessFlagOnlyFromSuccess` states them for every builder (no contract of its own) |
| ResponseHelper.Success | src/utils/response.helper.ts:28-38 | status defaults to 200 and message to 'Operación exitosa'; success is true and the data is unchanged |
| ResponseHelper.Error | src/utils/response.helper.ts:43-55 | status defaults to 500; success is false; the error field is the cause's message when truthy, else the cause |
| ResponseHelper.ErrorDetail | src/utils/response.helper.ts:52 | `error?.message \|\| error` picks the message when it is truthy and the cause otherwise |
| ResponseHelper.ErrorDetailOfError | src/utils/response.helper.ts:52 | for a thrown Error the field is its message, or the error object when the message is empty; without a cause it is undefined |
| ResponseHelper.ValidationError | src/utils/response.helper.ts:60-70 | always 400, success false, 'Errores de validación', and the error list unchanged |
| ResponseHelper.SuccessFlagOnlyFromSuccess | src/utils/response.helper.ts:16-23 | every builder attaches the same headers, with origin `*` and methods `POST,OPTIONS`; the success flag is true exactly for `success` |
| ResponseHelper.PayloadKeepsArguments | src/utils/response.helper.ts:28-70 | the body carries the caller's data or error list unchanged |
| FavoritesRepository.GetAll | src/repositories/favorites.repository.ts:11-22 | the engine's rows unchanged, or the single error 'Error al consultar la base de datos' |
| FavoritesRepository.GetAllErrorMentionsDatabase | src/repositories/favorites.repository.ts:20 | getAll's only error mentions the database |
| FavoritesRepository.InsertValues | src/repositories/favorites.repository.ts:50-60 | the nine placeholder values; its contract is `InsertValuesInColumnOrder` |
| FavoritesRepository.InsertValuesInColumnOrder | src/repositories/favorites.repository.ts:50-60 | nine values in column order: id and name as given, each other column its value or null when falsy |
| FavoritesRepository.Create | src/repositories/favorites.repository.ts:65-82 | a successful insert returns the engine's insertId and affectedRows; a failure throws the mapped error |
| FavoritesRepository.CreateError | src/repositories/favorites.repository.ts:73-82 | the error create's catch throws; its contract is `CreateErrorTaxonomy` |
| FavoritesRepository.CreateErrorTaxonomy | src/repositories/favorites.repository.ts:77-81 | the duplicate message comes exactly from ER_DUP_ENTRY and does not mention the database; every other failure mentions the database and carries the engine's message |
| FavoritesRepository.Delete | src/repositories/favorites.repository.ts:93-113 | no affected row throws 'Favorito no encontrado', which the catch passes through unchanged; an engine failure is wrapped; success returns affectedRows |
| FavoritesRepository.DeleteError | src/repositories/favorites.repository.ts:105-113 | the error delete's catch throws: the not-found error unchanged, any other wrapped; its contract is in `Delete` and `DeleteErrorTaxonomy` |
| FavoritesRepository.DeleteErrorTaxonomy | src/repositories/favorites.repository.ts:108-112 | every delete error is the not-found error or mentions the database; success has a non-zero affectedRows |
| CreateFavorite.ParseBody | src/handlers/createFavorite.ts:31-33 | a string body goes through JSON.parse; any other body is used as it is |
| CreateFavorite.HandleWith | src/handlers/createFavorite.ts:14-89 | the handler with its catch as a parameter; its properties are the path lemmas below (no contract of its own) |
| CreateFavorite.Handle | src/handlers/createFavorite.ts:10-90 | the handler as written; its properties are the path lemmas below (no contract of its own) |
| CreateFavorite.Saved | src/handlers/createFavorite.ts:59-62 | `{ id: insertId, ...record }`; its contract is `SavedAnswer` |
| CreateFavorite.Answer | src/handlers/createFavorite.ts:53-88 | the response once the store has returned or thrown; its contract is `SavedAnswer` |
| CreateFavorite.Classify | src/handlers/createFavorite.ts:67-88 | the catch: 503, then 409, then 500, by substring; its contract is `ClassifyStatuses` and `ClassifyCreateError` |
| CreateFavorite.PreflightIgnoresRequest | src/handlers/createFavorite.ts:16-26 | OPTIONS gets 200, an empty body and `POST,OPTIONS`, whatever the body, parser and store |
| CreateFavorite.MalformedJsonIsRejected | src/handlers/createFavorite.ts:31-37 | a string body JSON.parse rejects gets 400 with the invalid-JSON message, and the store is not consulted |
| CreateFavorite.NonStringBodyIsNotParsed | src/handlers/createFavorite.ts:31-33 | a body that is not a string is used as it is, without the parser |
| CreateFavorite.InvalidInputIsNotStored | src/handlers/createFavorite.ts:42-47 | a rejected input gets validationError with validate's exact messages, and the store is not consulted |
| CreateFavorite.AcceptedInputIsStored | src/handlers/createFavorite.ts:52-53 | for an accepted input the response is decided by the store's outcome on the sanitized record |
| CreateFavorite.StoreSeesSanitizedRecord | src/handlers/createFavorite.ts:53 | the store is consulted on exactly the sanitized record |
| CreateFavorite.SavedAnswer | src/handlers/createFavorite.ts:58-65 | after a successful store the answer is 201 with the record as data, its id hiding the insertId |
| CreateFavorite.SavedRecordIsSanitized | src/handlers/createFavorite.ts:58-65 | success is 201 with the sanitized record, whose id is the trimmed input id |
| CreateFavorite.EveryPathResponds | src/handlers/createFavorite.ts:14-89 | every request gets one of 200, 201, 400, 409, 500 and 503, and an empty body exactly for a preflight |
| CreateFavorite.StoredIdAndName | src/repositories/favorites.repository.ts:51-52 | an accepted input is inserted with its trimmed id and name |
| CreateFavorite.StoredOptionalValues | src/repositories/favorites.repository.ts:53-59 | every other column is the sanitized value, or null exactly when that value is falsy |
| CreateFavorite.ClassifyCreateError | src/handlers/createFavorite.ts:71-88 | the catch sends the duplicate error to 500 and every other create error to 503 |
| CreateFavorite.RepositoryCreateStatus | src/handlers/createFavorite.ts:79-81 | through the repository: 201 on insert, 500 for a duplicate id, 503 for any other failure |
| CreateFavorite.NoConflictFromRepository | src/handlers/createFavorite.ts:79-81 | with the repository as the store the 409 branch is never taken |
| CreateFavorite.ClassifyIntendedCreateError | src/handlers/createFavorite.ts:79-81 | the corrected catch sends the duplicate error to 409 with its message, and every other create error to 503 |
| CreateFavorite.RepositoryCreateStatusIntended | src/handlers/createFavorite.ts:79-81 | with the corrected catch: 201 on insert, 409 for a duplicate id, 503 otherwise |
| DeleteFavorite.PathId | src/handlers/deleteFavorite.ts:28 | `event.pathParameters?.id`; its contract is `MissingIdIsRejected` |
| DeleteFavorite.Handle | src/handlers/deleteFavorite.ts:9-77 | the delete handler; its properties are the path lemmas below (no contract of its own) |
| DeleteFavorite.Answer | src/handlers/deleteFavorite.ts:39-76 | the response once the repository has returned or thrown; its contract is `RemoverSeesParsedId` |
| DeleteFavorite.Classify | src/handlers/deleteFavorite.ts:50-76 | the catch: 404, then 503, then 500, by substring; its contract is `ClassifyStatuses` and `ClassifyDeleteError` |
| DeleteFavorite.PreflightIgnoresRequest | src/handlers/deleteFavorite.ts:15-25 | OPTIONS gets 200, an empty body and `DELETE,OPTIONS`, whatever the path and remover |
| DeleteFavorite.MissingIdIsRejected | src/handlers/deleteFavorite.ts:28-33 | a missing or empty path id gets 400 before any repository call |
| DeleteFavorite.RemoverSeesParsedId | src/handlers/deleteFavorite.ts:39-48 | the repository gets `parseInt(id, 10)`, and success is 200 with that same number as the id |
| DeleteFavorite.DeletedIdIsPathNumber | src/handlers/deleteFavorite.ts:45 | a decimal path id comes back as that integer |
| DeleteFavorite.EveryPathResponds | src/handlers/deleteFavorite.ts:13-76 | every request gets one of 200, 400, 404, 500 and 503, and an empty body exactly for a preflight |
| DeleteFavorite.WrappedNotFoundWords | src/repositories/favorites.repository.ts:112 | wrapping an engine message neither adds nor removes a "no encontrado" |
| DeleteFavorite.ClassifyDeleteError | src/handlers/deleteFavorite.ts:54-68 | the not-found error is a 404; an engine failure is 404 when its message says "no encontrado", else 503 |
| DeleteFavorite.RepositoryDeleteStatus | src/repositories/favorites.repository.ts:95-112 | through the repository: 200 when a row went, 404 when none did, and 404 or 503 for an engine failure; never 500 |

## Left out

- Logging (`console.*`) and the async plumbing. Each awaited call is a value of
  `Completion`: it returns or throws.
- `JSON.parse` is the `parse` parameter. `JSON.stringify` is not modelled: a body is the
  value before serialisation. So an `undefined` field or a NaN id is not turned into
  an absent field or `null`.
- Numbers are unbounded integers, plus NaN for `parseInt`. JavaScript numbers are
  doubles, so fractional and infinite numbers are left out, and integers beyond 2^53
  lose precision. Past 10^21, `toString` switches to exponent notation.
- JsValues.ParseIntDecimalString: holds in JavaScript only for |n| <= 2^53; beyond
  that the double read back is not the integer, and past 10^21 the text has an exponent.
- DeleteFavorite.DeletedIdIsPathNumber: the same bound applies, so a path id of more
  than 16 digits comes back rounded in JavaScript.
- Strings are sequences of Unicode scalar values. A lone UTF-16 surrogate, which
  JSON.parse produces from an escape such as `\uD800`, cannot be represented;
  `JsLength` counts every other string as `.length` does.
- SQL semantics: ordering, key uniqueness, and how MySQL compares an id with NaN or a
  number. The engine is an arbitrary function from statement to outcome.
- `src/utils/db.ts` (the connection pool), `src/handlers/migrateFavorites.ts` (table
  DDL), `test-api.js` and `esbuild.config.js` are not part of this model.
- The handlers build the repository with `new FavoritesRepository()`. The store is a
  parameter instead, and `RepositoryStore` / `RepositoryRemover` plug in the repository
  over an engine.
- JsValues.Get: reads own properties of parsed objects only. Prototype properties,
  string indices and array `length` are not modelled; the keys read are the record's
  field names and `message`.
- JsValues.ToJsString: an object whose own `toString` property exists is taken to throw.
  A callable `toString` cannot come out of JSON.
- Validator.RevalidateSanitized: stated with `Acceptable` rather than with `Errors`.
  `Validator.ErrorsEmptyIffAcceptable` equates the two.

## Findings

| source | as written | input that shows it | evidently intended | confidence | as-written member | corrected member |
|---|---|---|---|---|---|---|
| src/handlers/createFavorite.ts:79 | the catch answers 409 only when the message includes 'ya existe'; the repository's duplicate error (src/repositories/favorites.repository.ts:77-79) reads 'Este personaje ya está en favoritos', which includes neither that nor 'base de datos' | a valid record whose INSERT fails with code ER_DUP_ENTRY: the response is 500 | a duplicate id answered with 409 | high; not executed | CreateFavorite.RepositoryCreateStatus | CreateFavorite.RepositoryCreateStatusIntended |
