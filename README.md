# WheelBorrrowAPI list queries and error replies, in Dafny

This project models the two pieces of logic in the WheelBorrrowAPI Express
application that go beyond glue code, and proves properties of them.

- **`advancedResults`** (`middleware/advanced.js`) is the list-query
  middleware that every list route mounts. It copies the request query and
  deletes the control keys `select`, `sort`, `limit` and `page` from the copy.
  It serializes what is left and prefixes each whole-word `gt`, `gte`, `lt`,
  `lte` and `in` with `$`, which turns them into storage-engine operators.
  Then it builds the storage query:
  - the projection and sort lists, converted from comma-separated to
    space-separated (sort defaults to newest first, `-createdAt`);
  - `page` and `limit`, read with `parseInt` and defaulting to 1 and 25;
  - skip and limit, computed from the page;
  - the route's relation expansion.
  
  It runs the query and stores a `{ success, count, pagination, data }`
  envelope. That envelope has `next`/`prev` page links, computed against the
  size of the whole collection.
- **`errorHandler`** (`middleware/error.js`) is the error middleware. It
  turns any error into an HTTP status and a body `{ success: false, error }`.
  A failed id cast, a duplicate key (driver code 11000) and a failed schema
  validation each get their own message. A later match overrides an earlier
  one. The `ErrorResponse` class (`utils/errorResponse.js`) is an `Error` that
  carries a status code. Here it is the datatype `ErrorHandling.ErrorResponse`.

The project has six modules:

| module | file | contents |
|---|---|---|
| `Wrappers` | `wrappers.dfy` | `Option` and `Result` |
| `Text` | `text.dfy` | JavaScript's `split` and `join` with a one-character separator, and the character replacement that `split(',').join(' ')` amounts to |
| `Operators` | `operators.dfy` | the regular-expression replacement `/\b(gt\|gte\|lt\|lte\|in)\b/g` |
| `ParseInt` | `parse_int.dfy` | `parseInt(s, 10)` |
| `Advanced` | `advanced.dfy` | the middleware |
| `ErrorHandling` | `error_handler.dfy` | the error handler |

The design choices:
- **The rewrite is a scan.** The model scans the way a regular-expression
  engine does. At each position it tries the alternatives in their written
  order, with a word boundary on both sides. It is proved equal to an
  independent reference definition: insert `$` before each position that
  starts a whole word that is an operator name. It is also proved inverse to
  deleting those `$` again.
- **The middleware is a method.** `Advanced.BuildQuery` reassigns the query
  plan step by step, as the source reassigns `query`. `Advanced.StripReserved`
  deletes the control keys in a loop. `Advanced.AdvancedResults` adds the page
  links one at a time.
- **The storage engine is abstract.** `Advanced.Store` holds the collection
  as a sequence. Uninterpreted functions decide which documents a filter
  matches, the order a sort key gives, and what a projection or an expansion
  makes of a document. Skip and limit are slices of the ordered sequence.
  They follow the storage engine's rules:
  - the engine may refuse a filter, a projection or a sort key, for instance
    an operator object in a place that expects a number, a value that does
    not cast to the field's type, a projection that mixes inclusion and
    exclusion, or a sort on an empty or `$`-prefixed field name
    (`Store.accepts`, `StoreError.Refused`);
  - a negative skip is refused (`StoreError.NegativeSkip`);
  - a limit of 0 means no limit;
  - a negative limit returns at most its magnitude of documents.
- **JSON is a parameter.** `JSON.stringify` is the parameter `stringify`.
  `JSON.parse` of the rewritten text is part of the store's `matches`.

## Model

| member | source | states |
|---|---|---|
| Advanced.FilterText | middleware/advanced.js:13-17 | the filter text is the serialized filter query with `$` inserted before each whole-word operator name, and deleting those `$` gives the serialized query back |
| Advanced.StripReserved | middleware/advanced.js:5-11 | the filter query has exactly the keys of the request query minus `select`, `sort`, `limit`, `page`, each with its value unchanged; the request query is a value and stays as it was |
| Advanced.FieldList | middleware/advanced.js:24 | `split(',').join(' ')` keeps the length, leaves no comma, and replaces each comma by a space in place |
| Advanced.FieldListKeepsFields | middleware/advanced.js:24 | the converted list holds the same fields in the same order: splitting it at spaces gives the pieces of the original split at commas (field names without spaces) |
| Advanced.Given | middleware/advanced.js:23-29 | a parameter is truthy when it is present and not the empty string (no contract; used by the two rows below) |
| Advanced.Projection | middleware/advanced.js:22-26 | a projection is applied exactly when `select` is present and non-empty, and it is the comma-to-space conversion of `select` |
| Advanced.SortKey | middleware/advanced.js:28-34 | the sort key is the converted `sort` list when `sort` is present and non-empty, else `-createdAt` |
| Advanced.NumberOr | middleware/advanced.js:37-38 | `parseInt(v, 10) \|\| fallback`: the parsed number when parsing yields a non-zero number, the fallback for NaN, zero or an absent key; negative numbers are kept |
| Advanced.NumberRoundTrip | middleware/advanced.js:37-38 | a parameter sent as the decimal form of a non-zero number is read back as that number; `"0"` and `""` give the fallback |
| Advanced.PageAndLimitNonZero | middleware/advanced.js:37-38 | page and limit are never 0; absent, they are 1 and 25 |
| Advanced.PageBounds | middleware/advanced.js:39-40 | `endIndex - startIndex == limit`; page `p + 1` starts where page `p` ends; for a positive limit the start is non-negative iff `page >= 1`, positive iff `page > 1` |
| Advanced.Matching | middleware/advanced.js:20 | `find(filter)` yields every document of the collection that the filter matches, and only those, no more of them than the collection holds |
| Advanced.MatchingAppend | middleware/advanced.js:20 | `find` keeps the collection's order and every occurrence: the documents found in a concatenation are those found in the first part followed by those found in the second |
| Advanced.Take | middleware/advanced.js:43 | `limit(n)` never lets more through than remain, nor more than the magnitude of a non-zero `n` |
| Advanced.Window | middleware/advanced.js:43 | `skip(s).limit(n)` is the slice of the ordered documents from `s` on, of the size `Take` allows, element for element |
| Advanced.Run | middleware/advanced.js:43-51 | running a plan fails exactly when the engine refuses its filter, projection or sort key (`Refused`) or its skip is negative (`NegativeSkip`, checked after the refusal); otherwise the result is the window of the ordered matching documents, each projected and expanded |
| Advanced.BuildQuery | middleware/advanced.js:2-48 | the plan built step by step has the rewritten filter, the projection, the sort key, skip `(page - 1) * limit`, limit `limit` and the route's expansion; page and limit are the parsed parameters |
| Advanced.PlanRunsPage | middleware/advanced.js:37-51 | the plan the middleware builds fails exactly when the engine refuses the rewritten filter, the projection or the sort key, or the start index is negative, with the matching error; otherwise it yields the requested page |
| Advanced.AdvancedResults | middleware/advanced.js:1-77 | success exactly when the engine accepts the rewritten filter, the projection and the sort key and the start index is non-negative, else `Refused` or `NegativeSkip`; on success `success` is true, `count` is the number of documents, `data` is the requested page, `next` is `{page + 1, limit}` iff `endIndex` is below the size of the whole collection, `prev` is `{page - 1, limit}` iff `startIndex > 0` |
| Advanced.PagesTile | middleware/advanced.js:39-43 | with a positive limit the pages tile the ordered results without gap or overlap: pages 1 to `p` together are the first `p * limit` documents |
| Advanced.NextLinkCanPointPastResults | middleware/advanced.js:41-61 | because the total counts the whole collection, a `next` link can lead to an empty page (two documents, one matching, one per page) |
| Advanced.NoNextLinkMeansNoMoreResults | middleware/advanced.js:41-61 | without a `next` link no further matching document exists |
| Operators.MatchAtIsWholeWord | middleware/advanced.js:17 | at each position the pattern matches exactly when no word character precedes and the whole leading word is an operator name, and the match is that whole word (`gte` is never matched as `gt`) |
| Operators.FirstAlternativeIsWholeWord | middleware/advanced.js:17 | trying the alternatives in order, the one that ends at a word boundary is the whole leading word |
| Operators.Rewrite | middleware/advanced.js:17 | the rewrite equals the reference definition (one `$` inserted before each position that starts a whole-word operator name, all else unchanged); it is longer than the input by the number of such words; deleting the inserted `$` gives the input back, so the rewrite is injective |
| Operators.RewriteFrom | middleware/advanced.js:17 | the global replacement as a left-to-right scan that tries `gt`, `gte`, `lt`, `lte`, `in` in order at each position, with `\b` on both sides (no contract of its own; see the next row) |
| Operators.ScanMatchesMarked | middleware/advanced.js:17 | after any prefix, the scan's output is the reference marking of that prefix followed by the scan of the rest |
| Operators.OutputNeverStartsWithToken | middleware/advanced.js:17 | an unmatched position never turns into a match in the output |
| Operators.RewriteSplits | middleware/advanced.js:17 | a non-word character (quote, colon, brace) separates the rewrite: each side is rewritten on its own |
| Operators.LoneWord | middleware/advanced.js:17 | a lone word gets a `$` exactly when it is one of `gt`, `gte`, `lt`, `lte`, `in` |
| Operators.RewriteOperatorWord | middleware/advanced.js:17 | `gte` becomes `$gte` |
| Operators.RewriteKeepsLongerWord | middleware/advanced.js:17 | `gtx` is left alone |
| Operators.RewriteKeepsUnderscoreWord | middleware/advanced.js:17 | `in_stock` is left alone |
| Operators.RewriteKeepsInnerName | middleware/advanced.js:17 | `line` is left alone |
| Text.Split | middleware/advanced.js:24 | `split` yields at least one piece and no piece holds the separator |
| Text.ReplaceChar | middleware/advanced.js:24 | the replacement keeps the length and replaces the separator in place |
| Text.JoinSplitIsReplace | middleware/advanced.js:24-30 | `s.split(c).join(d)` is `s` with each `c` replaced by `d` |
| Text.SplitJoin | middleware/advanced.js:24-30 | pieces without the separator split apart again after joining |
| Text.JoinSplit | middleware/advanced.js:24-30 | joining the pieces of a split with the same separator gives back the text |
| Text.JoinLength | middleware/advanced.js:24-30 | a join is as long as its pieces plus one separator between each pair |
| ParseInt.ParseShow | middleware/advanced.js:37-38 | `parseInt` reads back the decimal form of any integer, also when non-digits follow |
| ParseInt.ParseSkipsWhiteSpace | middleware/advanced.js:37-38 | leading white space does not change the value read |
| ParseInt.Parse | middleware/advanced.js:37-38 | `parseInt(s, 10)`: text without a digit is NaN, in particular the empty text |
| ErrorHandling.NewErrorResponse | utils/errorResponse.js:1-6 | an `ErrorResponse` is answered with its own status code and message, each replaced by the fallback when empty |
| ErrorHandling.StatusOf | middleware/error.js:26 | `statusCode \|\| 500`: the status code when set and non-zero, otherwise exactly 500; never 0 |
| ErrorHandling.MessageOf | middleware/error.js:26 | `message \|\| 'Server Error'`: the message when non-empty, otherwise exactly `Server Error`; never empty |
| ErrorHandling.HandleWith | middleware/error.js:4-26 | the decision chain, for any status the cast branch attaches: `success` is false, the message is never empty, the status never 0; a cast error that is not a duplicate key gets the "not found" message and that status (else 500) |
| ErrorHandling.ErrorHandler | middleware/error.js:3-27 | `success` is false; a validation failure gives 400 and the joined messages; otherwise a duplicate key gives 400 and `Duplicate field enetered`; otherwise a cast error gives 500 and the "not found" message; any other error keeps its status code (else 500) and message (else `Server Error`) |
| ErrorHandling.IntendedErrorHandler | middleware/error.js:10-13 | the corrected handler: `success` is false, the message is never empty, the status is never 0 |
| ErrorHandling.CastErrorAnswers500 | middleware/error.js:10-26 | as written, a malformed id gets status 500 with the message `Product not found with i.d. of <value>` |
| ErrorHandling.IntendedCastErrorAnswers404 | middleware/error.js:10-13 | corrected, a cast error that is not a duplicate key gets 404 with the same message |
| ErrorHandling.IntendedDiffersOnlyInCastStatus | middleware/error.js:10-13 | the correction keeps every body and changes the status exactly for cast errors that are not duplicate keys |
| ErrorHandling.LaterBranchWins | middleware/error.js:9-23 | later branches override earlier ones: a validation failure is answered as if it had no code, so a duplicate-key validation failure gets the validation message; a duplicate key overrides a cast error |
| ErrorHandling.ValidationMessagesRecoverable | middleware/error.js:20-23 | the validation reply holds every field message in order: splitting it at commas gives them back when no message contains a comma |

## Left out

- `JSON.stringify` and `JSON.parse` (middleware/advanced.js:14, 20) are not modelled. The serializer is the parameter `stringify`. Parsing the filter is part of the store's `matches`.
- Nested query values such as `price[gt]=10`, which the query-string parser turns into objects, are not modelled. Neither are repeated keys, which become arrays. The query is a flat map from strings to strings.
- The storage engine is not modelled beyond the rules stated above. `find`, `sort`, `select` and `populate` are uninterpreted functions, and `countDocuments` is the size of the collection. Which documents a filter matches, and whether a sort keeps all documents, are left to the engine.
- Advanced.NoNextLinkMeansNoMoreResults: this lemma assumes that sorting does not add documents, because the sort is uninterpreted.
- Numbers above 2^53 are not modelled. The model reads `parseInt` results exactly and computes `(page - 1) * limit` and `page * limit` (middleware/advanced.js:39-40) exactly, while JavaScript rounds each to the nearest double.
- Advanced.Run, Advanced.PlanRunsPage, Advanced.AdvancedResults: transient failures of the storage engine are not modelled. A failed connection, or a sort that exceeds the engine's memory limit, can make `countDocuments()` (middleware/advanced.js:41) or the query (middleware/advanced.js:51) reject although the engine accepts the query; here both always answer.
- The `res`/`next` wiring is not modelled, nor the `async` suspension points. Each request is handled on its own, so the model is sequential. A query the engine rejects becomes a `Failure` result here instead of a rejected promise.
- `console.log(err)` (middleware/error.js:7) is I/O and is left out.
- Express's check that a status code is a valid HTTP status is not modelled. The handler passes `err.statusCode` on unchecked.
- The error's `code` is an `Option<int>`. A code that is not a number never equals 11000 under `===`, so it is `None`.
- An absent `err.message` is modelled as the empty string; both are falsy.
- The routes, controllers, models, seeder and server wiring are not part of this model.

## Findings

| source | as written | input that shows it | evidently intended | confidence | as-written member | corrected member |
|---|---|---|---|---|---|---|
| middleware/error.js:10-13 | `new Error(message, 404)`: the `Error` constructor ignores the 404, so `error.statusCode` is unset and the reply is `500` | an error with `name: 'CastError'`, `value: '5d713995b721c3bb38c1f5d0x'` and no duplicate-key code gets status 500 with message `Product not found with i.d. of 5d713995b721c3bb38c1f5d0x` | `new ErrorResponse(message, 404)`: status 404, like the application's other "not found" replies | high; not executed | ErrorHandling.CastErrorAnswers500 | ErrorHandling.IntendedCastErrorAnswers404 |
