# Users/transfers handler of wallet-indexer, modelled in Dafny

The route handler in `src/api/endpoints/users/transfers.ts` returns up to `limit` rows
of the `user_activities` view, restricted to one address when `user` is given, in no
specified order, each normalised into a response item. Without `user` the rows are not
filtered at all. No sale is attached to a row: only a comment speaks of associating sales
with transfers. Once its database call is taken out, two parts of it are live logic:

* **Query assembly** (imperative). The handler starts from the fixed projection
  `select * from user_activities fte` and collects condition fragments in an array. Only
  `user` contributes one, `fte.address = $/user/`. When there is a fragment, the handler
  appends ` WHERE ` and the fragments, each in parentheses and joined with ` AND `. It
  always appends ` LIMIT $/limit/`. Values never enter the text. They are named
  parameters in the request's query object, and the handler overwrites `query.user` in
  that object with its binary form. `TransfersQuery.QueryObject` is that object: a class
  whose parameter map `TransfersQuery.AssembleQuery` updates in place. The method is
  proved against the specification function `QueryText`.
* **Row normalisation** (pure). An order-preserving map turns each row into a response
  item. It renames fields and decodes binary columns to hex. It takes `logIndex` and
  `batchIndex` out of the jsonb `metadata`, applies `String(...)` to `amount`, and maps a
  falsy `price` to null. The response is `{ transfers, continuation }`, and
  `continuation` is always null.

Files:

* `wrappers.dfy`: `Option` and `Result`.
* `js_values.dfy`: the JavaScript semantics the handler depends on. This covers
  truthiness, `String(v)` (with integers rendered in decimal and read back), and property
  reads that throw on null and undefined.
* `transfers_query.dfy`: the condition list, `join`, the query text, the `user`
  rewrite, and the imperative assembly.
* `transfers_rows.dfy`: raw rows, response items, and the row map.
* `transfers_handler.dfy`: the response and the handler method that ties the parts
  together.

The foreign helpers `toBuffer`, `fromBuffer` and `formatEth` are function-typed
parameters, and so is the store's `manyOrNone(text, params)`. Nothing is assumed about
them beyond their types and totality.

What the live code does not do, although the route's own text or its commented-out code
suggests it, is not modelled either:

* The route's notes (line 14) speak of transfers "for a contract or token". The
  contract, token, collection and attribute filters and their exclusivity rules
  (lines 29-54) are commented out. The only live filter is `user`.
* The `ORDER BY` on timestamp, log index and batch index (lines 108-113) is commented
  out, so the text has no ordering clause.
* The continuation builder (lines 121-129) is commented out. `continuation` is the
  constant null (line 120), even though the request accepts a `continuation` parameter
  (line 50).
* The commented-out response schema (lines 56-87) lists `block` and an image link.
  Neither is produced (lines 137 and 143).
* A row whose `metadata` lacks `logIndex` is not rejected. Reading the field gives
  `undefined`. Only a null or undefined `metadata` throws, with a TypeError that the
  handler logs and rethrows (lines 145 and 154-157).

## Model

| member | source | states |
|---|---|---|
| `JsValues.GetProperty` | src/api/endpoints/users/transfers.ts:145-146 | reading a data field fails exactly when the value is null or undefined, and the failure names the key; an object's own field is returned; an absent field, or a string, number or boolean value, gives undefined |
| `JsValues.ToJsString` | src/api/endpoints/users/transfers.ts:141 | `String(v)` keeps a string unchanged; renders an integer as its canonical decimal text (no leading zero, a minus sign before a negative one) that reads back as that integer; renders booleans, objects, null and undefined as `true`/`false`, `[object Object]`, `null` and `undefined` |
| `JsValues.NatToDecimalRoundTrip` | src/api/endpoints/users/transfers.ts:141 | the decimal text of a natural number is non-empty, all digits, has no leading zero, and has the number as its value |
| `JsValues.IntToDecimalRoundTrip` | src/api/endpoints/users/transfers.ts:141 | parsing the decimal text of any integer, negative ones included, gives back that integer, so stringifying an amount loses no precision |
| `JsValues.CanonicalUnique` | src/api/endpoints/users/transfers.ts:141 | two canonical decimal texts with the same value are the same text, so the integer rendering of `String` is the only canonical text for its number |
| `JsValues.Truthy` | src/api/endpoints/users/transfers.ts:148 | ToBoolean, as `r.price ? … : null` and `if (query.user)` apply it: a value is falsy exactly when it is undefined, null, false, 0 or the empty string |
| `TransfersQuery.Conditions` | src/api/endpoints/users/transfers.ts:97-101 | the condition list is non-empty exactly when `query.user` is truthy, holds at most one fragment, and that fragment is the address condition |
| `TransfersQuery.ValidatedQuery` | src/api/endpoints/users/transfers.ts:22-51 | what the request schema admits: known keys only; `user` a non-empty string; `continuation` a string; `limit` an integer from 1 to 100. On such a query object, `user` is truthy exactly when it is present |
| `TransfersQuery.FragmentShape` | src/api/endpoints/users/transfers.ts:104 | the `map` gives one fragment per condition, in order; each fragment is two characters longer, opens with `(`, closes with `)`, and has the condition in between |
| `TransfersQuery.JoinLength` | src/api/endpoints/users/transfers.ts:104 | `join` of no parts is empty; otherwise the text plus one separator is as long as all the parts, each followed by a separator (the offset just past the last part) |
| `TransfersQuery.JoinLayout` | src/api/endpoints/users/transfers.ts:104 | in `parts.join(sep)` the i-th part sits at its offset, a separator follows each part but the last, and the last part ends the text |
| `TransfersQuery.WhereClauseShape` | src/api/endpoints/users/transfers.ts:103-105 | no text without conditions; otherwise the text starts with ` WHERE ` and the first fragment's `(`, and ends with the last fragment's `)` |
| `TransfersQuery.QueryTextFrame` | src/api/endpoints/users/transfers.ts:95-116 | every query text starts with the projection `select * from user_activities fte` and ends with ` LIMIT $/limit/` |
| `TransfersQuery.WhereIffConditions` | src/api/endpoints/users/transfers.ts:95-116 | the query text has ` WHERE ` right after the projection exactly when the condition list is non-empty |
| `TransfersQuery.ConditionLayout` | src/api/endpoints/users/transfers.ts:103-116 | each condition appears once, parenthesised, in list order; ` AND ` separates consecutive conditions, and the last one is followed directly by the LIMIT placeholder |
| `TransfersQuery.QueryTextWithoutUser` | src/api/endpoints/users/transfers.ts:95-116 | with no truthy `user`, the text is exactly `select * from user_activities fte LIMIT $/limit/` |
| `TransfersQuery.QueryTextWithUser` | src/api/endpoints/users/transfers.ts:95-116 | with a truthy `user`, the text is the projection, ` WHERE (fte.address = $/user/)` and ` LIMIT $/limit/` |
| `TransfersQuery.QueryTextIgnoresValues` | src/api/endpoints/users/transfers.ts:95-118 | two query objects that agree on whether `user` is present get the same text, whatever their user value, limit or continuation |
| `TransfersQuery.RewriteUser` | src/api/endpoints/users/transfers.ts:98-99 | the rewrite keeps every key; a truthy `user` becomes the buffer `toBuffer(user)`; every other entry stays unchanged; without a user nothing changes |
| `TransfersQuery.PlaceholdersBound` | src/api/endpoints/users/transfers.ts:99-118 | every placeholder in the text has a value in the parameter map: `limit` always (unchanged), and `user`, as a buffer, whenever the address condition is present |
| `TransfersQuery.AssembleQuery` | src/api/endpoints/users/transfers.ts:95-116 | the assembled text is `QueryText` of the collected conditions, and afterwards the query object holds the rewritten parameter map |
| `TransfersRows.NormalizeRow` | src/api/endpoints/users/transfers.ts:131-149 | building an item fails exactly when the row's metadata is null or undefined, and then with the TypeError for reading `logIndex` |
| `TransfersRows.NormalizeRows` | src/api/endpoints/users/transfers.ts:131-149 | the map succeeds exactly when every row has metadata; it then gives one item per row, at the same position, in the same order |
| `TransfersRows.PriceNullIffFalsy` | src/api/endpoints/users/transfers.ts:148 | an item's price is null exactly when the raw price is falsy; otherwise it is `formatEth(price)` |
| `TransfersRows.AmountKeepsValue` | src/api/endpoints/users/transfers.ts:141 | the item's amount is `String(amount)`: a raw string unchanged; for an integer its canonical decimal text, which reads back as the same integer; `true`/`false`, `[object Object]`, `null` or `undefined` for the other kinds of value |
| `TransfersRows.IndicesFromMetadata` | src/api/endpoints/users/transfers.ts:145-146 | for object metadata, `logIndex` and `batchIndex` are its fields of those names, or undefined when a field is absent; for string, number or boolean metadata both are undefined |
| `TransfersRows.RenamedFields` | src/api/endpoints/users/transfers.ts:132-147 | type, direction and the token name pass through; `timestamp` is `eventTimestamp`; contract, from, to, address and txHash are the hex rendering of their binary columns |
| `TransfersHandler.Respond` | src/api/endpoints/users/transfers.ts:118-157 | a successful response always has a null continuation; it succeeds exactly when the store answered and every row has metadata, and then has one item per row in order; a store failure is rethrown unchanged |
| `TransfersHandler.Handle` | src/api/endpoints/users/transfers.ts:88-158 | the store receives the assembled text and the rewritten query object; the handler's answer is `Respond` of the store's answer, and its continuation is null |

## Left out

* The database call `redb.manyOrNone` is the function parameter `store` of `Handle`. Its
  asynchrony, its connection and what the view `user_activities` contains are not part
  of this model.
* `toBuffer`, `fromBuffer` and `formatEth` come from the project's utility module, which
  is not part of this model. They are uninterpreted function parameters and are taken to
  be total. The model therefore does not capture a helper throwing, for example
  `fromBuffer` on a null binary column; the binary columns are typed as non-null bytes.
* The route metadata, swagger options and the Joi schema are framework configuration.
  Only their outcome is kept, as the precondition `ValidatedQuery`. The lower-casing of
  `user` and the address and base64 patterns are not modelled.
* The `catch` block's logging is not modelled; its rethrow is modelled as returning the
  same failure.
* The commented-out code is not modelled: the other filters and their exclusivity rules,
  the response schema, ORDER BY, the continuation builder and image links.
* `JsValues.Json`: JavaScript numbers are modelled as integers. Floating point, NaN and
  exponent notation for very large magnitudes are left out. jsonb arrays are left out
  too, so `String` of an array is not modelled.
* `TransfersRows.Formatters`: `formatEth` returns a JavaScript number, modelled as a `real`.
