# MySQL data-access layer: clause formatter and gateway

This project models the data-access layer of a Node.js/TypeScript server that stores data in MySQL. The layer has two parts.

- **`FORMAT`** (src/server/functions/FORMAT.ts) is the clause formatter.
  - It turns a column mapping into an SQL fragment with positional `?` placeholders.
  - It also returns the list of parameters that fills those placeholders.
  - `whereClause` gives equality conditions joined by ` AND `.
  - `setClause` gives `k = ?` assignments joined by `, `.
  - `likeClause` gives a parenthesised group of `LIKE` conditions joined by ` OR `, with `%value%` patterns as parameters.
- **`MYSQL_DB`** (src/server/classes/MYSQL_DB.ts) is the gateway. It builds statements from those fragments and hands them to the driver's connection pool.
  - `SELECT`, `UPDATE`, `INSERT_BATCH_OVERWRITE` (a multi-row upsert) and `INSERT_GETID`.
  - `cleanTable` and `removeOldEntries`.
  - The helpers `executeQuery` (appends `;`), `processResult` and `formatDateToSQLTimestamp`.

The Dafny modules follow that structure:

| module | file | contents |
|---|---|---|
| `Wrappers` | wrappers.dfy | `Option` (an absent argument, a missing pool) and `Result` (a value, or the message of the `Error` thrown) |
| `Strings` | strings.dfy | the JavaScript built-ins the layer uses: `join`, integer `toString`, `padStart`, and counting a character |
| `JsValues` | js_values.dfy | scalar values, their text inside a template literal, and a mapping as its entries in `Object.keys` order |
| `Placeholders` | placeholders.dfy | positional placeholders. `Spliced` is the left-to-right substitution that `INSERT_GETID` performs with `replace` and `shift()`. `SpliceParams` is that loop as written. The lemmas about `Spliced` give "placeholder *i* holds parameter *i*" a precise meaning. |
| `Format` | format.dfy | the three clause builders and the proofs that their fragments and parameters line up |
| `SqlTimestamp` | timestamp.dfy | `formatDateToSQLTimestamp` over a date's getter values, and a parser that reads the timestamp back |
| `MysqlDb` | mysql_db.dfy | every gateway operation as a function of an optional pool; `INSERT_GETID` is a method |

### The pool

The gateway never reassigns its pool, so each operation is modelled as a function of it.

- `Option<Pool>`: `None` is the pool that was not created.
- `Pool.execute` is the driver's `execute`. It is an oracle that answers a `Statement` (text and parameters) with one of two replies:
  - `Returned(result, fields)`, the pair the promise resolves to;
  - `Fault(message)`, a rejection with an `Error` whose message is `message`.
- `${e}` of such an error is the text `Error: <message>`.

What the model pins down for each operation:

- the exact statement it sends;
- which failure message it produces on each path;
- what it makes of the driver's answer.

### Behaviour of the code that the model keeps

The model follows the code where the code has sharp edges:

- **`likeClause` with an empty mapping.** A present but empty mapping yields the fragment `)` and no parameters. `SELECT` then appends ` WHERE )`; `Format.LikeClause` and `MysqlDb.SelectWhereCases` state this. An absent mapping yields the empty fragment. Treating both cases as `("", [])` would be the tidier contract, but the code does not do that, and the model follows the code.
- **`UPDATE` with an empty WHERE mapping** sends `... WHERE ` with nothing after it. The driver is left to reject that.
- **A `null` result header is an error, not a `false`.** `UPDATE` and `INSERT_BATCH_OVERWRITE` read `affectedRows` from the result, so a `null` or `undefined` result throws a `TypeError` that their `catch` wraps (`MysqlDb.UpdateNullResult`, `MysqlDb.InsertBatchNullResult`).
- **`UPDATE` succeeds only on exactly one row.** It returns true exactly when `affectedRows === 1`. An update that hits several rows returns false (`MysqlDb.UpdateExactlyOne`).
- **`UPDATE` sends no `;`.** It calls the pool directly rather than through `executeQuery`, so it does not append `;`. `SELECT` goes through `executeQuery` and does.
- **Join without columns.** A join whose `columns` field is left out (possible for untyped callers) keeps the projection `SELECT * FROM t`, so the text holds `FROM t` twice.
- **Join with an empty `columns` array.** This is truthy, so the projection becomes `SELECT t.*, ` followed by nothing.
- **`INSERT_BATCH_OVERWRITE` takes everything from the first record.** The column list, the update list and the group width all come from it. Parameters come from every record. The placeholder and parameter counts agree whenever the records hold as many values in total as the first record times the number of records. Only uniform records also put each record's values in its own group (`MysqlDb.BatchValuesRowMajor`, `MysqlDb.BatchAligned`).
- **`INSERT_GETID` splices its parameters into the text.**
  - Strings are quoted without escaping; other values appear as their text.
  - It then executes the text with no parameters.
  - Every failure on that path becomes the bare message `Error in INSERT_GETID`.
- **Two wordings of the missing-pool message.** `SELECT`, `INSERT_BATCH_OVERWRITE` and `cleanTable` say "Ensure the pool is created…". `UPDATE` and `INSERT_GETID` say "Ensure pool is created…". `removeOldEntries` has no check, so it fails with the `TypeError` of calling `execute` on `undefined`.

## Model

| member | source | states |
|---|---|---|
| `Strings.Join` | src/server/functions/FORMAT.ts:11-13 | `join(sep)`: no parts give the empty string, and a join starts with the first character of a non-empty first part |
| `Strings.IntToDecimal` | src/server/classes/MYSQL_DB.ts:327-333 | the decimal text of an integer (`toString` for magnitudes below 10^21): at least one character, the digits of the magnitude, with `-` in front exactly when the number is negative |
| `Strings.PadStart` | src/server/classes/MYSQL_DB.ts:328-332 | `padStart(width, fill)`: text already at least `width` long is unchanged; otherwise the result is exactly `width` long, ends with the original text, and everything before it is `fill` |
| `Strings.DecimalRoundTrip` | src/server/classes/MYSQL_DB.ts:327 | reading back the decimal text of a natural number gives that number |
| `JsValues.Keys` | src/server/functions/FORMAT.ts:11 | `Object.keys`: one key per entry, in entry order |
| `JsValues.Values` | src/server/functions/FORMAT.ts:14 | `Object.values`: one value per entry, in entry order, so key *i* and value *i* belong to the same entry |
| `Placeholders.Spliced` | src/server/classes/MYSQL_DB.ts:313-317 | the `replace` callback leaves every character other than `?` in place, so text that does not start with a placeholder keeps its first character |
| `Placeholders.SpliceParams` | src/server/classes/MYSQL_DB.ts:313-317 | the `replace`/`shift()` loop of `INSERT_GETID` computes exactly the reference substitution `Spliced`: each `?` in turn is replaced by the next parameter, a string quoted, and by `undefined` once the list is used up |
| `Placeholders.SplicedConcat` | src/server/classes/MYSQL_DB.ts:313-317 | substituting into `a + b` substitutes into `a` and then into `b` with the parameters `a` left over |
| `Placeholders.SplicedSequence` | src/server/classes/MYSQL_DB.ts:313-317 | when `a` has exactly as many placeholders as its parameter list, concatenating two fragments and their lists keeps every parameter with its own fragment, and the placeholder counts add up |
| `Placeholders.SplicedBetween` | src/server/classes/MYSQL_DB.ts:313-317 | two fragments placed after, and separated by, placeholder-free text each keep their own parameters |
| `Placeholders.CommaSpliced` | src/server/classes/MYSQL_DB.ts:313-317 | when two fragments are joined by `, ` and the first has exactly as many placeholders as its parameters, each fragment is filled with its own parameters |
| `Placeholders.JoinHolesSpliced` | src/server/classes/MYSQL_DB.ts:313-317 | joining one-placeholder parts with a plain separator and substituting gives the join of the parts, each holding its own parameter |
| `Format.WhereClause` | src/server/functions/FORMAT.ts:4-17 | the parameters are the mapping's values in key order; the fragment is empty exactly when the mapping is absent or has no entries |
| `Format.SetClause` | src/server/functions/FORMAT.ts:24-30 | the parameters are the mapping's values in key order; the fragment is empty exactly when the mapping is empty |
| `Format.LikeClause` | src/server/functions/FORMAT.ts:31-53 | the parameters are `%value%` for each value in key order; an absent mapping gives the empty fragment, a present one never does, and an empty one gives the lone `)` |
| `Format.Patterns` | src/server/functions/FORMAT.ts:43 | one `%<text>%` string per value, in order |
| `Format.WhereClauseAligned` | src/server/functions/FORMAT.ts:4-17 | the WHERE fragment has one placeholder per parameter, and filling them in gives `<table>.<key> = <value>` for each entry, in key order, joined by ` AND ` |
| `Format.SetClauseAligned` | src/server/functions/FORMAT.ts:24-30 | the SET fragment has one placeholder per parameter, and filling them in gives `<key> = <value>` for each entry, in key order, joined by `, ` |
| `Format.SetClauseExample` | src/server/functions/FORMAT.ts:24-30 | `setClause({a: 1, b: "x"})` is `["a = ?, b = ?", [1, "x"]]` |
| `Format.LikeGroup` | src/server/functions/FORMAT.ts:40-49 | the `map` callback and `join('')`: no keys give the empty text; otherwise `(` at index 0 and ` OR ` after it, followed by the `<table>.<key> LIKE ?` conditions joined by ` OR ` |
| `Format.LikeClauseShape` | src/server/functions/FORMAT.ts:38-50 | a non-empty mapping gives `(` + the `<table>.<key> LIKE ?` conditions joined by ` OR ` + `)` |
| `Format.LikeClauseAligned` | src/server/functions/FORMAT.ts:31-53 | the LIKE fragment has one placeholder per parameter, the lone `)` of an empty mapping included; for a non-empty mapping, filling them in gives `(<table>.<key> LIKE '%<value>%' OR …)` |
| `SqlTimestamp.TwoDigitsIsPadStart` | src/server/classes/MYSQL_DB.ts:328-332 | the digit-by-digit component text equals `toString().padStart(2, '0')` for every integer |
| `SqlTimestamp.TwoDigitsValue` | src/server/classes/MYSQL_DB.ts:328-332 | a component below 100 is written as two digits that read back as the component |
| `SqlTimestamp.PiecesRoundTrip` | src/server/classes/MYSQL_DB.ts:328-333 | the separator-and-two-digit groups parse back to the components they were written from |
| `SqlTimestamp.PiecesLength` | src/server/classes/MYSQL_DB.ts:328-333 | the separator-and-two-digit groups are three characters each |
| `SqlTimestamp.YearRoundTrip` | src/server/classes/MYSQL_DB.ts:327 | the year's text is an optionally signed run of digits that reads back as the year |
| `SqlTimestamp.FormatDateToSqlTimestamp` | src/server/classes/MYSQL_DB.ts:326-334 | the timestamp starts with the year's text, and for a date whose getters are in range it is exactly 15 characters longer |
| `SqlTimestamp.TimestampTemplate` | src/server/classes/MYSQL_DB.ts:326-334 | the timestamp is the template `${year}-${month}-${day} ${hours}:${minutes}:${seconds}` with every component but the year written as `toString().padStart(2, '0')`, the month as `getMonth() + 1` |
| `SqlTimestamp.TimestampRoundTrip` | src/server/classes/MYSQL_DB.ts:326-334 | the timestamp of a date whose getters are in range reads back as exactly that date (so distinct dates give distinct timestamps) |
| `SqlTimestamp.TimestampLayout` | src/server/classes/MYSQL_DB.ts:326-334 | a date with a four-digit year gives 19 characters, `YYYY-MM-DD HH:MM:SS`, with the separators at positions 4, 7, 10, 13 and 16 |
| `SqlTimestamp.NewYearMidnight` | src/server/classes/MYSQL_DB.ts:326-334 | 1 January 2024 at midnight is written `2024-01-01 00:00:00`, every component zero-padded |
| `MysqlDb.Terminated` | src/server/classes/MYSQL_DB.ts:44-46 | `executeQuery` sends the query followed by exactly one `;`, with its parameters unchanged |
| `MysqlDb.ProcessResult` | src/server/classes/MYSQL_DB.ts:47-57 | the first element when the result is a non-empty array whose first element is an array, and no rows in every other case |
| `MysqlDb.QualifiedColumns` | src/server/classes/MYSQL_DB.ts:86-90 | each joined column is prefixed with the joined table's name, in order |
| `MysqlDb.SelectHead` | src/server/classes/MYSQL_DB.ts:84-103 | the head before the WHERE part: `SELECT * FROM t` and a newline without a join; with a join that has columns, `SELECT t.*, <joined columns>`, a newline, `FROM t`, a newline and `<TYPE> JOIN <table> ON <on>`; with a join without columns the same, but starting with `SELECT * FROM t` and a newline, so `FROM t` appears twice |
| `MysqlDb.WherePart` | src/server/classes/MYSQL_DB.ts:105-120 | no WHERE when both fragments are empty; ` WHERE ` and the one non-empty fragment; ` WHERE w AND l` when both are non-empty |
| `MysqlDb.SelectStatement` | src/server/classes/MYSQL_DB.ts:73-122 | the parameters are the WHERE parameters followed by the LIKE parameters |
| `MysqlDb.Select` | src/server/classes/MYSQL_DB.ts:58-134 | with no pool, the un-wrapped "pool was not created" error; on a fault, `Error in SELECT: Error: <message>`; otherwise the rows of the first result set, or no rows when it is not an array; the statement is the SELECT text terminated with `;` |
| `MysqlDb.SelectWhereCases` | src/server/classes/MYSQL_DB.ts:105-120 | the statement is the head followed by the WHERE part; the WHERE part is empty exactly when the WHERE mapping has no entries and no LIKE mapping is given; an empty LIKE mapping alone yields ` WHERE )` |
| `MysqlDb.SelectAligned` | src/server/classes/MYSQL_DB.ts:58-128 | the executed SELECT text has one placeholder per parameter, and filling them in gives the head followed by the WHERE part built from the WHERE and LIKE fragments, each filled with its own parameters |
| `MysqlDb.UpdateStatement` | src/server/classes/MYSQL_DB.ts:146-156 | the parameters are the SET values followed by the WHERE values |
| `MysqlDb.ReadProperty` | src/server/classes/MYSQL_DB.ts:162 | reading a property fails exactly on `null` and `undefined`, with the `TypeError` text `Cannot read properties of <null or undefined> (reading '<name>')`; on a record it gives the field's value, and a value other than `undefined` comes only from a field of that name |
| `MysqlDb.Update` | src/server/classes/MYSQL_DB.ts:135-166 | with no pool, the short-worded error; on a fault, `Error in UPDATE: Error: <message>`; on a `null` or `undefined` result, `Error in UPDATE: TypeError: Cannot read properties of …`; otherwise true exactly when the header's `affectedRows` is the number 1; the statement is sent without `;` |
| `MysqlDb.UpdateNullResult` | src/server/classes/MYSQL_DB.ts:161-164 | a `null` result makes `UPDATE` fail with `Error in UPDATE: TypeError: Cannot read properties of null (reading 'affectedRows')` |
| `MysqlDb.UpdateExactlyOne` | src/server/classes/MYSQL_DB.ts:161-162 | a header reporting *n* affected rows makes `UPDATE` answer *n = 1*: false for 0 rows and for several |
| `MysqlDb.UpdateAligned` | src/server/classes/MYSQL_DB.ts:146-161 | the UPDATE text has one placeholder per parameter, and filling them in gives `UPDATE t SET <key> = <value>, … WHERE t.<key> = <value> AND …`, every column with its own value |
| `MysqlDb.Repeat` | src/server/classes/MYSQL_DB.ts:190-195 | `Array(n).fill(x)` and mapping every row to the same group: exactly *n* copies of `x` |
| `MysqlDb.NullIfUndefined` | src/server/classes/MYSQL_DB.ts:200 | `undefined` becomes `null` and every other value is kept, so the result is never `undefined` |
| `MysqlDb.RowValues` | src/server/classes/MYSQL_DB.ts:199-201 | one value per entry of the record, in key order, `undefined` replaced by `null` |
| `MysqlDb.FlatValues` | src/server/classes/MYSQL_DB.ts:198-202 | no flattened batch parameter is `undefined` |
| `MysqlDb.QuotedColumns` | src/server/classes/MYSQL_DB.ts:204-206 | each column name in backticks, in key order |
| `MysqlDb.OverwriteColumns` | src/server/classes/MYSQL_DB.ts:207-209 | `` `col` = VALUES(`col`) `` for each column, in key order |
| `MysqlDb.BatchStatement` | src/server/classes/MYSQL_DB.ts:189-213 | the parameters are every record's values, record after record, with `undefined` sent as `null` |
| `MysqlDb.Counter` | src/server/classes/MYSQL_DB.ts:231-232 | a counter of a MySQL result header, which holds a number there or nothing: a number is kept and anything else is read as 0 |
| `MysqlDb.InsertBatchOverwrite` | src/server/classes/MYSQL_DB.ts:170-245 | with no pool, the long-worded error; an empty batch fails with `INSERT_BATCH_OVERWRITE Error: No data provided for batch insert.`; a fault gives `INSERT_BATCH_OVERWRITE Error: <message>`; a `null` or `undefined` result gives `INSERT_BATCH_OVERWRITE Error: Cannot read properties of …`; otherwise `affected` and `changed` are the header's counters, and on every success `inserted = affected - changed` |
| `MysqlDb.InsertBatchNullResult` | src/server/classes/MYSQL_DB.ts:231-244 | a `null` result makes the batch fail with `INSERT_BATCH_OVERWRITE Error: Cannot read properties of null (reading 'affectedRows')` |
| `MysqlDb.BatchValuesRowMajor` | src/server/classes/MYSQL_DB.ts:198-202 | for records with the same number of columns there are rows × columns parameters, and value *j* of record *i* is parameter *i* × columns + *j* |
| `MysqlDb.BatchSql` | src/server/classes/MYSQL_DB.ts:189-213 | over names without `?`, the upsert text holds rows × columns placeholders |
| `MysqlDb.UpsertTextCount` | src/server/classes/MYSQL_DB.ts:204-213 | over names without `?`, the column list and the update list hold no placeholder, so all rows × columns placeholders are in the VALUES groups |
| `MysqlDb.BatchPlaceholders` | src/server/classes/MYSQL_DB.ts:189-223 | the statement holds rows × first-record columns placeholders in all, which is one per parameter when the records are uniform |
| `MysqlDb.GroupSpliced` | src/server/classes/MYSQL_DB.ts:189-192 | a row group `(?, …, ?)` holds one placeholder per value, and filling it with a list of values gives `(<value>, …)`, each value in its own place, in order |
| `MysqlDb.GroupsSpliced` | src/server/classes/MYSQL_DB.ts:193-202 | filling the joined row groups with the flattened values of uniform records puts record *i*'s values into group *i* |
| `MysqlDb.BatchAligned` | src/server/classes/MYSQL_DB.ts:189-223 | for uniform records over names without `?`, filling in the upsert's placeholders gives `INSERT INTO t (<columns>) VALUES (<record 1's values>), (<record 2's values>), … ON DUPLICATE KEY UPDATE …`, each value in the group of its own record, in key order, `undefined` written as `null` |
| `MysqlDb.BatchTextFromFirstRow` | src/server/classes/MYSQL_DB.ts:189-213 | the statement text depends only on the first record's keys and the number of records |
| `MysqlDb.InsertedFromCounters` | src/server/classes/MYSQL_DB.ts:231-238 | a header with 3 affected and 1 changed row reports 2 inserted, 3 affected and 1 changed |
| `MysqlDb.CleanTable` | src/server/classes/MYSQL_DB.ts:250-263 | sends `DELETE FROM <table>;` and answers true; both failures, the missing pool included, become `cleanTable failed for table: <table>: Error: <message>` |
| `MysqlDb.RemoveOldEntries` | src/server/classes/MYSQL_DB.ts:269-287 | sends the DELETE statement with the cutoff as a quoted literal and no parameters; with no pool it fails with the `TypeError` of `execute` on `undefined`, a fault with `Error in removeOldEntries: Error: <message>` |
| `MysqlDb.RemoveOldCutoffLiteral` | src/server/classes/MYSQL_DB.ts:277-281 | the first quote of the DELETE statement opens the cutoff literal, and that literal reads back as the cutoff date |
| `MysqlDb.InsertGetId` | src/server/classes/MYSQL_DB.ts:295-325 | with no pool, the short-worded error; otherwise the SET text with its parameters spliced in is executed with no parameters; a fault gives the bare `Error in INSERT_GETID`, success the `[result, fields]` pair |
| `MysqlDb.InsertGetIdSpliced` | src/server/classes/MYSQL_DB.ts:308-317 | the executed text is `INSERT INTO t SET <key> = <value>, …`, each column with its own value, strings quoted, in key order |

## Left out

- Pool creation, the environment configuration and the static `config` (src/server/classes/MYSQL_DB.ts:26-43) are external setup. The pool is an input, either absent or an oracle.
- `async`/`Promise` control flow is not modelled. Each operation is one call to the oracle that either returns or faults.
- How MySQL computes `affectedRows` and `changedRows` for `ON DUPLICATE KEY UPDATE` is not modelled. These are engine semantics, read from the oracle's header.
- All `console` logging is left out; it has no effect on results.
- The `errors` field is never updated and is left out.
- The commented-out `FORMAT.select` is dead code and is left out.
- The driver's own binding of parameters to placeholders, its escaping, and SQL injection are not modelled. `Spliced` is the reference meaning of "placeholder *i* holds parameter *i*". No SQL is parsed, and the join's raw `on` condition is taken as text.
- `JsValues.Text`: a `Num` is written in plain decimal; JavaScript uses exponent notation from 10^21 on.
- Only integer numbers are modelled (`Num`). The text JavaScript gives a floating-point number is not, and values of other types are opaque text (`Other`).
- A JavaScript `Date` is represented by the values of its local-time getters. The time zone, an invalid `Date` (whose getters return `NaN`) and calendar validity beyond the getters' ranges are not modelled.
- Column mappings are entry sequences in `Object.keys` order. JavaScript objects have distinct keys, and the model assumes the same of the sequences it is given. The value read for a key is the value paired with it.
- `options || {}` of `SELECT`: the absent options object is the `SelectOptions` whose three fields are all `None`.
- `MysqlDb.Counter`: `|| 0` keeps any truthy value, so a header holding `"3"` or `true` would be kept (and `"3" - 0` is 3); the model reads every non-number as 0, since a MySQL result header holds only numbers there.
- `MysqlDb.InsertBatchOverwrite`: a counter that is not an integer number is read as 0. `||` would keep a truthy non-number value, which a MySQL result header never holds.
- `MysqlDb.Select`: the rows are returned as driver values (`Js`), not converted to the caller's type `T`. TypeScript's cast has no run-time effect.
- `MysqlDb.RemoveOldCutoffLiteral`: the table and column names must hold no single quote. With one, the statement's quoting is ambiguous, and this injection surface is noted rather than verified.
- `Format.WhereClauseAligned`, `Format.SetClauseAligned`, `Format.LikeClauseAligned`, `MysqlDb.UpdateAligned`, `MysqlDb.BatchPlaceholders`, `MysqlDb.BatchAligned` and `MysqlDb.InsertGetIdSpliced` require that the table and column names contain no `?`. A name with `?` would add placeholders the parameter list does not fill.
- `MysqlDb.SelectAligned`: besides the table and column names, the join's table, its `on` text and its joined columns must contain no `?`, for the same reason.
- `MysqlDb.BatchSql` and `MysqlDb.UpsertTextCount`: the placeholder count is stated only for a table name and keys without `?`.
