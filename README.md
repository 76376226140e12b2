# Alistair CRUD layer in Dafny

This project models the data-access core of Alistair, a small PHP library
with two parts:

- `CrudModel` is an abstract entity accessor. A concrete model supplies the
  declared columns (`columns()`). The table name comes from the model's
  short class name in snake_case. From these, the accessor builds the SQL
  text and the bound parameters of `count`, `create`, `get`, `getById`,
  `update` and `delete`.
- `DbAccess` is the statement executor. Each of its methods prepares and
  executes exactly one statement, then picks what to return from the rows
  that statement produced.

Modules:

- `Php` (php.dfy) holds the PHP vocabulary the core relies on:
  - values (`Value`) and ordered arrays (`PhpArray`, a sequence of
    key/value entries);
  - `unset` and key assignment, `join`, `explode($sep, $s, 2)` and
    `array_unique`;
  - ASCII `strtoupper`, `strtolower` and `lcfirst`;
  - decimal `"$n"` interpolation and the `(int)` cast of a string.
- `Db` (db.dfy) holds the selection functions of `queryRows`, `queryRow` and
  `queryValue`, and a `DbAccess` class. PDO itself is opaque. The class gets
  two functions:
  - `exec` answers each prepared statement given all earlier ones, with a
    PDOException or some rows;
  - `insertId` supplies `lastInsertId()`.

  The class's `log` field records every statement, oldest first. Each method
  appends exactly one call and returns what the source returns, or the
  propagated exception.
- `Crud` (crud.dfy) holds the table-name derivation, the SQL fragment
  builders and the query texts. `columnsAsList` and `sortAsList` are loop
  methods, each proved against a specification function. The module also
  holds `filterData` and the `CrudModel` class, whose methods issue one
  statement each through `DbAccess`.

Where the code and the docblocks or design notes disagree, the model follows
the code, with one exception: a sort entry without ':' sorts ascending, the
default the docblock of `get` documents, while the code throws a TypeError
there (see Findings). The other disagreements, where the code is followed:

- Requested projection columns and sort columns are not checked against
  `columns()`. Any requested name is selected or sorted on
  (`Crud.Projection`, `Crud.SortItemParts`). Only the data of
  `create`/`update` is filtered to the declared columns.
- `create` and `update` have no required-field check. Data that filters down
  to nothing still issues an INSERT or UPDATE with an empty list
  (`Crud.EmptyWriteQueries`).
- `get` throws when a count is given with a null sort. An empty sort
  satisfies this rule and adds no ORDER BY (`Crud.GetEmptySort`).
- `queryRow` returns null when there is no row, while
  tests/DbAccessTest.php:93-100 expects an empty array. The model follows
  the code (`Db.SelectRow`). Through `(array)`, `getById` and `queryValue`
  still turn that null into `[]`.

## Model

| member | source | states |
|---|---|---|
| Crud.TableName | src/Alistair/CrudModel.php:38-51 | the derived table name never contains an ASCII capital, and a non-empty class name gives a name starting with its first letter in lower case |
| Crud.CrudModel.Table | src/Alistair/CrudModel.php:38-51 | the model's table name holds no capital, starts with the class name's first letter in lower case, and is its own table name |
| Crud.TableNameLetters | src/Alistair/CrudModel.php:38-51 | with the inserted underscores removed, the table name is the class name in lower case: no letter is lost, added or reordered |
| Crud.TableNameIdempotent | src/Alistair/CrudModel.php:38-51 | deriving a table name from a table name changes nothing |
| Crud.UpperRunSpan | src/Alistair/CrudModel.php:45 | the match of `[A-Z]+` at a capital is all capitals and maximal: the character after it is not a capital |
| Crud.ReplaceUpperRunsOneRun | src/Alistair/CrudModel.php:44-50 | a maximal run of capitals, followed by anything, becomes one underscore plus the run in lower case, and the conversion carries on with what follows the run |
| Crud.ReplaceUpperRunsSplit | src/Alistair/CrudModel.php:44-50 | the replacement works match by match: a string cut anywhere that does not split a run of capitals converts as its two halves converted apart and joined |
| Crud.TableNameFirstLetter | src/Alistair/CrudModel.php:42-50 | lcfirst runs first, so the first letter never gets an underscore: it is lower-cased, and the rest of the name is converted as it stands |
| Crud.TableNameAcronym | src/Alistair/CrudModel.php:42-50 | when the first letter is followed by a run of capitals (positions 1 to n-1), the name is the first letter in lower case, one `_` and the run in lower case, then the rest converted |
| Crud.TableNameAcronymThenLower | src/Alistair/CrudModel.php:42-50 | with no capital after that run the rest is kept verbatim: HTTPRequest gives h_ttprequest |
| Crud.LowerHeadThenRest | src/Alistair/CrudModel.php:42-50 | a first word with no further capital is kept with its first letter lower-cased, and the rest of the name is converted apart |
| Crud.TableNameWords | src/Alistair/CrudModel.php:42-50 | for a first word followed by capitalised words, each capitalised word becomes `_` plus the word in lower case: FooBarBaz gives foo_bar_baz |
| Crud.TableNameFooBar | src/Alistair/CrudModel.php:38-51 | FooBar gives foo_bar |
| Crud.ColumnsAsList | src/Alistair/CrudModel.php:59-70 | returns `*` as soon as any name is `*`; otherwise each name in backticks, in input order, joined by ", " |
| Crud.ColumnsAsAssign | src/Alistair/CrudModel.php:78-85 | the SET list is empty exactly when there are no columns, and pairs each quoted name with its placeholder, `name` = :name, in column order |
| Crud.ColumnsAsPlaceholders | src/Alistair/CrudModel.php:93-100 | the placeholder list is empty exactly when there are no columns; for names without ':', removing the colons leaves the names joined by ", " |
| Php.JoinEmpty | src/Alistair/CrudModel.php:84 | joining non-empty items gives the empty string exactly when there are none |
| Crud.FragmentsPerColumn | src/Alistair/CrudModel.php:78-100 | the quoted-name, assignment and placeholder lists have one entry per column, in order, and each SET pair is the quoted name `= :`name |
| Crud.InsertListsAlign | src/Alistair/CrudModel.php:172-176 | for keys without `*` and with no backtick or colon in any name, the INSERT column list and its VALUES placeholder list come from the same keys in the same order: without the backticks and the colons, both read as the keys joined by ", " (a `*` key breaks this: `(id, *) VALUES (NULL, :*)`) |
| Crud.SortItem | src/Alistair/CrudModel.php:113-121 | an entry without ':' sorts ascending on the whole entry, the documented default of the corrected model (see Findings) |
| Crud.SortEntry | src/Alistair/CrudModel.php:113-121 | the per-entry step of sortAsList computes exactly SortItem |
| Crud.SortAsList | src/Alistair/CrudModel.php:110-125 | one ORDER BY item per sort entry, in input order, joined by ", " |
| Crud.SortItemParts | src/Alistair/CrudModel.php:113-121 | the column is the text before the first ':', verbatim; the direction is DESC exactly when the rest upper-cases to DESC, and ASC otherwise |
| Crud.DescAnyCase | src/Alistair/CrudModel.php:116-119 | a direction upper-cases to DESC if and only if it is the four letters d, e, s, c in any mix of case |
| Crud.SortItemDescAnyCase | src/Alistair/CrudModel.php:113-121 | `col:desc`, `col:Desc` and every other case mix sort descending |
| Crud.SortItemExplicitAsc | src/Alistair/CrudModel.php:113-121 | an entry `col:ASC` sorts ascending on col |
| Crud.SortItemFallsBackToAsc | src/Alistair/CrudModel.php:114-119 | everything after the first ':' is the direction, so an entry with a second ':' sorts ascending |
| Crud.SortItemAsWritten | src/Alistair/CrudModel.php:114-116 | as written, an entry without ':' throws a TypeError (strtoupper(null) under strict_types); an entry with ':' gives the same item as the corrected SortItem |
| Crud.BareSortEntryRaises | src/Alistair/CrudModel.php:114-116 | a bare column name raises as written, but sorts ascending in the corrected model |
| Crud.FilterData | src/Alistair/CrudModel.php:133-140 | keeps exactly the entries whose key is a declared column |
| Crud.FilterDataConcat | src/Alistair/CrudModel.php:137-139 | filtering preserves relative order: it distributes over concatenation |
| Crud.FilterDataKeepsDeclared | src/Alistair/CrudModel.php:137-139 | data that uses only declared columns passes through unchanged |
| Crud.FilterDataIdempotent | src/Alistair/CrudModel.php:133-140 | filtering twice is the same as filtering once |
| Crud.WritableData | src/Alistair/CrudModel.php:164-169 | create and update bind exactly the entries whose key is declared and is not `id` |
| Crud.WritableDataConcat | src/Alistair/CrudModel.php:164-169 | the data create and update bind keeps the caller's order: it distributes over concatenation |
| Crud.WritableKeysDeclared | src/Alistair/CrudModel.php:164-176 | every column named in the INSERT or SET text is a declared column other than `id` |
| Crud.UpdateBindsCallerId | src/Alistair/CrudModel.php:278-288 | update binds `id` to the caller's id, appended after the data, whatever `id` the data carried |
| Crud.EmptyWriteQueries | src/Alistair/CrudModel.php:176 | with no writable column, the INSERT and UPDATE texts are still issued, with empty lists |
| Crud.CountReadsDriverValue | src/Alistair/CrudModel.php:148-152 | count recovers n from a driver value that is n or the decimal text of n, and gives 0 when there is no row |
| Crud.Projection | src/Alistair/CrudModel.php:216-220 | the selected columns are the requested ones (or the declared ones when none are requested) plus `id`, with no repeat |
| Crud.ProjectionIdOnce | src/Alistair/CrudModel.php:219-220 | `id` is selected exactly once |
| Crud.ProjectionShape | src/Alistair/CrudModel.php:216-220 | repeats are dropped at their first occurrence, and `id` is appended only when it was not requested; a repeat-free request is kept as is |
| Crud.GetQuery | src/Alistair/CrudModel.php:207-236 | get throws if and only if an offset comes without a count, or a count comes with a null sort, and both throws are InvalidArgumentException; otherwise the statement starts with the SELECT of the projection, and is exactly that SELECT when nothing sorts or pages it |
| Crud.GetSelectText | src/Alistair/CrudModel.php:222-236 | the text is the projection's SELECT, then ORDER BY for a non-empty sort, then LIMIT and OFFSET when given, in that order |
| Crud.GetEmptySort | src/Alistair/CrudModel.php:212-231 | an empty, non-null sort satisfies the count rule and adds no ORDER BY clause |
| Crud.GetPaginationExample | src/Alistair/CrudModel.php:216-236 | columns bar, baz with sort `id:ASC`, count 2 and offset 1 give ``SELECT `bar`, `baz`, `id` FROM `foo` ORDER BY `id` ASC LIMIT 2 OFFSET 1`` |
| Crud.GetStarExample | src/Alistair/CrudModel.php:208-224 | a requested `*` selects `*` without listing `id`; an offset without a count throws |
| Crud.CrudModel.Count | src/Alistair/CrudModel.php:148-152 | issues one COUNT query without params; returns its value cast to int, or the propagated PDOException |
| Crud.CrudModel.Create | src/Alistair/CrudModel.php:161-181 | issues one INSERT of the writable data, bound by name; returns the last insert id after that statement, or the propagated exception |
| Crud.CrudModel.Get | src/Alistair/CrudModel.php:201-239 | on a rejected argument combination, throws and issues no statement; otherwise issues exactly the SELECT of GetQuery without params and returns its rows |
| Crud.CrudModel.GetById | src/Alistair/CrudModel.php:249-262 | issues one SELECT of the projection bound to `[id]`; returns the first row, or `[]` when there is none |
| Crud.CrudModel.Update | src/Alistair/CrudModel.php:272-289 | issues one UPDATE of the writable data, with `id` bound to the caller's id |
| Crud.CrudModel.Delete | src/Alistair/CrudModel.php:298-305 | issues one DELETE bound to `[id]` |
| Php.Unique | src/Alistair/CrudModel.php:220 | array_unique keeps the same members, without repeats, and is never longer |
| Php.UniqueSnoc | src/Alistair/CrudModel.php:219-220 | appending a name that is already present leaves array_unique unchanged; otherwise the name is appended |
| Php.UniquePrefix | src/Alistair/CrudModel.php:220 | the first occurrences of a prefix come first and in order: array_unique of a prefix is a prefix of array_unique |
| Php.Explode2 | src/Alistair/CrudModel.php:114 | the head holds no separator; the parts reassemble into the input around the first separator |
| Php.Explode2AtFirst | src/Alistair/CrudModel.php:114 | the split happens at the first separator, whatever follows it |
| Php.Decimal | src/Alistair/CrudModel.php:231-235 | an int is written as decimal digits, with a leading '-' exactly when it is negative |
| Php.StrToInt | src/Alistair/CrudModel.php:151 | a digit string casts to its decimal value, '-' followed by digits to its negation, and a string starting with neither a sign nor a digit to 0 |
| Php.ToInt | src/Alistair/CrudModel.php:151 | `(int)` of null is 0, of a bool 1 or 0, of an int the int itself, and of a digit string its decimal value |
| Php.DecimalRoundTrip | src/Alistair/CrudModel.php:151 | the `(int)` cast of an integer's decimal text gives the integer back |
| Php.Unset | src/Alistair/CrudModel.php:167-169 | removes exactly the entries with that key and changes nothing when the key is absent |
| Php.UnsetConcat | src/Alistair/CrudModel.php:167-169 | unset keeps the surviving entries in their order, repeats included: it distributes over concatenation |
| Php.UnsetSingle | src/Alistair/CrudModel.php:167-169 | a single entry survives exactly when its key is not the one unset |
| Php.Assign | src/Alistair/CrudModel.php:286 | afterwards the key maps to the value, every other key is unchanged, and a new key is appended at the end |
| Db.SelectRows | src/Alistair/DbAccess.php:81-84 | queryRows hands back every row, in driver order |
| Db.RowsNeverFalse | src/Alistair/DbAccess.php:84 | a false from fetchAll becomes the empty list; a row list passes through |
| Db.SelectRow | src/Alistair/DbAccess.php:106-109 | queryRow gives null if and only if there is no row, and otherwise the first row |
| Db.SelectValue | src/Alistair/DbAccess.php:123-126 | queryValue gives null when there is no row, and otherwise the first column of the first row |
| Db.SelectValueNullIff | src/Alistair/DbAccess.php:123-126 | queryValue gives null if and only if there is no row, the row has no column, or its first column is NULL |
| Db.SelectValueFalsy | src/Alistair/DbAccess.php:123-126 | falsy values such as 0, "" and false come back as they are, not as null |
| Db.DbAccess.Stmt | src/Alistair/DbAccess.php:31-37 | appends exactly one prepare+execute of the query and params to the log, and yields the connection's answer to it |
| Db.DbAccess.Query | src/Alistair/DbAccess.php:57-60 | runs one statement; a PDOException propagates unchanged |
| Db.DbAccess.QueryRows | src/Alistair/DbAccess.php:71-85 | runs one statement and returns SelectRows of its rows, or the exception |
| Db.DbAccess.QueryRow | src/Alistair/DbAccess.php:96-110 | runs one statement and returns SelectRow of its rows, or the exception |
| Db.DbAccess.QueryValue | src/Alistair/DbAccess.php:121-127 | runs one statement through queryRow and returns SelectValue of its rows, or the exception |
| Db.DbAccess.LastInsertId | src/Alistair/CrudModel.php:180 | the connection's last insert id for the statements issued so far; the log is unchanged |

## Left out

- The `$classname` parameter of queryRows and queryRow (PDO::FETCH_CLASS
  hydration into objects) is not modelled. Only FETCH_ASSOC rows are.
- PDO is not modelled: preparing, binding, executing and closing the cursor
  are one opaque answer per statement (`exec`). `getPdo()` is folded into
  `LastInsertId`, which returns an int, so the `(int)` cast of
  lastInsertId's string (or false) is not modelled.
- `ReflectionClass::getShortName()` is not modelled. The short class name
  is a field of the model object.
- `in_array` and `==` in filterData, columnsAsList and sortAsList compare
  loosely in PHP. The model compares exactly, and PHP's conversion of
  numeric-string array keys to integers is not modelled.
- Php.ToInt: models the `(int)` cast of a string as an optional sign
  followed by leading decimal digits. Leading whitespace, float and exponent
  forms, and the 64-bit saturation of PHP integers are not modelled.
  Integers are unbounded throughout.
- Strings are sequences of characters and case mapping is ASCII only. PHP
  works on bytes, and multibyte text is not distinguished.
- Crud.SortAsList, Crud.GetQuery, Crud.CrudModel.Get: follow the documented
  ASC default for a sort entry without ':'. As written, the source throws a
  TypeError there (CrudModel.php:116) before any statement is issued; only
  Crud.SortItemAsWritten models that throw (see Findings).
- The "Undefined array key 1" warning raised by destructuring a sort entry
  without ':' is not modelled.
- The `?string` return type of queryValue is not enforced: values are
  passed through as the driver gives them. The native-int clause of
  Crud.CountReadsDriverValue therefore describes the cast alone; under
  strict_types such a value would make queryValue throw.
- src/Alistair/Model.php and the interface files are not part of this
  model. Nor are concurrency, connection management or transactions.

## Findings

| source | as written | input that shows it | evidently intended | confidence | as-written member | corrected member |
|---|---|---|---|---|---|---|
| src/Alistair/CrudModel.php:114-116 | `[$col, $direction] = explode(':', $column, 2)` leaves `$direction` null for an entry without ':'. `strtoupper(null)` then throws a TypeError, because the file declares strict_types. | `get(null, ['name'])` | the docblock at lines 188-190 calls ASC the default, so a bare column sorts ascending | not executed | Crud.SortItemAsWritten (with Crud.BareSortEntryRaises) | Crud.SortItem, used by Crud.SortAsList and Crud.GetQuery (Crud.SortItemParts) |
