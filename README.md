# Dynamic CRUD endpoint: a Dafny model

The repository has two versions of one generic table endpoint,
`/api/dynamic_api/{table}/{type}`. The first is a Django view (`dynamic_api` with `insert_action`,
`update_action`, `delete_action` and `get_action`). The second is a Laravel
controller (`DynamicController::handle` with the `InsertAction`,
`UpdateAction`, `DeleteAction` and `GetAction` classes). Both work the same way:

- The `type` segment is lower-cased and an empty table or type is rejected.
- The URL table is stored in the request data.
- One of four operations runs.
- Each operation validates its fields with its language's truthiness.
- Each issues one database call.
- Each maps the database's answer to a JSON envelope.

The model covers one request at a time:

- The decoded JSON request body is an ordered association list (`Json.Body`), because Python dictionaries and PHP arrays keep insertion order.
- Validation is modelled as written: Python `not v` / `is None` and PHP `!$v` are separate predicates.
- Each handler's result is an `Exchange`. It records the one database call the handler issued, if any, and the outcome.
- The outcome is either an HTTP status with an envelope, or an exception that escapes the handler before the database is reached.
- What the database answers is an input (`Envelope.Db`): the generated id, the affected-row count and the rows returned.
- The Django handlers build the SQL text and parameter list themselves. The model builds the same strings and proves these properties:
  - The placeholders match the parameters.
  - The parameters come in column order.
  - A select has a WHERE clause exactly when there is a condition.
- The Laravel handlers talk to the query builder. The model records the builder calls:
  - `Request` is a class whose `Merge` updates its input.
  - `QueryBuilder` is a class whose `Where` and `Limit` update its state.
- `Compare` states where the two versions agree and exhibits the inputs on which they differ:
  - the string `"0"`;
  - a key value of `0`;
  - a list as insert data.

Modules: `Json` (values, bodies), `Text` (lower-casing, joining, `%`
counting, decimals), `Envelope` (envelopes, outcomes, messages), `Dispatch`
(choosing the operation), `Sql` (statement builders), `Views` (Django),
`Controller` (Laravel), `Compare`.

## Model

| member | source | states |
|---|---|---|
| Json.Keys | DJANGO/DYNAMIC_API/views.py:52 | the keys of a dictionary, one per entry, in insertion order |
| Json.Values | DJANGO/DYNAMIC_API/views.py:57 | the values of a dictionary, one per entry, in insertion order |
| Json.Lookup | DJANGO/DYNAMIC_API/views.py:43-44 | a key is found exactly when it is one of the keys, and what is found is stored under it |
| Json.GetOr | DJANGO/DYNAMIC_API/views.py:128-129 | `get(key, default)` gives the default for an absent key and the stored value otherwise |
| Json.Put | DJANGO/DYNAMIC_API/views.py:22 | after `data[k] = v`, `k` maps to `v` and every other key maps to what it did before |
| Json.PutKeepsKeyOrder | DJANGO/DYNAMIC_API/views.py:22 | assigning to an existing key keeps the key order; a new key goes last |
| Json.PutKeepsUniqueKeys | DJANGO/DYNAMIC_API/views.py:22 | assignment never duplicates a key |
| Text.Lower | DJANGO/DYNAMIC_API/views.py:9 | `lower()` keeps the length and lower-cases each letter |
| Text.LowerIdempotent | DJANGO/DYNAMIC_API/views.py:9 | lower-casing twice is lower-casing once |
| Text.JoinPercents | DJANGO/DYNAMIC_API/views.py:52-53 | joining with a separator free of `%` keeps the total number of `%` in the parts |
| Text.Join | DJANGO/DYNAMIC_API/views.py:52-53 | `sep.join(parts)`: no parts give the empty string; otherwise the text starts with the first part, ends with the last, and is as long as all parts together plus one separator between each two neighbours |
| Envelope.Affected | DJANGO/DYNAMIC_API/views.py:89-92 | the update/delete envelope is a success exactly when the affected-row count is non-zero, with the matching message |
| Views.Truthy | DJANGO/DYNAMIC_API/views.py:46 | a value is falsy in Python exactly when it is None, False, 0, the empty string, the empty dictionary or the empty list |
| Controller.Truthy | LARAVEL/DYNAMIC_API/DynamicController.php:18 | a value is falsy in PHP exactly when it is null, false, 0, the empty string, the string "0" or an empty array |
| Views.Render | DJANGO/DYNAMIC_API/views.py:54 | what an f-string splices in: a string as itself, None as `None`, any other value as its repr, which is never empty |
| Views.Repr | DJANGO/DYNAMIC_API/views.py:83 | the repr of a value is never empty |
| Views.RequestData | DJANGO/DYNAMIC_API/views.py:17-22 | an undecodable body becomes the empty dictionary; a decoded body can take the table only when it is an object, whose members it then is |
| Dispatch.ParseAction | DJANGO/DYNAMIC_API/views.py:24-36 | an action is selected only when the lower-cased type is that action's name |
| Dispatch.ParseActionExactly | DJANGO/DYNAMIC_API/views.py:24-31 | a type selects an action if and only if its lower-case form is that action's name |
| Dispatch.ParseActionRejects | DJANGO/DYNAMIC_API/views.py:32-36 | no action is selected exactly when the lower-cased type is none of insert, update, delete and get |
| Dispatch.ParseActionIgnoresCase | DJANGO/DYNAMIC_API/views.py:9 | a type and its lower-case form select the same action |
| Dispatch.ParseActionName | LARAVEL/DYNAMIC_API/DynamicController.php:25-37 | each action's own name selects it |
| Dispatch.ParseActionUpperCase | LARAVEL/DYNAMIC_API/DynamicController.php:16 | `INSERT` selects the insert action |
| Sql.Placeholders | DJANGO/DYNAMIC_API/views.py:53 | `['%s'] * n` has n entries, each of them `%s` |
| Sql.Assignments | DJANGO/DYNAMIC_API/views.py:82 | one `k=%s` per column, in column order |
| Sql.InsertStatement | DJANGO/DYNAMIC_API/views.py:52-54 | the insert binds one parameter per column, the i-th being the i-th column's value |
| Sql.UpdateStatement | DJANGO/DYNAMIC_API/views.py:82-83 | the update binds the i-th column's value for the i-th assignment and then the key value, one more than the columns |
| Sql.DeleteStatement | DJANGO/DYNAMIC_API/views.py:109 | the delete binds the key value and nothing else |
| Sql.WhereSql | DJANGO/DYNAMIC_API/views.py:142 | the WHERE part is empty exactly when there are no conditions |
| Sql.SelectStatement | DJANGO/DYNAMIC_API/views.py:143-144 | the select binds the given condition parameters in order and then the limit |
| Sql.InsertPlaceholdersMatchParams | DJANGO/DYNAMIC_API/views.py:52-57 | with names free of `%`, the insert text has one placeholder per parameter and one parameter per column |
| Sql.InsertParamsInKeyOrder | DJANGO/DYNAMIC_API/views.py:52-57 | the i-th insert parameter is the value stored under the i-th column |
| Sql.UpdatePlaceholdersMatchParams | DJANGO/DYNAMIC_API/views.py:82-86 | the update text has one placeholder per parameter: one per data column and one for the key |
| Sql.UpdateParamsInKeyOrder | DJANGO/DYNAMIC_API/views.py:82-86 | the i-th `k=%s` and the i-th parameter belong to the same column; the key value is bound last |
| Sql.DeletePlaceholdersMatchParams | DJANGO/DYNAMIC_API/views.py:109-112 | the delete has exactly one placeholder, bound to the key value |
| Sql.SelectPlaceholdersMatchParams | DJANGO/DYNAMIC_API/views.py:142-144 | one placeholder per condition plus the limit, matching the parameters; the limit is bound last |
| Sql.SelectWhereIffConditions | DJANGO/DYNAMIC_API/views.py:142-143 | the select text has `WHERE ` after the table exactly when there is at least one condition |
| Views.InsertAction | DJANGO/DYNAMIC_API/views.py:42-64 | rejected with 400 unless `data` is a non-empty dictionary; otherwise runs the insert built from the URL table and that dictionary, binding its values in key order, and answers with the new id |
| Views.UpdateAction | DJANGO/DYNAMIC_API/views.py:70-92 | rejected unless key field is truthy, key value is not None and data is truthy; raises AttributeError for truthy non-dictionary data; otherwise runs the update built from the URL table, the data, the key field and the key value, binding the data values then the key value, and reports by affected count |
| Views.DeleteAction | DJANGO/DYNAMIC_API/views.py:98-118 | rejected unless key field is truthy and key value is not None; otherwise runs the delete built from the URL table and the key field, binding only the key value, and reports by affected count |
| Views.GetAction | DJANGO/DYNAMIC_API/views.py:124-155 | the loop builds exactly the select of `GetSpec`: key condition, filters in order, limit; non-dictionary filters raise AttributeError |
| Views.GetSpec | DJANGO/DYNAMIC_API/views.py:128-155 | the select runs exactly when `filters` is a dictionary, otherwise AttributeError; when it runs the answer is success with the rows and their count |
| Views.DynamicApi | DJANGO/DYNAMIC_API/views.py:8-36 | empty table or type gives 400; a body that is not an object raises TypeError; otherwise the URL table is stored and the lower-cased type picks the handler, anything else gives 400 |
| Views.UrlTableOverridesBody | DJANGO/DYNAMIC_API/views.py:22 | the URL table replaces a `table` sent in the body and is what the SQL names; other fields are untouched |
| Views.GetKeyFirstLimitLast | DJANGO/DYNAMIC_API/views.py:134-144 | when the key condition is used, the key value is the first parameter and there is one parameter more; the limit is the last, and there is one parameter per filter in between |
| Views.GetFiltersInOrder | DJANGO/DYNAMIC_API/views.py:138-140 | after the key value come the filter values, in the filters' iteration order |
| Views.GetWhereIffConditions | DJANGO/DYNAMIC_API/views.py:134-143 | the select has a WHERE clause exactly when the key condition is used or some filter is given |
| Views.GetPlaceholdersMatchParams | DJANGO/DYNAMIC_API/views.py:134-147 | with names free of `%`, the select's placeholders match its parameters |
| Controller.Entries | LARAVEL/DYNAMIC_API/DynamicController.php:154 | `foreach` over an object yields its keys and values in order, over a list the positions and items |
| Controller.Request.Merge | LARAVEL/DYNAMIC_API/DynamicController.php:46 | merging `table` sets it and leaves every other input as it was |
| Controller.QueryBuilder.constructor | LARAVEL/DYNAMIC_API/DynamicController.php:147 | a fresh query on the table has no conditions and no limit |
| Controller.QueryBuilder.Where | LARAVEL/DYNAMIC_API/DynamicController.php:150 | `where` appends one condition and leaves the limit alone |
| Controller.QueryBuilder.Limit | LARAVEL/DYNAMIC_API/DynamicController.php:159 | `limit` sets the limit and leaves the conditions alone |
| Controller.InsertExecute | LARAVEL/DYNAMIC_API/DynamicController.php:57-76 | rejected unless `data` is a non-empty array (object or list); otherwise inserts it and answers with the id |
| Controller.UpdateExecute | LARAVEL/DYNAMIC_API/DynamicController.php:84-104 | rejected unless key field, key value and data are all truthy; truthy non-array data raises TypeError; otherwise one keyed update, reported by affected count |
| Controller.DeleteExecute | LARAVEL/DYNAMIC_API/DynamicController.php:112-131 | rejected unless key field and key value are truthy; otherwise one keyed delete, reported by affected count |
| Controller.KeyWhere | LARAVEL/DYNAMIC_API/DynamicController.php:149-151 | at most one key condition, present exactly when key field and key value are both truthy, and then it is that pair |
| Controller.FilterWheres | LARAVEL/DYNAMIC_API/DynamicController.php:153-157 | for an object or list under `filters`, exactly its entries as field and value conditions, in order (one per entry); none when `filters` is not an array |
| Controller.SelectCall | LARAVEL/DYNAMIC_API/DynamicController.php:144-159 | the select on the request's table has the key condition first and the filter conditions after it, and limit 10 when none is given |
| Controller.GetExecute | LARAVEL/DYNAMIC_API/DynamicController.php:139-166 | the builder ends with the key condition if both key parts are truthy, then one condition per filter entry, then the limit; count is the number of rows |
| Controller.AddFilters | LARAVEL/DYNAMIC_API/DynamicController.php:153-157 | the filter loop appends exactly the entries, in order, to the query's conditions |
| Controller.Handle | LARAVEL/DYNAMIC_API/DynamicController.php:14-49 | a falsy table or type gives 400 and an unknown type gives 400, both leaving the request untouched; otherwise the table is merged in and the selected action runs |
| Compare.TruthinessDiffersOnlyOnZeroString | LARAVEL/DYNAMIC_API/DynamicController.php:18 | PHP truthiness implies Python truthiness, and they differ on exactly the string "0" |
| Compare.TargetPresentAgrees | LARAVEL/DYNAMIC_API/DynamicController.php:16-23 | a URL Laravel accepts is accepted by Django; they differ exactly when the table or type is "0" |
| Compare.TableZeroDiffers | LARAVEL/DYNAMIC_API/DynamicController.php:18 | the table "0" passes the Django check and fails the Laravel one |
| Compare.InsertAcceptanceAgrees | LARAVEL/DYNAMIC_API/DynamicController.php:62 | Django's accepted insert data is accepted by Laravel; Laravel accepts more exactly for a non-empty list |
| Compare.ListInsertDiffers | LARAVEL/DYNAMIC_API/DynamicController.php:62-69 | a list under `data` is inserted by Laravel and rejected by Django |
| Compare.KeyAcceptanceAgrees | LARAVEL/DYNAMIC_API/DynamicController.php:91 | update/delete requests and key conditions Laravel accepts are accepted by Django |
| Compare.ZeroKeyDiffers | LARAVEL/DYNAMIC_API/DynamicController.php:118 | for a key value of 0 under a key field both accept: Django deletes, passes Django's update check whenever data is truthy, and selects by the key; Laravel rejects update and delete and drops the key condition |
| Compare.UpdateOutcomesAgree | LARAVEL/DYNAMIC_API/DynamicController.php:100-103 | when both updates run, both answer the same envelope |
| Compare.DeleteOutcomesAgree | LARAVEL/DYNAMIC_API/DynamicController.php:127-130 | when both deletes run, both answer the same envelope |
| Compare.GetOutcomesAgree | LARAVEL/DYNAMIC_API/DynamicController.php:161-165 | both selects answer with the rows and their count |
| Compare.RejectionsAgree | LARAVEL/DYNAMIC_API/DynamicController.php:91-96 | when both reject, neither calls the database and both give the same 400 envelope |

## Left out

- The database itself is not modelled. That covers SQL execution, what `lastrowid`, `rowcount`, `insertGetId` and `get` return, and errors the database raises. Those answers are the input `Db`.
- Framework request and response plumbing is not modelled: CSRF exemption, `JsonResponse`, `response()->json` and HTTP routing. The decoded body is an input.
- A body that is not valid UTF-8 would raise before JSON decoding; JSON decoding itself is not modelled (an undecodable body is the input `None`, which the view turns into an empty dictionary).
- JSON floating-point numbers are not part of `Json.Value`.
- Text.Lower: models ASCII lower-casing only. Python's `str.lower` also maps non-ASCII letters.
- Views.Repr: does not model Python's string escaping or its switch to double quotes for strings holding a single quote. This only matters when a list or dictionary is spliced into the SQL text.
- The Django route only matches non-empty path segments, so the empty table or type check is unreachable through the route. The model keeps the check as written.
- Laravel's `input` also reads the query string, and its default middleware trims strings and turns empty strings into null. Neither is modelled; the input is the decoded body.
- PHP arrays with numeric-string keys, which PHP converts to integers, are not modelled.
- The placeholder lemmas require that table, key-field and column names hold no `%`. A `%` in a name would be read by the driver as a format character.
- A decoded JSON object with a repeated key is outside the modelled inputs. Python's `json.loads` and PHP's `json_decode` keep the last value; `Json.Lookup` reads the first entry, and no decoder output has two.
- The get envelope carries no message, unlike the other envelopes. The model follows the code.
