# Odoo sale-order sync to DynamoDB — a Dafny model

This project models the core of an AWS Lambda function
(`Lambdas/lambda_function.py`). The function authenticates against an Odoo
server over JSON-RPC and fetches up to 100 sale orders, newest first. It
flattens each order into a fixed-shape row and writes one DynamoDB item per
row. A write that fails is replaced by a `dynamo_error` placeholder. The
handler returns status 200 with the rows, or status 500 with an error.

The collaborators are made explicit:

- **The environment** is a `map<string, string>`.
- **The Odoo server** is the class `JsonRpc.OdooServer`. It answers each request
  through a fixed function `answer: Request -> Reply` and logs every request it
  receives.
- **DynamoDB** is the class `Store.Dynamo`. It logs every `put_item` attempt with
  its outcome. The failures are injected: attempt number k fails exactly when k
  is in `rejects`.
- **The clock** is a parameter `now`, the ISO-8601 text of `utcnow()`.

Python values, as `json.loads` produces them, are the datatype `Python.Value`.
Its cases are None, bool, int, str, list and dict. A dict is kept in insertion
order. The model also covers the Python semantics the handler relies on:
truthiness, `dict.get`, subscripting, iteration, `str()`/`repr()`, and
`Decimal(str(v))`.

The handler is specified by the function `Handler.Sync`. It gives the response,
the requests posted and the writes attempted. `Handler.LambdaHandler` is the
imperative handler, and it is proved to do exactly what `Sync` says. Its parts
follow the same split: `Handler.SyncRemote` (the `try` block, specified by
`Handler.Remote`) and `Handler.StoreRecords` (everything after the fetch,
specified by `Handler.AfterFetch`). The two
loops of the handler are methods with loop invariants:
`Orders.NormalizeRecords` and `Store.PersistRows`. Each is proved against its
own specification function, `Orders.Normalized` and `Store.Persisted`. The
lemmas state the properties of those specification functions.

In these places the model follows what the code does, which is not what one
might expect:

- The authentication result is never checked. Any value, including `None` or
  `False`, goes into the fetch as the uid (`Handler.FetchCarriesUid`).
- A fetched record that is not a dict does not become an `invalid_record` row.
  Its `get` raises inside `flatten_order`, the `except` branch calls `get`
  again, and that exception ends the run with 500 (`Orders.Normalized`).
- A fetch result on which `len` fails (None, a bool or an int) ends the run with
  500. A string result is iterated by character and a dict result by key
  (`Python.IterItems`).
- A missing `id` becomes the string `"None"`, not null (`Orders.MissingIdBecomesNone`).
- The returned records are the `flattened` rows. They never carry
  `dynamo_error`, which appears only in the written placeholder
  (`Handler.SyncedRecords`).

## Model

| member | source | states |
|---|---|---|
| `Decimals.SafeDecimalCases` | Lambdas/lambda_function.py:18-24 | safe_decimal never raises: None, booleans, lists and dicts give None; an int gives that integer (zero gives decimal 0, not None); a string gives its Decimal parse or None |
| `Decimals.ParseIntString` | Lambdas/lambda_function.py:22 | `Decimal(str(i))` for an int i is i itself with exponent 0 |
| `Decimals.ParseRejectsLeadingChar` | Lambdas/lambda_function.py:21-24 | text that starts with anything but a sign, digit or point (so "None", "True", "[...]", "{...}") never parses, and safe_decimal returns None for it |
| `Orders.FlattenOrder` | Lambdas/lambda_function.py:54-65 | flattening succeeds iff partner_id is falsy or a list/str of length at least 2; a falsy partner gives None customer id and name, otherwise elements 0 and 1; a bool or int partner raises TypeError, a length-1 one IndexError, a dict KeyError; order_id is str(id) and the other fields are copied verbatim |
| `Orders.NormalizeOne` | Lambdas/lambda_function.py:144-153 | the row carries str(id) and name on both paths; it is "success" exactly when flattening succeeds, and is then the flattened order itself; otherwise it is "invalid_record" |
| `Orders.MissingIdBecomesNone` | Lambdas/lambda_function.py:144-153 | an order with no id, or a null one, gets the order_id text "None" |
| `Orders.NormalizedOnePerRecord` | Lambdas/lambda_function.py:142-153 | the loop succeeds iff every record is a dict, and then yields exactly one row per record in fetch order; otherwise it raises AttributeError |
| `Orders.NormalizeRecords` | Lambdas/lambda_function.py:142-153 | the appending loop computes exactly the normalised rows, one per record |
| `Python.IterItems` | Lambdas/lambda_function.py:140-143 | `len` and `for` work only on a list, string or dict; a list gives its items, a string its characters and a dict its keys, each in order |
| `JsonRpc.InterpretReply` | Lambdas/lambda_function.py:40-51 | a call returns a value iff the reply is a dict with no "error" key and a "result" key, and then it returns that value; an "error" key gives the Odoo error; a transport failure gives the HTTP error; a non-dict body raises TypeError |
| `JsonRpc.OdooServer.Post` | Lambdas/lambda_function.py:38-44 | one post logs exactly one request and returns the server's answer to it |
| `JsonRpc.JsonRpcCall` | Lambdas/lambda_function.py:27-51 | one call posts exactly its envelope and returns the interpretation of the reply |
| `Store.Dynamo.PutItem` | Lambdas/lambda_function.py:169 | a put_item logs one attempt, which succeeds unless that attempt number is injected as refused |
| `Store.ItemForContents` | Lambdas/lambda_function.py:158-168 | the full item is keyed by the row's order_name and order_id; it copies the row's status, never dynamo_error; customer_id is text exactly when the row's customer id is truthy, a positive int id as its digits; the amount goes through safe_decimal; an invalid_record row has no customer, amount, state or date; the timestamp ends in "Z" |
| `Store.RowWrites` | Lambdas/lambda_function.py:157-177 | one row takes one write, or two when the full item is refused |
| `Store.PersistRow` | Lambdas/lambda_function.py:157-177 | the try/except body makes exactly the writes of RowWrites |
| `Store.PersistRows` | Lambdas/lambda_function.py:156-177 | the persistence loop makes exactly the writes of Persisted and stops only where it says |
| `Store.PersistedAttempts` | Lambdas/lambda_function.py:156-177 | every write goes to the configured table, and the j-th succeeds iff the store does not refuse that attempt |
| `Store.PersistedFallbacks` | Lambdas/lambda_function.py:170-177 | a placeholder follows only a refused full item, and carries that item's order_name, order_id and timestamp with status "dynamo_error" (the timestamps are equal only because the model has a single clock reading); every refused full item is followed by a placeholder |
| `Store.PersistedAborts` | Lambdas/lambda_function.py:170-177 | the loop stops early iff a placeholder write is refused, and then that is the last write |
| `Store.PersistedFullItemsInOrder` | Lambdas/lambda_function.py:156-169 | each row, in order, gets one attempt with its full item: all rows when the loop completes, a prefix when it stops |
| `Store.NoConsecutiveRejectionsCompletes` | Lambdas/lambda_function.py:156-177 | if the store never refuses two attempts in a row, the loop always completes |
| `Store.PersistedWithoutRejections` | Lambdas/lambda_function.py:156-169 | with no refusals, exactly one accepted full item per row, in order |
| `Store.SingleRefusalIsolated` | Lambdas/lambda_function.py:156-177 | one refused full write costs that row a placeholder and nothing else: all other rows are written and the loop completes |
| `Handler.Unset` | Lambdas/lambda_function.py:83 | the list comprehension keeps exactly the unset names, in their original order |
| `Handler.Missing` | Lambdas/lambda_function.py:75-85 | `missing` lists exactly the absent or empty required settings, in declared order, and is empty iff all five are set |
| `Handler.RStripSlashes` | Lambdas/lambda_function.py:87 | rstrip("/") gives the longest prefix not ending in "/", and removes only slashes |
| `Handler.RpcUrl` | Lambdas/lambda_function.py:87-94 | the RPC URL ends in "/jsonrpc" with no slash before that one, and is preceded by the base URL less its trailing slashes |
| `Handler.TestShortcut` | Lambdas/lambda_function.py:71-73 | a truthy "test" field gives 200 with no request and no write |
| `Handler.MissingSettingsShortCircuit` | Lambdas/lambda_function.py:75-85 | otherwise, a missing setting gives 500 naming exactly the missing settings in order, with no request and no write |
| `Handler.RequestsGoToRpcUrl` | Lambdas/lambda_function.py:94-138 | at most two requests, each a JSON-RPC "2.0" "call" with id 1 to the RPC URL; the first is the authentication with the configured database, login and key |
| `Handler.FetchCarriesUid` | Lambdas/lambda_function.py:97-138 | the authentication result, whatever it is, is the uid passed to the fetch |
| `Handler.FatalBeforeWritesWritesNothing` | Lambdas/lambda_function.py:96-189 | a run that wrote anything either succeeded or ended 500 on a refused placeholder, which was its last write; conversely a ClientError 500 always ends with a refused placeholder |
| `Handler.AuthFailureIsFatal` | Lambdas/lambda_function.py:96-189 | a failed authentication call gives 500 with its exception, after that one request and with no write |
| `Handler.FetchFailureIsFatal` | Lambdas/lambda_function.py:111-189 | a failed fetch call gives 500 with its exception, after the two requests and with no write |
| `Handler.RefusedPlaceholderIsFatal` | Lambdas/lambda_function.py:170-189 | if any placeholder write is refused, the run gives 500 with the ClientError |
| `Handler.SyncedRecords` | Lambdas/lambda_function.py:142-182 | a 200 result returns one normalised row per fetched record, in order, none marked dynamo_error; each row's full item was attempted in order on the configured table, and each refused one was followed by its dynamo_error placeholder |
| `Handler.RecordFailuresNeverFatal` | Lambdas/lambda_function.py:142-182 | with a list of dict records and no two refusals in a row, the run returns 200 with one row per order, each that order's normalised row |
| `Handler.LambdaHandler` | Lambdas/lambda_function.py:68-189 | the handler's response, requests and writes are exactly those of Sync |
| `Handler.SyncRemote` | Lambdas/lambda_function.py:87-189 | once every setting is present, the `try` block's response, requests and writes are exactly those of Remote |
| `Handler.StoreRecords` | Lambdas/lambda_function.py:140-182 | after a successful fetch, the response and writes are exactly those of AfterFetch |

## Left out

- HTTP transport, TLS and the 30-second timeout (lines 36-44): the server's answer is a parameter, either a decoded body or a transport failure.
- `json.dumps` and `json.loads`: requests and replies are values. A reply body that does not decode is modelled as a transport failure. The outcome is the same 500, but the exception differs.
- Logging, and the exact text of error messages. The 500 result carries the exception kind, or the list of missing settings, instead of `str(e)`.
- `datetime.utcnow()`: one clock reading, `now`, is used for every item. The code reads the clock once per put_item, so a placeholder's `last_updated_at` is a later reading than that of the refused item it replaces; in the model the two are equal only because the clock is read once.
- boto3 and DynamoDB behaviour: upsert by key, durability, and serialisation errors. A refused write is injected by attempt number, and what the store then holds is not modelled.
- Floats: Odoo's `amount_total` is usually a float. `Python.Value` has no float case, so `str()` of a float and its Decimal are not modelled.
- Decimals.ParseDecimal: accepts an optional sign, digits with at most one point, and an optional exponent. It rejects surrounding whitespace, digit-group underscores, non-ASCII digits, and Infinity/NaN, all of which Python's Decimal accepts. For such strings SafeDecimal gives None where Python gives a Decimal.
- Python.Repr: escapes only backslash, the quote, newline, carriage return and tab. Other non-printable characters, which Python shows as `\x..` or `\u....`, are kept as they are.
- The event must be a dict (`Entries`). For any other event, `event.get` raises before the handler's `try`, and the Lambda fails with an unhandled exception.
- The Lambda `context` argument is unused by the code and is not modelled.
- The other two Lambdas (the secret-store variant and the CSV bulk upload) are not part of this model. Neither are credential caching and session-cookie authentication.
