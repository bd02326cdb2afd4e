/** `lambda_handler`: the test shortcut, the settings check, authentication, the
    fetch of sale orders, normalisation and persistence, and the status code. */
module Handler {
  import opened Results
  import opened Python
  import opened Orders
  import opened JsonRpc
  import opened Store

  /** The settings the handler refuses to run without, in the order it checks them. */
  const RequiredSettings: seq<string> := ["ODOO_URL", "ODOO_DB", "ODOO_EMAIL", "ODOO_API_KEY", "ODDO_RESPONSE_TABLE"]

  /** The fields asked of each sale order, the ordering and the ceiling of the fetch. */
  const OrderFields: seq<string> := ["id", "name", "partner_id", "amount_total", "state", "date_order"]
  const FetchOrder := "id desc"
  const FetchLimit := 100

  /** `os.environ.get(name)` is truthy: present and not empty. */
  predicate IsSet(env: map<string, string>, name: string) {
    name in env && env[name] != ""
  }

  /** `a` is `b` with some elements left out, the rest kept in order. */
  predicate IsSubsequence(a: seq<string>, b: seq<string>) {
    if a == [] then true
    else if b == [] then false
    else if a[0] == b[0] then IsSubsequence(a[1..], b[1..])
    else IsSubsequence(a, b[1..])
  }

  /** The names among `names` that are not set, in the order of `names`. */
  function Unset(env: map<string, string>, names: seq<string>): (r: seq<string>)
    ensures forall x :: x in r <==> x in names && !IsSet(env, x)
    ensures IsSubsequence(r, names)
  {
    if names == [] then []
    else if IsSet(env, names[0]) then Unset(env, names[1..])
    else [names[0]] + Unset(env, names[1..])
  }

  /** Every required setting is present and not empty. */
  predicate Configured(env: map<string, string>) {
    && IsSet(env, "ODOO_URL")
    && IsSet(env, "ODOO_DB")
    && IsSet(env, "ODOO_EMAIL")
    && IsSet(env, "ODOO_API_KEY")
    && IsSet(env, "ODDO_RESPONSE_TABLE")
  }

  /** The `missing` list: exactly the required settings that are absent or empty,
      in declared order; it is empty exactly when every setting is present. */
  function Missing(env: map<string, string>): (r: seq<string>)
    ensures forall x :: x in r <==> x in RequiredSettings && !IsSet(env, x)
    ensures IsSubsequence(r, RequiredSettings)
    ensures r == [] <==> Configured(env)
  {
    var r := Unset(env, RequiredSettings);
    assert r != [] ==> r[0] in r;
    r
  }

  /** `s.rstrip("/")`: s without its trailing run of slashes. */
  function RStripSlashes(s: string): (r: string)
    ensures |r| <= |s| && r == s[..|r|]
    ensures r == [] || r[|r| - 1] != '/'
    ensures forall k | |r| <= k < |s| :: s[k] == '/'
  {
    if |s| > 0 && s[|s| - 1] == '/' then RStripSlashes(s[..|s| - 1]) else s
  }

  /** The RPC endpoint: the base URL less its trailing slashes, then "/jsonrpc". So
      exactly one slash separates a non-empty base from "jsonrpc", and what comes
      before "/jsonrpc" is the base up to its trailing slashes. */
  function RpcUrl(base: string): (r: string)
    ensures |r| >= 8 && r[|r| - 8..] == "/jsonrpc"
    ensures |r| == 8 || r[|r| - 9] != '/'
    ensures |r| - 8 <= |base|
    ensures var stem := r[..|r| - 8];
      stem == base[..|stem|] && forall k | |stem| <= k < |base| :: base[k] == '/'
  {
    var stem := RStripSlashes(base);
    assert (stem + "/jsonrpc")[..|stem|] == stem;
    stem + "/jsonrpc"
  }

  /** The parameters of the "common.authenticate" call. */
  function AuthParams(db: string, email: string, key: string): Value {
    Dict([
      ("service", Str("common")),
      ("method", Str("authenticate")),
      ("args", List([Str(db), Str(email), Str(key), Dict([])]))])
  }

  /** The parameters of the "object.execute_kw" search_read of sale.order, with the
      uid from authentication passed as it came back. */
  function FetchParams(db: string, uid: Value, key: string): Value {
    Dict([
      ("service", Str("object")),
      ("method", Str("execute_kw")),
      ("args", List([
        Str(db), uid, Str(key), Str("sale.order"), Str("search_read"), List([]),
        Dict([
          ("fields", List(seq(|OrderFields|, k requires 0 <= k < |OrderFields| => Str(OrderFields[k])))),
          ("order", Str(FetchOrder)),
          ("limit", Int(FetchLimit))])]))])
  }

  function AuthRequest(env: map<string, string>): Request
    requires Configured(env)
  {
    Envelope(RpcUrl(env["ODOO_URL"]), "call", AuthParams(env["ODOO_DB"], env["ODOO_EMAIL"], env["ODOO_API_KEY"]))
  }

  function FetchRequest(env: map<string, string>, uid: Value): Request
    requires Configured(env)
  {
    Envelope(RpcUrl(env["ODOO_URL"]), "call", FetchParams(env["ODOO_DB"], uid, env["ODOO_API_KEY"]))
  }

  /** Why a run ended with status 500: the missing settings, or the exception caught
      by the handler's outer `except`. */
  datatype Fault = MissingEnvVars(names: seq<string>) | Raised(error: Error)

  /** The dict the handler returns. */
  datatype Response = TestOk | Synced(records: seq<Row>) | Failed(fault: Fault) {
    function StatusCode(): int {
      if Failed? then 500 else 200
    }
  }

  /** What one invocation does: its response, the requests it posts and the writes
      it attempts, in order. */
  datatype Run = Run(response: Response, requests: seq<Request>, writes: seq<Write>)

  /** What follows a successful fetch: iterate the records, normalise each, and
      persist the rows on `table`, the store having seen n attempts. */
  function AfterFetch(records: Value, table: string, now: string, rejects: set<nat>, n: nat): Run {
    match IterItems(records)
    case Err(e) => Run(Failed(Raised(e)), [], [])
    case Ok(orders) =>
      match Normalized(orders)
      case Err(e) => Run(Failed(Raised(e)), [], [])
      case Ok(rows) =>
        var p := Persisted(rows, table, now, rejects, n);
        Run(if p.completed then Synced(rows) else Failed(Raised(ClientError)), [], p.writes)
  }

  /** The handler as a function of the event, the settings, how the server answers,
      which store attempts fail (n attempts having been made before), and the clock. */
  function Sync(event: Entries, env: map<string, string>, answer: Request -> Reply,
                rejects: set<nat>, n: nat, now: string): Run
  {
    if Truthy(GetOr(event, "test", Bool(false))) then Run(TestOk, [], [])
    else if Missing(env) != [] then Run(Failed(MissingEnvVars(Missing(env))), [], [])
    else Remote(env, answer, rejects, n, now)
  }

  /** The handler's `try` block, once every setting is present: authenticate, fetch,
      then normalise and persist. */
  function Remote(env: map<string, string>, answer: Request -> Reply,
                  rejects: set<nat>, n: nat, now: string): Run
    requires Configured(env)
  {
    var auth := AuthRequest(env);
    match InterpretReply(answer(auth))
    case Err(e) => Run(Failed(Raised(e)), [auth], [])
    case Ok(uid) =>
      var fetch := FetchRequest(env, uid);
      match InterpretReply(answer(fetch))
      case Err(e) => Run(Failed(Raised(e)), [auth, fetch], [])
      case Ok(records) =>
        var rest := AfterFetch(records, env["ODDO_RESPONSE_TABLE"], now, rejects, n);
        Run(rest.response, [auth, fetch], rest.writes)
  }

  /** A truthy "test" field answers 200 at once: no request, no write. */
  lemma TestShortcut(event: Entries, env: map<string, string>, answer: Request -> Reply,
                     rejects: set<nat>, n: nat, now: string)
    requires Truthy(GetOr(event, "test", Bool(false)))
    ensures var run := Sync(event, env, answer, rejects, n, now);
      run == Run(TestOk, [], []) && run.response.StatusCode() == 200
  {
  }

  /** Without the test flag, a missing or empty setting answers 500 naming exactly
      the missing settings in declared order, before any request or write. */
  lemma MissingSettingsShortCircuit(event: Entries, env: map<string, string>, answer: Request -> Reply,
                                    rejects: set<nat>, n: nat, now: string)
    requires !Truthy(GetOr(event, "test", Bool(false)))
    requires exists x :: x in RequiredSettings && !IsSet(env, x)
    ensures var run := Sync(event, env, answer, rejects, n, now);
      && run.response.StatusCode() == 500
      && run.requests == [] && run.writes == []
      && run.response.fault.MissingEnvVars?
      && (forall x :: x in run.response.fault.names <==> x in RequiredSettings && !IsSet(env, x))
      && IsSubsequence(run.response.fault.names, RequiredSettings)
  {
  }

  /** Every request goes to the RPC URL as a JSON-RPC 2.0 "call" with id 1: first
      the authentication with the database, login and key, then at most the fetch. */
  lemma RequestsGoToRpcUrl(event: Entries, env: map<string, string>, answer: Request -> Reply,
                           rejects: set<nat>, n: nat, now: string)
    ensures var run := Sync(event, env, answer, rejects, n, now);
      && |run.requests| <= 2
      && (run.requests != [] ==> Configured(env) && run.requests[0] == AuthRequest(env))
      && (run.requests != [] ==>
            run.requests[0].params == AuthParams(env["ODOO_DB"], env["ODOO_EMAIL"], env["ODOO_API_KEY"]))
      && forall k | 0 <= k < |run.requests| ::
           && "ODOO_URL" in env
           && run.requests[k].url == RpcUrl(env["ODOO_URL"])
           && run.requests[k].jsonrpc == "2.0"
           && run.requests[k].procedure == "call"
           && run.requests[k].id == 1
  {
  }

  /** The authentication result is never checked: whatever value it returns, None
      and False included, is passed as the uid of the fetch. */
  lemma FetchCarriesUid(event: Entries, env: map<string, string>, answer: Request -> Reply,
                        rejects: set<nat>, n: nat, now: string, uid: Value)
    requires !Truthy(GetOr(event, "test", Bool(false)))
    requires Configured(env)
    requires InterpretReply(answer(AuthRequest(env))) == Ok(uid)
    ensures var run := Sync(event, env, answer, rejects, n, now);
      |run.requests| == 2 && run.requests[1] == FetchRequest(env, uid)
  {
  }

  /** After the fetch, a run that wrote something either succeeded or failed on a
      refused placeholder, and such a failure ends with that placeholder. */
  lemma AfterFetchFailures(records: Value, table: string, now: string, rejects: set<nat>, n: nat)
    ensures var rest := AfterFetch(records, table, now, rejects, n);
      rest.writes != [] ==> rest.response.Synced? || rest.response == Failed(Raised(ClientError))
    ensures var rest := AfterFetch(records, table, now, rejects, n);
      rest.response == Failed(Raised(ClientError)) ==>
        rest.writes != [] && rest.writes[|rest.writes| - 1].item.Placeholder? && !rest.writes[|rest.writes| - 1].accepted
  {
    if IterItems(records).Ok? {
      var orders := IterItems(records).value;
      if Normalized(orders).Ok? {
        PersistedAborts(Normalized(orders).value, table, now, rejects, n);
      }
    }
  }

  /** Settings, authentication and fetch failures happen before any write: a run
      that wrote something either succeeded or failed on a refused placeholder. */
  lemma FatalBeforeWritesWritesNothing(event: Entries, env: map<string, string>, answer: Request -> Reply,
                                       rejects: set<nat>, n: nat, now: string)
    ensures var run := Sync(event, env, answer, rejects, n, now);
      run.writes != [] ==>
        run.response.Synced? || run.response == Failed(Raised(ClientError))
    ensures var run := Sync(event, env, answer, rejects, n, now);
      run.response == Failed(Raised(ClientError)) ==>
        run.writes != [] && run.writes[|run.writes| - 1].item.Placeholder? && !run.writes[|run.writes| - 1].accepted
  {
    if !Truthy(GetOr(event, "test", Bool(false))) && Missing(env) == [] {
      var auth := AuthRequest(env);
      if InterpretReply(answer(auth)).Ok? {
        var fetch := FetchRequest(env, InterpretReply(answer(auth)).value);
        var records := InterpretReply(answer(fetch));
        if records.Ok? {
          AfterFetchFailures(records.value, env["ODDO_RESPONSE_TABLE"], now, rejects, n);
        }
      }
    }
  }

  /** A failed authentication call ends the run with 500, carrying its exception,
      after that one request and before any write. */
  lemma AuthFailureIsFatal(event: Entries, env: map<string, string>, answer: Request -> Reply,
                           rejects: set<nat>, n: nat, now: string)
    requires !Truthy(GetOr(event, "test", Bool(false)))
    requires Configured(env)
    requires InterpretReply(answer(AuthRequest(env))).Err?
    ensures var run := Sync(event, env, answer, rejects, n, now);
      && run.response == Failed(Raised(InterpretReply(answer(AuthRequest(env))).error))
      && run.response.StatusCode() == 500
      && run.requests == [AuthRequest(env)]
      && run.writes == []
  {
  }

  /** A failed fetch call ends the run with 500, carrying its exception, after the
      two requests and before any write. */
  lemma FetchFailureIsFatal(event: Entries, env: map<string, string>, answer: Request -> Reply,
                            rejects: set<nat>, n: nat, now: string)
    requires !Truthy(GetOr(event, "test", Bool(false)))
    requires Configured(env)
    requires InterpretReply(answer(AuthRequest(env))).Ok?
    requires InterpretReply(answer(FetchRequest(env, InterpretReply(answer(AuthRequest(env))).value))).Err?
    ensures var run := Sync(event, env, answer, rejects, n, now);
      var fetch := FetchRequest(env, InterpretReply(answer(AuthRequest(env))).value);
      && run.response == Failed(Raised(InterpretReply(answer(fetch)).error))
      && run.response.StatusCode() == 500
      && run.requests == [AuthRequest(env), fetch]
      && run.writes == []
  {
  }

  /** A refused placeholder write ends the run with 500: the ClientError escapes
      the loop's `except` branch and reaches the handler's. */
  lemma RefusedPlaceholderIsFatal(event: Entries, env: map<string, string>, answer: Request -> Reply,
                                  rejects: set<nat>, n: nat, now: string)
    ensures var run := Sync(event, env, answer, rejects, n, now);
      (exists j | 0 <= j < |run.writes| :: run.writes[j].item.Placeholder? && !run.writes[j].accepted) ==>
        run.response == Failed(Raised(ClientError)) && run.response.StatusCode() == 500
  {
    if !Truthy(GetOr(event, "test", Bool(false))) && Missing(env) == [] {
      var auth := AuthRequest(env);
      if InterpretReply(answer(auth)).Ok? {
        var fetch := FetchRequest(env, InterpretReply(answer(auth)).value);
        var records := InterpretReply(answer(fetch));
        if records.Ok? && IterItems(records.value).Ok? && Normalized(IterItems(records.value).value).Ok? {
          PersistedAborts(Normalized(IterItems(records.value).value).value, env["ODDO_RESPONSE_TABLE"], now, rejects, n);
        }
      }
    }
  }

  /** On success the returned records are the normalised rows, one per fetched
      record in fetch order, none marked dynamo_error; each row's full item was
      attempted in that order on the configured table, and every refused one was
      followed by its placeholder. */
  lemma SyncedRecords(event: Entries, env: map<string, string>, answer: Request -> Reply,
                      rejects: set<nat>, n: nat, now: string, records: Value)
    requires !Truthy(GetOr(event, "test", Bool(false)))
    requires Configured(env)
    requires InterpretReply(answer(AuthRequest(env))).Ok?
    requires InterpretReply(answer(FetchRequest(env, InterpretReply(answer(AuthRequest(env))).value))) == Ok(records)
    ensures var run := Sync(event, env, answer, rejects, n, now);
      run.response.Synced? ==>
        var rows := run.response.records;
        var orders := IterItems(records).value;
        && IterItems(records).Ok?
        && |rows| == |orders|
        && (forall k | 0 <= k < |rows| ::
              && orders[k].Dict?
              && rows[k] == NormalizeOne(orders[k].entries)
              && rows[k].ResponseStatus() != StatusDynamoError)
        && |FullItems(run.writes)| == |rows|
        && (forall k | 0 <= k < |rows| :: FullItems(run.writes)[k] == ItemFor(rows[k], now))
        && (forall j | 0 <= j < |run.writes| :: run.writes[j].table == env["ODDO_RESPONSE_TABLE"])
        && RefusalsGetPlaceholders(run.writes)
        && PlaceholdersFollowRefusals(run.writes)
  {
    var run := Sync(event, env, answer, rejects, n, now);
    if run.response.Synced? {
      var orders := IterItems(records).value;
      var rows := run.response.records;
      var table := env["ODDO_RESPONSE_TABLE"];
      NormalizedOnePerRecord(orders);
      PersistedFullItemsInOrder(rows, table, now, rejects, n);
      PersistedAttempts(rows, table, now, rejects, n);
      PersistedFallbacks(rows, table, now, rejects, n);
      forall k | 0 <= k < |rows|
        ensures rows[k].ResponseStatus() != StatusDynamoError
      {
        assert rows[k].ResponseStatus() == StatusSuccess || rows[k].ResponseStatus() == StatusInvalidRecord;
      }
    }
  }

  /** One record's failure never makes the run fatal: when the fetch returns a list
      of dicts and the store never refuses two attempts in a row, the run answers
      200 with one row per fetched order, that order's normalised row. */
  lemma RecordFailuresNeverFatal(event: Entries, env: map<string, string>, answer: Request -> Reply,
                                 rejects: set<nat>, n: nat, now: string, orders: seq<Value>)
    requires !Truthy(GetOr(event, "test", Bool(false)))
    requires Configured(env)
    requires InterpretReply(answer(AuthRequest(env))).Ok?
    requires InterpretReply(answer(FetchRequest(env, InterpretReply(answer(AuthRequest(env))).value))) == Ok(List(orders))
    requires forall k | 0 <= k < |orders| :: orders[k].Dict?
    requires forall k :: k in rejects ==> k + 1 !in rejects
    ensures var run := Sync(event, env, answer, rejects, n, now);
      && run.response.Synced?
      && run.response.StatusCode() == 200
      && |run.response.records| == |orders|
      && forall k | 0 <= k < |orders| :: run.response.records[k] == NormalizeOne(orders[k].entries)
  {
    NormalizedOnePerRecord(orders);
    var rows := Normalized(orders).value;
    NoConsecutiveRejectionsCompletes(rows, env["ODDO_RESPONSE_TABLE"], now, rejects, n);
  }

  /** The handler: its response, requests and writes are those of Sync. */
  method LambdaHandler(event: Entries, env: map<string, string>, server: OdooServer, dynamo: Dynamo, now: string)
    returns (response: Response)
    modifies server, dynamo
    ensures var run := Sync(event, env, server.answer, dynamo.rejects, |old(dynamo.log)|, now);
      && response == run.response
      && server.requests == old(server.requests) + run.requests
      && dynamo.log == old(dynamo.log) + run.writes
  {
    if Truthy(GetOr(event, "test", Bool(false))) {
      return TestOk;
    }
    var missing := Missing(env);
    if missing != [] {
      return Failed(MissingEnvVars(missing));
    }
    response := SyncRemote(env, server, dynamo, now);
  }

  /** The handler's `try` block: its response, requests and writes are those of
      Remote. */
  method SyncRemote(env: map<string, string>, server: OdooServer, dynamo: Dynamo, now: string)
    returns (response: Response)
    requires Configured(env)
    modifies server, dynamo
    ensures var run := Remote(env, server.answer, dynamo.rejects, |old(dynamo.log)|, now);
      && response == run.response
      && server.requests == old(server.requests) + run.requests
      && dynamo.log == old(dynamo.log) + run.writes
  {
    ghost var run := Remote(env, server.answer, dynamo.rejects, |dynamo.log|, now);
    ghost var sent := server.requests;
    ghost var n := |dynamo.log|;
    var url := RpcUrl(env["ODOO_URL"]);
    var db := env["ODOO_DB"];
    var email := env["ODOO_EMAIL"];
    var key := env["ODOO_API_KEY"];
    var table := env["ODDO_RESPONSE_TABLE"];

    var uid := JsonRpcCall(server, url, "call", AuthParams(db, email, key));
    ghost var auth := AuthRequest(env);
    assert server.requests == sent + [auth];
    if uid.Err? {
      assert run == Run(Failed(Raised(uid.error)), [auth], []);
      return Failed(Raised(uid.error));
    }
    var records := JsonRpcCall(server, url, "call", FetchParams(db, uid.value, key));
    ghost var fetch := FetchRequest(env, uid.value);
    assert server.requests == sent + [auth, fetch];
    if records.Err? {
      assert run == Run(Failed(Raised(records.error)), [auth, fetch], []);
      return Failed(Raised(records.error));
    }
    ghost var rest := AfterFetch(records.value, table, now, dynamo.rejects, n);
    assert run == Run(rest.response, [auth, fetch], rest.writes);
    response := StoreRecords(dynamo, table, records.value, now);
  }

  /** The handler's work after a successful fetch: iterate the records, normalise
      them, and persist the rows; its response and writes are those of AfterFetch. */
  method StoreRecords(dynamo: Dynamo, table: string, records: Value, now: string) returns (response: Response)
    modifies dynamo
    ensures var rest := AfterFetch(records, table, now, dynamo.rejects, |old(dynamo.log)|);
      && response == rest.response
      && dynamo.log == old(dynamo.log) + rest.writes
  {
    var orders := IterItems(records);
    if orders.Err? {
      return Failed(Raised(orders.error));
    }
    var flattened := NormalizeRecords(orders.value);
    if flattened.Err? {
      return Failed(Raised(flattened.error));
    }
    var completed := PersistRows(dynamo, table, flattened.value, now);
    if !completed {
      return Failed(Raised(ClientError));
    }
    return Synced(flattened.value);
  }
}
