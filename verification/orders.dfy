/** `flatten_order` and the loop that turns each fetched sale order into a row. */
module Orders {
  import opened Results
  import opened Python

  const StatusSuccess := "success"
  const StatusInvalidRecord := "invalid_record"

  /** The fixed-shape dict `flatten_order` returns. */
  datatype FlatOrder = FlatOrder(
    orderId: string,
    orderName: Value,
    customerId: Value,
    customerName: Value,
    amountTotal: Value,
    state: Value,
    dateOrder: Value)

  /** A row of the `flattened` list: a flattened order tagged "success", or the
      three-key dict tagged "invalid_record" when flattening raised. */
  datatype Row =
    | Success(flat: FlatOrder)
    | InvalidRecord(id: string, name: Value)
  {
    function OrderId(): string {
      match this
      case Success(f) => f.orderId
      case InvalidRecord(id, _) => id
    }

    function OrderName(): Value {
      match this
      case Success(f) => f.orderName
      case InvalidRecord(_, name) => name
    }

    function ResponseStatus(): string {
      if Success? then StatusSuccess else StatusInvalidRecord
    }

    /** `row.get(...)` for the keys only a flattened row has: None on the
        invalid_record row. */
    function CustomerId(): Value { if Success? then flat.customerId else Null }
    function CustomerName(): Value { if Success? then flat.customerName else Null }
    function AmountTotal(): Value { if Success? then flat.amountTotal else Null }
    function State(): Value { if Success? then flat.state else Null }
    function DateOrder(): Value { if Success? then flat.dateOrder else Null }
  }

  /** A partner value that survives `partner[0]` and `partner[1]`. */
  predicate HasTwoItems(v: Value) {
    (v.List? && |v.items| >= 2) || (v.Str? && |v.s| >= 2)
  }

  /** `flatten_order(order)` for a dict order. A falsy partner_id is replaced by
      [None, None]; a truthy one is indexed at 0 and 1, which raises unless it is a
      list or string of length two or more. */
  function FlattenOrder(order: Entries): (r: Result<FlatOrder, Error>)
    ensures var partner := Get(order, "partner_id");
      r.Ok? <==> !Truthy(partner) || HasTwoItems(partner)
    ensures r.Ok? ==>
      && r.value.orderId == PyStr(Get(order, "id"))
      && r.value.orderName == Get(order, "name")
      && r.value.amountTotal == Get(order, "amount_total")
      && r.value.state == Get(order, "state")
      && r.value.dateOrder == Get(order, "date_order")
    ensures var partner := Get(order, "partner_id");
      !Truthy(partner) ==> r.Ok? && r.value.customerId == Null && r.value.customerName == Null
    ensures var partner := Get(order, "partner_id");
      Truthy(partner) && partner.List? && |partner.items| >= 2 ==>
        r.Ok? && r.value.customerId == partner.items[0] && r.value.customerName == partner.items[1]
    ensures var partner := Get(order, "partner_id");
      Truthy(partner) && partner.Str? && |partner.s| >= 2 ==>
        r.Ok? && r.value.customerId == Str([partner.s[0]]) && r.value.customerName == Str([partner.s[1]])
    ensures var partner := Get(order, "partner_id");
      (partner.Bool? || partner.Int?) && Truthy(partner) ==> r == Err(TypeError)
    ensures var partner := Get(order, "partner_id");
      (partner.List? && |partner.items| == 1) || (partner.Str? && |partner.s| == 1) ==> r == Err(IndexError)
    ensures var partner := Get(order, "partner_id");
      partner.Dict? && Truthy(partner) ==> r == Err(KeyError(Int(0)))
  {
    var partner := if Truthy(Get(order, "partner_id")) then Get(order, "partner_id") else List([Null, Null]);
    match Subscript(partner, 0)
    case Err(e) => Err(e)
    case Ok(customerId) =>
      match Subscript(partner, 1)
      case Err(e) => Err(e)
      case Ok(customerName) =>
        Ok(FlatOrder(
          PyStr(Get(order, "id")),
          Get(order, "name"),
          customerId,
          customerName,
          Get(order, "amount_total"),
          Get(order, "state"),
          Get(order, "date_order")))
  }

  /** One pass of the normalisation loop's body for a dict order: the flattened
      order marked "success", or, when flattening raised, a row with only the
      order's id and name marked "invalid_record". */
  function NormalizeOne(order: Entries): (r: Row)
    ensures r.OrderId() == PyStr(Get(order, "id"))
    ensures r.OrderName() == Get(order, "name")
    ensures r.ResponseStatus() == StatusSuccess <==> FlattenOrder(order).Ok?
    ensures r.Success? ==> r.flat == FlattenOrder(order).value
    ensures r.ResponseStatus() == StatusSuccess || r.ResponseStatus() == StatusInvalidRecord
  {
    match FlattenOrder(order)
    case Ok(flat) => Success(flat)
    case Err(_) => InvalidRecord(PyStr(Get(order, "id")), Get(order, "name"))
  }

  /** The normalisation loop as a fold over the fetched records. A record that is
      not a dict has no `get`: flattening raises AttributeError, the except branch
      calls `get` again and that second AttributeError escapes the loop. */
  function Normalized(records: seq<Value>): (r: Result<seq<Row>, Error>)
    ensures r.Err? ==> r.error == AttributeError
  {
    if records == [] then Ok([])
    else if !records[0].Dict? then Err(AttributeError)
    else
      match Normalized(records[1..])
      case Err(e) => Err(e)
      case Ok(rest) => Ok([NormalizeOne(records[0].entries)] + rest)
  }

  /** An order without an id, or with a null one, gets the text "None" as its
      order_id, on the success and the invalid_record path alike. */
  lemma MissingIdBecomesNone(order: Entries)
    requires Lookup(order, "id").None? || Lookup(order, "id") == Some(Null)
    ensures NormalizeOne(order).OrderId() == "None"
  {
  }

  /** The loop yields exactly one row per record, in fetch order, unless some record
      is not a dict, in which case it raises AttributeError. */
  lemma {:induction false} NormalizedOnePerRecord(records: seq<Value>)
    ensures Normalized(records).Ok? <==> forall k | 0 <= k < |records| :: records[k].Dict?
    ensures Normalized(records).Err? ==> Normalized(records).error == AttributeError
    ensures Normalized(records).Ok? ==>
      && |Normalized(records).value| == |records|
      && forall k | 0 <= k < |records| ::
           records[k].Dict? && Normalized(records).value[k] == NormalizeOne(records[k].entries)
  {
    if records != [] && records[0].Dict? {
      NormalizedOnePerRecord(records[1..]);
      if Normalized(records[1..]).Ok? {
        var rows := Normalized(records).value;
        forall k | 0 <= k < |records|
          ensures records[k].Dict? && rows[k] == NormalizeOne(records[k].entries)
        {
          if k > 0 {
            assert records[k] == records[1..][k - 1];
          }
        }
      } else {
        var k :| 0 <= k < |records[1..]| && !records[1..][k].Dict?;
        assert !records[k + 1].Dict?;
      }
    }
  }

  /** `done` followed by the rows of a later stretch of records, or that stretch's
      error. */
  function Then(done: seq<Row>, later: Result<seq<Row>, Error>): Result<seq<Row>, Error> {
    match later
    case Err(e) => Err(e)
    case Ok(rest) => Ok(done + rest)
  }

  lemma ThenThen(a: seq<Row>, b: seq<Row>, later: Result<seq<Row>, Error>)
    ensures Then(a, Then(b, later)) == Then(a + b, later)
  {
    if later.Ok? {
      assert a + (b + later.value) == a + b + later.value;
    }
  }

  lemma ThenNothing(later: Result<seq<Row>, Error>)
    ensures Then([], later) == later
  {
    if later.Ok? {
      assert [] + later.value == later.value;
    }
  }

  /** The normalisation loop itself: appends one row per record to `flattened`. */
  method NormalizeRecords(records: seq<Value>) returns (r: Result<seq<Row>, Error>)
    ensures r == Normalized(records)
    ensures r.Ok? ==> |r.value| == |records|
  {
    var flattened: seq<Row> := [];
    var i := 0;
    assert records[0..] == records;
    ThenNothing(Normalized(records));
    while i < |records|
      invariant 0 <= i <= |records|
      invariant |flattened| == i
      invariant Normalized(records) == Then(flattened, Normalized(records[i..]))
    {
      var order := records[i];
      assert records[i..][0] == order && records[i..][1..] == records[i + 1..];
      if !order.Dict? {
        assert Normalized(records[i..]) == Err(AttributeError);
        return Err(AttributeError);
      }
      var row := NormalizeOne(order.entries);
      assert Normalized(records[i..]) == Then([row], Normalized(records[i + 1..]));
      ThenThen(flattened, [row], Normalized(records[i + 1..]));
      flattened := flattened + [row];
      i := i + 1;
    }
    assert flattened + [] == flattened;
    r := Ok(flattened);
  }
}
