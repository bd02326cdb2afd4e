/** The DynamoDB side: the item written for each row, the placeholder written when
    that write fails, and the persistence loop. */
module Store {
  import opened Results
  import opened Python
  import opened Decimals
  import opened Orders

  const StatusDynamoError := "dynamo_error"

  /** A put_item payload: the full item for a row, or the four-key placeholder. */
  datatype Item =
    | Full(
        orderName: Value,
        orderId: string,
        customerId: Option<string>,
        customerName: Value,
        amountTotal: Option<Decimal>,
        state: Value,
        dateOrder: Value,
        responseStatus: string,
        lastUpdatedAt: string)
    | Placeholder(orderName: Value, orderId: string, responseStatus: string, lastUpdatedAt: string)

  /** One put_item attempt: the table it named, the item, and whether the store took it. */
  datatype Write = Write(table: string, item: Item, accepted: bool)

  /** The DynamoDB resource. Which attempts fail is fixed in advance: attempt number
      k (counting every put_item since the resource was made, from 0) fails exactly
      when k is in `rejects`. Every attempt is logged with its outcome. */
  class Dynamo {
    const rejects: set<nat>
    var log: seq<Write>

    constructor(rejects: set<nat>)
      ensures this.rejects == rejects && log == []
    {
      this.rejects := rejects;
      log := [];
    }

    method PutItem(table: string, item: Item) returns (accepted: bool)
      modifies this
      ensures accepted == (|old(log)| !in rejects)
      ensures log == old(log) + [Write(table, item, accepted)]
    {
      accepted := |log| !in rejects;
      log := log + [Write(table, item, accepted)];
    }
  }

  /** The item the persistence loop first tries for a row; `now` is the clock
      reading in ISO-8601 form, to which the code appends "Z". */
  function ItemFor(row: Row, now: string): Item {
    Full(
      row.OrderName(),
      row.OrderId(),
      if Truthy(row.CustomerId()) then Some(PyStr(row.CustomerId())) else None,
      row.CustomerName(),
      SafeDecimal(row.AmountTotal()),
      row.State(),
      row.DateOrder(),
      row.ResponseStatus(),
      now + "Z")
  }

  /** What the full item of a row holds: the row's order name and id as its keys;
      the row's status (never dynamo_error);
      customer_id as text exactly when the row's customer id is truthy, a positive
      integer id as its decimal digits; the amount through safe_decimal; and for an
      invalid_record row no customer, amount, state or date at all. */
  lemma ItemForContents(row: Row, now: string)
    ensures var item := ItemFor(row, now);
      && item.Full?
      && item.orderName == row.OrderName() && item.orderId == row.OrderId()
      && item.responseStatus == row.ResponseStatus()
      && item.responseStatus != StatusDynamoError
      && (item.customerId.Some? <==> Truthy(row.CustomerId()))
      && (row.CustomerId().Int? && row.CustomerId().i > 0 ==> item.customerId == Some(NatToString(row.CustomerId().i)))
      && item.amountTotal == SafeDecimal(row.AmountTotal())
      && (row.InvalidRecord? ==>
            item.customerId == None && item.customerName == Null && item.amountTotal == None
            && item.state == Null && item.dateOrder == Null)
      && item.lastUpdatedAt == now + "Z"
  {
    if row.CustomerId().Int? && row.CustomerId().i > 0 {
      assert PyStr(row.CustomerId()) == IntToString(row.CustomerId().i);
    }
  }

  /** The item written instead when the full item was refused. */
  function PlaceholderFor(row: Row, now: string): Item {
    Placeholder(row.OrderName(), row.OrderId(), StatusDynamoError, now + "Z")
  }

  /** The writes the persistence loop makes, and whether it ran to the end. */
  datatype Persistence = Persistence(writes: seq<Write>, completed: bool)

  function Prepend(ws: seq<Write>, p: Persistence): Persistence {
    Persistence(ws + p.writes, p.completed)
  }

  /** One turn of the persistence loop for one row, when the store has seen n
      attempts: the full item; when that is refused, the placeholder; when the
      placeholder too is refused, the exception leaves the loop (not completed). */
  function RowWrites(row: Row, table: string, now: string, rejects: set<nat>, n: nat): (p: Persistence)
    ensures |p.writes| == (if n in rejects then 2 else 1)
  {
    var full := Write(table, ItemFor(row, now), n !in rejects);
    if n !in rejects then Persistence([full], true)
    else Persistence([full, Write(table, PlaceholderFor(row, now), n + 1 !in rejects)], n + 1 !in rejects)
  }

  /** The persistence loop over all rows, starting when the store has seen n attempts. */
  function Persisted(rows: seq<Row>, table: string, now: string, rejects: set<nat>, n: nat): Persistence
    decreases |rows|
  {
    if rows == [] then Persistence([], true)
    else
      var first := RowWrites(rows[0], table, now, rejects, n);
      if first.completed then Prepend(first.writes, Persisted(rows[1..], table, now, rejects, n + |first.writes|))
      else first
  }

  /** The full items among the writes, in order. */
  function FullItems(ws: seq<Write>): seq<Item> {
    if ws == [] then []
    else (if ws[0].item.Full? then [ws[0].item] else []) + FullItems(ws[1..])
  }

  lemma {:induction false} FullItemsAppend(a: seq<Write>, b: seq<Write>)
    ensures FullItems(a + b) == FullItems(a) + FullItems(b)
  {
    if a == [] {
      assert a + b == b;
    } else {
      assert (a + b)[0] == a[0];
      assert (a + b)[1..] == a[1..] + b;
      FullItemsAppend(a[1..], b);
    }
  }

  /** Every write names `table`, and the j-th is accepted exactly when attempt
      n + j is not one the store refuses. */
  ghost predicate AttemptsFrom(w: seq<Write>, table: string, rejects: set<nat>, n: nat) {
    forall j | 0 <= j < |w| :: w[j].table == table && w[j].accepted == (n + j !in rejects)
  }

  /** Every write of the loop goes to the named table, and each is accepted exactly
      when the store does not refuse that attempt. */
  lemma {:induction false} PersistedAttempts(rows: seq<Row>, table: string, now: string, rejects: set<nat>, n: nat)
    ensures AttemptsFrom(Persisted(rows, table, now, rejects, n).writes, table, rejects, n)
    decreases |rows|
  {
    if rows != [] {
      var w := Persisted(rows, table, now, rejects, n).writes;
      var skip := if n !in rejects then 1 else 2;
      if n in rejects && n + 1 in rejects {
      } else {
        PersistedAttempts(rows[1..], table, now, rejects, n + skip);
        var rest := Persisted(rows[1..], table, now, rejects, n + skip).writes;
        forall j | skip <= j < |w|
          ensures w[j].table == table && w[j].accepted == (n + j !in rejects)
        {
          assert w[j] == rest[j - skip];
        }
      }
    }
  }

  /** Every placeholder directly follows a refused full write, and carries that
      write's order keys and timestamp with the status dynamo_error. */
  ghost predicate PlaceholdersFollowRefusals(w: seq<Write>) {
    forall j | 0 <= j < |w| && w[j].item.Placeholder? ::
      && 0 < j && w[j - 1].item.Full? && !w[j - 1].accepted
      && w[j].item == Placeholder(w[j - 1].item.orderName, w[j - 1].item.orderId,
                                  StatusDynamoError, w[j - 1].item.lastUpdatedAt)
  }

  /** Every refused full write is directly followed by a placeholder. */
  ghost predicate RefusalsGetPlaceholders(w: seq<Write>) {
    forall j | 0 <= j < |w| && w[j].item.Full? && !w[j].accepted ::
      j + 1 < |w| && w[j + 1].item.Placeholder?
  }

  /** A placeholder is written only right after a full item was refused, and is
      that order's dynamo_error placeholder; every refused full item is followed by
      its placeholder. */
  lemma PersistedFallbacks(rows: seq<Row>, table: string, now: string, rejects: set<nat>, n: nat)
    ensures PlaceholdersFollowRefusals(Persisted(rows, table, now, rejects, n).writes)
    ensures RefusalsGetPlaceholders(Persisted(rows, table, now, rejects, n).writes)
  {
    PersistedPlaceholders(rows, table, now, rejects, n);
    PersistedRefusalsCovered(rows, table, now, rejects, n);
  }

  lemma {:induction false} PersistedPlaceholders(rows: seq<Row>, table: string, now: string, rejects: set<nat>, n: nat)
    ensures PlaceholdersFollowRefusals(Persisted(rows, table, now, rejects, n).writes)
    decreases |rows|
  {
    if rows != [] {
      var w := Persisted(rows, table, now, rejects, n).writes;
      var skip := if n !in rejects then 1 else 2;
      if n in rejects && n + 1 in rejects {
      } else {
        PersistedPlaceholders(rows[1..], table, now, rejects, n + skip);
        var rest := Persisted(rows[1..], table, now, rejects, n + skip).writes;
        assert |w| == skip + |rest|;
        forall j | 0 <= j < |w| && w[j].item.Placeholder?
          ensures && 0 < j && w[j - 1].item.Full? && !w[j - 1].accepted
                  && w[j].item == Placeholder(w[j - 1].item.orderName, w[j - 1].item.orderId,
                                              StatusDynamoError, w[j - 1].item.lastUpdatedAt)
        {
          if j >= skip {
            assert w[j] == rest[j - skip];
            if j > skip {
              assert w[j - 1] == rest[j - skip - 1];
            }
          }
        }
      }
    }
  }

  lemma {:induction false} PersistedRefusalsCovered(rows: seq<Row>, table: string, now: string, rejects: set<nat>, n: nat)
    ensures RefusalsGetPlaceholders(Persisted(rows, table, now, rejects, n).writes)
    decreases |rows|
  {
    if rows != [] {
      var w := Persisted(rows, table, now, rejects, n).writes;
      var skip := if n !in rejects then 1 else 2;
      if n in rejects && n + 1 in rejects {
      } else {
        PersistedRefusalsCovered(rows[1..], table, now, rejects, n + skip);
        var rest := Persisted(rows[1..], table, now, rejects, n + skip).writes;
        assert |w| == skip + |rest|;
        forall j | 0 <= j < |w| && w[j].item.Full? && !w[j].accepted
          ensures j + 1 < |w| && w[j + 1].item.Placeholder?
        {
          if j >= skip {
            assert w[j] == rest[j - skip];
            assert w[j + 1] == rest[j - skip + 1];
          }
        }
      }
    }
  }

  /** The loop stops early only when a placeholder write is refused, and then that
      refused placeholder is the last write. */
  lemma PersistedAborts(rows: seq<Row>, table: string, now: string, rejects: set<nat>, n: nat)
    ensures var p := Persisted(rows, table, now, rejects, n);
      p.completed <==> forall j | 0 <= j < |p.writes| && p.writes[j].item.Placeholder? :: p.writes[j].accepted
    ensures var p := Persisted(rows, table, now, rejects, n);
      !p.completed ==>
        |p.writes| >= 2 && p.writes[|p.writes| - 1].item.Placeholder? && !p.writes[|p.writes| - 1].accepted
  {
    PersistedCompletesUnlessRefused(rows, table, now, rejects, n);
    PersistedAbortEndsWrites(rows, table, now, rejects, n);
  }

  lemma {:induction false} PersistedCompletesUnlessRefused(rows: seq<Row>, table: string, now: string, rejects: set<nat>, n: nat)
    ensures var p := Persisted(rows, table, now, rejects, n);
      p.completed <==> forall j | 0 <= j < |p.writes| && p.writes[j].item.Placeholder? :: p.writes[j].accepted
    decreases |rows|
  {
    if rows != [] {
      var p := Persisted(rows, table, now, rejects, n);
      var skip := if n !in rejects then 1 else 2;
      if n in rejects && n + 1 in rejects {
        assert p.writes[1].item.Placeholder? && !p.writes[1].accepted;
      } else {
        PersistedCompletesUnlessRefused(rows[1..], table, now, rejects, n + skip);
        var rest := Persisted(rows[1..], table, now, rejects, n + skip);
        forall j | skip <= j < |p.writes|
          ensures p.writes[j] == rest.writes[j - skip]
        {
        }
        if !rest.completed {
          var j :| 0 <= j < |rest.writes| && rest.writes[j].item.Placeholder? && !rest.writes[j].accepted;
          assert p.writes[j + skip] == rest.writes[j];
        }
      }
    }
  }

  lemma {:induction false} PersistedAbortEndsWrites(rows: seq<Row>, table: string, now: string, rejects: set<nat>, n: nat)
    ensures var p := Persisted(rows, table, now, rejects, n);
      !p.completed ==>
        |p.writes| >= 2 && p.writes[|p.writes| - 1].item.Placeholder? && !p.writes[|p.writes| - 1].accepted
    decreases |rows|
  {
    if rows != [] {
      var p := Persisted(rows, table, now, rejects, n);
      var skip := if n !in rejects then 1 else 2;
      if !(n in rejects && n + 1 in rejects) {
        PersistedAbortEndsWrites(rows[1..], table, now, rejects, n + skip);
        var rest := Persisted(rows[1..], table, now, rejects, n + skip);
        if !rest.completed {
          assert p.writes[|p.writes| - 1] == rest.writes[|rest.writes| - 1];
        }
      }
    }
  }

  /** Each row, in order, gets one attempt with its full item: all of them when
      the loop completes, a prefix of them when it stops early. */
  lemma {:induction false} PersistedFullItemsInOrder(rows: seq<Row>, table: string, now: string, rejects: set<nat>, n: nat)
    ensures var p := Persisted(rows, table, now, rejects, n);
      var fulls := FullItems(p.writes);
      && |fulls| <= |rows|
      && (p.completed ==> |fulls| == |rows|)
      && forall k | 0 <= k < |fulls| :: fulls[k] == ItemFor(rows[k], now)
    decreases |rows|
  {
    if rows != [] {
      var p := Persisted(rows, table, now, rejects, n);
      var skip := if n !in rejects then 1 else 2;
      var head := RowWrites(rows[0], table, now, rejects, n).writes;
      RowFullItem(rows[0], table, now, rejects, n);
      if n in rejects && n + 1 in rejects {
        assert p.writes == head;
      } else {
        PersistedFullItemsInOrder(rows[1..], table, now, rejects, n + skip);
        var rest := Persisted(rows[1..], table, now, rejects, n + skip);
        assert p.writes == head + rest.writes;
        FullItemsAppend(head, rest.writes);
        var fulls := FullItems(p.writes);
        forall k | 1 <= k < |fulls|
          ensures fulls[k] == ItemFor(rows[k], now)
        {
          assert fulls[k] == FullItems(rest.writes)[k - 1] && rows[1..][k - 1] == rows[k];
        }
      }
    }
  }

  /** One turn of the loop attempts exactly one full item: the row's. */
  lemma RowFullItem(row: Row, table: string, now: string, rejects: set<nat>, n: nat)
    ensures FullItems(RowWrites(row, table, now, rejects, n).writes) == [ItemFor(row, now)]
  {
    var w := RowWrites(row, table, now, rejects, n).writes;
    if |w| == 1 {
      assert w[1..] == [];
    } else {
      assert w[1..][1..] == [];
      assert FullItems(w[1..]) == [];
    }
  }

  /** When the store never refuses two attempts in a row, no placeholder is refused
      and the loop always runs to the end: one record's failure never stops the rest. */
  lemma {:induction false} NoConsecutiveRejectionsCompletes(rows: seq<Row>, table: string, now: string, rejects: set<nat>, n: nat)
    requires forall k :: k in rejects ==> k + 1 !in rejects
    ensures Persisted(rows, table, now, rejects, n).completed
    decreases |rows|
  {
    if rows != [] {
      var skip := if n !in rejects then 1 else 2;
      NoConsecutiveRejectionsCompletes(rows[1..], table, now, rejects, n + skip);
    }
  }

  /** With no refusals, the loop writes exactly the full item of each row, in order,
      each accepted, and nothing else. */
  lemma {:induction false} PersistedWithoutRejections(rows: seq<Row>, table: string, now: string, rejects: set<nat>, n: nat)
    requires forall k | n <= k < n + |rows| :: k !in rejects
    ensures var p := Persisted(rows, table, now, rejects, n);
      && p.completed
      && |p.writes| == |rows|
      && forall k | 0 <= k < |rows| :: p.writes[k] == Write(table, ItemFor(rows[k], now), true)
    decreases |rows|
  {
    if rows != [] {
      PersistedWithoutRejections(rows[1..], table, now, rejects, n + 1);
      var p := Persisted(rows, table, now, rejects, n);
      var rest := Persisted(rows[1..], table, now, rejects, n + 1);
      forall k | 1 <= k < |rows|
        ensures p.writes[k] == Write(table, ItemFor(rows[k], now), true)
      {
        assert p.writes[k] == rest.writes[k - 1];
        assert rows[1..][k - 1] == rows[k];
      }
    }
  }

  /** A single refused attempt, the full item of row k, costs that row a
      placeholder and nothing else: every other row's full item is written and the
      loop completes with one extra write. */
  lemma {:induction false} SingleRefusalIsolated(rows: seq<Row>, table: string, now: string, n: nat, k: nat)
    requires k < |rows|
    ensures var p := Persisted(rows, table, now, {n + k}, n);
      && p.completed
      && |p.writes| == |rows| + 1
      && (forall j | 0 <= j < k :: p.writes[j] == Write(table, ItemFor(rows[j], now), true))
      && p.writes[k] == Write(table, ItemFor(rows[k], now), false)
      && p.writes[k + 1] == Write(table, PlaceholderFor(rows[k], now), true)
      && (forall j | k < j < |rows| :: p.writes[j + 1] == Write(table, ItemFor(rows[j], now), true))
    decreases |rows|
  {
    if k == 0 {
      RefusalOfFirstRow(rows, table, now, n);
    } else {
      var p := Persisted(rows, table, now, {n + k}, n);
      SingleRefusalIsolated(rows[1..], table, now, n + 1, k - 1);
      var rest := Persisted(rows[1..], table, now, {n + 1 + (k - 1)}, n + 1);
      assert {n + k} == {n + 1 + (k - 1)};
      assert p.writes == [Write(table, ItemFor(rows[0], now), true)] + rest.writes;
      forall j | 0 < j < k
        ensures p.writes[j] == Write(table, ItemFor(rows[j], now), true)
      {
        assert p.writes[j] == rest.writes[j - 1] && rows[1..][j - 1] == rows[j];
      }
      assert p.writes[k] == rest.writes[k - 1] && rows[1..][k - 1] == rows[k];
      assert p.writes[k + 1] == rest.writes[k];
      forall j | k < j < |rows|
        ensures p.writes[j + 1] == Write(table, ItemFor(rows[j], now), true)
      {
        assert p.writes[j + 1] == rest.writes[j] && rows[1..][j - 1] == rows[j];
      }
    }
  }

  /** The case of SingleRefusalIsolated where the refused attempt is the first. */
  lemma RefusalOfFirstRow(rows: seq<Row>, table: string, now: string, n: nat)
    requires 0 < |rows|
    ensures var p := Persisted(rows, table, now, {n}, n);
      && p.completed
      && |p.writes| == |rows| + 1
      && p.writes[0] == Write(table, ItemFor(rows[0], now), false)
      && p.writes[1] == Write(table, PlaceholderFor(rows[0], now), true)
      && (forall j | 0 < j < |rows| :: p.writes[j + 1] == Write(table, ItemFor(rows[j], now), true))
  {
    var p := Persisted(rows, table, now, {n}, n);
    PersistedWithoutRejections(rows[1..], table, now, {n}, n + 2);
    var rest := Persisted(rows[1..], table, now, {n}, n + 2);
    assert p.writes == [Write(table, ItemFor(rows[0], now), false), Write(table, PlaceholderFor(rows[0], now), true)] + rest.writes;
    forall j | 0 < j < |rows|
      ensures p.writes[j + 1] == Write(table, ItemFor(rows[j], now), true)
    {
      assert p.writes[j + 1] == rest.writes[j - 1];
      assert rows[1..][j - 1] == rows[j];
    }
  }

  lemma PersistedAdvance(rows: seq<Row>, i: nat, table: string, now: string, rejects: set<nat>, n0: nat, done: seq<Write>)
    requires i < |rows|
    requires Persisted(rows, table, now, rejects, n0)
      == Prepend(done, Persisted(rows[i..], table, now, rejects, n0 + |done|))
    ensures var step := RowWrites(rows[i], table, now, rejects, n0 + |done|);
      step.completed ==>
        Persisted(rows, table, now, rejects, n0)
          == Prepend(done + step.writes, Persisted(rows[i + 1..], table, now, rejects, n0 + |done + step.writes|))
    ensures var step := RowWrites(rows[i], table, now, rejects, n0 + |done|);
      !step.completed ==> Persisted(rows, table, now, rejects, n0) == Prepend(done, step)
  {
    assert rows[i..][0] == rows[i];
    assert rows[i..][1..] == rows[i + 1..];
    var step := RowWrites(rows[i], table, now, rejects, n0 + |done|);
    var rest := Persisted(rows[i + 1..], table, now, rejects, n0 + |done| + |step.writes|);
    assert done + (step.writes + rest.writes) == done + step.writes + rest.writes;
  }

  /** One turn of the loop body: the full item, and the placeholder if the full
      item is refused. */
  method PersistRow(dynamo: Dynamo, table: string, row: Row, now: string) returns (completed: bool)
    modifies dynamo
    ensures var p := RowWrites(row, table, now, dynamo.rejects, |old(dynamo.log)|);
      dynamo.log == old(dynamo.log) + p.writes && completed == p.completed
  {
    var accepted := dynamo.PutItem(table, ItemFor(row, now));
    if accepted {
      return true;
    }
    completed := dynamo.PutItem(table, PlaceholderFor(row, now));
  }

  /** The persistence loop: one turn per row, in order, until a placeholder is refused. */
  method PersistRows(dynamo: Dynamo, table: string, rows: seq<Row>, now: string) returns (completed: bool)
    modifies dynamo
    ensures var p := Persisted(rows, table, now, dynamo.rejects, |old(dynamo.log)|);
      dynamo.log == old(dynamo.log) + p.writes && completed == p.completed
  {
    ghost var n0 := |dynamo.log|;
    ghost var rejects := dynamo.rejects;
    ghost var done: seq<Write> := [];
    var i := 0;
    while i < |rows|
      invariant 0 <= i <= |rows|
      invariant dynamo.log == old(dynamo.log) + done
      invariant Persisted(rows, table, now, rejects, n0)
        == Prepend(done, Persisted(rows[i..], table, now, rejects, n0 + |done|))
    {
      ghost var before := dynamo.log;
      assert |before| == n0 + |done|;
      ghost var step := RowWrites(rows[i], table, now, rejects, n0 + |done|);
      PersistedAdvance(rows, i, table, now, rejects, n0, done);
      var ok := PersistRow(dynamo, table, rows[i], now);
      assert dynamo.log == before + step.writes;
      assert old(dynamo.log) + done + step.writes == old(dynamo.log) + (done + step.writes);
      done := done + step.writes;
      if !ok {
        return false;
      }
      i := i + 1;
    }
    assert rows[i..] == [];
    completed := true;
  }
}
