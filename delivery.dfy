/**
 * The delivery service (services/delivery/src/index.js): a `deliveries`
 * table fed by `order.created` events and by operator status commands, and
 * the latest-row query.
 *
 * The table is a sequence in insertion order. `NOW()` is the `clock`
 * counter, advanced once per statement, so a later statement always stamps a
 * greater `updated_at`. A publish is an append to `outbox`.
 */
module DeliveryService {
  import opened Wrappers
  import opened Text
  import OrderService

  // ---------------------------------------------------------------------------
  // Status vocabulary
  // ---------------------------------------------------------------------------

  datatype Status = Pending | Dispatched | InTransit | Delivered | Failed

  function StatusName(s: Status): string {
    match s
    case Pending => "PENDING"
    case Dispatched => "DISPATCHED"
    case InTransit => "IN_TRANSIT"
    case Delivered => "DELIVERED"
    case Failed => "FAILED"
  }

  const Allowed: seq<string> := ["PENDING", "DISPATCHED", "IN_TRANSIT", "DELIVERED", "FAILED"]

  /** `allowed.includes(s)`, read back as the enum member it names. */
  function ParseStatus(s: string): (r: Option<Status>)
    ensures r.Some? <==> s in Allowed
    ensures r.Some? ==> StatusName(r.value) == s
  {
    if s == "PENDING" then Some(Pending)
    else if s == "DISPATCHED" then Some(Dispatched)
    else if s == "IN_TRANSIT" then Some(InTransit)
    else if s == "DELIVERED" then Some(Delivered)
    else if s == "FAILED" then Some(Failed)
    else None
  }

  /** Every status is accepted under its own name, and the allowed list is exactly the five names. */
  lemma StatusNamesAllowed(st: Status)
    ensures ParseStatus(StatusName(st)) == Some(st)
    ensures StatusName(st) in Allowed
    ensures forall s :: s in Allowed <==> exists t :: StatusName(t) == s
  {
    assert StatusName(Pending) == Allowed[0] && StatusName(Dispatched) == Allowed[1];
    assert StatusName(InTransit) == Allowed[2] && StatusName(Delivered) == Allowed[3];
    assert StatusName(Failed) == Allowed[4];
  }

  datatype StatusCheck = Accepted(status: Status) | StatusRequired | BadStatus(received: string)

  /**
   * The request's status, upper-cased (`""` when absent), must be non-empty
   * and one of the five allowed names. The check does not look at the
   * delivery's current status: every transition is permitted.
   */
  function CheckStatus(raw: string): (r: StatusCheck)
    ensures r == StatusRequired <==> raw == ""
    ensures r.BadStatus? <==> raw != "" && Upper(raw) !in Allowed
    ensures r.BadStatus? ==> r.received == Upper(raw)
    ensures r.Accepted? ==> StatusName(r.status) == Upper(raw)
  {
    var status := Upper(raw);
    if status == "" then StatusRequired
    else match ParseStatus(status)
      case None => BadStatus(status)
      case Some(st) => Accepted(st)
  }

  /** The check is case-insensitive: a status written in lower case is accepted too. */
  lemma CheckStatusIgnoresCase(st: Status)
    ensures CheckStatus(StatusName(st)) == Accepted(st)
    ensures CheckStatus(Lower(StatusName(st))) == Accepted(st)
  {
    var name := StatusName(st);
    assert Upper(name) == name;
    assert Upper(Lower(name)) == name;
    StatusNamesAllowed(st);
  }

  // ---------------------------------------------------------------------------
  // The deliveries table
  // ---------------------------------------------------------------------------

  datatype Delivery = Delivery(orderId: int, status: Status, address: string, courier: string, updatedAt: nat)

  datatype DeliveryUpdated = DeliveryUpdated(orderId: int, status: Status)

  const Courier: string := "SpeedX"

  /** The number of rows the table holds for one order. */
  function CountFor(rows: seq<Delivery>, orderId: int): nat {
    if |rows| == 0 then 0
    else CountFor(rows[..|rows| - 1], orderId) + (if rows[|rows| - 1].orderId == orderId then 1 else 0)
  }

  lemma {:induction false} CountForPositiveIff(rows: seq<Delivery>, orderId: int)
    ensures CountFor(rows, orderId) > 0 <==> exists i :: 0 <= i < |rows| && rows[i].orderId == orderId
  {
    if |rows| > 0 {
      var prefix := rows[..|rows| - 1];
      CountForPositiveIff(prefix, orderId);
      if exists i :: 0 <= i < |prefix| && prefix[i].orderId == orderId {
        var i :| 0 <= i < |prefix| && prefix[i].orderId == orderId;
        assert rows[i].orderId == orderId;
      }
      if exists i :: 0 <= i < |rows| && rows[i].orderId == orderId {
        var i :| 0 <= i < |rows| && rows[i].orderId == orderId;
        if i < |rows| - 1 { assert prefix[i].orderId == orderId; }
      }
    }
  }

  lemma CountForAppend(rows: seq<Delivery>, d: Delivery, orderId: int)
    ensures CountFor(rows + [d], orderId) == CountFor(rows, orderId) + (if d.orderId == orderId then 1 else 0)
  {
    assert (rows + [d])[..|rows|] == rows;
  }

  /** `UPDATE deliveries SET status = status, updated_at = NOW() WHERE order_id = orderId` */
  function SetStatus(rows: seq<Delivery>, orderId: int, status: Status, now: nat): seq<Delivery> {
    if |rows| == 0 then []
    else
      var last := rows[|rows| - 1];
      SetStatus(rows[..|rows| - 1], orderId, status, now)
        + [if last.orderId == orderId then last.(status := status, updatedAt := now) else last]
  }

  /**
   * The update touches exactly the rows of that order, giving each the new
   * status and the statement's timestamp, and keeps every other row and the
   * row count as they were.
   */
  lemma {:induction false} SetStatusSpec(rows: seq<Delivery>, orderId: int, status: Status, now: nat)
    ensures |SetStatus(rows, orderId, status, now)| == |rows|
    ensures forall i :: 0 <= i < |rows| && rows[i].orderId == orderId ==>
      SetStatus(rows, orderId, status, now)[i] == rows[i].(status := status, updatedAt := now)
    ensures forall i :: 0 <= i < |rows| && rows[i].orderId != orderId ==>
      SetStatus(rows, orderId, status, now)[i] == rows[i]
  {
    if |rows| > 0 {
      SetStatusSpec(rows[..|rows| - 1], orderId, status, now);
    }
  }

  /** The update changes no order's row count: it never inserts. */
  lemma {:induction false} SetStatusKeepsCounts(rows: seq<Delivery>, orderId: int, status: Status, now: nat, other: int)
    ensures CountFor(SetStatus(rows, orderId, status, now), other) == CountFor(rows, other)
  {
    if |rows| > 0 {
      var prefix := rows[..|rows| - 1];
      var last := rows[|rows| - 1];
      var updated := if last.orderId == orderId then last.(status := status, updatedAt := now) else last;
      var before := SetStatus(prefix, orderId, status, now);
      assert SetStatus(rows, orderId, status, now) == before + [updated];
      SetStatusKeepsCounts(prefix, orderId, status, now, other);
      CountForAppend(before, updated, other);
    }
  }

  /**
   * The row `ORDER BY updated_at DESC LIMIT 1` yields for one order: a row
   * of that order whose timestamp no other row of that order exceeds.
   */
  function Latest(rows: seq<Delivery>, orderId: int): (r: Option<Delivery>)
    ensures r.Some? <==> exists i :: 0 <= i < |rows| && rows[i].orderId == orderId
    ensures r.Some? ==> r.value in rows && r.value.orderId == orderId
    ensures r.Some? ==> forall i :: 0 <= i < |rows| && rows[i].orderId == orderId ==> rows[i].updatedAt <= r.value.updatedAt
  {
    if |rows| == 0 then None
    else
      var prefix := rows[..|rows| - 1];
      var last := rows[|rows| - 1];
      var rest := Latest(prefix, orderId);
      assert forall i :: 0 <= i < |rows| - 1 ==> rows[i] == prefix[i];
      if last.orderId != orderId then rest
      else if rest.Some? && rest.value.updatedAt >= last.updatedAt then rest
      else Some(last)
  }

  /** A row stamped later than every other row becomes its order's latest. */
  lemma LatestAfterAppend(rows: seq<Delivery>, d: Delivery)
    requires forall i :: 0 <= i < |rows| ==> rows[i].updatedAt < d.updatedAt
    ensures Latest(rows + [d], d.orderId) == Some(d)
  {
    assert (rows + [d])[..|rows|] == rows;
  }

  /**
   * After the update, the order's latest row carries the new status and the
   * update's timestamp, provided the update was stamped after every older
   * row and the order had a row.
   */
  lemma LatestAfterSetStatus(rows: seq<Delivery>, orderId: int, status: Status, now: nat)
    requires forall i :: 0 <= i < |rows| ==> rows[i].updatedAt < now
    requires CountFor(rows, orderId) > 0
    ensures Latest(SetStatus(rows, orderId, status, now), orderId).Some?
    ensures Latest(SetStatus(rows, orderId, status, now), orderId).value.status == status
    ensures Latest(SetStatus(rows, orderId, status, now), orderId).value.updatedAt == now
  {
    CountForPositiveIff(rows, orderId);
    SetStatusSpec(rows, orderId, status, now);
    var after := SetStatus(rows, orderId, status, now);
    var i :| 0 <= i < |rows| && rows[i].orderId == orderId;
    assert after[i].orderId == orderId && after[i].updatedAt == now;
    var r := Latest(after, orderId).value;
    var j :| 0 <= j < |after| && after[j] == r;
    assert rows[j].orderId == orderId;
  }

  /** GET /:orderId: the latest row of the order, or 404. */
  function GetDelivery(rows: seq<Delivery>, orderId: nat): Response<Delivery> {
    match Latest(rows, orderId)
    case None => Error(404, "not found")
    case Some(d) => Ok(d)
  }

  /** The query answers 404 exactly for an order without rows, and otherwise a newest row of that order. */
  lemma GetDeliverySpec(rows: seq<Delivery>, orderId: nat)
    ensures GetDelivery(rows, orderId) == Error(404, "not found") <==> CountFor(rows, orderId) == 0
    ensures GetDelivery(rows, orderId).Ok? ==>
      && GetDelivery(rows, orderId).body in rows
      && GetDelivery(rows, orderId).body.orderId == orderId
      && forall i :: 0 <= i < |rows| && rows[i].orderId == orderId ==> rows[i].updatedAt <= GetDelivery(rows, orderId).body.updatedAt
  {
    CountForPositiveIff(rows, orderId);
  }

  // ---------------------------------------------------------------------------
  // Consuming events
  // ---------------------------------------------------------------------------

  /** A broker delivery: a consumer cancellation (null), a body that is not JSON, or a parsed event. */
  datatype Message = Cancelled | Unparsable | Event(kind: string, orderId: int, address: string)

  /** The table after the consume handler has seen `msg` at time `now`. */
  function Consumed(rows: seq<Delivery>, msg: Message, now: nat): seq<Delivery> {
    if msg.Event? && msg.kind == "order.created"
    then rows + [Delivery(msg.orderId, Pending, msg.address, Courier, now)]
    else rows
  }

  /** How an order service event reads once it has crossed the broker. */
  function WireMessage(e: OrderService.OrderCreated): Message {
    Event("order.created", e.orderId, e.address)
  }

  /**
   * Consuming an order's event leaves that order's latest delivery `PENDING`
   * at the order's address with the default courier, even when rows existed
   * already: nothing deduplicates, so a redelivered event adds a second row
   * and sets the visible status back to `PENDING`.
   */
  lemma ConsumeOrderCreatedSpec(rows: seq<Delivery>, e: OrderService.OrderCreated, now: nat)
    requires forall i :: 0 <= i < |rows| ==> rows[i].updatedAt < now
    ensures var after := Consumed(rows, WireMessage(e), now);
      && CountFor(after, e.orderId) == CountFor(rows, e.orderId) + 1
      && Latest(after, e.orderId) == Some(Delivery(e.orderId, Pending, e.address, Courier, now))
  {
    var d := Delivery(e.orderId, Pending, e.address, Courier, now);
    CountForAppend(rows, d, e.orderId);
    LatestAfterAppend(rows, d);
  }

  /** A redelivered event is processed again: two consumptions give two rows. */
  lemma RedeliveryDuplicates(rows: seq<Delivery>, orderId: int, address: string, now: nat)
    ensures var msg := Event("order.created", orderId, address);
      CountFor(Consumed(Consumed(rows, msg, now), msg, now + 1), orderId) == CountFor(rows, orderId) + 2
  {
    var msg := Event("order.created", orderId, address);
    CountForAppend(rows, Delivery(orderId, Pending, address, Courier, now), orderId);
    CountForAppend(Consumed(rows, msg, now), Delivery(orderId, Pending, address, Courier, now + 1), orderId);
  }

  // ---------------------------------------------------------------------------
  // The service's table and handlers
  // ---------------------------------------------------------------------------

  /** A PATCH answer; a `bad status` refusal echoes the upper-cased value and the allowed list. */
  datatype PatchResponse =
    | Patched(row: Delivery)
    | BadRequest(error: string, received: Option<string>, allowed: Option<seq<string>>)

  /** Every row was stamped before the clock's current value. */
  predicate StampedBefore(rows: seq<Delivery>, now: nat) {
    forall i :: 0 <= i < |rows| ==> rows[i].updatedAt < now
  }

  class DeliveryStore {
    var rows: seq<Delivery>
    var outbox: seq<DeliveryUpdated>
    var clock: nat
    var channelUp: bool

    ghost predicate Valid()
      reads this
    {
      StampedBefore(rows, clock)
    }

    constructor (channelUp: bool)
      ensures Valid()
      ensures rows == [] && outbox == [] && this.channelUp == channelUp
    {
      rows := [];
      outbox := [];
      clock := 0;
      this.channelUp := channelUp;
    }

    /**
     * The consumer callback. `order.created` appends one `PENDING` row and
     * publishes `delivery.updated`; any other parsed event is only
     * acknowledged; a cancellation or an unparsable body is not acknowledged.
     * It runs only on an open channel, so its publish is unconditional.
     */
    method Consume(msg: Message) returns (acked: bool)
      requires Valid() && channelUp
      modifies this
      ensures Valid() && channelUp == old(channelUp)
      ensures acked <==> msg.Event?
      ensures rows == Consumed(old(rows), msg, old(clock))
      ensures msg.Event? && msg.kind == "order.created" ==>
        outbox == old(outbox) + [DeliveryUpdated(msg.orderId, Pending)] && clock == old(clock) + 1
      ensures !(msg.Event? && msg.kind == "order.created") ==> outbox == old(outbox) && clock == old(clock)
    {
      match msg
      case Cancelled =>
        return false;
      case Unparsable =>
        return false;
      case Event(kind, orderId, address) =>
        if kind == "order.created" {
          rows := rows + [Delivery(orderId, Pending, address, Courier, clock)];
          clock := clock + 1;
          outbox := outbox + [DeliveryUpdated(orderId, Pending)];
        }
        acked := true;
    }

    /**
     * PATCH /:orderId. A refused status writes and publishes nothing.
     * Otherwise every row of the order takes the status, or, when the order
     * has none, one `UNKNOWN`-address row is inserted; `delivery.updated` is
     * published (when the channel is up) and a row with the new status is
     * returned.
     */
    method Patch(orderId: nat, rawStatus: string) returns (resp: PatchResponse)
      requires Valid()
      modifies this
      ensures Valid() && channelUp == old(channelUp)
      ensures match CheckStatus(rawStatus)
        case StatusRequired =>
          resp == BadRequest("status required", None, None)
          && rows == old(rows) && outbox == old(outbox) && clock == old(clock)
        case BadStatus(received) =>
          resp == BadRequest("bad status", Some(received), Some(Allowed))
          && rows == old(rows) && outbox == old(outbox) && clock == old(clock)
        case Accepted(status) =>
          && clock == old(clock) + 1
          && rows == (if CountFor(old(rows), orderId) > 0
                      then SetStatus(old(rows), orderId, status, old(clock))
                      else old(rows) + [Delivery(orderId, status, "UNKNOWN", Courier, old(clock))])
          && outbox == old(outbox) + (if channelUp then [DeliveryUpdated(orderId, status)] else [])
          && resp.Patched? && resp.row in rows
          && resp.row.orderId == orderId && resp.row.status == status && resp.row.updatedAt == old(clock)
    {
      match CheckStatus(rawStatus)
      case StatusRequired =>
        return BadRequest("status required", None, None);
      case BadStatus(received) =>
        return BadRequest("bad status", Some(received), Some(Allowed));
      case Accepted(status) =>
        var now := clock;
        var row: Delivery;
        if CountFor(rows, orderId) > 0 {
          CountForPositiveIff(rows, orderId);
          SetStatusSpec(rows, orderId, status, now);
          var i :| 0 <= i < |rows| && rows[i].orderId == orderId;
          rows := SetStatus(rows, orderId, status, now);
          row := rows[i];
        } else {
          row := Delivery(orderId, status, "UNKNOWN", Courier, now);
          rows := rows + [row];
        }
        clock := clock + 1;
        if channelUp {
          outbox := outbox + [DeliveryUpdated(orderId, status)];
        }
        resp := Patched(row);
    }
  }

  /**
   * After an accepted status command, the order has at least one row, it
   * has exactly one when it had none before, and its latest row carries the
   * commanded status.
   */
  lemma PatchThenGet(rows: seq<Delivery>, orderId: nat, status: Status, now: nat)
    requires StampedBefore(rows, now)
    ensures var after := if CountFor(rows, orderId) > 0
                         then SetStatus(rows, orderId, status, now)
                         else rows + [Delivery(orderId, status, "UNKNOWN", Courier, now)];
      && (CountFor(rows, orderId) == 0 ==> CountFor(after, orderId) == 1)
      && (CountFor(rows, orderId) > 0 ==> CountFor(after, orderId) == CountFor(rows, orderId))
      && GetDelivery(after, orderId).Ok?
      && GetDelivery(after, orderId).body.status == status
  {
    if CountFor(rows, orderId) > 0 {
      SetStatusKeepsCounts(rows, orderId, status, now, orderId);
      LatestAfterSetStatus(rows, orderId, status, now);
    } else {
      var d := Delivery(orderId, status, "UNKNOWN", Courier, now);
      CountForAppend(rows, d, orderId);
      LatestAfterAppend(rows, d);
    }
  }
}
