/**
 * The order service (services/order/src/index.js): the bearer-token identity,
 * the order schema, order placement against the medicines table, and the
 * owner-scoped order queries.
 *
 * Tables are in-memory values: `medicines` and `users` are maps keyed by id,
 * `orders` and `orderItems` are sequences in insertion order. The broker
 * publish is an append to `outbox`, made only when the channel is up.
 * Money is integer cents.
 */
module OrderService {
  import opened Wrappers
  import opened Text
  import opened Tokens

  // ---------------------------------------------------------------------------
  // Identity
  // ---------------------------------------------------------------------------

  /**
   * getUser: the `Authorization` header ("" when the request has none) must
   * start with `Bearer ` (case-sensitively); the rest is handed to the
   * decoder, which yields None for a token it cannot decode.
   */
  function GetUser(authorization: string, decode: string -> Option<Claims>): Option<Claims> {
    if StartsWith(authorization, BearerPrefix) then decode(authorization[|BearerPrefix|..]) else None
  }

  lemma GetUserNeedsBearer(authorization: string, decode: string -> Option<Claims>)
    requires !StartsWith(authorization, BearerPrefix)
    ensures GetUser(authorization, decode) == None
  {
  }

  /** The prefix test is case-sensitive: a lower-case scheme never identifies anyone. */
  lemma GetUserIsCaseSensitive(token: string, decode: string -> Option<Claims>)
    ensures GetUser("bearer " + token, decode) == None
    ensures GetUser("BEARER " + token, decode) == None
  {
    assert ("bearer " + token)[0] != BearerPrefix[0];
    assert ("BEARER " + token)[1] != BearerPrefix[1];
  }

  // ---------------------------------------------------------------------------
  // Request schema
  // ---------------------------------------------------------------------------

  /** One element of the request's `items` array; JSON numbers are exact reals here. */
  datatype RawItem = RawItem(medicineId: real, quantity: real)

  datatype OrderBody = OrderBody(items: seq<RawItem>, address: string)

  /** An order line that passed the schema. */
  datatype Line = Line(medicineId: int, quantity: int)

  datatype ValidOrder = ValidOrder(lines: seq<Line>, address: string)

  /** `z.number().int().positive()` */
  predicate IsPositiveInt(x: real) {
    x.Floor as real == x && x > 0.0
  }

  predicate WellFormedItem(item: RawItem) {
    IsPositiveInt(item.medicineId) && IsPositiveInt(item.quantity)
  }

  /** The `items` part of orderSchema: every element must be well formed. */
  function ParseLines(items: seq<RawItem>): (r: Option<seq<Line>>)
    ensures r.Some? <==> forall i :: 0 <= i < |items| ==> WellFormedItem(items[i])
    ensures r.Some? ==> |r.value| == |items|
    ensures r.Some? ==> forall i :: 0 <= i < |items| ==>
      && r.value[i].medicineId as real == items[i].medicineId
      && r.value[i].quantity as real == items[i].quantity
      && r.value[i].medicineId > 0 && r.value[i].quantity > 0
  {
    if |items| == 0 then Some([])
    else if !WellFormedItem(items[0]) then None
    else match ParseLines(items[1..])
      case None => None
      case Some(rest) => Some([Line(items[0].medicineId.Floor, items[0].quantity.Floor)] + rest)
  }

  /** orderSchema.parse: well-formed items and an address of JavaScript length (UTF-16 units) at least five. */
  function ParseOrder(body: OrderBody): (r: Option<ValidOrder>)
    ensures r.Some? <==> (forall i :: 0 <= i < |body.items| ==> WellFormedItem(body.items[i])) && Utf16Length(body.address) >= 5
    ensures r.Some? ==> r.value.address == body.address && Some(r.value.lines) == ParseLines(body.items)
  {
    match ParseLines(body.items)
    case None => None
    case Some(lines) => if Utf16Length(body.address) >= 5 then Some(ValidOrder(lines, body.address)) else None
  }

  /** An empty `items` list is accepted by the schema. */
  lemma EmptyItemsPassSchema(address: string)
    requires Utf16Length(address) >= 5
    ensures ParseOrder(OrderBody([], address)) == Some(ValidOrder([], address))
  {
  }

  function Ids(lines: seq<Line>): (ids: seq<int>)
    ensures |ids| == |lines|
    ensures forall i :: 0 <= i < |lines| ==> ids[i] == lines[i].medicineId
  {
    seq(|lines|, i requires 0 <= i < |lines| => lines[i].medicineId)
  }

  /**
   * The defensive re-check of the ids after the schema: some id is not a
   * positive integer.
   */
  predicate IdsRejected(lines: seq<Line>) {
    exists i :: 0 <= i < |lines| && lines[i].medicineId <= 0
  }

  /** The re-check can never reject what the schema accepted. */
  lemma IdsCheckNeverRejects(body: OrderBody)
    requires ParseOrder(body).Some?
    ensures !IdsRejected(ParseOrder(body).value.lines)
  {
  }

  // ---------------------------------------------------------------------------
  // Medicine lookup
  // ---------------------------------------------------------------------------

  /** A medicines row as this service sees it; `price` in cents. */
  datatype Medicine = Medicine(name: string, price: int, stock: int)

  /** A row of `SELECT id, price, stock FROM medicines WHERE id = ANY(ids)`: there is no name. */
  datatype LookupRow = LookupRow(id: int, price: int, stock: int)

  function Lookup(medicines: map<int, Medicine>, ids: seq<int>): (found: map<int, LookupRow>)
    ensures forall id :: id in found <==> id in medicines && id in ids
    ensures forall id :: id in found ==> found[id] == LookupRow(id, medicines[id].price, medicines[id].stock)
  {
    map id | id in medicines && id in ids :: LookupRow(id, medicines[id].price, medicines[id].stock)
  }

  predicate Distinct(ids: seq<int>) {
    forall i, j :: 0 <= i < j < |ids| ==> ids[i] != ids[j]
  }

  function Elements(ids: seq<int>): set<int> {
    set i | i in ids
  }

  lemma {:induction false} ElementsCard(ids: seq<int>)
    ensures |Elements(ids)| <= |ids|
    ensures |Elements(ids)| == |ids| <==> Distinct(ids)
  {
    if |ids| > 0 {
      var rest := ids[1..];
      ElementsCard(rest);
      assert Elements(ids) == Elements(rest) + {ids[0]};
      if ids[0] in rest {
        assert Elements(ids) == Elements(rest);
        var j :| 0 <= j < |rest| && rest[j] == ids[0];
        assert ids[0] == ids[j + 1];
      } else {
        assert Distinct(rest) ==> Distinct(ids) by {
          if Distinct(rest) {
            forall i, j | 0 <= i < j < |ids| ensures ids[i] != ids[j] {
              if i > 0 { assert ids[i] == rest[i - 1] && ids[j] == rest[j - 1]; }
              else { assert ids[j] == rest[j - 1]; }
            }
          }
        }
        assert Distinct(ids) ==> Distinct(rest) by {
          if Distinct(ids) {
            forall i, j | 0 <= i < j < |rest| ensures rest[i] != rest[j] {
              assert rest[i] == ids[i + 1] && rest[j] == ids[j + 1];
            }
          }
        }
      }
    }
  }

  lemma SubsetCard(a: set<int>, b: set<int>)
    requires a <= b
    ensures |a| <= |b|
    ensures |a| == |b| ==> a == b
  {
    assert b == a + (b - a);
    assert |b| == |a| + |b - a|;
    if |a| == |b| {
      assert |b - a| == 0;
      assert b - a == {};
    }
  }

  /**
   * The lookup returns as many rows as there are requested ids exactly when
   * the ids are pairwise distinct and all of them exist: an unknown id and a
   * repeated id both make the count fall short.
   */
  lemma LookupCountIff(medicines: map<int, Medicine>, ids: seq<int>)
    ensures |Lookup(medicines, ids)| == |ids| <==> Distinct(ids) && forall i :: 0 <= i < |ids| ==> ids[i] in medicines
  {
    var found := Lookup(medicines, ids);
    var keys := found.Keys;
    var elems := Elements(ids);
    assert keys == medicines.Keys * elems;
    assert |found| == |keys|;
    ElementsCard(ids);
    SubsetCard(keys, elems);
    if Distinct(ids) && forall i :: 0 <= i < |ids| ==> ids[i] in medicines {
      assert elems <= keys;
      assert keys == elems;
      assert |found| == |ids|;
    }
    if |found| == |ids| {
      assert |elems| == |ids|;
      assert keys == elems;
      forall i | 0 <= i < |ids| ensures ids[i] in medicines {
        assert ids[i] in elems;
      }
      assert Distinct(ids);
    }
  }

  // ---------------------------------------------------------------------------
  // Stock check and total
  // ---------------------------------------------------------------------------

  /** Every line's medicine is among the looked-up rows. */
  predicate Covered(lines: seq<Line>, found: map<int, LookupRow>) {
    forall i :: 0 <= i < |lines| ==> lines[i].medicineId in found
  }

  predicate Short(line: Line, found: map<int, LookupRow>)
    requires line.medicineId in found
  {
    found[line.medicineId].stock < line.quantity
  }

  /** The first line, in item order, whose medicine has less stock than the line asks for. */
  function FirstShort(lines: seq<Line>, found: map<int, LookupRow>): (r: Option<nat>)
    requires Covered(lines, found)
    ensures r.Some? ==> r.value < |lines| && Short(lines[r.value], found)
    ensures r.Some? ==> forall j :: 0 <= j < r.value ==> !Short(lines[j], found)
    ensures r.None? ==> forall j :: 0 <= j < |lines| ==> !Short(lines[j], found)
  {
    if |lines| == 0 then None
    else if Short(lines[0], found) then Some(0)
    else match FirstShort(lines[1..], found)
      case None => None
      case Some(k) => Some(k + 1)
  }

  /** Σ price × quantity over the lines, with the prices read at lookup. */
  function Total(lines: seq<Line>, found: map<int, LookupRow>): int
    requires Covered(lines, found)
  {
    if |lines| == 0 then 0
    else
      var last := lines[|lines| - 1];
      Total(lines[..|lines| - 1], found) + found[last.medicineId].price * last.quantity
  }

  // ---------------------------------------------------------------------------
  // The place-order decision
  // ---------------------------------------------------------------------------

  datatype Verdict =
    | Refuse(status: int, error: string)
    | Proceed(user: Claims, lines: seq<Line>, address: string, found: map<int, LookupRow>)

  function InsufficientStockMessage(id: nat): string {
    "insufficient stock for med " + NatToString(id)
  }

  /**
   * Which response the checks of place-order give before anything is
   * written: 401 without an identity, 400 for a body the schema refuses, 400
   * when the lookup returns fewer rows than there are ids, 400 naming the
   * first under-stocked medicine; otherwise the order proceeds.
   */
  function Screen(authorization: string, decode: string -> Option<Claims>, body: OrderBody,
                  medicines: map<int, Medicine>): (v: Verdict)
    ensures v.Proceed? ==> Covered(v.lines, v.found) && Distinct(Ids(v.lines))
    ensures v.Proceed? ==> v.found == Lookup(medicines, Ids(v.lines))
    ensures v.Proceed? ==> forall i :: 0 <= i < |v.lines| ==> v.lines[i].medicineId in medicines && v.lines[i].quantity > 0
    ensures v.Proceed? ==> forall i :: 0 <= i < |v.lines| ==> !Short(v.lines[i], v.found)
  {
    match GetUser(authorization, decode)
    case None => Refuse(401, "unauthorized")
    case Some(user) =>
      match ParseOrder(body)
      case None => Refuse(400, SchemaErrorMessage)
      case Some(order) =>
        var ids := Ids(order.lines);
        var found := Lookup(medicines, ids);
        if |found| != |ids| then Refuse(400, "invalid medicine id(s)")
        else
          LookupCountIff(medicines, ids);
          match FirstShort(order.lines, found)
          case Some(k) => Refuse(400, InsufficientStockMessage(order.lines[k].medicineId))
          case None => Proceed(user, order.lines, order.address, found)
  }

  /**
   * An order proceeds exactly when the caller is identified, the body passes
   * the schema, the ids are distinct and all exist, and every medicine has at
   * least the requested stock.
   */
  lemma ScreenProceedIff(authorization: string, decode: string -> Option<Claims>, body: OrderBody,
                         medicines: map<int, Medicine>)
    ensures Screen(authorization, decode, body, medicines).Proceed? <==>
      && GetUser(authorization, decode).Some?
      && ParseOrder(body).Some?
      && var lines := ParseOrder(body).value.lines;
         && Distinct(Ids(lines))
         && (forall i :: 0 <= i < |lines| ==> lines[i].medicineId in medicines)
         && (forall i :: 0 <= i < |lines| ==> medicines[lines[i].medicineId].stock >= lines[i].quantity)
  {
    if GetUser(authorization, decode).Some? && ParseOrder(body).Some? {
      var lines := ParseOrder(body).value.lines;
      LookupCountIff(medicines, Ids(lines));
    }
  }

  /**
   * An unknown id or an id listed twice rejects the order with
   * `invalid medicine id(s)`, whatever the stock.
   */
  lemma BadIdsRejected(authorization: string, decode: string -> Option<Claims>, body: OrderBody,
                       medicines: map<int, Medicine>)
    requires GetUser(authorization, decode).Some? && ParseOrder(body).Some?
    requires var ids := Ids(ParseOrder(body).value.lines);
      !Distinct(ids) || exists i :: 0 <= i < |ids| && ids[i] !in medicines
    ensures Screen(authorization, decode, body, medicines) == Refuse(400, "invalid medicine id(s)")
  {
    LookupCountIff(medicines, Ids(ParseOrder(body).value.lines));
  }

  /**
   * With an identity, a valid body and good ids, the order is refused exactly
   * when some line is under-stocked, and the error names the first such line's
   * medicine.
   */
  lemma InsufficientStockNamesFirst(authorization: string, decode: string -> Option<Claims>, body: OrderBody,
                                    medicines: map<int, Medicine>, k: nat)
    requires GetUser(authorization, decode).Some? && ParseOrder(body).Some?
    requires var lines := ParseOrder(body).value.lines;
      && Distinct(Ids(lines)) && (forall i :: 0 <= i < |lines| ==> lines[i].medicineId in medicines)
      && k < |lines| && medicines[lines[k].medicineId].stock < lines[k].quantity
      && forall j :: 0 <= j < k ==> medicines[lines[j].medicineId].stock >= lines[j].quantity
    ensures Screen(authorization, decode, body, medicines)
      == Refuse(400, InsufficientStockMessage(ParseOrder(body).value.lines[k].medicineId))
  {
    var lines := ParseOrder(body).value.lines;
    var ids := Ids(lines);
    var found := Lookup(medicines, ids);
    assert |found| == |ids| by {
      LookupCountIff(medicines, ids);
    }
    assert FirstShort(lines, found) == Some(k) by {
      assert Covered(lines, found);
      assert Short(lines[k], found);
      assert forall j :: 0 <= j < k ==> !Short(lines[j], found);
      FirstShortIsFirst(lines, found, k);
    }
  }

  /** The first under-stocked line is the one FirstShort finds. */
  lemma FirstShortIsFirst(lines: seq<Line>, found: map<int, LookupRow>, k: nat)
    requires Covered(lines, found) && k < |lines| && Short(lines[k], found)
    requires forall j :: 0 <= j < k ==> !Short(lines[j], found)
    ensures FirstShort(lines, found) == Some(k)
  {
  }

  // ---------------------------------------------------------------------------
  // Writes
  // ---------------------------------------------------------------------------

  datatype Order = Order(id: int, userId: int, total: int, status: string, address: string)

  datatype OrderItem = OrderItem(orderId: int, medicineId: int, quantity: int, price: int)

  /** The `order_items` rows of an order: one per line, priced as read at lookup. */
  function ItemRows(orderId: int, lines: seq<Line>, found: map<int, LookupRow>): seq<OrderItem>
    requires Covered(lines, found)
  {
    if |lines| == 0 then []
    else
      var last := lines[|lines| - 1];
      ItemRows(orderId, lines[..|lines| - 1], found)
        + [OrderItem(orderId, last.medicineId, last.quantity, found[last.medicineId].price)]
  }

  lemma {:induction false} ItemRowsSpec(orderId: int, lines: seq<Line>, found: map<int, LookupRow>)
    requires Covered(lines, found)
    ensures |ItemRows(orderId, lines, found)| == |lines|
    ensures forall i :: 0 <= i < |lines| ==>
      ItemRows(orderId, lines, found)[i] == OrderItem(orderId, lines[i].medicineId, lines[i].quantity, found[lines[i].medicineId].price)
  {
    if |lines| > 0 {
      ItemRowsSpec(orderId, lines[..|lines| - 1], found);
    }
  }

  /** `UPDATE medicines SET stock = stock - quantity WHERE id = medicineId` */
  function DecrementOne(medicines: map<int, Medicine>, line: Line): map<int, Medicine> {
    if line.medicineId in medicines
    then medicines[line.medicineId := medicines[line.medicineId].(stock := medicines[line.medicineId].stock - line.quantity)]
    else medicines
  }

  /** The stock updates of all lines, in item order. */
  function Decrement(medicines: map<int, Medicine>, lines: seq<Line>): map<int, Medicine> {
    if |lines| == 0 then medicines
    else DecrementOne(Decrement(medicines, lines[..|lines| - 1]), lines[|lines| - 1])
  }

  /**
   * With distinct ids, each ordered medicine's stock drops by exactly its
   * line's quantity, nothing else about it changes, and every other medicine
   * is left as it was.
   */
  lemma {:induction false} DecrementSpec(medicines: map<int, Medicine>, lines: seq<Line>)
    requires Distinct(Ids(lines))
    ensures Decrement(medicines, lines).Keys == medicines.Keys
    ensures forall i :: 0 <= i < |lines| && lines[i].medicineId in medicines ==>
      Decrement(medicines, lines)[lines[i].medicineId]
        == medicines[lines[i].medicineId].(stock := medicines[lines[i].medicineId].stock - lines[i].quantity)
    ensures forall id :: id in medicines && id !in Ids(lines) ==> Decrement(medicines, lines)[id] == medicines[id]
  {
    if |lines| > 0 {
      var n := |lines|;
      var prefix := lines[..n - 1];
      var last := lines[n - 1];
      assert Ids(prefix) == Ids(lines)[..n - 1];
      assert Distinct(Ids(prefix));
      DecrementSpec(medicines, prefix);
      assert last.medicineId !in Ids(prefix) by {
        forall i | 0 <= i < |prefix| ensures Ids(prefix)[i] != last.medicineId {
          assert Ids(lines)[i] != Ids(lines)[n - 1];
        }
      }
      forall id | id in medicines && id !in Ids(lines)
        ensures Decrement(medicines, lines)[id] == medicines[id]
      {
        assert id != Ids(lines)[n - 1];
        forall j | 0 <= j < |prefix| ensures Ids(prefix)[j] != id {
          assert Ids(prefix)[j] == Ids(lines)[j];
        }
      }
      forall i | 0 <= i < n - 1 && lines[i].medicineId in medicines
        ensures Decrement(medicines, lines)[lines[i].medicineId]
          == medicines[lines[i].medicineId].(stock := medicines[lines[i].medicineId].stock - lines[i].quantity)
      {
        assert prefix[i] == lines[i];
        assert Ids(lines)[i] != Ids(lines)[n - 1];
      }
    }
  }

  predicate StockNonNegative(medicines: map<int, Medicine>) {
    forall id :: id in medicines ==> medicines[id].stock >= 0
  }

  /** Decrementing only where the stock covers the quantity never takes a stock below zero. */
  lemma DecrementKeepsStockNonNegative(medicines: map<int, Medicine>, lines: seq<Line>)
    requires StockNonNegative(medicines) && Distinct(Ids(lines))
    requires forall i :: 0 <= i < |lines| && lines[i].medicineId in medicines ==>
      medicines[lines[i].medicineId].stock >= lines[i].quantity
    ensures StockNonNegative(Decrement(medicines, lines))
  {
    DecrementSpec(medicines, lines);
    var after := Decrement(medicines, lines);
    forall id | id in after ensures after[id].stock >= 0 {
      if id !in Ids(lines) {
        assert after[id] == medicines[id];
      } else {
        var i :| 0 <= i < |lines| && Ids(lines)[i] == id;
        assert after[lines[i].medicineId].stock == medicines[id].stock - lines[i].quantity;
      }
    }
  }

  // ---------------------------------------------------------------------------
  // The order.created event
  // ---------------------------------------------------------------------------

  /** A `users` row; a NULL name is "". */
  datatype UserRow = UserRow(email: string, name: string)

  datatype EventItem = EventItem(name: string, quantity: int, price: int)

  datatype OrderDetails = OrderDetails(orderId: int, items: seq<EventItem>, total: int, deliveryAddress: string)

  datatype OrderCreated = OrderCreated(
    orderId: int, userId: int, address: string, total: int,
    customerEmail: string, customerName: string, orderDetails: OrderDetails)

  /** The users row of the caller, or else the token's own email and name. */
  function Customer(user: Claims, users: map<int, UserRow>): UserRow {
    if user.sub in users then users[user.sub] else UserRow(user.email, user.name)
  }

  /** `email.split('@')[0]`: everything before the first `@`. */
  function LocalPart(email: string): (r: string)
    ensures StartsWith(email, r)
    ensures '@' !in r
    ensures r == email || email[|r|] == '@'
  {
    if |email| == 0 || email[0] == '@' then []
    else [email[0]] + LocalPart(email[1..])
  }

  /**
   * The event's line items. The lookup row has no name, so every item is
   * named `Medicine <id>`.
   */
  function EventItems(lines: seq<Line>, found: map<int, LookupRow>): (r: seq<EventItem>)
    requires Covered(lines, found)
    requires forall i :: 0 <= i < |lines| ==> lines[i].medicineId > 0
  {
    seq(|lines|, i requires 0 <= i < |lines| =>
      EventItem("Medicine " + NatToString(lines[i].medicineId), lines[i].quantity, found[lines[i].medicineId].price))
  }

  function CreatedEvent(order: Order, user: Claims, lines: seq<Line>, found: map<int, LookupRow>,
                        users: map<int, UserRow>): OrderCreated
    requires Covered(lines, found)
    requires forall i :: 0 <= i < |lines| ==> lines[i].medicineId > 0
  {
    var customer := Customer(user, users);
    OrderCreated(
      order.id, user.sub, order.address, order.total,
      customer.email,
      if customer.name != "" then customer.name else LocalPart(customer.email),
      OrderDetails(order.id, EventItems(lines, found), order.total, order.address))
  }

  /**
   * What the event tells its consumers: the order's id, owner, address and
   * total (repeated in the details), the customer's contact with the stated
   * fallbacks, and one item per line, named after the medicine id.
   */
  lemma CreatedEventSpec(order: Order, user: Claims, lines: seq<Line>, found: map<int, LookupRow>,
                         users: map<int, UserRow>)
    requires Covered(lines, found)
    requires forall i :: 0 <= i < |lines| ==> lines[i].medicineId > 0
    ensures var e := CreatedEvent(order, user, lines, found, users);
      && e.orderId == order.id == e.orderDetails.orderId
      && e.userId == user.sub
      && e.address == order.address == e.orderDetails.deliveryAddress
      && e.total == order.total == e.orderDetails.total
      && e.customerEmail == (if user.sub in users then users[user.sub].email else user.email)
      && (user.sub in users && users[user.sub].name != "" ==> e.customerName == users[user.sub].name)
      && (user.sub !in users && user.name != "" ==> e.customerName == user.name)
      && (Customer(user, users).name == "" ==>
            e.customerName == LocalPart(e.customerEmail)
            && StartsWith(e.customerEmail, e.customerName) && '@' !in e.customerName)
      && |e.orderDetails.items| == |lines|
      && forall i :: 0 <= i < |lines| ==>
           && e.orderDetails.items[i].name == "Medicine " + NatToString(lines[i].medicineId)
           && e.orderDetails.items[i].quantity == lines[i].quantity
           && e.orderDetails.items[i].price == found[lines[i].medicineId].price
  {
  }

  // ---------------------------------------------------------------------------
  // The service's tables and the place-order handler
  // ---------------------------------------------------------------------------

  datatype PlaceResult = Placed(order: Order) | Rejected(status: int, error: string)

  /** Ids strictly increase along the table and stay below the next serial value. */
  predicate SerialIds(orders: seq<Order>, next: int) {
    && (forall i, j :: 0 <= i < j < |orders| ==> orders[i].id < orders[j].id)
    && (forall i :: 0 <= i < |orders| ==> 1 <= orders[i].id < next)
  }

  lemma SerialAppend(orders: seq<Order>, next: int, order: Order)
    requires next >= 1 && SerialIds(orders, next) && order.id == next
    ensures SerialIds(orders + [order], next + 1)
  {
  }

  /** A line that passed the stock check asks for no more than its medicine's stock. */
  lemma ProceedStockSuffices(medicines: map<int, Medicine>, lines: seq<Line>, found: map<int, LookupRow>)
    requires found == Lookup(medicines, Ids(lines)) && Covered(lines, found)
    requires forall i :: 0 <= i < |lines| ==> !Short(lines[i], found)
    ensures forall i :: 0 <= i < |lines| && lines[i].medicineId in medicines ==>
      medicines[lines[i].medicineId].stock >= lines[i].quantity
  {
    forall i | 0 <= i < |lines| && lines[i].medicineId in medicines
      ensures medicines[lines[i].medicineId].stock >= lines[i].quantity
    {
      assert !Short(lines[i], found);
    }
  }

  class OrderStore {
    var medicines: map<int, Medicine>
    var users: map<int, UserRow>
    var orders: seq<Order>
    var orderItems: seq<OrderItem>
    var outbox: seq<OrderCreated>
    var nextOrderId: int
    var channelUp: bool

    ghost predicate Valid()
      reads this
    {
      nextOrderId >= 1 && StockNonNegative(medicines) && SerialIds(orders, nextOrderId)
    }

    constructor (medicines: map<int, Medicine>, users: map<int, UserRow>, channelUp: bool)
      requires StockNonNegative(medicines)
      ensures Valid()
      ensures this.medicines == medicines && this.users == users && this.channelUp == channelUp
      ensures orders == [] && orderItems == [] && outbox == [] && nextOrderId == 1
    {
      this.medicines := medicines;
      this.users := users;
      this.channelUp := channelUp;
      orders := [];
      orderItems := [];
      outbox := [];
      nextOrderId := 1;
    }

    /**
     * POST / (place order). A refusal writes nothing. On success exactly one
     * order row (owner, total, `PLACED`, address) is appended, one item row
     * per line, every ordered medicine's stock drops by its quantity, and the
     * event is published when the channel is up.
     */
    method PlaceOrder(authorization: string, decode: string -> Option<Claims>, body: OrderBody)
      returns (r: PlaceResult)
      requires Valid()
      modifies this
      ensures Valid()
      ensures users == old(users) && channelUp == old(channelUp)
      ensures var v := Screen(authorization, decode, body, old(medicines));
        match v
        case Refuse(status, error) =>
          && r == Rejected(status, error)
          && medicines == old(medicines) && orders == old(orders) && orderItems == old(orderItems)
          && outbox == old(outbox) && nextOrderId == old(nextOrderId)
        case Proceed(user, lines, address, found) =>
          var order := Order(old(nextOrderId), user.sub, Total(lines, found), "PLACED", address);
          && r == Placed(order)
          && orders == old(orders) + [order]
          && nextOrderId == old(nextOrderId) + 1
          && orderItems == old(orderItems) + ItemRows(order.id, lines, found)
          && medicines == Decrement(old(medicines), lines)
          && outbox == old(outbox) + (if channelUp then [CreatedEvent(order, user, lines, found, old(users))] else [])
    {
      var v, total := ScreenOrder(authorization, decode, body, medicines);
      if v.Refuse? {
        return Rejected(v.status, v.error);
      }
      var order := Order(nextOrderId, v.user.sub, total, "PLACED", v.address);
      ProceedStockSuffices(medicines, v.lines, v.found);
      SerialAppend(orders, nextOrderId, order);
      InsertOrder(order, v.lines, v.found);
      DecrementKeepsStockNonNegative(old(medicines), v.lines);
      if channelUp {
        outbox := outbox + [CreatedEvent(order, v.user, v.lines, v.found, users)];
      }
      r := Placed(order);
    }

    /**
     * The writes of a successful order: the order row, then for each line its
     * item row and the stock decrement of its medicine.
     */
    method InsertOrder(order: Order, lines: seq<Line>, found: map<int, LookupRow>)
      requires Covered(lines, found)
      requires order.id == nextOrderId
      modifies this
      ensures orders == old(orders) + [order] && nextOrderId == old(nextOrderId) + 1
      ensures orderItems == old(orderItems) + ItemRows(order.id, lines, found)
      ensures medicines == Decrement(old(medicines), lines)
      ensures users == old(users) && outbox == old(outbox) && channelUp == old(channelUp)
    {
      orders := orders + [order];
      nextOrderId := nextOrderId + 1;
      var k := 0;
      while k < |lines|
        invariant 0 <= k <= |lines|
        invariant orderItems == old(orderItems) + ItemRows(order.id, lines[..k], found)
        invariant medicines == Decrement(old(medicines), lines[..k])
        invariant orders == old(orders) + [order] && nextOrderId == old(nextOrderId) + 1
        invariant users == old(users) && outbox == old(outbox) && channelUp == old(channelUp)
      {
        var m := found[lines[k].medicineId];
        assert lines[..k + 1][..k] == lines[..k];
        orderItems := orderItems + [OrderItem(order.id, lines[k].medicineId, lines[k].quantity, m.price)];
        medicines := DecrementOne(medicines, lines[k]);
        k := k + 1;
      }
      assert lines[..|lines|] == lines;
    }
  }

  /**
   * The checks of place-order, in the handler's order: identity, schema, the
   * bulk lookup and its row count, then the stock-check loop, which also sums
   * the running total.
   */
  method ScreenOrder(authorization: string, decode: string -> Option<Claims>, body: OrderBody,
                     medicines: map<int, Medicine>) returns (v: Verdict, total: int)
    ensures v == Screen(authorization, decode, body, medicines)
    ensures v.Proceed? ==> total == Total(v.lines, v.found)
  {
    var user := GetUser(authorization, decode);
    if user.None? {
      return Refuse(401, "unauthorized"), 0;
    }
    var data := ParseOrder(body);
    if data.None? {
      return Refuse(400, SchemaErrorMessage), 0;
    }
    var lines := data.value.lines;
    var ids := Ids(lines);
    var found := Lookup(medicines, ids);
    if |found| != |ids| {
      return Refuse(400, "invalid medicine id(s)"), 0;
    }
    LookupCountIff(medicines, ids);
    var short;
    total, short := CheckStock(lines, found);
    if short.Some? {
      return Refuse(400, InsufficientStockMessage(lines[short.value].medicineId)), total;
    }
    v := Proceed(user.value, lines, data.value.address, found);
  }

  /**
   * The stock-check loop of place-order: it walks the lines in item order,
   * summing price × quantity, and stops at the first line whose medicine has
   * less stock than requested.
   */
  method CheckStock(lines: seq<Line>, found: map<int, LookupRow>) returns (total: int, short: Option<nat>)
    requires Covered(lines, found)
    ensures short == FirstShort(lines, found)
    ensures short.None? ==> total == Total(lines, found)
  {
    total := 0;
    var i := 0;
    while i < |lines|
      invariant 0 <= i <= |lines|
      invariant total == Total(lines[..i], found)
      invariant forall j :: 0 <= j < i ==> !Short(lines[j], found)
    {
      var m := found[lines[i].medicineId];
      if m.stock < lines[i].quantity {
        FirstShortIsFirst(lines, found, i);
        return total, Some(i);
      }
      assert lines[..i + 1][..i] == lines[..i];
      total := total + m.price * lines[i].quantity;
      i := i + 1;
    }
    assert lines[..|lines|] == lines;
    short := None;
  }

  // ---------------------------------------------------------------------------
  // Queries
  // ---------------------------------------------------------------------------

  predicate Keeps(owner: Option<int>, o: Order) {
    owner.None? || o.userId == owner.value
  }

  /** `... WHERE user_id = owner ORDER BY id DESC` over a table kept in id order (no filter for None). */
  function NewestFirst(orders: seq<Order>, owner: Option<int>): seq<Order> {
    if |orders| == 0 then []
    else
      var last := orders[|orders| - 1];
      (if Keeps(owner, last) then [last] else []) + NewestFirst(orders[..|orders| - 1], owner)
  }

  predicate Ascending(orders: seq<Order>) {
    forall i, j :: 0 <= i < j < |orders| ==> orders[i].id < orders[j].id
  }

  predicate Descending(orders: seq<Order>) {
    forall i, j :: 0 <= i < j < |orders| ==> orders[i].id > orders[j].id
  }

  /**
   * The listing holds exactly the kept orders of the table, newest (highest
   * id) first.
   */
  lemma NewestFirstSpec(orders: seq<Order>, owner: Option<int>)
    requires Ascending(orders)
    ensures forall o :: o in NewestFirst(orders, owner) <==> o in orders && Keeps(owner, o)
    ensures Descending(NewestFirst(orders, owner))
  {
    NewestFirstMembers(orders, owner);
    NewestFirstDescending(orders, owner);
  }

  lemma {:induction false} NewestFirstMembers(orders: seq<Order>, owner: Option<int>)
    ensures forall o :: o in NewestFirst(orders, owner) <==> o in orders && Keeps(owner, o)
  {
    if |orders| > 0 {
      var prefix := orders[..|orders| - 1];
      NewestFirstMembers(prefix, owner);
      assert orders == prefix + [orders[|orders| - 1]];
    }
  }

  lemma {:induction false} NewestFirstDescending(orders: seq<Order>, owner: Option<int>)
    requires Ascending(orders)
    ensures Descending(NewestFirst(orders, owner))
  {
    if |orders| > 0 {
      var n := |orders|;
      var prefix := orders[..n - 1];
      var last := orders[n - 1];
      NewestFirstMembers(prefix, owner);
      NewestFirstDescending(prefix, owner);
      var rest := NewestFirst(prefix, owner);
      forall o | o in rest ensures o.id < last.id {
        var i :| 0 <= i < |prefix| && prefix[i] == o;
        assert orders[i] == o;
      }
      var head := if Keeps(owner, last) then [last] else [];
      assert NewestFirst(orders, owner) == head + rest;
      forall i, j | 0 <= i < j < |head + rest| ensures (head + rest)[i].id > (head + rest)[j].id {
        if i < |head| {
          assert (head + rest)[j] == rest[j - |head|];
          assert rest[j - |head|] in rest;
        } else {
          assert (head + rest)[i] == rest[i - |head|] && (head + rest)[j] == rest[j - |head|];
        }
      }
    }
  }

  /** A `order_items` row joined with its medicine's name (NULL once the medicine is gone). */
  datatype ItemView = ItemView(item: OrderItem, medicineName: Option<string>)

  datatype OrderView = OrderView(order: Order, items: seq<ItemView>)

  function ItemsOf(orderId: int, items: seq<OrderItem>): (r: seq<OrderItem>)
    ensures forall it :: it in r <==> it in items && it.orderId == orderId
  {
    if |items| == 0 then []
    else (if items[0].orderId == orderId then [items[0]] else []) + ItemsOf(orderId, items[1..])
  }

  function Joined(items: seq<OrderItem>, medicines: map<int, Medicine>): seq<ItemView> {
    seq(|items|, i requires 0 <= i < |items| =>
      ItemView(items[i], if items[i].medicineId in medicines then Some(medicines[items[i].medicineId].name) else None))
  }

  function WithItems(orders: seq<Order>, items: seq<OrderItem>, medicines: map<int, Medicine>): seq<OrderView> {
    seq(|orders|, i requires 0 <= i < |orders| => OrderView(orders[i], Joined(ItemsOf(orders[i].id, items), medicines)))
  }

  /** GET / (my orders) */
  function ListMyOrders(authorization: string, decode: string -> Option<Claims>, orders: seq<Order>,
                        items: seq<OrderItem>, medicines: map<int, Medicine>): Response<seq<OrderView>>
  {
    match GetUser(authorization, decode)
    case None => Error(401, "unauthorized")
    case Some(user) => Ok(WithItems(NewestFirst(orders, Some(user.sub)), items, medicines))
  }

  /**
   * "My orders" answers 401 without an identity; otherwise it lists exactly
   * the caller's orders, highest id first, each with exactly its own items,
   * every item joined with its medicine's name while that medicine exists.
   */
  lemma ListMyOrdersSpec(authorization: string, decode: string -> Option<Claims>, orders: seq<Order>,
                         items: seq<OrderItem>, medicines: map<int, Medicine>)
    requires Ascending(orders)
    ensures var r := ListMyOrders(authorization, decode, orders, items, medicines);
      match GetUser(authorization, decode)
      case None => r == Error(401, "unauthorized")
      case Some(user) =>
        && r.Ok?
        && (forall o :: o in orders && o.userId == user.sub <==> exists i :: 0 <= i < |r.body| && r.body[i].order == o)
        && (forall i, j :: 0 <= i < j < |r.body| ==> r.body[i].order.id > r.body[j].order.id)
        && (forall i :: 0 <= i < |r.body| ==> OwnItemsOf(r.body[i].items, r.body[i].order.id, items, medicines))
  {
    if GetUser(authorization, decode).Some? {
      var user := GetUser(authorization, decode).value;
      var listed := NewestFirst(orders, Some(user.sub));
      NewestFirstSpec(orders, Some(user.sub));
      var r := WithItems(listed, items, medicines);
      WithItemsSpec(listed, items, medicines);
      forall o | o in orders && o.userId == user.sub ensures exists i :: 0 <= i < |r| && r[i].order == o {
        var i :| 0 <= i < |listed| && listed[i] == o;
        assert r[i].order == o;
      }
      forall i | 0 <= i < |r| ensures r[i].order in orders && r[i].order.userId == user.sub {
        assert r[i].order == listed[i] && listed[i] in listed;
      }
    }
  }

  /** Every listed order carries exactly its own, named items. */
  lemma WithItemsSpec(listed: seq<Order>, items: seq<OrderItem>, medicines: map<int, Medicine>)
    ensures var r := WithItems(listed, items, medicines);
      && |r| == |listed|
      && (forall i :: 0 <= i < |r| ==> r[i].order == listed[i])
      && (forall i :: 0 <= i < |r| ==> OwnItemsOf(r[i].items, r[i].order.id, items, medicines))
  {
    var r := WithItems(listed, items, medicines);
    forall i | 0 <= i < |r| ensures OwnItemsOf(r[i].items, r[i].order.id, items, medicines) {
      OwnItems(listed[i].id, items, medicines);
    }
  }

  /**
   * `v` lists exactly the item rows of order `orderId`, each joined with its
   * medicine's name while that medicine exists.
   */
  predicate OwnItemsOf(v: seq<ItemView>, orderId: int, items: seq<OrderItem>, medicines: map<int, Medicine>) {
    && (forall k :: 0 <= k < |v| ==> v[k].item in items && v[k].item.orderId == orderId)
    && (forall it :: it in items && it.orderId == orderId ==> exists k :: 0 <= k < |v| && v[k].item == it)
    && (forall k :: 0 <= k < |v| ==>
          v[k].medicineName == (if v[k].item.medicineId in medicines then Some(medicines[v[k].item.medicineId].name) else None))
  }

  /** The join of an order's item rows lists exactly its own items, named. */
  lemma OwnItems(orderId: int, items: seq<OrderItem>, medicines: map<int, Medicine>)
    ensures OwnItemsOf(Joined(ItemsOf(orderId, items), medicines), orderId, items, medicines)
  {
    var own := ItemsOf(orderId, items);
    var v := Joined(own, medicines);
    forall k | 0 <= k < |v| ensures v[k].item in items && v[k].item.orderId == orderId {
      assert v[k].item == own[k] && own[k] in own;
    }
    forall it | it in items && it.orderId == orderId ensures exists k :: 0 <= k < |v| && v[k].item == it {
      var k :| 0 <= k < |own| && own[k] == it;
      assert v[k].item == it;
    }
  }

  /** GET /all: administrators only. */
  function ListAllOrders(authorization: string, decode: string -> Option<Claims>, orders: seq<Order>): Response<seq<Order>> {
    match GetUser(authorization, decode)
    case None => Error(401, "unauthorized")
    case Some(user) => if user.role != "ADMIN" then Error(403, "forbidden") else Ok(NewestFirst(orders, None))
  }

  /**
   * The full listing answers 401 without an identity and 403 unless the role
   * is `ADMIN`; otherwise it is every order, newest first.
   */
  lemma ListAllOrdersSpec(authorization: string, decode: string -> Option<Claims>, orders: seq<Order>)
    requires Ascending(orders)
    ensures var r := ListAllOrders(authorization, decode, orders);
      && (GetUser(authorization, decode).None? ==> r == Error(401, "unauthorized"))
      && (r.Ok? <==> GetUser(authorization, decode).Some? && GetUser(authorization, decode).value.role == "ADMIN")
      && (GetUser(authorization, decode).Some? && !r.Ok? ==> r == Error(403, "forbidden"))
      && (r.Ok? ==> (forall o :: o in r.body <==> o in orders) && Descending(r.body))
  {
    NewestFirstSpec(orders, None);
  }

  /** `SELECT * FROM orders WHERE id = id AND user_id = owner` */
  function FindOwned(orders: seq<Order>, id: int, owner: int): (r: Option<Order>)
    ensures r.Some? ==> r.value in orders && r.value.id == id && r.value.userId == owner
    ensures r.None? ==> forall o :: o in orders ==> !(o.id == id && o.userId == owner)
  {
    if |orders| == 0 then None
    else if orders[0].id == id && orders[0].userId == owner then Some(orders[0])
    else FindOwned(orders[1..], id, owner)
  }

  datatype OrderWithItems = OrderWithItems(order: Order, items: seq<OrderItem>)

  /** GET /:id */
  function GetOrder(authorization: string, decode: string -> Option<Claims>, id: nat, orders: seq<Order>,
                    items: seq<OrderItem>): Response<OrderWithItems>
  {
    match GetUser(authorization, decode)
    case None => Error(401, "unauthorized")
    case Some(user) =>
      match FindOwned(orders, id, user.sub)
      case None => Error(404, "not found")
      case Some(o) => Ok(OrderWithItems(o, ItemsOf(id, items)))
  }

  /**
   * A single order is returned only when both its id and its owner match the
   * request and the caller; otherwise 404.
   */
  lemma GetOrderSpec(authorization: string, decode: string -> Option<Claims>, id: nat, orders: seq<Order>,
                     items: seq<OrderItem>)
    ensures GetUser(authorization, decode).None? ==>
      GetOrder(authorization, decode, id, orders, items) == Error(401, "unauthorized")
    ensures GetUser(authorization, decode).Some? ==>
      var user := GetUser(authorization, decode).value;
      var r := GetOrder(authorization, decode, id, orders, items);
      && (r.Ok? <==> exists o :: o in orders && o.id == id && o.userId == user.sub)
      && (!r.Ok? ==> r == Error(404, "not found"))
      && (r.Ok? ==> r.body.order in orders && r.body.order.id == id && r.body.order.userId == user.sub)
      && (r.Ok? ==> forall it :: it in r.body.items <==> it in items && it.orderId == id)
  {
  }
}
