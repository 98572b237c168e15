/**
 * The cart page (web/src/pages/Cart.jsx): the quantity buttons, removal by
 * position, and checkout, which turns the cart into an order request.
 *
 * `updateQuantity` copies the array but writes the quantity into the shared
 * entry object, so the entries are an `array` the method modifies.
 */
module CartPage {
  import opened Wrappers
  import opened AppCart
  import OrderService
  import Text

  /** The cart after `updateQuantity(index, newQty)`: unchanged below one, else that position takes the quantity. */
  function WithQuantity(cart: seq<CartItem>, index: nat, newQty: int): seq<CartItem>
    requires index < |cart|
  {
    if newQty < 1 then cart else cart[index := cart[index].(qty := newQty)]
  }

  /**
   * updateQuantity. None stands for the early return, which sets no new
   * state; otherwise the entry at `index` has its quantity written in place
   * and the copied array is the new state.
   */
  method UpdateQuantity(cart: array<CartItem>, index: nat, newQty: int) returns (next: Option<seq<CartItem>>)
    requires index < cart.Length
    modifies cart
    ensures newQty < 1 ==> next.None? && cart[..] == old(cart[..])
    ensures newQty >= 1 ==> cart[..] == WithQuantity(old(cart[..]), index, newQty) && next == Some(cart[..])
  {
    if newQty < 1 {
      return None;
    }
    cart[index] := cart[index].(qty := newQty);
    next := Some(cart[..]);
  }

  /**
   * A quantity below one changes nothing; otherwise only position `index`
   * changes, to the new quantity, the length stays, and the count moves by
   * the difference. Hence the minus button can never take an entry below one.
   */
  lemma WithQuantitySpec(cart: seq<CartItem>, index: nat, newQty: int)
    requires index < |cart|
    ensures newQty < 1 ==> WithQuantity(cart, index, newQty) == cart
    ensures newQty >= 1 ==> var r := WithQuantity(cart, index, newQty);
      && |r| == |cart|
      && r[index] == cart[index].(qty := newQty)
      && (forall j :: 0 <= j < |cart| && j != index ==> r[j] == cart[j])
      && Count(r) == Count(cart) - cart[index].qty + newQty
    ensures AllPositive(cart) ==> AllPositive(WithQuantity(cart, index, cart[index].qty - 1))
    ensures AllPositive(cart) ==> AllPositive(WithQuantity(cart, index, cart[index].qty + 1))
  {
    if newQty >= 1 {
      CountUpdate(cart, index, cart[index].(qty := newQty));
    }
  }

  /** removeFromCart: `cart.filter((_, i) => i !== index)` */
  function RemoveAt(cart: seq<CartItem>, index: int): seq<CartItem> {
    if |cart| == 0 then []
    else RemoveAt(cart[..|cart| - 1], index) + (if |cart| - 1 != index then [cart[|cart| - 1]] else [])
  }

  /** Removing a position drops exactly that entry and keeps the others in order; any other index changes nothing. */
  lemma {:induction false} RemoveAtSpec(cart: seq<CartItem>, index: int)
    ensures 0 <= index < |cart| ==> RemoveAt(cart, index) == cart[..index] + cart[index + 1..]
    ensures !(0 <= index < |cart|) ==> RemoveAt(cart, index) == cart
    decreases |cart|
  {
    if |cart| > 0 {
      var n := |cart|;
      var prefix := cart[..n - 1];
      RemoveAtSpec(prefix, index);
      if index == n - 1 {
        assert cart[index + 1..] == [];
        assert RemoveAt(prefix, index) == prefix;
      } else if 0 <= index < n - 1 {
        assert prefix[..index] == cart[..index];
        assert prefix[index + 1..] + [cart[n - 1]] == cart[index + 1..];
      } else {
        assert prefix + [cart[n - 1]] == cart;
      }
    }
  }

  lemma RemoveAtShortens(cart: seq<CartItem>, index: int)
    requires 0 <= index < |cart|
    ensures |RemoveAt(cart, index)| == |cart| - 1
    ensures Count(RemoveAt(cart, index)) == Count(cart) - cart[index].qty
  {
    RemoveAtSpec(cart, index);
    CountWithout(cart, index);
  }

  lemma CountWithout(cart: seq<CartItem>, index: nat)
    requires index < |cart|
    ensures Count(cart[..index] + cart[index + 1..]) == Count(cart) - cart[index].qty
  {
    var a, c, b := cart[..index], [cart[index]], cart[index + 1..];
    assert Count(cart) == Count(a) + cart[index].qty + Count(b) by {
      assert cart == (a + c) + b;
      CountSplit(a + c, b);
      CountSplit(a, c);
      assert c[..0] == [];
    }
    CountSplit(a, b);
  }

  lemma {:induction false} CountSplit(a: seq<CartItem>, b: seq<CartItem>)
    ensures Count(a + b) == Count(a) + Count(b)
    decreases |b|
  {
    if |b| == 0 {
      assert a + b == a;
    } else {
      assert (a + b)[..|a + b| - 1] == a + b[..|b| - 1];
      CountSplit(a, b[..|b| - 1]);
    }
  }

  /** The fixed delivery address checkout sends. */
  const CheckoutAddress: string := "221B Baker Street, London"

  /** `cart.map(i => ({ medicine_id: i.id, quantity: i.qty }))` */
  function CheckoutItems(cart: seq<CartItem>): (items: seq<OrderService.RawItem>)
    ensures |items| == |cart|
    ensures forall i :: 0 <= i < |cart| ==>
      items[i] == OrderService.RawItem(cart[i].med.id as real, cart[i].qty as real)
  {
    seq(|cart|, i requires 0 <= i < |cart| => OrderService.RawItem(cart[i].med.id as real, cart[i].qty as real))
  }

  /** What checkout does: the order request it sends, the cart it leaves and where it navigates. */
  datatype CheckoutOutcome = CheckoutOutcome(request: Option<OrderService.OrderBody>, cart: seq<CartItem>, navigate: Option<string>)

  /**
   * checkout. Without a token it only navigates to `/login`. With one it
   * posts the order; `accepted` says whether the request resolved, and only
   * then is the cart emptied and `/orders` shown (a rejected request leaves
   * both as they were).
   */
  function Checkout(token: string, cart: seq<CartItem>, accepted: bool): CheckoutOutcome {
    if token == "" then CheckoutOutcome(None, cart, Some("/login"))
    else
      var body := OrderService.OrderBody(CheckoutItems(cart), CheckoutAddress);
      if accepted then CheckoutOutcome(Some(body), [], Some("/orders"))
      else CheckoutOutcome(Some(body), cart, None)
  }

  /**
   * Without a token no order is sent. With one, one request entry per cart
   * entry is sent (in cart order) to the given address, and the cart is
   * emptied exactly when the request was accepted.
   */
  lemma CheckoutSpec(token: string, cart: seq<CartItem>, accepted: bool)
    ensures var out := Checkout(token, cart, accepted);
      && (out.request.None? <==> token == "")
      && (token == "" ==> out.cart == cart && out.navigate == Some("/login"))
      && (out.request.Some? ==>
            && out.request.value.address == CheckoutAddress
            && |out.request.value.items| == |cart|
            && (forall i :: 0 <= i < |cart| ==>
                  && out.request.value.items[i].medicineId == cart[i].med.id as real
                  && out.request.value.items[i].quantity == cart[i].qty as real))
      && (token != "" ==> (out.cart == [] <==> accepted || cart == []))
  {
  }

  /**
   * The order service's schema accepts the checkout request of a cart whose
   * medicine ids and quantities are positive, and reads back exactly the
   * cart's ids and quantities, in order.
   */
  lemma CheckoutPassesOrderSchema(cart: seq<CartItem>)
    requires forall i :: 0 <= i < |cart| ==> cart[i].med.id > 0
    requires AllPositive(cart)
    ensures var parsed := OrderService.ParseOrder(OrderService.OrderBody(CheckoutItems(cart), CheckoutAddress));
      && parsed.Some?
      && |parsed.value.lines| == |cart|
      && forall i :: 0 <= i < |cart| ==> parsed.value.lines[i] == OrderService.Line(cart[i].med.id, cart[i].qty)
  {
    var items := CheckoutItems(cart);
    Text.Utf16LengthBounds(CheckoutAddress);
    forall i | 0 <= i < |cart| ensures OrderService.WellFormedItem(items[i]) {
      assert items[i] == OrderService.RawItem(cart[i].med.id as real, cart[i].qty as real);
    }
  }

  /** The "Clear Cart" button: `setCart([])`. */
  function ClearCart(cart: seq<CartItem>): seq<CartItem> {
    []
  }

  /** The page renders its summary, and with it the Checkout button, only for a non-empty cart. */
  predicate ShowsCheckout(cart: seq<CartItem>) {
    |cart| != 0
  }

  /**
   * Clear Cart empties any cart: its count drops to zero and the page falls
   * back to its empty view, without a Checkout button. The last clause is a
   * fact about `Checkout` alone, since the page never offers that call: the
   * request it would build for the cleared cart has no items.
   */
  lemma ClearCartEmpties(cart: seq<CartItem>, token: string, accepted: bool)
    ensures |ClearCart(cart)| == 0 && Count(ClearCart(cart)) == 0
    ensures !ShowsCheckout(ClearCart(cart))
    ensures token != "" ==> Checkout(token, ClearCart(cart), accepted).request == Some(OrderService.OrderBody([], CheckoutAddress))
  {
  }

  /** An accepted checkout leaves a cart whose count is zero. */
  lemma ClearedCartIsEmpty(token: string, cart: seq<CartItem>)
    requires token != ""
    ensures Checkout(token, cart, true).cart == [] && Count(Checkout(token, cart, true).cart) == 0
  {
  }
}
