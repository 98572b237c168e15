/**
 * The client's cart state in web/src/App.jsx: adding a catalog medicine,
 * removing a medicine, changing a medicine's quantity, and the navbar count.
 *
 * A cart entry is an object `{ ...medicine, qty }`. `addToCart` increments
 * the quantity of an existing entry in place, so the previous state's entry
 * objects are an `array` the method modifies; the other operations build new
 * arrays and are functions on sequences.
 */
module AppCart {
  import opened Wrappers

  /** A catalog medicine as the cart copies it. */
  datatype Med = Med(id: int, name: string, price: real)

  datatype CartItem = CartItem(med: Med, qty: int)

  /** `cart.find(x => x.id === id)`, as the index of the entry it returns. */
  function FindIndex(cart: seq<CartItem>, id: int): (r: Option<nat>)
    ensures r.Some? ==> r.value < |cart| && cart[r.value].med.id == id
    ensures r.Some? ==> forall j :: 0 <= j < r.value ==> cart[j].med.id != id
    ensures r.None? <==> forall j :: 0 <= j < |cart| ==> cart[j].med.id != id
  {
    if |cart| == 0 then None
    else if cart[0].med.id == id then Some(0)
    else match FindIndex(cart[1..], id)
      case None => None
      case Some(k) => Some(k + 1)
  }

  /** The navbar count: the sum of the quantities. */
  function Count(cart: seq<CartItem>): int {
    if |cart| == 0 then 0 else Count(cart[..|cart| - 1]) + cart[|cart| - 1].qty
  }

  predicate UniqueIds(cart: seq<CartItem>) {
    forall i, j :: 0 <= i < j < |cart| ==> cart[i].med.id != cart[j].med.id
  }

  predicate AllPositive(cart: seq<CartItem>) {
    forall i :: 0 <= i < |cart| ==> cart[i].qty > 0
  }

  /** The cart addToCart produces: the first entry with that id gains one, or a new entry of one is appended. */
  function Added(cart: seq<CartItem>, m: Med): seq<CartItem> {
    match FindIndex(cart, m.id)
    case Some(k) => cart[k := cart[k].(qty := cart[k].qty + 1)]
    case None => cart + [CartItem(m, 1)]
  }

  /**
   * addToCart. When the medicine is in the cart its entry object is updated
   * in place (so the previous state sees the new quantity too) and a copy of
   * the array is the new state; otherwise a new entry is appended.
   */
  method AddToCart(prev: array<CartItem>, m: Med) returns (next: seq<CartItem>)
    modifies prev
    ensures next == Added(old(prev[..]), m)
    ensures prev[..] == if FindIndex(old(prev[..]), m.id).Some? then next else old(prev[..])
  {
    var found := FindIndex(prev[..], m.id);
    if found.Some? {
      var k := found.value;
      prev[k] := prev[k].(qty := prev[k].qty + 1);
      return prev[..];
    }
    next := prev[..] + [CartItem(m, 1)];
  }

  lemma {:induction false} CountUpdate(cart: seq<CartItem>, k: nat, item: CartItem)
    requires k < |cart|
    ensures Count(cart[k := item]) == Count(cart) - cart[k].qty + item.qty
    decreases |cart|
  {
    var n := |cart|;
    var after := cart[k := item];
    assert after[..n - 1] == if k < n - 1 then cart[..n - 1][k := item] else cart[..n - 1];
    if k < n - 1 {
      CountUpdate(cart[..n - 1], k, item);
    }
  }

  lemma CountAppend(cart: seq<CartItem>, item: CartItem)
    ensures Count(cart + [item]) == Count(cart) + item.qty
  {
    assert (cart + [item])[..|cart|] == cart;
  }

  /**
   * Adding a medicine already in the cart raises that entry's quantity by one
   * and keeps the length; adding a new one appends `{ ...m, qty: 1 }`. Either
   * way the count grows by one, and unique ids stay unique.
   */
  lemma AddedSpec(cart: seq<CartItem>, m: Med)
    ensures var r := Added(cart, m);
      && Count(r) == Count(cart) + 1
      && (UniqueIds(cart) ==> UniqueIds(r))
      && (AllPositive(cart) ==> AllPositive(r))
      && ((exists i :: 0 <= i < |cart| && cart[i].med.id == m.id) ==>
            |r| == |cart| && exists k :: 0 <= k < |cart| && cart[k].med.id == m.id && r == cart[k := cart[k].(qty := cart[k].qty + 1)])
      && ((forall i :: 0 <= i < |cart| ==> cart[i].med.id != m.id) ==> r == cart + [CartItem(m, 1)])
  {
    match FindIndex(cart, m.id)
    case Some(k) =>
      CountUpdate(cart, k, cart[k].(qty := cart[k].qty + 1));
    case None =>
      CountAppend(cart, CartItem(m, 1));
  }

  /** removeFromCart: `prev.filter(item => item.id !== id)` */
  function RemoveById(cart: seq<CartItem>, id: int): seq<CartItem> {
    if |cart| == 0 then []
    else
      var last := cart[|cart| - 1];
      RemoveById(cart[..|cart| - 1], id) + (if last.med.id != id then [last] else [])
  }

  /**
   * Removing drops every entry with the id and keeps all others: it
   * distributes over concatenation (so the rest keep their order), and it
   * is the identity on a cart without that id.
   */
  lemma {:induction false} RemoveByIdSpec(cart: seq<CartItem>, id: int)
    ensures forall x :: x in RemoveById(cart, id) <==> x in cart && x.med.id != id
    ensures (forall i :: 0 <= i < |cart| ==> cart[i].med.id != id) ==> RemoveById(cart, id) == cart
    decreases |cart|
  {
    if |cart| > 0 {
      var prefix := cart[..|cart| - 1];
      RemoveByIdSpec(prefix, id);
      assert cart == prefix + [cart[|cart| - 1]];
      assert (forall i :: 0 <= i < |cart| ==> cart[i].med.id != id) ==> (forall i :: 0 <= i < |prefix| ==> prefix[i].med.id != id);
    }
  }

  lemma {:induction false} RemoveByIdConcat(a: seq<CartItem>, b: seq<CartItem>, id: int)
    ensures RemoveById(a + b, id) == RemoveById(a, id) + RemoveById(b, id)
    decreases |b|
  {
    if |b| == 0 {
      assert a + b == a;
    } else {
      assert (a + b)[..|a + b| - 1] == a + b[..|b| - 1];
      RemoveByIdConcat(a, b[..|b| - 1], id);
    }
  }

  /** updateCartQuantity: a quantity of zero or less removes the medicine; otherwise every entry with the id takes it. */
  function UpdateCartQuantity(cart: seq<CartItem>, id: int, qty: int): seq<CartItem> {
    if qty <= 0 then RemoveById(cart, id)
    else seq(|cart|, i requires 0 <= i < |cart| => if cart[i].med.id == id then cart[i].(qty := qty) else cart[i])
  }

  /**
   * A positive quantity keeps the length, sets it on exactly the entries with
   * the id and the cart stays positive; with unique ids the count moves by the
   * difference from the old quantity.
   */
  lemma UpdateCartQuantitySpec(cart: seq<CartItem>, id: int, qty: int)
    ensures qty <= 0 ==> UpdateCartQuantity(cart, id, qty) == RemoveById(cart, id)
    ensures qty > 0 ==> var r := UpdateCartQuantity(cart, id, qty);
      && |r| == |cart|
      && (forall i :: 0 <= i < |cart| && cart[i].med.id == id ==> r[i] == cart[i].(qty := qty))
      && (forall i :: 0 <= i < |cart| && cart[i].med.id != id ==> r[i] == cart[i])
      && (AllPositive(cart) ==> AllPositive(r))
    ensures qty > 0 && UniqueIds(cart) ==> match FindIndex(cart, id)
      case None => UpdateCartQuantity(cart, id, qty) == cart
      case Some(k) => Count(UpdateCartQuantity(cart, id, qty)) == Count(cart) - cart[k].qty + qty
  {
    if qty > 0 && UniqueIds(cart) {
      match FindIndex(cart, id)
      case None =>
      case Some(k) =>
        assert UpdateCartQuantity(cart, id, qty) == cart[k := cart[k].(qty := qty)];
        CountUpdate(cart, k, cart[k].(qty := qty));
    }
  }

  /** On a cart of positive quantities, removing never raises the count, and removing a medicine in the cart lowers it. */
  lemma {:induction false} CountRemove(cart: seq<CartItem>, id: int)
    ensures AllPositive(cart) ==> Count(RemoveById(cart, id)) <= Count(cart)
    ensures AllPositive(cart) && (exists i :: 0 <= i < |cart| && cart[i].med.id == id) ==>
      Count(RemoveById(cart, id)) < Count(cart)
    decreases |cart|
  {
    if |cart| > 0 {
      var prefix := cart[..|cart| - 1];
      var last := cart[|cart| - 1];
      CountRemove(prefix, id);
      if last.med.id != id {
        CountAppend(RemoveById(prefix, id), last);
      } else {
        assert RemoveById(prefix, id) + [] == RemoveById(prefix, id);
      }
      if AllPositive(cart) {
        assert AllPositive(prefix);
        if exists i :: 0 <= i < |cart| && cart[i].med.id == id {
          var i :| 0 <= i < |cart| && cart[i].med.id == id;
          if i < |cart| - 1 {
            assert prefix[i].med.id == id;
          }
        }
      }
    }
  }
}
