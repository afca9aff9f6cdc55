/** The cart page (project/src/pages/Cart.tsx): the payment label, the
    checkout decision and the order it places, and the quantity buttons of
    each cart line. The money totals are floating point and enter as an
    already computed parameter. */
module CartPage {
  import opened Types
  import opened AppContext
  import CartOps

  /** `getPaymentMethodLabel`. */
  function PaymentMethodLabel(choice: string): (caption: string)
    ensures choice == "credit-card" ==> caption == "Credit Card ending in 4532"
    ensures choice == "debit-card" ==> caption == "Debit Card ending in 7890"
    ensures choice == "gpay" ==> caption == "Google Pay"
    ensures choice == "cod" ==> caption == "Cash on Delivery"
    ensures caption == "Unknown Payment Method" <==> choice !in {"credit-card", "debit-card", "gpay", "cod"}
  {
    if choice == "credit-card" then "Credit Card ending in 4532"
    else if choice == "debit-card" then "Debit Card ending in 7890"
    else if choice == "gpay" then "Google Pay"
    else if choice == "cod" then "Cash on Delivery"
    else "Unknown Payment Method"
  }

  /** The clock readings checkout uses: `Date.now()` as text, the current
      time and the time a week later, both as ISO text. */
  datatype Clock = Clock(stamp: string, nowIso: string, inAWeekIso: string)

  /** Checkout goes ahead only for a signed-in user with a delivery address. */
  predicate CanCheckout(s: AppState) {
    s.auth.isAuthenticated && s.selectedDeliveryAddress.Some?
  }

  /** `handleCheckout`: the actions it dispatches. The order carries no
      seller. */
  function Checkout(s: AppState, paymentMethod: string, total: real, clock: Clock): (actions: seq<Action>)
    requires s.auth.isAuthenticated ==> s.auth.user.Some?
    ensures !CanCheckout(s) <==> actions == []
    ensures CanCheckout(s) ==>
      |actions| == 1 && actions[0].PlaceOrder? &&
      var o := actions[0].order;
      o.id == "order-" + clock.stamp && o.userId == s.auth.user.value.id && o.sellerId.None? &&
      o.items == s.cart && o.total == total && o.status == Confirmed &&
      o.orderDate == clock.nowIso && o.estimatedDelivery == Some(clock.inAWeekIso) &&
      o.shippingAddress == s.selectedDeliveryAddress.value &&
      o.paymentMethod == PaymentMethodLabel(paymentMethod) && o.trackingNumber.None?
  {
    if !s.auth.isAuthenticated then []
    else if s.selectedDeliveryAddress.None? then []
    else
      [PlaceOrder(Order("order-" + clock.stamp, s.auth.user.value.id, None, s.cart, total, Confirmed,
                        clock.nowIso, Some(clock.inAWeekIso), s.selectedDeliveryAddress.value,
                        PaymentMethodLabel(paymentMethod), None))]
  }

  /** After a checkout the cart is empty and the new order, holding the
      former cart, heads the order list; the rest of the state is as
      before. A refused checkout changes nothing. */
  lemma CheckoutEffect(env: Env, s: AppState, paymentMethod: string, total: real, clock: Clock)
    requires AuthConsistent(s.auth)
    ensures var r := Run(env, s, Checkout(s, paymentMethod, total, clock));
      r.Some? &&
      (!CanCheckout(s) ==> r.value == s) &&
      (CanCheckout(s) ==>
        r.value.cart == [] && |r.value.orders| == |s.orders| + 1 &&
        r.value.orders[0].items == s.cart && r.value.orders[1..] == s.orders &&
        r.value.(orders := s.orders, cart := s.cart) == s)
  {
    var actions := Checkout(s, paymentMethod, total, clock);
    if CanCheckout(s) {
      var a := actions[0];
      assert actions[1..] == [];
      var t := OrdersReduce(s, a);
      assert Reduce(env, s, a) == t;
      assert Run(env, s, actions) == Run(env, t, []);
    }
  }

  // ----- quantity buttons -----

  /** The minus button is disabled at quantity one or below. */
  predicate MinusEnabled(item: CartItem) {
    item.quantity > 1
  }

  function MinusPressed(item: CartItem): Action {
    UpdateCartQuantity(item.book.id, item.quantity - 1)
  }

  function PlusPressed(item: CartItem): Action {
    UpdateCartQuantity(item.book.id, item.quantity + 1)
  }

  function TrashPressed(item: CartItem): Action {
    RemoveFromCart(item.book.id)
  }

  /** On a line of a well-formed cart, plus adds one copy of the book, an
      enabled minus takes one away and keeps the line, and nothing else in
      the cart changes; the cart stays well formed. */
  lemma QuantityButtonsStep(cart: seq<CartItem>, k: int)
    requires CartOps.CartWf(cart) && 0 <= k < |cart|
    ensures var item := cart[k]; var id := item.book.id;
      var plus := CartReduce(cart, PlusPressed(item));
      CartOps.CartWf(plus) && CartOps.QuantityOf(plus, id) == CartOps.QuantityOf(cart, id) + 1 &&
      forall other :: other != id ==> CartOps.QuantityOf(plus, other) == CartOps.QuantityOf(cart, other)
    ensures var item := cart[k]; var id := item.book.id;
      var minus := CartReduce(cart, MinusPressed(item));
      MinusEnabled(item) ==>
        CartOps.CartWf(minus) && CartOps.HasLine(minus, id) &&
        CartOps.QuantityOf(minus, id) == CartOps.QuantityOf(cart, id) - 1 &&
        forall other :: other != id ==> CartOps.QuantityOf(minus, other) == CartOps.QuantityOf(cart, other)
  {
    var item := cart[k];
    var id := item.book.id;
    assert CartOps.HasLine(cart, id);
    CartOps.QuantityOfLine(cart, k);
    CartOps.UpdateQuantityEffect(cart, id, item.quantity + 1);
    if MinusEnabled(item) {
      CartOps.UpdateQuantityEffect(cart, id, item.quantity - 1);
      var minus := CartReduce(cart, MinusPressed(item));
      assert minus[k].book.id == id;
    }
  }

  /** The trash button removes every copy of the book and nothing else. */
  lemma TrashRemovesBook(cart: seq<CartItem>, k: int)
    requires CartOps.CartWf(cart) && 0 <= k < |cart|
    ensures var id := cart[k].book.id; var r := CartReduce(cart, TrashPressed(cart[k]));
      CartOps.CartWf(r) && CartOps.QuantityOf(r, id) == 0 &&
      forall other :: other != id ==> CartOps.QuantityOf(r, other) == CartOps.QuantityOf(cart, other)
  {
    CartOps.RemoveFromCartEffect(cart, cart[k].book.id);
  }

  /** Two different known methods never share a caption, and no known
      method is captioned as unknown: the caption identifies the method
      whenever it is not the fallback. */
  lemma PaymentLabelIdentifiesMethod(first: string, second: string)
    requires PaymentMethodLabel(first) == PaymentMethodLabel(second)
    ensures first == second || PaymentMethodLabel(first) == "Unknown Payment Method"
  {
  }
}
