/** Properties of `appReducer` that relate several actions, or an action to
    the invariants the views rely on (project/src/context/AppContext.tsx). */
module ReducerProperties {
  import opened Types
  import opened Seqs
  import opened AppContext
  import CartOps
  import AddressBook

  /** A session action's step is `SessionReduce`. */
  lemma SessionStep(env: Env, s: AppState, a: Action)
    requires IsSessionAction(a)
    ensures Reduce(env, s, a) == SessionReduce(env, s, a)
  {
  }

  /** An address action's step is `AddressReduce`. */
  lemma AddressStep(env: Env, s: AppState, a: Action)
    requires IsAddressAction(a)
    ensures Reduce(env, s, a) == AddressReduce(s, a)
  {
    assert !IsSessionAction(a) && !IsCartAction(a) && !IsWishlistAction(a) && !IsOrderAction(a);
  }

  /** A wishlist action's step rewrites only the wishlist. */
  lemma WishlistStep(env: Env, s: AppState, a: Action)
    requires IsWishlistAction(a) && CanReduce(s, a)
    ensures Reduce(env, s, a) == s.(wishlist := WishlistReduce(env, s, a))
  {
    assert !IsSessionAction(a) && !IsCartAction(a);
  }

  /** An order action's step is `OrdersReduce`. */
  lemma OrdersStep(env: Env, s: AppState, a: Action)
    requires IsOrderAction(a)
    ensures Reduce(env, s, a) == OrdersReduce(s, a)
  {
    assert !IsSessionAction(a) && !IsCartAction(a) && !IsWishlistAction(a);
  }

  /** A catalogue action's step rewrites only the books. */
  lemma BooksStep(env: Env, s: AppState, a: Action)
    requires IsBookAction(a)
    ensures Reduce(env, s, a) == s.(books := BooksReduce(s.books, a))
  {
    assert !IsSessionAction(a) && !IsCartAction(a) && !IsWishlistAction(a) && !IsOrderAction(a) && !IsAddressAction(a);
  }

  /** A user-list action's step rewrites only the users. */
  lemma UsersStep(env: Env, s: AppState, a: Action)
    requires IsUserAction(a)
    ensures Reduce(env, s, a) == s.(users := UsersReduce(s.users, a))
  {
    assert !IsSessionAction(a) && !IsCartAction(a) && !IsWishlistAction(a) && !IsOrderAction(a) && !IsAddressAction(a) && !IsBookAction(a);
  }

  /** The slices `Reduce`'s own contract leaves open: the wishlist changes
      only by a wishlist or session action, the orders only by an order or
      session action, and the search text and the genre only by their own
      setters. */
  lemma ReduceFrames(env: Env, s: AppState, a: Action)
    requires CanReduce(s, a)
    ensures var r := Reduce(env, s, a);
      (!IsSessionAction(a) && !IsWishlistAction(a) ==> r.wishlist == s.wishlist) &&
      (!IsSessionAction(a) && !IsOrderAction(a) ==> r.orders == s.orders) &&
      (!a.SetSearchQuery? ==> r.searchQuery == s.searchQuery) &&
      (!a.SetSelectedGenre? ==> r.selectedGenre == s.selectedGenre)
  {
    if IsSessionAction(a) {
      SessionStep(env, s, a);
      match a {
        case Login(u) => assert SessionReduce(env, s, a) == LoginReduce(env, s, u);
        case Logout => assert SessionReduce(env, s, a) == LogoutReduce(s);
        case SetLoading(_) =>
      }
    } else if IsCartAction(a) {
      CartStep(env, s, a);
    } else if IsWishlistAction(a) {
      WishlistStep(env, s, a);
    } else if IsOrderAction(a) {
      OrdersStep(env, s, a);
    } else if IsAddressAction(a) {
      AddressStep(env, s, a);
    } else if IsBookAction(a) {
      BooksStep(env, s, a);
    } else if IsUserAction(a) {
      UsersStep(env, s, a);
    }
  }


  /** The cart actions keep one line per book with positive quantities. */
  lemma CartReduceKeepsWf(cart: seq<CartItem>, a: Action)
    requires IsCartAction(a) && CartOps.CartWf(cart)
    ensures CartOps.CartWf(CartReduce(cart, a))
  {
    match a {
      case AddToCart(b) => CartOps.AddToCartEffect(cart, b);
      case RemoveFromCart(id) => CartOps.RemoveFromCartEffect(cart, id);
      case UpdateCartQuantity(id, q) =>
        if q <= 0 {
          CartOps.RemoveFromCartEffect(cart, id);
        } else {
          CartOps.UpdateQuantityEffect(cart, id, q);
        }
      case ClearCart =>
    }
  }

  /** LOGIN selects an entry of the new user's list, LOGOUT clears the
      selection, SET_LOADING leaves it alone. */
  lemma SessionReduceKeepsSelection(env: Env, s: AppState, a: Action)
    requires IsSessionAction(a) && SelectionFresh(s)
    ensures SelectionFresh(SessionReduce(env, s, a))
  {
    if a.Login? {
      var r := SessionReduce(env, s, a);
      var d := DefaultSelection(a.user);
      var addrs := AddressesOf(r.auth.user);
      if d.Some? {
        var k :| 0 <= k < |addrs| && addrs[k] == d.value;
        assert AddressBook.SameExceptDefault(addrs[k], d.value);
      }
    }
  }

  /** The address actions keep the selection an entry of the user's list,
      given that a selection is only ever made from that list. */
  lemma AddressReduceKeepsSelection(s: AppState, a: Action)
    requires IsAddressAction(a) && SelectionFresh(s)
    requires a.SetDeliveryAddress? ==> a.address in AddressesOf(s.auth.user)
    ensures SelectionFresh(AddressReduce(s, a))
  {
    if a.SetDeliveryAddress? {
      var old_ := AddressesOf(s.auth.user);
      var new_ := AddressesOf(AddressReduce(s, a).auth.user);
      var k :| 0 <= k < |old_| && old_[k] == a.address;
      assert AddressBook.SameExceptDefault(new_[k], a.address);
    } else if s.auth.user.Some? && s.selectedDeliveryAddress.Some? {
      var sel := s.selectedDeliveryAddress.value;
      var old_ := AddressesOf(s.auth.user);
      var k :| 0 <= k < |old_| && AddressBook.SameExceptDefault(old_[k], sel);
      AddressEditKeepsSelection(s, a, k);
    }
  }

  /** The list edits keep a selected entry, found at index `k` of the old
      list, in the new one. */
  lemma AddressEditKeepsSelection(s: AppState, a: Action, k: int)
    requires IsAddressAction(a) && !a.SetDeliveryAddress? && s.auth.user.Some?
    requires s.selectedDeliveryAddress.Some? && 0 <= k < |AddressesOf(s.auth.user)|
    requires AddressBook.SameExceptDefault(AddressesOf(s.auth.user)[k], s.selectedDeliveryAddress.value)
    ensures SelectionFresh(AddressReduce(s, a))
  {
    match a {
      case AddAddress(x) =>
        assert AddressReduce(s, a) == AddAddressReduce(s, x);
        AddKeepsSelection(s, x, k);
      case UpdateAddress(x) =>
        assert AddressReduce(s, a) == UpdateAddressReduce(s, x);
        UpdateKeepsSelection(s, x, k);
      case DeleteAddress(id) =>
        assert AddressReduce(s, a) == DeleteAddressReduce(s, id);
        DeleteKeepsSelection(s, id, k);
      case SetDefaultAddress(id) =>
        assert AddressReduce(s, a) == SetDefaultAddressReduce(s, id);
        SetDefaultKeepsSelection(s, id, k);
    }
  }

  /** ADD_ADDRESS keeps every existing entry at its index. */
  lemma AddKeepsSelection(s: AppState, x: Address, k: int)
    requires s.auth.user.Some? && s.selectedDeliveryAddress.Some? && 0 <= k < |AddressesOf(s.auth.user)|
    requires AddressBook.SameExceptDefault(AddressesOf(s.auth.user)[k], s.selectedDeliveryAddress.value)
    ensures SelectionFresh(AddAddressReduce(s, x))
  {
    var new_ := AddressesOf(AddAddressReduce(s, x).auth.user);
    assert new_[k] == AddressesOf(s.auth.user)[k];
  }

  /** UPDATE_ADDRESS either leaves the selected entry alone or replaces it
      with the edited address, which the selection then follows. */
  lemma UpdateKeepsSelection(s: AppState, x: Address, k: int)
    requires s.auth.user.Some? && s.selectedDeliveryAddress.Some? && 0 <= k < |AddressesOf(s.auth.user)|
    requires AddressBook.SameExceptDefault(AddressesOf(s.auth.user)[k], s.selectedDeliveryAddress.value)
    ensures SelectionFresh(UpdateAddressReduce(s, x))
  {
    var sel := s.selectedDeliveryAddress.value;
    var old_ := AddressesOf(s.auth.user);
    var new_ := AddressesOf(UpdateAddressReduce(s, x).auth.user);
    assert old_[k].id == sel.id;
    if sel.id == x.id {
      assert new_[k] == x;
      assert AddressBook.SameExceptDefault(new_[k], x);
    } else {
      assert new_[k] == old_[k];
    }
  }

  /** DELETE_ADDRESS clears the selection of the deleted entry and keeps
      every other entry somewhere in the list. */
  lemma DeleteKeepsSelection(s: AppState, id: string, k: int)
    requires s.auth.user.Some? && s.selectedDeliveryAddress.Some? && 0 <= k < |AddressesOf(s.auth.user)|
    requires AddressBook.SameExceptDefault(AddressesOf(s.auth.user)[k], s.selectedDeliveryAddress.value)
    ensures SelectionFresh(DeleteAddressReduce(s, id))
  {
    var sel := s.selectedDeliveryAddress.value;
    var old_ := AddressesOf(s.auth.user);
    var new_ := AddressesOf(DeleteAddressReduce(s, id).auth.user);
    assert old_[k].id == sel.id;
    if sel.id != id {
      assert old_[k] in new_;
      var m :| 0 <= m < |new_| && new_[m] == old_[k];
      assert AddressBook.SameExceptDefault(new_[m], sel);
    }
  }

  /** SET_DEFAULT_ADDRESS changes only default flags. */
  lemma SetDefaultKeepsSelection(s: AppState, id: string, k: int)
    requires s.auth.user.Some? && s.selectedDeliveryAddress.Some? && 0 <= k < |AddressesOf(s.auth.user)|
    requires AddressBook.SameExceptDefault(AddressesOf(s.auth.user)[k], s.selectedDeliveryAddress.value)
    ensures SelectionFresh(SetDefaultAddressReduce(s, id))
  {
    var old_ := AddressesOf(s.auth.user);
    var new_ := AddressesOf(SetDefaultAddressReduce(s, id).auth.user);
    assert AddressBook.SameExceptDefault(new_[k], old_[k]);
  }

  /** Every action the views can dispatch keeps the state well formed: the
      auth flag matches the user, the cart has one line per book with
      positive quantities, and the selected delivery address is still one of
      the user's addresses (up to its default flag). */
  lemma ReducePreservesWf(env: Env, s: AppState, a: Action)
    requires Wf(s) && ViewGuarded(s, a)
    ensures Wf(Reduce(env, s, a))
  {
    if IsSessionAction(a) {
      SessionStep(env, s, a);
      SessionReduceKeepsSelection(env, s, a);
    } else if IsCartAction(a) {
      CartStep(env, s, a);
      CartReduceKeepsWf(s.cart, a);
    } else if IsAddressAction(a) {
      AddressStep(env, s, a);
      AddressReduceKeepsSelection(s, a);
    }
  }

  /** The app starts well formed. */
  lemma InitialStateWf(seedBooks: seq<Book>, seedUsers: seq<User>)
    ensures Wf(InitialState(seedBooks, seedUsers))
  {
  }

  /** Every action of the sequence is one the views would dispatch in the
      state it reaches. */
  predicate Guarded(env: Env, s: AppState, actions: seq<Action>)
    decreases |actions|
  {
    |actions| == 0 ||
    (ViewGuarded(s, actions[0]) && Guarded(env, Reduce(env, s, actions[0]), actions[1..]))
  }

  /** A sequence of dispatches the views allow never throws and keeps the
      state well formed. */
  lemma {:induction false} GuardedRunKeepsWf(env: Env, s: AppState, actions: seq<Action>)
    requires Wf(s) && Guarded(env, s, actions)
    ensures Run(env, s, actions).Some? && Wf(Run(env, s, actions).value)
    decreases |actions|
  {
    if |actions| > 0 {
      ReducePreservesWf(env, s, actions[0]);
      GuardedRunKeepsWf(env, Reduce(env, s, actions[0]), actions[1..]);
    }
  }

  /** Every state the views can reach from `initialState` is well formed. */
  lemma ReachableStatesWf(env: Env, seedBooks: seq<Book>, seedUsers: seq<User>, actions: seq<Action>)
    requires Guarded(env, InitialState(seedBooks, seedUsers), actions)
    ensures var r := Run(env, InitialState(seedBooks, seedUsers), actions);
      r.Some? && Wf(r.value)
  {
    InitialStateWf(seedBooks, seedUsers);
    GuardedRunKeepsWf(env, InitialState(seedBooks, seedUsers), actions);
  }

  /** SET_DEFAULT_ADDRESS over a list of unique ids that holds the id leaves
      exactly one default address, the one with that id. */
  lemma SetDefaultAddressSingle(env: Env, s: AppState, id: string)
    requires s.auth.user.Some?
    requires AddressBook.UniqueIds(AddressesOf(s.auth.user))
    requires AddressBook.HasAddress(AddressesOf(s.auth.user), id)
    ensures var addrs := AddressesOf(Reduce(env, s, SetDefaultAddress(id)).auth.user);
      AddressBook.CountDefaults(addrs) == 1 &&
      forall i :: 0 <= i < |addrs| ==> (IsTrue(addrs[i].isDefault) <==> addrs[i].id == id)
  {
    AddressStep(env, s, SetDefaultAddress(id));
    AddressBook.MarkDefaultSingle(AddressesOf(s.auth.user), id);
  }

  /** The selection is refreshed by UPDATE_ADDRESS exactly when it has the
      payload's id, and cleared by DELETE_ADDRESS exactly when it has the
      deleted id. */
  lemma SelectionTracksAddressEdits(env: Env, s: AppState, x: Address, id: string)
    requires s.auth.user.Some? && s.selectedDeliveryAddress.Some?
    ensures Reduce(env, s, UpdateAddress(x)).selectedDeliveryAddress
         == (if s.selectedDeliveryAddress.value.id == x.id then Some(x) else s.selectedDeliveryAddress)
    ensures Reduce(env, s, DeleteAddress(id)).selectedDeliveryAddress.None?
        <==> s.selectedDeliveryAddress.value.id == id
  {
    AddressStep(env, s, UpdateAddress(x));
    AddressStep(env, s, DeleteAddress(id));
  }

  /** SET_DEFAULT_ADDRESS rewrites the flags of the listed addresses but not
      of the selected copy: a selection that was a list entry stops being
      one, although it still matches it in every other field. */
  lemma SetDefaultLeavesSelectionFlagStale(env: Env, s: AppState, a: Address)
    requires s.auth.user.Some? && AddressesOf(s.auth.user) == [a]
    requires a.isDefault == Some(false) && s.selectedDeliveryAddress == Some(a)
    ensures var r := Reduce(env, s, SetDefaultAddress(a.id));
      r.selectedDeliveryAddress.value !in AddressesOf(r.auth.user) &&
      AddressBook.Lists(AddressesOf(r.auth.user), r.selectedDeliveryAddress.value)
  {
    var r := Reduce(env, s, SetDefaultAddress(a.id));
    var addrs := AddressesOf(r.auth.user);
    assert addrs == [a.(isDefault := Some(true))];
    assert AddressBook.SameExceptDefault(addrs[0], a);
  }

  /** Dispatching `xs` then `ys` is dispatching `xs + ys`; a dispatch that
      throws stops the sequence. */
  lemma {:induction false} RunAppend(env: Env, s: AppState, xs: seq<Action>, ys: seq<Action>)
    ensures Run(env, s, xs + ys) ==
      (if Run(env, s, xs).Some? then Run(env, Run(env, s, xs).value, ys) else None)
    decreases |xs|
  {
    if |xs| == 0 {
      assert xs + ys == ys;
    } else {
      assert (xs + ys)[0] == xs[0];
      assert (xs + ys)[1..] == xs[1..] + ys;
      var t := Step(env, s, xs[0]);
      if t.Some? {
        RunAppend(env, t.value, xs[1..], ys);
      }
    }
  }

  /** Setting a cart line to zero copies or fewer is the same as removing
      the book. */
  lemma NonPositiveQuantityRemoves(env: Env, s: AppState, bookId: string, quantity: int)
    requires quantity <= 0
    ensures Reduce(env, s, UpdateCartQuantity(bookId, quantity)) == Reduce(env, s, RemoveFromCart(bookId))
  {
    assert Reduce(env, s, UpdateCartQuantity(bookId, quantity)) ==
      s.(cart := CartReduce(s.cart, UpdateCartQuantity(bookId, quantity)));
    assert Reduce(env, s, RemoveFromCart(bookId)) == s.(cart := CartReduce(s.cart, RemoveFromCart(bookId)));
  }

  /** Whatever was dispatched before, a LOGOUT at the end leaves no session
      data behind. */
  lemma LogoutClearsSession(env: Env, s: AppState, history: seq<Action>)
    requires Run(env, s, history).Some?
    ensures var t := Run(env, s, history + [Logout]);
      t.Some? && t.value.auth == AuthState(None, false, false) &&
      t.value.cart == [] && t.value.orders == [] && t.value.wishlist == [] &&
      t.value.selectedDeliveryAddress.None?
  {
    RunAppend(env, s, history, [Logout]);
  }

  /** Starting from an empty cart, adding a book twice and then setting its
      quantity to 3 leaves one line of three copies. */
  lemma AddTwiceThenSetThree(env: Env, s: AppState, b: Book)
    requires s.cart == []
    ensures Run(env, s, [AddToCart(b), AddToCart(b), UpdateCartQuantity(b.id, 3)])
         == Some(s.(cart := [CartItem(b, 3)]))
  {
    var s1 := s.(cart := [CartItem(b, 1)]);
    var s2 := s.(cart := [CartItem(b, 2)]);
    var s3 := s.(cart := [CartItem(b, 3)]);
    CartTrace(b);
    CartStep(env, s, AddToCart(b));
    CartStep(env, s1, AddToCart(b));
    CartStep(env, s2, UpdateCartQuantity(b.id, 3));
    var acts := [AddToCart(b), AddToCart(b), UpdateCartQuantity(b.id, 3)];
    assert acts[1..][1..][1..] == [];
    assert Run(env, s2, acts[1..][1..]) == Run(env, s3, []);
    assert Run(env, s1, acts[1..]) == Run(env, s2, acts[1..][1..]);
    assert Run(env, s, acts) == Run(env, s1, acts[1..]);
  }

  /** The carts of the trace above, line by line. */
  lemma CartTrace(b: Book)
    ensures CartOps.AddToCart([], b) == [CartItem(b, 1)]
    ensures CartOps.AddToCart([CartItem(b, 1)], b) == [CartItem(b, 2)]
    ensures CartOps.UpdateQuantity([CartItem(b, 2)], b.id, 3) == [CartItem(b, 3)]
  {
    var one := [CartItem(b, 1)];
    assert one[0].book.id == b.id;
    assert CartOps.HasLine(one, b.id);
    assert !CartOps.HasLine([], b.id);
  }

  /** A cart action dispatches without failing and rewrites only the cart. */
  lemma CartStep(env: Env, s: AppState, a: Action)
    requires IsCartAction(a)
    ensures Reduce(env, s, a) == s.(cart := CartReduce(s.cart, a))
    ensures Step(env, s, a) == Some(s.(cart := CartReduce(s.cart, a)))
  {
    assert !IsSessionAction(a);
  }

  /** Setting an order's status twice is setting it once to the later
      value, and a status change keeps every order's id and place in the
      list. */
  lemma UpdateOrderStatusLastWins(env: Env, s: AppState, orderId: string, first: OrderStatus, second: OrderStatus)
    ensures Run(env, s, [UpdateOrderStatus(orderId, first), UpdateOrderStatus(orderId, second)])
         == Some(Reduce(env, s, UpdateOrderStatus(orderId, second)))
    ensures var r := Reduce(env, s, UpdateOrderStatus(orderId, first));
      |r.orders| == |s.orders| &&
      forall i :: 0 <= i < |s.orders| ==> (
        r.orders[i].id == s.orders[i].id &&
        (s.orders[i].id == orderId ==> r.orders[i].status == first))
  {
    var acts := [UpdateOrderStatus(orderId, first), UpdateOrderStatus(orderId, second)];
    var t1 := s.(orders := SetOrderStatus(s.orders, orderId, first));
    var t2 := t1.(orders := SetOrderStatus(t1.orders, orderId, second));
    assert Reduce(env, s, acts[0]) == t1;
    assert Reduce(env, t1, acts[1]) == t2;
    assert t2.orders == SetOrderStatus(s.orders, orderId, second);
    assert Reduce(env, s, acts[1]) == t2;
    assert acts[1..][1..] == [];
    assert Run(env, s, acts) == Run(env, t1, acts[1..]);
    assert Run(env, t1, acts[1..]) == Run(env, t2, []);
  }

  /** With unique user ids, approving a user is the same as saving that
      user's record with the approval set. */
  lemma ApproveIsUpdateUser(env: Env, s: AppState, k: int)
    requires 0 <= k < |s.users|
    requires forall i, j :: 0 <= i < j < |s.users| ==> s.users[i].id != s.users[j].id
    ensures Reduce(env, s, ApproveSeller(s.users[k].id))
         == Reduce(env, s, UpdateUser(s.users[k].(isApproved := Some(true))))
  {
    var approved := UsersReduce(s.users, ApproveSeller(s.users[k].id));
    var updated := UsersReduce(s.users, UpdateUser(s.users[k].(isApproved := Some(true))));
    forall i | 0 <= i < |s.users| ensures approved[i] == updated[i] {
      if s.users[i].id == s.users[k].id {
        assert i == k;
      }
    }
    assert approved == updated;
    assert Reduce(env, s, ApproveSeller(s.users[k].id)) == s.(users := approved);
    assert Reduce(env, s, UpdateUser(s.users[k].(isApproved := Some(true)))) == s.(users := updated);
  }
}
