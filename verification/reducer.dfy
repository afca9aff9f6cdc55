/** The application state store (project/src/context/AppContext.tsx):
    the state record, the closed action vocabulary, the initial state and
    the pure transition function `appReducer`. */
module AppContext {
  import opened Types
  import opened Seqs
  import CartOps
  import AddressBook

  datatype AppState = AppState(
    auth: AuthState,
    books: seq<Book>,
    cart: seq<CartItem>,
    wishlist: seq<WishlistItem>,
    orders: seq<Order>,
    users: seq<User>,
    searchQuery: string,
    selectedGenre: string,
    isLoading: bool,
    selectedDeliveryAddress: Option<Address>)

  /** The 24 action variants, plus any other `type` tag a caller may send,
      which the reducer's `default` branch ignores. */
  datatype Action =
    | Login(user: User)
    | Logout
    | SetLoading(loading: bool)
    | AddToCart(book: Book)
    | RemoveFromCart(bookId: string)
    | UpdateCartQuantity(bookId: string, quantity: int)
    | ClearCart
    | AddToWishlist(book: Book)
    | RemoveFromWishlist(bookId: string)
    | SetSearchQuery(query: string)
    | SetSelectedGenre(genre: string)
    | PlaceOrder(order: Order)
    | UpdateOrderStatus(orderId: string, status: OrderStatus)
    | SetDeliveryAddress(address: Address)
    | AddAddress(address: Address)
    | UpdateAddress(address: Address)
    | DeleteAddress(addressId: string)
    | SetDefaultAddress(addressId: string)
    | AddBook(book: Book)
    | UpdateBook(book: Book)
    | DeleteBook(bookId: string)
    | ApproveSeller(userId: string)
    | UpdateUser(user: User)
    | DeleteUser(userId: string)
    | Unrecognized(tag: string)

  /** What the reducer reads besides state and action: the seed orders and
      wishlist entries of the mock data module, and the clock (`Date.now()`
      as its decimal text, and `new Date().toISOString()`). */
  datatype Env = Env(seedOrders: seq<Order>, seedWishlist: seq<WishlistItem>, nowMillis: string, nowIso: string)

  const AnonymousAuth := AuthState(None, false, false)

  /** `initialState`, over the seed books and users. */
  function InitialState(seedBooks: seq<Book>, seedUsers: seq<User>): (s: AppState)
    ensures s.auth.user.None? && !s.auth.isAuthenticated && !s.auth.isLoading
    ensures s.cart == [] && s.wishlist == [] && s.orders == [] && s.selectedDeliveryAddress.None?
    ensures s.books == seedBooks && s.users == seedUsers
    ensures s.searchQuery == "" && s.selectedGenre == "All" && !s.isLoading
  {
    AppState(AnonymousAuth, seedBooks, [], [], [], seedUsers, "", "All", false, None)
  }

  // ----- session -----

  /** The orders a user sees after logging in: their own as a customer, the
      ones attributed to them as a seller, all of them as an admin. */
  function LoginOrders(seed: seq<Order>, u: User): (r: seq<Order>)
    ensures IsSubseq(r, seed)
    ensures u.role == Admin ==> r == seed
    ensures u.role == Customer ==> forall o :: o in r <==> o in seed && o.userId == u.id
    ensures u.role == Seller ==> forall o :: o in r <==> o in seed && o.sellerId == Some(u.id)
    ensures u.role == Customer ==> forall o :: multiset(r)[o] == if o.userId == u.id then multiset(seed)[o] else 0
    ensures u.role == Seller ==>
      forall o :: multiset(r)[o] == if o.sellerId == Some(u.id) then multiset(seed)[o] else 0
  {
    match u.role
    case Customer =>
      var own := (o: Order) => o.userId == u.id;
      FilterCounts(seed, own);
      Filter(seed, own)
    case Seller =>
      var attributed := (o: Order) => o.sellerId == Some(u.id);
      FilterCounts(seed, attributed);
      Filter(seed, attributed)
    case Admin => SubseqOfSelf(seed); seed
  }

  /** The wishlist after logging in: the customer's own seed entries. */
  function LoginWishlist(seed: seq<WishlistItem>, u: User): (r: seq<WishlistItem>)
    ensures IsSubseq(r, seed)
    ensures u.role != Customer ==> r == []
    ensures u.role == Customer ==> forall w :: w in r <==> w in seed && w.userId == u.id
    ensures u.role == Customer ==>
      forall w :: multiset(r)[w] == if w.userId == u.id then multiset(seed)[w] else 0
  {
    if u.role == Customer then
      var own := (w: WishlistItem) => w.userId == u.id;
      FilterCounts(seed, own);
      Filter(seed, own)
    else []
  }

  /** The user's address whose id is `defaultAddressId`, if any. */
  function DefaultSelection(u: User): (r: Option<Address>)
    ensures r.Some? ==> r.value in AddressesOf(Some(u)) && u.defaultAddressId == Some(r.value.id)
    ensures r.None? <==> forall a :: a in AddressesOf(Some(u)) ==> u.defaultAddressId != Some(a.id)
    ensures r.Some? ==> exists k :: (0 <= k < |AddressesOf(Some(u))| && AddressesOf(Some(u))[k] == r.value &&
      forall j :: 0 <= j < k ==> u.defaultAddressId != Some(AddressesOf(Some(u))[j].id))
  {
    Find(AddressesOf(Some(u)), (a: Address) => Some(a.id) == u.defaultAddressId)
  }

  /** LOGIN replaces the session wholesale; cart, catalogue, users and
      filters carry over. */
  function LoginReduce(env: Env, s: AppState, u: User): (r: AppState)
    ensures r.auth == AuthState(Some(u), true, false)
    ensures r.orders == LoginOrders(env.seedOrders, u)
    ensures r.wishlist == LoginWishlist(env.seedWishlist, u)
    ensures r.selectedDeliveryAddress == DefaultSelection(u)
    ensures r.cart == s.cart && r.books == s.books && r.users == s.users
    ensures r.searchQuery == s.searchQuery && r.selectedGenre == s.selectedGenre && r.isLoading == s.isLoading
  {
    s.(auth := AuthState(Some(u), true, false),
       orders := LoginOrders(env.seedOrders, u),
       wishlist := LoginWishlist(env.seedWishlist, u),
       selectedDeliveryAddress := DefaultSelection(u))
  }

  /** LOGOUT: anonymous, and every session slice emptied. */
  function LogoutReduce(s: AppState): (r: AppState)
    ensures r.auth.user.None? && !r.auth.isAuthenticated && !r.auth.isLoading
    ensures r.cart == [] && r.orders == [] && r.wishlist == [] && r.selectedDeliveryAddress.None?
    ensures r.books == s.books && r.users == s.users
    ensures r.searchQuery == s.searchQuery && r.selectedGenre == s.selectedGenre && r.isLoading == s.isLoading
  {
    s.(auth := AnonymousAuth, cart := [], orders := [], wishlist := [], selectedDeliveryAddress := None)
  }

  // ----- wishlist -----

  /** The entry ADD_TO_WISHLIST creates for the current user. */
  function NewWishlistItem(env: Env, u: User, book: Book): WishlistItem {
    WishlistItem("wishlist-" + env.nowMillis, u.id, book, env.nowIso)
  }

  function RemoveFromWishlistReduce(wishlist: seq<WishlistItem>, bookId: string): (r: seq<WishlistItem>)
    ensures IsSubseq(r, wishlist)
    ensures forall w :: w in r <==> w in wishlist && w.book.id != bookId
    ensures forall w :: multiset(r)[w] == if w.book.id != bookId then multiset(wishlist)[w] else 0
  {
    var other := (w: WishlistItem) => w.book.id != bookId;
    FilterCounts(wishlist, other);
    Filter(wishlist, other)
  }

  // ----- orders -----

  function SetOrderStatus(orders: seq<Order>, orderId: string, status: OrderStatus): (r: seq<Order>)
    ensures |r| == |orders|
    ensures forall i :: 0 <= i < |orders| ==>
      r[i] == (if orders[i].id == orderId then orders[i].(status := status) else orders[i])
  {
    MapSeq(orders, (o: Order) => if o.id == orderId then o.(status := status) else o)
  }

  // ----- addresses of the logged-in user -----

  function WithUser(s: AppState, u: User): AppState {
    s.(auth := s.auth.(user := Some(u)))
  }

  /** ADD_ADDRESS: append to the list; the selection is untouched. */
  function AddAddressReduce(s: AppState, a: Address): (r: AppState)
    requires s.auth.user.Some?
    ensures r.auth.user.Some? && r.auth.isAuthenticated == s.auth.isAuthenticated
    ensures SameButAddressBook(r.auth.user.value, s.auth.user.value)
    ensures r.auth.user.value.defaultAddressId == s.auth.user.value.defaultAddressId
    ensures AddressesOf(r.auth.user) == AddressBook.Append(AddressesOf(s.auth.user), a)
    ensures r.selectedDeliveryAddress == s.selectedDeliveryAddress
  {
    WithUser(s, s.auth.user.value.(addresses := Some(AddressBook.Append(AddressesOf(s.auth.user), a))))
  }

  /** UPDATE_ADDRESS: the list entry and, when it is the one selected, the
      selection. */
  function UpdateAddressReduce(s: AppState, a: Address): (r: AppState)
    requires s.auth.user.Some?
    ensures r.auth.user.Some? && r.auth.isAuthenticated == s.auth.isAuthenticated
    ensures SameButAddressBook(r.auth.user.value, s.auth.user.value)
    ensures r.auth.user.value.defaultAddressId == s.auth.user.value.defaultAddressId
    ensures AddressesOf(r.auth.user) == AddressBook.Replace(AddressesOf(s.auth.user), a)
    ensures s.selectedDeliveryAddress.Some? && s.selectedDeliveryAddress.value.id == a.id
            ==> r.selectedDeliveryAddress == Some(a)
    ensures !(s.selectedDeliveryAddress.Some? && s.selectedDeliveryAddress.value.id == a.id)
            ==> r.selectedDeliveryAddress == s.selectedDeliveryAddress
  {
    var u := s.auth.user.value;
    var sel := s.selectedDeliveryAddress;
    WithUser(s, u.(addresses := Some(AddressBook.Replace(AddressesOf(s.auth.user), a))))
      .(selectedDeliveryAddress := if sel.Some? && sel.value.id == a.id then Some(a) else sel)
  }

  /** DELETE_ADDRESS: the list entry and, when it is the one selected, the
      selection (no fallback to another address). */
  function DeleteAddressReduce(s: AppState, id: string): (r: AppState)
    requires s.auth.user.Some?
    ensures r.auth.user.Some? && r.auth.isAuthenticated == s.auth.isAuthenticated
    ensures SameButAddressBook(r.auth.user.value, s.auth.user.value)
    ensures r.auth.user.value.defaultAddressId == s.auth.user.value.defaultAddressId
    ensures AddressesOf(r.auth.user) == AddressBook.Remove(AddressesOf(s.auth.user), id)
    ensures r.selectedDeliveryAddress.None? <==>
            s.selectedDeliveryAddress.None? || s.selectedDeliveryAddress.value.id == id
    ensures r.selectedDeliveryAddress.Some? ==> r.selectedDeliveryAddress == s.selectedDeliveryAddress
  {
    var u := s.auth.user.value;
    var sel := s.selectedDeliveryAddress;
    WithUser(s, u.(addresses := Some(AddressBook.Remove(AddressesOf(s.auth.user), id))))
      .(selectedDeliveryAddress := if sel.Some? && sel.value.id == id then None else sel)
  }

  /** SET_DEFAULT_ADDRESS: record the id and rewrite every flag. */
  function SetDefaultAddressReduce(s: AppState, id: string): (r: AppState)
    requires s.auth.user.Some?
    ensures r.auth.user.Some? && r.auth.user.value.defaultAddressId == Some(id)
    ensures SameButAddressBook(r.auth.user.value, s.auth.user.value)
    ensures AddressesOf(r.auth.user) == AddressBook.MarkDefault(AddressesOf(s.auth.user), id)
    ensures r.selectedDeliveryAddress == s.selectedDeliveryAddress
  {
    var u := s.auth.user.value;
    WithUser(s, u.(defaultAddressId := Some(id),
                   addresses := Some(AddressBook.MarkDefault(AddressesOf(s.auth.user), id))))
  }

  // ----- catalogue and user administration -----

  function ReplaceById(books: seq<Book>, b: Book): (r: seq<Book>)
    ensures |r| == |books|
    ensures forall i :: 0 <= i < |books| ==> r[i] == (if books[i].id == b.id then b else books[i])
  {
    MapSeq(books, (x: Book) => if x.id == b.id then b else x)
  }

  function RemoveBookById(books: seq<Book>, id: string): (r: seq<Book>)
    ensures IsSubseq(r, books)
    ensures forall b :: b in r <==> b in books && b.id != id
    ensures forall b :: multiset(r)[b] == if b.id != id then multiset(books)[b] else 0
  {
    var other := (x: Book) => x.id != id;
    FilterCounts(books, other);
    Filter(books, other)
  }

  function RemoveUserById(users: seq<User>, id: string): (r: seq<User>)
    ensures IsSubseq(r, users)
    ensures forall u :: u in r <==> u in users && u.id != id
    ensures forall u :: multiset(r)[u] == if u.id != id then multiset(users)[u] else 0
  {
    var other := (x: User) => x.id != id;
    FilterCounts(users, other);
    Filter(users, other)
  }

  function ApproveById(users: seq<User>, id: string): (r: seq<User>)
    ensures |r| == |users|
    ensures forall i :: 0 <= i < |users| ==>
      r[i] == (if users[i].id == id then users[i].(isApproved := Some(true)) else users[i])
  {
    MapSeq(users, (x: User) => if x.id == id then x.(isApproved := Some(true)) else x)
  }

  function ReplaceUserById(users: seq<User>, u: User): (r: seq<User>)
    ensures |r| == |users|
    ensures forall i :: 0 <= i < |users| ==> r[i] == (if users[i].id == u.id then u else users[i])
  {
    MapSeq(users, (x: User) => if x.id == u.id then u else x)
  }

  // ----- the reducer -----

  /** Only ADD_TO_WISHLIST needs anything of the state: it reads the current
      user's id through a non-null assertion. */
  predicate CanReduce(s: AppState, a: Action) {
    a.AddToWishlist? ==> s.auth.user.Some?
  }

  /** The session actions: LOGIN, LOGOUT, SET_LOADING. */
  predicate IsSessionAction(a: Action) {
    a.Login? || a.Logout? || a.SetLoading?
  }

  function SessionReduce(env: Env, s: AppState, a: Action): (r: AppState)
    requires IsSessionAction(a)
    ensures !a.SetLoading? || AuthConsistent(s.auth) ==> AuthConsistent(r.auth)
    ensures r.books == s.books && r.users == s.users && r.isLoading == s.isLoading
    ensures a.SetLoading? ==> (r.auth.isLoading == a.loading &&
      r.auth.user == s.auth.user && r.auth.isAuthenticated == s.auth.isAuthenticated &&
      r.cart == s.cart && r.wishlist == s.wishlist && r.orders == s.orders &&
      r.searchQuery == s.searchQuery && r.selectedGenre == s.selectedGenre &&
      r.selectedDeliveryAddress == s.selectedDeliveryAddress)
  {
    match a
    case Login(u) => LoginReduce(env, s, u)
    case Logout => LogoutReduce(s)
    case SetLoading(b) => s.(auth := s.auth.(isLoading := b))
  }

  predicate IsCartAction(a: Action) {
    a.AddToCart? || a.RemoveFromCart? || a.UpdateCartQuantity? || a.ClearCart?
  }

  /** The cart actions rewrite the cart and nothing else. */
  function CartReduce(cart: seq<CartItem>, a: Action): (r: seq<CartItem>)
    requires IsCartAction(a)
    ensures a.AddToCart? ==> CartOps.HasLine(r, a.book.id)
    ensures a.RemoveFromCart? ==> !CartOps.HasLine(r, a.bookId) && IsSubseq(r, cart)
    ensures a.UpdateCartQuantity? && a.quantity <= 0 ==> r == CartOps.RemoveFromCart(cart, a.bookId)
    ensures a.ClearCart? ==> r == []
  {
    match a
    case AddToCart(b) => CartOps.AddToCart(cart, b)
    case RemoveFromCart(id) => CartOps.RemoveFromCart(cart, id)
    case UpdateCartQuantity(id, q) => CartOps.UpdateQuantity(cart, id, q)
    case ClearCart => []
  }

  predicate IsWishlistAction(a: Action) {
    a.AddToWishlist? || a.RemoveFromWishlist?
  }

  /** ADD_TO_WISHLIST appends an entry for the current user without checking
      for duplicates; REMOVE_FROM_WISHLIST drops every entry of the book. */
  function WishlistReduce(env: Env, s: AppState, a: Action): (r: seq<WishlistItem>)
    requires IsWishlistAction(a) && CanReduce(s, a)
    ensures a.AddToWishlist? ==> (
      |r| == |s.wishlist| + 1 && r[..|s.wishlist|] == s.wishlist &&
      r[|s.wishlist|].book == a.book && r[|s.wishlist|].userId == s.auth.user.value.id)
    ensures a.RemoveFromWishlist? ==> (
      IsSubseq(r, s.wishlist) && (forall w :: w in r <==> w in s.wishlist && w.book.id != a.bookId) &&
      forall w :: multiset(r)[w] == if w.book.id != a.bookId then multiset(s.wishlist)[w] else 0)
  {
    match a
    case AddToWishlist(b) =>
      var r := s.wishlist + [NewWishlistItem(env, s.auth.user.value, b)];
      assert r[..|s.wishlist|] == s.wishlist;
      r
    case RemoveFromWishlist(id) => RemoveFromWishlistReduce(s.wishlist, id)
  }

  predicate IsOrderAction(a: Action) {
    a.PlaceOrder? || a.UpdateOrderStatus?
  }

  /** PLACE_ORDER records the order first and empties the cart in the same
      step; UPDATE_ORDER_STATUS touches only the status of the matching
      orders. Nothing else changes. */
  function OrdersReduce(s: AppState, a: Action): (r: AppState)
    requires IsOrderAction(a)
    ensures r.auth == s.auth && r.books == s.books && r.wishlist == s.wishlist && r.users == s.users
    ensures r.searchQuery == s.searchQuery && r.selectedGenre == s.selectedGenre && r.isLoading == s.isLoading
    ensures r.selectedDeliveryAddress == s.selectedDeliveryAddress
    ensures a.PlaceOrder? ==> (
      |r.orders| == |s.orders| + 1 && r.orders[0] == a.order &&
      r.orders[1..] == s.orders && r.cart == [])
    ensures a.UpdateOrderStatus? ==> (
      r.cart == s.cart && |r.orders| == |s.orders| &&
      forall i :: 0 <= i < |s.orders| ==> (
        SameButStatus(r.orders[i], s.orders[i]) &&
        r.orders[i].status == (if s.orders[i].id == a.orderId then a.status else s.orders[i].status)))
  {
    match a
    case PlaceOrder(o) =>
      var orders := [o] + s.orders;
      assert orders[1..] == s.orders;
      s.(orders := orders, cart := [])
    case UpdateOrderStatus(id, st) => s.(orders := SetOrderStatus(s.orders, id, st))
  }

  predicate IsAddressAction(a: Action) {
    a.SetDeliveryAddress? || a.AddAddress? || a.UpdateAddress? || a.DeleteAddress? || a.SetDefaultAddress?
  }

  /** The delivery selection and the logged-in user's address list. The
      list actions do nothing when nobody is logged in, and otherwise keep
      every field of the user record but the address list and, for
      SET_DEFAULT_ADDRESS, the default address id. */
  function AddressReduce(s: AppState, a: Action): (r: AppState)
    requires IsAddressAction(a)
    ensures r.auth.isAuthenticated == s.auth.isAuthenticated && r.auth.isLoading == s.auth.isLoading
    ensures r.books == s.books && r.cart == s.cart && r.wishlist == s.wishlist && r.orders == s.orders
    ensures r.users == s.users && r.searchQuery == s.searchQuery && r.selectedGenre == s.selectedGenre
    ensures r.isLoading == s.isLoading
    ensures a.SetDeliveryAddress? ==> r.auth == s.auth && r.selectedDeliveryAddress == Some(a.address)
    ensures !a.SetDeliveryAddress? && s.auth.user.None? ==> (
      r.auth == s.auth && r.selectedDeliveryAddress == s.selectedDeliveryAddress)
    ensures !a.SetDeliveryAddress? && s.auth.user.Some? ==> (
      r.auth.user.Some? && SameButAddressBook(r.auth.user.value, s.auth.user.value) &&
      (!a.SetDefaultAddress? ==> r.auth.user.value.defaultAddressId == s.auth.user.value.defaultAddressId))
  {
    if a.SetDeliveryAddress? then s.(selectedDeliveryAddress := Some(a.address))
    else if s.auth.user.None? then s
    else match a
      case AddAddress(x) => AddAddressReduce(s, x)
      case UpdateAddress(x) => UpdateAddressReduce(s, x)
      case DeleteAddress(id) => DeleteAddressReduce(s, id)
      case SetDefaultAddress(id) => SetDefaultAddressReduce(s, id)
  }

  predicate IsBookAction(a: Action) {
    a.AddBook? || a.UpdateBook? || a.DeleteBook?
  }

  /** Catalogue edits, by book id, with no ownership check. */
  function BooksReduce(books: seq<Book>, a: Action): (r: seq<Book>)
    requires IsBookAction(a)
    ensures a.AddBook? ==> r == books + [a.book]
    ensures a.UpdateBook? ==> (|r| == |books| &&
      forall i :: 0 <= i < |books| ==> r[i] == (if books[i].id == a.book.id then a.book else books[i]))
    ensures a.DeleteBook? ==> (
      IsSubseq(r, books) && (forall b :: b in r <==> b in books && b.id != a.bookId) &&
      forall b :: multiset(r)[b] == if b.id != a.bookId then multiset(books)[b] else 0)
  {
    match a
    case AddBook(b) => books + [b]
    case UpdateBook(b) => ReplaceById(books, b)
    case DeleteBook(id) => RemoveBookById(books, id)
  }

  predicate IsUserAction(a: Action) {
    a.ApproveSeller? || a.UpdateUser? || a.DeleteUser?
  }

  /** User administration over the global user list (never the logged-in
      user's own record). */
  function UsersReduce(users: seq<User>, a: Action): (r: seq<User>)
    requires IsUserAction(a)
    ensures a.ApproveSeller? ==> (|r| == |users| &&
      forall i :: 0 <= i < |users| ==> (SameButApproval(r[i], users[i]) &&
        (IsTrue(r[i].isApproved) <==> users[i].id == a.userId || IsTrue(users[i].isApproved))))
    ensures a.UpdateUser? ==> (|r| == |users| &&
      forall i :: 0 <= i < |users| ==> r[i] == (if users[i].id == a.user.id then a.user else users[i]))
    ensures a.DeleteUser? ==> (
      IsSubseq(r, users) && (forall u :: u in r <==> u in users && u.id != a.userId) &&
      forall u :: multiset(r)[u] == if u.id != a.userId then multiset(users)[u] else 0)
  {
    match a
    case ApproveSeller(id) => ApproveById(users, id)
    case UpdateUser(u) => ReplaceUserById(users, u)
    case DeleteUser(id) => RemoveUserById(users, id)
  }

  /** `appReducer`: each action rewrites its own slice of the state. */
  function Reduce(env: Env, s: AppState, a: Action): (r: AppState)
    requires CanReduce(s, a)
    ensures AuthConsistent(s.auth) ==> AuthConsistent(r.auth)
    ensures r.isLoading == s.isLoading
    ensures !IsSessionAction(a) && !IsAddressAction(a) ==> (
      r.auth == s.auth && r.selectedDeliveryAddress == s.selectedDeliveryAddress)
    ensures !IsSessionAction(a) && !IsCartAction(a) && !a.PlaceOrder? ==> r.cart == s.cart
    ensures !IsSessionAction(a) && !IsBookAction(a) ==> r.books == s.books
    ensures !IsUserAction(a) ==> r.users == s.users
    ensures a.Unrecognized? ==> r == s
  {
    if IsSessionAction(a) then SessionReduce(env, s, a)
    else if IsCartAction(a) then s.(cart := CartReduce(s.cart, a))
    else if IsWishlistAction(a) then s.(wishlist := WishlistReduce(env, s, a))
    else if IsOrderAction(a) then OrdersReduce(s, a)
    else if IsAddressAction(a) then AddressReduce(s, a)
    else if IsBookAction(a) then s.(books := BooksReduce(s.books, a))
    else if IsUserAction(a) then s.(users := UsersReduce(s.users, a))
    else match a
      case SetSearchQuery(q) => s.(searchQuery := q)
      case SetSelectedGenre(g) => s.(selectedGenre := g)
      case _ => s
  }

  /** One `dispatch`: ADD_TO_WISHLIST with nobody logged in throws a
      TypeError, modelled as `None`. */
  function Step(env: Env, s: AppState, a: Action): (r: Option<AppState>)
    ensures r.None? <==> !CanReduce(s, a)
  {
    if CanReduce(s, a) then Some(Reduce(env, s, a)) else None
  }

  /** Dispatching actions one after another. */
  function Run(env: Env, s: AppState, actions: seq<Action>): Option<AppState>
    decreases |actions|
  {
    if |actions| == 0 then Some(s)
    else match Step(env, s, actions[0])
      case None => None
      case Some(t) => Run(env, t, actions[1..])
  }

  // ----- invariants -----

  /** The selection is one of the user's addresses, up to its default flag. */
  predicate SelectionFresh(s: AppState) {
    s.selectedDeliveryAddress.None? ||
    AddressBook.Lists(AddressesOf(s.auth.user), s.selectedDeliveryAddress.value)
  }

  /** What every state reachable through the views satisfies. */
  predicate Wf(s: AppState) {
    AuthConsistent(s.auth) && CartOps.CartWf(s.cart) && SelectionFresh(s)
  }

  /** What the views guarantee before dispatching: a wishlist add only with
      a user logged in, a delivery selection only from the user's list. */
  predicate ViewGuarded(s: AppState, a: Action) {
    CanReduce(s, a) &&
    (a.SetDeliveryAddress? ==> a.address in AddressesOf(s.auth.user))
  }
}
