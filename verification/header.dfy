/** The page header (project/src/components/Layout/Header.tsx): the cart and
    wishlist badges, the navigation links by role, the logo target, and the
    search and sign-out dispatches. */
module Header {
  import opened Types
  import opened Seqs
  import opened AppContext
  import CartOps
  import Routes

  /** The header renders nothing on the landing page. */
  predicate Shown(pathname: string) {
    pathname != "/"
  }

  /** `cartItemsCount`: the cart's `reduce` from the left, summing line
      quantities. */
  method CartItemsCount(cart: seq<CartItem>) returns (count: int)
    ensures count == CartOps.TotalQuantity(cart)
  {
    count := 0;
    var i := 0;
    while i < |cart|
      invariant 0 <= i <= |cart|
      invariant count == CartOps.TotalQuantity(cart[..i])
    {
      assert cart[..i + 1] == cart[..i] + [cart[i]];
      CartOps.TotalQuantityAppend(cart[..i], cart[i]);
      count := count + cart[i].quantity;
      i := i + 1;
    }
    assert cart[..i] == cart;
  }

  /** `wishlistCount`. */
  function WishlistCount(wishlist: seq<WishlistItem>): nat {
    |wishlist|
  }

  /** The badges, the search box and the cart link appear for customers only. */
  predicate ShowsShoppingControls(user: Option<User>) {
    user.Some? && user.value.role == Customer
  }

  datatype NavLink = NavLink(path: string, text: string)

  /** `getNavigationLinks`: the links, in order, for each kind of viewer. */
  function NavigationLinks(user: Option<User>): (links: seq<NavLink>)
    ensures user.None? ==> links == [NavLink("/home", "Home"), NavLink("/books", "Books")]
    ensures user.Some? && user.value.role == Admin ==>
      links == [NavLink("/admin/dashboard", "Dashboard"), NavLink("/admin/users", "Users"),
                NavLink("/admin/sellers", "Sellers"), NavLink("/admin/orders", "Orders")]
    ensures user.Some? && user.value.role == Seller ==>
      links == [NavLink("/seller/dashboard", "Dashboard"), NavLink("/seller/items", "My Books"),
                NavLink("/orders", "Orders")]
    ensures user.Some? && user.value.role == Customer ==>
      links == [NavLink("/home", "Home"), NavLink("/books", "Books"),
                NavLink("/orders", "My Orders"), NavLink("/profile", "Profile")]
  {
    match user
    case None => [NavLink("/home", "Home"), NavLink("/books", "Books")]
    case Some(u) =>
      match u.role
      case Admin =>
        [NavLink("/admin/dashboard", "Dashboard"), NavLink("/admin/users", "Users"),
         NavLink("/admin/sellers", "Sellers"), NavLink("/admin/orders", "Orders")]
      case Seller =>
        [NavLink("/seller/dashboard", "Dashboard"), NavLink("/seller/items", "My Books"),
         NavLink("/orders", "Orders")]
      case Customer =>
        [NavLink("/home", "Home"), NavLink("/books", "Books"),
         NavLink("/orders", "My Orders"), NavLink("/profile", "Profile")]
  }

  /** Where the logo leads: the role's own start page. */
  function LogoTarget(user: Option<User>): (path: string)
    ensures Routes.IsRoute(path)
    ensures user.Some? && user.value.role == Admin ==> path == "/admin/dashboard"
    ensures user.Some? && user.value.role == Seller ==> path == "/seller/dashboard"
    ensures user.None? || user.value.role == Customer ==> path == "/home"
  {
    if user.Some? && user.value.role == Admin then "/admin/dashboard"
    else if user.Some? && user.value.role == Seller then "/seller/dashboard"
    else "/home"
  }

  /** Every header link, and the logo, leads to a page of the route table
      that the signed-in user (or visitor) is allowed to see. */
  lemma HeaderLinksAreAllowed(auth: AuthState)
    requires AuthConsistent(auth)
    ensures forall k :: 0 <= k < |NavigationLinks(auth.user)| ==>
      Routes.IsRoute(NavigationLinks(auth.user)[k].path) &&
      Routes.Access(auth, NavigationLinks(auth.user)[k].path) == Routes.Render
    ensures Routes.Access(auth, LogoTarget(auth.user)) == Routes.Render
  {
    var links := NavigationLinks(auth.user);
    forall k | 0 <= k < |links|
      ensures Routes.IsRoute(links[k].path) && Routes.Access(auth, links[k].path) == Routes.Render
    {
      var p := links[k].path;
      assert p in Routes.Paths;
      Routes.RoleAreasAreClosed(auth, p);
    }
  }

  /** The search box and the sign-out button. */
  function SearchChanged(text: string): Action {
    SetSearchQuery(text)
  }

  function SignOut(): Action {
    Logout
  }

  /** Typing in the search box sets the catalogue query and nothing else. */
  lemma SearchSetsQueryOnly(env: Env, s: AppState, text: string)
    ensures Reduce(env, s, SearchChanged(text)) == s.(searchQuery := text)
  {
  }

  /** How many wishlist entries hold the book. */
  function EntriesOf(wishlist: seq<WishlistItem>, bookId: string): nat {
    |Filter(wishlist, (w: WishlistItem) => w.book.id == bookId)|
  }

  /** The wishlist badge rises by one with each wishlist add, and a removal
      lowers it by the number of entries holding the book, so not at all
      when the book is not on the list. */
  lemma WishlistBadgeFollowsActions(env: Env, s: AppState, a: Action)
    requires IsWishlistAction(a) && CanReduce(s, a)
    ensures a.AddToWishlist? ==>
      WishlistCount(Reduce(env, s, a).wishlist) == WishlistCount(s.wishlist) + 1
    ensures a.RemoveFromWishlist? ==>
      WishlistCount(Reduce(env, s, a).wishlist) + EntriesOf(s.wishlist, a.bookId) == WishlistCount(s.wishlist)
    ensures a.RemoveFromWishlist? && (forall i :: 0 <= i < |s.wishlist| ==> s.wishlist[i].book.id != a.bookId) ==>
      WishlistCount(Reduce(env, s, a).wishlist) == WishlistCount(s.wishlist)
  {
    if a.RemoveFromWishlist? {
      var holds := (w: WishlistItem) => w.book.id == a.bookId;
      var other := (w: WishlistItem) => w.book.id != a.bookId;
      assert Reduce(env, s, a).wishlist == Filter(s.wishlist, other);
      FilterPartition(s.wishlist, holds, other);
      var held := Filter(s.wishlist, holds);
      if |held| > 0 {
        assert held[0] in s.wishlist && holds(held[0]);
      }
    }
  }
}
