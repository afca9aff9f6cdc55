/** A book tile (project/src/components/Books/BookCard.tsx): the wishlist
    test, when its wishlist and cart buttons exist and are enabled, what a
    press dispatches, and the availability caption. */
module BookCard {
  import opened Types
  import opened AppContext
  import CartOps
  import ReducerProperties

  /** `isInWishlist`: some entry is for this book id. */
  predicate IsInWishlist(wishlist: seq<WishlistItem>, book: Book) {
    exists i | 0 <= i < |wishlist| :: wishlist[i].book.id == book.id
  }

  /** The buttons exist for customers only. */
  predicate IsCustomer(user: Option<User>) {
    user.Some? && user.value.role == Customer
  }

  /** A press on the heart: nothing when the button is absent or disabled. */
  function WishlistPressed(s: AppState, book: Book): (actions: seq<Action>)
    ensures actions != [] <==> IsCustomer(s.auth.user) && !IsInWishlist(s.wishlist, book)
    ensures actions != [] ==> actions == [AddToWishlist(book)]
  {
    if IsCustomer(s.auth.user) && !IsInWishlist(s.wishlist, book) then [AddToWishlist(book)] else []
  }

  /** A press on "Add to Cart": the button exists for customers when the
      card shows it, and is disabled for a book out of stock. */
  function CartPressed(s: AppState, book: Book, showAddToCart: bool): (actions: seq<Action>)
    ensures actions != [] <==> showAddToCart && IsCustomer(s.auth.user) && book.availability != OutOfStock
    ensures actions != [] ==> actions == [AddToCart(book)]
  {
    if showAddToCart && IsCustomer(s.auth.user) && book.availability != OutOfStock then [AddToCart(book)] else []
  }

  /** A press on "Add to Cart" never throws and changes only the cart,
      which stays well formed. An enabled press adds one copy of the book
      and leaves every other book's count; an out-of-stock book changes
      nothing. */
  lemma CartPressKeepsWf(env: Env, s: AppState, book: Book, showAddToCart: bool)
    requires CartOps.CartWf(s.cart)
    ensures var actions := CartPressed(s, book, showAddToCart);
      var r := Run(env, s, actions);
      r.Some? && CartOps.CartWf(r.value.cart) && r.value == s.(cart := r.value.cart) &&
      (book.availability == OutOfStock ==> r.value == s) &&
      CartOps.QuantityOf(r.value.cart, book.id) ==
        CartOps.QuantityOf(s.cart, book.id) + (if actions == [] then 0 else 1) &&
      forall other :: other != book.id ==>
        CartOps.QuantityOf(r.value.cart, other) == CartOps.QuantityOf(s.cart, other)
  {
    var actions := CartPressed(s, book, showAddToCart);
    if actions != [] {
      var t := s.(cart := CartOps.AddToCart(s.cart, book));
      ReducerProperties.CartStep(env, s, actions[0]);
      CartOps.AddToCartEffect(s.cart, book);
      assert actions[1..] == [];
      assert Run(env, s, actions) == Run(env, t, []);
    }
  }

  /** At most one wishlist entry per book id. */
  predicate WishlistBooksUnique(wishlist: seq<WishlistItem>) {
    forall i, j :: 0 <= i < j < |wishlist| ==> wishlist[i].book.id != wishlist[j].book.id
  }

  /** A heart press never throws, never duplicates an entry, and leaves the
      book in the wishlist whenever the press was allowed. */
  lemma WishlistPressKeepsUnique(env: Env, s: AppState, book: Book)
    requires WishlistBooksUnique(s.wishlist)
    ensures var r := Run(env, s, WishlistPressed(s, book));
      r.Some? && WishlistBooksUnique(r.value.wishlist) &&
      (IsCustomer(s.auth.user) ==> IsInWishlist(r.value.wishlist, book))
  {
    var actions := WishlistPressed(s, book);
    if actions != [] {
      var a := actions[0];
      var w := WishlistReduce(env, s, a);
      var t := s.(wishlist := w);
      assert Reduce(env, s, a) == t;
      assert actions[1..] == [];
      assert Run(env, s, actions) == Run(env, t, []);
      var n := |s.wishlist|;
      assert w[n].book.id == book.id;
      forall i, j | 0 <= i < j < |w| ensures w[i].book.id != w[j].book.id {
        if j == n {
          assert w[i] == s.wishlist[i];
        } else {
          assert w[i] == s.wishlist[i] && w[j] == s.wishlist[j];
        }
      }
    }
  }

  /** `getAvailabilityText`, over the availability tag. */
  function AvailabilityText(tag: string): (caption: string)
    ensures tag == "in-stock" ==> caption == "In Stock"
    ensures tag == "limited" ==> caption == "Limited Stock"
    ensures tag == "out-of-stock" ==> caption == "Out of Stock"
    ensures caption == "Unknown" <==> tag !in {"in-stock", "limited", "out-of-stock"}
  {
    if tag == "in-stock" then "In Stock"
    else if tag == "limited" then "Limited Stock"
    else if tag == "out-of-stock" then "Out of Stock"
    else "Unknown"
  }

  /** Every availability a book can have has a caption of its own: the
      "Unknown" branch is never reached, and distinct availabilities read
      differently. */
  lemma AvailabilityTextKnown(a: Availability, b: Availability)
    ensures AvailabilityText(a.Tag()) != "Unknown"
    ensures a != b ==> AvailabilityText(a.Tag()) != AvailabilityText(b.Tag())
  {
  }
}
