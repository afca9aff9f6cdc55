/** The wishlist page (project/src/pages/Wishlist.tsx): removing an entry,
    and "move to cart", which is two dispatches in a row rather than one
    action of its own. */
module WishlistPage {
  import opened Types
  import opened Seqs
  import opened AppContext
  import CartOps
  import ReducerProperties

  /** `removeFromWishlist`: one REMOVE_FROM_WISHLIST of the book. */
  function RemovePressed(bookId: string): seq<Action> {
    [RemoveFromWishlist(bookId)]
  }

  /** The trash button never throws and changes only the wishlist: every
      entry of the book goes, and every other entry stays, in order and as
      many times as before. */
  lemma RemoveEffect(env: Env, s: AppState, bookId: string)
    ensures var r := Run(env, s, RemovePressed(bookId));
      r.Some? && r.value == s.(wishlist := r.value.wishlist) &&
      IsSubseq(r.value.wishlist, s.wishlist) &&
      (forall w :: w in r.value.wishlist <==> w in s.wishlist && w.book.id != bookId) &&
      (forall w :: multiset(r.value.wishlist)[w] == if w.book.id != bookId then multiset(s.wishlist)[w] else 0)
  {
    var actions := RemovePressed(bookId);
    var t := s.(wishlist := WishlistReduce(env, s, actions[0]));
    assert Reduce(env, s, actions[0]) == t;
    assert actions[1..] == [];
    assert Run(env, s, actions) == Run(env, t, []);
  }

  /** `addToCart` of the page: ADD_TO_CART, then REMOVE_FROM_WISHLIST. */
  function MoveToCart(book: Book): seq<Action> {
    [AddToCart(book), RemoveFromWishlist(book.id)]
  }

  /** Moving a book to the cart adds one copy of it, drops every wishlist
      entry of it, and keeps the other entries and the cart's shape. */
  lemma MoveToCartEffect(env: Env, s: AppState, book: Book)
    requires CartOps.CartWf(s.cart)
    ensures var r := Run(env, s, MoveToCart(book));
      r.Some? && CartOps.CartWf(r.value.cart) &&
      CartOps.QuantityOf(r.value.cart, book.id) == CartOps.QuantityOf(s.cart, book.id) + 1 &&
      (forall other :: other != book.id ==>
        CartOps.QuantityOf(r.value.cart, other) == CartOps.QuantityOf(s.cart, other)) &&
      IsSubseq(r.value.wishlist, s.wishlist) &&
      (forall w :: w in r.value.wishlist <==> w in s.wishlist && w.book.id != book.id) &&
      (forall w :: multiset(r.value.wishlist)[w] == if w.book.id != book.id then multiset(s.wishlist)[w] else 0)
  {
    var acts := MoveToCart(book);
    var t1 := s.(cart := CartReduce(s.cart, acts[0]));
    var t2 := t1.(wishlist := WishlistReduce(env, t1, acts[1]));
    ReducerProperties.CartStep(env, s, acts[0]);
    ReducerProperties.WishlistStep(env, t1, acts[1]);
    assert acts[1..][1..] == [];
    assert Run(env, s, acts) == Run(env, t1, acts[1..]);
    assert Run(env, t1, acts[1..]) == Run(env, t2, []);
    CartOps.AddToCartEffect(s.cart, book);
  }

  /** The same two steps in the other order give the same state: the cart
      and the wishlist are independent slices. */
  lemma MoveToCartOrderIrrelevant(env: Env, s: AppState, book: Book)
    ensures Run(env, s, MoveToCart(book)) == Run(env, s, [RemoveFromWishlist(book.id), AddToCart(book)])
  {
    var acts := MoveToCart(book);
    var swapped := [RemoveFromWishlist(book.id), AddToCart(book)];
    var c := CartReduce(s.cart, acts[0]);
    var w := WishlistReduce(env, s, acts[1]);
    var t1 := s.(cart := c);
    var u1 := s.(wishlist := w);
    ReducerProperties.CartStep(env, s, acts[0]);
    ReducerProperties.WishlistStep(env, t1, acts[1]);
    ReducerProperties.WishlistStep(env, s, swapped[0]);
    ReducerProperties.CartStep(env, u1, swapped[1]);
    assert acts[1..][1..] == [] && swapped[1..][1..] == [];
    assert Run(env, s, acts) == Run(env, t1, acts[1..]);
    assert Run(env, s, swapped) == Run(env, u1, swapped[1..]);
  }
}
