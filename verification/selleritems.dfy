/** A seller's inventory page (project/src/pages/Seller/SellerItems.tsx):
    the seller's own books, the search over them, the book the form builds,
    and what saving and deleting dispatch. The form's number fields enter
    already parsed. */
module SellerItems {
  import opened Types
  import opened Seqs
  import opened AppContext
  import Catalog

  predicate OwnedBy(b: Book, sellerId: string) {
    b.sellerId == sellerId
  }

  /** `sellerBooks`: the catalogue books carrying this seller's id. */
  function SellerBooks(books: seq<Book>, sellerId: string): (r: seq<Book>)
    ensures IsSubseq(r, books)
    ensures forall b :: b in r <==> b in books && OwnedBy(b, sellerId)
    ensures forall b :: multiset(r)[b] == if OwnedBy(b, sellerId) then multiset(books)[b] else 0
  {
    var own := (b: Book) => OwnedBy(b, sellerId);
    FilterCounts(books, own);
    Filter(books, own)
  }

  /** `filteredBooks`: the seller's books matching the search box, by the
      same title, author or genre test as the catalogue. */
  function Visible(books: seq<Book>, sellerId: string, query: string): (r: seq<Book>)
    ensures IsSubseq(r, books)
    ensures forall b :: b in r <==> b in books && OwnedBy(b, sellerId) && Catalog.MatchesQuery(b, query)
    ensures forall b :: (multiset(r)[b] ==
      if OwnedBy(b, sellerId) && Catalog.MatchesQuery(b, query) then multiset(books)[b] else 0)
  {
    var mine := SellerBooks(books, sellerId);
    var matching := (b: Book) => Catalog.MatchesQuery(b, query);
    var r := Filter(mine, matching);
    SubseqTrans(r, mine, books);
    FilterCounts(mine, matching);
    r
  }

  /** The two filters are one filter by both tests, and an empty search
      shows every book of the seller. */
  lemma VisibleIsOneFilter(books: seq<Book>, sellerId: string, query: string)
    ensures Visible(books, sellerId, query) ==
      Filter(books, (b: Book) => OwnedBy(b, sellerId) && Catalog.MatchesQuery(b, query))
    ensures Visible(books, sellerId, "") == SellerBooks(books, sellerId)
  {
    FilterFilter(books, (b: Book) => OwnedBy(b, sellerId), (b: Book) => Catalog.MatchesQuery(b, query),
                 (b: Book) => OwnedBy(b, sellerId) && Catalog.MatchesQuery(b, query));
    var mine := SellerBooks(books, sellerId);
    Catalog.AllMatchEmptyQuery(mine);
    FilterKeepsAll(mine, (b: Book) => Catalog.MatchesQuery(b, ""));
  }

  /** The form's fields, with price, original price, pages and stock as the
      numbers they parse to. */
  datatype BookForm = BookForm(
    title: string, author: string, genre: string, description: string,
    price: real, originalPrice: Option<real>, isbn: string, pages: int, stock: int, image: string)

  /** `handleEdit`: the form filled in from a listed book. */
  function FormOf(b: Book): BookForm {
    BookForm(b.title, b.author, b.genre, b.description, b.price, b.originalPrice, b.isbn, b.pages, b.stock, b.image)
  }

  /** The clock readings saving uses: `Date.now()` as text and today's date
      (the date part of the ISO time). */
  datatype Clock = Clock(stamp: string, today: string)

  const DefaultImage := "https://images.pexels.com/photos/1130980/pexels-photo-1130980.jpeg"

  /** The name shown for a seller: the business name when non-empty, else
      the personal name. */
  function SellerName(u: User): (name: string)
    ensures u.businessName.Some? && u.businessName.value != "" ==> name == u.businessName.value
    ensures u.businessName.None? || u.businessName.value == "" ==> name == u.name
  {
    if u.businessName.Some? && u.businessName.value != "" then u.businessName.value else u.name
  }

  /** `bookData`: the book the form describes, for the signed-in seller;
      `editing` is the book being edited, if any. The featured and
      bestseller flags are never set. */
  function BuildBook(seller: User, editing: Option<Book>, f: BookForm, clock: Clock): Book {
    Book(if editing.Some? then editing.value.id else "book-" + clock.stamp,
         f.title, f.author, f.genre, f.description, f.price, f.originalPrice,
         if f.image != "" then f.image else DefaultImage,
         if editing.Some? then editing.value.rating else 4.5,
         if editing.Some? then editing.value.reviewCount else 0,
         f.isbn,
         if editing.Some? then editing.value.publishedDate else clock.today,
         f.pages,
         if f.stock > 0 then InStock else OutOfStock,
         None, None,
         seller.id, SellerName(seller), f.stock)
  }

  /** A saved book belongs to the seller who saved it, is in stock exactly
      when its stock is positive, and is never "limited"; a new one is rated
      4.5 with no reviews, an edited one keeps its id, rating, review count
      and publication date. */
  lemma BuiltBookFacts(seller: User, editing: Option<Book>, f: BookForm, clock: Clock)
    ensures var b := BuildBook(seller, editing, f, clock);
      OwnedBy(b, seller.id) && b.stock == f.stock &&
      (b.availability == InStock <==> f.stock > 0) && b.availability != Limited &&
      b.image != "" && b.featured.None? && b.bestseller.None? &&
      (editing.None? ==> b.id == "book-" + clock.stamp && b.rating == 4.5 && b.reviewCount == 0 &&
                          b.publishedDate == clock.today) &&
      (editing.Some? ==> b.id == editing.value.id && b.rating == editing.value.rating &&
                         b.reviewCount == editing.value.reviewCount &&
                         b.publishedDate == editing.value.publishedDate)
  {
  }

  /** Opening one of the seller's own books for editing and saving the form
      unchanged gives back the book, except that its featured and bestseller
      flags are dropped, provided its name, image and availability are the
      ones the form would compute. */
  lemma SaveUnchangedRoundTrip(seller: User, b: Book, clock: Clock)
    requires OwnedBy(b, seller.id) && b.sellerName == SellerName(seller) && b.image != ""
    requires b.availability == (if b.stock > 0 then InStock else OutOfStock)
    ensures BuildBook(seller, Some(b), FormOf(b), clock) == b.(featured := None, bestseller := None)
  {
  }

  /** `handleSubmit`: UPDATE_BOOK when editing, ADD_BOOK otherwise. */
  function SavePressed(seller: User, editing: Option<Book>, f: BookForm, clock: Clock): (act: Action)
    ensures editing.Some? <==> act.UpdateBook?
    ensures editing.None? <==> act.AddBook?
    ensures act.AddBook? || act.UpdateBook?
  {
    var b := BuildBook(seller, editing, f, clock);
    if editing.Some? then UpdateBook(b) else AddBook(b)
  }

  /** `handleDelete`: DELETE_BOOK only once the seller confirms. */
  function DeletePressed(confirmed: bool, bookId: string): (actions: seq<Action>)
    ensures actions != [] <==> confirmed
    ensures confirmed ==> actions == [DeleteBook(bookId)]
  {
    if confirmed then [DeleteBook(bookId)] else []
  }

  /** Adding a book puts it at the end of the seller's inventory and keeps
      every book that was there. */
  lemma AddShowsInInventory(env: Env, s: AppState, seller: User, f: BookForm, clock: Clock)
    ensures var b := BuildBook(seller, None, f, clock);
      var r := Reduce(env, s, SavePressed(seller, None, f, clock));
      var mine := SellerBooks(r.books, seller.id);
      b in mine && mine == SellerBooks(s.books, seller.id) + [b]
  {
    var b := BuildBook(seller, None, f, clock);
    var a := SavePressed(seller, None, f, clock);
    assert a == AddBook(b);
    assert Reduce(env, s, a).books == s.books + [b];
    FilterAppendOne(s.books, b, (x: Book) => OwnedBy(x, seller.id));
  }

  /** Saving an edit of one of the seller's books replaces every catalogue
      book with that id and leaves the others and their order alone. */
  lemma EditReplacesBook(env: Env, s: AppState, seller: User, b: Book, f: BookForm, clock: Clock)
    ensures var nb := BuildBook(seller, Some(b), f, clock);
      var r := Reduce(env, s, SavePressed(seller, Some(b), f, clock));
      |r.books| == |s.books| &&
      (forall i :: 0 <= i < |s.books| ==> r.books[i] == (if s.books[i].id == b.id then nb else s.books[i])) &&
      (b in s.books ==> nb in r.books)
  {
    var nb := BuildBook(seller, Some(b), f, clock);
    var r := Reduce(env, s, SavePressed(seller, Some(b), f, clock));
    if b in s.books {
      var k :| 0 <= k < |s.books| && s.books[k] == b;
      assert r.books[k] == nb;
    }
  }

  /** A confirmed delete leaves no book with that id in the seller's
      inventory; a cancelled one changes nothing. */
  lemma DeleteEffect(env: Env, s: AppState, sellerId: string, confirmed: bool, bookId: string)
    ensures var r := Run(env, s, DeletePressed(confirmed, bookId));
      r.Some? &&
      (!confirmed ==> r.value == s) &&
      (confirmed ==> forall b :: b in SellerBooks(r.value.books, sellerId) <==>
                                   b in SellerBooks(s.books, sellerId) && b.id != bookId) &&
      (confirmed ==> forall b :: multiset(SellerBooks(r.value.books, sellerId))[b] ==
                                   if b.id != bookId then multiset(SellerBooks(s.books, sellerId))[b] else 0)
  {
    var actions := DeletePressed(confirmed, bookId);
    if confirmed {
      var t := s.(books := BooksReduce(s.books, actions[0]));
      assert Reduce(env, s, actions[0]) == t;
      assert actions[1..] == [];
      assert Run(env, s, actions) == Run(env, t, []);
    }
  }
}
