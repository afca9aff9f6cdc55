/** The administrator's seller list (project/src/pages/Admin/SellersPage.tsx):
    the search and status filters, the counters, each seller's books
    and orders, and the approve button. */
module SellersPage {
  import opened Types
  import opened Seqs
  import opened Text
  import opened AppContext
  import SellerItems
  import CartPage

  predicate IsSeller(u: User) {
    u.role == Seller
  }

  /** The search box: name, email or a non-empty business name contains
      the query, ignoring case. */
  predicate MatchesSellerQuery(u: User, query: string) {
    ContainsIgnoringCase(u.name, query) || ContainsIgnoringCase(u.email, query) ||
    (u.businessName.Some? && u.businessName.value != "" && ContainsIgnoringCase(u.businessName.value, query))
  }

  /** The status menu; a value other than the three it offers keeps nobody. */
  predicate MatchesStatus(u: User, status: string) {
    status == "all" ||
    (status == "approved" && IsTrue(u.isApproved)) ||
    (status == "pending" && !IsTrue(u.isApproved))
  }

  predicate Listed(u: User, query: string, status: string) {
    MatchesSellerQuery(u, query) && MatchesStatus(u, status)
  }

  function AllSellers(users: seq<User>): seq<User> {
    Filter(users, IsSeller)
  }

  /** `sellers`: the sellers among the users that pass both filters, in
      user-list order. */
  function Sellers(users: seq<User>, query: string, status: string): (r: seq<User>)
    ensures IsSubseq(r, users)
    ensures forall u :: u in r <==> u in users && IsSeller(u) && Listed(u, query, status)
    ensures forall u :: multiset(r)[u] == if IsSeller(u) && Listed(u, query, status) then multiset(users)[u] else 0
  {
    var sellers := AllSellers(users);
    var listed := (u: User) => Listed(u, query, status);
    var r := Filter(sellers, listed);
    SubseqTrans(r, sellers, users);
    FilterCounts(users, IsSeller);
    FilterCounts(sellers, listed);
    r
  }

  function ApprovedCount(sellers: seq<User>): nat {
    |Filter(sellers, (u: User) => IsTrue(u.isApproved))|
  }

  function PendingCount(sellers: seq<User>): nat {
    |Filter(sellers, (u: User) => !IsTrue(u.isApproved))|
  }

  /** Both counters count within the sellers the menu lists, whatever its
      setting, so together they always make up that list; under "approved"
      the pending counter reads 0, and under "pending" the approved one
      does. */
  lemma CountersSplitSellers(users: seq<User>, query: string, status: string)
    ensures var listed := Sellers(users, query, status);
      ApprovedCount(listed) + PendingCount(listed) == |listed| &&
      (status == "approved" ==> ApprovedCount(listed) == |listed| && PendingCount(listed) == 0) &&
      (status == "pending" ==> PendingCount(listed) == |listed| && ApprovedCount(listed) == 0)
  {
    var listed := Sellers(users, query, status);
    var approved := (u: User) => IsTrue(u.isApproved);
    var pending := (u: User) => !IsTrue(u.isApproved);
    FilterPartition(listed, approved, pending);
    if status == "approved" {
      assert forall i :: 0 <= i < |listed| ==> listed[i] in listed && approved(listed[i]);
      FilterKeepsAll(listed, approved);
    } else if status == "pending" {
      assert forall i :: 0 <= i < |listed| ==> listed[i] in listed && pending(listed[i]);
      FilterKeepsAll(listed, pending);
    }
  }

  /** Under "all", each counter counts what the matching menu setting
      would list. */
  lemma CountersUnderAll(users: seq<User>, query: string)
    ensures var all := Sellers(users, query, "all");
      ApprovedCount(all) == |Sellers(users, query, "approved")| &&
      PendingCount(all) == |Sellers(users, query, "pending")|
  {
    var base := AllSellers(users);
    var approved := (u: User) => IsTrue(u.isApproved);
    var pending := (u: User) => !IsTrue(u.isApproved);
    FilterFilter(base, (u: User) => Listed(u, query, "all"), approved, (u: User) => Listed(u, query, "approved"));
    FilterFilter(base, (u: User) => Listed(u, query, "all"), pending, (u: User) => Listed(u, query, "pending"));
  }

  /** `getSellerOrders`: the orders whose seller is this one. */
  function SellerOrders(orders: seq<Order>, sellerId: string): (r: seq<Order>)
    ensures IsSubseq(r, orders)
    ensures forall o :: o in r <==> o in orders && o.sellerId == Some(sellerId)
    ensures forall o :: multiset(r)[o] == if o.sellerId == Some(sellerId) then multiset(orders)[o] else 0
  {
    var theirs := (o: Order) => o.sellerId == Some(sellerId);
    FilterCounts(orders, theirs);
    Filter(orders, theirs)
  }

  /** The book belongs to one of the listed sellers. */
  predicate ByListedSeller(b: Book, sellers: seq<User>) {
    exists i :: 0 <= i < |sellers| && sellers[i].id == b.sellerId
  }

  /** "Total Books Listed" counts these: every copy of each catalogue book
      of a listed seller, in catalogue order. */
  function BooksListed(books: seq<Book>, sellers: seq<User>): (r: seq<Book>)
    ensures IsSubseq(r, books)
    ensures forall b :: b in r <==> b in books && ByListedSeller(b, sellers)
    ensures forall b :: multiset(r)[b] == if ByListedSeller(b, sellers) then multiset(books)[b] else 0
  {
    var listed := (b: Book) => ByListedSeller(b, sellers);
    FilterCounts(books, listed);
    Filter(books, listed)
  }

  /** Every book a listed seller shows on their card counts towards the
      total. */
  lemma SellerBooksAreListed(books: seq<Book>, sellers: seq<User>, k: int)
    requires 0 <= k < |sellers|
    ensures forall b :: b in SellerItems.SellerBooks(books, sellers[k].id) ==> b in BooksListed(books, sellers)
  {
  }

  /** Approve (and Reject) appear only for a seller not yet approved. */
  predicate OffersApprove(u: User) {
    !IsTrue(u.isApproved)
  }

  function ApprovePressed(u: User): (actions: seq<Action>)
    ensures actions != [] <==> OffersApprove(u)
    ensures actions != [] ==> actions == [ApproveSeller(u.id)]
  {
    if OffersApprove(u) then [ApproveSeller(u.id)] else []
  }

  /** Approving a listed pending seller moves them from the "pending" view
      to the "approved" one, changes nothing else about them, and never
      unapproves anybody. */
  lemma ApproveMovesSeller(env: Env, s: AppState, k: int, query: string)
    requires 0 <= k < |s.users| && OffersApprove(s.users[k])
    ensures var r := Run(env, s, ApprovePressed(s.users[k]));
      var u := s.users[k];
      r.Some? && |r.value.users| == |s.users| &&
      r.value.users[k] == u.(isApproved := Some(true)) &&
      (Listed(u, query, "pending") ==> Listed(r.value.users[k], query, "approved")) &&
      !MatchesStatus(r.value.users[k], "pending") &&
      (forall i :: 0 <= i < |s.users| && IsTrue(s.users[i].isApproved) ==> IsTrue(r.value.users[i].isApproved))
  {
    var actions := ApprovePressed(s.users[k]);
    var t := s.(users := UsersReduce(s.users, actions[0]));
    assert Reduce(env, s, actions[0]) == t;
    assert actions[1..] == [];
    assert Run(env, s, actions) == Run(env, t, []);
    assert t.users[k].(isApproved := s.users[k].isApproved) == s.users[k];
  }

  /** An order placed from the cart carries no seller, so no seller's
      order list changes at checkout. */
  lemma CheckoutInvisibleToSellers(env: Env, s: AppState, paymentMethod: string, total: real,
                                   clock: CartPage.Clock, sellerId: string)
    requires AuthConsistent(s.auth)
    ensures var r := Run(env, s, CartPage.Checkout(s, paymentMethod, total, clock));
      r.Some? &&
      SellerOrders(r.value.orders, sellerId) == SellerOrders(s.orders, sellerId)
  {
    var actions := CartPage.Checkout(s, paymentMethod, total, clock);
    if CartPage.CanCheckout(s) {
      var a := actions[0];
      var t := OrdersReduce(s, a);
      assert Reduce(env, s, a) == t;
      assert actions[1..] == [];
      assert Run(env, s, actions) == Run(env, t, []);
      assert t.orders[0].sellerId.None?;
      assert t.orders[1..] == s.orders;
    }
  }

  /** Deleting a user (the DELETE_USER case of the reducer) takes every
      record with that id off the seller list, under any search and status,
      and leaves every other listed seller listed as often as before. */
  lemma DeleteUserUnlists(users: seq<User>, userId: string, query: string, status: string)
    ensures var kept := UsersReduce(users, DeleteUser(userId));
      forall u :: multiset(Sellers(kept, query, status))[u] ==
                  if u.id == userId then 0 else multiset(Sellers(users, query, status))[u]
  {
    var kept := UsersReduce(users, DeleteUser(userId));
    forall u ensures multiset(Sellers(kept, query, status))[u] ==
                     if u.id == userId then 0 else multiset(Sellers(users, query, status))[u]
    {
      var shown := IsSeller(u) && Listed(u, query, status);
      assert multiset(Sellers(kept, query, status))[u] == if shown then multiset(kept)[u] else 0;
      assert multiset(Sellers(users, query, status))[u] == if shown then multiset(users)[u] else 0;
      assert multiset(kept)[u] == if u.id != userId then multiset(users)[u] else 0;
    }
  }
}
