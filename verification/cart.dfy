/** The cart slice of the reducer (project/src/context/AppContext.tsx:106-146):
    a list of lines keyed by book id. The abstract view of a cart is the
    quantity it holds of each book id, `QuantityOf`. */
module CartOps {
  import opened Types
  import opened Seqs

  predicate HasLine(cart: seq<CartItem>, bookId: string) {
    exists i | 0 <= i < |cart| :: cart[i].book.id == bookId
  }

  /** How many copies of the book the cart holds, over all its lines. */
  function QuantityOf(cart: seq<CartItem>, bookId: string): int {
    if |cart| == 0 then 0
    else (if cart[0].book.id == bookId then cart[0].quantity else 0) + QuantityOf(cart[1..], bookId)
  }

  /** The sum of all line quantities (the header's cart badge). */
  function TotalQuantity(cart: seq<CartItem>): int {
    if |cart| == 0 then 0 else cart[0].quantity + TotalQuantity(cart[1..])
  }

  /** At most one line per book id. */
  predicate UniqueBooks(cart: seq<CartItem>) {
    forall i, j :: 0 <= i < j < |cart| ==> cart[i].book.id != cart[j].book.id
  }

  predicate QuantitiesPositive(cart: seq<CartItem>) {
    forall i :: 0 <= i < |cart| ==> cart[i].quantity >= 1
  }

  /** The shape every cart the reducer builds keeps. */
  predicate CartWf(cart: seq<CartItem>) {
    UniqueBooks(cart) && QuantitiesPositive(cart)
  }

  /** ADD_TO_CART: bump the existing line in place, else append a line of one. */
  function AddToCart(cart: seq<CartItem>, book: Book): (r: seq<CartItem>)
    ensures HasLine(r, book.id)
    ensures HasLine(cart, book.id) ==> |r| == |cart|
    ensures HasLine(cart, book.id) ==> forall i :: 0 <= i < |cart| ==>
      r[i].book == cart[i].book &&
      r[i].quantity == cart[i].quantity + (if cart[i].book.id == book.id then 1 else 0)
    ensures !HasLine(cart, book.id) ==> r == cart + [CartItem(book, 1)]
  {
    if HasLine(cart, book.id) then
      MapSeq(cart, (item: CartItem) =>
        if item.book.id == book.id then item.(quantity := item.quantity + 1) else item)
    else
      var r := cart + [CartItem(book, 1)];
      assert r[|cart|].book.id == book.id;
      r
  }

  /** REMOVE_FROM_CART: drop every line of that book. */
  function RemoveFromCart(cart: seq<CartItem>, bookId: string): (r: seq<CartItem>)
    ensures !HasLine(r, bookId)
    ensures IsSubseq(r, cart)
    ensures forall i :: 0 <= i < |cart| && cart[i].book.id != bookId ==> cart[i] in r
    ensures forall line :: multiset(r)[line] == if line.book.id != bookId then multiset(cart)[line] else 0
  {
    var other := (item: CartItem) => item.book.id != bookId;
    FilterCounts(cart, other);
    Filter(cart, other)
  }

  /** UPDATE_CART_QUANTITY: a quantity of zero or less removes the book's
      lines, exactly as REMOVE_FROM_CART does, and keeps every other line. */
  function UpdateQuantity(cart: seq<CartItem>, bookId: string, quantity: int): (r: seq<CartItem>)
    ensures quantity <= 0 ==> r == RemoveFromCart(cart, bookId)
    ensures quantity <= 0 ==> !HasLine(r, bookId) && IsSubseq(r, cart)
    ensures quantity <= 0 ==>
      forall line :: multiset(r)[line] == if line.book.id != bookId then multiset(cart)[line] else 0
    ensures quantity > 0 ==> |r| == |cart| && forall i :: 0 <= i < |cart| ==>
      r[i].book == cart[i].book &&
      r[i].quantity == (if cart[i].book.id == bookId then quantity else cart[i].quantity)
  {
    if quantity <= 0 then RemoveFromCart(cart, bookId)
    else
      MapSeq(cart, (item: CartItem) =>
        if item.book.id == bookId then item.(quantity := quantity) else item)
  }

  // ----- counting lemmas -----

  lemma {:induction false} QuantityOfAbsent(cart: seq<CartItem>, bookId: string)
    requires !HasLine(cart, bookId)
    ensures QuantityOf(cart, bookId) == 0
  {
    if |cart| > 0 {
      assert !HasLine(cart[1..], bookId) by {
        forall i | 0 <= i < |cart[1..]| ensures cart[1..][i].book.id != bookId {
          assert cart[1..][i] == cart[i + 1];
        }
      }
      QuantityOfAbsent(cart[1..], bookId);
    }
  }

  lemma {:induction false} QuantityOfAppend(cart: seq<CartItem>, line: CartItem, bookId: string)
    ensures QuantityOf(cart + [line], bookId)
         == QuantityOf(cart, bookId) + (if line.book.id == bookId then line.quantity else 0)
  {
    if |cart| > 0 {
      assert (cart + [line])[1..] == cart[1..] + [line];
      QuantityOfAppend(cart[1..], line, bookId);
    }
  }

  lemma {:induction false} TotalQuantityAppend(cart: seq<CartItem>, line: CartItem)
    ensures TotalQuantity(cart + [line]) == TotalQuantity(cart) + line.quantity
  {
    if |cart| > 0 {
      assert (cart + [line])[1..] == cart[1..] + [line];
      TotalQuantityAppend(cart[1..], line);
    }
  }

  /** Two carts with the same books line by line whose quantities differ
      only at line `k`, by `delta`. */
  ghost predicate DifferAt(a: seq<CartItem>, b: seq<CartItem>, k: int, delta: int) {
    && |a| == |b| && 0 <= k < |a|
    && (forall i :: 0 <= i < |a| ==> a[i].book == b[i].book)
    && (forall i :: 0 <= i < |a| && i != k ==> a[i].quantity == b[i].quantity)
    && b[k].quantity == a[k].quantity + delta
  }

  lemma {:induction false} DifferAtCounts(a: seq<CartItem>, b: seq<CartItem>, k: int, delta: int, bookId: string)
    requires DifferAt(a, b, k, delta)
    ensures TotalQuantity(b) == TotalQuantity(a) + delta
    ensures QuantityOf(b, bookId)
         == QuantityOf(a, bookId) + (if a[k].book.id == bookId then delta else 0)
    decreases k
  {
    if k == 0 {
      SameQuantities(a[1..], b[1..], bookId);
    } else {
      DifferAtCounts(a[1..], b[1..], k - 1, delta, bookId);
    }
  }

  lemma {:induction false} SameQuantities(a: seq<CartItem>, b: seq<CartItem>, bookId: string)
    requires |a| == |b|
    requires forall i :: 0 <= i < |a| ==> a[i].book == b[i].book && a[i].quantity == b[i].quantity
    ensures TotalQuantity(a) == TotalQuantity(b)
    ensures QuantityOf(a, bookId) == QuantityOf(b, bookId)
  {
    if |a| > 0 {
      SameQuantities(a[1..], b[1..], bookId);
    }
  }

  /** The line index of a book present in the cart. */
  function LineOf(cart: seq<CartItem>, bookId: string): (k: int)
    requires HasLine(cart, bookId)
    ensures 0 <= k < |cart| && cart[k].book.id == bookId
  {
    if cart[0].book.id == bookId then 0
    else
      assert HasLine(cart[1..], bookId) by {
        var i :| 0 <= i < |cart| && cart[i].book.id == bookId;
        assert cart[1..][i - 1] == cart[i];
      }
      1 + LineOf(cart[1..], bookId)
  }

  // ----- properties of the cart actions -----

  /** ADD_TO_CART keeps one line per book and every quantity at least one,
      adds exactly one copy of the book and of nothing else, and raises the
      badge count by one. */
  lemma AddToCartEffect(cart: seq<CartItem>, book: Book)
    requires CartWf(cart)
    ensures CartWf(AddToCart(cart, book))
    ensures QuantityOf(AddToCart(cart, book), book.id) == QuantityOf(cart, book.id) + 1
    ensures forall other :: other != book.id ==>
      QuantityOf(AddToCart(cart, book), other) == QuantityOf(cart, other)
    ensures TotalQuantity(AddToCart(cart, book)) == TotalQuantity(cart) + 1
  {
    var r := AddToCart(cart, book);
    if HasLine(cart, book.id) {
      var k := LineOf(cart, book.id);
      assert DifferAt(cart, r, k, 1);
      DifferAtCounts(cart, r, k, 1, book.id);
      forall other | other != book.id
        ensures QuantityOf(r, other) == QuantityOf(cart, other)
      {
        DifferAtCounts(cart, r, k, 1, other);
      }
    } else {
      QuantityOfAppend(cart, CartItem(book, 1), book.id);
      TotalQuantityAppend(cart, CartItem(book, 1));
      forall other | other != book.id
        ensures QuantityOf(r, other) == QuantityOf(cart, other)
      {
        QuantityOfAppend(cart, CartItem(book, 1), other);
      }
    }
  }

  lemma {:induction false} RemoveFromCartCounts(cart: seq<CartItem>, bookId: string, other: string)
    ensures QuantityOf(RemoveFromCart(cart, bookId), bookId) == 0
    ensures other != bookId ==> QuantityOf(RemoveFromCart(cart, bookId), other) == QuantityOf(cart, other)
  {
    QuantityOfAbsent(RemoveFromCart(cart, bookId), bookId);
    if |cart| > 0 {
      RemoveFromCartCounts(cart[1..], bookId, other);
      if cart[0].book.id != bookId {
        var rest := RemoveFromCart(cart[1..], bookId);
        assert RemoveFromCart(cart, bookId) == [cart[0]] + rest;
        assert ([cart[0]] + rest)[1..] == rest;
      }
    }
  }

  /** REMOVE_FROM_CART takes every copy of the book out, keeps the rest,
      and keeps the cart well formed. */
  lemma RemoveFromCartEffect(cart: seq<CartItem>, bookId: string)
    requires CartWf(cart)
    ensures CartWf(RemoveFromCart(cart, bookId))
    ensures QuantityOf(RemoveFromCart(cart, bookId), bookId) == 0
    ensures forall other :: other != bookId ==>
      QuantityOf(RemoveFromCart(cart, bookId), other) == QuantityOf(cart, other)
  {
    RemoveFromCartCounts(cart, bookId, bookId);
    forall other | other != bookId
      ensures QuantityOf(RemoveFromCart(cart, bookId), other) == QuantityOf(cart, other)
    {
      RemoveFromCartCounts(cart, bookId, other);
    }
    SubseqKeepsWf(RemoveFromCart(cart, bookId), cart);
  }

  lemma {:induction false} SubseqKeepsWf(r: seq<CartItem>, cart: seq<CartItem>)
    requires IsSubseq(r, cart) && CartWf(cart)
    ensures CartWf(r)
    decreases |cart|
  {
    if |r| > 0 {
      assert CartWf(cart[1..]) by {
        assert forall i, j :: 0 <= i < j < |cart[1..]| ==> cart[1..][i] == cart[i + 1] && cart[1..][j] == cart[j + 1];
      }
      if r[0] == cart[0] && IsSubseq(r[1..], cart[1..]) {
        SubseqKeepsWf(r[1..], cart[1..]);
        SubseqElements(r[1..], cart[1..]);
        forall j | 0 < j < |r| ensures r[0].book.id != r[j].book.id {
          assert r[j] == r[1..][j - 1];
          var m :| 0 <= m < |cart[1..]| && cart[1..][m] == r[j];
          assert cart[m + 1] == r[j];
        }
        forall i | 0 <= i < |r| ensures r[i].quantity >= 1 {
          if i > 0 { assert r[i] == r[1..][i - 1]; }
        }
      } else {
        SubseqKeepsWf(r, cart[1..]);
      }
    }
  }

  lemma {:induction false} SubseqElements<T>(r: seq<T>, s: seq<T>)
    requires IsSubseq(r, s)
    ensures forall j :: 0 <= j < |r| ==> exists m :: 0 <= m < |s| && s[m] == r[j]
    decreases |s|
  {
    if |r| > 0 {
      if r[0] == s[0] && IsSubseq(r[1..], s[1..]) {
        SubseqElements(r[1..], s[1..]);
        forall j | 0 <= j < |r| ensures exists m :: 0 <= m < |s| && s[m] == r[j] {
          if j == 0 {
            assert s[0] == r[0];
          } else {
            assert r[j] == r[1..][j - 1];
            var m :| 0 <= m < |s[1..]| && s[1..][m] == r[j];
            assert s[m + 1] == r[j];
          }
        }
      } else {
        SubseqElements(r, s[1..]);
        forall j | 0 <= j < |r| ensures exists m :: 0 <= m < |s| && s[m] == r[j] {
          var m :| 0 <= m < |s[1..]| && s[1..][m] == r[j];
          assert s[m + 1] == r[j];
        }
      }
    }
  }

  /** UPDATE_CART_QUANTITY with a positive quantity sets the book's quantity,
      leaves every other book alone and keeps the cart well formed. */
  lemma UpdateQuantityEffect(cart: seq<CartItem>, bookId: string, quantity: int)
    requires CartWf(cart) && quantity > 0
    ensures CartWf(UpdateQuantity(cart, bookId, quantity))
    ensures QuantityOf(UpdateQuantity(cart, bookId, quantity), bookId)
         == (if HasLine(cart, bookId) then quantity else 0)
    ensures forall other :: other != bookId ==>
      QuantityOf(UpdateQuantity(cart, bookId, quantity), other) == QuantityOf(cart, other)
  {
    var r := UpdateQuantity(cart, bookId, quantity);
    if HasLine(cart, bookId) {
      var k := LineOf(cart, bookId);
      assert DifferAt(cart, r, k, quantity - cart[k].quantity);
      DifferAtCounts(cart, r, k, quantity - cart[k].quantity, bookId);
      QuantityOfLine(cart, k);
      forall other | other != bookId
        ensures QuantityOf(r, other) == QuantityOf(cart, other)
      {
        DifferAtCounts(cart, r, k, quantity - cart[k].quantity, other);
      }
    } else {
      SameQuantities(cart, r, bookId);
      QuantityOfAbsent(r, bookId);
      forall other ensures QuantityOf(r, other) == QuantityOf(cart, other) {
        SameQuantities(cart, r, other);
      }
    }
  }

  /** With one line per book, the quantity of a book is that of its line. */
  lemma {:induction false} QuantityOfLine(cart: seq<CartItem>, k: int)
    requires UniqueBooks(cart) && 0 <= k < |cart|
    ensures QuantityOf(cart, cart[k].book.id) == cart[k].quantity
  {
    var id := cart[k].book.id;
    if k == 0 {
      assert !HasLine(cart[1..], id) by {
        forall i | 0 <= i < |cart[1..]| ensures cart[1..][i].book.id != id {
          assert cart[1..][i] == cart[i + 1];
        }
      }
      QuantityOfAbsent(cart[1..], id);
    } else {
      assert cart[1..][k - 1] == cart[k];
      assert UniqueBooks(cart[1..]) by {
        forall i, j | 0 <= i < j < |cart[1..]|
          ensures cart[1..][i].book.id != cart[1..][j].book.id
        {
          assert cart[1..][i] == cart[i + 1] && cart[1..][j] == cart[j + 1];
        }
      }
      QuantityOfLine(cart[1..], k - 1);
    }
  }

  /** `n` successive ADD_TO_CART of the same book. */
  function AddTimes(cart: seq<CartItem>, book: Book, n: nat): seq<CartItem> {
    if n == 0 then cart else AddToCart(AddTimes(cart, book, n - 1), book)
  }

  /** Adding a book `n >= 1` times to a cart without it leaves exactly one
      line for it, with quantity `n`. */
  lemma {:induction false} AddTimesCounts(cart: seq<CartItem>, book: Book, n: nat)
    requires CartWf(cart)
    ensures CartWf(AddTimes(cart, book, n))
    ensures QuantityOf(AddTimes(cart, book, n), book.id) == QuantityOf(cart, book.id) + n
    ensures n >= 1 ==> HasLine(AddTimes(cart, book, n), book.id)
  {
    if n > 0 {
      AddTimesCounts(cart, book, n - 1);
      AddToCartEffect(AddTimes(cart, book, n - 1), book);
    }
  }

  /** The line of a book in a well-formed cart carries the whole quantity. */
  lemma OnlyLineHoldsQuantity(cart: seq<CartItem>, bookId: string)
    requires CartWf(cart) && HasLine(cart, bookId)
    ensures cart[LineOf(cart, bookId)].quantity == QuantityOf(cart, bookId)
    ensures forall i :: 0 <= i < |cart| && cart[i].book.id == bookId ==> i == LineOf(cart, bookId)
  {
    QuantityOfLine(cart, LineOf(cart, bookId));
  }
}
