/** The domain records of the bookstore (project/src/types/index.ts).
    Optional TypeScript fields (`x?: T`) and nullable references (`T | null`)
    become `Option<T>`; money and ratings are carried as `real` and never
    computed with. */
module Types {

  datatype Option<+T> = None | Some(value: T)

  /** JavaScript truthiness of an optional flag: only `true` is truthy. */
  predicate IsTrue(flag: Option<bool>) {
    flag == Some(true)
  }

  /** `s || undefined`: the empty string is falsy and becomes `undefined`. */
  function NonEmpty(s: string): (r: Option<string>)
    ensures r.None? <==> s == ""
    ensures r.Some? ==> r.value == s
  {
    if s == "" then None else Some(s)
  }

  /** `o || ''`: an absent optional string reads as the empty string. */
  function OrEmpty(o: Option<string>): (r: string)
    ensures o.Some? ==> r == o.value
    ensures o.None? ==> r == ""
  {
    match o
    case None => ""
    case Some(s) => s
  }

  /** `Customer` is the role the source tags `'user'`. */
  datatype Role = Customer | Seller | Admin

  datatype Availability = InStock | OutOfStock | Limited {
    /** The string tag the TypeScript union uses. */
    function Tag(): string {
      match this
      case InStock => "in-stock"
      case OutOfStock => "out-of-stock"
      case Limited => "limited"
    }
  }

  datatype OrderStatus = Pending | Confirmed | Shipped | Delivered | Cancelled

  datatype Book = Book(
    id: string,
    title: string,
    author: string,
    genre: string,
    description: string,
    price: real,
    originalPrice: Option<real>,
    image: string,
    rating: real,
    reviewCount: int,
    isbn: string,
    publishedDate: string,
    pages: int,
    availability: Availability,
    featured: Option<bool>,
    bestseller: Option<bool>,
    sellerId: string,
    sellerName: string,
    stock: int)

  datatype Address = Address(
    id: string,
    addressLabel: string,  // `label` in TypeScript; a reserved word in Dafny
    name: string,
    street: string,
    apartment: Option<string>,
    city: string,
    state: Option<string>,
    zipCode: string,
    country: string,
    phone: Option<string>,
    isDefault: Option<bool>)

  datatype Preferences = Preferences(favoriteGenres: seq<string>, notifications: bool)

  datatype User = User(
    id: string,
    name: string,
    email: string,
    avatar: Option<string>,
    role: Role,
    businessName: Option<string>,
    addresses: Option<seq<Address>>,
    defaultAddressId: Option<string>,
    preferences: Preferences,
    isApproved: Option<bool>,
    joinDate: string,
    totalOrders: Option<int>,
    totalSpent: Option<real>)

  datatype CartItem = CartItem(book: Book, quantity: int)

  datatype WishlistItem = WishlistItem(id: string, userId: string, book: Book, addedDate: string)

  /** `sellerId` is optional here although the TypeScript interface requires
      it: the order built at checkout (project/src/pages/Cart.tsx:52-62) has
      none, and the model keeps that. */
  datatype Order = Order(
    id: string,
    userId: string,
    sellerId: Option<string>,
    items: seq<CartItem>,
    total: real,
    status: OrderStatus,
    orderDate: string,
    estimatedDelivery: Option<string>,
    shippingAddress: Address,
    paymentMethod: string,
    trackingNumber: Option<string>)

  /** Two user records that differ at most in the approval flag. */
  predicate SameButApproval(x: User, y: User) {
    x.id == y.id && x.name == y.name && x.email == y.email && x.avatar == y.avatar &&
    x.role == y.role && x.businessName == y.businessName && x.addresses == y.addresses &&
    x.defaultAddressId == y.defaultAddressId && x.preferences == y.preferences &&
    x.joinDate == y.joinDate && x.totalOrders == y.totalOrders && x.totalSpent == y.totalSpent
  }

  /** Two user records that differ at most in their address book: the
      address list and the default address id. */
  predicate SameButAddressBook(x: User, y: User) {
    x.id == y.id && x.name == y.name && x.email == y.email && x.avatar == y.avatar &&
    x.role == y.role && x.businessName == y.businessName && x.preferences == y.preferences &&
    x.isApproved == y.isApproved && x.joinDate == y.joinDate &&
    x.totalOrders == y.totalOrders && x.totalSpent == y.totalSpent
  }

  /** Two orders that differ at most in their status. */
  predicate SameButStatus(x: Order, y: Order) {
    x.id == y.id && x.userId == y.userId && x.sellerId == y.sellerId && x.items == y.items &&
    x.total == y.total && x.orderDate == y.orderDate && x.estimatedDelivery == y.estimatedDelivery &&
    x.shippingAddress == y.shippingAddress && x.paymentMethod == y.paymentMethod &&
    x.trackingNumber == y.trackingNumber
  }

  datatype AuthState = AuthState(user: Option<User>, isAuthenticated: bool, isLoading: bool)

  /** The reducer keeps the flag and the user in step. */
  predicate AuthConsistent(auth: AuthState) {
    auth.isAuthenticated <==> auth.user.Some?
  }

  /** The user's address list, `user?.addresses || []`. */
  function AddressesOf(user: Option<User>): (r: seq<Address>)
    ensures user.None? ==> r == []
    ensures user.Some? && user.value.addresses.Some? ==> r == user.value.addresses.value
  {
    match user
    case None => []
    case Some(u) => match u.addresses { case None => [] case Some(xs) => xs }
  }
}
