# BookNest state and view logic in Dafny

BookNest is a client-only React bookstore. It has three kinds of users:

- customers, who browse the catalogue, keep a cart and a wishlist, and check out to a saved delivery address;
- sellers, who manage their own books;
- administrators, who approve sellers.

All application state lives in one reducer, `appReducer`. The views decide which actions to dispatch and when.

This project models the reducer and the decision logic of the views around it, as pure Dafny functions over immutable datatypes. It proves the invariants the application relies on.

| file | module | what it models |
|---|---|---|
| `types.dfy` | `Types` | the records of `types/index.ts`: `Book`, `User`, `Address`, `CartItem`, `WishlistItem`, `Order`, `AuthState`. Optional fields are `Option`. |
| `seqs.dfy`, `text.dfy` | `Seqs`, `Text` | `filter`, `find`, `map`, and the string operations: `trim`, `toLowerCase`, `includes`, `split`, `join`. |
| `cart.dfy`, `addressbook.dfy` | `CartOps`, `AddressBook` | the cart-line and address-list edits the reducer performs |
| `reducer.dfy` | `AppContext` | `initialState`, the 24 actions, `appReducer` (one family function per slice of the state) and the dispatch of a sequence of actions |
| `reducer_props.dfy` | `ReducerProperties` | properties relating several actions, and preservation of the state invariant |
| `addressform.dfy` | `AddressForm` | `validateForm` with the per-country postcode rules, the address `handleSubmit` builds, and the country-change reset |
| `catalog.dfy` | `Catalog` | the genre and search filter of the books page |
| `routes.dfy` | `Routes` | `ProtectedRoute` and the route table of `App.tsx` |
| `header.dfy` | `Header` | the badges, the navigation links, the logo target, sign-out and search |
| `cartpage.dfy` | `CartPage` | the payment label, checkout, and the quantity buttons |
| `addressselector.dfy` | `AddressSelector` | the address picker's dispatches and its last-address guard |
| `bookcard.dfy` | `BookCard` | the book tile's buttons and availability caption |
| `wishlistpage.dfy` | `WishlistPage` | remove, and "move to cart" |
| `authpage.dfy` | `AuthPage` | sign-in, registration and the account it creates |
| `selleritems.dfy` | `SellerItems` | the seller's inventory, the book form, and the save and delete buttons |
| `sellerspage.dfy` | `SellersPage` | the administrator's seller list, its counters, and approval |

Outside inputs become parameters:

- the seed data: the mock orders and wishlist, the demo accounts, and each country's state list;
- the clock: each `Date.now()` read as its own text (registration reads it twice, once for the user id and once for the address id), and ISO time stamps;
- the base64 encoding of the avatar SVG.

The reducer's parameters are gathered in `AppContext.Env`. Each view takes a small `Clock` record.

Two behaviours of the source are modelled as written:

- The order built at checkout carries no seller id, although the declared `Order` type requires one. The model makes `Order.sellerId` optional. `SellersPage.CheckoutInvisibleToSellers` proves that no seller's order list ever gains a checkout order.
- "Move to cart" on the wishlist page is two dispatches, ADD_TO_CART and then REMOVE_FROM_WISHLIST. It is not an action of its own.

Registration builds the avatar with `btoa`, which throws on a character above U+00FF. A name with such an initial, such as "Иван", therefore makes registration stop before it dispatches anything. `AuthPage.Register` returns `Aborted` in that case.

ADD_TO_WISHLIST reads the signed-in user's id through a non-null assertion. With nobody signed in it throws. `AppContext.Reduce` therefore requires a user for that action, and `AppContext.Step` and `AppContext.Run` return `None` where the dispatch would throw.

Other behaviour of the source that the proofs bring out:

- SET_DEFAULT_ADDRESS rewrites the `isDefault` flags in the user's address list but not in the selected delivery address. From then on the selection matches a list entry in every field except that flag. `ReducerProperties.SetDefaultLeavesSelectionFlagStale` shows this. The state invariant `AppContext.SelectionFresh` is stated up to the flag for this reason.
- A new account gets one address flagged default but no `defaultAddressId`. The LOGIN that follows registration therefore selects no delivery address (`AuthPage.RegistrationSelectsNothing`).
- Saving an edited book from the seller's inventory page drops its `featured` and `bestseller` flags, because the form never sets them (`SellerItems.SaveUnchangedRoundTrip`).
- The seller navigation links to `/orders`, the customers' order page. That page is open to every signed-in role (`Header.HeaderLinksAreAllowed`).

## Model

| member | source | states |
|---|---|---|
| AppContext.InitialState | project/src/context/AppContext.tsx:44-59 | The app starts signed out and not loading, with an empty cart, wishlist, order list and selection, the seed books and users, an empty search and genre "All". |
| ReducerProperties.InitialStateWf | project/src/context/AppContext.tsx:44-59 | The initial state is well formed: signed out with the flag in step, an empty cart, and no selection. |
| AppContext.LoginOrders | project/src/context/AppContext.tsx:64-68 | After sign-in the order list is the seed orders in their order: all of them for an administrator, those with the user's id for a customer, and those with the seller's id for a seller. Every copy of a kept order stays, and no copy of another is kept. |
| AppContext.LoginWishlist | project/src/context/AppContext.tsx:70-72 | After sign-in a customer's wishlist is exactly the seed entries carrying their id, in order, each as many times as in the seed; every other role gets an empty wishlist. |
| AppContext.DefaultSelection | project/src/context/AppContext.tsx:83 | The address selected at sign-in is the first listed address whose id is the user's `defaultAddressId`, as `find` returns it. There is none exactly when no listed address has that id. |
| AppContext.LoginReduce | project/src/context/AppContext.tsx:63-84 | LOGIN sets auth to (user, signed in, not loading), with the orders, wishlist and selection above. The cart, books, users, search and genre are kept. |
| AppContext.LogoutReduce | project/src/context/AppContext.tsx:85-97 | LOGOUT leaves no user, not signed in, not loading, with an empty cart, orders and wishlist and no selection. Books, users, search and genre are kept. |
| AppContext.SessionReduce | project/src/context/AppContext.tsx:63-105 | LOGIN and LOGOUT always leave the auth flag in step with the user, and SET_LOADING keeps it so. SET_LOADING changes `auth.isLoading` and nothing else. |
| AppContext.CartReduce | project/src/context/AppContext.tsx:106-146 | ADD_TO_CART leaves a line for the book. REMOVE_FROM_CART leaves none and keeps the other lines in order. A quantity of zero or less removes the book. CLEAR_CART empties the cart. |
| CartOps.AddToCart | project/src/context/AppContext.tsx:106-121 | An existing line for the book is updated in place, with the cart's length and the other lines kept. Otherwise one line of one copy is appended. |
| CartOps.RemoveFromCart | project/src/context/AppContext.tsx:122-126 | No line for the book remains, and every line of another book is kept, in order and as many times as before. |
| CartOps.UpdateQuantity | project/src/context/AppContext.tsx:127-141 | A quantity of zero or less does exactly what REMOVE_FROM_CART does: the book's lines go and every other line stays, in order. A positive one sets the quantity of the book's lines only, keeping the cart's length and order. |
| CartOps.AddToCartEffect | project/src/context/AppContext.tsx:106-121 | On a cart with one line per book and positive quantities, adding keeps both properties. It adds exactly one copy of that book and changes no other book's count. |
| CartOps.RemoveFromCartEffect | project/src/context/AppContext.tsx:122-126 | Removing keeps the cart well formed. The book's count drops to zero and no other book's count changes. |
| CartOps.UpdateQuantityEffect | project/src/context/AppContext.tsx:134-141 | Setting a positive quantity keeps the cart well formed and sets that book's count (to zero when it has no line). Every other count is unchanged. |
| CartOps.AddTimesCounts | project/src/context/AppContext.tsx:106-121 | Adding a book n times to a well-formed cart keeps it well formed and raises that book's count by n. |
| CartOps.OnlyLineHoldsQuantity | project/src/context/AppContext.tsx:107-116 | In a well-formed cart a book has one line, and that line holds every copy of it. |
| AppContext.WishlistReduce | project/src/context/AppContext.tsx:147-162 | ADD_TO_WISHLIST appends one entry for the book and the signed-in user, keeping the others. REMOVE_FROM_WISHLIST keeps, in order, exactly the entries for other books, each as many times as before. |
| AppContext.OrdersReduce | project/src/context/AppContext.tsx:173-187 | PLACE_ORDER puts the order first, keeps the older orders behind it, and empties the cart. UPDATE_ORDER_STATUS changes the status of the orders with that id and nothing else. |
| ReducerProperties.UpdateOrderStatusLastWins | project/src/context/AppContext.tsx:179-187 | Two status updates of one order amount to the later one alone. A status update keeps every order's id and place, and gives each order with that id the new status. |
| AppContext.AddAddressReduce | project/src/context/AppContext.tsx:193-205 | ADD_ADDRESS appends the address to the user's list, treating a missing list as empty. Every other field of the user record is kept, `defaultAddressId` included, and so is the selection. |
| AppContext.UpdateAddressReduce | project/src/context/AppContext.tsx:206-223 | UPDATE_ADDRESS replaces the entries with the address's id. Every other field of the user record is kept, `defaultAddressId` included. It replaces the selection exactly when the selection has that id. |
| AppContext.DeleteAddressReduce | project/src/context/AppContext.tsx:224-239 | DELETE_ADDRESS leaves the list `AddressBook.Remove` gives: in order, exactly the entries with other ids, each as many times as before. Every other field of the user record is kept, `defaultAddressId` included, even when it names the deleted address. The selection is cleared exactly when it has that id, and otherwise kept. |
| AppContext.SetDefaultAddressReduce | project/src/context/AppContext.tsx:240-256 | SET_DEFAULT_ADDRESS records the id as `defaultAddressId` and flags as default exactly the entries with that id. Every other field of the user record is kept, and so is the selection. |
| AddressBook.Remove | project/src/context/AppContext.tsx:228 | DELETE_ADDRESS's filter keeps, in order, exactly the entries whose id differs, each as many times as before. No entry with the id is left. |
| AddressBook.MarkDefault | project/src/context/AppContext.tsx:245-248 | The flag rewrite changes no address except in its flag. Afterwards an entry is default exactly when its id is the chosen one. |
| AddressBook.MarkDefaultSingle | project/src/context/AppContext.tsx:240-256 | Over unique ids, exactly one address is default afterwards when the id is listed, and none otherwise. |
| AppContext.AddressReduce | project/src/context/AppContext.tsx:188-256 | SET_DELIVERY_ADDRESS sets the selection. The four list edits change nothing when nobody is signed in. Otherwise they keep every field of the user record but the address list, and all but SET_DEFAULT_ADDRESS keep `defaultAddressId` too. No address action changes the auth flags or anything outside auth and the selection. |
| AppContext.BooksReduce | project/src/context/AppContext.tsx:257-273 | ADD_BOOK appends the book. UPDATE_BOOK replaces the books with its id in place. DELETE_BOOK keeps, in order, exactly the books with other ids, each as many times as before. |
| AppContext.UsersReduce | project/src/context/AppContext.tsx:274-292 | APPROVE_SELLER approves the users with the id, changes no other field, and unapproves nobody. UPDATE_USER replaces by id in place. DELETE_USER keeps, in order, exactly the users with other ids, each as many times as before. |
| ReducerProperties.ApproveIsUpdateUser | project/src/context/AppContext.tsx:274-287 | When user ids are unique, APPROVE_SELLER of a user has the same effect as UPDATE_USER with that user's record marked approved. |
| AppContext.Reduce | project/src/context/AppContext.tsx:61-296 | Every action keeps the auth flag in step with the user and leaves the top-level loading flag alone. Only session and address actions change the auth state and the selection. Only session, cart actions and PLACE_ORDER change the cart. Only session and catalogue actions change the books, and only user-list actions the users. An unrecognised action returns the state unchanged. |
| ReducerProperties.ReduceFrames | project/src/context/AppContext.tsx:61-296 | The remaining slices: only session and wishlist actions change the wishlist, only session and order actions change the orders, and only SET_SEARCH_QUERY and SET_SELECTED_GENRE change the search text and the genre. |
| ReducerProperties.WishlistStep | project/src/context/AppContext.tsx:147-162 | A wishlist action replaces the wishlist and leaves every other slice as it was. |
| ReducerProperties.OrdersStep | project/src/context/AppContext.tsx:173-187 | An order action is exactly `OrdersReduce`, which changes only the orders and, for PLACE_ORDER, the cart. |
| ReducerProperties.BooksStep | project/src/context/AppContext.tsx:257-273 | A catalogue action replaces the books and leaves every other slice as it was. |
| ReducerProperties.UsersStep | project/src/context/AppContext.tsx:274-292 | A user-list action replaces the users and leaves every other slice as it was. |
| ReducerProperties.CartStep | project/src/context/AppContext.tsx:106-146 | A cart action never throws, replaces the cart and leaves every other slice as it was. |
| AppContext.Step | project/src/context/AppContext.tsx:147-153 | A dispatch fails exactly when it is ADD_TO_WISHLIST with nobody signed in. |
| ReducerProperties.ReducePreservesWf | project/src/context/AppContext.tsx:61-296 | Every action the views can dispatch keeps the state well formed: the auth flag matches the user, the cart has one line per book with positive quantities, and the selection is one of the user's addresses up to its default flag. |
| ReducerProperties.GuardedRunKeepsWf | project/src/context/AppContext.tsx:61-296 | A sequence of dispatches the views allow, from a well-formed state, never throws and ends well formed. |
| ReducerProperties.ReachableStatesWf | project/src/context/AppContext.tsx:44-296 | Every state the views can reach from the initial state is well formed. |
| ReducerProperties.CartReduceKeepsWf | project/src/context/AppContext.tsx:106-146 | The four cart actions keep one line per book and quantities of at least one. |
| ReducerProperties.SessionReduceKeepsSelection | project/src/context/AppContext.tsx:63-105 | LOGIN selects one of the new user's addresses or none, LOGOUT clears the selection, and SET_LOADING keeps it. |
| ReducerProperties.AddressReduceKeepsSelection | project/src/context/AppContext.tsx:188-256 | Given that a selection is made only from the user's list, the address actions keep it one of the user's addresses up to its default flag. |
| ReducerProperties.AddressEditKeepsSelection | project/src/context/AppContext.tsx:193-256 | After add, update, delete or set-default, a selected address is still found in the new list, or the selection has been cleared. |
| ReducerProperties.AddKeepsSelection | project/src/context/AppContext.tsx:193-205 | ADD_ADDRESS keeps every existing entry at its index, so a selection made from the list still matches an entry. |
| ReducerProperties.UpdateKeepsSelection | project/src/context/AppContext.tsx:206-223 | After UPDATE_ADDRESS the selection is either the edited entry, which it follows, or an entry left untouched. |
| ReducerProperties.DeleteKeepsSelection | project/src/context/AppContext.tsx:224-239 | After DELETE_ADDRESS the selection is either cleared or still matches an entry of the shorter list. |
| ReducerProperties.SetDefaultKeepsSelection | project/src/context/AppContext.tsx:240-256 | SET_DEFAULT_ADDRESS changes only default flags, so the selection still matches its entry up to the flag. |
| ReducerProperties.SetDefaultAddressSingle | project/src/context/AppContext.tsx:240-256 | SET_DEFAULT_ADDRESS on a listed id, over unique ids, leaves exactly one default address: the one with that id. |
| ReducerProperties.SelectionTracksAddressEdits | project/src/context/AppContext.tsx:220-222 | UPDATE_ADDRESS replaces the selection exactly when its id matches. DELETE_ADDRESS clears it exactly when its id matches. |
| ReducerProperties.SetDefaultLeavesSelectionFlagStale | project/src/context/AppContext.tsx:240-256 | SET_DEFAULT_ADDRESS can leave a selection that is no longer an entry of the list, although it still matches one up to the default flag. |
| ReducerProperties.NonPositiveQuantityRemoves | project/src/context/AppContext.tsx:127-133 | UPDATE_CART_QUANTITY with zero or fewer copies gives the same state as REMOVE_FROM_CART of that book. |
| ReducerProperties.RunAppend | project/src/context/AppContext.tsx:61-296 | Dispatching two sequences one after the other is dispatching their concatenation. A dispatch that throws stops the rest. |
| ReducerProperties.LogoutClearsSession | project/src/context/AppContext.tsx:85-97 | Whatever was dispatched before, a final LOGOUT leaves no user, no cart, orders or wishlist, and no selection. |
| ReducerProperties.AddTwiceThenSetThree | project/src/context/AppContext.tsx:106-141 | From an empty cart, adding a book twice and then setting its quantity to three leaves one line of three copies. |
| AddressForm.InitialForm | project/src/components/Address/AddressForm.tsx:14-25 | A new form is blank with country "US". An edit form shows the address's fields, with an absent optional field shown as empty. |
| AddressForm.Validate | project/src/components/Address/AddressForm.tsx:47-132 | Label, name, street, city and country are errors exactly when blank after trimming, each with its "... is required" message. State is an error exactly when the country has states and it is blank. The postcode is an error when blank (with the "required" message) or not of the country's format (with that country's message). A non-empty phone is an error exactly when it has a character other than digits, white space, `-`, `(` and `)` after an optional leading `+`. It then reads "Invalid phone number format". |
| AddressForm.ValidIffRulesHold | project/src/components/Address/AddressForm.tsx:130-131 | The form is valid, meaning no error is recorded, exactly when every field rule holds. |
| AddressForm.Submit | project/src/components/Address/AddressForm.tsx:134-153 | An address is saved only from a valid form. It keeps the edited address's id (otherwise "addr-" and the time stamp) and its default flag (false for a new one). Empty optional fields become absent, and every other field is copied from the form. |
| AddressForm.SaveUnchangedRoundTrip | project/src/components/Address/AddressForm.tsx:134-153 | Opening a valid saved address in the form and saving it unchanged gives back the same address. |
| AddressForm.CountryChange | project/src/components/Address/AddressForm.tsx:29-37 | A country change touches only the state field. It clears the state when the new country has states and the current one is not among them, and leaves the form unchanged otherwise. |
| AddressForm.CountryChangeStateRule | project/src/components/Address/AddressForm.tsx:29-37 | After a country change the state is empty or one of the new country's codes. So with a state list, the form's state rule fails exactly when no listed state is chosen. |
| AddressForm.UsSamplesAccepted | project/src/components/Address/AddressForm.tsx:66-71 | "12345" and "12345-6789" are accepted US ZIP codes. |
| AddressForm.CaSamplesAccepted | project/src/components/Address/AddressForm.tsx:72-76 | The Canadian format accepts "K1A 0A6" with or without its space. |
| AddressForm.GbSamplesAccepted | project/src/components/Address/AddressForm.tsx:77-81 | The British format accepts "SW1A 1AA" and "M1 1AE". |
| AddressForm.DashedSamplesAccepted | project/src/components/Address/AddressForm.tsx:97-111 | The Japanese and Brazilian formats accept "100-0001" and "01310-100". |
| AddressForm.MalformedPostcodesRejected | project/src/components/Address/AddressForm.tsx:62-124 | Wrong lengths, a doubled space, a misplaced dash, a short British code and a two-character code for an unlisted country are rejected. |
| Catalog.FilteredBooks | project/src/pages/Books.tsx:10-29 | The books page shows an order-preserving subsequence of the catalogue: exactly the books in the chosen genre (any, for "All") whose title, author or genre contains the search text, ignoring case. |
| Catalog.FilteredBooksConjunctive | project/src/pages/Books.tsx:10-29 | The genre step followed by the search step is one filter by both tests. |
| Catalog.NoFilterShowsAll | project/src/pages/Books.tsx:14-19 | With genre "All" and an empty search the whole catalogue is shown. |
| Catalog.AllMatchEmptyQuery | project/src/pages/Books.tsx:19-26 | Every book matches the empty search. |
| Catalog.GenreChangeRefilters | project/src/context/AppContext.tsx:168-172 | SET_SELECTED_GENRE changes only the genre, after which the books page lists exactly the catalogue books in that genre matching the current search, in catalogue order. |
| Catalog.ResetFiltersShowsAll | project/src/context/AppContext.tsx:163-172 | Choosing "All" and clearing the search lists the whole catalogue again, whatever was chosen before. |
| Routes.Guard | project/src/components/Auth/ProtectedRoute.tsx:11-23 | A visitor who is not signed in is sent to `/auth` whatever roles are allowed. A signed-in user of another role is sent to `/home`. The page renders exactly for a signed-in user of an allowed role. |
| Routes.AllowedRoles | project/src/App.tsx:30-89 | Only pages of the route table carry a role restriction. |
| Routes.GuardedPagesByPrefix | project/src/App.tsx:38-89 | In the route table, the pages under `/seller/` are exactly those restricted to sellers, and the pages under `/admin/` exactly those restricted to administrators. Every other page is open. |
| Routes.RoleAreasAreClosed | project/src/App.tsx:38-89 | A seller page renders only for a signed-in seller, and an admin page only for a signed-in administrator. Every other page renders for everybody. |
| Header.CartItemsCount | project/src/components/Layout/Header.tsx:11 | The cart badge is the total number of copies over all cart lines. |
| Header.WishlistBadgeFollowsActions | project/src/components/Layout/Header.tsx:12 | The wishlist badge goes up by one with each ADD_TO_WISHLIST. REMOVE_FROM_WISHLIST lowers it by the number of entries holding the book, so not at all for a book not on the list. |
| Header.NavigationLinks | project/src/components/Layout/Header.tsx:29-61 | Each kind of viewer gets its exact links, in order, with their captions. A visitor gets Home and Books. An administrator gets Dashboard, Users, Sellers and Orders under `/admin/`. A seller gets Dashboard and My Books under `/seller/`, then Orders at `/orders`. A customer gets Home, Books, My Orders and Profile. |
| Header.LogoTarget | project/src/components/Layout/Header.tsx:70-71 | The logo leads to a page of the route table: the admin dashboard, the seller dashboard, or `/home` for everyone else. |
| Header.HeaderLinksAreAllowed | project/src/components/Layout/Header.tsx:29-71 | Every navigation link, and the logo, leads to a page of the route table that the route guard lets the current user see. |
| Header.SearchSetsQueryOnly | project/src/components/Layout/Header.tsx:14-16 | Typing in the header's search box sets the catalogue search text and changes nothing else. |
| CartPage.PaymentMethodLabel | project/src/pages/Cart.tsx:25-38 | The four payment choices have their fixed labels. Exactly the other values read "Unknown Payment Method". |
| CartPage.PaymentLabelIdentifiesMethod | project/src/pages/Cart.tsx:25-38 | Two choices with the same caption are the same choice, unless the caption is the "Unknown Payment Method" fallback. |
| CartPage.Checkout | project/src/pages/Cart.tsx:40-64 | Checkout dispatches nothing unless a user is signed in and a delivery address is selected. Otherwise it dispatches one PLACE_ORDER whose order has: the user's id and no seller id; the cart as items; the given total; status confirmed; the current and one-week-later times; the selected address; and the payment label. |
| CartPage.CheckoutEffect | project/src/pages/Cart.tsx:40-64 | After a successful checkout the cart is empty and the new order, holding the former cart, heads the order list, with nothing else changed. A refused checkout changes nothing. |
| CartPage.QuantityButtonsStep | project/src/pages/Cart.tsx:12-14 | On a well-formed cart, plus adds one copy of the line's book. An enabled minus (quantity above one) takes one away and keeps the line. No other book changes and the cart stays well formed. |
| CartPage.TrashRemovesBook | project/src/pages/Cart.tsx:16-18 | The trash button removes every copy of the line's book and nothing else, keeping the cart well formed. |
| AddressSelector.SelectPressed | project/src/components/Address/AddressSelector.tsx:20-23 | Choosing an address dispatches SET_DELIVERY_ADDRESS with it. |
| AddressSelector.SelectKeepsWf | project/src/components/Address/AddressSelector.tsx:20-23 | Picking one of the user's addresses is a dispatch the views allow. It selects exactly that address, changes nothing else, and keeps the state well formed. |
| AddressSelector.DeletePressed | project/src/components/Address/AddressSelector.tsx:29-35 | Delete dispatches nothing while the user has one address or none. Otherwise it dispatches DELETE_ADDRESS of the id. |
| AddressSelector.SavePressed | project/src/components/Address/AddressSelector.tsx:37-45 | The form saves a new address with ADD_ADDRESS and an edited one with UPDATE_ADDRESS. |
| AddressSelector.DeleteNeverEmpties | project/src/components/Address/AddressSelector.tsx:29-35 | Through this component, a signed-in user's non-empty address list with unique ids never becomes empty. |
| AddressSelector.AddKeepsIdsUnique | project/src/components/Address/AddressSelector.tsx:37-40 | Adding an address with a new id keeps the address ids unique. |
| AddressSelector.SetDefaultMakesSoleDefault | project/src/components/Address/AddressSelector.tsx:25-27 | "Set Default" on a listed address, over unique ids, makes it the one and only default address. |
| BookCard.WishlistPressed | project/src/components/Books/BookCard.tsx:18-22 | The heart dispatches ADD_TO_WISHLIST exactly for a signed-in customer whose wishlist lacks the book. Otherwise it dispatches nothing. |
| BookCard.WishlistPressKeepsUnique | project/src/components/Books/BookCard.tsx:84-87 | Pressing the heart never throws and never gives a book two wishlist entries. For a customer, the book is in the wishlist afterwards. |
| BookCard.CartPressed | project/src/components/Books/BookCard.tsx:157-160 | "Add to Cart" dispatches ADD_TO_CART exactly when the card shows the button, the user is a customer, and the book is not out of stock. |
| BookCard.CartPressKeepsWf | project/src/components/Books/BookCard.tsx:157-160 | A press on "Add to Cart" never throws and changes only the cart, which stays well formed. An enabled press adds one copy of the book and leaves every other book's count. A press on an out-of-stock book changes nothing. |
| BookCard.AvailabilityText | project/src/components/Books/BookCard.tsx:41-52 | The three availability tags have their captions. Exactly the other tags read "Unknown". |
| BookCard.AvailabilityTextKnown | project/src/components/Books/BookCard.tsx:41-52 | Every availability a book can have gets a caption of its own: none reads "Unknown", and different availabilities read differently. |
| WishlistPage.MoveToCartEffect | project/src/pages/Wishlist.tsx:13-16 | Moving a book to the cart adds one copy of it and changes no other count, keeping the cart well formed. It drops every wishlist entry of the book and keeps the other entries in order, each as many times as before. |
| WishlistPage.MoveToCartOrderIrrelevant | project/src/pages/Wishlist.tsx:13-16 | The two dispatches of "move to cart" give the same state in either order. |
| WishlistPage.RemoveEffect | project/src/pages/Wishlist.tsx:9-11 | The trash button never throws and changes only the wishlist. Every entry of the book goes, and every other entry stays, in order and as many times as before. |
| AuthPage.RedirectFor | project/src/pages/Auth.tsx:42-51 | After sign-in an administrator lands on the admin dashboard, a seller on the seller dashboard, and a customer on `/home`. |
| AuthPage.SignIn | project/src/pages/Auth.tsx:29-56 | Sign-in succeeds exactly when some demo account matches both email and password. It then uses the first such account, dispatches loading on, LOGIN and loading off, and redirects by role. Otherwise it shows the credentials error and dispatches nothing. |
| AuthPage.SignInRuns | project/src/pages/Auth.tsx:34-38 | The three sign-in dispatches amount to one LOGIN, ending with the loading flag off. |
| AuthPage.Register | project/src/pages/Auth.tsx:59-120 | Registration is refused exactly when name, email or password is empty, or a seller gives no business name, each case with its message. Otherwise it aborts exactly when the upper-cased initials hold a character above U+00FF, where `btoa` throws before any dispatch. Otherwise it dispatches the sign-in of the new account and redirects sellers to their dashboard and others to `/home`. |
| AuthPage.AbortsIffWideInitial | project/src/pages/Auth.tsx:75-80 | Under the model's ASCII-only case mapping, a complete registration aborts exactly when some word of the name starts with a character above U+00FF. |
| AuthPage.CyrillicNameAborts | project/src/pages/Auth.tsx:75-80 | Registering as "Иван" aborts, while registering the same form as "Ivan" signs in. |
| AuthPage.NewUserShape | project/src/pages/Auth.tsx:71-105 | Building the account fails exactly when the upper-cased word starts of the name are not all at or below U+00FF. A built account has the chosen role, never admin. Only a seller gets a business name and a pending approval. It has exactly one address, flagged default, and no `defaultAddressId`. The user id and the address id come from the two clock reads. Its avatar is drawn from the upper-cased first letters of the words of the name. |
| Text.InitialsAreWordStarts | project/src/pages/Auth.tsx:80 | The initials are the upper-cased first characters of the non-empty space-separated words, in order. |
| AuthPage.RegistrationSelectsNothing | project/src/pages/Auth.tsx:107-111 | After registration the new user is signed in, not loading, and has no delivery address selected. |
| AuthPage.RedirectIsLogoTarget | project/src/pages/Auth.tsx:42-51 | The page a user lands on after sign-in is where the header's logo leads. |
| SellerItems.SellerBooks | project/src/pages/Seller/SellerItems.tsx:11-12 | The inventory is the order-preserving subsequence of the catalogue holding exactly the books carrying the seller's id, each as many times as in the catalogue. |
| SellerItems.Visible | project/src/pages/Seller/SellerItems.tsx:14-18 | The search keeps exactly the seller's books whose title, author or genre contains the text, ignoring case, in order and as many times as in the catalogue. |
| SellerItems.VisibleIsOneFilter | project/src/pages/Seller/SellerItems.tsx:11-18 | Inventory followed by search is one filter by both tests, and an empty search shows the whole inventory. |
| SellerItems.SellerName | project/src/pages/Seller/SellerItems.tsx:54 | The name on a book is the seller's business name when it is non-empty, and the personal name otherwise. |
| SellerItems.BuiltBookFacts | project/src/pages/Seller/SellerItems.tsx:41-59 | A saved book belongs to the saving seller, takes the form's stock, and is in stock exactly when that stock is positive. It is never "limited". A new book gets id "book-" and the time stamp, rating 4.5, no reviews and today's date. An edited book keeps its id, rating, review count and publication date. |
| SellerItems.SaveUnchangedRoundTrip | project/src/pages/Seller/SellerItems.tsx:41-90 | Opening one of the seller's books in the form and saving it unchanged gives it back, without its featured and bestseller flags. |
| SellerItems.SavePressed | project/src/pages/Seller/SellerItems.tsx:61-65 | Saving dispatches UPDATE_BOOK exactly when editing and ADD_BOOK exactly when not. |
| SellerItems.DeletePressed | project/src/pages/Seller/SellerItems.tsx:93-97 | Delete dispatches DELETE_BOOK of the id exactly when the seller confirms. |
| SellerItems.AddShowsInInventory | project/src/pages/Seller/SellerItems.tsx:61-65 | A newly added book joins the end of the seller's inventory, which keeps every book it had. |
| SellerItems.EditReplacesBook | project/src/pages/Seller/SellerItems.tsx:61-65 | Saving an edit replaces every catalogue book with that id in place, leaving the rest. An edited book that was listed is listed afterwards in its new form. |
| SellerItems.DeleteEffect | project/src/pages/Seller/SellerItems.tsx:93-97 | A confirmed delete leaves in the seller's inventory exactly the books with other ids, each as many times as before. A cancelled one changes nothing. |
| SellersPage.Sellers | project/src/pages/Admin/SellersPage.tsx:10-18 | The list keeps, in order and as many times as in the user list, exactly the users who are sellers and pass both filters. The search matches name, email or non-empty business name, ignoring case. The status is "all", "approved" (approved), or "pending" (not approved, including unset). |
| SellersPage.CountersSplitSellers | project/src/pages/Admin/SellersPage.tsx:53-65 | Whatever the status setting, the approved and pending counters count within the listed sellers and add up to them. Under "approved" the pending counter reads 0, and under "pending" the approved one does. |
| SellersPage.CountersUnderAll | project/src/pages/Admin/SellersPage.tsx:53-65 | Under "all", each counter equals the number of sellers the matching status setting lists. |
| SellersPage.SellerOrders | project/src/pages/Admin/SellersPage.tsx:28-30 | A seller's orders are exactly the orders carrying their id, in order, each as many times as in the order list. |
| SellersPage.BooksListed | project/src/pages/Admin/SellersPage.tsx:77 | The "Total Books Listed" counter counts the catalogue books of some listed seller: an order-preserving subsequence of the catalogue with every copy of such a book and nothing else. |
| SellersPage.DeleteUserUnlists | project/src/context/AppContext.tsx:288-292 | After DELETE_USER, no record with that id is in the seller list under any search and status, and every other listed seller is listed as often as before. |
| SellersPage.SellerBooksAreListed | project/src/pages/Admin/SellersPage.tsx:24-26 | Every book shown on a listed seller's card counts towards that total. |
| SellersPage.ApprovePressed | project/src/pages/Admin/SellersPage.tsx:197-205 | Approve dispatches APPROVE_SELLER of the seller's id exactly when the seller is not yet approved. |
| SellersPage.ApproveMovesSeller | project/src/pages/Admin/SellersPage.tsx:20-22 | Approving a pending seller moves them from the "pending" list to the "approved" one and changes nothing else about them. Nobody is unapproved. |
| SellersPage.CheckoutInvisibleToSellers | project/src/pages/Cart.tsx:52-62 | A checkout never changes any seller's order list, since its order has no seller id. |

## Left out

- Rendering, React state hooks, the mobile menu, active-link styling and router navigation. A redirect is modelled as a `Decision` or a path string.
- Floating-point money: the cart subtotal, shipping, tax and total enter checkout as one already computed `total`. The sellers page's revenue sums are not modelled.
- `setTimeout` before the sign-in and registration dispatches. The three dispatches are taken in order.
- `Date.now()` and `new Date().toISOString()`. They are text parameters: the `Env` of the reducer and the `Clock` records of the views.
- The seed data module and the countries module are not part of this model. The seed orders, seed wishlist, demo accounts and each country's state codes are parameters.
- The SVG avatar and its base64 encoding. `AuthPage.Avatar` takes the encoding as a function of the initials, and models only whether `btoa` throws.
- `alert` and `confirm`. The messages are not modelled, and a confirmation is a boolean input.
- `parseFloat` and `parseInt` in the seller's book form. Price, original price, pages and stock enter already parsed, so a stock that does not parse (NaN, shown as out of stock) is not modelled.
- The address form's postal-code and state labels and placeholders, which are presentational. So is the clearing of a field's error while typing.
- The address picker's optional `onAddressSelect` callback, which the caller supplies.
- The Reject and View Details buttons of the sellers page, which have no handler.
- AppContext.Env: one clock reading serves a whole sequence of dispatches, where the source reads `Date.now()` and the ISO time at each ADD_TO_WISHLIST. So two wishlist adds in one `Run` get the same `wishlist-<stamp>` id and date. No property of the model depends on the id or the date.
- Case mapping covers ASCII letters only. JavaScript's `toLowerCase` and `toUpperCase` also map other scripts.
- AuthPage.Register: because case mapping is ASCII-only, the abort decision is wrong for a word start whose JavaScript upper case crosses U+00FF. Examples are `ÿ` and `µ`, which go above it, and `ı` and `ſ`, which come below it.
- AuthPage.AbortsIffWideInitial: the equivalence holds for the model's ASCII-only `toUpperCase`. Under JavaScript's full case mapping it fails for a word start whose upper case crosses U+00FF, such as `ÿ` or `ı`.
- String lengths and indices count characters, where JavaScript counts UTF-16 code units. This matters for the 3–10 length rule of other countries' postcodes. It also matters for the initials, where JavaScript takes the first code unit of a word and the model takes the whole first character. The two differ only for a character above U+FFFF, and there both make `btoa` throw, so registration aborts either way.
- The cart page shows its checkout button only for a non-empty cart, and disables it without a user or an address. `CartPage.Checkout` models the handler itself, which has no cart check.
- The review, seller statistics and admin statistics types, and the pages that only display data: landing, home, footer, profile, orders and the two dashboards.
