/** Page access: the `ProtectedRoute` guard
    (project/src/components/Auth/ProtectedRoute.tsx:11-23) and the route
    table that wraps the seller and admin pages in it
    (project/src/App.tsx:30-89). */
module Routes {
  import opened Types

  /** What a route renders: its page, or a redirect elsewhere. */
  datatype Decision = Render | RedirectTo(path: string)

  /** `ProtectedRoute`: sign-in first, then the role check. The role is read
      through a non-null assertion, so an authenticated state must carry a
      user. */
  function Guard(auth: AuthState, allowedRoles: seq<Role>): (d: Decision)
    requires auth.isAuthenticated ==> auth.user.Some?
    ensures !auth.isAuthenticated ==> d == RedirectTo("/auth")
    ensures auth.isAuthenticated && auth.user.value.role !in allowedRoles ==> d == RedirectTo("/home")
    ensures d == Render <==> auth.isAuthenticated && auth.user.value.role in allowedRoles
  {
    if !auth.isAuthenticated then RedirectTo("/auth")
    else if auth.user.value.role !in allowedRoles then RedirectTo("/home")
    else Render
  }

  /** The pages of the route table. */
  const Paths: seq<string> := [
    "/", "/home", "/books", "/cart", "/wishlist", "/orders", "/auth", "/profile",
    "/seller/dashboard", "/seller/items",
    "/admin/dashboard", "/admin/users", "/admin/orders", "/admin/sellers"]

  predicate IsRoute(path: string) {
    path in Paths
  }

  /** The roles a page admits, or `None` for a page without a guard. */
  function AllowedRoles(path: string): (r: Option<seq<Role>>)
    ensures r.Some? ==> IsRoute(path)
  {
    if path == "/seller/dashboard" || path == "/seller/items" then Some([Seller])
    else if path == "/admin/dashboard" || path == "/admin/users" ||
            path == "/admin/orders" || path == "/admin/sellers" then Some([Admin])
    else None
  }

  /** What navigating to a page of the table shows. */
  function Access(auth: AuthState, path: string): Decision
    requires AuthConsistent(auth)
  {
    match AllowedRoles(path)
    case None => Render
    case Some(roles) => Guard(auth, roles)
  }

  predicate HasPrefix(s: string, prefix: string) {
    |prefix| <= |s| && s[..|prefix|] == prefix
  }

  /** The route table lists exactly two seller pages and four admin pages;
      every other page is open. */
  lemma GuardedPagesByPrefix(path: string)
    requires IsRoute(path)
    ensures HasPrefix(path, "/seller/") <==> AllowedRoles(path) == Some([Seller])
    ensures HasPrefix(path, "/admin/") <==> AllowedRoles(path) == Some([Admin])
    ensures AllowedRoles(path).None? <==> !HasPrefix(path, "/seller/") && !HasPrefix(path, "/admin/")
  {
    if HasPrefix(path, "/seller/") {
      assert path[1] == "/seller/"[..8][1] == 's';
    }
    if HasPrefix(path, "/admin/") {
      assert path[1] == "/admin/"[..7][1] == 'a' && path[2] == "/admin/"[..7][2] == 'd';
    }
    assert "/seller/dashboard"[..8] == "/seller/" && "/seller/items"[..8] == "/seller/";
    assert "/admin/dashboard"[..7] == "/admin/" && "/admin/users"[..7] == "/admin/";
    assert "/admin/orders"[..7] == "/admin/" && "/admin/sellers"[..7] == "/admin/";
  }

  /** A page under `/seller/` is shown only to a signed-in seller, and a
      page under `/admin/` only to a signed-in admin; everyone else is sent to
      `/auth` or `/home`. */
  lemma RoleAreasAreClosed(auth: AuthState, path: string)
    requires AuthConsistent(auth) && IsRoute(path)
    ensures HasPrefix(path, "/seller/") ==>
      (Access(auth, path) == Render <==> auth.user.Some? && auth.user.value.role == Seller)
    ensures HasPrefix(path, "/admin/") ==>
      (Access(auth, path) == Render <==> auth.user.Some? && auth.user.value.role == Admin)
    ensures !HasPrefix(path, "/seller/") && !HasPrefix(path, "/admin/") ==> Access(auth, path) == Render
    ensures Access(auth, path) != Render ==>
      Access(auth, path) == RedirectTo(if auth.isAuthenticated then "/home" else "/auth")
  {
    GuardedPagesByPrefix(path);
  }
}
