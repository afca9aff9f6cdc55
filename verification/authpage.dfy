/** The sign-in and registration page (project/src/pages/Auth.tsx): the
    credential lookup, the registration checks, the account it creates and
    where each kind of user lands. The delay before the LOGIN dispatch is
    not modelled: the three dispatches are taken in order. */
module AuthPage {
  import opened Types
  import opened Seqs
  import opened Text
  import opened AppContext
  import Header
  import ReducerProperties

  /** A demo account: the credentials and the user they sign in as. */
  datatype Credential = Credential(email: string, password: string, user: User)

  /** What a submit does: an error message; an exception thrown while the
      new account is built, which stops the handler before any dispatch,
      message or navigation; or the dispatches and the page navigated to
      afterwards. */
  datatype Outcome = Refused(message: string) | Aborted | SignedIn(actions: seq<Action>, redirect: string)

  /** The landing page after sign-in, by role. */
  function RedirectFor(role: Role): (path: string)
    ensures role == Admin ==> path == "/admin/dashboard"
    ensures role == Seller ==> path == "/seller/dashboard"
    ensures role == Customer ==> path == "/home"
  {
    match role
    case Admin => "/admin/dashboard"
    case Seller => "/seller/dashboard"
    case Customer => "/home"
  }

  /** SET_LOADING on, LOGIN, SET_LOADING off. */
  function SignInActions(u: User): seq<Action> {
    [SetLoading(true), Login(u), SetLoading(false)]
  }

  predicate Matches(c: Credential, email: string, password: string) {
    c.email == email && c.password == password
  }

  /** Sign-in: the first demo account whose email and password both match
      exactly. */
  function SignIn(credentials: seq<Credential>, email: string, password: string): (o: Outcome)
    ensures o.SignedIn? <==> exists i :: 0 <= i < |credentials| && Matches(credentials[i], email, password)
    ensures o.SignedIn? ==>
      exists k :: (0 <= k < |credentials| && Matches(credentials[k], email, password) &&
        (forall j :: 0 <= j < k ==> !Matches(credentials[j], email, password)) &&
        o.actions == SignInActions(credentials[k].user) && o.redirect == RedirectFor(credentials[k].user.role))
    ensures o.Refused? ==> o.message == "Invalid email or password. Please check the demo credentials below."
  {
    match Find(credentials, (c: Credential) => Matches(c, email, password))
    case None => Refused("Invalid email or password. Please check the demo credentials below.")
    case Some(c) => SignedIn(SignInActions(c.user), RedirectFor(c.user.role))
  }

  /** The two kinds of account a visitor can open. */
  datatype AccountType = CustomerAccount | SellerAccount {
    function Role(): Role {
      if this == SellerAccount then Seller else Customer
    }
    /** The tag the user id starts with. */
    function Tag(): string {
      if this == SellerAccount then "seller" else "user"
    }
  }

  datatype RegistrationForm = RegistrationForm(name: string, email: string, password: string, businessName: string)

  /** The clock readings registration uses: the two `Date.now()` reads, for
      the user id and for the address id, as text, and the current time as
      ISO text. */
  datatype Clock = Clock(userStamp: string, addressStamp: string, nowIso: string)

  /** `btoa` accepts only text whose every character is at most U+00FF. */
  predicate IsLatin1(s: string) {
    forall i :: 0 <= i < |s| ==> s[i] as int <= 0xFF
  }

  /** The avatar data URL, or `None` where `btoa` throws. The SVG around the
      initials is ASCII, so the initials decide; `encode` stands for the
      base64 encoding of the SVG drawn around them. */
  function Avatar(name: string, encode: string -> string): Option<string> {
    if IsLatin1(Initials(name)) then Some(encode(Initials(name))) else None
  }

  /** `newUser`, or `None` when building it throws. */
  function NewUser(form: RegistrationForm, kind: AccountType, clock: Clock, encode: string -> string): Option<User> {
    match Avatar(form.name, encode)
    case None => None
    case Some(avatar) =>
      Some(User(kind.Tag() + "-" + clock.userStamp, form.name, form.email, Some(avatar),
                kind.Role(),
                if kind == SellerAccount then Some(form.businessName) else None,
                Some([Address("addr-" + clock.addressStamp, "Home", form.name, "123 New User Street", None,
                              "Demo City", Some("CA"), "90210", "US", None, Some(true))]),
                None,
                Preferences(["Fiction"], true),
                if kind == SellerAccount then Some(false) else None,
                clock.nowIso, None, None))
  }

  /** Registration: required fields first, then the seller's business name,
      then the account, whose avatar encoding may throw. */
  function Register(form: RegistrationForm, kind: AccountType, clock: Clock, encode: string -> string): (o: Outcome)
    ensures o.Refused? <==>
      form.name == "" || form.email == "" || form.password == "" ||
      (kind == SellerAccount && form.businessName == "")
    ensures o.Refused? && (form.name == "" || form.email == "" || form.password == "") ==>
      o.message == "Please fill in all required fields."
    ensures o.Refused? && form.name != "" && form.email != "" && form.password != "" ==>
      o.message == "Business name is required for sellers."
    ensures o.Aborted? <==> !o.Refused? && !IsLatin1(Initials(form.name))
    ensures o.SignedIn? ==> (
      NewUser(form, kind, clock, encode).Some? &&
      o.actions == SignInActions(NewUser(form, kind, clock, encode).value) &&
      o.redirect == RedirectFor(kind.Role()))
  {
    if form.name == "" || form.email == "" || form.password == "" then
      Refused("Please fill in all required fields.")
    else if kind == SellerAccount && form.businessName == "" then
      Refused("Business name is required for sellers.")
    else match NewUser(form, kind, clock, encode)
      case None => Aborted
      case Some(u) => SignedIn(SignInActions(u), RedirectFor(kind.Role()))
  }

  /** Upper-casing keeps a character at or below U+00FF there, and one above
      it above. */
  lemma UpperKeepsLatin1(s: string)
    ensures IsLatin1(ToUpper(s)) <==> IsLatin1(s)
  {
    assert forall i :: 0 <= i < |s| ==> (ToUpper(s)[i] as int <= 0xFF <==> s[i] as int <= 0xFF);
  }

  /** A complete registration aborts exactly when some word of the name
      starts with a character above U+00FF. */
  lemma AbortsIffWideInitial(form: RegistrationForm, kind: AccountType, clock: Clock, encode: string -> string)
    requires !Register(form, kind, clock, encode).Refused?
    ensures var starts := WordStarts(form.name, true);
      Register(form, kind, clock, encode).Aborted? <==> exists i :: 0 <= i < |starts| && starts[i] as int > 0xFF
  {
    InitialsAreWordStarts(form.name);
    UpperKeepsLatin1(WordStarts(form.name, true));
  }

  /** A Cyrillic name cannot register, and the same name in Latin letters
      can. */
  lemma CyrillicNameAborts(kind: AccountType, clock: Clock, encode: string -> string)
    ensures Register(RegistrationForm("Иван", "ivan@example.com", "secret", "Books"), kind, clock, encode).Aborted?
    ensures Register(RegistrationForm("Ivan", "ivan@example.com", "secret", "Books"), kind, clock, encode).SignedIn?
  {
    var cyrillic := RegistrationForm("Иван", "ivan@example.com", "secret", "Books");
    var latin := RegistrationForm("Ivan", "ivan@example.com", "secret", "Books");
    var starts := WordStarts(cyrillic.name, true);
    assert cyrillic.name[0] == 'И' && cyrillic.name[0] != ' ';
    assert starts == ['И'] + WordStarts(cyrillic.name[1..], false);
    assert starts[0] as int > 0xFF;
    AbortsIffWideInitial(cyrillic, kind, clock, encode);
    assert latin.name[1..] == "van" && "van"[1..] == "an" && "an"[1..] == "n" && "n"[1..] == "";
    assert WordStarts("", false) == "";
    assert WordStarts("n", false) == "";
    assert WordStarts("an", false) == "";
    assert WordStarts("van", false) == "";
    assert WordStarts(latin.name, true) == "I";
    AbortsIffWideInitial(latin, kind, clock, encode);
  }

  /** The shape of a new account: the chosen role, a business name and a
      pending approval for sellers only, one default address but no
      `defaultAddressId`, ids from the two clock reads, and the initials of
      the name on the avatar. Building it fails exactly when those initials
      are not all at or below U+00FF. */
  lemma NewUserShape(form: RegistrationForm, kind: AccountType, clock: Clock, encode: string -> string)
    ensures NewUser(form, kind, clock, encode).None? <==> !IsLatin1(ToUpper(WordStarts(form.name, true)))
    ensures NewUser(form, kind, clock, encode).Some? ==>
      var u := NewUser(form, kind, clock, encode).value;
      u.role != Admin && (u.role == Seller <==> kind == SellerAccount) &&
      (u.businessName.Some? <==> kind == SellerAccount) &&
      (kind == SellerAccount ==> u.isApproved == Some(false)) &&
      (kind == CustomerAccount ==> u.isApproved.None?) &&
      |AddressesOf(Some(u))| == 1 && IsTrue(AddressesOf(Some(u))[0].isDefault) &&
      u.defaultAddressId.None? &&
      u.id == kind.Tag() + "-" + clock.userStamp && AddressesOf(Some(u))[0].id == "addr-" + clock.addressStamp &&
      u.avatar == Some(encode(ToUpper(WordStarts(form.name, true))))
  {
    InitialsAreWordStarts(form.name);
  }

  /** Signing in as a new account leaves it signed in, not loading, and with
      no delivery address selected, although its one address is flagged
      default. */
  lemma RegistrationSelectsNothing(env: Env, s: AppState, form: RegistrationForm, kind: AccountType,
                                   clock: Clock, encode: string -> string)
    requires Register(form, kind, clock, encode).SignedIn?
    ensures var u := NewUser(form, kind, clock, encode).value;
      var r := Run(env, s, Register(form, kind, clock, encode).actions);
      r.Some? && r.value.auth == AuthState(Some(u), true, false) && r.value.selectedDeliveryAddress.None?
  {
    var u := NewUser(form, kind, clock, encode).value;
    SignInRuns(env, s, u);
  }

  /** The three sign-in dispatches amount to LOGIN with the loading flag
      off. */
  lemma SignInRuns(env: Env, s: AppState, u: User)
    ensures Run(env, s, SignInActions(u)) == Some(LoginReduce(env, s, u))
  {
    var acts := SignInActions(u);
    var s1 := s.(auth := s.auth.(isLoading := true));
    var s2 := LoginReduce(env, s1, u);
    ReducerProperties.SessionStep(env, s, acts[0]);
    ReducerProperties.SessionStep(env, s1, acts[1]);
    ReducerProperties.SessionStep(env, s2, acts[2]);
    assert s2 == LoginReduce(env, s, u);
    assert acts[1..][1..][1..] == [];
    assert Run(env, s2, acts[1..][1..]) == Run(env, s2, []);
    assert Run(env, s1, acts[1..]) == Run(env, s2, acts[1..][1..]);
    assert Run(env, s, acts) == Run(env, s1, acts[1..]);
  }

  /** The page a user lands on after sign-in is the header logo's target. */
  lemma RedirectIsLogoTarget(u: User)
    ensures RedirectFor(u.role) == Header.LogoTarget(Some(u))
  {
  }
}
