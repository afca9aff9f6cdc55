/** The address editor (project/src/components/Address/AddressForm.tsx):
    the form's initial contents, its validation rules, the address it saves
    and the reset of the state field when the country changes. The regular
    expressions of the source are written out as character-class
    predicates. */
module AddressForm {
  import opened Types
  import opened Text

  /** The form's text inputs; an absent optional field is the empty text. */
  datatype FormData = FormData(
    addressLabel: string,
    name: string,
    street: string,
    apartment: string,
    city: string,
    state: string,
    zipCode: string,
    country: string,
    phone: string)

  /** The keys of the error record. */
  datatype Field = LabelField | NameField | StreetField | CityField | CountryField
                 | StateField | ZipField | PhoneField

  /** The form opened on an existing address, or empty for a new one, with
      the country defaulting to "US". */
  function InitialForm(address: Option<Address>): (f: FormData)
    ensures address.None? ==> f == FormData("", "", "", "", "", "", "", "US", "")
    ensures address.Some? ==>
      var a := address.value;
      f.addressLabel == a.addressLabel && f.name == a.name && f.street == a.street &&
      f.city == a.city && f.zipCode == a.zipCode &&
      f.apartment == OrEmpty(a.apartment) && f.state == OrEmpty(a.state) && f.phone == OrEmpty(a.phone) &&
      f.country == (if a.country == "" then "US" else a.country)
  {
    match address
    case None => FormData("", "", "", "", "", "", "", "US", "")
    case Some(a) =>
      FormData(a.addressLabel, a.name, a.street, OrEmpty(a.apartment), a.city, OrEmpty(a.state),
               a.zipCode, if a.country == "" then "US" else a.country, OrEmpty(a.phone))
  }

  // ----- postal code shapes -----

  predicate Digits(s: string, n: nat) {
    |s| == n && AllDigits(s)
  }

  predicate IsAlnum(c: char) {
    IsLetter(c) || IsDigit(c)
  }

  /** `\d{5}(-\d{4})?` */
  predicate UsZip(z: string) {
    Digits(z, 5) || (|z| == 10 && Digits(z[..5], 5) && z[5] == '-' && Digits(z[6..], 4))
  }

  /** `[A-Za-z]\d[A-Za-z] ?\d[A-Za-z]\d` */
  predicate CaPostal(z: string) {
    var tail := if |z| == 7 && z[3] == ' ' then z[4..] else if |z| == 6 then z[3..] else "";
    |z| >= 6 && IsLetter(z[0]) && IsDigit(z[1]) && IsLetter(z[2]) &&
    |tail| == 3 && IsDigit(tail[0]) && IsLetter(tail[1]) && IsDigit(tail[2])
  }

  /** The outward code `[A-Za-z]{1,2}\d[A-Za-z\d]?`. */
  predicate GbOutward(o: string) {
    (|o| == 2 && IsLetter(o[0]) && IsDigit(o[1])) ||
    (|o| == 3 && IsLetter(o[0]) && IsLetter(o[1]) && IsDigit(o[2])) ||
    (|o| == 3 && IsLetter(o[0]) && IsDigit(o[1]) && IsAlnum(o[2])) ||
    (|o| == 4 && IsLetter(o[0]) && IsLetter(o[1]) && IsDigit(o[2]) && IsAlnum(o[3]))
  }

  /** The inward code `\d[A-Za-z]{2}`. */
  predicate GbInward(i: string) {
    |i| == 3 && IsDigit(i[0]) && IsLetter(i[1]) && IsLetter(i[2])
  }

  /** `[A-Za-z]{1,2}\d[A-Za-z\d]? ?\d[A-Za-z]{2}`: the inward code is the
      last three characters, optionally preceded by one space. */
  predicate GbPostcode(z: string) {
    |z| >= 3 && GbInward(z[|z| - 3..]) &&
    (GbOutward(z[..|z| - 3]) || (|z| >= 4 && z[|z| - 4] == ' ' && GbOutward(z[..|z| - 4])))
  }

  /** `\d{3}-?\d{4}` */
  predicate JpPostal(z: string) {
    Digits(z, 7) || (|z| == 8 && Digits(z[..3], 3) && z[3] == '-' && Digits(z[4..], 4))
  }

  /** `\d{5}-?\d{3}` */
  predicate BrCep(z: string) {
    Digits(z, 8) || (|z| == 9 && Digits(z[..5], 5) && z[5] == '-' && Digits(z[6..], 3))
  }

  /** The postal code check of the country, given a non-blank code. */
  predicate ZipMatches(country: string, z: string) {
    if country == "US" then UsZip(z)
    else if country == "CA" then CaPostal(z)
    else if country == "GB" then GbPostcode(z)
    else if country == "DE" || country == "FR" || country == "MX" then Digits(z, 5)
    else if country == "AU" then Digits(z, 4)
    else if country == "JP" then JpPostal(z)
    else if country == "IN" then Digits(z, 6)
    else if country == "BR" then BrCep(z)
    else 3 <= |z| <= 10
  }

  /** `[\d\s\-\(\)]` */
  predicate IsPhoneChar(c: char) {
    IsDigit(c) || IsSpace(c) || c == '-' || c == '(' || c == ')'
  }

  predicate AllPhoneChars(s: string) {
    forall i :: 0 <= i < |s| ==> IsPhoneChar(s[i])
  }

  /** `[\+]?[\d\s\-\(\)]+` */
  predicate PhoneOk(p: string) {
    (|p| >= 1 && AllPhoneChars(p)) || (|p| >= 2 && p[0] == '+' && AllPhoneChars(p[1..]))
  }

  // ----- messages -----

  function ZipFormatMessage(country: string): string {
    if country == "US" then "Invalid ZIP code format (e.g., 12345 or 12345-6789)"
    else if country == "CA" then "Invalid postal code format (e.g., K1A 0A6)"
    else if country == "GB" then "Invalid postcode format (e.g., SW1A 1AA)"
    else if country == "DE" then "Invalid postal code format (e.g., 12345)"
    else if country == "FR" then "Invalid postal code format (e.g., 75001)"
    else if country == "AU" then "Invalid postcode format (e.g., 2000)"
    else if country == "JP" then "Invalid postal code format (e.g., 100-0001)"
    else if country == "IN" then "Invalid PIN code format (e.g., 110001)"
    else if country == "BR" then "Invalid CEP format (e.g., 01310-100)"
    else if country == "MX" then "Invalid postal code format (e.g., 01000)"
    else "Postal code must be between 3 and 10 characters"
  }

  /** Whether the form's rule for one field fails. */
  predicate Fails(f: FormData, stateCodes: seq<string>, k: Field) {
    match k
    case LabelField => IsBlank(f.addressLabel)
    case NameField => IsBlank(f.name)
    case StreetField => IsBlank(f.street)
    case CityField => IsBlank(f.city)
    case CountryField => IsBlank(f.country)
    case StateField => |stateCodes| > 0 && IsBlank(f.state)
    case ZipField => IsBlank(f.zipCode) || !ZipMatches(f.country, f.zipCode)
    case PhoneField => f.phone != "" && !PhoneOk(f.phone)
  }

  /** The message recorded for a failing field. */
  function Message(f: FormData, k: Field): string {
    match k
    case LabelField => "Label is required"
    case NameField => "Name is required"
    case StreetField => "Street address is required"
    case CityField => "City is required"
    case CountryField => "Country is required"
    case StateField => "State/Province is required"
    case ZipField =>
      if IsBlank(f.zipCode) then "Postal/ZIP code is required" else ZipFormatMessage(f.country)
    case PhoneField => "Invalid phone number format"
  }

  const AllFields: set<Field> :=
    {LabelField, NameField, StreetField, CityField, CountryField, StateField, ZipField, PhoneField}

  /** `validateForm`: one message per failing field. `stateCodes` are the
      codes the country lists (none for a country without states). */
  function Validate(f: FormData, stateCodes: seq<string>): (errors: map<Field, string>)
    ensures LabelField in errors <==> IsBlank(f.addressLabel)
    ensures NameField in errors <==> IsBlank(f.name)
    ensures StreetField in errors <==> IsBlank(f.street)
    ensures CityField in errors <==> IsBlank(f.city)
    ensures CountryField in errors <==> IsBlank(f.country)
    ensures StateField in errors <==> |stateCodes| > 0 && IsBlank(f.state)
    ensures ZipField in errors <==> IsBlank(f.zipCode) || !ZipMatches(f.country, f.zipCode)
    ensures ZipField in errors && IsBlank(f.zipCode) ==> errors[ZipField] == "Postal/ZIP code is required"
    ensures ZipField in errors && !IsBlank(f.zipCode) ==> errors[ZipField] == ZipFormatMessage(f.country)
    ensures PhoneField in errors <==> f.phone != "" && !PhoneOk(f.phone)
    ensures LabelField in errors ==> errors[LabelField] == "Label is required"
    ensures NameField in errors ==> errors[NameField] == "Name is required"
    ensures StreetField in errors ==> errors[StreetField] == "Street address is required"
    ensures CityField in errors ==> errors[CityField] == "City is required"
    ensures CountryField in errors ==> errors[CountryField] == "Country is required"
    ensures StateField in errors ==> errors[StateField] == "State/Province is required"
    ensures PhoneField in errors ==> errors[PhoneField] == "Invalid phone number format"
  {
    map k | k in AllFields && Fails(f, stateCodes, k) :: Message(f, k)
  }

  /** Every field rule the form checks, stated field by field. */
  predicate AllRulesHold(f: FormData, stateCodes: seq<string>) {
    !IsBlank(f.addressLabel) && !IsBlank(f.name) && !IsBlank(f.street) && !IsBlank(f.city) &&
    !IsBlank(f.country) && !(|stateCodes| > 0 && IsBlank(f.state)) &&
    !IsBlank(f.zipCode) && ZipMatches(f.country, f.zipCode) &&
    (f.phone == "" || PhoneOk(f.phone))
  }

  /** The form is valid (no error recorded) exactly when every rule holds. */
  lemma ValidIffRulesHold(f: FormData, stateCodes: seq<string>)
    ensures |Validate(f, stateCodes)| == 0 <==> AllRulesHold(f, stateCodes)
  {
    var errors := Validate(f, stateCodes);
    if !AllRulesHold(f, stateCodes) {
      var k :| k in errors;
      assert k in errors.Keys;
    } else {
      forall k: Field ensures k !in errors {
        match k
        case LabelField => case NameField => case StreetField => case CityField =>
        case CountryField => case StateField => case ZipField => case PhoneField =>
      }
      assert errors.Keys == {};
    }
  }

  /** `handleSubmit`: nothing is saved while an error remains; otherwise the
      address keeps the edited address's id (a fresh `addr-<stamp>` id for a
      new one), empty optional fields are dropped, and the default flag is
      the edited address's, or false. */
  function Submit(address: Option<Address>, f: FormData, stateCodes: seq<string>, stamp: string): (r: Option<Address>)
    ensures r.Some? <==> AllRulesHold(f, stateCodes)
    ensures r.Some? ==>
      var a := r.value;
      a.addressLabel == f.addressLabel && a.name == f.name && a.street == f.street &&
      a.city == f.city && a.zipCode == f.zipCode && a.country == f.country &&
      OrEmpty(a.apartment) == f.apartment && OrEmpty(a.state) == f.state && OrEmpty(a.phone) == f.phone &&
      a.apartment != Some("") && a.state != Some("") && a.phone != Some("")
    ensures r.Some? && address.Some? && address.value.id != "" ==> r.value.id == address.value.id
    ensures r.Some? && (address.None? || address.value.id == "") ==> r.value.id == "addr-" + stamp
    ensures r.Some? ==> r.value.isDefault == Some(address.Some? && IsTrue(address.value.isDefault))
  {
    ValidIffRulesHold(f, stateCodes);
    if |Validate(f, stateCodes)| > 0 then None
    else
      var id := if address.Some? && address.value.id != "" then address.value.id else "addr-" + stamp;
      Some(Address(id, f.addressLabel, f.name, f.street, NonEmpty(f.apartment), f.city,
                   NonEmpty(f.state), f.zipCode, f.country, NonEmpty(f.phone),
                   Some(address.Some? && IsTrue(address.value.isDefault))))
  }

  /** An address as the form itself produces it: a non-empty id and
      country, no empty optional text and a definite default flag. */
  predicate Normal(a: Address) {
    a.id != "" && a.country != "" &&
    a.apartment != Some("") && a.state != Some("") && a.phone != Some("") && a.isDefault.Some?
  }

  /** Opening a normal address in the editor and saving it unchanged gives
      the same address back, provided it passes validation. */
  lemma SaveUnchangedRoundTrip(a: Address, stateCodes: seq<string>, stamp: string)
    requires Normal(a)
    requires AllRulesHold(InitialForm(Some(a)), stateCodes)
    ensures Submit(Some(a), InitialForm(Some(a)), stateCodes, stamp) == Some(a)
  {
    var r := Submit(Some(a), InitialForm(Some(a)), stateCodes, stamp).value;
    assert r.id == a.id && r.country == a.country;
    assert r.apartment == a.apartment;
    assert r.state == a.state;
    assert r.phone == a.phone;
    if a.isDefault.value {
      assert r.isDefault == a.isDefault;
    } else {
      assert r.isDefault == a.isDefault;
    }
  }

  /** The `useEffect` on the country: the state is cleared when the new
      country has states and the current one is not among their codes. */
  function CountryChange(f: FormData, stateCodes: seq<string>): (r: FormData)
    ensures r.(state := f.state) == f
    ensures r.state == f.state || r.state == ""
    ensures |stateCodes| > 0 ==> r.state == "" || r.state in stateCodes
    ensures f.state in stateCodes || |stateCodes| == 0 ==> r == f
  {
    if |stateCodes| > 0 && f.state !in stateCodes then f.(state := "") else f
  }

  /** After the reset, a country with states either has a listed state or
      reports the state as missing on submit. */
  lemma CountryChangeStateRule(f: FormData, stateCodes: seq<string>)
    requires forall k :: 0 <= k < |stateCodes| ==> !IsBlank(stateCodes[k])
    ensures var g := CountryChange(f, stateCodes);
      StateField in Validate(g, stateCodes) <==> |stateCodes| > 0 && g.state !in stateCodes
  {
    var g := CountryChange(f, stateCodes);
    if |stateCodes| > 0 && g.state in stateCodes {
      var k :| 0 <= k < |stateCodes| && stateCodes[k] == g.state;
    }
    if |stateCodes| > 0 && g.state !in stateCodes {
      assert g.state == "";
    }
  }

  /** The sample codes quoted in the error messages pass their country's
      check. */
  lemma UsSamplesAccepted()
    ensures ZipMatches("US", "12345") && ZipMatches("US", "12345-6789")
  {
    assert "12345-6789"[..5] == "12345" && "12345-6789"[6..] == "6789";
  }

  lemma CaSamplesAccepted()
    ensures ZipMatches("CA", "K1A 0A6") && ZipMatches("CA", "K1A0A6")
  {
    assert "K1A 0A6"[4..] == "0A6";
  }

  lemma GbSamplesAccepted()
    ensures ZipMatches("GB", "SW1A 1AA") && ZipMatches("GB", "M1 1AE")
  {
    assert "SW1A 1AA"[5..] == "1AA" && "SW1A 1AA"[..4] == "SW1A";
    assert "M1 1AE"[3..] == "1AE" && "M1 1AE"[..2] == "M1";
  }

  lemma DashedSamplesAccepted()
    ensures ZipMatches("JP", "100-0001") && ZipMatches("BR", "01310-100")
  {
    assert "100-0001"[..3] == "100" && "100-0001"[4..] == "0001";
    assert "01310-100"[..5] == "01310" && "01310-100"[6..] == "100";
  }

  /** Near misses are rejected: a ZIP+4 without its dash, a Canadian code
      with two spaces, a Japanese code with the dash misplaced. */
  lemma MalformedPostcodesRejected()
    ensures !ZipMatches("US", "123456789") && !ZipMatches("US", "1234")
    ensures !ZipMatches("CA", "K1A  0A6") && !ZipMatches("JP", "1000-001")
    ensures !ZipMatches("GB", "SW1A1A") && !ZipMatches("ZZ", "12")
  {
    assert "SW1A1A"[3..] == "A1A";
  }
}
