/** The original form page `/`: a flat form state, validated on submit with
    the same rules as the route, that only raises an alert on success and
    sends nothing anywhere. */
module IndexPage {
  import opened Wrappers
  import opened JsObjects
  import opened FieldRules
  import SubmitForm

  /** The members the page renders. */
  const FormKeys: set<string> := {
    "firstName", "lastName", "address1", "address2", "city",
    "state", "zipCode", "country", "ssn", "email", "dob"
  }

  /** The state the page starts in: everything empty but the country, "US". */
  function InitialFormData(): (f: JsObject)
    ensures FormKeys <= f.Keys
    ensures forall k | k in FormKeys && k != "country" :: f[k] == ""
    ensures CountryMatches(Get(f, "country"))
  {
    map["firstName" := "", "lastName" := "", "address1" := "", "address2" := "", "city" := "",
        "state" := "", "zipCode" := "", "country" := "US", "ssn" := "", "email" := "", "dob" := ""]
  }

  /** The page's key for each rule. The page has no addresses rule; its key
      is never recorded. */
  function IndexKey(r: Rule): string
  {
    match r
    case FirstName => "firstName"
    case LastName => "lastName"
    case Addresses => "addresses"
    case State => "state"
    case PostalCode => "zipCode"
    case Country => "country"
    case Ssn => "ssn"
    case Email => "email"
    case BirthDate => "dob"
  }

  lemma IndexKeysDistinct()
    ensures KeysDistinct(IndexKey)
  {
    forall r, r' | r != r' ensures IndexKey(r) != IndexKey(r') {
      // the keys differ in length or in their first character
      assert |IndexKey(r)| != |IndexKey(r')| || IndexKey(r)[0] != IndexKey(r')[0];
    }
  }

  /** The rules the page checks: all but the addresses rule. */
  const IndexRules: set<Rule> := {FirstName, LastName, State, PostalCode, Country, Ssn, Email, BirthDate}

  /** The order in which the page checks them. */
  const IndexOrder: seq<Rule> := [FirstName, LastName, State, PostalCode, Country, Ssn, Email, BirthDate]

  /** Whether the page's validation raises a TypeError: `.match` is called on
      an absent member. */
  predicate PageThrows(f: JsObject)
  {
    "state" !in f || "zipCode" !in f || "ssn" !in f || "email" !in f || "dob" !in f
  }

  /** Whether the page's rule `r` fails. */
  predicate PageRuleFails(f: JsObject, r: Rule)
  {
    match r
    case FirstName => IsFalsy(Get(f, "firstName"))
    case LastName => IsFalsy(Get(f, "lastName"))
    case Addresses => false
    case State => "state" in f && !StateMatches(f["state"])
    case PostalCode => "zipCode" in f && !PostalCodeMatches(f["zipCode"])
    case Country => !CountryMatches(Get(f, "country"))
    case Ssn => "ssn" in f && !SsnMatches(f["ssn"])
    case Email => "email" in f && !EmailMatches(f["email"])
    case BirthDate => "dob" in f && !BirthDateMatches(f["dob"])
  }

  /** The page's rules that fail. */
  function PageFailing(f: JsObject): set<Rule>
  {
    set r | r in IndexRules && PageRuleFails(f, r)
  }

  /** The page's validation as a whole. */
  function PageValidation(f: JsObject): Validation
  {
    IndexKeysDistinct();
    if PageThrows(f) then Threw else Errors(ErrorsFor(IndexKey, PageFailing(f), IndexRules))
  }

  /** Checking the rules one after another in the page's order records the
      failing ones. */
  lemma PageValidationIsFold(f: JsObject)
    requires !PageThrows(f)
    ensures PageValidation(f) == Errors(ErrorsAfter(IndexKey, PageFailing(f), IndexOrder, 8))
  {
    IndexKeysDistinct();
    ErrorsAfterIsFor(IndexKey, PageFailing(f), IndexOrder, 8);
    assert IndexOrder[..8] == IndexOrder;
    assert (set r | r in IndexOrder) == IndexRules;
  }

  /** The name, state and postal code part of the submit handler: None when
      it throws, otherwise the errors once the first four rules have been
      checked. */
  method ValidateNamesStateAndZip(f: JsObject) returns (r: Option<JsObject>)
    ensures r.None? <==> "state" !in f || "zipCode" !in f
    ensures r.Some? ==> r.value == ErrorsAfter(IndexKey, PageFailing(f), IndexOrder, 4)
  {
    var newErrors: JsObject := map[];
    ghost var failing := PageFailing(f);
    if IsFalsy(Get(f, "firstName")) {
      newErrors := newErrors["firstName" := FirstNameRequired];
    }
    ErrorsAfterStep(IndexKey, failing, IndexOrder, 0);
    assert newErrors == ErrorsAfter(IndexKey, failing, IndexOrder, 1);
    if IsFalsy(Get(f, "lastName")) {
      newErrors := newErrors["lastName" := LastNameRequired];
    }
    ErrorsAfterStep(IndexKey, failing, IndexOrder, 1);
    assert newErrors == ErrorsAfter(IndexKey, failing, IndexOrder, 2);
    var state := Get(f, "state");
    if state.None? {
      return None;  // `.match` on undefined
    }
    if !StateMatches(state.value) {
      newErrors := newErrors["state" := StateMessage];
    }
    ErrorsAfterStep(IndexKey, failing, IndexOrder, 2);
    assert newErrors == ErrorsAfter(IndexKey, failing, IndexOrder, 3);
    var zipCode := Get(f, "zipCode");
    if zipCode.None? {
      return None;
    }
    if !PostalCodeMatches(zipCode.value) {
      newErrors := newErrors["zipCode" := PostalCodeMessage];
    }
    ErrorsAfterStep(IndexKey, failing, IndexOrder, 3);
    return Some(newErrors);
  }

  /** The country and identity part of the submit handler: None when it
      throws, otherwise the errors once every rule has been checked. */
  method ValidateCountryAndIdentity(f: JsObject, errors: JsObject) returns (r: Option<JsObject>)
    requires errors == ErrorsAfter(IndexKey, PageFailing(f), IndexOrder, 4)
    ensures r.None? <==> "ssn" !in f || "email" !in f || "dob" !in f
    ensures r.Some? ==> r.value == ErrorsAfter(IndexKey, PageFailing(f), IndexOrder, 8)
  {
    var newErrors := errors;
    ghost var failing := PageFailing(f);
    if !CountryMatches(Get(f, "country")) {
      newErrors := newErrors["country" := CountryMessage];
    }
    ErrorsAfterStep(IndexKey, failing, IndexOrder, 4);
    assert newErrors == ErrorsAfter(IndexKey, failing, IndexOrder, 5);
    var ssn := Get(f, "ssn");
    if ssn.None? {
      return None;
    }
    if !SsnMatches(ssn.value) {
      newErrors := newErrors["ssn" := SsnMessage];
    }
    ErrorsAfterStep(IndexKey, failing, IndexOrder, 5);
    assert newErrors == ErrorsAfter(IndexKey, failing, IndexOrder, 6);
    var email := Get(f, "email");
    if email.None? {
      return None;
    }
    if !EmailMatches(email.value) {
      newErrors := newErrors["email" := EmailMessage];
    }
    ErrorsAfterStep(IndexKey, failing, IndexOrder, 6);
    assert newErrors == ErrorsAfter(IndexKey, failing, IndexOrder, 7);
    var dob := Get(f, "dob");
    if dob.None? {
      return None;
    }
    if !BirthDateMatches(dob.value) {
      newErrors := newErrors["dob" := BirthDateMessage];
    }
    ErrorsAfterStep(IndexKey, failing, IndexOrder, 7);
    return Some(newErrors);
  }

  /** The validation in the submit handler, one conditional assignment per rule. */
  method ValidatePage(f: JsObject) returns (v: Validation)
    ensures v == PageValidation(f)
  {
    var partial := ValidateNamesStateAndZip(f);
    if partial.None? {
      return Threw;
    }
    var errors := ValidateCountryAndIdentity(f, partial.value);
    if errors.None? {
      return Threw;
    }
    PageValidationIsFold(f);
    return Errors(errors.value);
  }

  /** `handleInputChange`: the named member takes the new value and every
      other member keeps its own. */
  function InputChanged(f: JsObject, name: string, value: string): (r: JsObject)
    ensures Get(r, name) == Some(value)
    ensures forall k | k != name :: Get(r, k) == Get(f, k)
    ensures r.Keys == f.Keys + {name}
  {
    f[name := value]
  }

  /** Submitting the page as it starts reports every rule but the country's. */
  lemma InitialSubmitReports()
    ensures PageValidation(InitialFormData()).Errors?
    ensures forall r | r in IndexRules ::
      IndexKey(r) in PageValidation(InitialFormData()).errors <==> r != Country
  {
    var f := InitialFormData();
    assert CountOf("", '@') == 0;
    IndexKeysDistinct();
    forall r | r in IndexRules
      ensures IndexKey(r) in PageValidation(f).errors <==> r != Country
    {
      assert PageRuleFails(f, r) <==> r != Country;
      ErrorsForKeys(IndexKey, PageFailing(f), IndexRules, r);
    }
  }

  /** The page component with its two pieces of state. */
  class IndexComponent {
    var formData: JsObject
    var errors: JsObject

    constructor()
      ensures formData == InitialFormData() && errors == map[]
    {
      formData := InitialFormData();
      errors := map[];
    }

    method HandleInputChange(name: string, value: string)
      modifies this
      ensures formData == InputChanged(old(formData), name, value)
      ensures errors == old(errors)
    {
      formData := InputChanged(formData, name, value);
    }

    /** `handleSubmit`: `rejected` when a TypeError escapes, `alerted` when the
      success alert is shown. A success leaves earlier errors in place. */
    method HandleSubmit() returns (rejected: bool, alerted: bool)
      modifies this
      ensures formData == old(formData)
      ensures rejected <==> PageValidation(formData).Threw?
      ensures alerted <==> PageValidation(formData) == Errors(map[])
      ensures rejected || alerted ==> errors == old(errors)
      ensures !rejected && !alerted ==> errors == PageValidation(formData).errors && errors != map[]
    {
      var v := ValidatePage(formData);
      if v.Threw? {
        return true, false;
      }
      if |v.errors| == 0 {
        return false, true;
      }
      errors := v.errors;
      return false, false;
    }
  }

  /** The rules whose members the route reads at the top level of its body. */
  const TopRules: seq<Rule> := [FirstName, LastName, Ssn, Email, BirthDate]

  /** The rules whose members the route reads from the first address. */
  const AddressFieldRules: seq<Rule> := [State, PostalCode, Country]

  /** The page's members for `rules`, each under the route's key for its rule;
      a member the page lacks is absent here too. */
  function Renamed(f: JsObject, rules: seq<Rule>): JsObject
  {
    if rules == [] then map[]
    else
      var m := Renamed(f, rules[..|rules| - 1]);
      var r := rules[|rules| - 1];
      if IndexKey(r) in f then m[SubmitForm.ServerKey(r) := f[IndexKey(r)]] else m - {SubmitForm.ServerKey(r)}
  }

  /** Reading a renamed member reads the page's member for the same rule. */
  lemma {:induction false} RenamedReads(f: JsObject, rules: seq<Rule>, r: Rule)
    requires r in rules
    ensures Get(Renamed(f, rules), SubmitForm.ServerKey(r)) == Get(f, IndexKey(r))
  {
    var init, last := rules[..|rules| - 1], rules[|rules| - 1];
    if r != last {
      assert r in init by { assert rules == init + [last]; }
      RenamedReads(f, init, r);
      SubmitForm.ServerKeysDiffer(r, last);
    }
  }

  /** The page's checked members in the route's layout: each renamed to the
      route's key, the address members gathered into a single address. */
  function ToServerBody(f: JsObject): SubmitForm.Body
  {
    SubmitForm.Body(Renamed(f, TopRules), Some([Renamed(f, AddressFieldRules)]))
  }

  /** Every member the route reads from the converted body is the page's
      member of the same rule, and the converted body has a single address. */
  lemma ToServerBodyReads(f: JsObject)
    ensures SubmitForm.FirstAddress(ToServerBody(f)) == Some(Renamed(f, AddressFieldRules))
    ensures Get(ToServerBody(f).fields, "name_first") == Get(f, "firstName")
    ensures Get(ToServerBody(f).fields, "name_last") == Get(f, "lastName")
    ensures Get(ToServerBody(f).fields, "document_ssn") == Get(f, "ssn")
    ensures Get(ToServerBody(f).fields, "email_address") == Get(f, "email")
    ensures Get(ToServerBody(f).fields, "birth_date") == Get(f, "dob")
    ensures Get(Renamed(f, AddressFieldRules), "address_state") == Get(f, "state")
    ensures Get(Renamed(f, AddressFieldRules), "address_postal_code") == Get(f, "zipCode")
    ensures Get(Renamed(f, AddressFieldRules), "address_country_code") == Get(f, "country")
  {
    RenamedReads(f, TopRules, FirstName);
    RenamedReads(f, TopRules, LastName);
    RenamedReads(f, TopRules, Ssn);
    RenamedReads(f, TopRules, Email);
    RenamedReads(f, TopRules, BirthDate);
    RenamedReads(f, AddressFieldRules, State);
    RenamedReads(f, AddressFieldRules, PostalCode);
    RenamedReads(f, AddressFieldRules, Country);
  }

  /** On the converted data the route throws exactly when the page does, and
      the same rules fail. */
  lemma ServerSeesPageRules(f: JsObject)
    ensures SubmitForm.ServerThrows(ToServerBody(f)) <==> PageThrows(f)
    ensures SubmitForm.ServerFailing(ToServerBody(f)) == PageFailing(f)
  {
    ToServerBodyReads(f);
    forall r | r in SubmitForm.ServerRules
      ensures SubmitForm.ServerRuleFails(ToServerBody(f), r) <==> r in IndexRules && PageRuleFails(f, r)
    {
      RuleAgrees(f, r);
    }
  }

  /** One rule at a time: the route's rule fails on the converted data exactly
      when the page checks the same rule and it fails. */
  lemma RuleAgrees(f: JsObject, r: Rule)
    ensures SubmitForm.ServerRuleFails(ToServerBody(f), r) <==> r in IndexRules && PageRuleFails(f, r)
  {
    ToServerBodyReads(f);
  }

  /** The page and the route, given the same data, throw alike and record the
      same failing rules with the same messages, each under its own keys. */
  lemma PageAgreesWithServer(f: JsObject)
    ensures PageValidation(f).Threw? <==> SubmitForm.ServerValidation(ToServerBody(f)).Threw?
    ensures PageValidation(f).Errors? ==>
      (SubmitForm.ServerKeysDistinct();
       SubmitForm.ServerValidation(ToServerBody(f)) == Errors(ErrorsFor(SubmitForm.ServerKey, PageFailing(f), IndexRules)))
    ensures PageValidation(f).Errors? ==> forall r ::
      (IndexKey(r) in PageValidation(f).errors <==> SubmitForm.ServerKey(r) in SubmitForm.ServerValidation(ToServerBody(f)).errors)
  {
    ServerSeesPageRules(f);
    SubmitForm.ServerKeysDistinct();
    IndexKeysDistinct();
    ErrorsForFailingOnly(SubmitForm.ServerKey, PageFailing(f), SubmitForm.ServerRules, IndexRules);
    if PageValidation(f).Errors? {
      forall r ensures IndexKey(r) in PageValidation(f).errors <==>
        SubmitForm.ServerKey(r) in SubmitForm.ServerValidation(ToServerBody(f)).errors
      {
        ErrorsForKeys(IndexKey, PageFailing(f), IndexRules, r);
        ErrorsForKeys(SubmitForm.ServerKey, PageFailing(f), IndexRules, r);
      }
    }
  }

  /** The page records no error exactly when it does not throw and none of
      its rules fails. */
  lemma PageEmptyIffNoRuleFails(f: JsObject)
    ensures PageValidation(f) == Errors(map[]) <==> !PageThrows(f) && PageFailing(f) == {}
  {
    IndexKeysDistinct();
    ErrorsForEmpty(IndexKey, PageFailing(f), IndexRules);
  }

  /** The page records no error exactly when the route, given the same data,
      records none. */
  lemma PageEmptyIffServerEmpty(f: JsObject)
    ensures PageValidation(f) == Errors(map[]) <==> SubmitForm.ServerValidation(ToServerBody(f)) == Errors(map[])
  {
    PageEmptyIffNoRuleFails(f);
    PageAgreesWithServer(f);
    SubmitForm.ServerKeysDistinct();
    ErrorsForEmpty(SubmitForm.ServerKey, PageFailing(f), IndexRules);
  }

  /** The page accepts its data exactly when the route accepts the same data. */
  lemma PageAcceptsIffServerAccepts(f: JsObject)
    ensures PageValidation(f) == Errors(map[]) <==> SubmitForm.ServerAccepts(ToServerBody(f))
  {
    PageEmptyIffServerEmpty(f);
    SubmitForm.ServerValidationEmptyIff(ToServerBody(f));
  }
}
