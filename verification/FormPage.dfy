/** The entry form page `/form`: it holds the form's state, validates it on
    submit, sends it to `/api/submit-form` when no rule fails, and moves on
    to `/result` with the service's answer. */
module FormPage {
  import opened Wrappers
  import opened JsObjects
  import opened FieldRules
  import SubmitForm

  /** The page's `formData`: its top-level string members, and its
      `addresses` array of address objects. */
  datatype FormData = FormData(fields: JsObject, addresses: seq<JsObject>)

  /** The top-level members the page renders, which are also the keys the
      page's validation can record. */
  const FieldKeys: set<string> := {"name_first", "name_last", "document_ssn", "email_address", "birth_date"}

  /** The members of an address the page renders. */
  const AddressKeys: set<string> := {
    "address_line_1", "address_line_2", "address_city",
    "address_state", "address_postal_code", "address_country_code"
  }

  /** The shape the page's state keeps: every rendered member present and a
      single address. */
  predicate WellShaped(fd: FormData)
  {
    && FieldKeys <= fd.fields.Keys
    && |fd.addresses| == 1
    && AddressKeys <= fd.addresses[0].Keys
  }

  /** The state the page starts in: everything empty but the country, "US". */
  function InitialFormData(): (fd: FormData)
    ensures WellShaped(fd)
    ensures forall k | k in FieldKeys :: fd.fields[k] == ""
    ensures forall k | k in AddressKeys && k != "address_country_code" :: fd.addresses[0][k] == ""
    ensures CountryMatches(Get(fd.addresses[0], "address_country_code"))
  {
    FormData(
      map["name_first" := "", "name_last" := "", "document_ssn" := "", "email_address" := "", "birth_date" := ""],
      [map["address_line_1" := "", "address_line_2" := "", "address_city" := "",
           "address_state" := "", "address_postal_code" := "", "address_country_code" := "US"]])
  }

  /** The body the route receives for `JSON.stringify(formData)`. */
  function RequestBody(fd: FormData): SubmitForm.Body
  {
    SubmitForm.Body(fd.fields, Some(fd.addresses))
  }

  /** Some check on the first address does not pass: a member `.match` is
      called on is absent, or a rule fails. */
  predicate AddressNotAccepted(address: JsObject)
  {
    || "address_state" !in address || !StateMatches(address["address_state"])
    || "address_postal_code" !in address || !PostalCodeMatches(address["address_postal_code"])
    || !CountryMatches(Get(address, "address_country_code"))
  }

  /** Whether the page's validation raises a TypeError: there is no first
      address, an address check does not pass (the page then assigns through
      `newErrors.addresses`, which is undefined), or a member it calls
      `.match` on is absent. */
  predicate PageThrows(fd: FormData)
  {
    || |fd.addresses| == 0
    || AddressNotAccepted(fd.addresses[0])
    || "document_ssn" !in fd.fields || "email_address" !in fd.fields || "birth_date" !in fd.fields
  }

  /** The rules the page records: the address rules throw instead. */
  const PageRules: set<Rule> := {FirstName, LastName, Ssn, Email, BirthDate}

  /** The order in which the page checks the rules it records. */
  const PageOrder: seq<Rule> := [FirstName, LastName, Ssn, Email, BirthDate]

  /** Whether the recorded rule `r` fails (the page records its errors under
      the route's keys). */
  predicate PageRuleFails(fd: FormData, r: Rule)
  {
    match r
    case FirstName => IsFalsy(Get(fd.fields, "name_first"))
    case LastName => IsFalsy(Get(fd.fields, "name_last"))
    case Ssn => "document_ssn" in fd.fields && !SsnMatches(fd.fields["document_ssn"])
    case Email => "email_address" in fd.fields && !EmailMatches(fd.fields["email_address"])
    case BirthDate => "birth_date" in fd.fields && !BirthDateMatches(fd.fields["birth_date"])
    case _ => false
  }

  /** The recorded rules that fail. */
  function PageFailing(fd: FormData): set<Rule>
  {
    set r | r in PageRules && PageRuleFails(fd, r)
  }

  /** The page's validation as a whole. */
  function PageValidation(fd: FormData): Validation
  {
    SubmitForm.ServerKeysDistinct();
    if PageThrows(fd) then Threw else Errors(ErrorsFor(SubmitForm.ServerKey, PageFailing(fd), PageRules))
  }

  /** Checking the rules one after another in the page's order records the
      failing ones. */
  lemma PageValidationIsFold(fd: FormData)
    requires !PageThrows(fd)
    ensures PageValidation(fd) == Errors(ErrorsAfter(SubmitForm.ServerKey, PageFailing(fd), PageOrder, 5))
  {
    SubmitForm.ServerKeysDistinct();
    ErrorsAfterIsFor(SubmitForm.ServerKey, PageFailing(fd), PageOrder, 5);
    assert PageOrder[..5] == PageOrder;
    assert (set r | r in PageOrder) == PageRules;
  }

  /** The address part of the submit handler: it carries on only when there is
      a first address and each of its checks passes. */
  method CheckFirstAddress(fd: FormData) returns (passes: bool)
    ensures passes <==> |fd.addresses| > 0 && !AddressNotAccepted(fd.addresses[0])
  {
    if |fd.addresses| == 0 {
      return false;  // formData.addresses[0] is undefined
    }
    var address := fd.addresses[0];
    var state := Get(address, "address_state");
    if state.None? || !StateMatches(state.value) {
      return false;  // `.match` on undefined, or newErrors.addresses[0] with newErrors.addresses undefined
    }
    var postalCode := Get(address, "address_postal_code");
    if postalCode.None? || !PostalCodeMatches(postalCode.value) {
      return false;
    }
    return CountryMatches(Get(address, "address_country_code"));
  }

  /** The identity part of the submit handler: None when it throws, otherwise
      the errors once every recorded rule has been checked. */
  method ValidatePageIdentity(fd: FormData, errors: JsObject) returns (r: Option<JsObject>)
    requires errors == ErrorsAfter(SubmitForm.ServerKey, PageFailing(fd), PageOrder, 2)
    ensures r.None? <==> "document_ssn" !in fd.fields || "email_address" !in fd.fields || "birth_date" !in fd.fields
    ensures r.Some? ==> r.value == ErrorsAfter(SubmitForm.ServerKey, PageFailing(fd), PageOrder, 5)
  {
    var newErrors := errors;
    ghost var failing := PageFailing(fd);
    var ssn := Get(fd.fields, "document_ssn");
    if ssn.None? {
      return None;
    }
    if !SsnMatches(ssn.value) {
      newErrors := newErrors["document_ssn" := SsnMessage];
    }
    ErrorsAfterStep(SubmitForm.ServerKey, failing, PageOrder, 2);
    assert newErrors == ErrorsAfter(SubmitForm.ServerKey, failing, PageOrder, 3);
    var email := Get(fd.fields, "email_address");
    if email.None? {
      return None;
    }
    if !EmailMatches(email.value) {
      newErrors := newErrors["email_address" := EmailMessage];
    }
    ErrorsAfterStep(SubmitForm.ServerKey, failing, PageOrder, 3);
    assert newErrors == ErrorsAfter(SubmitForm.ServerKey, failing, PageOrder, 4);
    var birthDate := Get(fd.fields, "birth_date");
    if birthDate.None? {
      return None;
    }
    if !BirthDateMatches(birthDate.value) {
      newErrors := newErrors["birth_date" := BirthDateMessage];
    }
    ErrorsAfterStep(SubmitForm.ServerKey, failing, PageOrder, 4);
    return Some(newErrors);
  }

  /** The validation in the submit handler, one conditional assignment per rule. */
  method ValidatePage(fd: FormData) returns (v: Validation)
    ensures v == PageValidation(fd)
  {
    var newErrors: JsObject := map[];
    ghost var failing := PageFailing(fd);
    if IsFalsy(Get(fd.fields, "name_first")) {
      newErrors := newErrors["name_first" := FirstNameRequired];
    }
    ErrorsAfterStep(SubmitForm.ServerKey, failing, PageOrder, 0);
    assert newErrors == ErrorsAfter(SubmitForm.ServerKey, failing, PageOrder, 1);
    if IsFalsy(Get(fd.fields, "name_last")) {
      newErrors := newErrors["name_last" := LastNameRequired];
    }
    ErrorsAfterStep(SubmitForm.ServerKey, failing, PageOrder, 1);
    var passes := CheckFirstAddress(fd);
    if !passes {
      return Threw;
    }
    var identity := ValidatePageIdentity(fd, newErrors);
    if identity.None? {
      return Threw;
    }
    PageValidationIsFold(fd);
    return Errors(identity.value);
  }

  /** `handleInputChange`: a name starting with "address_" sets that member of
      the first address only; any other name sets that top-level member. */
  function InputChanged(fd: FormData, name: string, value: string): (r: FormData)
    requires name != "addresses"
    ensures |r.addresses| == |fd.addresses|
    ensures forall i | 1 <= i < |fd.addresses| :: r.addresses[i] == fd.addresses[i]
    ensures StartsWith(name, "address_") ==>
      && r.fields == fd.fields
      && (|fd.addresses| > 0 ==>
            && Get(r.addresses[0], name) == Some(value)
            && forall k | k != name :: Get(r.addresses[0], k) == Get(fd.addresses[0], k))
    ensures !StartsWith(name, "address_") ==>
      && r.addresses == fd.addresses
      && Get(r.fields, name) == Some(value)
      && forall k | k != name :: Get(r.fields, k) == Get(fd.fields, k)
  {
    if StartsWith(name, "address_") then
      var addresses := seq(|fd.addresses|, i requires 0 <= i < |fd.addresses| =>
        if i == 0 then fd.addresses[i][name := value] else fd.addresses[i]);
      FormData(fd.fields, addresses)
    else
      FormData(fd.fields[name := value], fd.addresses)
  }

  /** Editing an input never loses a rendered member nor the single address. */
  lemma InputChangedKeepsShape(fd: FormData, name: string, value: string)
    requires name != "addresses"
    requires WellShaped(fd)
    ensures WellShaped(InputChanged(fd, name, value))
  {
    var r := InputChanged(fd, name, value);
    forall k | k in AddressKeys ensures k in r.addresses[0] {
      assert Get(fd.addresses[0], k).Some?;
    }
    forall k | k in FieldKeys ensures k in r.fields {
      assert Get(fd.fields, k).Some?;
    }
  }

  /** Whenever the page records errors without throwing, the route records
      exactly the same errors for the body the page would have sent. */
  lemma PageAgreesWithServer(fd: FormData)
    requires PageValidation(fd).Errors?
    ensures SubmitForm.ServerValidation(RequestBody(fd)) == PageValidation(fd)
  {
    var b := RequestBody(fd);
    assert SubmitForm.FirstAddress(b) == Some(fd.addresses[0]);
    assert !SubmitForm.ServerThrows(b);
    assert SubmitForm.ServerFailing(b) == PageFailing(fd) by {
      forall r ensures SubmitForm.ServerRuleFails(b, r) == (r in PageRules && PageRuleFails(fd, r)) {
      }
    }
    SubmitForm.ServerKeysDistinct();
    ErrorsForFailingOnly(SubmitForm.ServerKey, PageFailing(fd), SubmitForm.ServerRules, PageRules);
  }

  /** The page throws exactly when the route, given the same data, would
      throw or report a problem with the address. */
  lemma PageThrowsIffServerFaultsAddress(fd: FormData)
    ensures PageValidation(fd).Threw? <==>
      var v := SubmitForm.ServerValidation(RequestBody(fd));
      v.Threw? || exists r | r in SubmitForm.AddressRules :: SubmitForm.ServerKey(r) in v.errors
  {
    var b := RequestBody(fd);
    var v := SubmitForm.ServerValidation(b);
    if PageValidation(fd).Errors? {
      PageAgreesWithServer(fd);
      SubmitForm.ServerKeysDistinct();
      forall r | r in SubmitForm.AddressRules ensures SubmitForm.ServerKey(r) !in v.errors {
        ErrorsForKeys(SubmitForm.ServerKey, PageFailing(fd), PageRules, r);
      }
    } else if v.Errors? {
      var r := FaultedAddressRule(fd);
      SubmitForm.ServerErrorKeys(b, r);
      assert r in SubmitForm.AddressRules && SubmitForm.ServerKey(r) in v.errors;
    }
  }

  /** When the page throws and the route does not, the route's fields are
      present and, if there is a first address, it holds a state and a postal
      code: some address rule is the one that fails. */
  lemma FaultedAddressRule(fd: FormData) returns (r: Rule)
    requires PageValidation(fd).Threw?
    requires SubmitForm.ServerValidation(RequestBody(fd)).Errors?
    ensures r in SubmitForm.AddressRules && SubmitForm.ServerRuleFails(RequestBody(fd), r)
  {
    if |fd.addresses| == 0 {
      r := Addresses;
    } else {
      var address := fd.addresses[0];
      assert SubmitForm.FirstAddress(RequestBody(fd)) == Some(address);
      if !StateMatches(address["address_state"]) {
        r := State;
      } else if !PostalCodeMatches(address["address_postal_code"]) {
        r := PostalCode;
      } else {
        r := Country;
      }
    }
  }

  /** A submission the page lets through is forwarded by the route to the
      evaluation service, whatever the service then answers. */
  lemma AcceptedFormIsForwarded(fd: FormData, id: string, secret: string, upstream: SubmitForm.Upstream)
    requires PageValidation(fd) == Errors(map[])
    ensures SubmitForm.Handle(SubmitForm.Request("POST", RequestBody(fd)), id, secret, upstream).call.Some?
  {
    PageAgreesWithServer(fd);
  }

  /** Submitting the page as it starts throws: its empty state fails the
      state rule, and recording that failure assigns through an undefined
      `newErrors.addresses`. */
  lemma InitialSubmitThrows()
    ensures PageValidation(InitialFormData()).Threw?
  {
    assert !StateMatches(InitialFormData().addresses[0]["address_state"]);
  }

  /** Where the page navigates after a successful submission. */
  datatype Navigation = Navigation(pathname: string, success: bool, data: string)

  /** What the page's call to `/api/submit-form` comes to. */
  datatype ApiOutcome =
    | ApiOk(result: SubmitForm.Json)  // `response.ok`, body parsed by `response.json()`
    | ApiNotOk                        // a response that is not ok
    | ApiThrew                        // the request or the parsing threw

  /** What one submission does besides updating `errors`: whether the handler's
      promise is rejected, the request it sends, and where it navigates. */
  datatype Submission = Submission(rejected: bool, request: Option<SubmitForm.Body>, navigation: Option<Navigation>)

  const ApiFailed := "Failed to submit the form"
  const ApiError := "An error occurred while submitting the form"

  /** The page component with its two pieces of state. */
  class FormComponent {
    var formData: FormData
    var errors: JsObject

    constructor()
      ensures formData == InitialFormData() && errors == map[]
      ensures WellShaped(formData)
    {
      formData := InitialFormData();
      errors := map[];
    }

    method HandleInputChange(name: string, value: string)
      requires name != "addresses"
      modifies this
      ensures formData == InputChanged(old(formData), name, value)
      ensures errors == old(errors)
      ensures old(WellShaped(formData)) ==> WellShaped(formData)
    {
      if WellShaped(formData) {
        InputChangedKeepsShape(formData, name, value);
      }
      formData := InputChanged(formData, name, value);
    }

    /** `handleSubmit`, with `api` standing for what the call comes to. */
    method HandleSubmit(api: ApiOutcome) returns (s: Submission)
      modifies this
      ensures formData == old(formData)
      ensures s.rejected <==> PageValidation(formData).Threw?
      ensures s.request.Some? <==> PageValidation(formData) == Errors(map[])
      ensures s.request.Some? ==> s.request.value == RequestBody(formData)
      ensures s.navigation.Some? <==> s.request.Some? && api.ApiOk?
      ensures s.navigation.Some? ==> s.navigation.value == Navigation("/result", true, api.result.text)
      ensures s.rejected || s.navigation.Some? ==> errors == old(errors)
      ensures PageValidation(formData).Errors? && PageValidation(formData).errors != map[] ==>
        errors == PageValidation(formData).errors
      ensures s.request.Some? && api.ApiNotOk? ==> errors == map["api" := ApiFailed]
      ensures s.request.Some? && api.ApiThrew? ==> errors == map["api" := ApiError]
    {
      var v := ValidatePage(formData);
      if v.Threw? {
        return Submission(true, None, None);
      }
      if |v.errors| == 0 {
        var request := RequestBody(formData);
        match api
        case ApiOk(result) =>
          s := Submission(false, Some(request), Some(Navigation("/result", true, result.text)));
        case ApiNotOk =>
          errors := map["api" := ApiFailed];
          s := Submission(false, Some(request), None);
        case ApiThrew =>
          errors := map["api" := ApiError];
          s := Submission(false, Some(request), None);
      } else {
        errors := v.errors;
        s := Submission(false, None, None);
      }
    }
  }
}
