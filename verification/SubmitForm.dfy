/** The API route `/api/submit-form`: it re-validates the submitted form at the
    trust boundary and, when every rule passes, forwards the request body to
    the evaluation service with a Basic credential, then maps the service's
    answer to its own response. */
module SubmitForm {
  import opened Wrappers
  import opened JsObjects
  import opened FieldRules
  import BasicCredentials

  /** The parsed JSON request body. Its string members are in `fields`;
      `addresses` is None when the member is absent or is not an array. */
  datatype Body = Body(fields: JsObject, addresses: Option<seq<JsObject>>)

  datatype Request = Request(httpMethod: string, body: Body)

  /** The rules the route checks: all of them. */
  const ServerRules: set<Rule> := {FirstName, LastName, Addresses, State, PostalCode, Country, Ssn, Email, BirthDate}

  /** The rules that concern the address. */
  const AddressRules: set<Rule> := {Addresses, State, PostalCode, Country}

  /** The key under which the route records a failure of `r` (flat keys for
      the address members). */
  function ServerKey(r: Rule): string
  {
    match r
    case FirstName => "name_first"
    case LastName => "name_last"
    case Addresses => "addresses"
    case State => "address_state"
    case PostalCode => "address_postal_code"
    case Country => "address_country_code"
    case Ssn => "document_ssn"
    case Email => "email_address"
    case BirthDate => "birth_date"
  }

  /** No two rules share a key. */
  lemma ServerKeysDistinct()
    ensures KeysDistinct(ServerKey)
  {
    forall r, r' | r != r' ensures ServerKey(r) != ServerKey(r') {
      ServerKeysDiffer(r, r');
    }
  }

  lemma ServerKeysDiffer(r: Rule, r': Rule)
    requires r != r'
    ensures ServerKey(r) != ServerKey(r')
  {
    // the keys differ in length or in their first character
    assert |ServerKey(r)| != |ServerKey(r')| || ServerKey(r)[0] != ServerKey(r')[0];
  }

  /** `addresses[0]`, when `addresses` is a non-empty array. */
  function FirstAddress(b: Body): Option<JsObject>
  {
    if b.addresses.Some? && |b.addresses.value| > 0 then Some(b.addresses.value[0]) else None
  }

  /** Whether the validation raises a TypeError: `.match` is called on an
      absent member of the first address or of the body. */
  predicate ServerThrows(b: Body)
  {
    || (FirstAddress(b).Some?
        && ("address_state" !in FirstAddress(b).value || "address_postal_code" !in FirstAddress(b).value))
    || "document_ssn" !in b.fields || "email_address" !in b.fields || "birth_date" !in b.fields
  }

  /** Whether the rule `r` fails for `b` (a rule whose member is absent does
      not fail: it throws, see `ServerThrows`). */
  predicate ServerRuleFails(b: Body, r: Rule)
  {
    var address := FirstAddress(b);
    match r
    case FirstName => IsFalsy(Get(b.fields, "name_first"))
    case LastName => IsFalsy(Get(b.fields, "name_last"))
    case Addresses => address.None?
    case State =>
      address.Some? && "address_state" in address.value && !StateMatches(address.value["address_state"])
    case PostalCode =>
      address.Some? && "address_postal_code" in address.value
      && !PostalCodeMatches(address.value["address_postal_code"])
    case Country => address.Some? && !CountryMatches(Get(address.value, "address_country_code"))
    case Ssn => "document_ssn" in b.fields && !SsnMatches(b.fields["document_ssn"])
    case Email => "email_address" in b.fields && !EmailMatches(b.fields["email_address"])
    case BirthDate => "birth_date" in b.fields && !BirthDateMatches(b.fields["birth_date"])
  }

  /** The rules that fail for `b`. */
  function ServerFailing(b: Body): set<Rule>
  {
    set r | r in ServerRules && ServerRuleFails(b, r)
  }

  /** The route's validation as a whole: one entry for each failing rule, all
      rules checked, unless a TypeError escapes. */
  function ServerValidation(b: Body): Validation
  {
    ServerKeysDistinct();
    if ServerThrows(b) then Threw else Errors(ErrorsFor(ServerKey, ServerFailing(b), ServerRules))
  }

  /** Every rule passes, stated field by field. */
  predicate ServerAccepts(b: Body)
  {
    && !IsFalsy(Get(b.fields, "name_first")) && !IsFalsy(Get(b.fields, "name_last"))
    && FirstAddress(b).Some?
    && "address_state" in FirstAddress(b).value && StateMatches(FirstAddress(b).value["address_state"])
    && "address_postal_code" in FirstAddress(b).value
    && PostalCodeMatches(FirstAddress(b).value["address_postal_code"])
    && CountryMatches(Get(FirstAddress(b).value, "address_country_code"))
    && "document_ssn" in b.fields && SsnMatches(b.fields["document_ssn"])
    && "email_address" in b.fields && EmailMatches(b.fields["email_address"])
    && "birth_date" in b.fields && BirthDateMatches(b.fields["birth_date"])
  }

  /** Without a TypeError, the error object holds the key of a rule exactly
      when that rule fails, with that rule's message. */
  lemma ServerErrorKeys(b: Body, r: Rule)
    requires ServerValidation(b).Errors?
    ensures ServerKey(r) in ServerValidation(b).errors <==> ServerRuleFails(b, r)
    ensures ServerKey(r) in ServerValidation(b).errors ==> ServerValidation(b).errors[ServerKey(r)] == Message(r)
  {
    ServerKeysDistinct();
    ErrorsForKeys(ServerKey, ServerFailing(b), ServerRules, r);
  }

  /** The rules in the order the route checks them. */
  const ServerOrder: seq<Rule> := [FirstName, LastName, Addresses, State, PostalCode, Country, Ssn, Email, BirthDate]

  /** Checking the rules one after another in the route's order records the
      failing ones. */
  lemma ServerValidationIsFold(b: Body)
    requires !ServerThrows(b)
    ensures ServerValidation(b) == Errors(ErrorsAfter(ServerKey, ServerFailing(b), ServerOrder, 9))
  {
    ServerKeysDistinct();
    ErrorsAfterIsFor(ServerKey, ServerFailing(b), ServerOrder, 9);
    assert ServerOrder[..9] == ServerOrder;
    assert (set r | r in ServerOrder) == ServerRules;
  }

  /** The address part of the validation block: `addresses` must be a
      non-empty array, and only its first entry is checked. None when the
      first entry lacks a state or a postal code (`.match` on `undefined`). */
  method ValidateFirstAddress(b: Body, errors: JsObject) returns (r: Option<JsObject>)
    requires errors == ErrorsAfter(ServerKey, ServerFailing(b), ServerOrder, 2)
    ensures r.None? <==>
      FirstAddress(b).Some?
      && ("address_state" !in FirstAddress(b).value || "address_postal_code" !in FirstAddress(b).value)
    ensures r.Some? ==> r.value == ErrorsAfter(ServerKey, ServerFailing(b), ServerOrder, 6)
  {
    var errors := errors;
    ghost var failing := ServerFailing(b);
    if b.addresses.None? || |b.addresses.value| == 0 {
      errors := errors["addresses" := AddressesRequired];
      ErrorsAfterStep(ServerKey, failing, ServerOrder, 2);
      assert errors == ErrorsAfter(ServerKey, failing, ServerOrder, 3);
      ErrorsAfterStep(ServerKey, failing, ServerOrder, 3);
      assert errors == ErrorsAfter(ServerKey, failing, ServerOrder, 4);
      ErrorsAfterStep(ServerKey, failing, ServerOrder, 4);
      assert errors == ErrorsAfter(ServerKey, failing, ServerOrder, 5);
      ErrorsAfterStep(ServerKey, failing, ServerOrder, 5);
      return Some(errors);
    }
    ErrorsAfterStep(ServerKey, failing, ServerOrder, 2);
    r := ValidateAddressMembers(b, b.addresses.value[0], errors);
  }

  /** The checks on `addresses[0]`: state, postal code and country code. None
      when the state or the postal code is absent (`.match` on `undefined`). */
  method ValidateAddressMembers(b: Body, address: JsObject, errors: JsObject) returns (r: Option<JsObject>)
    requires FirstAddress(b) == Some(address)
    requires errors == ErrorsAfter(ServerKey, ServerFailing(b), ServerOrder, 3)
    ensures r.None? <==> "address_state" !in address || "address_postal_code" !in address
    ensures r.Some? ==> r.value == ErrorsAfter(ServerKey, ServerFailing(b), ServerOrder, 6)
  {
    var errors := errors;
    ghost var failing := ServerFailing(b);
    var state := Get(address, "address_state");
    if state.None? {
      return None;  // undefined.match(...)
    }
    if !StateMatches(state.value) {
      errors := errors["address_state" := StateMessage];
    }
    ErrorsAfterStep(ServerKey, failing, ServerOrder, 3);
    assert errors == ErrorsAfter(ServerKey, failing, ServerOrder, 4);
    var postalCode := Get(address, "address_postal_code");
    if postalCode.None? {
      return None;
    }
    if !PostalCodeMatches(postalCode.value) {
      errors := errors["address_postal_code" := PostalCodeMessage];
    }
    ErrorsAfterStep(ServerKey, failing, ServerOrder, 4);
    assert errors == ErrorsAfter(ServerKey, failing, ServerOrder, 5);
    if !CountryMatches(Get(address, "address_country_code")) {
      errors := errors["address_country_code" := CountryMessage];
    }
    ErrorsAfterStep(ServerKey, failing, ServerOrder, 5);
    return Some(errors);
  }

  /** The identity part of the validation block: SSN, e-mail address and
      date of birth. None when one of them is absent (`.match` on `undefined`). */
  method ValidateIdentity(b: Body, errors: JsObject) returns (r: Option<JsObject>)
    requires errors == ErrorsAfter(ServerKey, ServerFailing(b), ServerOrder, 6)
    ensures r.None? <==> "document_ssn" !in b.fields || "email_address" !in b.fields || "birth_date" !in b.fields
    ensures r.Some? ==> r.value == ErrorsAfter(ServerKey, ServerFailing(b), ServerOrder, 9)
  {
    var errors := errors;
    ghost var failing := ServerFailing(b);
    var ssn := Get(b.fields, "document_ssn");
    if ssn.None? {
      return None;
    }
    if !SsnMatches(ssn.value) {
      errors := errors["document_ssn" := SsnMessage];
    }
    ErrorsAfterStep(ServerKey, failing, ServerOrder, 6);
    assert errors == ErrorsAfter(ServerKey, failing, ServerOrder, 7);
    var email := Get(b.fields, "email_address");
    if email.None? {
      return None;
    }
    if !EmailMatches(email.value) {
      errors := errors["email_address" := EmailMessage];
    }
    ErrorsAfterStep(ServerKey, failing, ServerOrder, 7);
    assert errors == ErrorsAfter(ServerKey, failing, ServerOrder, 8);
    var birthDate := Get(b.fields, "birth_date");
    if birthDate.None? {
      return None;
    }
    if !BirthDateMatches(birthDate.value) {
      errors := errors["birth_date" := BirthDateMessage];
    }
    ErrorsAfterStep(ServerKey, failing, ServerOrder, 8);
    return Some(errors);
  }

  /** The validation block of the route: the `errors` object filled by one
      conditional assignment per rule, none skipping another, in three parts
      (names, first address, identity). */
  method ValidateBody(b: Body) returns (v: Validation)
    ensures v == ServerValidation(b)
  {
    var errors: JsObject := map[];
    ghost var failing := ServerFailing(b);
    if IsFalsy(Get(b.fields, "name_first")) {
      errors := errors["name_first" := FirstNameRequired];
    }
    ErrorsAfterStep(ServerKey, failing, ServerOrder, 0);
    assert errors == ErrorsAfter(ServerKey, failing, ServerOrder, 1);
    if IsFalsy(Get(b.fields, "name_last")) {
      errors := errors["name_last" := LastNameRequired];
    }
    ErrorsAfterStep(ServerKey, failing, ServerOrder, 1);
    var withAddress := ValidateFirstAddress(b, errors);
    if withAddress.None? {
      return Threw;
    }
    var withIdentity := ValidateIdentity(b, withAddress.value);
    if withIdentity.None? {
      return Threw;
    }
    ServerValidationIsFold(b);
    return Errors(withIdentity.value);
  }

  /** The field-by-field acceptance condition says that nothing throws and
      that no rule fails. */
  lemma ServerAcceptsIffNoRuleFails(b: Body)
    ensures ServerAccepts(b) <==> !ServerThrows(b) && forall r | r in ServerRules :: !ServerRuleFails(b, r)
  {
    if !ServerAccepts(b) && !ServerThrows(b) {
      assert exists r | r in ServerRules :: ServerRuleFails(b, r) by {
        var address := FirstAddress(b);
        if address.None? {
          assert ServerRuleFails(b, Addresses);
        } else if !StateMatches(address.value["address_state"]) {
          assert ServerRuleFails(b, State);
        } else if !PostalCodeMatches(address.value["address_postal_code"]) {
          assert ServerRuleFails(b, PostalCode);
        } else if !CountryMatches(Get(address.value, "address_country_code")) {
          assert ServerRuleFails(b, Country);
        } else if IsFalsy(Get(b.fields, "name_first")) {
          assert ServerRuleFails(b, FirstName);
        } else if IsFalsy(Get(b.fields, "name_last")) {
          assert ServerRuleFails(b, LastName);
        } else if !SsnMatches(b.fields["document_ssn"]) {
          assert ServerRuleFails(b, Ssn);
        } else if !EmailMatches(b.fields["email_address"]) {
          assert ServerRuleFails(b, Email);
        } else {
          assert ServerRuleFails(b, BirthDate);
        }
      }
    }
  }

  /** The validation yields an empty error object exactly when every rule passes. */
  lemma ServerValidationEmptyIff(b: Body)
    ensures ServerValidation(b) == Errors(map[]) <==> ServerAccepts(b)
  {
    ServerAcceptsIffNoRuleFails(b);
    ServerKeysDistinct();
    ErrorsForEmpty(ServerKey, ServerFailing(b), ServerRules);
    assert ServerFailing(b) * ServerRules == ServerFailing(b);
  }

  /** Without a usable `addresses` array, the only address error is the
      `addresses` one; the three address checks are skipped. */
  lemma MissingAddressesReported(b: Body)
    requires FirstAddress(b).None?
    ensures ServerValidation(b).Errors? <==>
      "document_ssn" in b.fields && "email_address" in b.fields && "birth_date" in b.fields
    ensures ServerValidation(b).Errors? ==>
      var errors := ServerValidation(b).errors;
      && Get(errors, "addresses") == Some(AddressesRequired)
      && "address_state" !in errors && "address_postal_code" !in errors && "address_country_code" !in errors
  {
    var v := ServerValidation(b);
    if v.Errors? {
      ServerErrorKeys(b, Addresses);
      assert ServerKey(Addresses) in v.errors;
      ServerErrorKeys(b, State);
      assert !ServerRuleFails(b, State) && ServerKey(State) == "address_state";
      ServerErrorKeys(b, PostalCode);
      assert !ServerRuleFails(b, PostalCode) && ServerKey(PostalCode) == "address_postal_code";
      ServerErrorKeys(b, Country);
      assert !ServerRuleFails(b, Country) && ServerKey(Country) == "address_country_code";
    }
  }

  /** Only the members and `addresses[0]` are looked at: two bodies that
      agree on those validate alike, whatever their other addresses. */
  lemma OnlyFirstAddressChecked(b: Body, b': Body)
    requires b.fields == b'.fields && FirstAddress(b) == FirstAddress(b')
    ensures ServerValidation(b) == ServerValidation(b')
  {
    forall r ensures ServerRuleFails(b, r) == ServerRuleFails(b', r) {
    }
    assert ServerFailing(b) == ServerFailing(b');
  }

  /** An HTTP status for which `response.ok` is true. */
  type SuccessStatus = s: int | 200 <= s <= 299 witness 200

  /** An HTTP status for which `response.ok` is false. */
  type FailureStatus = s: int | !(200 <= s <= 299) witness 500

  /** A JSON value, kept opaque as its serialised text. */
  datatype Json = Json(text: string)

  /** What the call to the evaluation service comes to. */
  datatype Upstream =
    | Ok(okStatus: SuccessStatus, data: Json)         // `response.ok`, body parsed by `response.json()`
    | HttpErr(failStatus: FailureStatus, text: string)  // not ok, body read by `response.text()`
    | ThrewError(message: string)                   // an `Error` was thrown (no response, unparsable body)
    | ThrewValue(shown: string)                     // another value was thrown, as `String(value)` shows it

  /** The JSON bodies the route sends. */
  datatype ResponseBody =
    | MessageBody(message: string)                  // { message }
    | ErrorsBody(errors: JsObject)                  // { errors }
    | DataBody(message: string, data: Json)         // { message, data }
    | ErrorBody(message: string, error: string)     // { message, error }

  datatype Response = Response(status: int, body: ResponseBody)

  /** The request the route makes to the evaluation service. */
  datatype ExternalCall = ExternalCall(
    url: string, httpMethod: string, contentType: string, authorization: string, body: Body)

  /** One run of the route: the call it makes, if any, and the response it
      sends (None when a TypeError rejects the handler before it responds). */
  datatype Outcome = Outcome(call: Option<ExternalCall>, response: Option<Response>)

  const EvaluationUrl := "https://sandbox.alloy.co/v1/evaluations"
  const MethodNotAllowed := Response(405, MessageBody("Method Not Allowed"))

  /** The response for the service's answer: 200 only for an ok answer, the
      service's own status and text for any other answer, 500 with the thrown
      value's description when no answer came. */
  function UpstreamResponse(u: Upstream): (r: Response)
    ensures 200 <= r.status <= 299 <==> u.Ok?
    ensures u.Ok? ==> r == Response(200, DataBody("Form successfully submitted", u.data))
    ensures u.HttpErr? ==>
      r == Response(u.failStatus, ErrorBody("Failed to submit form to external API", u.text))
    ensures u.ThrewError? || u.ThrewValue? ==> r.status == 500 && r.body.ErrorBody?
    ensures u.ThrewError? ==>
      r.body == ErrorBody("An error occurred while connecting to the external API", u.message)
    ensures u.ThrewValue? ==> r.body == ErrorBody("An unknown error occurred", u.shown)
    ensures !u.Ok? ==> r.body.ErrorBody? && (r.body.message == "An unknown error occurred" <==> u.ThrewValue?)
  {
    match u
    case Ok(_, data) => Response(200, DataBody("Form successfully submitted", data))
    case HttpErr(status, text) =>
      Response(status, ErrorBody("Failed to submit form to external API", text))
    case ThrewError(message) =>
      Response(500, ErrorBody("An error occurred while connecting to the external API", message))
    case ThrewValue(shown) =>
      Response(500, ErrorBody("An unknown error occurred", shown))
  }

  /** The route as a whole. `upstream` is what the call to the evaluation
      service comes to, should the route make it. */
  function Handle(req: Request, id: string, secret: string, upstream: Upstream): (r: Outcome)
    ensures req.httpMethod != "POST" ==> r == Outcome(None, Some(MethodNotAllowed))
    ensures r.call.Some? <==> req.httpMethod == "POST" && ServerValidation(req.body) == Errors(map[])
    ensures r.call.Some? ==>
      && r.call.value.url == EvaluationUrl && r.call.value.httpMethod == "POST"
      && r.call.value.contentType == "application/json"
      && r.call.value.authorization == BasicCredentials.AuthorizationValue(id, secret)
      && r.call.value.body == req.body
      && r.response == Some(UpstreamResponse(upstream))
    ensures r.response.None? <==> req.httpMethod == "POST" && ServerValidation(req.body) == Threw
    ensures (req.httpMethod == "POST" && ServerValidation(req.body).Errors?
      && ServerValidation(req.body).errors != map[]) ==>
      r.response == Some(Response(400, ErrorsBody(ServerValidation(req.body).errors)))
  {
    if req.httpMethod != "POST" then Outcome(None, Some(MethodNotAllowed))
    else
      match ServerValidation(req.body)
      case Threw => Outcome(None, None)
      case Errors(errors) =>
        if |errors| > 0 then Outcome(None, Some(Response(400, ErrorsBody(errors))))
        else
          var call := ExternalCall(EvaluationUrl, "POST", "application/json",
            BasicCredentials.AuthorizationValue(id, secret), req.body);
          Outcome(Some(call), Some(UpstreamResponse(upstream)))
  }

  /** The handler step by step: method check, validation, then the call and
      the mapping of its answer. */
  method Handler(req: Request, id: string, secret: string, upstream: Upstream)
    returns (call: Option<ExternalCall>, response: Option<Response>)
    ensures Outcome(call, response) == Handle(req, id, secret, upstream)
  {
    if req.httpMethod != "POST" {
      return None, Some(MethodNotAllowed);
    }
    var authorization := BasicCredentials.AuthorizationValue(id, secret);
    var v := ValidateBody(req.body);
    if v.Threw? {
      return None, None;
    }
    if |v.errors| > 0 {
      return None, Some(Response(400, ErrorsBody(v.errors)));
    }
    call := Some(ExternalCall(EvaluationUrl, "POST", "application/json", authorization, req.body));
    response := Some(UpstreamResponse(upstream));
  }

  /** When the route makes no call, the service's answer cannot affect it. */
  lemma NoCallNoDependence(req: Request, id: string, secret: string, u: Upstream, u': Upstream)
    requires Handle(req, id, secret, u).call.None?
    ensures Handle(req, id, secret, u) == Handle(req, id, secret, u')
  {
  }
}
