# Account form: validation and submission, modelled in Dafny

This project models the validation-and-submission pipeline of a small Next.js
account application. Three pieces make up that pipeline:

- the API route `/api/submit-form` (`pages/api/submit-form.ts`). It accepts
  only POST, validates the body, builds an HTTP Basic credential, forwards the
  body to an evaluation service and maps the service's answer to its own
  response;
- the entry form page `/form` (`pages/form.tsx`). It validates its state on
  submit, posts it to the route and navigates to `/result` on success;
- the original flat form page `/` (`pages/index.tsx`). It validates a flat
  state with the same rules and only shows an alert on success.

Modules, in dependency order:

- `Wrappers`, `Bytes`, `JsObjects`: `Option`, octets, and JavaScript objects
  whose members are strings (`map<string, string>`; an absent member reads as
  `undefined`).
- `FieldRules`: the rules every validator applies, as decidable predicates:
  - `^[A-Z]{2}$`, `^\d{5}$`, `^\d{9}$` and `^\d{4}-\d{2}-\d{2}$`;
  - the e-mail pattern;
  - `=== 'US'`.

  It also holds the messages, the rule datatype, and a generic account of an
  error object built by conditional assignments.
- `Base64` (section 4 of RFC 4648), `Utf8` and `BasicCredentials` (section 2 of
  RFC 7617): the `Authorization` value, with round-trip proofs.
- `SubmitForm`: the route. Its validation is a method of straight-line
  conditional assignments, proved equal to a declarative specification. Its
  response selection is a function of the request and of an abstract outcome
  of the call to the service.
- `FormPage` and `IndexPage`: the two pages. Each has its validator, its input
  handler and a component class holding `formData` and `errors`. Lemmas relate
  each page's verdict to the route's.

The entry page (`pages/form.tsx:33-35`) assigns address errors through
`newErrors.addresses[0]`, but `newErrors.addresses` is never created. A failing
address rule therefore raises a TypeError instead of recording an error. The
model keeps this behaviour (`Validation.Threw`), and
`FormPage.PageThrowsIffServerFaultsAddress` characterises it against the
route.

## Model

| member | source | states |
|---|---|---|
| FieldRules.ErrorsForKeys | pages/api/submit-form.ts:12-32 | a rule's key is in the error object iff the rule is checked and fails, and its value is then that rule's message |
| FieldRules.ErrorsAfterIsFor | pages/api/submit-form.ts:12-32 | running the conditional assignments one after another in any order gives the error object with one entry for each failing rule (no check short-circuits another) |
| FieldRules.ErrorsForFailingOnly | pages/api/submit-form.ts:12-32 | checking more rules that all pass adds no entry |
| FieldRules.ErrorsForEmpty | pages/api/submit-form.ts:35 | the error object is empty iff none of the checked rules fails |
| FieldRules.IsJsWhitespace | pages/api/submit-form.ts:31 | `\s` of a JavaScript regular expression, as code-point ranges |
| FieldRules.IsJsWhitespaceIffListed | pages/api/submit-form.ts:31 | the ranges hold exactly the WhiteSpace and LineTerminator code points of sections 12.2 and 12.3 of ECMA-262, listed one by one |
| FieldRules.StateMatches | pages/api/submit-form.ts:20 | the state rule: two characters, both A to Z |
| FieldRules.StateMatchesIffPattern | pages/api/submit-form.ts:20 | the state rule holds iff `^[A-Z]{2}$`, read as a sequence of fixed repetitions, matches |
| FieldRules.PostalCodeMatches | pages/api/submit-form.ts:23 | the postal code rule: five characters, all ASCII digits |
| FieldRules.PostalCodeMatchesIffPattern | pages/api/submit-form.ts:23 | the postal code rule holds iff `^\d{5}$` matches |
| FieldRules.SsnMatches | pages/api/submit-form.ts:30 | the SSN rule: nine characters, all ASCII digits |
| FieldRules.SsnMatchesIffPattern | pages/api/submit-form.ts:30 | the SSN rule holds iff `^\d{9}$` matches |
| FieldRules.BirthDateMatches | pages/api/submit-form.ts:32 | the date rule: ten characters, digits with '-' at positions 4 and 7 |
| FieldRules.BirthDateMatchesIffPattern | pages/api/submit-form.ts:32 | the date rule holds iff `^\d{4}-\d{2}-\d{2}$` matches |
| FieldRules.CountryMatches | pages/api/submit-form.ts:26 | the country test: the member is present and is the string "US" |
| FieldRules.CountryMatchesIffPattern | pages/api/submit-form.ts:26 | `!== 'US'` fails for `undefined` and passes exactly the strings `^US$` matches |
| FieldRules.EmailMatches | pages/api/submit-form.ts:31 | the e-mail rule as a checklist: no whitespace, one '@', a non-empty part before it, an inner '.' after it |
| FieldRules.EmailMatchesIffPattern | pages/api/submit-form.ts:31 | `^[^\s@]+@[^\s@]+\.[^\s@]+$` matches iff there is no whitespace, exactly one '@', a non-empty part before it, and a '.' inside the part after it that is neither its first nor its last character |
| FieldRules.StateExamples | pages/api/submit-form.ts:20-21 | "NY" passes while "ny", "N1" and "New York" fail |
| FieldRules.PostalCodeExamples | pages/api/submit-form.ts:23 | "10001" passes while "1000a" fails |
| FieldRules.SsnExamples | pages/api/submit-form.ts:30 | "123456789" passes while "123-45-6789", "12345678" and "1234567890" fail |
| FieldRules.BirthDateExamples | pages/api/submit-form.ts:32 | the date rule checks shape only: "1990-01-31" and "2023-13-45" pass, "1990/01/31" fails |
| FieldRules.CountryExamples | pages/api/submit-form.ts:26 | "US" passes; "CA" and an absent member fail |
| Base64.Encode | pages/api/submit-form.ts:9 | the encoding has 4 characters for every started group of 3 bytes |
| Base64.EncodeAlphabet | pages/api/submit-form.ts:9 | every character of the encoding is in the alphabet or is the pad '=' |
| Base64.DecodeEncode | pages/api/submit-form.ts:9 | decoding undoes encoding, for every byte sequence |
| Base64.EncodeDecode | pages/api/submit-form.ts:9 | a text that decodes at all is the canonical encoding of what it decodes to |
| Base64.Vectors | pages/api/submit-form.ts:9 | the encoder gives the test vectors of section 10 of RFC 4648 ("", "Zg==", "Zm8=", "Zm9v", "Zm9vYg==", "Zm9vYmE=", "Zm9vYmFy") |
| Utf8.Encode | pages/api/submit-form.ts:9 | each character becomes 1 to 4 bytes, and ASCII text becomes one byte per character |
| Utf8.DecodeEncode | pages/api/submit-form.ts:9 | decoding undoes UTF-8 encoding |
| BasicCredentials.TokenShape | pages/api/submit-form.ts:8-9 | the token is 4·⌈n/3⌉ characters for an n-byte user-pass, all in the base64 alphabet or '=' |
| BasicCredentials.Token | pages/api/submit-form.ts:8-9 | the token base64-decodes back to the UTF-8 bytes of `id + ':' + secret` |
| BasicCredentials.AuthorizationValue | pages/api/submit-form.ts:45 | the header `Basic <token>` is read back as `id + ':' + secret` |
| BasicCredentials.TokenVector | pages/api/submit-form.ts:8-9 | the id "id" and the secret "secret" give the token "aWQ6c2VjcmV0" |
| BasicCredentials.CredentialsRecovered | pages/api/submit-form.ts:8 | a receiver splitting at the first colon recovers id and secret when the id has no colon |
| BasicCredentials.AuthorizationValueInjective | pages/api/submit-form.ts:45 | different user-pass strings never share a header value |
| SubmitForm.ServerThrows | pages/api/submit-form.ts:19-32 | the TypeError cases: a first address without a state or a postal code, or an absent document_ssn, email_address or birth_date |
| SubmitForm.ServerRuleFails | pages/api/submit-form.ts:14-32 | when each of the nine rules fails: a falsy name, no non-empty addresses array, or a present member its rule rejects; the country fails also when absent |
| SubmitForm.ServerValidation | pages/api/submit-form.ts:12-32 | the validation: a TypeError, or one entry under the route's key for each failing rule |
| SubmitForm.ServerKeysDistinct | pages/api/submit-form.ts:14-32 | the route records each rule under its own key |
| SubmitForm.ServerErrorKeys | pages/api/submit-form.ts:12-32 | without a TypeError, each rule's key is present iff that rule fails, holding that rule's message |
| SubmitForm.ServerValidationIsFold | pages/api/submit-form.ts:12-32 | the validation equals the nine conditional assignments applied in source order |
| SubmitForm.ValidateFirstAddress | pages/api/submit-form.ts:16-29 | records `addresses` when there is no non-empty addresses array; throws iff there is a first address lacking a state or a postal code; otherwise the address entries are recorded |
| SubmitForm.ValidateAddressMembers | pages/api/submit-form.ts:19-29 | throws iff the first address lacks a state or a postal code; otherwise the three address entries are recorded |
| SubmitForm.ValidateIdentity | pages/api/submit-form.ts:30-32 | throws iff document_ssn, email_address or birth_date is absent; otherwise their entries are recorded |
| SubmitForm.ValidateBody | pages/api/submit-form.ts:12-32 | the imperative validation computes exactly the specified validation |
| SubmitForm.ServerAcceptsIffNoRuleFails | pages/api/submit-form.ts:14-32 | the field-by-field acceptance condition holds iff nothing throws and none of the nine rules fails |
| SubmitForm.ServerValidationEmptyIff | pages/api/submit-form.ts:35-37 | the error object is empty iff every field satisfies its rule and a first address exists and satisfies its rules |
| SubmitForm.MissingAddressesReported | pages/api/submit-form.ts:16-17 | with no non-empty addresses array, `addresses` holds its message and no address-member key is recorded |
| SubmitForm.OnlyFirstAddressChecked | pages/api/submit-form.ts:19 | bodies that agree on the fields and on the first address validate alike, whatever the other addresses hold |
| SubmitForm.UpstreamResponse | pages/api/submit-form.ts:50-63 | an ok answer (any 2xx) gives 200 with the data; any other answer gives the service's status with its text; a thrown Error gives 500 with its message; another thrown value gives 500 with its string; each error body carries its own message text, so the two thrown cases are told apart |
| SubmitForm.Handle | pages/api/submit-form.ts:6-66 | non-POST gives 405 and no call; the call is made iff POST and no rule fails, carries the JSON content type, the Basic header and the body verbatim, and its outcome decides the response; errors give 400; a TypeError gives no response |
| SubmitForm.Handler | pages/api/submit-form.ts:6-66 | the step-by-step handler computes exactly `Handle` |
| SubmitForm.NoCallNoDependence | pages/api/submit-form.ts:35-37 | when no call is made, the service's outcome cannot affect the result |
| FormPage.InitialFormData | pages/form.tsx:6-20 | the initial state has every rendered member and one address; every top-level member and every address member but the country is "", and the country "US" passes its rule |
| FormPage.RequestBody | pages/form.tsx:47 | the body the route receives is the page's members and its whole addresses array |
| FormPage.PageThrows | pages/form.tsx:33-38 | the TypeError cases: no first address, an address check that does not pass, or an absent document_ssn, email_address or birth_date |
| FormPage.PageValidation | pages/form.tsx:28-38 | the validation: a TypeError, or one entry under the route's key for each failing name or identity rule |
| FormPage.PageValidationIsFold | pages/form.tsx:28-38 | without a TypeError, the page's validation equals its five recording assignments applied in order |
| FormPage.CheckFirstAddress | pages/form.tsx:33-35 | the page carries on past the address checks iff a first address exists and passes all three |
| FormPage.ValidatePageIdentity | pages/form.tsx:36-38 | throws iff document_ssn, email_address or birth_date is absent; otherwise their entries are recorded |
| FormPage.ValidatePage | pages/form.tsx:28-38 | the imperative validation computes exactly the specified page validation |
| FormPage.InputChanged | pages/form.tsx:71-95 | an `address_` name sets that member of the first address only; any other name sets that top-level member only; everything else, including the other addresses, is unchanged |
| FormPage.InputChangedKeepsShape | pages/form.tsx:71-95 | editing keeps every rendered member and the single address |
| FormPage.PageAgreesWithServer | pages/form.tsx:31-38 | whenever the page records errors without throwing, the route records exactly the same errors for the body the page would send |
| FormPage.PageThrowsIffServerFaultsAddress | pages/form.tsx:33-35 | the page throws iff the route, given the same data, throws or reports an address problem |
| FormPage.FaultedAddressRule | pages/form.tsx:33-35 | when the page throws but the route does not, some address rule fails at the route |
| FormPage.AcceptedFormIsForwarded | pages/form.tsx:40-48 | a state the page accepts is forwarded by the route to the evaluation service, whatever the service answers |
| FormPage.InitialSubmitThrows | pages/form.tsx:33 | submitting the initial state raises a TypeError (its empty state fails the state rule) |
| FormPage.FormComponent.constructor | pages/form.tsx:6-22 | the component starts from the initial state with no errors |
| FormPage.FormComponent.HandleInputChange | pages/form.tsx:71-95 | formData becomes `InputChanged` of the old state, errors are untouched, and the shape is kept |
| FormPage.FormComponent.HandleSubmit | pages/form.tsx:25-68 | rejected iff validation throws; the request is sent iff no error is recorded, and carries the whole formData; navigation to /result with the result iff the answer is ok; errors become the new errors, or `{api: ...}` for a failed or thrown call, and are untouched otherwise |
| IndexPage.InitialFormData | pages/index.tsx:4-16 | the initial state has every rendered member, empty except the country "US", which passes its rule |
| IndexPage.PageThrows | pages/index.tsx:29-34 | the TypeError cases: an absent state, zipCode, ssn, email or dob |
| IndexPage.PageValidation | pages/index.tsx:24-34 | the validation: a TypeError, or one entry under the page's key for each failing rule |
| IndexPage.IndexKeysDistinct | pages/index.tsx:27-34 | the page records each rule under its own key |
| IndexPage.PageValidationIsFold | pages/index.tsx:24-34 | without a TypeError, the page's validation equals its eight assignments applied in order |
| IndexPage.ValidateNamesStateAndZip | pages/index.tsx:27-30 | throws iff state or zipCode is absent; otherwise the first four entries are recorded |
| IndexPage.ValidateCountryAndIdentity | pages/index.tsx:31-34 | throws iff ssn, email or dob is absent; otherwise the remaining entries are recorded |
| IndexPage.ValidatePage | pages/index.tsx:24-34 | the imperative validation computes exactly the specified page validation |
| IndexPage.InputChanged | pages/index.tsx:45-51 | the named member takes the value, every other member keeps its own, and no other member appears |
| IndexPage.InitialSubmitReports | pages/index.tsx:24-34 | submitting the initial state records every rule except the country's |
| IndexPage.IndexComponent.constructor | pages/index.tsx:4-18 | the component starts from the initial state with no errors |
| IndexPage.IndexComponent.HandleInputChange | pages/index.tsx:45-51 | formData becomes `InputChanged` of the old state and errors are untouched |
| IndexPage.IndexComponent.HandleSubmit | pages/index.tsx:21-42 | rejected iff validation throws; alert iff no error is recorded; on alert or rejection the earlier errors stay; otherwise errors become exactly the new, non-empty error object |
| IndexPage.ToServerBody | pages/index.tsx:27-34 | the page's data in the route's layout: the top-level members renamed, and one address holding state, postal code and country |
| IndexPage.RenamedReads | pages/index.tsx:27-34 | a member renamed to the route's key reads the page's member for the same rule |
| IndexPage.ToServerBodyReads | pages/index.tsx:27-34 | the page's data in the route's layout has a single address, and each member the route reads is the page's member for the same rule |
| IndexPage.RuleAgrees | pages/index.tsx:27-34 | on the converted data, each of the route's rules fails iff the page checks that rule and it fails |
| IndexPage.ServerSeesPageRules | pages/index.tsx:27-34 | on the converted data, the route throws iff the page throws, and the same rules fail |
| IndexPage.PageAgreesWithServer | pages/index.tsx:27-34 | the page and the route throw alike; the route records the page's failing rules with the same messages under its own keys; each rule's key is present in one iff in the other |
| IndexPage.PageEmptyIffNoRuleFails | pages/index.tsx:36 | the page records nothing iff it does not throw and no rule fails |
| IndexPage.PageEmptyIffServerEmpty | pages/index.tsx:36 | the page records nothing iff the route records nothing for the same data |
| IndexPage.PageAcceptsIffServerAccepts | pages/index.tsx:36-38 | the page shows its success alert iff the route accepts the same data |

## Left out

- The network: both `fetch` calls are left out. What the call to the evaluation service comes to is a parameter (`SubmitForm.Upstream`), and so is what the page's call to the route comes to (`FormPage.ApiOutcome`).
- `process.env` and `console.log`: the id and the secret are parameters, and logging has no effect on the model.
- React: hooks, JSX rendering, the disabled input, `router.push` and `alert` are left out. State is the component's fields. Navigation and the alert are outputs.
- `pages/result.tsx` is not part of this model.
- JSON bodies hold only string members, plus an `addresses` value that is either an array of such objects or absent or not an array. Numbers, `null`, nested values and JavaScript falsy coercion of non-strings are not modelled.
- `req.body` being undefined is not modelled.
- The service's JSON answer is kept opaque as its text (`SubmitForm.Json`).
- Strings are sequences of Unicode scalar values. JavaScript's UTF-16 code units, and `Buffer`'s replacement of lone surrogates, are not modelled.
- A TypeError escaping the route is modelled as no response. What Next.js then sends is not modelled.
- Error objects are maps, so the insertion order of their keys, which `JSON.stringify` preserves, is not modelled.
- The route's block of assignments is split: the name checks stay in `SubmitForm.ValidateBody`, which calls `ValidateFirstAddress` (itself calling `ValidateAddressMembers`) and `ValidateIdentity`. The entry page's name checks stay in `FormPage.ValidatePage`, which calls `CheckFirstAddress` and `ValidatePageIdentity`. The flat page's block is split in two, `ValidateNamesStateAndZip` and `ValidateCountryAndIdentity`. The order of the assignments is kept.
- FormPage.InputChanged requires a name other than "addresses". Only the rendered inputs call the handler, and that name would replace the address array with a string.
- FormPage.FormComponent.HandleInputChange requires a name other than "addresses", for the same reason.
- The conversion of the flat page's data to the route's layout (`IndexPage.ToServerBody`) carries only the members the route validates. `address1`, `address2` and `city` are not carried, because no rule reads them.
