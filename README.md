# Contact form: validation and submission lifecycle

This project models a web contact form in Dafny and proves properties of it.
The form has three fields: name, email and message. The model has two sides:

- **The submission endpoint** (`POST /api/contact`). It rejects a body that
  is not a JSON object ("Invalid JSON body"). It reads `name`, `email` and
  `message`, treats a missing or null field as `""`, and trims each one. It
  then applies three independent rules:
  - the name has at least 2 units;
  - the email matches `^[^\s@]+@[^\s@]+\.[^\s@]+$`;
  - the message has at least 10 units.

  Every broken rule gets its own entry in an `errors` map, and the endpoint
  answers 400 "Validation failed" with that map. When no rule is broken it
  answers 200 "Your message has been received.".
- **The form page.** Its validity check applies the same three rules, except
  that it tests the email as typed, without trimming it. The submit button is
  disabled when the form is invalid or a submission is in flight. The submit
  handler moves the state `Idle | Submitting | Success(msg) | Error(msg)`
  through one request and clears the fields on success.

Strings that are measured or pattern-matched are sequences of UTF-16 code
units (`JsText.JsString`). In JavaScript, `.length` counts code units, and a
regular expression without the `u` flag matches them one by one. `JsText.IsWs`
is ECMA-262's WhiteSpace plus LineTerminator (sections 12.2 and 12.3). The
pattern's `\s` and `String.prototype.trim` share that one definition.
Message texts that are only displayed stay Dafny `string`s.

Modules:
- `JsText` (`js_text.dfy`): code units, whitespace and `trim`.
- `ContactRoute` (`contact_route.dfy`): `isValidEmail` and `POST`.
- `ContactPage` (`contact_page.dfy`): `isValid`, `SubmitState` and the
  `ContactForm` class for the component's state and handlers.
- `ContactFlow` (`contact_flow.dfy`): the request and response between the
  two sides, and the properties that need both.

The page repeats the endpoint's email pattern literally
(src/app/contact/page.tsx:19, src/app/api/contact/route.ts:4). The model uses
the single definition `ContactRoute.IsValidEmail` for both.

An unparseable response body is not an error on the page:
`res.json().catch(() => ({}))` (src/app/contact/page.tsx:35) turns it into
`{}`. An ok reply then shows "Thanks for reaching out!" and a reply that is not
ok shows "Failed to submit. Please try again.". Only an exception from `fetch`
with an empty message shows "Something went wrong."
(`ContactPage.SettleMessages`).

The page's submission state is the datatype `ContactPage.SubmitState`
(src/app/contact/page.tsx:5-9): `Idle`, `Submitting`, `Success(message)` and
`Error(message)`.

## Model

| member | source | states |
|---|---|---|
| `JsText.TrimStart` | src/app/api/contact/route.ts:14-16 | the result is a suffix of the input that starts with a non-whitespace unit; everything dropped is whitespace |
| `JsText.TrimEnd` | src/app/api/contact/route.ts:14-16 | the result is a prefix of the input that ends with a non-whitespace unit; everything dropped is whitespace |
| `JsText.Trim` | src/app/api/contact/route.ts:14-16 | `trim()` returns a contiguous part of the input, no longer than it, with only whitespace on either side and no whitespace at either end |
| `JsText.TrimUnique` | src/app/api/contact/route.ts:14-16 | only one string satisfies that description, so `trim` is fully determined by it |
| `JsText.TrimNoWs` | src/app/api/contact/route.ts:15 | a string without whitespace trims to itself |
| `JsText.TrimIdempotent` | src/app/api/contact/route.ts:14-16 | trimming twice gives the same result as trimming once |
| `JsText.TrimSurrounding` | src/app/api/contact/route.ts:14-16 | whitespace added around a string does not change its trim |
| `ContactRoute.IsValidEmail` | src/app/api/contact/route.ts:3-5 | `isValidEmail`: the regex test, computed by locating the first `@`; an accepted string has at least 5 units and contains both `@` and `.` (exactly what it accepts is stated by the next two rows) |
| `ContactRoute.EmailMatchesPattern` | src/app/api/contact/route.ts:3-5 | `isValidEmail` accepts exactly the strings that split into three non-empty runs of `[^\s@]`, separated by `@` and then `.` |
| `ContactRoute.EmailShape` | src/app/api/contact/route.ts:3-5 | `isValidEmail` holds iff: the string has no whitespace; `@` occurs exactly once and not first; a `.` follows it that is neither the first nor the last unit after the `@` |
| `ContactRoute.EmailExampleAccepted` | src/app/api/contact/route.ts:3-5 | "x@y.z" is accepted for any x, y, z outside whitespace and `@` |
| `ContactRoute.EmailExamplesRejected` | src/app/api/contact/route.ts:3-5 | "x@y" (no dot), "x y@z.x" (inner whitespace) and " x@y.z " (outer whitespace) are rejected |
| `ContactRoute.Field` | src/app/api/contact/route.ts:14-16 | `String(v ?? "").trim()`: a missing or null field reads as the empty string; a present one becomes its trim |
| `ContactRoute.FieldErrors` | src/app/api/contact/route.ts:18-21 | keys lie in {name, email, message}; `name` iff the trimmed name has fewer than 2 units, `email` iff the email fails the pattern, `message` iff the message has fewer than 10 units; each key carries its fixed text |
| `ContactRoute.ErrorsCountViolations` | src/app/api/contact/route.ts:18-23 | the map has one entry per broken rule (0 to 3), and it is empty iff all three rules hold |
| `ContactRoute.Validate` | src/app/api/contact/route.ts:18-37 | on already-trimmed fields: 200 with the confirmation when every rule holds; otherwise 400 "Validation failed" with exactly the error map, which then has one entry per broken rule and is never empty |
| `ContactRoute.Post` | src/app/api/contact/route.ts:9-16 | a non-object body gets 400 "Invalid JSON body"; for an object, missing fields read as `""`, all three are trimmed and validated, and the status is 200 iff every rule holds for the trimmed fields, otherwise 400 (for fields whose `String()` conversion does not throw) |
| `ContactRoute.PostIgnoresSurroundingWs` | src/app/api/contact/route.ts:14-21 | whitespace around any one field, or several with different padding each, changes nothing in the response: it never counts toward a length or against the email |
| `ContactRoute.AllRulesBroken` | src/app/api/contact/route.ts:19-24 | fields breaking all three rules get 400 with exactly the three keys `name`, `email` and `message` |
| `ContactRoute.NoFieldsBreaksAllRules` | src/app/api/contact/route.ts:14-24 | an object with none of the fields gets 400 with all three keys |
| `ContactRoute.ShortFieldsBreakAllRules` | src/app/api/contact/route.ts:14-24 | { name: "x", email: "xxx", message: "xx" } gets 400 with all three keys |
| `ContactPage.FormValid` | src/app/contact/page.tsx:17-22 | `isValid`: trimmed name of at least 2 units, the email as typed matching the endpoint's pattern, trimmed message of at least 10 units; when it holds, the raw name and message already meet those lengths (its relation to the endpoint is stated by `ContactFlow.ClientValidImpliesServerAccepts` and `ContactFlow.ServerAcceptsMoreThanClient`) |
| `ContactPage.OrElse` | src/app/contact/page.tsx:37 | the `or` operator (`v` or else `fallback`) gives `v` when it is present and non-empty, otherwise the fallback; the result is non-empty iff one of them is |
| `ContactPage.Caught` | src/app/contact/page.tsx:43-44 | the `catch` block always sets `Error` with a non-empty text: the thrown message when it is non-empty, otherwise "Something went wrong." |
| `ContactPage.Settle` | src/app/contact/page.tsx:35-45 | after a submit settles, the state is `Success` or `Error`, never `Submitting` or `Idle`; `Success` iff the response was ok; an `Error` message is never empty |
| `ContactPage.SettleMessages` | src/app/contact/page.tsx:35-45 | ok: the server's `message`, or "Thanks for reaching out!" only when it is absent (`??`); not ok: the server's `error`, or "Failed to submit. Please try again." when it is absent or empty (the `or` operator); unparseable body: these fallbacks; exception: its message, or "Something went wrong." when that is empty |
| `ContactPage.ContactForm.constructor` | src/app/contact/page.tsx:12-15 | empty fields, state `Idle` |
| `ContactPage.ContactForm.IsValid` | src/app/contact/page.tsx:17-22 | the memoised `isValid`, recomputed from the current field values by `FormValid` |
| `ContactPage.ContactForm.SubmitDisabled` | src/app/contact/page.tsx:106 | the button is always disabled while a submission is in flight; in every other state it is disabled exactly when the form is invalid |
| `ContactPage.ContactForm.EditName` | src/app/contact/page.tsx:66 | sets the name only |
| `ContactPage.ContactForm.EditEmail` | src/app/contact/page.tsx:81 | sets the email only |
| `ContactPage.ContactForm.EditMessage` | src/app/contact/page.tsx:96 | sets the message only |
| `ContactPage.ContactForm.BeginSubmit` | src/app/contact/page.tsx:24-34 | nothing is sent and nothing changes exactly when the button is disabled (invalid, or already `Submitting`, line 106); otherwise the state becomes `Submitting`, the untrimmed fields are sent, and the button stays disabled while the request is in flight |
| `ContactPage.ContactForm.FinishSubmit` | src/app/contact/page.tsx:35-45 | the state becomes `Settle(outcome)`; all three fields are cleared iff it is `Success`, otherwise they are unchanged |
| `ContactPage.ContactForm.Submit` | src/app/contact/page.tsx:24-46 | a whole submit: a no-op when the button is disabled; otherwise it sends the raw fields and ends in `Success` with cleared fields, or in `Error` with the fields kept |
| `ContactFlow.Request` | src/app/contact/page.tsx:33 | the endpoint receives an object with all three fields present and holding the raw values |
| `ContactFlow.Deliver` | src/app/contact/page.tsx:35-36 | the page sees `res.ok` exactly for a 2xx status; it reads `message` from a confirmation and `error` from any error body |
| `ContactFlow.ValidEmailTrimsToItself` | src/app/api/contact/route.ts:3-5 | an email matching the pattern is unchanged by trimming |
| `ContactFlow.RequestAccepted` | src/app/api/contact/route.ts:14-37 | the endpoint answers 200 to the page's request iff the trimmed fields pass all three rules, and then with the confirmation |
| `ContactFlow.ClientValidImpliesServerAccepts` | src/app/contact/page.tsx:17-22 | when `isValid` holds for the raw fields, the endpoint's error map for them is empty and it answers 200 with the confirmation |
| `ContactFlow.ServerAcceptsMoreThanClient` | src/app/contact/page.tsx:19 | the converse fails: with the email " x@x.x " the endpoint accepts but `isValid` is false |
| `ContactFlow.ValidSubmitSucceeds` | src/app/contact/page.tsx:39 | a submit the page allows ends in `Success("Your message has been received.")` |
| `ContactFlow.RejectedSubmitShowsValidationFailed` | src/app/contact/page.tsx:36-37 | a request the endpoint rejects ends in `Error("Validation failed")` |
| `ContactFlow.SubmitToEndpoint` | src/app/contact/page.tsx:24-46 | a submit against the endpoint itself, with no edits in between: a no-op when the button is disabled, otherwise it shows the confirmation and clears every field |

## Left out

- JSON parsing of the request and `String()` coercion. `ContactRoute.Body` is
  the parse result: `Invalid` for null, falsy and non-object values, or an
  object whose fields are absent or already strings. What `String()` makes
  of a number, boolean or nested object is not modelled.
- The 500 "Unexpected server error" path (src/app/api/contact/route.ts:38-40).
  The request body alone can reach it: `String(body.name ?? "")`
  (src/app/api/contact/route.ts:14-16) throws a TypeError for a field such as
  `{"toString":0}`, whose `toString` cannot be called and whose inherited
  `valueOf` returns a non-primitive. The model's `Body` only holds fields whose
  conversion succeeds, so such a request is outside the model.
- ContactRoute.Post: its `status == 200 || status == 400` holds only for bodies
  whose fields convert with `String()`; a field whose conversion throws gets 500.
- The log record written on success (src/app/api/contact/route.ts:27-35).
  This covers the timestamp and the `user-agent` and `x-forwarded-for`
  headers. None of them affects the response.
- `fetch`, HTTP transport, `async`/`await` and `NextResponse`. The reply
  reaches the page as a `ContactPage.Outcome` input. `ContactPage.ReplyData`
  is the result of `res.json()`; a non-string `message` or `error` in it is
  not modelled.
- React scheduling (`useState`, `useMemo`, batching, re-rendering). The
  component's state is the four fields of `ContactPage.ContactForm`, and
  `isValid` is recomputed from them.
  `ContactPage.ContactForm.BeginSubmit` and `FinishSubmit` are the two halves
  of `onSubmit` around the `await`.
- JSX markup, styling, labels, placeholders and the status texts' rendering
  (src/app/contact/page.tsx:48-129).
- ContactPage.ContactForm.BeginSubmit, ContactPage.ContactForm.Submit and
  ContactFlow.SubmitToEndpoint: the browser's own form validation is not
  modelled. The `required`, `minLength` and `type="email"` attributes
  (src/app/contact/page.tsx:63-64, 78-79, 93-94) block the `submit` event
  before `onSubmit` runs when they fail. `required` and `minLength` never block
  a form that `isValid` accepts, since the raw name and message are then long
  enough (`ContactPage.FormValid`). `type="email"` can: an email that the app's
  pattern accepts but HTML's email syntax rejects (such as `a(b@c.d`) is sent
  by these members but never by a browser.
- ContactPage.ContactForm.EditEmail: the email input's value sanitisation is not
  modelled. A `type="email"` input strips newlines and leading and trailing
  ASCII whitespace from its value before `onChange` reads it
  (src/app/contact/page.tsx:81); the model stores the value as given.
- `ContactPage.ContactForm.BeginSubmit`: the guard reads the current field
  values. The source reads `isValid` and `submitState` from the last render's
  closure, and the model assumes that render is up to date.
- `JsText.IsWs` follows the current Unicode space separators. Older engines
  whose Unicode tables count U+180E as a space are not modelled.
- Lone surrogates and other UTF-16 oddities need no special handling:
  neither the pattern nor `trim` gives them a meaning.
