# Portfolio contact relay — Dafny model

This project models the one piece of logic in the portfolio backend: the
`POST /api/contact` handler. It reads `name`, `email`, `subject` and `message`
from the request body. It rejects the request with 400 when a field is
missing, or when the address does not match `^[^\s@]+@[^\s@]+\.[^\s@]+$`.
Otherwise it composes one email and hands it to the email provider (Resend),
then answers 200 if the send call returned and 500 if it threw.

The handler is straight-line code, so the model is pure. `ContactRoute.Handle`
maps a submission, the configured destination address and the outcome of the
send call to a response and the email that was dispatched, if any. "No send
attempted" is `dispatched == None`.

Modules:

- `Wrappers`: `Option`.
- `Text`: counting, first index, "occurs at" and substring predicates, with
  their lemmas.
- `EmailAddress`: the regular expression's character class (ECMAScript `\s`,
  section 22.2.2.9 of ECMA-262, and `@`). It has two predicates:
  `MatchesPattern`, the language of the anchored pattern, and `WellShaped`,
  the field-by-field shape. A lemma proves them equal. A loop-based checker
  `Test` is proved equal to both.
- `LineBreaks`: `message.replace(/\n/g, "<br>")` as a recursive function, with
  its properties.
- `HtmlTemplate`: a template literal with four interpolated slots, and where
  each value lands in the result.
- `ContactRoute`: the fixed strings (error texts, sender, subject prefix, the
  HTML template text), the payload composition and the handler.

The presence check follows the code. A field fails only when it is absent or
the empty string, which is JavaScript falsiness for strings. A truthy
non-string value, such as a number or an array, passes the check. Fields are
modelled as `Option<string>` only (see "Left out").

## Model

| member | source | states |
|---|---|---|
| `ContactRoute.Handle` | index.js:31-89 | An email is dispatched iff all four fields are present and the address is well-shaped. Status is 400 iff the submission is rejected, 200 iff it is accepted and the send succeeds, and 500 iff it is accepted and the send fails. A missing field gives "All fields are required: name, email, subject, message". A present but malformed address gives "Please provide a valid email address". The dispatched email has the fixed sender, the configured `to`, subject "Portfolio Message: " + subject, reply-to equal to the submitted address, and the template-filled HTML. |
| `ContactRoute.SendResponse` | index.js:78-87 | A resolved send gives 200 with `success` and the fixed notice. A thrown send gives 500 with the fixed error text, whatever the provider error. |
| `ContactRoute.DispatchedIffMatches` | index.js:36-54 | An email is sent exactly when every field is present and the regular expression (its match semantics) accepts the address. |
| `ContactRoute.MissingEmailReportedAsMissing` | index.js:36-49 | The checks run in order: an absent or empty address gives the "All fields are required" 400 and never the "valid email address" error. |
| `ContactRoute.ProviderErrorNotExposed` | index.js:82-87 | Two failed sends with different provider errors produce identical results, so no provider text reaches the response. |
| `ContactRoute.HtmlCarriesFields` | index.js:58-73 | For an accepted submission, the name, address and subject occur verbatim (unescaped) in the HTML body, and so does the message after the newline rewrite. |
| `ContactRoute.TwoLineMessage` | index.js:69 | A message "first\nsecond" (neither part holding a newline) reaches the HTML body as "first<br>second". |
| `HtmlTemplate.FillLayout` | index.js:58-73 | In a filled template, each value sits verbatim right after the fixed text before it. The length is the fixed text plus the four values. |
| `HtmlTemplate.FillCarries` | index.js:58-73 | Each interpolated value is a substring of the filled template. |
| `EmailAddress.PatternIsWellShaped` | index.js:44-45 | The pattern matches `s` iff four things hold: `s` has no `\s` character, exactly one `@`, a non-empty part before the `@`, and a `.` in the domain that is neither its first nor its last character. |
| `EmailAddress.SplitIsWellShaped` | index.js:44-45 | Any A@B.C split with A, B and C non-empty runs of `[^\s@]` gives a well-shaped address (one direction of the equivalence). |
| `EmailAddress.WellShapedSplits` | index.js:44-45 | A well-shaped address has such a split (the other direction). |
| `EmailAddress.AssembledAddressIsWellShaped` | index.js:44-45 | local + "@" + host + "." + tld is accepted whenever the three parts are non-empty runs of `[^\s@]` (e.g. "ada@example.com"). |
| `EmailAddress.Test` | index.js:44-45 | The loop-based checker answers true exactly when the address is well-shaped, and exactly when the pattern matches. |
| `LineBreaks.ReplaceNewlines` | index.js:69 | The result is as long as the message plus three characters for every `\n` in it. |
| `LineBreaks.ReplaceRemovesNewlines` | index.js:69 | The result contains no `\n`. |
| `LineBreaks.ReplaceWithoutNewlines` | index.js:69 | A message with no `\n` is returned unchanged. |
| `LineBreaks.ReplaceIdempotent` | index.js:69 | Rewriting twice equals rewriting once. |
| `LineBreaks.ReplaceConcat` | index.js:69 | The rewrite of a concatenation is the concatenation of the rewrites (the replacement is global and local to each character). |
| `LineBreaks.ReplaceAt` | index.js:69 | Character k of the message lands at index k + 3 × (newlines before it). It lands as itself when it is not `\n`, and as "<br>" when it is. Every other character is therefore kept, in order. |

## Left out

- The Express app, `express.json()`, `app.listen` and its startup logging (index.js:6, 19, 92-95). This is server plumbing.
- The CORS allow-list (index.js:13-18). It is library configuration.
- dotenv and the `PORT`, `RESEND_API_KEY` and `EMAIL_USER` reads (index.js:4, 7, 10, 56). The destination address is a parameter of `Handle`. An unset `EMAIL_USER` (JavaScript `undefined`) is not modelled.
- The Resend client and the network call (index.js:10, 54-75). The call is an input `SendOutcome`. `Delivered` means the awaited promise resolved; the handler ignores the value it resolves with, so any resolution gives 200. Whether the provider reports a rejection by throwing or by resolving with an error object depends on the client library, which is not part of this model.
- `console.log` and `console.error` (index.js:51, 77, 83). They are side effects with no behavioural content.
- The health-check route (index.js:22-28). Its only varying field is the wall-clock time.
- Non-string request-body values (numbers, booleans, objects), as JavaScript truthiness and coercion would treat them. A non-string `message` would throw at `.replace` and land in the 500 branch. A missing (`undefined` or `null`) body would throw at destructuring and also answer 500. Neither path is modelled.
- JavaScript strings are UTF-16 code units, and the regular expression (no `u` flag) works on code units. The model's strings are Unicode scalar values. The two agree for this pattern, since no `\s` character lies outside the Basic Multilingual Plane. Lone surrogates cannot be represented.
- The Zs set in `IsSpaceSeparator` is that of current Unicode versions. U+180E, which older versions counted as Zs, is not included.
- The HTML template's markup is carried as fixed strings. The model says where the values land, not what the markup means.
