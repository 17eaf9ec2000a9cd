# Gmail client wrapper — a Dafny model

This project models the core of a small wrapper that sends one email through
Gmail with OAuth2 credentials. Its behaviour is fixed by its test suite,
`test/Gmail.js`:

- **Construction** (`new Gmail(user, clientId, clientSecret, accessToken,
  refreshToken)`). The five credentials are checked in that order. The first
  missing one throws its own message. Otherwise the client holds exactly the
  five values, unchanged, as `_user`, `_id`, `_secret`, `_accessToken` and
  `_refreshToken`.
- **`sendEmail(sender, recipients, subject, content)`**. The arguments are
  checked in the order sender, recipients object, `to`, subject, content.
  The message object `{from, to, cc?, bcc?, subject, html}` is then built.
  Each recipient list is formatted by one rule: a missing or empty list is
  left out of the object, one address is used as it is, and several are
  joined with `", "` in input order. A valid request is handed to the
  transport exactly once. A transport error `e` becomes the failure
  `"Can not send email. Stack trace: " + e`, and a success carries the
  message id.

Layout:

- `wrappers.dfy` (module `Wrappers`): `Option` for a JavaScript value that
  may be missing, and `Result` for an operation that may throw.
- `recipient_list.dfy` (module `RecipientList`): `Join` (JavaScript's
  `join(', ')`) and its inverse `Split`, with the round trip.
- `gmail.dfy` (module `Gmail`): the client, the two ordered validators, the
  message object, delivery mapping and `SendEmail`.
- `gmail_scenarios.dfy` (module `GmailScenarios`): the test cases, stated
  with the suite's own values.

Modelling choices:

- JavaScript `undefined`, `null` and an absent argument or property are all
  `None`. A string or list argument counts as missing when it is `None` or
  empty.
- Throwing is modelled as returning `Err` with the thrown error's text.
- The transport is a parameter of `SendEmail`: a function from the message
  object to the reply its completion callback receives. `SendEmail` returns
  the list of messages it handed to the transport together with the call's
  outcome. That list is what "exactly one send" is stated about.
- The delivery error is modelled as the `Err` outcome of the call. In the
  source it is thrown from inside the transport's callback. A success is
  modelled as `Ok` carrying the message id. In the source a success only
  logs `"Message sent: %s"` with the id.

## Model

| member | source | states |
|---|---|---|
| `RecipientList.Join` | test/Gmail.js:234-264 | an empty list gives "", one address is returned unchanged, the first address starts the result, and the length is the addresses' total plus two characters per separator |
| `RecipientList.SplitJoin` | test/Gmail.js:249-264 | for a non-empty list of comma-free addresses, splitting the joined string at ", " gives back the same addresses in the same order |
| `RecipientList.JoinInjective` | test/Gmail.js:249-264 | two non-empty lists of comma-free addresses join to the same string exactly when they are the same list |
| `Gmail.MakeClient` | test/Gmail.js:87-102 | on success the client's value for each credential is exactly the argument given for it |
| `Gmail.MakeClientSucceedsIffAllPresent` | test/Gmail.js:27-102 | construction succeeds if and only if all five credentials are given and non-empty |
| `Gmail.MakeClientReportsFirstMissing` | test/Gmail.js:27-85 | construction fails with credential c's message if and only if c is missing and every credential checked before c (user, client id, client secret, access token, refresh token) is given |
| `Gmail.MissingCredentialMessageInjective` | test/Gmail.js:27-85 | the five credential error messages are pairwise distinct, so the message identifies the missing credential |
| `Gmail.MakeClientStoresVerbatim` | test/Gmail.js:87-102 | a constructed client has exactly the own properties `_user`, `_id`, `_secret`, `_accessToken`, `_refreshToken`, each holding its argument unchanged |
| `Gmail.BuildMessage` | test/Gmail.js:234-247 | a built message's `from`, `subject` and `html` are the sender, subject and content arguments unchanged |
| `Gmail.BuildMessageSucceedsIffValid` | test/Gmail.js:128-232 | building the message succeeds if and only if all five send checks pass |
| `Gmail.BuildMessageReportsFirstFailure` | test/Gmail.js:128-232 | `sendEmail` fails with check k's message if and only if k fails and every earlier check passes (order: sender, recipients object, `to`, subject, content) |
| `Gmail.SendCheckMessageInjective` | test/Gmail.js:128-232 | the five validation messages are pairwise distinct |
| `Gmail.MissingToIsRejected` | test/Gmail.js:152-204 | with a sender and a recipients object given, a `to` that is missing or empty is rejected with "Direct recipient is missing(to)", whatever the subject and content |
| `Gmail.FormatRecipientsJoinsOrOmits` | test/Gmail.js:234-468 | a list gives no property exactly when it is missing or empty; one address gives exactly that address; several comma-free addresses give a string that splits back into the list |
| `Gmail.BuildMessageRecipientProperties` | test/Gmail.js:266-468 | in a built message `to` is always set to the joined `to` list; `cc` and `bcc` are own properties exactly when their lists hold addresses, and then hold the joined list; the only other properties are `from`, `subject`, `html` |
| `Gmail.DeliveryResult` | test/Gmail.js:470-510 | the outcome is an error exactly when the transport reports one; that error is the prefix "Can not send email. Stack trace: " followed by the transport's error text unchanged; a success carries the message id |
| `Gmail.SendEmail` | test/Gmail.js:234-264 | at most one message is sent; one is sent exactly when all checks pass; then it is the built message and the outcome is the mapped transport reply; otherwise nothing is sent and the outcome is the validation error |
| `GmailScenarios.ConstructorRejectsMissingCredentials` | test/Gmail.js:27-85 | with trailing arguments left off, construction throws the message of the first one left off |
| `GmailScenarios.ConstructorKeepsCredentials` | test/Gmail.js:87-102 | the client built from the suite's credentials has exactly the five expected properties |
| `GmailScenarios.SendEmailRejectsMissingArguments` | test/Gmail.js:128-232 | each of the suite's incomplete calls fails with its expected message and sends nothing |
| `GmailScenarios.JaneAndJohnJoined` | test/Gmail.js:249-264 | the two test addresses join to "jane@gmail.com, john@gmail.com" |
| `GmailScenarios.ToListFormatting` | test/Gmail.js:234-264 | one `to` address is sent unchanged; two are sent joined, in one send |
| `GmailScenarios.CcListFormatting` | test/Gmail.js:266-366 | a `cc` that is missing or empty is not a property; one address is sent unchanged; two are joined |
| `GmailScenarios.BccListFormatting` | test/Gmail.js:368-468 | the same for `bcc` |
| `GmailScenarios.DeliveryOutcomes` | test/Gmail.js:470-510 | the error "nodemailer error" surfaces as "Can not send email. Stack trace: nodemailer error"; a success reports id 666 |

## Left out

- Creating the nodemailer transport and its OAuth2 configuration from the stored credentials. This is a call into an external library. As a result `SendEmail` takes no client.
- The callback mechanics. In the source the delivery error is thrown from inside the transport's deferred callback. The model maps the reply to a `Result` instead.
- Console logging of the sent message id. This is I/O. The id is the success value instead.
- JavaScript truthiness beyond `None` and the empty string or list. Whitespace-only strings, `to` values that are not arrays, and list elements that are not strings are not asserted by the tests.
- `RecipientList.SplitJoin`: the round trip is stated only for addresses without a comma. An address containing ", " cannot be told apart from a separator in the joined string.
- `lib/Gmail.js` is not part of this model. The behaviour is taken from what its test suite asserts.
