# Portfolio contact handler, contact form and project gallery

This project models the three pieces of logic of the portfolio site (a React client with an
Express server) and proves properties about them.

- **The contact handler** (`POST /api/contact`, module `ContactController`). It reads `name`,
  `email`, `subject` and `message` from the request body and rejects the submission with 400
  unless the three required fields are truthy. Otherwise it saves the record. The mail
  settings `BREVO_API_KEY` and `SENDER_EMAIL` then decide between two paths:
  - settings missing: it answers 201 with a warning;
  - settings present: it posts a notification email to the Brevo API and answers 201 or 500
    depending on whether the post succeeded.

  Storage and the HTTP client are foreign calls. They appear as given outcomes (success or a
  thrown error). The handler returns its response together with the list of effects it
  performed, in the order performed.
- **The HTML helpers** of the handler (module `HtmlText`, on top of `JsStrings`):
  - `escapeHtml`: five `replaceAll` passes, `&` first;
  - `nl2br`: every line feed becomes `<br/>`.

  The proofs use two reference definitions, one that escapes character by character and one
  that decodes. Against those they show that the output holds no markup characters, that
  every `&` in it begins an entity, and that decoding recovers the input.
- **The contact form** (module `ContactForm`):
  - `validate`: trim-emptiness checks, plus the email regular expression. The expression
    appears as a predicate, proved equal to a field-by-field description of the shape.
  - The component state (`form`, `errors`, `submitting`, `sent`, `quoteIndex`) as a class.
    Its handlers are `handleChange`, `handleSubmit` (each handler run to completion) and
    `nextQuote`.
- **The project gallery** (module `Projects`):
  - the constant table of nine projects and the five filter buttons;
  - reading the `filter` query parameter into a category;
  - the toggle on the filter buttons;
  - the visible cards;
  - writing the filter back to the query parameters and building the new URL;
  - the details dialog, which holds the id of one project.

  The `filter`/`active` state is a class. Query parameters are the ordered list of pairs of a
  `URLSearchParams` object.

JavaScript semantics are written out where the code depends on them:
- truthiness, and `String(v)`;
- a destructuring default, which applies only to `undefined`;
- `indexOf`, `replaceAll`, `trim` and `\s`;
- the first-match `get`, and the `set`/`delete` of `URLSearchParams`.

The white space that `trim` and `\s` remove is one fixed set. That set is the WhiteSpace and
LineTerminator characters of ECMAScript, with the Unicode 15 space separators listed out
(`JsStrings.JsSpaceChars`).

Two points where the code does less than a reader might expect; the model follows the code:
- The server checks the required fields for truthiness only. It does not trim and does not
  check the email's shape, so a name of one space passes. Trimming and the email shape are
  checked only in the browser.
- Only the HTML body of the email escapes the submitted values. The text body carries them
  raw.

## Model

| member | source | states |
|---|---|---|
| `JsStrings.IndexOfSpec` | server/controllers/contactController.js:64-68 | the search behind `replaceAll` finds the first occurrence of the character, and says "not found" exactly when the character does not occur |
| `JsStrings.ReplaceAllIsReplaceEach` | server/controllers/contactController.js:64-68 | `replaceAll` with a one-character pattern equals replacing each occurrence and keeping every other character, in order |
| `JsStrings.ReplaceEachRemoves` | server/controllers/contactController.js:70 | a replacement that does not contain the pattern character leaves no occurrence of it |
| `JsStrings.TrimStartSpec` | client/src/components/Contact.jsx:25-28 | `trimStart` removes exactly a leading run of white space; the result is a suffix of the input that starts with a non-space character or is empty |
| `JsStrings.TrimEndSpec` | client/src/components/Contact.jsx:25-28 | `trimEnd` removes exactly a trailing run of white space; the result is a prefix of the input that ends with a non-space character or is empty |
| `JsStrings.TrimEmptyIff` | client/src/components/Contact.jsx:25-28 | `s.trim()` is empty if and only if `s` consists of white space only |
| `HtmlText.EscapeChar` | server/controllers/contactController.js:64-68 | a character stays as it is exactly when it is not one of the five special characters, and what it becomes holds no markup character |
| `HtmlText.EscapeHtmlIsEscapeEach` | server/controllers/contactController.js:62-68 | the five passes, `&` first, equal replacing each character by its entity (`&amp;`, `&lt;`, `&gt;`, `&quot;`, `&#039;`) and keeping all others in order |
| `HtmlText.EscapeHtmlNoMarkup` | server/controllers/contactController.js:62-68 | the output of `escapeHtml` contains none of `<`, `>`, `"`, `'` |
| `HtmlText.EscapeHtmlAmpersands` | server/controllers/contactController.js:62-68 | every `&` in the output begins one of the five entities |
| `HtmlText.UnescapeEscapeHtml` | server/controllers/contactController.js:62-68 | decoding the five entities from left to right gives back the input |
| `HtmlText.EscapeHtmlIdentity` | server/controllers/contactController.js:62-68 | a string with none of the five special characters is returned unchanged |
| `HtmlText.Nl2brReplacesLineFeeds` | server/controllers/contactController.js:70 | `nl2br` replaces each line feed by `<br/>`, keeps every other character in order, and leaves no line feed |
| `HtmlText.Br2nlNl2br` | server/controllers/contactController.js:70 | for text without `<` (such as escaped text), turning each `<br/>` back into a line feed undoes `nl2br` |
| `HtmlText.MessageSlotDecodes` | server/controllers/contactController.js:38 | the message slot of the HTML body, `nl2br(escapeHtml(message))`, decodes back to the message |
| `ContactController.ToJsString` | server/controllers/contactController.js:62-63 | `String(v)` of a string is the string itself, and a truthy value never becomes the empty string |
| `ContactController.Destructure` | server/controllers/contactController.js:9 | name, email and message are taken as they are; a missing subject becomes `""`, and any other subject, `null` included, is kept |
| `ContactController.BuildPayload` | server/controllers/contactController.js:27-43 | sender and the single recipient are `SENDER_EMAIL`, reply-to is the submitter's email, the subject is the truthy subject or `"New contact message from " + name`, the HTML body holds the escaped values with `nl2br` on the message, the text body holds the raw values |
| `ContactController.SubmitContact` | server/controllers/contactController.js:7-59 | 400 with the required-fields error and no effect exactly when a required field is falsy; otherwise one record write comes first; a failed write gives 500 and no email; no mail settings give 201 with the saved record and the warning, and no email; otherwise exactly one post to the Brevo URL with the JSON content type, the API key, the 10000 ms timeout and the payload, then 201 with the saved record on success or 500 with the server error on failure; a 201 always carries the created document; the only statuses are 201, 400 and 500 |
| `ContactController.HtmlSlotsDecode` | server/controllers/contactController.js:32-41 | the name, email and subject slots of the HTML body hold no markup character and decode back to the submitted values; the message slot holds no line feed, holds no markup once its `<br/>` tags are read back as line feeds, and decodes back to the message |
| `ContactController.DefaultSubjectExample` | server/controllers/contactController.js:31 | for `{name: "Ann", subject: ""}` the subject line is `"New contact message from Ann"` |
| `ContactController.TextBodyCarriesMessage` | server/controllers/contactController.js:42 | the text body is the three header lines and a blank line, then the raw message verbatim (line feeds included), then a blank line and the signature |
| `ContactForm.Form.With` | client/src/components/Contact.jsx:33 | `{ ...form, [k]: value }` sets field `k` to `value` and keeps every other field |
| `ContactForm.EmailRegexIff` | client/src/components/Contact.jsx:27 | `/^[^\s@]+@[^\s@]+\.[^\s@]+$/` accepts a string exactly when it has no white space, exactly one `@` with something before it, and a dot after the `@` that is neither the first nor the last character there |
| `ContactForm.ValidateName` | client/src/components/Contact.jsx:25 | a `name` error, "Please enter your name", is reported exactly when the name is blank |
| `ContactForm.ValidateEmail` | client/src/components/Contact.jsx:26-27 | blank email gives "Please enter your email"; otherwise an untrimmed email the regular expression rejects gives "Please enter a valid email"; otherwise there is no email error |
| `ContactForm.ValidateMessage` | client/src/components/Contact.jsx:28 | a `message` error, "Please enter a message", is reported exactly when the message is blank |
| `ContactForm.ValidateKeys` | client/src/components/Contact.jsx:23-30 | the error keys are among name, email and message, so there is never a subject error |
| `ContactForm.ValidatePasses` | client/src/components/Contact.jsx:23-30 | validation passes exactly when name and message are not blank and the email is not blank and matches the regular expression |
| `ContactForm.SubmitErrorText` | client/src/components/Contact.jsx:54-65 | the `submit` error is never empty; it is the server's non-empty `error` field, or "Failed to send message" when a non-OK answer has none; for a thrown error it is its non-empty message, or "Failed to send" when that message is empty |
| `ContactForm.NextQuoteIndex` | client/src/components/Contact.jsx:72 | the next quote index is always in range, and it is one more than the current one except at the last quote |
| `ContactForm.QuoteAfterCycles` | client/src/components/Contact.jsx:72 | after `n` presses the index has moved `n` places round the cycle of quotes |
| `ContactForm.EveryQuoteReached` | client/src/components/Contact.jsx:10-13 | starting from the first quote each quote is reached, and a full round returns to the first |
| `ContactForm.ContactState.constructor` | client/src/components/Contact.jsx:16-20 | the initial state: four empty fields, no errors, not submitting, not sent, first quote |
| `ContactForm.ContactState.HandleChange` | client/src/components/Contact.jsx:32-35 | only field `k` changes and only the error under `k` is cleared (set to `undefined`); everything else is unchanged |
| `ContactForm.ContactState.HandleSubmit` | client/src/components/Contact.jsx:37-69 | with validation errors `errors` becomes exactly those keys with their messages and nothing is sent or changed otherwise; else the form is sent; an OK answer empties the form and sets `sent`; a failure keeps the form and sets `errors.submit`; `submitting` ends false |
| `ContactForm.ContactState.NextQuote` | client/src/components/Contact.jsx:72 | the quote index advances one place round the cycle and stays in range |
| `Projects.NormalizeFilter` | client/src/components/Projects.jsx:34-41 | the filter taken from the URL is always one of the categories: the parameter itself when it is a category, "All" otherwise |
| `Projects.Toggle` | client/src/components/Projects.jsx:94 | the result is "All" exactly when the clicked button was already selected or is "All", and otherwise the clicked category; from a category, clicking a category gives a category |
| `Projects.ToggleTwice` | client/src/components/Projects.jsx:92-95 | clicking another button twice returns to "All" |
| `Projects.ParamIndex` | client/src/components/Projects.jsx:52 | the position of the first pair with the given name, or the length when there is none |
| `Projects.GetParamSpec` | client/src/components/Projects.jsx:36 | `get` gives the value of the first pair with the name, and nothing when no pair has it |
| `Projects.DeleteParam` | client/src/components/Projects.jsx:53 | after `delete` no pair has the name, and the list has not grown |
| `Projects.DeleteParamMembers` | client/src/components/Projects.jsx:53 | a pair is kept by `delete(n)` exactly when it was in the list under another name |
| `Projects.DeleteKeepsCounts` | client/src/components/Projects.jsx:53 | `delete(n)` keeps every pair with another name as many times as it occurred |
| `Projects.DeleteKeepsOrder` | client/src/components/Projects.jsx:53 | `delete(n)` keeps the remaining pairs in their original order |
| `Projects.GetAfterSet` | client/src/components/Projects.jsx:52 | after `set(n, v)`, `get(n)` is `v` |
| `Projects.SetParamSingle` | client/src/components/Projects.jsx:52 | after `set(n, v)` exactly one pair is named `n` |
| `Projects.SetKeepsOthers` | client/src/components/Projects.jsx:52 | `set(n, v)` leaves all pairs with other names as they were, in order |
| `Projects.GetOtherAfterSet` | client/src/components/Projects.jsx:52 | `set(n, v)` does not change what `get` returns for any other name |
| `Projects.GetAfterDelete` | client/src/components/Projects.jsx:53 | after `delete(n)`, `get(n)` finds nothing |
| `Projects.GetIgnoresDelete` | client/src/components/Projects.jsx:53 | `delete(n)` does not change what `get` returns for any other name |
| `Projects.SyncRoundTrip` | client/src/components/Projects.jsx:51-53 | for each category the written parameter reads back as that category: "All" deletes the parameter, every other category sets it; other parameters are untouched |
| `Projects.UrlRoundTrip` | client/src/components/Projects.jsx:54-55 | the URL built from a path without `?` and a query splits back into that path and that query, and it is the bare path exactly when the query is empty |
| `Projects.KeepAll` | client/src/components/Projects.jsx:89 | with "All", the visible list is the whole table |
| `Projects.KeepMembers` | client/src/components/Projects.jsx:89 | with a category, a project is visible exactly when it belongs to that category |
| `Projects.KeepOrdered` | client/src/components/Projects.jsx:89 | the visible list is a subsequence of the table, so it keeps the table's order |
| `Projects.ShownPartition` | client/src/components/Projects.jsx:89 | when every project belongs to one of a set of distinct category filters, the visible lists of those filters together hold each project exactly once |
| `Projects.TablePartition` | client/src/components/Projects.jsx:18-30 | every project's category is a category button other than "All", and the four category lists add up to the table |
| `Projects.Find` | client/src/components/Projects.jsx:183 | the lookup returns a project of the table that has the id, and nothing only when no project has it |
| `Projects.FindUnique` | client/src/components/Projects.jsx:183 | with unique ids, the lookup returns the one project that has the id |
| `Projects.TableIdsUnique` | client/src/components/Projects.jsx:18-28 | the table's ids are 1 to 9 in order, so they are unique |
| `Projects.ProjectsView.constructor` | client/src/components/Projects.jsx:34-43 | the first filter is the normalised URL parameter, and the dialog is closed |
| `Projects.ProjectsView.HandleFilter` | client/src/components/Projects.jsx:92-95 | the dialog closes and the filter toggles; the filter stays a category when the clicked button is one, and "All" always gives "All" |
| `Projects.ProjectsView.OnPopState` | client/src/components/Projects.jsx:67-78 | back or forward navigation re-reads the filter with the same normalisation, so it stays a category |
| `Projects.ProjectsView.SyncUrl` | client/src/components/Projects.jsx:47-64 | the parameters written back set `filter` to the current filter, or delete it for "All"; reading them back gives the filter, and the other parameters are untouched; the new URL is the path, plus `?` and the query only when the query is non-empty, and it splits back into them |
| `Projects.ProjectsView.ShowDetails` | client/src/components/Projects.jsx:148 | a card's view button opens the dialog for that project's id |
| `Projects.ProjectsView.OnKeyDown` | client/src/components/Projects.jsx:81-87 | Escape closes the dialog; any other key leaves it as it was |
| `Projects.ProjectsView.Close` | client/src/components/Projects.jsx:189-221 | the close icon (line 189), the Close button (line 212) and the backdrop (line 221) all close the dialog |
| `Projects.ProjectsView.Visible` | client/src/components/Projects.jsx:89 | the shown cards are the whole table for "All", and otherwise exactly the projects of the filter's category, in table order |
| `Projects.ProjectsView.ActiveProject` | client/src/components/Projects.jsx:178-206 | the dialog shows nothing when it is closed; otherwise it shows a table project with the active id, and for ids 1 to 9 it shows exactly the project at that position |

## Left out

- Strings are sequences of Unicode scalar values, whereas JavaScript strings are sequences of UTF-16 code units, so a lone surrogate cannot be represented. No modelled behaviour observes lengths or positions of the source's strings, so the results are unaffected.
- Request bodies: only missing values, `null`, booleans and strings are modelled. Numbers, arrays and objects are not, so `String(v)` of those values is not either.
- The Mongoose model, Mongoose validation and the shape of the stored document are not modelled. Each `ContactMessage.create` appears only as its outcome: a document, or a thrown error.
- `axios.post` is modelled only as the request it is given and its outcome. Its real timeout behaviour, and the error details the handler logs, are not part of the model.
- `console.error` logging, the `react-hot-toast` notifications and `ev.preventDefault()` are left out: they are output with no effect on the modelled state.
- `fetch` and `resp.json()` are modelled as one outcome: an answer that carries its `ok` flag and its `error` field, or a thrown error with its message. The request URL (`VITE_BACKEND_URL`), its headers and the JSON encoding of the form are not modelled.
- Timers are not modelled:
  - the 3500 ms reset of `sent` after a successful send;
  - the 80 ms debounce of the URL update, with its cancellation on the next change.

  Each handler is taken to run to completion, with no interleaving of asynchronous steps.
- `URLSearchParams` parsing of `location.search` and its serialisation (`toString`, form encoding) are not modelled:
  - `SyncUrl` takes the parsed parameter list and a serialising function as inputs;
  - `window.history.replaceState` is represented by the URL that `SyncUrl` returns.
- The `try`/`catch` around reading and writing the URL is omitted. Its handlers fall back to "All" or ignore the error, and these calls cannot throw in the model.
- The `keydown` listener is registered only while the dialog is open, and no listener management is modelled. `OnKeyDown` has the same effect either way: with the dialog closed, `active` stays `null`.
- White space: `trim` and `\s` use a fixed character set, namely ECMAScript's WhiteSpace and LineTerminator with the Unicode 15 space separators. Later Unicode versions could add characters that this set does not hold.
- `focusedField` and `focusStyle` (focus highlighting), the commented-out `redirectTo` and "Open in new tab" links, and the screenshot imports of the project table are presentation only, so they are left out.
- The process exit when `MONGO_URI` is missing (server/server.js:26-29) and the rest of the server setup are left out: Express, CORS, dotenv, the database connection and `listen`.
- Worked examples on literal strings are left out. The general lemmas cover these cases instead of evaluating the functions on the literals:
  - `escapeHtml` on a concrete string;
  - the full HTML body of a concrete payload.
