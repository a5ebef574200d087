/** The `POST /api/contact` handler of server/controllers/contactController.js:
    validate the submission, store it, check the mail configuration, build the
    notification email, send it, answer. The document store and the HTTP client are
    foreign calls; each is given as the outcome it produces, and the handler reports
    the effects it performed, in order. */
module ContactController {
  import opened Wrappers
  import opened HtmlText

  const BrevoApi := "https://api.brevo.com/v3/smtp/email"
  const JsonContentType := "application/json"
  const SendTimeoutMs: nat := 10000
  const RequiredFieldsError := "name, email and message are required"
  const ServerError := "Server error sending or saving message"
  const ConfigWarning := "Email not sent: BREVO_API_KEY or SENDER_EMAIL not configured on server."
  const Signature := "\U{2014} Sent from portfolio"

  /** A value found under a key of the parsed request body. */
  datatype JsValue = Undefined | Null | Bool(b: bool) | Str(s: string)

  /** JavaScript truthiness, as in `!name`. */
  predicate Truthy(v: JsValue) {
    match v
    case Undefined => false
    case Null => false
    case Bool(b) => b
    case Str(s) => s != ""
  }

  /** `String(v)`, also what a template literal does with `${v}`. */
  function ToJsString(v: JsValue): (r: string)
    ensures v.Str? ==> r == v.s
    ensures Truthy(v) ==> r != ""
  {
    match v
    case Undefined => "undefined"
    case Null => "null"
    case Bool(b) => if b then "true" else "false"
    case Str(s) => s
  }

  /** The four fields the handler reads from the request body. */
  datatype Submission = Submission(name: JsValue, email: JsValue, subject: JsValue, message: JsValue)

  /** `const { name, email, subject = "", message } = req.body`: the default applies
      only to a missing subject, not to a `null` one. */
  function Destructure(body: Submission): (f: Submission)
    ensures f.name == body.name && f.email == body.email && f.message == body.message
    ensures body.subject == Undefined ==> f.subject == Str("")
    ensures body.subject != Undefined ==> f.subject == body.subject
  {
    body.(subject := if body.subject == Undefined then Str("") else body.subject)
  }

  /** The server's only validation: the three required fields are truthy
      (no trimming, no check of the email's shape). */
  predicate HasRequiredFields(f: Submission) {
    Truthy(f.name) && Truthy(f.email) && Truthy(f.message)
  }

  /** The two environment variables the handler reads. */
  datatype Env = Env(brevoApiKey: Option<string>, senderEmail: Option<string>)

  /** An environment variable counts as set when it is present and not empty. */
  predicate IsSet(v: Option<string>) {
    v.Some? && v.value != ""
  }

  predicate MailConfigured(env: Env) {
    IsSet(env.brevoApiKey) && IsSet(env.senderEmail)
  }

  /** The document the store returns for a created record, known here only by its id;
      its other contents stay unmodelled. */
  datatype StoredMessage = StoredMessage(id: string)

  /** What `ContactMessage.create` does: resolve with a document, or throw. */
  datatype CreateOutcome = Created(doc: StoredMessage) | CreateThrew

  /** What `axios.post` does: resolve, or throw (timeout, provider or network error). */
  datatype PostOutcome = Delivered | PostThrew

  datatype EmailPayload = EmailPayload(
    senderEmail: string, to: seq<string>, replyTo: JsValue, subject: JsValue,
    htmlContent: string, textContent: string)

  datatype PostRequest = PostRequest(
    url: string, contentType: string, apiKey: string, timeoutMs: nat, payload: EmailPayload)

  /** An effect on the outside world, in the order the handler performs them. */
  datatype Effect = CreateRecord(record: Submission) | PostEmail(request: PostRequest)

  datatype ResponseBody =
    | ErrorBody(error: string)
    | SavedWithWarning(saved: StoredMessage, warning: string)
    | SavedAndSent(saved: StoredMessage)

  datatype Response = Response(status: nat, body: ResponseBody)

  /** The subject line: the submitted subject when truthy, otherwise a generated one. */
  function EmailSubject(f: Submission): JsValue {
    if Truthy(f.subject) then f.subject else Str("New contact message from " + ToJsString(f.name))
  }

  /** The HTML template, given the already escaped name, email and subject and the
      already converted message. */
  function HtmlContent(name: string, email: string, subject: string, message: string): string {
    "\n        <h3>New contact message</h3>\n"
    + "        <p><strong>Name:</strong> " + name + "</p>\n"
    + "        <p><strong>Email:</strong> " + email + "</p>\n"
    + "        <p><strong>Subject:</strong> " + subject + "</p>\n"
    + "        <hr />\n"
    + "        <p>" + message + "</p>\n"
    + "        <hr />\n"
    + "        <p>" + Signature + "</p>\n"
    + "      "
  }

  /** The plain-text template, given the raw values. */
  function TextContent(name: string, email: string, subject: string, message: string): string {
    "Name: " + name + "\nEmail: " + email + "\nSubject: " + subject + "\n\n" + message + "\n\n" + Signature
  }

  /** The notification email: from and to the configured address, replies going to the
      submitter; the HTML body escapes every value, the text body uses them raw. */
  function BuildPayload(sender: string, f: Submission): (p: EmailPayload)
    ensures p.senderEmail == sender && p.to == [sender]
    ensures p.replyTo == f.email
    ensures Truthy(f.subject) ==> p.subject == f.subject
    ensures !Truthy(f.subject) ==> p.subject == Str("New contact message from " + ToJsString(f.name))
    ensures p.htmlContent == HtmlContent(EscapeHtml(ToJsString(f.name)), EscapeHtml(ToJsString(f.email)),
                                         EscapeHtml(ToJsString(f.subject)), Nl2br(EscapeHtml(ToJsString(f.message))))
    ensures p.textContent == TextContent(ToJsString(f.name), ToJsString(f.email),
                                         ToJsString(f.subject), ToJsString(f.message))
  {
    EmailPayload(
      senderEmail := sender,
      to := [sender],
      replyTo := f.email,
      subject := EmailSubject(f),
      htmlContent := HtmlContent(EscapeHtml(ToJsString(f.name)), EscapeHtml(ToJsString(f.email)),
                                 EscapeHtml(ToJsString(f.subject)), Nl2br(EscapeHtml(ToJsString(f.message)))),
      textContent := TextContent(ToJsString(f.name), ToJsString(f.email),
                                 ToJsString(f.subject), ToJsString(f.message)))
  }

  /** `submitContact`. The `try`/`catch` sends every thrown error to a 500 answer. */
  method SubmitContact(body: Submission, env: Env, create: CreateOutcome, post: PostOutcome)
    returns (res: Response, effects: seq<Effect>)
    // A missing or empty required field: 400, nothing stored, nothing sent.
    ensures !HasRequiredFields(Destructure(body)) <==> res.status == 400
    ensures !HasRequiredFields(Destructure(body)) ==>
              res.body == ErrorBody(RequiredFieldsError) && effects == []
    // Otherwise exactly one storage write, before anything else.
    ensures HasRequiredFields(Destructure(body)) ==>
              1 <= |effects| <= 2 && effects[0] == CreateRecord(Destructure(body))
    ensures forall k :: 1 <= k < |effects| ==> effects[k].PostEmail?
    // The write throws: 500, and no email is attempted.
    ensures HasRequiredFields(Destructure(body)) && create.CreateThrew? ==>
              res == Response(500, ErrorBody(ServerError)) && |effects| == 1
    // Stored, but no mail configuration: 201 with the warning, no email attempted.
    ensures HasRequiredFields(Destructure(body)) && create.Created? && !MailConfigured(env) ==>
              res == Response(201, SavedWithWarning(create.doc, ConfigWarning)) && |effects| == 1
    // Stored and configured: one post of the payload, then 201 or 500 by its outcome.
    ensures HasRequiredFields(Destructure(body)) && create.Created? && MailConfigured(env) ==>
              && effects == [CreateRecord(Destructure(body)),
                             PostEmail(PostRequest(BrevoApi, JsonContentType, env.brevoApiKey.value, SendTimeoutMs,
                                                   BuildPayload(env.senderEmail.value, Destructure(body))))]
              && res == (if post.Delivered? then Response(201, SavedAndSent(create.doc))
                         else Response(500, ErrorBody(ServerError)))
    // Across all branches: a 201 answer always carries the stored document, and an
    // email is only ever sent after a successful write.
    ensures res.status == 201 ==> create.Created? && res.body.saved == create.doc && |effects| >= 1
    ensures |effects| == 2 ==> create.Created? && MailConfigured(env)
    ensures res.status == 201 || res.status == 400 || res.status == 500
  {
    effects := [];
    var fields := Destructure(body);
    if !HasRequiredFields(fields) {
      return Response(400, ErrorBody(RequiredFieldsError)), effects;
    }

    effects := effects + [CreateRecord(fields)];
    if create.CreateThrew? {
      return Response(500, ErrorBody(ServerError)), effects;
    }
    var saved := create.doc;

    if !MailConfigured(env) {
      return Response(201, SavedWithWarning(saved, ConfigWarning)), effects;
    }

    var payload := BuildPayload(env.senderEmail.value, fields);
    effects := effects + [PostEmail(PostRequest(BrevoApi, JsonContentType, env.brevoApiKey.value, SendTimeoutMs, payload))];
    if post.PostThrew? {
      return Response(500, ErrorBody(ServerError)), effects;
    }

    return Response(201, SavedAndSent(saved)), effects;
  }

  /** Every slot of the HTML body is free of markup and decodes back to the submitted
      value: the entities back to characters, and in the message slot the `<br/>`
      tags back to line feeds first. */
  lemma HtmlSlotsDecode(f: Submission)
    ensures forall v :: v in [f.name, f.email, f.subject] ==>
              NoMarkupChars(EscapeHtml(ToJsString(v))) && UnescapeHtml(EscapeHtml(ToJsString(v))) == ToJsString(v)
    ensures '\n' !in Nl2br(EscapeHtml(ToJsString(f.message)))
    ensures NoMarkupChars(Br2nl(Nl2br(EscapeHtml(ToJsString(f.message)))))
    ensures UnescapeHtml(Br2nl(Nl2br(EscapeHtml(ToJsString(f.message))))) == ToJsString(f.message)
  {
    forall v | v in [f.name, f.email, f.subject]
      ensures NoMarkupChars(EscapeHtml(ToJsString(v))) && UnescapeHtml(EscapeHtml(ToJsString(v))) == ToJsString(v)
    {
      EscapeHtmlNoMarkup(ToJsString(v));
      UnescapeEscapeHtml(ToJsString(v));
    }
    var m := EscapeHtml(ToJsString(f.message));
    EscapeHtmlNoMarkup(ToJsString(f.message));
    Nl2brReplacesLineFeeds(m);
    Br2nlNl2br(m);
    MessageSlotDecodes(ToJsString(f.message));
  }

  /** With an empty subject the generated subject line names the submitter. */
  lemma DefaultSubjectExample()
    ensures EmailSubject(Submission(Str("Ann"), Str("ann@example.com"), Str(""), Str("Hi\nthere")))
            == Str("New contact message from Ann")
  {
  }

  /** The text body carries the raw message verbatim, line feeds included, after the
      header lines and a blank line and before the signature. */
  lemma TextBodyCarriesMessage(name: string, email: string, subject: string, message: string)
    ensures var header := "Name: " + name + "\nEmail: " + email + "\nSubject: " + subject + "\n\n";
            var t := TextContent(name, email, subject, message);
            && t[..|header|] == header
            && t[|header|..|header| + |message|] == message
            && t[|header| + |message|..] == "\n\n" + Signature
  {
    var header := "Name: " + name + "\nEmail: " + email + "\nSubject: " + subject + "\n\n";
    var t := TextContent(name, email, subject, message);
    assert t == header + message + ("\n\n" + Signature);
  }

  /** A client of the handler: one valid submission under each outcome of the foreign
      calls, one with a required field empty, one whose name is only white space. */
  method SubmitScenarios(doc: StoredMessage, name: string, email: string, message: string, key: string, sender: string)
    requires name != "" && email != "" && message != "" && key != "" && sender != ""
  {
    var body := Submission(Str(name), Str(email), Undefined, Str(message));
    var env := Env(Some(key), Some(sender));
    var res, effects := SubmitContact(body, env, Created(doc), Delivered);
    assert res == Response(201, SavedAndSent(doc)) && |effects| == 2;
    res, effects := SubmitContact(body, env, Created(doc), PostThrew);
    assert res.status == 500 && effects[0] == CreateRecord(body.(subject := Str("")));
    res, effects := SubmitContact(body, Env(Some(key), Some("")), Created(doc), Delivered);
    assert res == Response(201, SavedWithWarning(doc, ConfigWarning)) && |effects| == 1;
    res, effects := SubmitContact(body, env, CreateThrew, Delivered);
    assert res.status == 500 && |effects| == 1;
    res, effects := SubmitContact(body.(message := Str("")), env, Created(doc), Delivered);
    assert res.status == 400 && effects == [];
    res, effects := SubmitContact(body.(name := Str(" ")), env, Created(doc), Delivered);
    assert res.status == 201;
  }
}
