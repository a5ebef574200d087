/** The contact form of client/src/components/Contact.jsx: the field validation run
    before submitting, and the component state its handlers update. */
module ContactForm {
  import opened Wrappers
  import opened JsStrings

  const NameMissing := "Please enter your name"
  const EmailMissing := "Please enter your email"
  const EmailInvalid := "Please enter a valid email"
  const MessageMissing := "Please enter a message"
  const SendFailed := "Failed to send message"
  const SubmitFailed := "Failed to send"

  datatype Quote = Quote(text: string, author: string)

  const Quotes: seq<Quote> := [
    Quote("Code is like humor. When you have to explain it, it\U{2019}s bad.", "Cory House"),
    Quote("Make it simple, but significant.", "Don Draper (well-suited for design & dev)")
  ]

  datatype Field = Name | Email | Subject | Message

  /** The keys of the `errors` object: one per form field, and `submit`. */
  datatype ErrorKey = FieldError(field: Field) | SubmitError

  datatype Form = Form(name: string, email: string, subject: string, message: string) {

    function Get(k: Field): string {
      match k
      case Name => name
      case Email => email
      case Subject => subject
      case Message => message
    }

    /** `{ ...form, [k]: value }`. */
    function With(k: Field, value: string): (f: Form)
      ensures f.Get(k) == value
      ensures forall j :: j != k ==> f.Get(j) == Get(j)
    {
      match k
      case Name => this.(name := value)
      case Email => this.(email := value)
      case Subject => this.(subject := value)
      case Message => this.(message := value)
    }
  }

  const EmptyForm := Form("", "", "", "")

  /** A character the class `[^\s@]` accepts. */
  predicate IsEmailChar(c: char) {
    !IsJsSpace(c) && c != '@'
  }

  predicate AllEmailChars(s: string) {
    forall k :: 0 <= k < |s| ==> IsEmailChar(s[k])
  }

  /** What `/^[^\s@]+@[^\s@]+\.[^\s@]+$/` matches: three non-empty runs of characters
      other than white space and `@`, the first two joined by `@`, the last two by a dot. */
  ghost predicate MatchesEmailRegex(s: string) {
    exists at, dot :: 0 < at && at + 1 < dot && dot + 1 < |s| && s[at] == '@' && s[dot] == '.'
                      && AllEmailChars(s[..at]) && AllEmailChars(s[at + 1..dot]) && AllEmailChars(s[dot + 1..])
  }

  /** `d` has a dot that is neither its first nor its last character. */
  predicate HasInnerDot(d: string) {
    exists j :: 0 < j < |d| - 1 && d[j] == '.'
  }

  /** The same language described field by field: no white space, exactly one `@` with
      something before it, and a dot inside the part after it. */
  predicate IsEmailShaped(s: string) {
    && (forall k :: 0 <= k < |s| ==> !IsJsSpace(s[k]))
    && var at := IndexOf(s, '@');
       0 < at < |s| && '@' !in s[at + 1..] && HasInnerDot(s[at + 1..])
  }

  /** The regular expression accepts exactly the strings of that shape. */
  lemma EmailRegexIff(s: string)
    ensures MatchesEmailRegex(s) <==> IsEmailShaped(s)
  {
    if MatchesEmailRegex(s) {
      var at, dot :| 0 < at && at + 1 < dot && dot + 1 < |s| && s[at] == '@' && s[dot] == '.'
                     && AllEmailChars(s[..at]) && AllEmailChars(s[at + 1..dot]) && AllEmailChars(s[dot + 1..]);
      RegexImpliesShape(s, at, dot);
    }
    if IsEmailShaped(s) {
      ShapeImpliesRegex(s);
    }
  }

  lemma RegexImpliesShape(s: string, at: nat, dot: nat)
    requires 0 < at && at + 1 < dot && dot + 1 < |s| && s[at] == '@' && s[dot] == '.'
    requires AllEmailChars(s[..at]) && AllEmailChars(s[at + 1..dot]) && AllEmailChars(s[dot + 1..])
    ensures IsEmailShaped(s)
  {
    forall k | 0 <= k < |s| ensures !IsJsSpace(s[k]) && (k != at ==> s[k] != '@') {
      if k < at { assert s[k] == s[..at][k]; }
      else if at < k < dot { assert s[k] == s[at + 1..dot][k - at - 1]; }
      else if dot < k { assert s[k] == s[dot + 1..][k - dot - 1]; }
    }
    IndexOfSpec(s, '@');
    assert IndexOf(s, '@') == at;
    var d := s[at + 1..];
    assert '@' !in d by {
      forall j | 0 <= j < |d| ensures d[j] != '@' { assert d[j] == s[at + 1 + j]; }
    }
    assert d[dot - at - 1] == '.';
  }

  lemma ShapeImpliesRegex(s: string)
    requires IsEmailShaped(s)
    ensures MatchesEmailRegex(s)
  {
    var at := IndexOf(s, '@');
    IndexOfSpec(s, '@');
    var d := s[at + 1..];
    var j :| 0 < j < |d| - 1 && d[j] == '.';
    var dot := at + 1 + j;
    assert s[dot] == '.';
    forall k | 0 <= k < |s| && k != at ensures IsEmailChar(s[k]) {
      if k > at { assert s[k] == d[k - at - 1]; }
    }
    var local, domain := s[..at], s[at + 1..dot];
    assert AllEmailChars(local) by {
      forall k | 0 <= k < |local| ensures IsEmailChar(local[k]) { assert local[k] == s[k]; }
    }
    assert AllEmailChars(domain) by {
      forall k | 0 <= k < |domain| ensures IsEmailChar(domain[k]) { assert domain[k] == s[at + 1 + k]; }
    }
    var tld := s[dot + 1..];
    assert AllEmailChars(tld) by {
      forall k | 0 <= k < |tld| ensures IsEmailChar(tld[k]) { assert tld[k] == s[dot + 1 + k]; }
    }
  }

  /** `validate`: the error object built field by field. */
  function Validate(form: Form): map<ErrorKey, string> {
    var e0: map<ErrorKey, string> := map[];
    var e1 := if Trim(form.name) == "" then e0[FieldError(Name) := NameMissing] else e0;
    var e2 := if Trim(form.email) == "" then e1[FieldError(Email) := EmailMissing]
              else if !IsEmailShaped(form.email) then e1[FieldError(Email) := EmailInvalid]
              else e1;
    var e3 := if Trim(form.message) == "" then e2[FieldError(Message) := MessageMissing] else e2;
    e3
  }

  /** The `name` entry of `validate`'s result: present exactly for a blank name. */
  lemma ValidateName(form: Form)
    ensures FieldError(Name) in Validate(form) <==> IsBlank(form.name)
    ensures FieldError(Name) in Validate(form) ==> Validate(form)[FieldError(Name)] == NameMissing
  {
    TrimEmptyIff(form.name);
  }

  /** The `message` entry of `validate`'s result: present exactly for a blank message. */
  lemma ValidateMessage(form: Form)
    ensures FieldError(Message) in Validate(form) <==> IsBlank(form.message)
    ensures FieldError(Message) in Validate(form) ==> Validate(form)[FieldError(Message)] == MessageMissing
  {
    TrimEmptyIff(form.message);
  }

  /** The `email` entry of `validate`'s result: "enter your email" for a blank email,
      otherwise "enter a valid email" when the untrimmed email fails the regular
      expression, otherwise none. */
  lemma ValidateEmail(form: Form)
    ensures IsBlank(form.email) ==>
              FieldError(Email) in Validate(form) && Validate(form)[FieldError(Email)] == EmailMissing
    ensures !IsBlank(form.email) && !MatchesEmailRegex(form.email) ==>
              FieldError(Email) in Validate(form) && Validate(form)[FieldError(Email)] == EmailInvalid
    ensures !IsBlank(form.email) && MatchesEmailRegex(form.email) ==> FieldError(Email) !in Validate(form)
  {
    TrimEmptyIff(form.email);
    EmailRegexIff(form.email);
  }

  /** `validate` reports on name, email and message only: never on the subject. */
  lemma ValidateKeys(form: Form)
    ensures Validate(form).Keys <= {FieldError(Name), FieldError(Email), FieldError(Message)}
  {
  }

  /** A form passes validation exactly when name and message have a non-space
      character and the email matches the regular expression. */
  lemma ValidatePasses(form: Form)
    ensures Validate(form) == map[] <==>
              !IsBlank(form.name) && !IsBlank(form.message) && !IsBlank(form.email) && MatchesEmailRegex(form.email)
  {
    ValidateName(form);
    ValidateMessage(form);
    ValidateEmail(form);
    ValidateKeys(form);
    var e := Validate(form);
    if !IsBlank(form.name) && !IsBlank(form.message) && !IsBlank(form.email) && MatchesEmailRegex(form.email) {
      assert e.Keys == {};
    } else {
      assert e.Keys != {};
    }
  }

  /** What `fetch` and `resp.json()` produce: an answer with its `ok` flag and the
      `error` field of its JSON body, or a thrown error with its message. */
  datatype FetchOutcome = Answered(ok: bool, error: Option<string>) | Threw(message: string)

  /** The text stored under `errors.submit` after a failed send. */
  function SubmitErrorText(outcome: FetchOutcome): (t: string)
    requires !(outcome.Answered? && outcome.ok)
    ensures t != ""
    ensures outcome.Answered? && outcome.error.Some? && outcome.error.value != "" ==> t == outcome.error.value
    ensures outcome.Threw? && outcome.message != "" ==> t == outcome.message
    ensures outcome.Answered? && !(outcome.error.Some? && outcome.error.value != "") ==> t == SendFailed
    ensures outcome.Threw? && outcome.message == "" ==> t == SubmitFailed
  {
    var thrown :=
      if outcome.Threw? then outcome.message
      else if outcome.error.Some? && outcome.error.value != "" then outcome.error.value
      else SendFailed;
    if thrown != "" then thrown else SubmitFailed
  }

  /** `(i + 1) % quotes.length`. */
  function NextQuoteIndex(i: nat): (j: nat)
    ensures j < |Quotes|
    ensures i < |Quotes| - 1 ==> j == i + 1
  {
    (i + 1) % |Quotes|
  }

  /** The index after `n` presses of "Another quote", starting at `i`. */
  function QuoteAfter(i: nat, n: nat): nat {
    if n == 0 then i else NextQuoteIndex(QuoteAfter(i, n - 1))
  }

  /** Pressing the button `n` times moves `n` places round the cycle of quotes. */
  lemma {:induction false} QuoteAfterCycles(i: nat, n: nat)
    requires i < |Quotes|
    ensures QuoteAfter(i, n) == (i + n) % |Quotes|
  {
    if n > 0 {
      QuoteAfterCycles(i, n - 1);
    }
  }

  /** From the first quote every quote is reached, the `j`-th after `j` presses, and
      after a full round the first quote is back. */
  lemma EveryQuoteReached(j: nat)
    requires j < |Quotes|
    ensures QuoteAfter(0, j) == j
    ensures QuoteAfter(0, |Quotes|) == 0
  {
    QuoteAfterCycles(0, j);
    QuoteAfterCycles(0, |Quotes|);
  }

  /** The state of the `Contact` component that its handlers change. */
  class ContactState {
    var form: Form
    var errors: map<ErrorKey, Option<string>>
    var submitting: bool
    var sent: bool
    var quoteIndex: nat

    ghost predicate Valid()
      reads this
    {
      quoteIndex < |Quotes|
    }

    constructor ()
      ensures Valid()
      ensures form == EmptyForm && errors == map[] && !submitting && !sent && quoteIndex == 0
    {
      form := EmptyForm;
      errors := map[];
      submitting := false;
      sent := false;
      quoteIndex := 0;
    }

    /** `handleChange(k)`: store the new value of field `k` and clear its error. */
    method HandleChange(k: Field, value: string)
      requires Valid()
      modifies this
      ensures Valid()
      ensures form == old(form).With(k, value)
      ensures errors == old(errors)[FieldError(k) := None]
      ensures submitting == old(submitting) && sent == old(sent) && quoteIndex == old(quoteIndex)
    {
      form := form.With(k, value);
      errors := errors[FieldError(k) := None];
    }

    /** `handleSubmit`, run to completion. With validation errors they replace `errors`
        and nothing is sent; otherwise the form is posted (`request`) and the outcome
        decides between clearing the form and recording the error under `submit`. */
    method HandleSubmit(outcome: FetchOutcome) returns (request: Option<Form>)
      requires Valid()
      modifies this
      ensures Valid() && quoteIndex == old(quoteIndex)
      ensures Validate(old(form)) != map[] ==>
                && request == None
                && errors.Keys == Validate(old(form)).Keys
                && (forall k :: k in errors ==> errors[k] == Some(Validate(old(form))[k]))
                && form == old(form) && submitting == old(submitting) && sent == old(sent)
      ensures Validate(old(form)) == map[] ==> request == Some(old(form)) && !submitting
      ensures Validate(old(form)) == map[] && outcome.Answered? && outcome.ok ==>
                form == EmptyForm && sent && errors == old(errors)
      ensures Validate(old(form)) == map[] && !(outcome.Answered? && outcome.ok) ==>
                && form == old(form) && sent == old(sent)
                && errors == old(errors)[SubmitError := Some(SubmitErrorText(outcome))]
    {
      var e := Validate(form);
      if e != map[] {
        errors := map k | k in e :: Some(e[k]);
        return None;
      }
      submitting := true;
      request := Some(form);
      if outcome.Answered? && outcome.ok {
        sent := true;
        form := EmptyForm;
      } else {
        errors := errors[SubmitError := Some(SubmitErrorText(outcome))];
      }
      submitting := false;
    }

    /** `nextQuote`. */
    method NextQuote()
      requires Valid()
      modifies this`quoteIndex
      ensures Valid()
      ensures quoteIndex == NextQuoteIndex(old(quoteIndex))
    {
      quoteIndex := NextQuoteIndex(quoteIndex);
    }
  }
}
