/**
 * The POST /api/contact handler: presence check, address-shape check,
 * composition of the outbound email, and the mapping of the send outcome
 * to an HTTP response. The provider call is an outcome supplied by the
 * caller; the email the handler hands to the provider is part of its result.
 */
module ContactRoute {
  import opened Wrappers
  import opened Text
  import opened EmailAddress
  import opened LineBreaks
  import opened HtmlTemplate

  /** The four fields read from the JSON request body; a field may be absent. */
  datatype Submission = Submission(
    name: Option<string>,
    email: Option<string>,
    subject: Option<string>,
    message: Option<string>)

  /** How the awaited send call ended: it resolved, or it threw with some provider error. */
  datatype SendOutcome = Delivered | Failed(providerError: string)

  /** The payload handed to the email provider. */
  datatype Email = Email(from: string, to: string, subject: string, html: string, replyTo: string)

  /** The JSON body of a response: `{success: true, message}` or `{success: false, error}`. */
  datatype Body = Success(message: string) | Failure(error: string)

  datatype Response = Response(status: int, body: Body)

  /** What one request produces: the response, and the email dispatched, if any. */
  datatype Handled = Handled(response: Response, dispatched: Option<Email>)

  const FieldsRequired := "All fields are required: name, email, subject, message"
  const InvalidEmail := "Please provide a valid email address"
  const SentNotice := "Message sent successfully! I'll get back to you soon."
  const SendFailed := "Failed to send message. Please try again later."

  const Sender := "Portfolio Contact <onboarding@resend.dev>"
  const SubjectPrefix := "Portfolio Message: "

  /** The template of the message body, markup and indentation included. */
  const BodyTemplate := Template(
    "\n        <div style=\"font-family: Arial, sans-serif; max-width: 600px;\">\n          <h2 style=\"color: #333;\">New Message from Portfolio</h2>\n          <div style=\"background: #f5f5f5; padding: 15px; border-radius: 5px;\">\n            <p><strong>Name:</strong> ",
    "</p>\n            <p><strong>Email:</strong> ",
    "</p>\n            <p><strong>Subject:</strong> ",
    "</p>\n          </div>\n          <div style=\"margin-top: 20px;\">\n            <h3 style=\"color: #333;\">Message:</h3>\n            <p style=\"background: #f9f9f9; padding: 15px; border-left: 4px solid #007bff;\">\n              ",
    "\n            </p>\n          </div>\n        </div>\n      ")

  /** A string field is truthy in JavaScript when it is present and not empty. */
  predicate Present(field: Option<string>) {
    field.Some? && field.value != ""
  }

  predicate AllPresent(sub: Submission) {
    Present(sub.name) && Present(sub.email) && Present(sub.subject) && Present(sub.message)
  }

  /** The submissions that get past both checks. */
  predicate Accepted(sub: Submission) {
    AllPresent(sub) && WellShaped(sub.email.value)
  }

  /** The HTML body: the template filled with the fields, the message rewritten by `ReplaceNewlines`. */
  function Html(name: string, email: string, subject: string, message: string): string {
    Fill(BodyTemplate, name, email, subject, ReplaceNewlines(message))
  }

  /** The payload of the send call for a submission that passed both checks. */
  function Compose(name: string, email: string, subject: string, message: string, to: string): Email {
    Email(Sender, to, SubjectPrefix + subject, Html(name, email, subject, message), email)
  }

  /** The response once the send call has ended; no provider text reaches it. */
  function SendResponse(outcome: SendOutcome): (r: Response)
    ensures r.status == 200 <==> outcome.Delivered?
    ensures r.status == 500 <==> outcome.Failed?
    ensures r.body.Success? <==> outcome.Delivered?
    ensures outcome.Delivered? ==> r.body.message == SentNotice
    ensures outcome.Failed? ==> r.body.error == SendFailed
  {
    match outcome
    case Delivered => Response(200, Success(SentNotice))
    case Failed(_) => Response(500, Failure(SendFailed))
  }

  /**
   * The contact handler, from a submission, the configured destination and
   * the outcome the send call would have, to the response and the email
   * actually dispatched.
   */
  function Handle(sub: Submission, to: string, outcome: SendOutcome): (h: Handled)
    ensures h.dispatched.Some? <==> Accepted(sub)
    ensures h.response.status == 400 <==> !Accepted(sub)
    ensures h.response.status == 200 <==> Accepted(sub) && outcome.Delivered?
    ensures h.response.status == 500 <==> Accepted(sub) && outcome.Failed?
    ensures h.response.body.Success? <==> h.response.status == 200
    ensures !AllPresent(sub) ==> h.response.body == Failure(FieldsRequired)
    ensures AllPresent(sub) && !Accepted(sub) ==> h.response.body == Failure(InvalidEmail)
    ensures h.response.status == 500 ==> h.response.body == Failure(SendFailed)
    ensures h.response.status == 200 ==> h.response.body == Success(SentNotice)
    ensures Accepted(sub) ==>
      && h.dispatched.value.from == Sender
      && h.dispatched.value.to == to
      && h.dispatched.value.subject == SubjectPrefix + sub.subject.value
      && h.dispatched.value.replyTo == sub.email.value
      && h.dispatched.value.html == Html(sub.name.value, sub.email.value, sub.subject.value, sub.message.value)
  {
    if !AllPresent(sub) then
      Handled(Response(400, Failure(FieldsRequired)), None)
    else if !WellShaped(sub.email.value) then
      Handled(Response(400, Failure(InvalidEmail)), None)
    else
      var email := Compose(sub.name.value, sub.email.value, sub.subject.value, sub.message.value, to);
      Handled(SendResponse(outcome), Some(email))
  }

  /** An email is dispatched exactly when all four fields are present and the regular expression matches the address. */
  lemma DispatchedIffMatches(sub: Submission, to: string, outcome: SendOutcome)
    ensures Handle(sub, to, outcome).dispatched.Some? <==> AllPresent(sub) && MatchesPattern(sub.email.value)
  {
    if AllPresent(sub) {
      PatternIsWellShaped(sub.email.value);
    }
  }

  /**
   * The checks run in order: an absent or empty address is reported as a
   * missing field, never as a malformed address.
   */
  lemma MissingEmailReportedAsMissing(sub: Submission, to: string, outcome: SendOutcome)
    requires !Present(sub.email)
    ensures Handle(sub, to, outcome).response == Response(400, Failure(FieldsRequired))
    ensures Handle(sub, to, outcome).response.body != Failure(InvalidEmail)
  {
  }

  /**
   * The response does not depend on the provider error: two failed sends
   * of the same submission give the same result.
   */
  lemma ProviderErrorNotExposed(sub: Submission, to: string, e1: string, e2: string)
    ensures Handle(sub, to, Failed(e1)) == Handle(sub, to, Failed(e2))
  {
  }

  /**
   * For an accepted submission the HTML body holds the name, the address
   * and the subject verbatim, and the message with "<br>" for every '\n'.
   */
  lemma HtmlCarriesFields(sub: Submission, to: string, outcome: SendOutcome)
    requires Accepted(sub)
    ensures var html := Handle(sub, to, outcome).dispatched.value.html;
      && IsInfix(sub.name.value, html)
      && IsInfix(sub.email.value, html)
      && IsInfix(sub.subject.value, html)
      && IsInfix(ReplaceNewlines(sub.message.value), html)
  {
    FillCarries(BodyTemplate, sub.name.value, sub.email.value, sub.subject.value, ReplaceNewlines(sub.message.value));
  }

  /**
   * A two-line message, such as "Line1\nLine2", reaches the HTML body as
   * its two lines joined by one "<br>".
   */
  lemma TwoLineMessage(sub: Submission, to: string, outcome: SendOutcome, first: string, second: string)
    requires Accepted(sub)
    requires '\n' !in first && '\n' !in second
    requires sub.message.value == first + "\n" + second
    ensures IsInfix(first + Break + second, Handle(sub, to, outcome).dispatched.value.html)
  {
    ReplaceAround(first, '\n', second);
    ReplaceWithoutNewlines(first);
    ReplaceWithoutNewlines(second);
    HtmlCarriesFields(sub, to, outcome);
  }
}
