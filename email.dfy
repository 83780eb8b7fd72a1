/**
 * The mailer (api/app/core/email.py): assembling a two-part MIME message,
 * handing it to the SMTP transport and turning the outcome into a boolean,
 * and the bodies of the two emails a contact submission produces.
 *
 * The transport is a parameter: a function from the connection settings and
 * the assembled message to the outcome of the send (delivered, or an
 * exception with its text). Logging is returned as a list of events.
 */
module Email {
  import opened Wrappers
  import opened Strings
  import opened Config

  datatype Subtype = Plain | Html

  /** One `text/plain` or `text/html` body part. */
  datatype MimePart = MimePart(subtype: Subtype, body: string)

  /** The three headers the mailer sets. */
  datatype HeaderName = From | To | Subject

  /** A `multipart/alternative` message: its headers in the order they were set, and its parts. */
  datatype EmailMessage = EmailMessage(headers: seq<(HeaderName, string)>, parts: seq<MimePart>)

  /** What the transport is told besides the message. */
  datatype SmtpConnection = SmtpConnection(host: string, port: int, username: string, password: string, useTls: bool)

  /** The transport either delivers the message or raises an exception with the given text. */
  datatype SendOutcome = Delivered | Raised(reason: string)

  type Transport = (SmtpConnection, EmailMessage) -> SendOutcome

  datatype LogEvent = Info(text: string) | Warning(text: string) | Error(text: string)

  function ConnectionOf(settings: Settings): SmtpConnection {
    SmtpConnection(settings.smtpHost, settings.smtpPort, settings.smtpUsername,
      settings.smtpPassword, settings.smtpUseTls)
  }

  /** The value of the first header called `name`. */
  function Header(headers: seq<(HeaderName, string)>, name: HeaderName): (v: Option<string>)
    ensures v.Some? <==> exists k :: 0 <= k < |headers| && headers[k].0 == name
    ensures v.Some? ==> exists k :: 0 <= k < |headers| && headers[k] == (name, v.value)
  {
    if headers == [] then None
    else if headers[0].0 == name then Some(headers[0].1)
    else
      var v := Header(headers[1..], name);
      assert forall k :: 1 <= k < |headers| ==> headers[k] == headers[1..][k - 1];
      v
  }

  /** An optional text is truthy when it is given and not empty. */
  predicate IsTruthy(text: Option<string>) {
    text.Some? && text.value != ""
  }

  /**
   * The message `send_email` hands to the transport: From is the configured
   * sender, To and Subject are as given; a plain-text part comes first iff
   * the text is truthy, and the HTML part is always there and always last.
   */
  function ComposeMessage(fromAddr: string, to: string, subject: string, html: string, text: Option<string>): (m: EmailMessage)
    ensures Header(m.headers, From) == Some(fromAddr)
    ensures Header(m.headers, To) == Some(to)
    ensures Header(m.headers, Subject) == Some(subject)
    ensures |m.parts| >= 1 && m.parts[|m.parts| - 1] == MimePart(Html, html)
    ensures |m.parts| == 2 <==> IsTruthy(text)
    ensures |m.parts| <= 2
    ensures IsTruthy(text) ==> m.parts[0] == MimePart(Plain, text.value)
  {
    var headers := [(From, fromAddr), (To, to), (Subject, subject)];
    assert headers[1..] == [(To, to), (Subject, subject)];
    assert headers[1..][1..] == [(Subject, subject)];
    assert Header(headers[1..][1..], Subject) == Some(subject);
    assert Header(headers[1..], Subject) == Some(subject);
    EmailMessage(headers,
      (if IsTruthy(text) then [MimePart(Plain, text.value)] else []) + [MimePart(Html, html)])
  }

  /** The message object the mailer fills in step by step. */
  class MultipartMessage {
    var headers: seq<(HeaderName, string)>
    var parts: seq<MimePart>

    constructor ()
      ensures headers == [] && parts == []
    {
      headers := [];
      parts := [];
    }

    /** Assigning a header adds it after the ones already set. */
    method SetHeader(name: HeaderName, value: string)
      modifies this
      ensures headers == old(headers) + [(name, value)]
      ensures parts == old(parts)
    {
      headers := headers + [(name, value)];
    }

    method Attach(part: MimePart)
      modifies this
      ensures parts == old(parts) + [part]
      ensures headers == old(headers)
    {
      parts := parts + [part];
    }

    function Snapshot(): EmailMessage
      reads this
    {
      EmailMessage(headers, parts)
    }
  }

  /** What `send_email` logs for a send with the given outcome. */
  function SendLog(to: string, outcome: SendOutcome): seq<LogEvent> {
    match outcome
    case Delivered => [Info("Email sent successfully to " + to)]
    case Raised(reason) => [Error("Failed to send email to " + to + ": " + reason)]
  }

  /**
   * `send_email`: builds the message, hands it to the transport with the
   * configured connection, and reports true iff the transport delivered it;
   * a raised exception is logged and turned into false, never passed on.
   */
  method SendEmail(settings: Settings, transport: Transport, to: string, subject: string, html: string, text: Option<string>)
    returns (ok: bool, sent: EmailMessage, log: seq<LogEvent>)
    ensures sent == ComposeMessage(settings.smtpFromEmail, to, subject, html, text)
    ensures ok <==> transport(ConnectionOf(settings), sent).Delivered?
    ensures log == SendLog(to, transport(ConnectionOf(settings), sent))
    ensures |log| == 1 && (ok <==> log[0].Info?)
  {
    var message := new MultipartMessage();
    message.SetHeader(From, settings.smtpFromEmail);
    message.SetHeader(To, to);
    message.SetHeader(Subject, subject);
    if IsTruthy(text) {
      message.Attach(MimePart(Plain, text.value));
    }
    message.Attach(MimePart(Html, html));
    assert message.headers == [(From, settings.smtpFromEmail), (To, to), (Subject, subject)];
    assert message.parts == (if IsTruthy(text) then [MimePart(Plain, text.value)] else []) + [MimePart(Html, html)];
    sent := message.Snapshot();
    var outcome := transport(ConnectionOf(settings), sent);
    match outcome {
      case Delivered =>
        ok := true;
        log := [Info("Email sent successfully to " + to)];
      case Raised(reason) =>
        ok := false;
        log := [Error("Failed to send email to " + to + ": " + reason)];
    }
  }

  // The notification to the site owner.

  const NOTIFICATION_SUBJECT_PREFIX: string := "New Contact Form Submission from "

  /** The notification subject: the fixed prefix followed by the name, unescaped. */
  function NotificationSubject(name: string): string {
    NOTIFICATION_SUBJECT_PREFIX + name
  }

  lemma NotificationSubjectCarriesName(name: string)
    ensures NotificationSubject(name)[..|NOTIFICATION_SUBJECT_PREFIX|] == NOTIFICATION_SUBJECT_PREFIX
    ensures NotificationSubject(name)[|NOTIFICATION_SUBJECT_PREFIX|..] == name
  {
  }

  const HTML_MESSAGE_OPEN: string :=
    "<p><strong>Message:</strong></p><p style=\"background-color: " +
    "white; padding: 15px; border-left: 4px " +
    "solid #3498db;\">"
  const HTML_MESSAGE_CLOSE: string := "</p>"
  const TEXT_MESSAGE_OPEN: string := "Message: "

  /** The message paragraph of the HTML body, present only for a non-empty message. */
  function HtmlMessageBlock(message: string): string {
    if message != "" then HTML_MESSAGE_OPEN + message + HTML_MESSAGE_CLOSE else ""
  }

  function TextMessageBlock(message: string): string {
    if message != "" then TEXT_MESSAGE_OPEN + message else ""
  }

  /** The fixed text of the notification's HTML body, around its seven holes. */
  const NOTIFICATION_HTML: seq<string> := [
    "\n" +
    "    <html>\n" +
    "        <body style=\"font-family: Arial, " +
    "sans-serif; line-height: 1.6; color: " +
    "#333;\">\n" +
    "            <h2 style=\"color: #2c3e50;\">New " +
    "Contact Form Submission</h2>\n" +
    "\n" +
    "            <div style=\"background-color: " +
    "#f8f9fa; padding: 20px; border-radius: " +
    "5px; margin: 20px 0;\">\n" +
    "                <p><strong>Name:</strong> ",
    "</p>\n" +
    "                <p><strong>Email:</strong> " +
    "<a href=\"mailto:",
    "\">",
    "</a></p>\n" +
    "                <p><strong>Phone:</strong> " +
    "<a href=\"tel:",
    "\">",
    "</a></p>\n                ",
    "\n" +
    "            </div>\n" +
    "\n" +
    "            <hr style=\"border: none; " +
    "border-top: 1px solid #ddd; margin: " +
    "20px 0;\">\n" +
    "\n" +
    "            <p style=\"color: #7f8c8d; " +
    "font-size: 12px;\">\n" +
    "                This email was sent " +
    "from your contact form at ",
    "\n" +
    "            </p>\n" +
    "        </body>\n" +
    "    </html>\n" +
    "    "]

  /** The fixed text of the notification's plain-text body, around its five holes. */
  const NOTIFICATION_TEXT: seq<string> := [
    "\n" +
    "    New Contact Form Submission\n" +
    "\n" +
    "    Name: ",
    "\n    Email: ",
    "\n    Phone: ",
    "\n    ",
    "\n" +
    "\n" +
    "    ---\n" +
    "    This email was sent from your contact " +
    "form at ",
    "\n    "]

  function NotificationHtmlValues(appName: string, name: string, email: string, phone: string, message: string): seq<string> {
    [name, email, email, phone, phone, HtmlMessageBlock(message), appName]
  }

  function NotificationTextValues(appName: string, name: string, email: string, phone: string, message: string): seq<string> {
    [name, email, phone, TextMessageBlock(message), appName]
  }

  function NotificationHtml(appName: string, name: string, email: string, phone: string, message: string): string {
    Interpolate(NOTIFICATION_HTML, NotificationHtmlValues(appName, name, email, phone, message))
  }

  function NotificationText(appName: string, name: string, email: string, phone: string, message: string): string {
    Interpolate(NOTIFICATION_TEXT, NotificationTextValues(appName, name, email, phone, message))
  }

  /** The HTML body shows the submitter's name, email and phone, and a non-empty message. */
  lemma NotificationHtmlShowsFields(appName: string, name: string, email: string, phone: string, message: string)
    ensures var html := NotificationHtml(appName, name, email, phone, message);
      Occurs(name, html) && Occurs(email, html) && Occurs(phone, html)
      && (message != "" ==> Occurs(HTML_MESSAGE_OPEN + message + HTML_MESSAGE_CLOSE, html))
  {
    var hv := NotificationHtmlValues(appName, name, email, phone, message);
    InterpolateShows(NOTIFICATION_HTML, hv, 0);
    InterpolateShows(NOTIFICATION_HTML, hv, 1);
    InterpolateShows(NOTIFICATION_HTML, hv, 3);
    InterpolateShows(NOTIFICATION_HTML, hv, 5);
  }

  /** The plain-text body shows the submitter's name, email and phone, and a non-empty message. */
  lemma NotificationTextShowsFields(appName: string, name: string, email: string, phone: string, message: string)
    ensures var text := NotificationText(appName, name, email, phone, message);
      Occurs(name, text) && Occurs(email, text) && Occurs(phone, text)
      && (message != "" ==> Occurs(TEXT_MESSAGE_OPEN + message, text))
  {
    var tv := NotificationTextValues(appName, name, email, phone, message);
    InterpolateShows(NOTIFICATION_TEXT, tv, 0);
    InterpolateShows(NOTIFICATION_TEXT, tv, 1);
    InterpolateShows(NOTIFICATION_TEXT, tv, 2);
    InterpolateShows(NOTIFICATION_TEXT, tv, 3);
  }

  /**
   * The message block is there iff the message is non-empty: the HTML body
   * differs from the body for an empty message exactly when the message is
   * not empty.
   */
  lemma NotificationHtmlMessageBlock(appName: string, name: string, email: string, phone: string, message: string)
    ensures NotificationHtml(appName, name, email, phone, message) == NotificationHtml(appName, name, email, phone, "")
      <==> message == ""
  {
    var hv := NotificationHtmlValues(appName, name, email, phone, message);
    assert hv[5 := ""] == NotificationHtmlValues(appName, name, email, phone, "");
    InterpolateLength(NOTIFICATION_HTML, hv, 5, "");
  }

  /** The same for the plain-text body. */
  lemma NotificationTextMessageBlock(appName: string, name: string, email: string, phone: string, message: string)
    ensures NotificationText(appName, name, email, phone, message) == NotificationText(appName, name, email, phone, "")
      <==> message == ""
  {
    var tv := NotificationTextValues(appName, name, email, phone, message);
    assert tv[3 := ""] == NotificationTextValues(appName, name, email, phone, "");
    InterpolateLength(NOTIFICATION_TEXT, tv, 3, "");
  }

  /** The message `send_contact_notification` sends: to the configured recipient, with both bodies. */
  function NotificationMessage(settings: Settings, name: string, email: string, phone: string, message: string): EmailMessage {
    ComposeMessage(settings.smtpFromEmail, settings.contactEmailRecipient, NotificationSubject(name),
      NotificationHtml(settings.appName, name, email, phone, message),
      Some(NotificationText(settings.appName, name, email, phone, message)))
  }

  /** The notification goes from the configured sender to the configured recipient with both parts, plain text first. */
  lemma NotificationAddressing(settings: Settings, name: string, email: string, phone: string, message: string)
    ensures var m := NotificationMessage(settings, name, email, phone, message);
      Header(m.headers, From) == Some(settings.smtpFromEmail)
      && Header(m.headers, To) == Some(settings.contactEmailRecipient)
      && Header(m.headers, Subject) == Some(NOTIFICATION_SUBJECT_PREFIX + name)
      && |m.parts| == 2 && m.parts[0].subtype == Plain && m.parts[1].subtype == Html
  {
    assert NotificationText(settings.appName, name, email, phone, message) != "" by {
      assert NOTIFICATION_TEXT[0] != "";
    }
  }

  /**
   * `send_contact_notification`: sends the notification and returns exactly
   * what the mailer returned.
   */
  method SendContactNotification(settings: Settings, transport: Transport, name: string, email: string, phone: string, message: string)
    returns (ok: bool, sent: EmailMessage, log: seq<LogEvent>)
    ensures sent == NotificationMessage(settings, name, email, phone, message)
    ensures ok <==> transport(ConnectionOf(settings), sent).Delivered?
    ensures log == SendLog(settings.contactEmailRecipient, transport(ConnectionOf(settings), sent))
  {
    ok, sent, log := SendEmail(settings, transport, settings.contactEmailRecipient, NotificationSubject(name),
      NotificationHtml(settings.appName, name, email, phone, message),
      Some(NotificationText(settings.appName, name, email, phone, message)));
  }

  // The confirmation to the submitter.

  const CONFIRMATION_SUBJECT: string := "Thank you for contacting us"

  const CONFIRMATION_HTML: seq<string> := [
    "\n" +
    "    <html>\n" +
    "        <body style=\"font-family: Arial, " +
    "sans-serif; line-height: 1.6; color: " +
    "#333;\">\n" +
    "            <h2 style=\"color: #2c3e50;\">Thank " +
    "you for reaching out!</h2>\n" +
    "\n" +
    "            <p>Hi ",
    ",</p>\n" +
    "\n" +
    "            <p>We've received your message " +
    "and will get back to you as soon as " +
    "possible.</p>\n" +
    "\n" +
    "            <p>Best regards,<br>\n" +
    "            ",
    " Team</p>\n" +
    "\n" +
    "            <hr style=\"border: none; " +
    "border-top: 1px solid #ddd; margin: " +
    "20px 0;\">\n" +
    "\n" +
    "            <p style=\"color: #7f8c8d; " +
    "font-size: 12px;\">\n" +
    "                This is an automated " +
    "message. Please do not reply to this " +
    "email.\n" +
    "            </p>\n" +
    "        </body>\n" +
    "    </html>\n" +
    "    "]

  const CONFIRMATION_TEXT: seq<string> := [
    "\n" +
    "    Thank you for reaching out!\n" +
    "\n" +
    "    Hi ",
    ",\n" +
    "\n" +
    "    We've received your message and " +
    "will get back to you as soon as possible.\n" +
    "\n" +
    "    Best regards,\n" +
    "    ",
    " Team\n" +
    "\n" +
    "    ---\n" +
    "    This is an automated message. Please " +
    "do not reply to this email.\n" +
    "    "]

  function ConfirmationHtml(appName: string, name: string): string {
    Interpolate(CONFIRMATION_HTML, [name, appName])
  }

  function ConfirmationText(appName: string, name: string): string {
    Interpolate(CONFIRMATION_TEXT, [name, appName])
  }

  /** The message `send_confirmation_email` sends: to the submitter, with the fixed subject. */
  function ConfirmationMessage(settings: Settings, name: string, email: string): EmailMessage {
    ComposeMessage(settings.smtpFromEmail, email, CONFIRMATION_SUBJECT,
      ConfirmationHtml(settings.appName, name), Some(ConfirmationText(settings.appName, name)))
  }

  /** The confirmation goes to the submitter under the fixed subject, and both bodies greet by name. */
  lemma ConfirmationAddressing(settings: Settings, name: string, email: string)
    ensures var m := ConfirmationMessage(settings, name, email);
      Header(m.headers, To) == Some(email)
      && Header(m.headers, Subject) == Some("Thank you for contacting us")
      && |m.parts| == 2
      && Occurs(name, m.parts[0].body) && Occurs(name, m.parts[1].body)
  {
    InterpolateShows(CONFIRMATION_HTML, [name, settings.appName], 0);
    InterpolateShows(CONFIRMATION_TEXT, [name, settings.appName], 0);
    assert ConfirmationText(settings.appName, name) != "" by {
      assert CONFIRMATION_TEXT[0] != "";
    }
  }

  /** `send_confirmation_email`: sends the confirmation and returns exactly what the mailer returned. */
  method SendConfirmationEmail(settings: Settings, transport: Transport, name: string, email: string)
    returns (ok: bool, sent: EmailMessage, log: seq<LogEvent>)
    ensures sent == ConfirmationMessage(settings, name, email)
    ensures ok <==> transport(ConnectionOf(settings), sent).Delivered?
    ensures log == SendLog(email, transport(ConnectionOf(settings), sent))
  {
    ok, sent, log := SendEmail(settings, transport, email, CONFIRMATION_SUBJECT,
      ConfirmationHtml(settings.appName, name), Some(ConfirmationText(settings.appName, name)));
  }
}
