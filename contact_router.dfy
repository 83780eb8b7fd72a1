/**
 * The two contact endpoints (api/app/routers/contact.py). The asynchronous
 * one queues the two emails as background tasks and answers at once; the
 * synchronous one sends them itself, in order, and warns about each send
 * that failed. Both answer with success whatever the sends did; only an
 * exception inside the handler turns into an HTTP 500.
 *
 * The clock is the `now` parameter. An unexpected exception inside the
 * handler is the `fault` parameter: Some(text) means the handler raised with
 * that text when it logged the submission, before anything else happened.
 */
module ContactRouter {
  import opened Wrappers
  import opened Config
  import opened ContactSchema
  import opened Email

  /** A queued call of one of the two mail helpers, with its arguments. */
  datatype Task =
    | NotifyTask(name: string, email: string, phone: string, message: string)
    | ConfirmTask(name: string, email: string)

  /** The request's queue of background tasks, run after the response is sent. */
  class BackgroundTasks {
    var tasks: seq<Task>

    constructor ()
      ensures tasks == []
    {
      tasks := [];
    }

    method AddTask(task: Task)
      modifies this
      ensures tasks == old(tasks) + [task]
    {
      tasks := tasks + [task];
    }
  }

  /** What a handler gives the client: a response body, or an HTTP error. */
  datatype Reply = Responded(response: ContactResponse) | Failed(status: int, detail: string)

  const HTTP_500_INTERNAL_SERVER_ERROR: int := 500
  const THANK_YOU: string := "Thank you for contacting us! We'll be in touch soon."
  const FAILURE_DETAIL: string := "Failed to process contact form. Please try again later."
  const NOTIFICATION_WARNING: string := "Failed to send notification email"
  const CONFIRMATION_WARNING: string := "Failed to send confirmation email"

  /** The tasks the asynchronous handler queues: the notification, then the confirmation. */
  function QueuedTasks(form: ContactForm): (tasks: seq<Task>)
    ensures |tasks| == 2
    ensures tasks[0].NotifyTask? && tasks[1].ConfirmTask?
    ensures tasks[0].name == tasks[1].name == form.name && tasks[0].email == tasks[1].email == form.email
    ensures tasks[0].phone == form.phone && tasks[0].message == form.message
  {
    [NotifyTask(form.name, form.email, form.phone, form.message), ConfirmTask(form.name, form.email)]
  }

  /** The reply to a form the handler processed without an exception. */
  function Thanks(now: Timestamp): (r: Reply)
    ensures r.Responded? && r.response.success
  {
    Responded(ContactResponse(true, THANK_YOU, now))
  }

  /** What either handler logs and replies when it raises. */
  function FailureLog(reason: string): seq<LogEvent> {
    [Error("Error processing contact form: " + reason)]
  }

  function SubmissionLog(prefix: string, form: ContactForm): LogEvent {
    Info(prefix + form.name + " (" + form.email + ") - " + form.phone)
  }

  /**
   * `submit_contact_form`: queues the two tasks and answers with the thank
   * you, without running either task; if it raises, nothing is queued and the
   * reply is the HTTP 500 with the fixed detail.
   */
  method SubmitContactForm(form: ContactForm, background: BackgroundTasks, now: Timestamp, fault: Option<string>)
    returns (reply: Reply, log: seq<LogEvent>)
    modifies background
    ensures fault.None? ==> background.tasks == old(background.tasks) + QueuedTasks(form)
    ensures fault.None? ==> reply == Thanks(now) && log == [SubmissionLog("Contact form submission: ", form)]
    ensures fault.Some? ==> background.tasks == old(background.tasks)
    ensures fault.Some? ==> reply == Failed(HTTP_500_INTERNAL_SERVER_ERROR, FAILURE_DETAIL) && log == FailureLog(fault.value)
  {
    if fault.Some? {
      log := FailureLog(fault.value);
      reply := Failed(HTTP_500_INTERNAL_SERVER_ERROR, FAILURE_DETAIL);
      return;
    }
    log := [SubmissionLog("Contact form submission: ", form)];
    background.AddTask(NotifyTask(form.name, form.email, form.phone, form.message));
    background.AddTask(ConfirmTask(form.name, form.email));
    reply := Thanks(now);
  }

  /** The message a queued task sends when it runs. */
  function TaskMessage(settings: Settings, task: Task): EmailMessage {
    match task
    case NotifyTask(name, email, phone, message) => NotificationMessage(settings, name, email, phone, message)
    case ConfirmTask(name, email) => ConfirmationMessage(settings, name, email)
  }

  /** The messages the synchronous handler sends, in order. */
  function SyncMessages(settings: Settings, form: ContactForm): seq<EmailMessage> {
    [NotificationMessage(settings, form.name, form.email, form.phone, form.message),
     ConfirmationMessage(settings, form.name, form.email)]
  }

  /** The warnings for the failed sends, notification first. */
  function SendWarnings(notificationSent: bool, confirmationSent: bool): seq<LogEvent> {
    (if notificationSent then [] else [Warning(NOTIFICATION_WARNING)])
    + (if confirmationSent then [] else [Warning(CONFIRMATION_WARNING)])
  }

  /** A warning is logged for a send iff that send failed. */
  lemma SendWarningsIff(notificationSent: bool, confirmationSent: bool)
    ensures Warning(NOTIFICATION_WARNING) in SendWarnings(notificationSent, confirmationSent) <==> !notificationSent
    ensures Warning(CONFIRMATION_WARNING) in SendWarnings(notificationSent, confirmationSent) <==> !confirmationSent
    ensures |SendWarnings(notificationSent, confirmationSent)|
      == (if notificationSent then 0 else 1) + (if confirmationSent then 0 else 1)
  {
    assert |NOTIFICATION_WARNING| != |CONFIRMATION_WARNING| || NOTIFICATION_WARNING[17] != CONFIRMATION_WARNING[17];
  }

  /** How the two sends of the synchronous handler went, as it logs them. */
  function SyncSendLog(settings: Settings, transport: Transport, form: ContactForm): seq<LogEvent> {
    var sent := SyncMessages(settings, form);
    var notified := transport(ConnectionOf(settings), sent[0]);
    var confirmed := transport(ConnectionOf(settings), sent[1]);
    SendLog(settings.contactEmailRecipient, notified) + SendLog(form.email, confirmed)
      + SendWarnings(notified.Delivered?, confirmed.Delivered?)
  }

  /**
   * `submit_contact_form_sync`: sends the notification, then the
   * confirmation, each once; warns about each that failed; and answers with
   * the thank you whatever the two sends returned. If it raises, nothing is
   * sent and the reply is the HTTP 500 with the fixed detail.
   */
  method SubmitContactFormSync(settings: Settings, transport: Transport, form: ContactForm, now: Timestamp, fault: Option<string>)
    returns (reply: Reply, sent: seq<EmailMessage>, log: seq<LogEvent>)
    ensures fault.Some? ==> reply == Failed(HTTP_500_INTERNAL_SERVER_ERROR, FAILURE_DETAIL) && sent == [] && log == FailureLog(fault.value)
    ensures fault.None? ==> reply == Thanks(now) && sent == SyncMessages(settings, form)
    ensures fault.None? ==>
      log == [SubmissionLog("Contact form submission (sync): ", form)] + SyncSendLog(settings, transport, form)
  {
    if fault.Some? {
      reply, sent, log := Failed(HTTP_500_INTERNAL_SERVER_ERROR, FAILURE_DETAIL), [], FailureLog(fault.value);
      return;
    }
    var sendLog;
    sent, sendLog := SendBoth(settings, transport, form);
    log := [SubmissionLog("Contact form submission (sync): ", form)] + sendLog;
    reply := Thanks(now);
  }

  /** The two sends of the synchronous handler and the warnings after them. */
  method SendBoth(settings: Settings, transport: Transport, form: ContactForm)
    returns (sent: seq<EmailMessage>, log: seq<LogEvent>)
    ensures sent == SyncMessages(settings, form)
    ensures log == SyncSendLog(settings, transport, form)
  {
    var notificationSent, notification, notificationLog :=
      SendContactNotification(settings, transport, form.name, form.email, form.phone, form.message);
    log := notificationLog;
    var confirmationSent, confirmation, confirmationLog :=
      SendConfirmationEmail(settings, transport, form.name, form.email);
    log := log + confirmationLog;
    sent := [notification, confirmation];
    assert sent == SyncMessages(settings, form);
    if !notificationSent {
      log := log + [Warning(NOTIFICATION_WARNING)];
    }
    if !confirmationSent {
      log := log + [Warning(CONFIRMATION_WARNING)];
    }
  }

  /**
   * The queued tasks, when they run, send exactly the messages the
   * synchronous handler sends, in the same order.
   */
  lemma QueuedTasksSendSyncMessages(settings: Settings, form: ContactForm)
    ensures |QueuedTasks(form)| == |SyncMessages(settings, form)| == 2
    ensures TaskMessage(settings, QueuedTasks(form)[0]) == SyncMessages(settings, form)[0]
    ensures TaskMessage(settings, QueuedTasks(form)[1]) == SyncMessages(settings, form)[1]
  {
  }
}
