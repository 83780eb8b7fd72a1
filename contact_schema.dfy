/**
 * The contact form's request and response records (api/app/schemas/contact.py)
 * and the field constraints a request must meet before a handler sees it.
 */
module ContactSchema {
  import opened Wrappers
  import opened Validation

  /**
   * A contact form as the client sent it: any field may be missing. A null
   * name, email or phone is refused as a missing one is; the message tells
   * not sent, null and a text apart, because only a missing one defaults.
   */
  datatype ContactFormInput = ContactFormInput(
    name: Option<string>, email: Option<string>, phone: Option<string>, message: Patch<string>)

  /** A contact form that met every constraint. */
  datatype ContactForm = ContactForm(name: string, email: string, phone: string, message: string)

  /** A point in time, as the caller's clock gives it. */
  type Timestamp = int

  /** The handlers' reply. */
  datatype ContactResponse = ContactResponse(success: bool, message: string, timestamp: Timestamp)

  const NAME_MIN: nat := 1
  const NAME_MAX: nat := 100
  const PHONE_MIN: nat := 10
  const PHONE_MAX: nat := 20
  const MESSAGE_MAX: nat := 2000

  /**
   * The address check of the email field: the address in the form it is
   * kept in, or None when it is not an email address.
   */
  type EmailCheck = string -> Option<string>

  /** The email field: present and accepted by the address check. */
  function CheckEmail(v: Option<string>, check: EmailCheck): (r: Result<string, FieldError>)
    ensures r.Ok? <==> v.Some? && check(v.value).Some?
    ensures r.Ok? ==> r.value == check(v.value).value
    ensures r.Err? ==> r.error == FieldError("email", if v.None? then Missing else NotAnEmail)
  {
    match v
    case None => Err(FieldError("email", Missing))
    case Some(s) =>
      match check(s)
      case None => Err(FieldError("email", NotAnEmail))
      case Some(address) => Ok(address)
  }

  /** The fields (of name, email, phone and message) that the form's constraints refuse. */
  function RefusedFields(input: ContactFormInput, check: EmailCheck): set<string> {
    (if input.name.Some? && NAME_MIN <= |input.name.value| <= NAME_MAX then {} else {"name"})
    + (if input.email.Some? && check(input.email.value).Some? then {} else {"email"})
    + (if input.phone.Some? && PHONE_MIN <= |input.phone.value| <= PHONE_MAX then {} else {"phone"})
    + (if input.message.Unset? || (input.message.SetValue? && |input.message.value| <= MESSAGE_MAX)
       then {} else {"message"})
  }

  /**
   * Validation of a submitted form: it is accepted iff no field is refused,
   * and then carries the submitted values (the message defaulting to "");
   * otherwise the errors name exactly the refused fields, in field order.
   */
  function ValidateContactForm(input: ContactFormInput, check: EmailCheck): (r: Result<ContactForm, seq<FieldError>>)
    ensures r.Ok? <==> RefusedFields(input, check) == {}
    ensures r.Ok? ==> r.value == ContactForm(input.name.value, check(input.email.value).value,
      input.phone.value, if input.message.SetValue? then input.message.value else "")
    ensures r.Err? ==> FieldsOf(r.error) == RefusedFields(input, check) && |r.error| <= 4
  {
    var name := CheckRequired("name", input.name, NAME_MIN, NAME_MAX);
    var email := CheckEmail(input.email, check);
    var phone := CheckRequired("phone", input.phone, PHONE_MIN, PHONE_MAX);
    var message := CheckOptional("message", input.message, "", MESSAGE_MAX);
    var errors := ErrorsOf(name) + ErrorsOf(email) + ErrorsOf(phone) + ErrorsOf(message);
    assert FieldsOf(errors) == RefusedFields(input, check) by {
      assert FieldsOf(ErrorsOf(name)) == (if name.Ok? then {} else {"name"});
      assert FieldsOf(ErrorsOf(email)) == (if email.Ok? then {} else {"email"});
      assert FieldsOf(ErrorsOf(phone)) == (if phone.Ok? then {} else {"phone"});
      assert FieldsOf(ErrorsOf(message)) == (if message.Ok? then {} else {"message"});
      FieldsOfAppend(ErrorsOf(name), ErrorsOf(email));
      FieldsOfAppend(ErrorsOf(name) + ErrorsOf(email), ErrorsOf(phone));
      FieldsOfAppend(ErrorsOf(name) + ErrorsOf(email) + ErrorsOf(phone), ErrorsOf(message));
    }
    if errors == [] then
      Ok(ContactForm(name.value, email.value, phone.value, message.value))
    else
      assert "name" in FieldsOf(errors) || "email" in FieldsOf(errors)
        || "phone" in FieldsOf(errors) || "message" in FieldsOf(errors);
      Err(errors)
  }

  /** A form without an email or without a phone is refused. */
  lemma MissingEmailOrPhoneRefused(input: ContactFormInput, check: EmailCheck)
    requires input.email.None? || input.phone.None?
    ensures ValidateContactForm(input, check).Err?
  {
    assert "email" in RefusedFields(input, check) || "phone" in RefusedFields(input, check);
  }

  /** An address the check refuses, such as "not-an-email", makes the form refused on its email field. */
  lemma RefusedAddressRefusesForm(input: ContactFormInput, check: EmailCheck)
    requires input.email.Some? && check(input.email.value).None?
    ensures ValidateContactForm(input, check).Err?
    ensures "email" in FieldsOf(ValidateContactForm(input, check).error)
  {
    assert "email" in RefusedFields(input, check);
  }

  /**
   * The eight-character phone number "555-1234" is shorter than the ten
   * characters the schema demands, so a form carrying it is refused on its
   * phone field whatever the other fields hold.
   */
  lemma ShortPhoneRefused(input: ContactFormInput, check: EmailCheck)
    requires input.phone == Some("555-1234")
    ensures ValidateContactForm(input, check).Err?
    ensures "phone" in FieldsOf(ValidateContactForm(input, check).error)
  {
    assert |"555-1234"| == 8;
    assert "phone" in RefusedFields(input, check);
  }

  /** A form without a message is accepted with the empty message when its other fields are. */
  lemma MessageDefaultsToEmpty(input: ContactFormInput, check: EmailCheck)
    requires input.message.Unset?
    requires ValidateContactForm(input, check).Ok?
    ensures ValidateContactForm(input, check).value.message == ""
  {
  }

  /** A message sent as null is refused, whatever the other fields hold: only a missing one defaults. */
  lemma NullMessageRefused(input: ContactFormInput, check: EmailCheck)
    requires input.message.SetNull?
    ensures ValidateContactForm(input, check).Err?
    ensures "message" in FieldsOf(ValidateContactForm(input, check).error)
  {
    assert "message" in RefusedFields(input, check);
  }
}
