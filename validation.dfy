/**
 * Field-level validation shared by the API's request schemas: what a
 * declared length or range bound accepts, and the errors a refused field
 * produces.
 */
module Validation {
  import opened Wrappers

  /** Why a field was refused. */
  datatype ErrorKind = Missing | NotNullable | TooShort(min: nat) | TooLong(max: nat) | NotAnEmail | TooSmall(least: int)

  datatype FieldError = FieldError(field: string, kind: ErrorKind)

  /** A required string field whose length lies between `min` and `max`. */
  function CheckRequired(field: string, v: Option<string>, min: nat, max: nat): (r: Result<string, FieldError>)
    requires min <= max
    ensures r.Ok? <==> v.Some? && min <= |v.value| <= max
    ensures r.Ok? ==> r.value == v.value
    ensures r.Err? ==> r.error.field == field
    ensures r.Err? && v.None? ==> r.error.kind == Missing
    ensures r.Err? && v.Some? && |v.value| < min ==> r.error.kind == TooShort(min)
    ensures r.Err? && v.Some? && |v.value| > max ==> r.error.kind == TooLong(max)
  {
    match v
    case None => Err(FieldError(field, Missing))
    case Some(s) =>
      if |s| < min then Err(FieldError(field, TooShort(min)))
      else if |s| > max then Err(FieldError(field, TooLong(max)))
      else Ok(s)
  }

  /**
   * A non-nullable string field with a default: not sent means `default`,
   * null is refused, and a sent text is at most `max` long.
   */
  function CheckOptional(field: string, v: Patch<string>, default: string, max: nat): (r: Result<string, FieldError>)
    ensures r.Ok? <==> v.Unset? || (v.SetValue? && |v.value| <= max)
    ensures r.Ok? ==> r.value == if v.SetValue? then v.value else default
    ensures r.Err? ==> r.error == FieldError(field, if v.SetNull? then NotNullable else TooLong(max))
  {
    match v
    case Unset => Ok(default)
    case SetNull => Err(FieldError(field, NotNullable))
    case SetValue(s) => if |s| > max then Err(FieldError(field, TooLong(max))) else Ok(s)
  }

  function ErrorsOf<T>(r: Result<T, FieldError>): seq<FieldError> {
    if r.Err? then [r.error] else []
  }

  function FieldsOf(errors: seq<FieldError>): set<string> {
    set e | e in errors :: e.field
  }

  lemma FieldsOfAppend(a: seq<FieldError>, b: seq<FieldError>)
    ensures FieldsOf(a + b) == FieldsOf(a) + FieldsOf(b)
  {
    forall f | f in FieldsOf(a + b) ensures f in FieldsOf(a) + FieldsOf(b) {
      var e :| e in a + b && e.field == f;
    }
  }
}
