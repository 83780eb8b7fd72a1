/**
 * The item records of the API (api/app/schemas/item.py): the fields an
 * item has and their bounds, the partial update a client sends, and the
 * stored item the endpoints answer with.
 */
module ItemSchema {
  import opened Wrappers
  import opened Validation

  /**
   * The client-editable columns of an item row (`ItemBase`). `None` is a
   * null column: the optional description may be null, and a partial update
   * that sends null for another field writes null into it too.
   */
  datatype ItemFields = ItemFields(
    name: Option<string>, description: Option<string>, price: Option<int>, isAvailable: Option<bool>)

  const NAME_MIN: nat := 1
  const NAME_MAX: nat := 100
  const DESCRIPTION_MAX: nat := 500
  const PRICE_MIN: int := 0

  /** The types and bounds of `ItemBase`: name, price and availability present, each within its bounds. */
  predicate ValidFields(f: ItemFields) {
    f.name.Some? && NAME_MIN <= |f.name.value| <= NAME_MAX
    && (f.description.None? || |f.description.value| <= DESCRIPTION_MAX)
    && f.price.Some? && f.price.value >= PRICE_MIN
    && f.isAvailable.Some?
  }

  /**
   * A create request as the client sent it. A missing or null name, price or
   * description are both None; `isAvailable` tells not sent, null and a value apart.
   */
  datatype ItemCreateInput = ItemCreateInput(
    name: Option<string>, description: Option<string>, price: Option<int>, isAvailable: Patch<bool>)

  /** A required integer field bounded below. */
  function CheckAtLeast(field: string, v: Option<int>, least: int): (r: Result<int, FieldError>)
    ensures r.Ok? <==> v.Some? && v.value >= least
    ensures r.Ok? ==> r.value == v.value
    ensures r.Err? ==> r.error == FieldError(field, if v.None? then Missing else TooSmall(least))
  {
    match v
    case None => Err(FieldError(field, Missing))
    case Some(n) => if n < least then Err(FieldError(field, TooSmall(least))) else Ok(n)
  }

  /** A non-nullable field with a default: not sent means `default`, null is refused. */
  function CheckDefaulted<T>(field: string, v: Patch<T>, default: T): (r: Result<T, FieldError>)
    ensures r.Ok? <==> !v.SetNull?
    ensures r.Ok? ==> r.value == if v.SetValue? then v.value else default
    ensures r.Err? ==> r.error == FieldError(field, NotNullable)
  {
    match v
    case Unset => Ok(default)
    case SetNull => Err(FieldError(field, NotNullable))
    case SetValue(b) => Ok(b)
  }

  function CreateRefused(input: ItemCreateInput): set<string> {
    (if input.name.Some? && NAME_MIN <= |input.name.value| <= NAME_MAX then {} else {"name"})
    + (if input.description.None? || |input.description.value| <= DESCRIPTION_MAX then {} else {"description"})
    + (if input.price.Some? && input.price.value >= PRICE_MIN then {} else {"price"})
    + (if input.isAvailable.SetNull? then {"is_available"} else {})
  }

  /**
   * Validation of a create request: accepted iff no field is refused, and
   * then carrying the sent values, with `isAvailable` defaulting to true;
   * otherwise the errors name exactly the refused fields.
   */
  function ValidateItemCreate(input: ItemCreateInput): (r: Result<ItemFields, seq<FieldError>>)
    ensures r.Ok? <==> CreateRefused(input) == {}
    ensures r.Ok? ==> ValidFields(r.value)
    ensures r.Ok? ==> r.value == ItemFields(Some(input.name.value), input.description, Some(input.price.value),
      Some(if input.isAvailable.SetValue? then input.isAvailable.value else true))
    ensures r.Err? ==> FieldsOf(r.error) == CreateRefused(input)
  {
    var name := CheckRequired("name", input.name, NAME_MIN, NAME_MAX);
    var description := CheckOptionalText("description", input.description, DESCRIPTION_MAX);
    var price := CheckAtLeast("price", input.price, PRICE_MIN);
    var available := CheckDefaulted("is_available", input.isAvailable, true);
    var errors := ErrorsOf(name) + ErrorsOf(description) + ErrorsOf(price) + ErrorsOf(available);
    assert FieldsOf(errors) == CreateRefused(input) by {
      assert FieldsOf(ErrorsOf(name)) == (if name.Ok? then {} else {"name"});
      assert FieldsOf(ErrorsOf(description)) == (if description.Ok? then {} else {"description"});
      assert FieldsOf(ErrorsOf(price)) == (if price.Ok? then {} else {"price"});
      assert FieldsOf(ErrorsOf(available)) == (if available.Ok? then {} else {"is_available"});
      FieldsOfAppend(ErrorsOf(name), ErrorsOf(description));
      FieldsOfAppend(ErrorsOf(name) + ErrorsOf(description), ErrorsOf(price));
      FieldsOfAppend(ErrorsOf(name) + ErrorsOf(description) + ErrorsOf(price), ErrorsOf(available));
    }
    if errors == [] then
      Ok(ItemFields(Some(name.value), input.description, Some(price.value), Some(available.value)))
    else
      assert "name" in FieldsOf(errors) || "description" in FieldsOf(errors)
        || "price" in FieldsOf(errors) || "is_available" in FieldsOf(errors);
      Err(errors)
  }

  /** A nullable text field: absent or null is accepted; otherwise at most `max` long. */
  function CheckOptionalText(field: string, v: Option<string>, max: nat): (r: Result<Option<string>, FieldError>)
    ensures r.Ok? <==> v.None? || |v.value| <= max
    ensures r.Ok? ==> r.value == v
    ensures r.Err? ==> r.error == FieldError(field, TooLong(max))
  {
    if v.Some? && |v.value| > max then Err(FieldError(field, TooLong(max))) else Ok(v)
  }

  /**
   * `ItemUpdate`: every field `Optional` with a None default, so each may be
   * left out, sent as null, or sent with a value.
   */
  datatype ItemUpdate = ItemUpdate(
    name: Patch<string>, description: Patch<string>, price: Patch<int>, isAvailable: Patch<bool>)

  /** The fields whose sent value breaks its bound; a null passes every bound. */
  function UpdateRefused(u: ItemUpdate): set<string> {
    (if !u.name.SetValue? || NAME_MIN <= |u.name.value| <= NAME_MAX then {} else {"name"})
    + (if !u.description.SetValue? || |u.description.value| <= DESCRIPTION_MAX then {} else {"description"})
    + (if !u.price.SetValue? || u.price.value >= PRICE_MIN then {} else {"price"})
  }

  /** The bounds of `ItemUpdate`, applied to the fields an update sends. */
  predicate ValidUpdate(u: ItemUpdate) {
    UpdateRefused(u) == {}
  }

  /** The update sends null for a field that `ItemBase` does not let be null. */
  predicate ClearsRequired(u: ItemUpdate) {
    u.name.SetNull? || u.price.SetNull? || u.isAvailable.SetNull?
  }

  /** One field assignment of an update, in the order `model_dump` lists them; None writes null. */
  datatype Assignment =
    | AssignName(name: Option<string>)
    | AssignDescription(description: Option<string>)
    | AssignPrice(price: Option<int>)
    | AssignAvailable(isAvailable: Option<bool>)

  /** What a sent field carries: null or its value. */
  function SentValue<T>(p: Patch<T>): Option<T>
    requires !p.Unset?
  {
    if p.SetNull? then None else Some(p.value)
  }

  /** The fields the client sent, in declaration order (`model_dump(exclude_unset=True)`). */
  function SentFields(u: ItemUpdate): (r: seq<Assignment>)
    ensures |r| <= 4
  {
    (if u.name.Unset? then [] else [AssignName(SentValue(u.name))])
    + (if u.description.Unset? then [] else [AssignDescription(SentValue(u.description))])
    + (if u.price.Unset? then [] else [AssignPrice(SentValue(u.price))])
    + (if u.isAvailable.Unset? then [] else [AssignAvailable(SentValue(u.isAvailable))])
  }

  /** `setattr` of one field. */
  function Assign(f: ItemFields, a: Assignment): ItemFields {
    match a
    case AssignName(name) => f.(name := name)
    case AssignDescription(description) => f.(description := description)
    case AssignPrice(price) => f.(price := price)
    case AssignAvailable(isAvailable) => f.(isAvailable := isAvailable)
  }

  /** The assignments carried out left to right. */
  function AssignAll(f: ItemFields, assignments: seq<Assignment>): ItemFields
    decreases |assignments|
  {
    if assignments == [] then f
    else AssignAll(Assign(f, assignments[0]), assignments[1..])
  }

  /** A column after a patch: kept when not sent, null when sent as null, the value otherwise. */
  function PatchedField<T>(current: Option<T>, p: Patch<T>): Option<T> {
    match p
    case Unset => current
    case SetNull => None
    case SetValue(v) => Some(v)
  }

  /**
   * The fields after an update: each field the client sent takes the sent
   * value or null, and every other field keeps its value.
   */
  function Patched(f: ItemFields, u: ItemUpdate): ItemFields
  {
    ItemFields(
      PatchedField(f.name, u.name), PatchedField(f.description, u.description),
      PatchedField(f.price, u.price), PatchedField(f.isAvailable, u.isAvailable))
  }

  /** Carrying out `a` and then `b` is carrying out `a + b`. */
  lemma {:induction false} AssignAllAppend(f: ItemFields, a: seq<Assignment>, b: seq<Assignment>)
    ensures AssignAll(f, a + b) == AssignAll(AssignAll(f, a), b)
    decreases |a|
  {
    if a != [] {
      assert (a + b)[1..] == a[1..] + b;
      AssignAllAppend(Assign(f, a[0]), a[1..], b);
    } else {
      assert a + b == b;
    }
  }

  /** Assigning the sent fields one by one gives the patched fields. */
  lemma {:induction false} AssignSentFields(f: ItemFields, u: ItemUpdate)
    ensures AssignAll(f, SentFields(u)) == Patched(f, u)
  {
    var n := if u.name.Unset? then [] else [AssignName(SentValue(u.name))];
    var d := if u.description.Unset? then [] else [AssignDescription(SentValue(u.description))];
    var p := if u.price.Unset? then [] else [AssignPrice(SentValue(u.price))];
    var a := if u.isAvailable.Unset? then [] else [AssignAvailable(SentValue(u.isAvailable))];
    assert SentFields(u) == n + d + p + a;
    AssignAllAppend(f, n + d + p, a);
    AssignAllAppend(f, n + d, p);
    AssignAllAppend(f, n, d);
  }

  /**
   * An update that passes `ItemUpdate` validation keeps valid fields valid
   * exactly when it sends no null for name, price or availability.
   */
  lemma PatchedKeepsValid(f: ItemFields, u: ItemUpdate)
    requires ValidFields(f) && ValidUpdate(u)
    ensures ValidFields(Patched(f, u)) <==> !ClearsRequired(u)
  {
    assert "name" !in UpdateRefused(u);
    assert "description" !in UpdateRefused(u);
    assert "price" !in UpdateRefused(u);
  }

  /** Applying an update twice gives what applying it once gives. */
  lemma PatchedIdempotent(f: ItemFields, u: ItemUpdate)
    ensures Patched(Patched(f, u), u) == Patched(f, u)
  {
  }

  /** An update that sends nothing changes nothing. */
  lemma EmptyUpdateChangesNothing(f: ItemFields)
    ensures Patched(f, ItemUpdate(Unset, Unset, Unset, Unset)) == f
    ensures SentFields(ItemUpdate(Unset, Unset, Unset, Unset)) == []
  {
  }

  /** A point in time, as the database's clock gives it. */
  type Timestamp = int

  /** A stored item as the endpoints return it (`ItemResponse`): its fields, id and timestamps. */
  datatype Item = Item(id: int, fields: ItemFields, createdAt: Timestamp, updatedAt: Option<Timestamp>)
}
