/** The expense document schema: field types, required fields, closed
    enumerations, length and minimum bounds, trimming, defaults and the
    conditional requirement on `recurringType`, together with the two ways
    a request body becomes a stored record: construction of a new document
    and a validated in-place update. */
module ExpenseSchema {
  import opened Wrappers
  import opened Calendar
  import Text
  import FullDate

  type UserId = string
  type ExpenseId = string

  /** A JavaScript number as it reaches a numeric field: a value, or NaN for
      text that does not read as a number. */
  datatype Number = Num(value: real) | NaN

  /** A stored expense record. */
  datatype Expense = Expense(
    id: ExpenseId,
    owner: UserId,
    title: string,
    amount: real,
    category: string,
    description: Option<string>,
    date: Date,
    paymentMethod: string,
    isRecurring: bool,
    recurringType: Option<string>,
    tags: seq<string>)

  const Categories: seq<string> := [
    "Food & Dining", "Transportation", "Shopping", "Entertainment", "Bills & Utilities",
    "Healthcare", "Education", "Travel", "Business", "Other"
  ]
  const PaymentMethods: seq<string> := ["Cash", "Credit Card", "Debit Card", "Bank Transfer", "Digital Wallet"]
  const RecurringTypes: seq<string> := ["daily", "weekly", "monthly", "yearly"]
  const DefaultPaymentMethod: string := "Cash"
  const TitleMaxLength := 100
  const DescriptionMaxLength := 500
  const MinAmount: real := 0.01

  /** The names of the document's validated fields, as validation errors
      report them. */
  datatype Field = User | Title | Amount | CategoryField | Description | DateField
                 | PaymentMethod | RecurringType

  /** The fields a request body may carry, as the document sees them; every
      one may be absent. `date` is the text to be cast to a day. */
  datatype Body = Body(
    user: Option<UserId>,
    title: Option<string>,
    amount: Option<Number>,
    category: Option<string>,
    description: Option<string>,
    date: Option<string>,
    paymentMethod: Option<string>,
    isRecurring: Option<bool>,
    recurringType: Option<string>,
    tags: Option<seq<string>>)

  // Per-field rules. A string rule sees the value after trimming; the
  // required check on a string rejects the empty string.

  predicate TitleOk(t: string) {
    var s := Text.Trim(t);
    s != [] && |s| <= TitleMaxLength
  }

  predicate AmountOk(a: Number) {
    a.Num? && a.value >= MinAmount
  }

  predicate CategoryOk(c: string) {
    c in Categories
  }

  predicate DescriptionOk(d: string) {
    |Text.Trim(d)| <= DescriptionMaxLength
  }

  predicate DateTextOk(s: string) {
    FullDate.Parse(s).Some?
  }

  predicate PaymentMethodOk(p: string) {
    p in PaymentMethods
  }

  predicate RecurringTypeOk(t: string) {
    t in RecurringTypes
  }

  function TrimAll(tags: seq<string>): (r: seq<string>)
    ensures |r| == |tags|
    ensures forall i :: 0 <= i < |tags| ==> r[i] == Text.Trim(tags[i])
  {
    seq(|tags|, i requires 0 <= i < |tags| => Text.Trim(tags[i]))
  }

  /** The schema's invariant: what every record built or updated through it
      satisfies (title and description trimmed, bounds, enumerations, a real
      day, and a recurrence kind whenever the expense recurs). */
  predicate IsValidExpense(e: Expense) {
    && Text.Trim(e.title) == e.title && e.title != [] && |e.title| <= TitleMaxLength
    && e.amount >= MinAmount
    && e.category in Categories
    && (e.description.Some? ==> Text.Trim(e.description.value) == e.description.value
                                && |e.description.value| <= DescriptionMaxLength)
    && IsValid(e.date)
    && e.paymentMethod in PaymentMethods
    && (e.isRecurring ==> e.recurringType.Some?)
    && (e.recurringType.Some? ==> e.recurringType.value in RecurringTypes)
    && (forall i :: 0 <= i < |e.tags| ==> Text.Trim(e.tags[i]) == e.tags[i])
  }

  const AllFields: set<Field> :=
    {User, Title, Amount, CategoryField, Description, DateField, PaymentMethod, RecurringType}

  /** The schema's rule for field `f` rejects the new document built from
      `b`: a required field is missing, or a present one breaks its bound or
      enumeration; `recurringType` is required exactly when `isRecurring`
      (default false) is true. */
  predicate CreateRejects(b: Body, f: Field) {
    match f
    case User => b.user.None?
    case Title => b.title.None? || !TitleOk(b.title.value)
    case Amount => b.amount.None? || !AmountOk(b.amount.value)
    case CategoryField => b.category.None? || !CategoryOk(b.category.value)
    case Description => b.description.Some? && !DescriptionOk(b.description.value)
    case DateField => b.date.Some? && !DateTextOk(b.date.value)
    case PaymentMethod => b.paymentMethod.Some? && !PaymentMethodOk(b.paymentMethod.value)
    case RecurringType =>
      if b.recurringType.Some? then !RecurringTypeOk(b.recurringType.value)
      else b.isRecurring.GetOr(false)
  }

  /** Names of the fields that fail validation when a new document is built
      from `b`. */
  function CreateErrors(b: Body): (errs: set<Field>)
    ensures forall f :: f in errs <==> CreateRejects(b, f)
  {
    set f | f in AllFields && CreateRejects(b, f)
  }

  /** A body with no create errors carries every required field, each within
      its rules. */
  lemma CreateAccepted(b: Body)
    requires CreateErrors(b) == {}
    ensures b.user.Some? && b.title.Some? && b.amount.Some? && b.category.Some?
    ensures TitleOk(b.title.value) && AmountOk(b.amount.value) && CategoryOk(b.category.value)
    ensures b.description.Some? ==> DescriptionOk(b.description.value)
    ensures b.date.Some? ==> DateTextOk(b.date.value)
    ensures b.paymentMethod.Some? ==> PaymentMethodOk(b.paymentMethod.value)
    ensures b.recurringType.Some? ==> RecurringTypeOk(b.recurringType.value)
    ensures b.isRecurring.GetOr(false) ==> b.recurringType.Some?
  {
    assert !CreateRejects(b, User) && !CreateRejects(b, Title) && !CreateRejects(b, Amount);
    assert !CreateRejects(b, CategoryField) && !CreateRejects(b, Description);
    assert !CreateRejects(b, DateField) && !CreateRejects(b, PaymentMethod);
    assert !CreateRejects(b, RecurringType);
  }

  /** A body with no update errors has every field it sets within its rules. */
  lemma UpdateAccepted(b: Body)
    requires UpdateErrors(b) == {}
    ensures b.title.Some? ==> TitleOk(b.title.value)
    ensures b.amount.Some? ==> AmountOk(b.amount.value)
    ensures b.category.Some? ==> CategoryOk(b.category.value)
    ensures b.description.Some? ==> DescriptionOk(b.description.value)
    ensures b.date.Some? ==> DateTextOk(b.date.value)
    ensures b.paymentMethod.Some? ==> PaymentMethodOk(b.paymentMethod.value)
    ensures b.recurringType.Some? ==> RecurringTypeOk(b.recurringType.value)
  {
    assert !UpdateRejects(b, Title) && !UpdateRejects(b, Amount);
    assert !UpdateRejects(b, CategoryField) && !UpdateRejects(b, Description);
    assert !UpdateRejects(b, DateField) && !UpdateRejects(b, PaymentMethod);
    assert !UpdateRejects(b, RecurringType);
  }

  function TrimmedOption(s: Option<string>): Option<string> {
    if s.Some? then Some(Text.Trim(s.value)) else None
  }

  lemma TrimmedOptionIdempotent(s: Option<string>)
    ensures var t := TrimmedOption(s); t.Some? ==> Text.Trim(t.value) == t.value
  {
    if s.Some? {
      Text.TrimIdempotent(s.value);
    }
  }

  lemma TrimAllIdempotent(tags: seq<string>)
    ensures forall i :: 0 <= i < |tags| ==> Text.Trim(TrimAll(tags)[i]) == TrimAll(tags)[i]
  {
    forall i | 0 <= i < |tags| ensures Text.Trim(TrimAll(tags)[i]) == TrimAll(tags)[i] {
      Text.TrimIdempotent(tags[i]);
    }
  }

  /** `new Expense(body)` followed by validation on save: either a record
      carrying the body's values (trimmed, defaults filled in, `date`
      defaulting to `now`) or the set of failing fields. */
  function Create(b: Body, id: ExpenseId, now: Date): (r: Result<Expense, set<Field>>)
    requires IsValid(now)
    ensures r.Err? <==> CreateErrors(b) != {}
    ensures r.Err? ==> r.error == CreateErrors(b)
    ensures r.Ok? ==> IsValidExpense(r.value)
    ensures r.Ok? ==> b.user.Some? && b.title.Some? && b.amount.Some? && b.amount.value.Num? && b.category.Some?
    ensures r.Ok? ==> && r.value.id == id && r.value.owner == b.user.value
                      && r.value.title == Text.Trim(b.title.value)
                      && r.value.amount == b.amount.value.value
                      && r.value.category == b.category.value
    ensures r.Ok? && b.date.Some? ==> FullDate.Parse(b.date.value) == Some(r.value.date)
    ensures r.Ok? && b.date.None? ==> r.value.date == now
    ensures r.Ok? ==> r.value.paymentMethod == b.paymentMethod.GetOr(DefaultPaymentMethod)
    ensures r.Ok? ==> r.value.isRecurring == b.isRecurring.GetOr(false)
    ensures r.Ok? ==> r.value.recurringType == b.recurringType
    ensures r.Ok? && b.description.Some? ==> r.value.description == Some(Text.Trim(b.description.value))
    ensures r.Ok? && b.description.None? ==> r.value.description.None?
    ensures r.Ok? ==> r.value.tags == TrimAll(b.tags.GetOr([]))
  {
    var errs := CreateErrors(b);
    if errs != {} then Err(errs)
    else
      CreateAccepted(b);
      Text.TrimIdempotent(b.title.value);
      TrimmedOptionIdempotent(b.description);
      TrimAllIdempotent(b.tags.GetOr([]));
      Ok(Expense(
        id, b.user.value, Text.Trim(b.title.value), b.amount.value.value, b.category.value,
        TrimmedOption(b.description),
        if b.date.Some? then FullDate.Parse(b.date.value).value else now,
        b.paymentMethod.GetOr(DefaultPaymentMethod),
        b.isRecurring.GetOr(false),
        b.recurringType,
        TrimAll(b.tags.GetOr([]))))
  }

  /** The body that describes an existing record field by field. */
  function BodyOf(e: Expense): Body
    requires IsValid(e.date) && 0 <= e.date.year <= 9999
  {
    Body(Some(e.owner), Some(e.title), Some(Num(e.amount)), Some(e.category), e.description,
         Some(FullDate.Format(e.date)), Some(e.paymentMethod), Some(e.isRecurring),
         e.recurringType, Some(e.tags))
  }

  /** Building a document from a valid record's own fields gives that record
      back: the schema's casts, trimming and defaults are idempotent. */
  lemma {:induction false} CreateOfValidRecord(e: Expense, now: Date)
    requires IsValidExpense(e) && 0 <= e.date.year <= 9999 && IsValid(now)
    ensures Create(BodyOf(e), e.id, now) == Ok(e)
  {
    var b := BodyOf(e);
    FullDate.ParseFormat(e.date);
    Text.TrimIdempotent(e.title);
    assert TitleOk(e.title);
    if e.description.Some? {
      assert DescriptionOk(e.description.value);
    }
    assert CreateErrors(b) == {};
    assert TrimAll(e.tags) == e.tags;
  }

  /** The update validator for field `f` rejects body `b`. Update
      validators run only on the fields the body sets, and the conditional
      requirement on `recurringType` is not among them. */
  predicate UpdateRejects(b: Body, f: Field) {
    match f
    case User => false
    case Title => b.title.Some? && !TitleOk(b.title.value)
    case Amount => b.amount.Some? && !AmountOk(b.amount.value)
    case CategoryField => b.category.Some? && !CategoryOk(b.category.value)
    case Description => b.description.Some? && !DescriptionOk(b.description.value)
    case DateField => b.date.Some? && !DateTextOk(b.date.value)
    case PaymentMethod => b.paymentMethod.Some? && !PaymentMethodOk(b.paymentMethod.value)
    case RecurringType => b.recurringType.Some? && !RecurringTypeOk(b.recurringType.value)
  }

  function UpdateErrors(b: Body): (errs: set<Field>)
    ensures forall f :: f in errs <==> UpdateRejects(b, f)
  {
    set f | f in AllFields && UpdateRejects(b, f)
  }

  /** The record after `findOneAndUpdate(…, body, {runValidators: true})`:
      each field the body sets is overwritten (strings trimmed, the date
      cast), every other field is kept, and the id never changes. The owner
      is one of the fields a body may set. */
  function Update(e: Expense, b: Body): (r: Result<Expense, set<Field>>)
    ensures r.Err? <==> UpdateErrors(b) != {}
    ensures r.Ok? ==> r.value.id == e.id
    ensures r.Ok? ==> r.value.owner == b.user.GetOr(e.owner)
    ensures r.Ok? ==> r.value.category == b.category.GetOr(e.category)
    ensures r.Ok? ==> r.value.title == (if b.title.Some? then Text.Trim(b.title.value) else e.title)
    ensures r.Ok? ==> r.value.isRecurring == b.isRecurring.GetOr(e.isRecurring)
    ensures r.Ok? && b.amount.Some? ==> b.amount.value == Num(r.value.amount)
    ensures r.Ok? && b.amount.None? ==> r.value.amount == e.amount
    ensures r.Ok? && b.description.Some? ==> r.value.description == Some(Text.Trim(b.description.value))
    ensures r.Ok? && b.description.None? ==> r.value.description == e.description
    ensures r.Ok? && b.date.Some? ==> FullDate.Parse(b.date.value) == Some(r.value.date)
    ensures r.Ok? && b.date.None? ==> r.value.date == e.date
    ensures r.Ok? ==> r.value.paymentMethod == b.paymentMethod.GetOr(e.paymentMethod)
    ensures r.Ok? ==> r.value.recurringType == if b.recurringType.Some? then b.recurringType else e.recurringType
    ensures r.Ok? && b.tags.Some? ==> r.value.tags == TrimAll(b.tags.value)
    ensures r.Ok? && b.tags.None? ==> r.value.tags == e.tags
  {
    var errs := UpdateErrors(b);
    if errs != {} then Err(errs)
    else
      UpdateAccepted(b);
      Ok(e.(
        owner := b.user.GetOr(e.owner),
        title := if b.title.Some? then Text.Trim(b.title.value) else e.title,
        amount := if b.amount.Some? then b.amount.value.value else e.amount,
        category := b.category.GetOr(e.category),
        description := if b.description.Some? then TrimmedOption(b.description) else e.description,
        date := if b.date.Some? then FullDate.Parse(b.date.value).value else e.date,
        paymentMethod := b.paymentMethod.GetOr(e.paymentMethod),
        isRecurring := b.isRecurring.GetOr(e.isRecurring),
        recurringType := if b.recurringType.Some? then b.recurringType else e.recurringType,
        tags := if b.tags.Some? then TrimAll(b.tags.value) else e.tags))
  }

  /** An update whose body sets nothing leaves the record as it was. */
  lemma UpdateWithEmptyBody(e: Expense)
    ensures Update(e, Body(None, None, None, None, None, None, None, None, None, None)) == Ok(e)
  {
    var b := Body(None, None, None, None, None, None, None, None, None, None);
    assert UpdateErrors(b) == {};
  }

  /** Saving a valid record's own fields over it changes nothing: trimming,
      the date cast and the tags are idempotent on stored values. */
  lemma {:induction false} UpdateWithOwnFields(e: Expense)
    requires IsValidExpense(e) && 0 <= e.date.year <= 9999
    ensures Update(e, BodyOf(e)) == Ok(e)
  {
    var b := BodyOf(e);
    FullDate.ParseFormat(e.date);
    Text.TrimIdempotent(e.title);
    assert TitleOk(e.title);
    if e.description.Some? {
      Text.TrimIdempotent(e.description.value);
      assert DescriptionOk(e.description.value);
    }
    assert !UpdateRejects(b, Title) && !UpdateRejects(b, DateField) && !UpdateRejects(b, Description);
    assert UpdateErrors(b) == {};
    assert TrimAll(e.tags) == e.tags;
  }

  /** An update that passes the validators keeps the schema's invariant,
      provided it does not switch recurrence on without a recurrence kind
      (the conditional requirement is not re-checked by update validators). */
  lemma {:induction false} UpdatePreservesValidity(e: Expense, b: Body)
    requires IsValidExpense(e) && Update(e, b).Ok?
    requires b.isRecurring == Some(true) ==> (b.recurringType.Some? || e.recurringType.Some?)
    ensures IsValidExpense(Update(e, b).value)
  {
    var r := Update(e, b).value;
    UpdateAccepted(b);
    if b.title.Some? {
      Text.TrimIdempotent(b.title.value);
    }
    if b.description.Some? {
      Text.TrimIdempotent(b.description.value);
    }
    if b.tags.Some? {
      forall i | 0 <= i < |r.tags| ensures Text.Trim(r.tags[i]) == r.tags[i] {
        Text.TrimIdempotent(b.tags.value[i]);
      }
    }
  }
}
