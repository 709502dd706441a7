/** The dialog that creates or edits an expense: its form, how an input
    event changes it, the three checks made before sending, and which
    request a valid form sends. Reading a number from text
    (`Number.parseFloat`) and printing an amount are parameters. */
module ExpenseModal {
  import opened Wrappers
  import opened Calendar
  import opened ExpenseSchema
  import Text
  import FullDate
  import FormErrors
  import ExpenseRoutes
  import ExpenseCrud

  datatype ExpenseForm = ExpenseForm(
    title: string,
    amount: string,
    category: string,
    description: string,
    date: string,
    paymentMethod: string,
    isRecurring: bool,
    recurringType: string,
    tags: seq<string>)

  datatype Modal = Modal(form: ExpenseForm, errors: FormErrors.Errors)

  const DefaultCategory: string := "Food & Dining"
  const DefaultRecurringType: string := "monthly"

  /** The form of a new expense: empty title, amount and description, the
      date of `today` as `YYYY-MM-DD`, paid in cash, not recurring. */
  function NewForm(today: Date): (f: ExpenseForm)
    requires IsValid(today) && 0 <= today.year <= 9999
    ensures FullDate.Parse(f.date) == Some(today)
    ensures f.title == "" && f.amount == "" && f.description == "" && f.tags == []
    ensures f.category == DefaultCategory && f.paymentMethod == DefaultPaymentMethod
    ensures !f.isRecurring && f.recurringType == DefaultRecurringType
    ensures f.category in Categories && f.paymentMethod in PaymentMethods
    ensures f.recurringType in RecurringTypes
  {
    FullDate.ParseFormat(today);
    ExpenseForm("", "", DefaultCategory, "", FullDate.Format(today), DefaultPaymentMethod, false,
                DefaultRecurringType, [])
  }

  /** The form filled from an expense being edited. `show` prints an amount
      as `toString` does; a missing description becomes empty and a missing
      recurrence kind becomes monthly. */
  function FormOf(e: Expense, show: real -> string): (f: ExpenseForm)
    requires IsValid(e.date) && 0 <= e.date.year <= 9999
    ensures FullDate.Parse(f.date) == Some(e.date)
    ensures f.title == e.title && f.amount == show(e.amount) && f.category == e.category
    ensures f.description == e.description.GetOr("")
    ensures f.recurringType == if e.recurringType.Some? && e.recurringType.value != "" then e.recurringType.value
                               else DefaultRecurringType
    ensures f.paymentMethod == e.paymentMethod && f.isRecurring == e.isRecurring && f.tags == e.tags
  {
    FullDate.ParseFormat(e.date);
    ExpenseForm(
      e.title, show(e.amount), e.category, e.description.GetOr(""), FullDate.Format(e.date),
      e.paymentMethod, e.isRecurring,
      if e.recurringType.Some? && e.recurringType.value != "" then e.recurringType.value else DefaultRecurringType,
      e.tags)
  }

  // ---- Editing ----------------------------------------------------------------

  datatype TextField = TitleInput | AmountInput | CategoryInput | DescriptionInput | DateInput
                     | PaymentMethodInput | RecurringTypeInput

  /** An input event: a value typed or chosen in a text field, or the
      recurrence checkbox ticked or cleared. */
  datatype Input = Typed(field: TextField, value: string) | Toggled(checked: bool)

  function InputName(i: Input): string {
    match i
    case Toggled(_) => "isRecurring"
    case Typed(f, _) =>
      match f
      case TitleInput => "title"
      case AmountInput => "amount"
      case CategoryInput => "category"
      case DescriptionInput => "description"
      case DateInput => "date"
      case PaymentMethodInput => "paymentMethod"
      case RecurringTypeInput => "recurringType"
  }

  function Value(f: ExpenseForm, t: TextField): string {
    match t
    case TitleInput => f.title
    case AmountInput => f.amount
    case CategoryInput => f.category
    case DescriptionInput => f.description
    case DateInput => f.date
    case PaymentMethodInput => f.paymentMethod
    case RecurringTypeInput => f.recurringType
  }

  /** `handleChange`: the checkbox stores its `checked` state, any other
      input its value; the input's own message is dismissed. */
  function HandleChange(m: Modal, i: Input): (r: Modal)
    ensures r.errors == FormErrors.Dismiss(m.errors, InputName(i))
    ensures i.Toggled? ==> r.form == m.form.(isRecurring := i.checked)
    ensures i.Typed? ==> Value(r.form, i.field) == i.value
    ensures i.Typed? ==> r.form.isRecurring == m.form.isRecurring && r.form.tags == m.form.tags
  {
    var form := match i
      case Toggled(c) => m.form.(isRecurring := c)
      case Typed(t, v) =>
        match t
        case TitleInput => m.form.(title := v)
        case AmountInput => m.form.(amount := v)
        case CategoryInput => m.form.(category := v)
        case DescriptionInput => m.form.(description := v)
        case DateInput => m.form.(date := v)
        case PaymentMethodInput => m.form.(paymentMethod := v)
        case RecurringTypeInput => m.form.(recurringType := v);
    Modal(form, FormErrors.Dismiss(m.errors, InputName(i)))
  }

  /** Typing into one field leaves every other field as it was. */
  lemma TypingChangesOneField(m: Modal, t: TextField, v: string, u: TextField)
    requires u != t
    ensures Value(HandleChange(m, Typed(t, v)).form, u) == Value(m.form, u)
  {
  }

  // ---- Validation and submission ---------------------------------------------

  /** The amount check: empty text, or a number that is not positive. Text
      that reads as no number at all is not caught. */
  predicate AmountRejected(a: string, parse: string -> Number) {
    a == "" || (parse(a).Num? && parse(a).value <= 0.0)
  }

  /** `validateForm`. */
  function Validate(f: ExpenseForm, parse: string -> Number): (errs: FormErrors.Errors)
    ensures errs.Keys <= {"title", "amount", "date"}
    ensures "title" in errs <==> Text.Trim(f.title) == ""
    ensures "amount" in errs <==> AmountRejected(f.amount, parse)
    ensures "date" in errs <==> f.date == ""
    ensures "title" in errs ==> errs["title"] == "Title is required"
    ensures "amount" in errs ==> errs["amount"] == "Amount must be greater than 0"
    ensures "date" in errs ==> errs["date"] == "Date is required"
  {
    var e1 := FormErrors.Flag(map[], Text.Trim(f.title) == "", "title", "Title is required");
    var e2 := FormErrors.Flag(e1, AmountRejected(f.amount, parse), "amount", "Amount must be greater than 0");
    FormErrors.Flag(e2, f.date == "", "date", "Date is required")
  }

  /** The form is valid exactly when the title has a non-space character,
      the amount is neither empty nor a non-positive number, and a date is
      set. */
  lemma ValidIff(f: ExpenseForm, parse: string -> Number)
    ensures Validate(f, parse) == map[] <==>
              Text.Trim(f.title) != "" && !AmountRejected(f.amount, parse) && f.date != ""
  {
    if Validate(f, parse) == map[] {
      assert "title" !in Validate(f, parse) && "amount" !in Validate(f, parse) && "date" !in Validate(f, parse);
    }
  }

  /** What is sent: the form with its amount read as a number. */
  datatype Payload = Payload(form: ExpenseForm, amount: Number)

  datatype Request = NoRequest | CreateRequest(data: Payload) | UpdateRequest(id: ExpenseId, data: Payload)

  /** `handleSubmit`: a fresh validation; an invalid form sends nothing, a
      valid one updates the expense being edited (`editing`) or creates a
      new one. */
  function Submit(m: Modal, editing: Option<ExpenseId>, parse: string -> Number): (r: (Modal, Request))
    ensures r.0 == m.(errors := Validate(m.form, parse))
    ensures r.1.NoRequest? <==> Validate(m.form, parse) != map[]
    ensures r.1.CreateRequest? <==> Validate(m.form, parse) == map[] && editing.None?
    ensures r.1.UpdateRequest? ==> editing == Some(r.1.id)
    ensures !r.1.NoRequest? ==> r.1.data == Payload(m.form, parse(m.form.amount))
  {
    var errs := Validate(m.form, parse);
    var sent := Payload(m.form, parse(m.form.amount));
    (m.(errors := errs),
     if errs != map[] then NoRequest
     else if editing.Some? then UpdateRequest(editing.value, sent)
     else CreateRequest(sent))
  }

  /** The request body the server receives for a payload: every field of
      the form is sent, the amount as read, and never an owner. */
  function BodyOfPayload(p: Payload): (b: Body)
    ensures b.user.None?
    ensures b.amount == Some(p.amount)
    ensures b.title == Some(p.form.title) && b.date == Some(p.form.date) && b.category == Some(p.form.category)
    ensures b.description == Some(p.form.description) && b.paymentMethod == Some(p.form.paymentMethod)
    ensures b.isRecurring == Some(p.form.isRecurring) && b.recurringType == Some(p.form.recurringType)
    ensures b.tags == Some(p.form.tags)
  {
    Body(None, Some(p.form.title), Some(p.amount), Some(p.form.category), Some(p.form.description),
         Some(p.form.date), Some(p.form.paymentMethod), Some(p.form.isRecurring),
         Some(p.form.recurringType), Some(p.form.tags))
  }

  /** Opening a stored expense and saving it unchanged sends an update of
      that expense whose body passes the server's request rules and whose
      date reads back as the expense's own day. */
  lemma ResaveUnchanged(e: Expense, show: real -> string, parse: string -> Number)
    requires IsValidExpense(e) && 0 <= e.date.year <= 9999
    requires show(e.amount) != "" && parse(show(e.amount)) == Num(e.amount)
    ensures var f := FormOf(e, show);
            && Submit(Modal(f, map[]), Some(e.id), parse).1 == UpdateRequest(e.id, Payload(f, Num(e.amount)))
            && ExpenseRoutes.RequestErrors(BodyOfPayload(Payload(f, Num(e.amount)))) == {}
            && FullDate.Parse(f.date) == Some(e.date)
  {
    var f := FormOf(e, show);
    var b := BodyOfPayload(Payload(f, Num(e.amount)));
    assert Text.Trim(f.title) != "";
    ValidIff(f, parse);
    ExpenseRoutes.CategoryListsAgree();
    assert !ExpenseRoutes.RequestRejects(b, Title);
    assert !ExpenseRoutes.RequestRejects(b, Amount);
    assert !ExpenseRoutes.RequestRejects(b, CategoryField);
    assert !ExpenseRoutes.RequestRejects(b, DateField);
  }

  /** A new form given a title and an amount the server accepts is sent as
      a create, and the server stores it for the caller. */
  lemma NewExpenseIsCreated(today: Date, title: string, amount: string, x: real, parse: string -> Number,
                            store: ExpenseCrud.Store, caller: UserId, id: ExpenseId)
    requires IsValid(today) && 0 <= today.year <= 9999
    requires ExpenseRoutes.RequestTitleMin <= |Text.Trim(title)| <= ExpenseRoutes.RequestTitleMax
    requires amount != "" && parse(amount) == Num(x) && x >= ExpenseRoutes.RequestAmountMin
    ensures var f := NewForm(today).(title := title, amount := amount);
            var b := BodyOfPayload(Payload(f, Num(x)));
            && Submit(Modal(f, map[]), None, parse).1 == CreateRequest(Payload(f, Num(x)))
            && ExpenseRoutes.RequestErrors(b) == {}
            && ExpenseCrud.CreateExpense(store, caller, b, id, today).Ok?
  {
    var f := NewForm(today).(title := title, amount := amount);
    var b := BodyOfPayload(Payload(f, Num(x)));
    ValidIff(f, parse);
    ExpenseRoutes.CategoryListsAgree();
    assert !ExpenseRoutes.RequestRejects(b, Title);
    assert !ExpenseRoutes.RequestRejects(b, Amount);
    assert !ExpenseRoutes.RequestRejects(b, CategoryField);
    assert !ExpenseRoutes.RequestRejects(b, DateField);
    var c := b.(user := Some(caller));
    assert !CreateRejects(c, Title);
    assert !CreateRejects(c, DateField);
    assert CreateErrors(c) == {};
  }

  /** Text that is not a number slips past the dialog's check and is sent;
      the server's request rules turn it away. */
  lemma NotANumberReachesServer(f: ExpenseForm, parse: string -> Number)
    requires Text.Trim(f.title) != "" && f.date != "" && f.amount != "" && parse(f.amount).NaN?
    ensures Submit(Modal(f, map[]), None, parse).1 == CreateRequest(Payload(f, NaN))
    ensures ExpenseRoutes.RequestRejects(BodyOfPayload(Payload(f, NaN)), Amount)
  {
    ValidIff(f, parse);
  }
}
