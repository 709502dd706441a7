/** The registration form: the password strength meter, the validation of
    the four fields with their messages, dismissing a message on edit, and
    sending the registration only when every field is valid. */
module RegisterPage {
  import opened Wrappers
  import Text
  import FormErrors
  import EmailPattern

  datatype RegisterForm = RegisterForm(name: string, email: string, password: string, confirmPassword: string)

  datatype Field = Name | Email | Password | ConfirmPassword

  function FieldName(f: Field): string {
    match f
    case Name => "name"
    case Email => "email"
    case Password => "password"
    case ConfirmPassword => "confirmPassword"
  }

  const InitialForm := RegisterForm("", "", "", "")

  datatype Page = Page(form: RegisterForm, errors: FormErrors.Errors)

  const InitialPage := Page(InitialForm, map[])

  // ---- Password strength ---------------------------------------------------

  predicate HasUpper(p: string) { exists k | 0 <= k < |p| :: Text.IsUpper(p[k]) }
  predicate HasLower(p: string) { exists k | 0 <= k < |p| :: Text.IsLower(p[k]) }
  predicate HasDigit(p: string) { exists k | 0 <= k < |p| :: Text.IsDigit(p[k]) }
  predicate HasSymbol(p: string) { exists k | 0 <= k < |p| :: !Text.IsAlphaNumeric(p[k]) }

  function Point(b: bool): nat { if b then 1 else 0 }

  /** `getPasswordStrength`: a point each for six or more characters, an
      upper-case letter, a lower-case letter, a digit and any other
      character. */
  function Strength(p: string): (s: nat)
    ensures s <= 5
  {
    Point(|p| >= 6) + Point(HasUpper(p)) + Point(HasLower(p)) + Point(HasDigit(p)) + Point(HasSymbol(p))
  }

  /** Typing more never weakens a password. */
  lemma StrengthMonotone(p: string, q: string)
    ensures Strength(p) <= Strength(p + q)
  {
    var pq := p + q;
    if HasUpper(p) {
      var k :| 0 <= k < |p| && Text.IsUpper(p[k]);
      assert pq[k] == p[k];
    }
    if HasLower(p) {
      var k :| 0 <= k < |p| && Text.IsLower(p[k]);
      assert pq[k] == p[k];
    }
    if HasDigit(p) {
      var k :| 0 <= k < |p| && Text.IsDigit(p[k]);
      assert pq[k] == p[k];
    }
    if HasSymbol(p) {
      var k :| 0 <= k < |p| && !Text.IsAlphaNumeric(p[k]);
      assert pq[k] == p[k];
    }
  }

  /** Every character falls in one of the four classes, so a non-empty
      password scores at least one point. */
  lemma NonEmptyScores(p: string)
    requires p != ""
    ensures Strength(p) >= 1
  {
    var c := p[0];
    if Text.IsUpper(c) {
      assert HasUpper(p);
    } else if Text.IsLower(c) {
      assert HasLower(p);
    } else if Text.IsDigit(c) {
      assert HasDigit(p);
    } else {
      assert HasSymbol(p);
    }
  }

  /** Full strength takes length and all four classes. */
  lemma FullStrength(p: string)
    ensures Strength(p) == 5 <==> |p| >= 6 && HasUpper(p) && HasLower(p) && HasDigit(p) && HasSymbol(p)
  {
  }

  const StrengthLabels: seq<string> := ["Very Weak", "Weak", "Fair", "Good", "Strong"]
  const StrengthColours: seq<string> := ["bg-red-500", "bg-red-400", "bg-yellow-500", "bg-blue-500", "bg-green-500"]
  const Unlit: string := "bg-gray-200"

  /** `strengthLabels[s - 1] || "Very Weak"`. */
  function Label(s: nat): (l: string)
    requires s <= 5
    ensures l in StrengthLabels
  {
    if 1 <= s then StrengthLabels[s - 1] else "Very Weak"
  }

  /** A score of nought and a score of one read the same. */
  lemma VeryWeakLabel(s: nat)
    requires s <= 5
    ensures Label(s) == "Very Weak" <==> s <= 1
  {
  }

  /** Colour of the `i`-th of the five bars for score `s`. */
  function Bar(s: nat, i: nat): string
    requires s <= 5 && i < 5
  {
    if i < s then StrengthColours[s - 1] else Unlit
  }

  /** Number of lit bars among the first `n`. */
  function LitBars(s: nat, n: nat): nat
    requires s <= 5 && n <= 5
  {
    if n == 0 then 0 else LitBars(s, n - 1) + (if Bar(s, n - 1) != Unlit then 1 else 0)
  }

  /** Exactly `s` of the five bars are lit, the first `s`. */
  lemma {:induction false} LitBarsCount(s: nat, n: nat)
    requires s <= 5 && n <= 5
    ensures LitBars(s, n) == if n < s then n else s
  {
    if n > 0 {
      LitBarsCount(s, n - 1);
    }
  }

  /** The meter shows only once a password is typed. */
  predicate MeterShown(f: RegisterForm) {
    f.password != ""
  }

  // ---- Validation ----------------------------------------------------------

  const NameRequired: string := "Name is required"
  const NameTooShort: string := "Name must be at least 2 characters"
  const PasswordRequired: string := "Password is required"
  const PasswordTooShort: string := "Password must be at least 6 characters"
  const ConfirmRequired: string := "Please confirm your password"
  const Mismatch: string := "Passwords do not match"

  /** `validateForm`: the message of each failing field. */
  function Validate(f: RegisterForm): (errs: FormErrors.Errors)
    ensures errs.Keys <= {"name", "email", "password", "confirmPassword"}
    ensures "name" in errs <==> |f.name| < 2
    ensures "email" in errs <==> EmailPattern.EmailError(f.email).Some?
    ensures "password" in errs <==> |f.password| < 6
    ensures "confirmPassword" in errs <==> f.confirmPassword == "" || f.confirmPassword != f.password
  {
    var e0: FormErrors.Errors := map[];
    var e1 := FormErrors.Flag(e0, |f.name| < 2, "name", if f.name == "" then NameRequired else NameTooShort);
    var e2 := FormErrors.Flag(e1, EmailPattern.EmailError(f.email).Some?, "email",
                EmailPattern.EmailError(f.email).GetOr(""));
    var e3 := FormErrors.Flag(e2, |f.password| < 6, "password",
                if f.password == "" then PasswordRequired else PasswordTooShort);
    FormErrors.Flag(e3, f.confirmPassword == "" || f.confirmPassword != f.password, "confirmPassword",
      if f.confirmPassword == "" then ConfirmRequired else Mismatch)
  }

  /** The messages, each required check taking precedence over the next. */
  lemma Messages(f: RegisterForm)
    ensures f.name == "" ==> Validate(f)["name"] == "Name is required"
    ensures |f.name| == 1 ==> Validate(f)["name"] == "Name must be at least 2 characters"
    ensures f.email == "" ==> Validate(f)["email"] == "Email is required"
    ensures f.email != "" && !EmailPattern.Occurs(f.email) ==> Validate(f)["email"] == "Email is invalid"
    ensures f.password == "" ==> Validate(f)["password"] == "Password is required"
    ensures 1 <= |f.password| < 6 ==> Validate(f)["password"] == "Password must be at least 6 characters"
    ensures f.confirmPassword == "" ==> Validate(f)["confirmPassword"] == "Please confirm your password"
    ensures f.confirmPassword != "" && f.confirmPassword != f.password ==>
              Validate(f)["confirmPassword"] == "Passwords do not match"
  {
  }

  /** The form is valid exactly when the name has two or more characters,
      the e-mail has the pattern, the password six or more characters and
      the confirmation repeats it. */
  lemma ValidIff(f: RegisterForm)
    ensures Validate(f) == map[] <==>
              |f.name| >= 2 && f.email != "" && EmailPattern.Occurs(f.email)
              && |f.password| >= 6 && f.confirmPassword == f.password
  {
    if Validate(f) == map[] {
      assert "name" !in Validate(f) && "email" !in Validate(f);
      assert "password" !in Validate(f) && "confirmPassword" !in Validate(f);
    }
  }

  /** `handleChange`: the field takes the typed value and only its own
      message is dismissed. */
  function HandleChange(p: Page, f: Field, value: string): (r: Page)
    ensures r.errors == FormErrors.Dismiss(p.errors, FieldName(f))
    ensures f == Name ==> r.form == p.form.(name := value)
    ensures f == Email ==> r.form == p.form.(email := value)
    ensures f == Password ==> r.form == p.form.(password := value)
    ensures f == ConfirmPassword ==> r.form == p.form.(confirmPassword := value)
  {
    var form := match f
      case Name => p.form.(name := value)
      case Email => p.form.(email := value)
      case Password => p.form.(password := value)
      case ConfirmPassword => p.form.(confirmPassword := value);
    Page(form, FormErrors.Dismiss(p.errors, FieldName(f)))
  }

  /** Editing a field leaves the other fields' messages as they were. */
  lemma EditKeepsOtherMessages(p: Page, f: Field, g: Field, value: string)
    requires f != g
    ensures FormErrors.Showing(HandleChange(p, f, value).errors, FieldName(g)) <==>
              FormErrors.Showing(p.errors, FieldName(g))
  {
    FormErrors.DismissShowing(p.errors, FieldName(f), FieldName(g));
  }

  /** `handleSubmit`: the messages are replaced by a fresh validation, and
      name, e-mail and password are sent only when there is none. */
  function Submit(p: Page): (r: (Page, Option<(string, string, string)>))
    ensures r.0 == p.(errors := Validate(p.form))
    ensures r.1.Some? <==> Validate(p.form) == map[]
    ensures r.1.Some? ==> r.1.value == (p.form.name, p.form.email, p.form.password)
  {
    var errs := Validate(p.form);
    (p.(errors := errs), if errs == map[] then Some((p.form.name, p.form.email, p.form.password)) else None)
  }

  /** A password accepted at registration is at least of strength one, so
      the meter never reads below "Very Weak" while the form is sendable. */
  lemma SendableHasMeter(p: Page)
    requires Submit(p).1.Some?
    ensures MeterShown(p.form) && Strength(p.form.password) >= 1
  {
    ValidIff(p.form);
    NonEmptyScores(p.form.password);
  }
}
