/** The sign-in form: validation of e-mail and password, dismissing a
    message on edit, and sending the credentials only when both are valid. */
module LoginPage {
  import opened Wrappers
  import FormErrors
  import EmailPattern
  import RegisterPage

  datatype LoginForm = LoginForm(email: string, password: string)

  datatype Field = Email | Password

  function FieldName(f: Field): string {
    match f
    case Email => "email"
    case Password => "password"
  }

  datatype Page = Page(form: LoginForm, errors: FormErrors.Errors)

  const InitialPage := Page(LoginForm("", ""), map[])

  /** `validateForm`: the e-mail as at registration; the password only has
      to be present. */
  function Validate(f: LoginForm): (errs: FormErrors.Errors)
    ensures errs.Keys <= {"email", "password"}
    ensures "email" in errs <==> EmailPattern.EmailError(f.email).Some?
    ensures "email" in errs ==> errs["email"] == EmailPattern.EmailError(f.email).value
    ensures "password" in errs <==> f.password == ""
    ensures "password" in errs ==> errs["password"] == "Password is required"
  {
    var e1 := FormErrors.Flag(map[], EmailPattern.EmailError(f.email).Some?, "email",
                EmailPattern.EmailError(f.email).GetOr(""));
    FormErrors.Flag(e1, f.password == "", "password", "Password is required")
  }

  /** The form is valid exactly when the e-mail has the pattern and a
      password is typed; no length is asked for. */
  lemma ValidIff(f: LoginForm)
    ensures Validate(f) == map[] <==> f.email != "" && EmailPattern.Occurs(f.email) && f.password != ""
  {
    if Validate(f) == map[] {
      assert "email" !in Validate(f) && "password" !in Validate(f);
    }
  }

  /** Credentials accepted by the registration form are accepted here. */
  lemma RegisteredCredentialsPass(r: RegisterPage.RegisterForm)
    requires RegisterPage.Validate(r) == map[]
    ensures Validate(LoginForm(r.email, r.password)) == map[]
  {
    RegisterPage.ValidIff(r);
    ValidIff(LoginForm(r.email, r.password));
  }

  /** `handleChange`. */
  function HandleChange(p: Page, f: Field, value: string): (r: Page)
    ensures r.errors == FormErrors.Dismiss(p.errors, FieldName(f))
    ensures f == Email ==> r.form == p.form.(email := value)
    ensures f == Password ==> r.form == p.form.(password := value)
  {
    var form := if f == Email then p.form.(email := value) else p.form.(password := value);
    Page(form, FormErrors.Dismiss(p.errors, FieldName(f)))
  }

  /** Editing one field leaves the other's message as it was. */
  lemma EditKeepsOtherMessage(p: Page, f: Field, value: string)
    ensures var g := if f == Email then Password else Email;
            FormErrors.Showing(HandleChange(p, f, value).errors, FieldName(g)) <==>
              FormErrors.Showing(p.errors, FieldName(g))
  {
    var g := if f == Email then Password else Email;
    FormErrors.DismissShowing(p.errors, FieldName(f), FieldName(g));
  }

  /** `handleSubmit`: a fresh validation, and the credentials sent only when
      it finds nothing. */
  function Submit(p: Page): (r: (Page, Option<(string, string)>))
    ensures r.0 == p.(errors := Validate(p.form))
    ensures r.1.Some? <==> Validate(p.form) == map[]
    ensures r.1.Some? ==> r.1.value == (p.form.email, p.form.password)
  {
    var errs := Validate(p.form);
    (p.(errors := errs), if errs == map[] then Some((p.form.email, p.form.password)) else None)
  }

  /** An untouched form sends nothing and shows both required messages. */
  lemma EmptyFormNotSent()
    ensures Submit(InitialPage).1.None?
    ensures Submit(InitialPage).0.errors == map["email" := "Email is required", "password" := "Password is required"]
  {
  }
}
