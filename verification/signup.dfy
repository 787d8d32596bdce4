/**
 * The sign-up page's own logic: the form record and its change handler, the
 * validation schema (both fields required, the email format, the password
 * rule), the submit handler that validates before it asks the identity
 * provider to create the account, and the one-way loading flag that keeps
 * the form hidden until the session is seen to be signed out.
 *
 * The email-format test belongs to the validation library and the account
 * creation to the identity provider; both are parameters here (`isEmail`,
 * `signup`).
 */
module SignupForm {
  import opened Optional
  import PasswordPolicy
  import Routes
  import Auth

  /** The form record `{ email, password }`. */
  datatype Form = Form(email: string, password: string)

  const InitialForm := Form("", "")

  /** The form's change handler: the input's `name` selects the field that
      takes the input's `value`. Only the two inputs of the form carry a name;
      a change from anything else leaves both fields as they were. */
  function HandleChange(form: Form, name: string, value: string): (r: Form)
    ensures name == "email" ==> r.email == value && r.password == form.password
    ensures name == "password" ==> r.password == value && r.email == form.email
    ensures name != "email" && name != "password" ==> r == form
  {
    if name == "email" then form.(email := value)
    else if name == "password" then form.(password := value)
    else form
  }

  /** Of two changes to one field, the later one wins. */
  lemma LastChangeWins(form: Form, name: string, first: string, second: string)
    ensures HandleChange(HandleChange(form, name, first), name, second) == HandleChange(form, name, second)
  {
  }

  /** Changes to different fields do not interfere, in either order. */
  lemma ChangesCommute(form: Form, a: string, x: string, b: string, y: string)
    requires a != b
    ensures HandleChange(HandleChange(form, a, x), b, y) == HandleChange(HandleChange(form, b, y), a, x)
  {
  }

  /** Writing a field's current value back changes nothing. */
  lemma ChangeToSameValue(form: Form)
    ensures HandleChange(form, "email", form.email) == form
    ensures HandleChange(form, "password", form.password) == form
  {
  }

  const EmailRequired := "Email is required"
  const EmailInvalid := "Enter a valid email address"
  const PasswordRequired := "Password is required"
  const PasswordInvalid := "Enter a valid Password"

  /** The email field's messages: `required` rejects the empty string, and the
      format test skips the empty string and otherwise defers to `isEmail`. */
  function EmailErrors(email: string, isEmail: string -> bool): seq<string> {
    if email == "" then [EmailRequired]
    else if isEmail(email) then []
    else [EmailInvalid]
  }

  /** The password field's messages: `required` rejects the empty string, and
      the pattern test runs on every value, the empty one included. */
  function PasswordErrors(password: string): seq<string> {
    (if password == "" then [PasswordRequired] else [])
    + (if PasswordPolicy.RegexMatches(password) then [] else [PasswordInvalid])
  }

  /** What validation produces: the accepted form, or every message
      collected. */
  datatype Validation = Valid(form: Form) | Invalid(errors: seq<string>)

  /** Validation with every test run (`abortEarly: false`): the form itself
      when both fields pass, otherwise every message collected. */
  function Validate(form: Form, isEmail: string -> bool): (r: Validation)
    ensures r.Valid? <==> form.email != "" && isEmail(form.email) && PasswordPolicy.RegexMatches(form.password)
    ensures r.Valid? ==> r.form == form
    ensures r.Invalid? ==> |r.errors| > 0 && forall i :: 0 <= i < |r.errors| ==> r.errors[i] != ""
    ensures r.Invalid? ==> forall m :: m in r.errors ==> m in [EmailRequired, EmailInvalid, PasswordRequired, PasswordInvalid]
  {
    var errors := EmailErrors(form.email, isEmail) + PasswordErrors(form.password);
    if errors == [] then Valid(form) else Invalid(errors)
  }

  /** Each message is reported exactly when its condition holds. */
  lemma ValidationMessages(form: Form, isEmail: string -> bool)
    ensures var r := Validate(form, isEmail);
      && (form.email == "" <==> r.Invalid? && EmailRequired in r.errors)
      && (form.email != "" && !isEmail(form.email) <==> r.Invalid? && EmailInvalid in r.errors)
      && (form.password == "" <==> r.Invalid? && PasswordRequired in r.errors)
      && (!PasswordPolicy.RegexMatches(form.password) <==> r.Invalid? && PasswordInvalid in r.errors)
  {
  }

  /** An empty email is rejected with "Email is required", and with no
      complaint about its format. */
  lemma EmptyEmailRejected(form: Form, isEmail: string -> bool)
    requires form.email == ""
    ensures Validate(form, isEmail).Invalid?
    ensures EmailRequired in Validate(form, isEmail).errors
    ensures EmailInvalid !in Validate(form, isEmail).errors
  {
    ValidationMessages(form, isEmail);
  }

  /** An empty password is rejected with "Password is required". */
  lemma EmptyPasswordRejected(form: Form, isEmail: string -> bool)
    requires form.password == ""
    ensures Validate(form, isEmail).Invalid?
    ensures PasswordRequired in Validate(form, isEmail).errors
  {
    ValidationMessages(form, isEmail);
  }

  /** Submitting the form as it starts, with both fields empty, reports both
      "required" messages and never reaches `signup`. */
  lemma InitialFormRejected(isEmail: string -> bool, signup: Form -> SignupReply)
    ensures Validate(InitialForm, isEmail).Invalid?
    ensures EmailRequired in Validate(InitialForm, isEmail).errors
    ensures PasswordRequired in Validate(InitialForm, isEmail).errors
    ensures HandleSubmit(InitialForm, isEmail, signup).signupCalledWith == Nothing
    ensures HandleSubmitAsWritten(InitialForm, isEmail, signup).signupCalledWith == Nothing
  {
    EmptyEmailRejected(InitialForm, isEmail);
    EmptyPasswordRejected(InitialForm, isEmail);
  }

  /** What `signup` can do: resolve to a user or to nothing, or reject. */
  datatype SignupReply = Resolved(user: Maybe<Auth.User>) | Rejected(error: Thrown)

  /** A thrown error as the catch block sees it: validation errors carry the
      list of messages in `errors`; other errors have no `errors` at all. */
  datatype Thrown = Thrown(errors: Maybe<seq<string>>, message: string)

  datatype Toast = SuccessToast(text: string) | ErrorToast(text: string)

  const Registered := "Registration successfull"
  const SignupFailed := "Something went wrong while signing up"

  /** The decimal digits of `n`. */
  function Decimal(n: nat): string
    decreases n
  {
    var d := "0123456789"[n % 10];
    if n < 10 then [d] else Decimal(n / 10) + [d]
  }

  /** The message of the validation library's error: the only message, or a
      count. */
  function ValidationSummary(errors: seq<string>): string {
    if |errors| == 1 then errors[0] else Decimal(|errors|) + " errors occurred"
  }

  /** How the `try` block ends: normally, with the signup call made (or not),
      a navigation (or not) and a toast; or by throwing. */
  datatype Attempt =
    | Completed(calledWith: Maybe<Form>, navigateTo: Maybe<Routes.Path>, toast: Toast)
    | Threw(calledWith: Maybe<Form>, error: Thrown)

  function TryBlock(form: Form, isEmail: string -> bool, signup: Form -> SignupReply): Attempt {
    match Validate(form, isEmail)
    case Invalid(errors) => Threw(Nothing, Thrown(Just(errors), ValidationSummary(errors)))
    case Valid(valid) =>
      match signup(valid)
      case Rejected(error) => Threw(Just(valid), error)
      case Resolved(Just(_)) => Completed(Just(valid), Just(Routes.LoginPath), SuccessToast(Registered))
      case Resolved(Nothing) => Completed(Just(valid), Nothing, ErrorToast(SignupFailed))
  }

  /** Everything one submit does: the argument `signup` was called with, if
      it was called, where the page navigates, the toast shown, and whether
      an error escaped the handler. */
  datatype Submission = Submission(
    signupCalledWith: Maybe<Form>,
    navigateTo: Maybe<Routes.Path>,
    toast: Maybe<Toast>,
    escaped: bool)

  /** The catch block as written: it indexes `errors` without checking it
      exists, so an error without `errors` makes the catch block itself
      throw (`Nothing`); otherwise the first message, or the error's own
      message when that first one is missing or empty. */
  function CatchAsWritten(e: Thrown): (r: Maybe<string>)
    ensures r.Nothing? <==> e.errors.Nothing?
    ensures e.errors.Just? && |e.errors.value| > 0 && e.errors.value[0] != "" ==> r == Just(e.errors.value[0])
    ensures e.errors.Just? && (|e.errors.value| == 0 || e.errors.value[0] == "") ==> r == Just(e.message)
  {
    match e.errors
    case Nothing => Nothing
    case Just(errors) => Just(if |errors| > 0 && errors[0] != "" then errors[0] else e.message)
  }

  /** The catch block as evidently intended: the first message when there is
      one, the error's own message otherwise. */
  function Catch(e: Thrown): (text: string)
    ensures CatchAsWritten(e).Just? ==> text == CatchAsWritten(e).value
    ensures e.errors.Nothing? ==> text == e.message
  {
    match e.errors
    case Nothing => e.message
    case Just(errors) => if |errors| > 0 && errors[0] != "" then errors[0] else e.message
  }

  /** The submit handler as written: validation still comes first, `signup`
      is called only with a valid form and only a returned user leads on to
      `/login`; but when `signup` rejects with an error that has no `errors`
      list, no toast is shown and the error escapes the handler. */
  function HandleSubmitAsWritten(form: Form, isEmail: string -> bool, signup: Form -> SignupReply): (r: Submission)
    ensures r.signupCalledWith.Just? <==> Validate(form, isEmail).Valid?
    ensures r.signupCalledWith.Just? ==> r.signupCalledWith.value == form
    ensures r.navigateTo.Just? <==>
      Validate(form, isEmail).Valid? && signup(form).Resolved? && signup(form).user.Just?
    ensures r.navigateTo.Just? ==> r.navigateTo.value == Routes.LoginPath && r.toast == Just(SuccessToast(Registered))
    ensures Validate(form, isEmail).Invalid? ==>
      r.toast.Just? && r.toast.value.ErrorToast? && r.toast.value.text in Validate(form, isEmail).errors
    ensures r.escaped <==>
      Validate(form, isEmail).Valid? && signup(form).Rejected? && signup(form).error.errors.Nothing?
    ensures r.escaped <==> r.toast.Nothing?
  {
    match TryBlock(form, isEmail, signup)
    case Completed(calledWith, navigateTo, toast) => Submission(calledWith, navigateTo, Just(toast), false)
    case Threw(calledWith, error) =>
      match CatchAsWritten(error)
      case Just(text) => Submission(calledWith, Nothing, Just(ErrorToast(text)), false)
      case Nothing => Submission(calledWith, Nothing, Nothing, true)
  }

  /** The submit handler with the catch block corrected: validation comes
      first and `signup` is called only with a valid form; only a returned
      user leads on to `/login`; every failure is reported by an error toast
      and nothing escapes. */
  function HandleSubmit(form: Form, isEmail: string -> bool, signup: Form -> SignupReply): (r: Submission)
    ensures r.signupCalledWith.Just? <==> Validate(form, isEmail).Valid?
    ensures r.signupCalledWith.Just? ==> r.signupCalledWith.value == form
    ensures r.navigateTo.Just? <==>
      Validate(form, isEmail).Valid? && signup(form).Resolved? && signup(form).user.Just?
    ensures r.navigateTo.Just? ==> r.navigateTo.value == Routes.LoginPath && r.toast == Just(SuccessToast(Registered))
    ensures Validate(form, isEmail).Invalid? ==>
      r.toast.Just? && r.toast.value.ErrorToast? && r.toast.value.text in Validate(form, isEmail).errors
    ensures Validate(form, isEmail).Valid? && signup(form) == Resolved(Nothing) ==>
      r.toast == Just(ErrorToast(SignupFailed))
    ensures Validate(form, isEmail).Valid? && signup(form).Rejected? ==>
      r.toast == Just(ErrorToast(Catch(signup(form).error)))
    ensures r.toast.Just? && !r.escaped
  {
    match TryBlock(form, isEmail, signup)
    case Completed(calledWith, navigateTo, toast) => Submission(calledWith, navigateTo, Just(toast), false)
    case Threw(calledWith, error) => Submission(calledWith, Nothing, Just(ErrorToast(Catch(error))), false)
  }

  /** The two handlers differ only when `signup` rejects with an error that
      has no `errors` list. */
  lemma SubmitAgreesExceptOnProviderError(form: Form, isEmail: string -> bool, signup: Form -> SignupReply)
    ensures HandleSubmitAsWritten(form, isEmail, signup) != HandleSubmit(form, isEmail, signup) <==>
      Validate(form, isEmail).Valid? && signup(form).Rejected? && signup(form).error.errors.Nothing?
  {
  }

  /** A password the rule accepts, spelled out. */
  lemma SamplePasswordAccepted()
    ensures PasswordPolicy.RegexMatches("Passw0rd!")
  {
    var s := "Passw0rd!";
    assert PasswordPolicy.InClass(s[1], PasswordPolicy.Lower);
    assert PasswordPolicy.InClass(s[0], PasswordPolicy.Upper);
    assert PasswordPolicy.InClass(s[5], PasswordPolicy.Digit);
    assert PasswordPolicy.InClass(s[8], PasswordPolicy.Special);
    assert PasswordPolicy.Acceptable(s);
    PasswordPolicy.RegexMeaning(s);
  }

  /** The input that shows the catch-block fault: a valid form whose account
      creation is rejected by the provider (an error with a message but no
      `errors` list) ends with no toast and an error escaping the handler,
      where the corrected handler shows the provider's message. */
  lemma ProviderRejectionEscapes()
    ensures var form := Form("reader@example.com", "Passw0rd!");
      var isEmail := (e: string) => e == "reader@example.com";
      var signup := (f: Form) => Rejected(Thrown(Nothing, "auth/email-already-in-use"));
      && HandleSubmitAsWritten(form, isEmail, signup) == Submission(Just(form), Nothing, Nothing, true)
      && HandleSubmit(form, isEmail, signup) ==
           Submission(Just(form), Nothing, Just(ErrorToast("auth/email-already-in-use")), false)
  {
    SamplePasswordAccepted();
  }

  /** What the page shows: the spinner while loading, the form afterwards. */
  datatype View = Spinner | SignupPage

  function ViewOf(isLoading: bool): View {
    if isLoading then Spinner else SignupPage
  }

  /** The loading effect, run with the session status: a falsy status clears
      the flag, a truthy one leaves it as it was, and nothing ever sets it
      again. */
  function LoadingEffect(isLoading: bool, status: bool): (r: bool)
    ensures r ==> isLoading
    ensures !status ==> !r
    ensures status ==> r == isLoading
  {
    if !status then false else isLoading
  }

  /** The loading flag after the effect has run on each status in `seen`,
      in order, starting from `true`. */
  function LoadingAfter(seen: seq<bool>): (r: bool)
    ensures r ==> forall i :: 0 <= i < |seen| ==> seen[i]
    decreases |seen|
  {
    if seen == [] then true
    else LoadingEffect(LoadingAfter(seen[..|seen| - 1]), seen[|seen| - 1])
  }

  /** The flag is cleared exactly when a falsy status has been seen. */
  lemma {:induction false} LoadingClearsOnFalsyStatus(seen: seq<bool>)
    ensures !LoadingAfter(seen) <==> exists i :: 0 <= i < |seen| && !seen[i]
  {
    if seen != [] {
      var prefix := seen[..|seen| - 1];
      LoadingClearsOnFalsyStatus(prefix);
      if exists i :: 0 <= i < |prefix| && !prefix[i] {
        var i :| 0 <= i < |prefix| && !prefix[i];
        assert seen[i] == prefix[i];
      }
      if exists i :: 0 <= i < |seen| && !seen[i] {
        var i :| 0 <= i < |seen| && !seen[i];
        if i < |prefix| { assert prefix[i] == seen[i]; }
      }
    }
  }

  /** Once cleared, the flag stays cleared whatever statuses follow. */
  lemma LoadingNeverReturns(seen: seq<bool>, later: seq<bool>)
    requires !LoadingAfter(seen)
    ensures !LoadingAfter(seen + later)
  {
    LoadingClearsOnFalsyStatus(seen);
    var i :| 0 <= i < |seen| && !seen[i];
    assert (seen + later)[i] == seen[i];
    LoadingClearsOnFalsyStatus(seen + later);
  }

  /** The form is on screen exactly when a signed-out status has been seen;
      before any status has been seen the spinner shows. */
  lemma FormShownAfterSignedOut(seen: seq<bool>)
    ensures ViewOf(LoadingAfter(seen)) == SignupPage <==> exists i :: 0 <= i < |seen| && !seen[i]
    ensures ViewOf(LoadingAfter([])) == Spinner
  {
    LoadingClearsOnFalsyStatus(seen);
  }
}
