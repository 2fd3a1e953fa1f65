/**
  The signup page: a four-field form, an `isLoading` flag and an error line.
  Submitting validates the passwords locally, then calls the backend's
  `auth.signUp`, then (when a user comes back) inserts a `profiles` row and
  navigates to the dashboard. The backend's answers are inputs here.
 */
module Signup {
  import opened Options
  import opened JsLength

  /** The form's four inputs, identified by their `name` attributes. */
  datatype Field = Name | Email | Password | ConfirmPassword

  /** The form data the page keeps. */
  datatype Form = Form(name: string, email: string, password: string, confirmPassword: string)

  /** `form[field]`. */
  function FieldValue(f: Form, field: Field): string {
    match field
    case Name => f.name
    case Email => f.email
    case Password => f.password
    case ConfirmPassword => f.confirmPassword
  }

  /** `handleChange`: the named field takes the typed value and the other
      three keep theirs. */
  function HandleChange(f: Form, field: Field, value: string): (r: Form)
    ensures FieldValue(r, field) == value
    ensures forall g :: g != field ==> FieldValue(r, g) == FieldValue(f, g)
  {
    match field
    case Name => f.(name := value)
    case Email => f.(email := value)
    case Password => f.(password := value)
    case ConfirmPassword => f.(confirmPassword := value)
  }

  /** Two forms with the same value in every field are the same form, so the
      contract of `HandleChange` determines its result completely. */
  lemma FormExtensional(a: Form, b: Form)
    requires forall g :: FieldValue(a, g) == FieldValue(b, g)
    ensures a == b
  {
    assert FieldValue(a, Name) == FieldValue(b, Name);
    assert FieldValue(a, Email) == FieldValue(b, Email);
    assert FieldValue(a, Password) == FieldValue(b, Password);
    assert FieldValue(a, ConfirmPassword) == FieldValue(b, ConfirmPassword);
  }

  /** Typing into a field twice keeps only the second value, and typing into
      two different fields gives the same form in either order. */
  lemma HandleChangeLastWriteWins(f: Form, x: Field, y: Field, a: string, b: string)
    ensures HandleChange(HandleChange(f, x, a), x, b) == HandleChange(f, x, b)
    ensures x != y ==>
      HandleChange(HandleChange(f, x, a), y, b) == HandleChange(HandleChange(f, y, b), x, a)
  {
    var r1 := HandleChange(HandleChange(f, x, a), x, b);
    FormExtensional(r1, HandleChange(f, x, b));
    if x != y {
      var r2 := HandleChange(HandleChange(f, x, a), y, b);
      var r3 := HandleChange(HandleChange(f, y, b), x, a);
      FormExtensional(r2, r3);
    }
  }

  const MismatchMessage: string := "Passwords don't match!"
  const TooShortMessage: string := "Password must be at least 6 characters long."
  const UnexpectedMessage: string := "An unexpected error occurred. Please try again."

  /** The least password length accepted, in UTF-16 code units. */
  const MinPasswordLength: nat := 6

  /** Where a successful signup goes. */
  const DashboardRoute: string := "/dashboard"

  /** The local checks, in order: a mismatch is reported first, then a short
      password; `None` means the form may be sent. Validation passes exactly
      when the passwords match and the password has at least six code units. */
  function Validate(f: Form): (r: Option<string>)
    ensures r == Some(MismatchMessage) <==> f.password != f.confirmPassword
    ensures r == Some(TooShortMessage) <==>
      f.password == f.confirmPassword && Utf16Length(f.password) < MinPasswordLength
    ensures r.None? <==>
      f.password == f.confirmPassword && Utf16Length(f.password) >= MinPasswordLength
  {
    if f.password != f.confirmPassword then Some(MismatchMessage)
    else if Utf16Length(f.password) < MinPasswordLength then Some(TooShortMessage)
    else None
  }

  /** When both checks fail, the mismatch is the one reported. */
  lemma MismatchTakesPrecedence(f: Form)
    requires f.password != f.confirmPassword
    requires Utf16Length(f.password) < MinPasswordLength
    ensures Validate(f) == Some(MismatchMessage)
  {
  }

  /** Length counts UTF-16 code units, not characters: three characters from
      outside the Basic Multilingual Plane (emoji, say) make a password long
      enough. */
  lemma AstralPasswordLongEnough(c: char)
    requires c as int >= 0x1_0000
    ensures Validate(Form("", "", [c, c, c], [c, c, c])).None?
  {
    var p := [c, c, c];
    assert p[1..][1..][1..] == [];
    assert Utf16Length(p) == 6;
  }

  /** A user as `auth.signUp` returns it. */
  datatype User = User(id: string)

  /** The credentials sent to `auth.signUp`, with the name as `full_name` in
      the user metadata. */
  datatype SignUpRequest = SignUpRequest(email: string, password: string, fullName: string)

  /** What `auth.signUp` does: resolve to `{ data: { user }, error }`, where
      `error` carries its message, or throw. */
  datatype AuthResult =
    | AuthResolved(user: Option<User>, error: Option<string>)
    | AuthThrew

  /** The row inserted into `profiles`. */
  datatype ProfileRow = ProfileRow(id: string, email: string, fullName: string)

  /** What the `profiles` insert does: resolve to `{ error }`, or throw. */
  datatype ProfileResult =
    | ProfileResolved(error: Option<string>)
    | ProfileThrew

  /** The page's state around a submit. */
  datatype SignupState = SignupState(form: Form, isLoading: bool, error: string)

  /** What one submit does: the calls made, the resulting state and the
      navigation, if any. */
  datatype SubmitOutcome = SubmitOutcome(
    signUp: Option<SignUpRequest>,
    profile: Option<ProfileRow>,
    state: SignupState,
    navigateTo: Option<string>)

  /** The three ways a submit can end. */
  datatype Ending = ErrorShown(message: string) | Navigated | Stayed

  /** How an outcome presents itself: navigation wins, then a non-empty error. */
  function EndingOf(o: SubmitOutcome): Ending {
    if o.navigateTo.Some? then Navigated
    else if o.state.error != [] then ErrorShown(o.state.error)
    else Stayed
  }

  /** `handleSignup`. */
  function Submit(s: SignupState, auth: AuthResult, profile: ProfileResult): (o: SubmitOutcome)
    // the form is never touched by a submit
    ensures o.state.form == s.form
    // local validation: no call at all unless the form validates
    ensures o.signUp.Some? <==> Validate(s.form).None?
    ensures Validate(s.form).Some? ==>
      && o.state.error == Validate(s.form).value
      && o.state.isLoading == s.isLoading
      && o.profile.None? && o.navigateTo.None?
    ensures o.signUp.Some? ==>
      o.signUp.value == SignUpRequest(s.form.email, s.form.password, s.form.name)
    // once the backend was called, loading is over whatever happened
    ensures o.signUp.Some? ==> !o.state.isLoading
    // an auth error is shown as is, and nothing else happens
    ensures o.signUp.Some? && auth.AuthResolved? && auth.error.Some? ==>
      o.state.error == auth.error.value && o.profile.None? && o.navigateTo.None?
    // a thrown call ends in the generic message, with no navigation
    ensures o.signUp.Some? && (auth.AuthThrew? || (o.profile.Some? && profile.ProfileThrew?)) ==>
      o.state.error == UnexpectedMessage && o.navigateTo.None?
    // a returned user gets a profile row, whatever the profile insert does next
    ensures o.profile.Some? <==>
      o.signUp.Some? && auth.AuthResolved? && auth.error.None? && auth.user.Some?
    ensures o.profile.Some? ==>
      o.profile.value == ProfileRow(auth.user.value.id, s.form.email, s.form.name)
    // navigation happens exactly when a user came back and the profile insert
    // did not throw, even if it reported an error; the error line is then empty
    ensures o.navigateTo.Some? <==> o.profile.Some? && profile.ProfileResolved?
    ensures o.navigateTo.Some? ==> o.navigateTo.value == DashboardRoute && o.state.error == []
  {
    var cleared := s.(error := "");
    match Validate(s.form)
    case Some(message) => SubmitOutcome(None, None, cleared.(error := message), None)
    case None =>
      var request := SignUpRequest(s.form.email, s.form.password, s.form.name);
      var done := cleared.(isLoading := false);
      match auth
      case AuthThrew => SubmitOutcome(Some(request), None, done.(error := UnexpectedMessage), None)
      case AuthResolved(user, error) =>
        if error.Some? then SubmitOutcome(Some(request), None, done.(error := error.value), None)
        else if user.None? then SubmitOutcome(Some(request), None, done, None)
        else
          var row := ProfileRow(user.value.id, s.form.email, s.form.name);
          match profile
          case ProfileThrew => SubmitOutcome(Some(request), Some(row), done.(error := UnexpectedMessage), None)
          case ProfileResolved(_) => SubmitOutcome(Some(request), Some(row), done, Some(DashboardRoute))
  }

  /** Each submit starts by clearing the error line: what was shown before
      has no influence on the outcome. */
  lemma SubmitIgnoresStaleError(s: SignupState, stale: string, auth: AuthResult, profile: ProfileResult)
    ensures Submit(s.(error := stale), auth, profile) == Submit(s, auth, profile)
  {
  }

  /** The submit button is disabled while loading, so a submit starts with
      `isLoading` false, and then it is false again once the submit ends,
      whichever way it ends. */
  lemma SubmitEndsNotLoading(s: SignupState, auth: AuthResult, profile: ProfileResult)
    requires !s.isLoading
    ensures !Submit(s, auth, profile).state.isLoading
  {
  }

  /** The three endings, classified by their causes: a failed validation or
      an auth error shows its message; a thrown call shows the generic
      message; a returned user leads to the dashboard unless the profile
      insert threw; a resolved signup without user and without error stays
      on the page with an empty error line. */
  lemma SubmitEndings(s: SignupState, auth: AuthResult, profile: ProfileResult)
    ensures var e := EndingOf(Submit(s, auth, profile));
      match Validate(s.form)
      case Some(m) => e == ErrorShown(m)
      case None =>
        match auth
        case AuthThrew => e == ErrorShown(UnexpectedMessage)
        case AuthResolved(user, error) =>
          if error.Some? then
            e == (if error.value == [] then Stayed else ErrorShown(error.value))
          else if user.None? then e == Stayed
          else if profile.ProfileThrew? then e == ErrorShown(UnexpectedMessage)
          else e == Navigated
  {
  }
}
