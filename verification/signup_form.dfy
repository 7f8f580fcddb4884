/** The sign-up screen's form rules: field validation, the per-field error messages and
    the gate in front of the store's `signup`. */
module SignupForm {
  import opened Text
  import AuthStore

  datatype Fields = Fields(name: string, email: string, password: string, confirmPassword: string)
  datatype Touched = Touched(name: bool, email: bool, password: bool, confirmPassword: bool)

  const Untouched := Touched(false, false, false, false)
  const AllTouched := Touched(true, true, true, true)

  /** The minimum the password message asks for. */
  const MinPasswordLength := 6

  /** The outcome of `validateForm`: the touched flags it sets and its verdict. */
  datatype Validation = Validation(touched: Touched, valid: bool)

  /** `validateForm`: every field is marked touched; the form is valid when name, email and
      password are not blank after trimming and the confirmation equals the password
      exactly. The minimum password length is not checked here. */
  function ValidateForm(f: Fields): (r: Validation)
    ensures r.touched == AllTouched
    ensures r.valid <==> !IsBlank(f.name) && !IsBlank(f.email) && !IsBlank(f.password)
                         && f.password == f.confirmPassword
  {
    TrimEmptyIffBlank(f.name);
    TrimEmptyIffBlank(f.email);
    TrimEmptyIffBlank(f.password);
    var valid :=
      if Trim(f.name) == "" then false
      else if Trim(f.email) == "" then false
      else if Trim(f.password) == "" then false
      else if f.password != f.confirmPassword then false
      else true;
    Validation(AllTouched, valid)
  }

  /** The message under the name field. */
  function NameError(t: Touched, f: Fields): (msg: string)
    ensures msg != "" <==> t.name && IsBlank(f.name)
    ensures msg != "" ==> msg == "Name is required"
  {
    TrimEmptyIffBlank(f.name);
    if t.name && Trim(f.name) == "" then "Name is required" else ""
  }

  /** The message under the email field. */
  function EmailError(t: Touched, f: Fields): (msg: string)
    ensures msg != "" <==> t.email && IsBlank(f.email)
    ensures msg != "" ==> msg == "Email is required"
  {
    TrimEmptyIffBlank(f.email);
    if t.email && Trim(f.email) == "" then "Email is required" else ""
  }

  /** `getPasswordError`: nothing while untouched, then "required" for a blank password,
      then the length message for fewer than six UTF-16 code units (spaces counted). */
  function PasswordError(t: Touched, f: Fields): (msg: string)
    ensures !t.password ==> msg == ""
    ensures t.password && IsBlank(f.password) ==> msg == "Password is required"
    ensures t.password && !IsBlank(f.password) && Utf16Length(f.password) < MinPasswordLength ==>
      msg == "Password must be at least 6 characters"
    ensures t.password && !IsBlank(f.password) && Utf16Length(f.password) >= MinPasswordLength ==> msg == ""
    ensures t.password && !IsBlank(f.password) && |f.password| >= MinPasswordLength ==> msg == ""
  {
    TrimEmptyIffBlank(f.password);
    if !t.password then ""
    else if Trim(f.password) == "" then "Password is required"
    else if Utf16Length(f.password) < MinPasswordLength then "Password must be at least 6 characters"
    else ""
  }

  /** `getConfirmPasswordError`: nothing while untouched, then "confirm" for a blank
      confirmation, then "do not match" for any difference from the password. */
  function ConfirmPasswordError(t: Touched, f: Fields): (msg: string)
    ensures !t.confirmPassword ==> msg == ""
    ensures t.confirmPassword && IsBlank(f.confirmPassword) ==> msg == "Please confirm your password"
    ensures t.confirmPassword && !IsBlank(f.confirmPassword) && f.password != f.confirmPassword ==>
      msg == "Passwords do not match"
    ensures t.confirmPassword && !IsBlank(f.confirmPassword) && f.password == f.confirmPassword ==> msg == ""
  {
    TrimEmptyIffBlank(f.confirmPassword);
    if !t.confirmPassword then ""
    else if Trim(f.confirmPassword) == "" then "Please confirm your password"
    else if f.password != f.confirmPassword then "Passwords do not match"
    else ""
  }

  /** The screen after pressing "Create Account". */
  datatype SignupPress = SignupPress(touched: Touched, auth: AuthStore.State)

  /** `handleSignup`: validation runs first, and the store's `signup` runs only when it
      passes. `roll` is the random number signup draws for the user id. */
  function HandleSignup(f: Fields, auth: AuthStore.State, roll: AuthStore.Roll): (r: SignupPress)
    ensures r.touched == AllTouched
    ensures !IsBlank(f.name) && !IsBlank(f.email) && !IsBlank(f.password) && f.password == f.confirmPassword ==>
      r.auth == AuthStore.Signup(auth, f.name, f.email, f.password, roll)
    ensures IsBlank(f.name) || IsBlank(f.email) || IsBlank(f.password) || f.password != f.confirmPassword ==>
      r.auth == auth
  {
    var v := ValidateForm(f);
    SignupPress(v.touched, if v.valid then AuthStore.Signup(auth, f.name, f.email, f.password, roll) else auth)
  }

  /** After a press on "Create Account" the screen either shows a field error or the user
      is signed in: a failed validation always explains itself. */
  lemma PressExplainsItself(f: Fields, auth: AuthStore.State, roll: AuthStore.Roll)
    ensures var r := HandleSignup(f, auth, roll);
      r.auth.isAuthenticated
      || NameError(r.touched, f) != "" || EmailError(r.touched, f) != ""
      || PasswordError(r.touched, f) != "" || ConfirmPasswordError(r.touched, f) != ""
  {
    if !IsBlank(f.password) && f.password != f.confirmPassword && IsBlank(f.confirmPassword) {
      assert ConfirmPasswordError(AllTouched, f) == "Please confirm your password";
    }
  }

  /** Five characters, one of them outside the Basic Multilingual Plane, make six code
      units: the length message stays away. */
  lemma AstralCharacterCountsTwice()
    ensures var f := Fields("Ann", "ann@example.com", "abcd\U{1F600}", "abcd\U{1F600}");
      |f.password| == 5 && PasswordError(AllTouched, f) == ""
  {
    var f := Fields("Ann", "ann@example.com", "abcd\U{1F600}", "abcd\U{1F600}");
    assert !IsWhitespace(f.password[0]);
    assert Utf16Length(f.password) == 6;
  }

  /** A five-character password that is confirmed passes validation and signs the user
      up, although the password field shows the length message. */
  lemma ShortPasswordAccepted(auth: AuthStore.State, roll: AuthStore.Roll)
    ensures var f := Fields("Ann", "ann@example.com", "abcde", "abcde");
      && ValidateForm(f).valid
      && HandleSignup(f, auth, roll).auth.isAuthenticated
      && PasswordError(AllTouched, f) == "Password must be at least 6 characters"
  {
    var f := Fields("Ann", "ann@example.com", "abcde", "abcde");
    assert !IsWhitespace(f.name[0]) && !IsWhitespace(f.email[0]) && !IsWhitespace(f.password[0]);
    assert Utf16Length(f.password) == 5;
  }
}
