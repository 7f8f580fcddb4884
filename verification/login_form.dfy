/** The login screen's form rules: validation, the field error messages and the two
    ways of calling the store's `login`. */
module LoginForm {
  import opened Text
  import AuthStore
  import opened Wrappers

  datatype Touched = Touched(email: bool, password: bool)

  /** The outcome of `validateForm`: the touched flags it sets and its verdict. */
  datatype Validation = Validation(touched: Touched, valid: bool)

  /** `validateForm`: both fields marked touched; valid when neither is blank after trimming. */
  function ValidateForm(email: string, password: string): (r: Validation)
    ensures r.touched == Touched(true, true)
    ensures r.valid <==> !IsBlank(email) && !IsBlank(password)
  {
    TrimEmptyIffBlank(email);
    TrimEmptyIffBlank(password);
    Validation(Touched(true, true), Trim(email) != "" && Trim(password) != "")
  }

  /** The message under the email field. */
  function EmailError(t: Touched, email: string): (msg: string)
    ensures msg != "" <==> t.email && IsBlank(email)
    ensures msg != "" ==> msg == "Email is required"
  {
    TrimEmptyIffBlank(email);
    if t.email && Trim(email) == "" then "Email is required" else ""
  }

  /** The message under the password field. */
  function PasswordError(t: Touched, password: string): (msg: string)
    ensures msg != "" <==> t.password && IsBlank(password)
    ensures msg != "" ==> msg == "Password is required"
  {
    TrimEmptyIffBlank(password);
    if t.password && Trim(password) == "" then "Password is required" else ""
  }

  /** The screen after pressing a login button: touched flags, the two fields and the store. */
  datatype LoginPress = LoginPress(touched: Touched, email: string, password: string, auth: AuthStore.State)

  /** `handleLogin`: the store's `login` runs only when validation passes. */
  function HandleLogin(t: Touched, email: string, password: string, auth: AuthStore.State): (r: LoginPress)
    ensures r.touched == Touched(true, true) && r.email == email && r.password == password
    ensures !IsBlank(email) && !IsBlank(password) ==> r.auth == AuthStore.Login(auth, email, password)
    ensures IsBlank(email) || IsBlank(password) ==> r.auth == auth
  {
    var v := ValidateForm(email, password);
    LoginPress(v.touched, email, password, if v.valid then AuthStore.Login(auth, email, password) else auth)
  }

  /** `handleDemoLogin`: the fields are filled with the demo credentials, which are
      submitted without validation (the touched flags are left alone). */
  function HandleDemoLogin(t: Touched, auth: AuthStore.State): (r: LoginPress)
    ensures r.touched == t
    ensures r.email == AuthStore.DemoEmail && r.password == AuthStore.DemoPassword
    ensures r.auth == AuthStore.Login(auth, AuthStore.DemoEmail, AuthStore.DemoPassword)
  {
    LoginPress(t, AuthStore.DemoEmail, AuthStore.DemoPassword,
               AuthStore.Login(auth, AuthStore.DemoEmail, AuthStore.DemoPassword))
  }

  /** The demo button always signs the demo user in, from any store state. */
  lemma DemoLoginSignsIn(t: Touched, auth: AuthStore.State)
    ensures var r := HandleDemoLogin(t, auth).auth;
      r.isAuthenticated && r.userId == Some(AuthStore.DemoUserId) && r.name == Some(AuthStore.DemoName)
      && r.error.None? && !r.isLoading
  {
  }

  /** A press that leaves the store untouched always shows a field error. */
  lemma BlockedPressShowsError(t: Touched, email: string, password: string, auth: AuthStore.State)
    requires IsBlank(email) || IsBlank(password)
    ensures var r := HandleLogin(t, email, password, auth);
      r.auth == auth && (EmailError(r.touched, email) != "" || PasswordError(r.touched, password) != "")
  {
  }
}
