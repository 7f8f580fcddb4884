/** The mock authentication store (`useAuthStore`). Each asynchronous action is modelled
    as one atomic transition from the state before the call to the state after its
    delay; `Begin` is the intermediate state both login and signup pass through. */
module AuthStore {
  import opened Wrappers
  import opened Text

  datatype State = State(
    isAuthenticated: bool,
    userId: Option<string>,
    email: Option<string>,
    name: Option<string>,
    isLoading: bool,
    error: Option<string>)

  const Initial := State(false, None, None, None, false, None)

  /** The only credentials the mock back end accepts, and what it answers with. */
  const DemoEmail := "demo@example.com"
  const DemoPassword := "password"
  const DemoUserId := "user123"
  const DemoName := "Demo User"
  const InvalidCredentials := "Invalid email or password"

  /** The first step of `login` and `signup`: loading, no error, nothing else touched. */
  function Begin(st: State): (r: State)
    ensures r.isLoading && r.error.None?
    ensures r.(isLoading := st.isLoading, error := st.error) == st
  {
    st.(isLoading := true, error := None)
  }

  /** `login`: succeeds exactly for the demo credentials, compared exactly. */
  function Login(st: State, email: string, password: string): (r: State)
    ensures !r.isLoading
    ensures r.error.None? <==> email == DemoEmail && password == DemoPassword
    ensures email == DemoEmail && password == DemoPassword ==>
      r == State(true, Some(DemoUserId), Some(email), Some(DemoName), false, None)
    ensures !(email == DemoEmail && password == DemoPassword) ==>
      r == st.(isLoading := false, error := Some(InvalidCredentials))
  {
    var started := Begin(st);
    if email == DemoEmail && password == DemoPassword then
      started.(isAuthenticated := true, userId := Some(DemoUserId), email := Some(email),
               name := Some(DemoName), isLoading := false)
    else
      started.(isLoading := false, error := Some(InvalidCredentials))
  }

  /** `Math.floor(Math.random() * 1000)`. */
  type Roll = n: nat | n < 1000

  /** `signup`: always succeeds; the user id is "user" followed by the random number. */
  function Signup(st: State, name: string, email: string, password: string, roll: Roll): (r: State)
    ensures r.isAuthenticated && !r.isLoading && r.error.None?
    ensures r.name == Some(name) && r.email == Some(email)
    ensures r.userId.Some? && |r.userId.value| >= 5 && r.userId.value[..4] == "user"
  {
    Begin(st).(isAuthenticated := true, userId := Some("user" + NatToDecimal(roll)),
               email := Some(email), name := Some(name), isLoading := false)
  }

  /** `logout`: the identity is cleared; loading flag and error are left as they are. */
  function Logout(st: State): (r: State)
    ensures !r.isAuthenticated && r.userId.None? && r.email.None? && r.name.None?
    ensures r.isLoading == st.isLoading && r.error == st.error
  {
    st.(isAuthenticated := false, userId := None, email := None, name := None)
  }

  /** `clearError`: only the error changes. */
  function ClearError(st: State): (r: State)
    ensures r.error.None?
    ensures r.(error := st.error) == st
  {
    st.(error := None)
  }

  /** A failed login leaves the identity fields exactly as they were. */
  lemma FailedLoginKeepsIdentity(st: State, email: string, password: string)
    requires email != DemoEmail || password != DemoPassword
    ensures var r := Login(st, email, password);
      && r.isAuthenticated == st.isAuthenticated
      && r.userId == st.userId && r.email == st.email && r.name == st.name
      && r.error == Some(InvalidCredentials) && !r.isLoading
  {
  }

  /** Login authenticates if and only if the demo credentials were given. */
  lemma LoginAuthenticatesIff(st: State, email: string, password: string)
    requires !st.isAuthenticated
    ensures Login(st, email, password).isAuthenticated <==> email == DemoEmail && password == DemoPassword
  {
  }

  /** The id signup generates is "user" followed by the decimal digits of a number in
      0..999, without leading zeros: between one and three digits. */
  lemma SignupUserIdShape(st: State, name: string, email: string, password: string, roll: Roll)
    ensures var id := Signup(st, name, email, password, roll).userId.value;
      && 5 <= |id| <= 7 && id[..4] == "user"
      && (forall i :: 4 <= i < |id| ==> IsDigit(id[i]))
      && DecimalValue(id[4..]) == roll
  {
    var digits := NatToDecimal(roll);
    var id := "user" + digits;
    assert id[4..] == digits;
    DecimalRoundTrip(roll);
  }

  /** The identity invariant: authenticated exactly when user id, email and name are all set. */
  predicate Consistent(st: State)
  {
    st.isAuthenticated <==> st.userId.Some? && st.email.Some? && st.name.Some?
  }

  /** Every action keeps the identity fields consistent with the authentication flag. */
  lemma ActionsPreserveConsistent(st: State, name: string, email: string, password: string, roll: Roll)
    requires Consistent(st)
    ensures Consistent(Initial)
    ensures Consistent(Begin(st))
    ensures Consistent(Login(st, email, password))
    ensures Consistent(Signup(st, name, email, password, roll))
    ensures Consistent(Logout(st))
    ensures Consistent(ClearError(st))
  {
  }
}
