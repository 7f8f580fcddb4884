/** The decisions taken by the root layout's effect (`RootLayoutNav`): whether to create
    the profile of a freshly authenticated user, and where, if anywhere, to redirect.
    The router call itself is a side effect and is represented by the returned path. */
module RootLayout {
  import opened Wrappers
  import AuthStore
  import UserStore

  const LoginPath := "/auth/login"
  const HomePath := "/"
  const AuthGroup := "auth"

  /** The route segments of a path: its non-empty parts between slashes. */
  function Segments(path: string): (r: seq<string>)
    ensures forall k :: 0 <= k < |r| ==> |r[k]| > 0 && '/' !in r[k]
    decreases |path|
  {
    if path == [] then []
    else if path[0] == '/' then Segments(path[1..])
    else
      var head := Segment(path);
      assert |head| > 0;
      [head] + Segments(path[|head|..])
  }

  /** The longest prefix of `path` without a slash. */
  function Segment(path: string): (r: string)
    ensures |r| <= |path| && r == path[..|r|]
    ensures '/' !in r
    ensures |r| < |path| ==> path[|r|] == '/'
    ensures |path| > 0 && path[0] != '/' ==> |r| > 0
  {
    if path == [] || path[0] == '/' then []
    else
      var rest := Segment(path[1..]);
      assert [path[0]] + rest == path[..1 + |rest|];
      [path[0]] + rest
  }

  /** `segments[0] === "auth"`; an empty segment list has no auth group. */
  predicate InAuthGroup(segments: seq<string>)
  {
    |segments| > 0 && segments[0] == AuthGroup
  }

  /** The redirect the guard issues, if any: signed-out users outside the auth screens go
      to the login screen, signed-in users on the auth screens go home. */
  function Redirect(isAuthenticated: bool, segments: seq<string>): (r: Option<string>)
    ensures r == Some(LoginPath) <==> !isAuthenticated && !InAuthGroup(segments)
    ensures r == Some(HomePath) <==> isAuthenticated && InAuthGroup(segments)
    ensures r.None? <==> isAuthenticated != InAuthGroup(segments)
  {
    if !isAuthenticated && !InAuthGroup(segments) then Some(LoginPath)
    else if isAuthenticated && InAuthGroup(segments) then Some(HomePath)
    else None
  }

  /** A JavaScript string or `null` is truthy when present and non-empty. */
  predicate Truthy(s: Option<string>)
  {
    s.Some? && s.value != ""
  }

  /** A profile is created only for an authenticated user whose id, name and email are all
      present and non-empty, and only when no profile exists yet. */
  function ShouldInitializeProfile(auth: AuthStore.State, hasProfile: bool): (b: bool)
    ensures b ==> auth.isAuthenticated && !hasProfile
    ensures b ==> auth.userId.Some? && auth.name.Some? && auth.email.Some?
    ensures b ==> auth.userId.value != "" && auth.name.value != "" && auth.email.value != ""
    ensures auth.isAuthenticated && !hasProfile && auth.userId == Some("") ==> !b
  {
    auth.isAuthenticated && Truthy(auth.userId) && Truthy(auth.name) && Truthy(auth.email) && !hasProfile
  }

  /** Following the guard's redirect lands on a route where the guard stays quiet. */
  lemma RedirectSettles(isAuthenticated: bool, segments: seq<string>)
    requires Redirect(isAuthenticated, segments).Some?
    ensures Redirect(isAuthenticated, Segments(Redirect(isAuthenticated, segments).value)).None?
  {
    if isAuthenticated {
      assert Segments(HomePath) == [] by {
        assert HomePath[1..] == [];
      }
    } else {
      var rest := LoginPath[1..];
      assert rest == "auth/login";
      assert Segment(rest) == "auth" by {
        assert rest[..4] == "auth" && rest[4] == '/';
        assert forall i :: 0 <= i < 4 ==> rest[i] != '/';
      }
      assert Segments(LoginPath)[0] == AuthGroup;
    }
  }

  /** What one run of the effect does: possibly create a profile from the signed-in
      identity (user id, name, email), possibly redirect. */
  datatype Effect = Effect(initialize: Option<(string, string, string)>, redirect: Option<string>)

  /** The layout effect: the profile decision first, then the redirect decision; the two
      are independent of each other. */
  function LayoutEffect(auth: AuthStore.State, users: UserStore.State, segments: seq<string>): (e: Effect)
    ensures e.initialize.Some? <==>
      auth.isAuthenticated && Truthy(auth.userId) && Truthy(auth.name) && Truthy(auth.email)
      && users.profile.None?
    ensures e.initialize.Some? ==>
      e.initialize.value == (auth.userId.value, auth.name.value, auth.email.value)
    ensures e.redirect == Some(LoginPath) <==> !auth.isAuthenticated && !InAuthGroup(segments)
    ensures e.redirect == Some(HomePath) <==> auth.isAuthenticated && InAuthGroup(segments)
    ensures e.redirect.None? <==> auth.isAuthenticated != InAuthGroup(segments)
  {
    var init :=
      if ShouldInitializeProfile(auth, users.profile.Some?)
      then Some((auth.userId.value, auth.name.value, auth.email.value))
      else None;
    Effect(init, Redirect(auth.isAuthenticated, segments))
  }

  /** The profile store after the effect's profile decision. */
  function ApplyInitialize(users: UserStore.State, e: Effect): UserStore.State
  {
    match e.initialize
    case None => users
    case Some((userId, name, email)) => UserStore.InitializeProfile(users, userId, name, email)
  }

  /** The route segments after the effect's redirect. */
  function ApplyRedirect(segments: seq<string>, e: Effect): seq<string>
  {
    match e.redirect
    case None => segments
    case Some(path) => Segments(path)
  }

  /** Carrying out what the effect asked for and running it again asks for nothing more:
      the profile it creates belongs to the signed-in user, and the route it redirects to
      is one the guard accepts. */
  lemma EffectSettles(auth: AuthStore.State, users: UserStore.State, segments: seq<string>)
    ensures var e := LayoutEffect(auth, users, segments);
      var users' := ApplyInitialize(users, e);
      && (e.initialize.Some? ==> users'.profile.Some? && users'.profile.value.id == auth.userId.value)
      && LayoutEffect(auth, users', ApplyRedirect(segments, e)) == Effect(None, None)
  {
    var e := LayoutEffect(auth, users, segments);
    if e.redirect.Some? {
      RedirectSettles(auth.isAuthenticated, segments);
    }
  }

  /** After signing out the guard never asks to create a profile. */
  lemma LogoutNeverInitializes(st: AuthStore.State, hasProfile: bool)
    ensures !ShouldInitializeProfile(AuthStore.Logout(st), hasProfile)
  {
  }

  /** Once the profile exists the guard never asks to create it again. */
  lemma InitializeOnce(auth: AuthStore.State)
    ensures !ShouldInitializeProfile(auth, true)
  {
  }
}
