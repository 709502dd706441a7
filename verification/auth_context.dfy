/** The client's sign-in state: the reducer over the signed-in user, the
    token and the loading and authenticated flags, and what the client does
    when it starts. The browser's stored token is part of the state
    (`storedToken`), so that writing and removing it are visible. */
module AuthContext {
  import opened Wrappers

  /** The user's profile as the server sends it, field by field. */
  type User = map<string, string>

  datatype AuthState = AuthState(
    user: Option<User>,
    token: Option<string>,
    isLoading: bool,
    isAuthenticated: bool,
    storedToken: Option<string>)

  /** The answer to a successful sign-in or registration. */
  datatype Session = Session(user: User, token: string)

  datatype Action =
    | LoginSuccess(session: Session)
    | RegisterSuccess(session: Session)
    | Logout
    | AuthError
    | UserLoaded(loaded: User)
    | SetLoading(loading: bool)
    | UpdateUser(changes: User)
    | Unrecognised(kind: string)

  /** The state the client starts in: nobody signed in, loading, and the
      token whatever the browser had stored. */
  function InitialState(stored: Option<string>): (st: AuthState)
    ensures st.user.None? && !st.isAuthenticated && st.isLoading
    ensures st.token == stored && st.storedToken == stored
  {
    AuthState(None, stored, true, false, stored)
  }

  /** JavaScript truthiness of the token: present and not empty. */
  predicate HasToken(t: Option<string>) {
    t.Some? && t.value != ""
  }

  /** `authReducer`. */
  function Reduce(st: AuthState, a: Action): (r: AuthState)
    ensures (a.LoginSuccess? || a.RegisterSuccess?) ==>
              && r.user == Some(a.session.user) && r.token == Some(a.session.token)
              && r.storedToken == Some(a.session.token)
              && r.isAuthenticated && !r.isLoading
    ensures (a.Logout? || a.AuthError?) ==>
              r.user.None? && r.token.None? && r.storedToken.None? && !r.isAuthenticated && !r.isLoading
    ensures a.UserLoaded? ==> r == st.(user := Some(a.loaded), isAuthenticated := true, isLoading := false)
    ensures a.SetLoading? ==> r == st.(isLoading := a.loading)
    ensures a.UpdateUser? ==> r == st.(user := r.user) && r.user.Some?
    ensures a.UpdateUser? ==> r.user.value.Keys == st.user.GetOr(map[]).Keys + a.changes.Keys
    ensures a.UpdateUser? ==> forall k :: k in a.changes ==> r.user.value[k] == a.changes[k]
    ensures a.UpdateUser? ==> forall k :: k in st.user.GetOr(map[]) && k !in a.changes ==>
                                r.user.value[k] == st.user.value[k]
    ensures a.Unrecognised? ==> r == st
  {
    match a
    case LoginSuccess(s) => SignedIn(st, s)
    case RegisterSuccess(s) => SignedIn(st, s)
    case Logout => SignedOut(st)
    case AuthError => SignedOut(st)
    case UserLoaded(u) => st.(user := Some(u), isAuthenticated := true, isLoading := false)
    case SetLoading(on) => st.(isLoading := on)
    case UpdateUser(changes) => st.(user := Some(st.user.GetOr(map[]) + changes))
    case Unrecognised(_) => st
  }

  function SignedIn(st: AuthState, s: Session): AuthState {
    st.(user := Some(s.user), token := Some(s.token), isAuthenticated := true, isLoading := false,
        storedToken := Some(s.token))
  }

  function SignedOut(st: AuthState): AuthState {
    st.(user := None, token := None, isAuthenticated := false, isLoading := false, storedToken := None)
  }

  /** Signing in and registering leave the client in the same state. */
  lemma SignInAndRegisterAgree(st: AuthState, s: Session)
    ensures Reduce(st, LoginSuccess(s)) == Reduce(st, RegisterSuccess(s))
  {
  }

  /** Signing out and a failed check leave the client in the same state. */
  lemma LogoutAndAuthErrorAgree(st: AuthState)
    ensures Reduce(st, Logout) == Reduce(st, AuthError)
  {
  }

  /** What the client keeps true: the token in memory is the stored one,
      and whoever is authenticated has a profile. */
  predicate Coherent(st: AuthState) {
    st.token == st.storedToken && (st.isAuthenticated ==> st.user.Some?)
  }

  /** The client starts coherent. */
  lemma InitialCoherent(stored: Option<string>)
    ensures Coherent(InitialState(stored))
  {
  }

  /** Every action keeps the client coherent. */
  lemma ReduceKeepsCoherent(st: AuthState, a: Action)
    requires Coherent(st)
    ensures Coherent(Reduce(st, a))
  {
  }

  /** The state after a sequence of actions. */
  function Run(st: AuthState, actions: seq<Action>): AuthState
    decreases |actions|
  {
    if actions == [] then st else Run(Reduce(st, actions[0]), actions[1..])
  }

  /** Coherence holds after any sequence of actions from the start. */
  lemma {:induction false} RunKeepsCoherent(stored: Option<string>, actions: seq<Action>)
    ensures Coherent(Run(InitialState(stored), actions))
  {
    InitialCoherent(stored);
    RunFromCoherent(InitialState(stored), actions);
  }

  lemma {:induction false} RunFromCoherent(st: AuthState, actions: seq<Action>)
    requires Coherent(st)
    ensures Coherent(Run(st, actions))
    decreases |actions|
  {
    if actions != [] {
      ReduceKeepsCoherent(st, actions[0]);
      RunFromCoherent(Reduce(st, actions[0]), actions[1..]);
    }
  }

  /** The start-up effect: with a token, the profile is fetched and the
      answer is dispatched (`profile` is the fetched profile, or nothing when
      the request fails); without one, loading simply ends. */
  function StartUpAction(st: AuthState, profile: Option<User>): (a: Action)
    ensures !HasToken(st.token) ==> a == SetLoading(false)
    ensures HasToken(st.token) && profile.Some? ==> a == UserLoaded(profile.value)
    ensures HasToken(st.token) && profile.None? ==> a == AuthError
  {
    if HasToken(st.token) then
      if profile.Some? then UserLoaded(profile.value) else AuthError
    else SetLoading(false)
  }

  /** The state once start-up has settled: loading has ended, the client is
      authenticated exactly when a token was stored and the profile came
      back, and the token in memory is still the stored one. */
  function StartUp(stored: Option<string>, profile: Option<User>): (r: AuthState)
    ensures !r.isLoading
    ensures r.isAuthenticated <==> HasToken(stored) && profile.Some?
    ensures Coherent(r)
  {
    var st := InitialState(stored);
    ReduceKeepsCoherent(st, StartUpAction(st, profile));
    Reduce(st, StartUpAction(st, profile))
  }

  /** Without a stored token the client ends up signed out and no longer
      loading, whatever the server would have said. */
  lemma StartUpWithoutToken(stored: Option<string>, profile: Option<User>)
    requires !HasToken(stored)
    ensures StartUp(stored, profile) == AuthState(None, stored, false, false, stored)
  {
  }

  /** With a stored token the client is signed in as the fetched profile and
      keeps the token; if the fetch fails the token is dropped everywhere. */
  lemma StartUpWithToken(t: string, profile: Option<User>)
    requires t != ""
    ensures profile.Some? ==> StartUp(Some(t), profile) == AuthState(profile, Some(t), false, true, Some(t))
    ensures profile.None? ==> StartUp(Some(t), profile) == AuthState(None, None, false, false, None)
  {
  }
}
