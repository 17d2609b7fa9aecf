/** The session store: the `auth` slice with its `loginSuccess` and `logout`
    reducers (src/store/features/auth/AuthSlice.ts). */
module AuthSlice {
  import opened Wrappers
  import opened Records

  /** The slice's state: the stored user (any value, possibly null), the token and the flag. */
  datatype AuthState = AuthState(user: Option<Profile>, token: Option<string>, isAuthenticated: bool)

  /** The two actions the slice handles. */
  datatype AuthAction = LoginSuccess(user: Option<Profile>, token: string) | Logout

  /** `initialState`. */
  const InitialState: AuthState := AuthState(None, None, false)

  /** The reducer: the state after one action. */
  function Reduce(s: AuthState, a: AuthAction): AuthState
  {
    match a
    case LoginSuccess(user, token) => AuthState(user, Some(token), true)
    case Logout => AuthState(None, None, false)
  }

  /** The state after a sequence of actions, in dispatch order. */
  function ReduceAll(s: AuthState, actions: seq<AuthAction>): AuthState
    decreases |actions|
  {
    if actions == [] then s else ReduceAll(Reduce(s, actions[0]), actions[1..])
  }

  /** The shape every reachable state has: a token whenever authenticated, and
      neither user nor token when not. */
  predicate Consistent(s: AuthState)
  {
    && (s.isAuthenticated ==> s.token.Some?)
    && (!s.isAuthenticated ==> s.user.None? && s.token.None?)
  }

  /** `loginSuccess` stores exactly the payload and sets the flag, whatever the session was. */
  lemma LoginOverwrites(s: AuthState, user: Option<Profile>, token: string)
    ensures Reduce(s, LoginSuccess(user, token)) == AuthState(user, Some(token), true)
    ensures forall t :: Reduce(t, LoginSuccess(user, token)) == Reduce(s, LoginSuccess(user, token))
  {
  }

  /** `logout` returns to the initial state, and applying it twice equals applying it once. */
  lemma LogoutIdempotent(s: AuthState)
    ensures Reduce(s, Logout) == InitialState
    ensures Reduce(Reduce(s, Logout), Logout) == Reduce(s, Logout)
  {
  }

  /** After any non-empty action sequence the flag is set exactly when the last action was
      `loginSuccess`; after none it is the starting flag. */
  lemma {:induction false} FlagFollowsLastAction(s: AuthState, actions: seq<AuthAction>)
    ensures ReduceAll(s, actions).isAuthenticated ==
      if actions == [] then s.isAuthenticated else actions[|actions| - 1].LoginSuccess?
    decreases |actions|
  {
    if actions != [] {
      FlagFollowsLastAction(Reduce(s, actions[0]), actions[1..]);
      if |actions| > 1 {
        assert actions[1..][|actions[1..]| - 1] == actions[|actions| - 1];
      }
    }
  }

  /** Every state reachable from a consistent one is consistent, in particular every state
      reachable from `initialState`. */
  lemma {:induction false} ReachableConsistent(s: AuthState, actions: seq<AuthAction>)
    requires Consistent(s)
    ensures Consistent(ReduceAll(s, actions))
    decreases |actions|
  {
    if actions != [] {
      ReachableConsistent(Reduce(s, actions[0]), actions[1..]);
    }
  }

  /** The header the screens send: `Authorization: Bearer ${token}`, where a null token
      is rendered by the template literal as "null". */
  function BearerHeader(token: Option<string>): (h: string)
    ensures token.Some? ==> h == "Bearer " + token.value
    ensures token.None? ==> h == "Bearer null"
  {
    "Bearer " + token.GetOr("null")
  }

  /** The store's `auth` slice, whose reducers assign the draft fields in place. */
  class AuthStore {
    var user: Option<Profile>
    var token: Option<string>
    var isAuthenticated: bool

    /** The slice's state as a value. */
    function Snapshot(): AuthState
      reads this
    {
      AuthState(user, token, isAuthenticated)
    }

    /** The store starts at `initialState`. */
    constructor ()
      ensures Snapshot() == InitialState
    {
      user := None;
      token := None;
      isAuthenticated := false;
    }

    /** The `loginSuccess` reducer. */
    method LoginSuccess(payloadUser: Option<Profile>, payloadToken: string)
      modifies this
      ensures user == payloadUser && token == Some(payloadToken) && isAuthenticated
      ensures Snapshot() == Reduce(old(Snapshot()), AuthAction.LoginSuccess(payloadUser, payloadToken))
    {
      user := payloadUser;
      token := Some(payloadToken);
      isAuthenticated := true;
    }

    /** The `logout` reducer. */
    method Logout()
      modifies this
      ensures user == None && token == None && !isAuthenticated
      ensures Snapshot() == Reduce(old(Snapshot()), AuthAction.Logout)
    {
      user := None;
      token := None;
      isAuthenticated := false;
    }
  }
}
