/** The session store of the frontend (frontend/src/contexts/AuthContext.jsx):
    who is signed in, in what role, under which class codes. It changes only
    through `authReducer`. */
module AuthContext {
  import opened Util

  /** The provider's state. `role` is null until a role is chosen. */
  datatype AuthState = AuthState(role: Option<string>, utln: string, name: string,
                                 classCode: seq<string>, isAuthenticated: bool, isFirstTime: bool)

  /** The payload of LOGIN: absent, or an object whose `isFirstTime` may be
      absent (or null). */
  datatype LoginPayload = LoginPayload(isFirstTime: Option<bool>)

  /** The actions the reducer knows; `Unknown` stands for any other type. */
  datatype AuthAction =
    | SetRole(role: Option<string>)
    | SetUtln(utln: string)
    | SetName(name: string)
    | SetClassCode(codes: seq<string>)
    | Login(payload: Option<LoginPayload>)
    | Logout
    | Unknown

  /** `initialState`: signed out, nothing known, and a first visit. */
  const Initial := AuthState(None, "", "", [], false, true)

  /** `action.payload?.isFirstTime ?? true`. */
  function FirstTimeFlag(payload: Option<LoginPayload>): (r: bool)
    ensures r == false <==> payload.Some? && payload.value.isFirstTime == Some(false)
  {
    match payload
    case None => true
    case Some(p) => match p.isFirstTime
      case None => true
      case Some(b) => b
  }

  /** `authReducer`. */
  function Reduce(s: AuthState, a: AuthAction): (r: AuthState)
    ensures a.Logout? ==> r == Initial
    ensures a.Unknown? ==> r == s
    ensures a.Login? ==> r.isAuthenticated
    ensures !a.Logout? ==> r.role == (if a.SetRole? then a.role else s.role)
    ensures !a.Logout? ==> r.utln == (if a.SetUtln? then a.utln else s.utln)
    ensures !a.Logout? ==> r.name == (if a.SetName? then a.name else s.name)
    ensures !a.Logout? ==> r.classCode == (if a.SetClassCode? then a.codes else s.classCode)
    ensures !a.Logout? && !a.Login? ==> r.isAuthenticated == s.isAuthenticated && r.isFirstTime == s.isFirstTime
  {
    match a
    case SetRole(role) => s.(role := role)
    case SetUtln(utln) => s.(utln := utln)
    case SetName(name) => s.(name := name)
    case SetClassCode(codes) => s.(classCode := codes)
    case Login(payload) => s.(isAuthenticated := true, isFirstTime := FirstTimeFlag(payload))
    case Logout => Initial
    case Unknown => s
  }

  /** Signing in keeps who the user is and sets the first-visit flag from
      the payload, defaulting to a first visit. */
  lemma LoginKeepsIdentity(s: AuthState, payload: Option<LoginPayload>)
    ensures var r := Reduce(s, Login(payload));
      r.role == s.role && r.utln == s.utln && r.name == s.name && r.classCode == s.classCode
      && r.isAuthenticated
      && (r.isFirstTime <==> !(payload.Some? && payload.value.isFirstTime == Some(false)))
  {
  }

  /** Whatever happened before, LOGOUT leaves the store as it started, and
      a later LOGIN of a returning user differs from it only in the two
      flags. */
  lemma LogoutForgetsEverything(s: AuthState, t: AuthState)
    ensures Reduce(s, Logout) == Reduce(t, Logout)
    ensures Reduce(Reduce(s, Logout), Login(Some(LoginPayload(Some(false)))))
         == Initial.(isAuthenticated := true, isFirstTime := false)
  {
  }

  /** Every action is idempotent. */
  lemma ReduceIdempotent(s: AuthState, a: AuthAction)
    ensures Reduce(Reduce(s, a), a) == Reduce(s, a)
  {
  }

  /** Dispatching actions one after another. */
  function Dispatch(s: AuthState, actions: seq<AuthAction>): AuthState
    decreases |actions|
  {
    if |actions| == 0 then s else Dispatch(Reduce(s, actions[0]), actions[1..])
  }

  /** Once LOGOUT is dispatched, the state no longer depends on anything
      that came before it: only the actions after the last LOGOUT count. */
  lemma {:induction false} LogoutCutsHistory(s: AuthState, t: AuthState, before: seq<AuthAction>, after: seq<AuthAction>)
    ensures Dispatch(s, before + [Logout] + after) == Dispatch(t, [Logout] + after)
    decreases |before|
  {
    if |before| == 0 {
      assert before + [Logout] + after == [Logout] + after;
      assert ([Logout] + after)[1..] == after;
    } else {
      assert (before + [Logout] + after)[1..] == before[1..] + [Logout] + after;
      LogoutCutsHistory(Reduce(s, before[0]), t, before[1..], after);
    }
  }
}
