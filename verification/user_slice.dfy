/**
 * The logged-in user slice (`slices/userSlice.ts`): `{ID, Name}`, set when
 * the login request answers, plus the `loginUser` reducer. The login and
 * register requests themselves are left out.
 */
module UserSlice {

  /** The slice's state: the shape `initialState` gives it. */
  datatype UserState = UserState(id: int, name: string)

  /** `USER` as the login request returns it. */
  datatype User = User(id: int, name: string, userGroupId: int)

  /** `initialState`: no user. */
  const Initial := UserState(0, "")

  /** The login-fulfilled case: the answer's id and name, and nothing else, become the state. */
  function LoginFulfilled(s: UserState, payload: User): (r: UserState)
    ensures r.id == payload.id && r.name == payload.name
  {
    s.(id := payload.id, name := payload.name)
  }

  /** Whoever was logged in before, a login leaves only the new user; the group id is not kept. */
  lemma LoginForgetsPrevious(s: UserState, s': UserState, payload: User, groupId: int)
    ensures LoginFulfilled(s, payload) == LoginFulfilled(s', payload.(userGroupId := groupId))
  {
  }

  /**
   * `loginUser` as written: the body rebinds the reducer's parameter to the
   * payload, which the draft-state update never sees, so the state is returned
   * unchanged.
   */
  function LoginUserAsWritten(s: UserState, payload: User): (r: UserState)
    ensures r == s
  {
    var rebound := payload;
    s
  }

  /** The reducer as written drops the login: from the initial state, logging in user 1 still shows no user. */
  lemma LoginUserAsWrittenIgnoresPayload()
    ensures LoginUserAsWritten(Initial, User(1, "alice", 0)) == UserState(0, "")
    ensures LoginUserAsWritten(Initial, User(1, "alice", 0)) != LoginFulfilled(Initial, User(1, "alice", 0))
  {
  }

  /** `loginUser` as evidently intended: the payload becomes the logged-in user. */
  function LoginUser(s: UserState, payload: User): (r: UserState)
    ensures r.id == payload.id && r.name == payload.name
  {
    UserState(payload.id, payload.name)
  }

  /** The intended reducer and the login-fulfilled case agree on every state and payload. */
  lemma LoginUserAgreesWithLogin(s: UserState, payload: User)
    ensures LoginUser(s, payload) == LoginFulfilled(s, payload)
  {
  }
}
