/**
 * The user-group slice (`slices/userGroupSlice.ts`): a request status, the
 * last message shown to the user, and the list of groups, driven by the
 * pending, fulfilled and rejected cases of the four user-group requests.
 * The requests and the redirect to the top page are left out.
 */
module UserGroupSlice {
  import opened Wrappers

  /** `"" | 'loading' | 'succeeded' | 'failed'`. */
  datatype Status = Idle | Loading | Succeeded | Failed

  /** `USER_GROUP`: `{ID, UserGroup}`. */
  datatype UserGroup = UserGroup(id: int, name: string)

  /** `USER_GROUP_STATE`. */
  datatype GroupState = GroupState(status: Status, message: string, userGroups: seq<UserGroup>)

  /** `RESPONSE`: the error body; its `message` may be missing. */
  datatype Response = Response(error: string, message: Option<string>)

  /** `PAYLOAD`: what a rejected request carries, the error body and the HTTP status. */
  datatype ErrorPayload = ErrorPayload(response: Response, status: int)

  /** One action the slice reacts to. */
  datatype Action =
    | SetUserGroup(groups: seq<UserGroup>)
    | CreatePending | CreateFulfilled(groups: seq<UserGroup>) | CreateRejected(payload: ErrorPayload)
    | GetPending | GetFulfilled(groups: seq<UserGroup>) | GetRejected(payload: ErrorPayload)
    | UpdatePending | UpdateFulfilled(groups: seq<UserGroup>) | UpdateRejected(payload: ErrorPayload)
    | DeletePending | DeleteFulfilled(groups: seq<UserGroup>) | DeleteRejected(payload: ErrorPayload)

  /** The status sent back when the session is not authorised. */
  const Unauthorized := 401

  const CreatedMessage := "ユーザーグループの登録に成功しました"
  const UpdatedMessage := "ユーザーグループの更新に成功しました"
  const DeletedMessage := "ユーザーグループの削除に成功しました"

  /** `initialState`: no status, no message, one placeholder group. */
  const Initial := GroupState(Idle, "", [UserGroup(0, "")])

  /** The message shown for an error body: its `message` when present and non-empty, its `error` otherwise. */
  function ErrorMessage(r: Response): (m: string)
    ensures r.message.Some? && r.message.value != "" ==> m == r.message.value
    ensures r.message.None? || r.message.value == "" ==> m == r.error
  {
    match r.message
    case Some(text) => if text != "" then text else r.error
    case None => r.error
  }

  /** `handleLoading`: any pending request sets the status to loading. */
  function HandleLoading(s: GroupState): (r: GroupState)
    ensures r.status == Loading
    ensures r.message == s.message && r.userGroups == s.userGroups
  {
    s.(status := Loading)
  }

  /** `handleError`: a 401 leaves the state alone (the page redirects); any other error fails with its message. */
  function HandleError(s: GroupState, p: ErrorPayload): (r: GroupState)
    ensures p.status == Unauthorized ==> r == s
    ensures p.status != Unauthorized ==> r.status == Failed && r.message == ErrorMessage(p.response)
    ensures r.userGroups == s.userGroups
  {
    if p.status == Unauthorized then s
    else s.(status := Failed, message := ErrorMessage(p.response))
  }

  /** `handleLoginError`: fails with the error's message whatever the HTTP status. */
  function HandleLoginError(s: GroupState, p: ErrorPayload): (r: GroupState)
    ensures r.status == Failed && r.message == ErrorMessage(p.response)
    ensures r.userGroups == s.userGroups
  {
    s.(status := Failed, message := ErrorMessage(p.response))
  }

  /** A fulfilled create, update or delete: succeeded, the returned groups, and the fixed message. */
  function Succeed(s: GroupState, groups: seq<UserGroup>, message: string): (r: GroupState)
    ensures r == GroupState(Succeeded, message, groups)
  {
    s.(status := Succeeded, userGroups := groups, message := message)
  }

  /** The slice's reducer: each action to its case. */
  function Reduce(s: GroupState, a: Action): (r: GroupState)
    ensures a.CreatePending? || a.GetPending? || a.UpdatePending? || a.DeletePending? ==> r == HandleLoading(s)
    ensures a.SetUserGroup? || a.GetFulfilled? ==> r == s.(userGroups := a.groups)
    ensures a.CreateFulfilled? ==> r == GroupState(Succeeded, CreatedMessage, a.groups)
    ensures a.UpdateFulfilled? ==> r == GroupState(Succeeded, UpdatedMessage, a.groups)
    ensures a.DeleteFulfilled? ==> r == GroupState(Succeeded, DeletedMessage, a.groups)
    ensures a.CreateRejected? ==> r == HandleLoginError(s, a.payload)
    ensures a.GetRejected? || a.UpdateRejected? || a.DeleteRejected? ==> r == HandleError(s, a.payload)
  {
    match a
    case SetUserGroup(groups) => s.(userGroups := groups)
    case CreatePending => HandleLoading(s)
    case CreateFulfilled(groups) => Succeed(s, groups, CreatedMessage)
    case CreateRejected(p) => HandleLoginError(s, p)
    case GetPending => HandleLoading(s)
    case GetFulfilled(groups) => s.(userGroups := groups)
    case GetRejected(p) => HandleError(s, p)
    case UpdatePending => HandleLoading(s)
    case UpdateFulfilled(groups) => Succeed(s, groups, UpdatedMessage)
    case UpdateRejected(p) => HandleError(s, p)
    case DeletePending => HandleLoading(s)
    case DeleteFulfilled(groups) => Succeed(s, groups, DeletedMessage)
    case DeleteRejected(p) => HandleError(s, p)
  }

  /** A fetch of the groups never settles the status: pending then fulfilled leaves it loading. */
  lemma GetLeavesLoading(s: GroupState, groups: seq<UserGroup>)
    ensures Reduce(Reduce(s, GetPending), GetFulfilled(groups)) == GroupState(Loading, s.message, groups)
  {
  }

  /**
   * Only a create rejection reports a 401: for get, update and delete a 401
   * leaves the state exactly as it was, while for create it fails.
   */
  lemma UnauthorizedOnlyFailsCreate(s: GroupState, p: ErrorPayload)
    requires p.status == Unauthorized
    ensures Reduce(s, GetRejected(p)) == s
    ensures Reduce(s, UpdateRejected(p)) == s
    ensures Reduce(s, DeleteRejected(p)) == s
    ensures Reduce(s, CreateRejected(p)).status == Failed
  {
  }

  /** Apart from a 401, every rejection is handled alike. */
  lemma RejectionsAgreeOtherwise(s: GroupState, p: ErrorPayload)
    requires p.status != Unauthorized
    ensures Reduce(s, CreateRejected(p)) == Reduce(s, GetRejected(p))
    ensures Reduce(s, UpdateRejected(p)) == Reduce(s, GetRejected(p))
    ensures Reduce(s, DeleteRejected(p)) == Reduce(s, GetRejected(p))
  {
  }

  /** A failed request shows a non-empty message whenever the error body holds any text. */
  lemma FailureShowsText(s: GroupState, p: ErrorPayload)
    requires p.response.error != "" || (p.response.message.Some? && p.response.message.value != "")
    ensures Reduce(s, CreateRejected(p)).message != ""
  {
  }

  /** After a pending request, the matching outcome decides the status: success, failure, or (for a 401) still loading. */
  lemma OutcomeAfterPending(s: GroupState, p: ErrorPayload, groups: seq<UserGroup>)
    ensures Reduce(Reduce(s, UpdatePending), UpdateFulfilled(groups)).status == Succeeded
    ensures Reduce(Reduce(s, UpdatePending), UpdateRejected(p)).status == (if p.status == Unauthorized then Loading else Failed)
  {
  }
}
