# LookBack client core in Dafny

This project models the pure logic of the LookBack web client (`client/app/lookback`). LookBack is a kanban and task-management application. The model covers four parts of it:

- **The kanban engine.**
  - The board keeps one flat store of draggable cards.
  - `TaskArea` and `Sidebar` project that store into three fixed columns: `TODO`, `作業中` and `完了`. Each column gets a running `firstIndex` offset.
  - Hovering a card from another column over a column asks the store to move the card. The target index is computed with forward/backward arithmetic.
  - A column's add-task form appends a card at the column's end.
- **The Redux slices and the `useTasks` hook.**
  - The task lists: prepend, replace by id, drop by id, and append-then-sort for categories.
  - The user-group status and message state machine.
  - The logged-in user slice.
- **The task table.** Clicking a column header toggles the sort order and sorts the rows stably by that field. The row actions are gated on ownership.
- **The form rules.**
  - The password rule and the credential schema of the login form.
  - The "new e-mail must differ" rule.
  - The save gates and the create-or-update choice of the task editor.

Everything is a pure function over immutable values, one Dafny module per source component:

| module | models |
|---|---|
| `Board`, `Projection`, `Runs` | the card store, the column projection, and column runs |
| `Column`, `AddTask` | the hover handler, the add-task form, card indices |
| `Records`, `TaskReducer`, `TaskSlice`, `UseTasks` | `reducer/taskSlice.ts`, `slices/taskSlice.ts`, `hooks/useTasks.ts` |
| `UserGroupSlice`, `UserSlice` | `slices/userGroupSlice.ts`, `slices/userSlice.ts` |
| `Sorting`, `TaskList` | the stable sort, and `TaskList.tsx` |
| `Auth`, `Email`, `TaskForm` | the three forms |

**The store primitives are assumptions.** The bodies of the store operations `swapTasks`, `updateTasks` and `deleteTasks` are not part of this model: `useTaskGroups.ts` does not match what `useTasks.ts` returns. They are modelled as follows:

- swap is remove-at, then insert-at into the shortened store, with the card's column renamed;
- add is insert-at;
- delete drops every card with the target's key.

**The store invariant.** The central invariant is `Board.Arranged`: the store equals its TODO cards, then its 作業中 cards, then its 完了 cards. It is proved equivalent to a pointwise form, `Board.RankSorted`.

**Hover, not drop.** `useDrop` registers `handleDrop` as the *hover* callback, so the move happens while hovering rather than only on a committed drop. The model follows the code. `Column.HandleDrop`'s guard makes every later hover over the same column a no-op.

## Model

| member | source | states |
|---|---|---|
| Board.Rank | client/app/lookback/components/TaskArea.tsx:47 | column names rank 0, 1, 2 in the fixed order; only the three names rank below 3 |
| Board.FilterContents | client/app/lookback/components/TaskArea.tsx:58-60 | a column holds exactly the store's cards carrying its name |
| Board.FilterAppend | client/app/lookback/components/TaskArea.tsx:58-60 | filtering distributes over concatenation, so relative order is kept |
| Board.FilterAbsent | client/app/lookback/components/TaskArea.tsx:58-60 | a name no card carries yields an empty column |
| Board.FilterAll | client/app/lookback/components/TaskArea.tsx:58-60 | a run carrying only one name is that name's whole filter |
| Board.RankSortedIsArranged | client/app/lookback/components/TaskArea.tsx:57-62 | a store whose column ranks never decrease is its three columns laid end to end |
| Board.ArrangedIsRankSorted | client/app/lookback/components/TaskArea.tsx:57-62 | a store that is its three columns end to end has non-decreasing ranks and only known names |
| Board.ArrangedIffRankSorted | client/app/lookback/components/TaskArea.tsx:57-62 | the two statements of the contiguity invariant are equivalent |
| Board.InsertAt | client/app/lookback/components/Column.tsx:72-74 | insert-at shifts later cards up by one and puts the new card at the index |
| Board.RemoveAt | client/app/lookback/components/Column.tsx:43 | remove-at shifts later cards down by one |
| Board.InsertRemoveRoundTrip | client/app/lookback/components/Column.tsx:43 | removing what was just inserted restores the store |
| Board.RemoveInsertRoundTrip | client/app/lookback/components/Column.tsx:43 | re-inserting what was just removed at the same index restores the store |
| Board.Swap | client/app/lookback/components/Column.tsx:43 | the assumed swap keeps the size, puts the renamed card at the hover index, and leaves the other cards in order |
| Board.DeleteByKey | client/app/lookback/components/Column.tsx:86 | the assumed delete keeps exactly the cards with another key |
| Board.DeletePreservesArranged | client/app/lookback/components/Column.tsx:86 | deleting a card keeps the store arranged |
| Board.DeleteByKeyAppend | client/app/lookback/components/Column.tsx:86 | deleting distributes over concatenation, so the kept cards stay in store order and none is repeated |
| Board.DeleteByKeyPerColumn | client/app/lookback/components/Column.tsx:86 | each column after a delete is that column before it with the key's cards dropped in place |
| Projection.Project | client/app/lookback/components/TaskArea.tsx:57-62 | column k gets name k and the filter by that name; offsets start at the given index and grow by each column's length |
| Projection.Columns | client/app/lookback/components/Sidebar.tsx:16-31 | three columns in the fixed order; the first offset is 0 and each next offset adds the previous length |
| Projection.CountKnown | client/app/lookback/components/TaskArea.tsx:47 | the known-name count never exceeds the store size |
| Projection.TotalShown | client/app/lookback/components/TaskArea.tsx:57-62 | the last column ends at the number of cards with a known name |
| Projection.ColumnsInRange | client/app/lookback/components/TaskArea.tsx:61-62 | every column ends inside the store, arranged or not |
| Projection.UnknownDropped | client/app/lookback/components/Sidebar.tsx:26-29 | a card is shown in some column iff it is in the store with a known name |
| Projection.CardAtGlobalIndex | client/app/lookback/components/TaskArea.tsx:58-62 | on an arranged store, the card at global index `firstIndex + i` is the column's i-th card |
| Projection.RunBounds | client/app/lookback/components/TaskArea.tsx:58-62 | on an arranged store, a column's offset and length delimit exactly the cards of its rank |
| Runs.RankOfName | client/app/lookback/components/TaskArea.tsx:47 | the k-th column name ranks k |
| Runs.RankSeparates | client/app/lookback/components/TaskArea.tsx:47 | known names with equal rank are equal |
| Runs.RankNamesColumn | client/app/lookback/components/TaskArea.tsx:47 | a card ranks k iff it carries column k's name |
| Runs.RemoveKeepsRankSorted | client/app/lookback/components/Column.tsx:43 | removing a card keeps ranks non-decreasing |
| Runs.InsertKeepsRankSorted | client/app/lookback/components/Column.tsx:43 | inserting a card between lower and higher ranks keeps ranks non-decreasing |
| Runs.FilterInsertAt | client/app/lookback/components/Column.tsx:43 | filtering an insertion filters the two halves around the new card |
| Runs.FilterInsertOther | client/app/lookback/components/Column.tsx:43 | inserting a card leaves every other column unchanged |
| Runs.FilterRemoveOther | client/app/lookback/components/Column.tsx:43 | removing a card leaves every other column unchanged |
| Runs.RunFilter | client/app/lookback/components/TaskArea.tsx:58-62 | a column's filter is exactly its run |
| Runs.RunUnique | client/app/lookback/components/TaskArea.tsx:61-62 | a column's run offset and length are determined by the store |
| Runs.RankAroundRun | client/app/lookback/components/TaskArea.tsx:61-62 | positions before the run rank lower, positions after it rank higher, and conversely |
| Runs.RemoveOutsideRun | client/app/lookback/components/Column.tsx:39-41 | removing a card before the run shifts the run down by one; removing one after it leaves the run in place |
| Runs.InsertAtRunEnd | client/app/lookback/components/Column.tsx:39-41 | a card of rank k inserted just past the run extends it by one |
| Runs.AppendToRun | client/app/lookback/components/Column.tsx:74 | appending at the run's end keeps the store sorted, grows the run, and adds the card to the column's end |
| Column.TargetIndex | client/app/lookback/components/Column.tsx:38-41 | the target lies in `[firstIndex-1, firstIndex+len]` and is never negative for a valid drag index |
| Column.HandleDrop | client/app/lookback/components/Column.tsx:35-46 | same column: nothing is swapped and the drag item is unchanged; forward: target `firstIndex+len-1`; backward: `firstIndex+len`; afterwards the drag item records the target and the column |
| Column.SecondHoverIsNoOp | client/app/lookback/components/Column.tsx:36-45 | after one hover has moved the card, a later hover over the same column swaps nothing |
| Column.MoveToRunEnd | client/app/lookback/components/Column.tsx:38-43 | in both branches, remove-then-insert at the target makes the card the last of the column's run; the store stays sorted and the column gains exactly that card |
| Column.Hover | client/app/lookback/components/Column.tsx:35-46 | a hover keeps the store size; a same-column hover changes nothing; the drag item still names its card |
| Column.HoverKeepsArranged | client/app/lookback/components/Column.tsx:38-43 | a hover keeps every column one contiguous run, in column order |
| Column.HoverSwaps | client/app/lookback/components/Column.tsx:38-44 | a cross-column hover is the swap at the in-range target index, and the drag item records it |
| Column.HoverFillsColumn | client/app/lookback/components/Column.tsx:38-43 | the hovered column gains exactly the moved card, at its end |
| Column.HoverLandsLast | client/app/lookback/components/Column.tsx:38-45 | the recorded index is the last global index the column renders afterwards |
| Column.HoverKeepsOrder | client/app/lookback/components/Column.tsx:43 | taking the moved card back out leaves all other cards in their old order |
| Column.HoverLeavesOtherColumns | client/app/lookback/components/Column.tsx:43 | any other column only loses the moved card |
| Column.HoverIdempotent | client/app/lookback/components/Column.tsx:36-45 | hovering again over the same column changes neither store nor drag item |
| Column.AddCard | client/app/lookback/components/Column.tsx:74 | adding through column k's form adds exactly one card to the store |
| Column.AddCardAtColumnEnd | client/app/lookback/components/Column.tsx:74 | the new card becomes column k's last card and the store stays arranged |
| Column.AddCardLeavesOtherColumns | client/app/lookback/components/Column.tsx:74 | adding a card leaves every other column unchanged |
| Column.CardIndices | client/app/lookback/components/Column.tsx:79-83 | one global index per rendered card; the i-th is the column's offset plus i |
| Column.CardIndicesAreExact | client/app/lookback/components/Column.tsx:83 | on an arranged store, the index of the i-th card names that card in the store |
| Column.ToggleOpen | client/app/lookback/components/Column.tsx:31-33 | the plus button flips the form's open flag |
| AddTask.ChangeText | client/app/lookback/components/AddTask.tsx:21-23 | typing replaces the text and leaves the open flag |
| AddTask.Submit | client/app/lookback/components/AddTask.tsx:25-38 | empty text: no call, form unchanged; otherwise one call with a card of the column and the typed text at the given index, then the form is cleared and closed |
| AddTask.Cancel | client/app/lookback/components/AddTask.tsx:40-43 | cancel clears and closes without a call |
| AddTask.SubmitOnce | client/app/lookback/components/AddTask.tsx:26-36 | a second submit right after a successful one sends nothing |
| AddTask.SubmitSendsTyped | client/app/lookback/components/AddTask.tsx:21-33 | submit sends exactly the typed text into the column, or nothing when it is empty |
| AddTask.SubmitAppendsToColumn | client/app/lookback/components/Column.tsx:70-75 | the form's call, with the column's index, appends the card to that column's end and keeps the store arranged |
| Records.ReplaceById | client/app/lookback/reducer/taskSlice.ts:251-253 | entries with the id become the payload, all others are unchanged, and the length is kept |
| Records.RemoveById | client/app/lookback/reducer/taskSlice.ts:267 | exactly the entries with another id are kept |
| Records.ReplaceAbsentId | client/app/lookback/reducer/taskSlice.ts:251-253 | replacing an absent id changes nothing |
| Records.ReplaceIdempotent | client/app/lookback/reducer/taskSlice.ts:251-253 | replacing twice with the same record is replacing once |
| Records.RemoveAfterReplace | client/app/lookback/reducer/taskSlice.ts:251-267 | dropping an id after replacing it drops what dropping alone would |
| Records.RemoveAppend | client/app/lookback/reducer/taskSlice.ts:267 | dropping distributes over concatenation, so kept entries keep their order |
| Records.RemoveIdempotent | client/app/lookback/reducer/taskSlice.ts:267 | dropping twice is dropping once |
| Records.RemoveAbsentId | client/app/lookback/reducer/taskSlice.ts:267 | dropping an absent id changes nothing |
| TaskReducer.EditTask | client/app/lookback/reducer/taskSlice.ts:175-177 | only the edited task changes |
| TaskReducer.SelectTask | client/app/lookback/reducer/taskSlice.ts:178-180 | only the selected task changes |
| TaskReducer.GetTasksFulfilled | client/app/lookback/reducer/taskSlice.ts:183-191 | the tasks are replaced wholesale and nothing else changes |
| TaskReducer.GetUsersFulfilled | client/app/lookback/slices/taskSlice.ts:203-211 | only the users are replaced |
| TaskReducer.GetCategoryFulfilled | client/app/lookback/slices/taskSlice.ts:217-225 | only the categories are replaced |
| TaskReducer.ByNameIsTotal | client/app/lookback/reducer/taskSlice.ts:226 | a total collation on names gives a total order on categories |
| TaskReducer.CreateCategoryFulfilled | client/app/lookback/reducer/taskSlice.ts:215-229 | the result is sorted by name and is a permutation of the old list plus the payload (or just the payload when there was no list); nothing else changes |
| TaskReducer.CreateTaskFulfilled | client/app/lookback/reducer/taskSlice.ts:233-242 | the payload goes first, the old tasks follow, the edited task is reset, and the selection is untouched |
| TaskReducer.UpdateTaskFulfilled | client/app/lookback/reducer/taskSlice.ts:246-258 | length kept; entries with the payload's id become the payload and others are unchanged; edit and selection are reset |
| TaskReducer.DeleteTaskFulfilled | client/app/lookback/reducer/taskSlice.ts:262-272 | exactly the tasks with another id are kept; edit and selection are reset |
| TaskReducer.EditSelectCommute | client/app/lookback/reducer/taskSlice.ts:175-180 | editing and selecting commute |
| TaskReducer.EditOverwrites | client/app/lookback/reducer/taskSlice.ts:175-177 | the last edit wins |
| TaskReducer.UpdateAbsentId | client/app/lookback/reducer/taskSlice.ts:251-253 | an update with an absent id leaves the tasks unchanged |
| TaskReducer.DeleteIdempotent | client/app/lookback/reducer/taskSlice.ts:262-272 | deleting twice is deleting once |
| TaskReducer.DeleteKeepsOrder | client/app/lookback/reducer/taskSlice.ts:267 | the kept tasks stay in their order |
| TaskReducer.CreateThenDelete | client/app/lookback/reducer/taskSlice.ts:233-272 | deleting a just-created task's id yields the old list with that id dropped |
| TaskReducer.CreateCategoryOnSorted | client/app/lookback/reducer/taskSlice.ts:219-226 | when the new category already sorts last, the list is the old one with it appended |
| TaskSlice.CreateTaskFulfilled | client/app/lookback/slices/taskSlice.ts:251-260 | the server list replaces the tasks and only the edited task is reset |
| TaskSlice.UpdateTaskFulfilled | client/app/lookback/slices/taskSlice.ts:266-276 | the server list replaces the tasks; edit and selection are reset |
| TaskSlice.DeleteTaskFulfilled | client/app/lookback/slices/taskSlice.ts:282-292 | the server list replaces the tasks; edit and selection are reset |
| TaskSlice.CreateIsGetThenReset | client/app/lookback/slices/taskSlice.ts:187-260 | create is get-tasks followed by resetting the edited task |
| TaskSlice.UpdateIsGetThenReset | client/app/lookback/slices/taskSlice.ts:266-292 | update and delete are get-tasks followed by resetting edit and selection |
| TaskSlice.AgreesWithLocalPatch | client/app/lookback/slices/taskSlice.ts:251-292 | given the locally patched list, the two slices produce the same state |
| UseTasks.CreateTask | client/app/lookback/hooks/useTasks.ts:64-65 | the created task goes first and the edit is cleared |
| UseTasks.UpdateTask | client/app/lookback/hooks/useTasks.ts:79-81 | entries with the submitted id become the returned task, the rest are unchanged, and both selections are cleared |
| UseTasks.DeleteTask | client/app/lookback/hooks/useTasks.ts:91-93 | exactly the tasks with another id are kept and both selections are cleared |
| UseTasks.UpdateAgreesWithReducer | client/app/lookback/hooks/useTasks.ts:79 | when the server returns the submitted id, the hook patches the list as the reducer does |
| UseTasks.UpdateMatchesSubmittedId | client/app/lookback/hooks/useTasks.ts:79 | the match is on the submitted id: after a reply with another id, none of the submitted id's entries remain |
| UseTasks.DeleteAfterCreate | client/app/lookback/hooks/useTasks.ts:64-91 | deleting a created task's id yields the old list with that id dropped, in order |
| UseTasks.DeleteIdempotent | client/app/lookback/hooks/useTasks.ts:91-93 | deleting twice is deleting once |
| UserGroupSlice.ErrorMessage | client/app/lookback/slices/userGroupSlice.ts:82 | a non-empty `message` wins, otherwise `error` |
| UserGroupSlice.HandleLoading | client/app/lookback/slices/userGroupSlice.ts:95-97 | a pending request sets loading and changes nothing else |
| UserGroupSlice.HandleError | client/app/lookback/slices/userGroupSlice.ts:76-86 | a 401 leaves the state unchanged; any other status fails with the message |
| UserGroupSlice.HandleLoginError | client/app/lookback/slices/userGroupSlice.ts:88-93 | fails with the message whatever the status |
| UserGroupSlice.Succeed | client/app/lookback/slices/userGroupSlice.ts:108-112 | succeeded, the returned groups, the given message |
| UserGroupSlice.Reduce | client/app/lookback/slices/userGroupSlice.ts:102-134 | each action goes to its case: pending to loading, create/update/delete fulfilled to their messages, get fulfilled replaces only the groups, create rejected to the login-error handler, others to the error handler |
| UserGroupSlice.GetLeavesLoading | client/app/lookback/slices/userGroupSlice.ts:115-119 | a pending then fulfilled fetch leaves the status loading |
| UserGroupSlice.UnauthorizedOnlyFailsCreate | client/app/lookback/slices/userGroupSlice.ts:76-113 | on a 401, get/update/delete rejections leave the state unchanged while create fails |
| UserGroupSlice.RejectionsAgreeOtherwise | client/app/lookback/slices/userGroupSlice.ts:76-93 | apart from 401, all four rejections produce the same state |
| UserGroupSlice.FailureShowsText | client/app/lookback/slices/userGroupSlice.ts:88-93 | a create failure shows a non-empty message when the error body has text |
| UserGroupSlice.OutcomeAfterPending | client/app/lookback/slices/userGroupSlice.ts:120-126 | after pending: fulfilled succeeds; rejected fails, or stays loading on 401 |
| UserSlice.LoginFulfilled | client/app/lookback/slices/userSlice.ts:67-73 | the id and name come from the payload |
| UserSlice.LoginForgetsPrevious | client/app/lookback/slices/userSlice.ts:67-73 | the result depends neither on the prior state nor on the payload's group id |
| UserSlice.LoginUserAsWritten | client/app/lookback/slices/userSlice.ts:62-64 | as written, the reducer returns the state unchanged |
| UserSlice.LoginUserAsWrittenIgnoresPayload | client/app/lookback/slices/userSlice.ts:62-64 | from the initial state, logging in user 1 still leaves no user, unlike the login-fulfilled case |
| UserSlice.LoginUser | client/app/lookback/slices/userSlice.ts:62-64 | as intended: the payload's id and name become the state |
| UserSlice.LoginUserAgreesWithLogin | client/app/lookback/slices/userSlice.ts:62-73 | the intended reducer equals the login-fulfilled case |
| Sorting.Insert | client/app/lookback/components/task/TaskList.tsx:65 | inserting into a sorted list keeps it sorted and adds exactly the element |
| Sorting.Sort | client/app/lookback/components/task/TaskList.tsx:65-73 | the result is sorted and a permutation of the input; its stability is Sorting.SortStable |
| Sorting.InsertAtEnd | client/app/lookback/components/task/TaskList.tsx:65 | an element nothing sorts after goes to the end |
| Sorting.SortSorted | client/app/lookback/reducer/taskSlice.ts:226 | sorting a sorted list leaves it unchanged |
| Sorting.SortIdempotent | client/app/lookback/components/task/TaskList.tsx:65 | sorting twice is sorting once |
| Sorting.InsertTies | client/app/lookback/components/task/TaskList.tsx:65-73 | an inserted element comes after every element it ties with, and the ties already present keep their order |
| Sorting.SortStable | client/app/lookback/components/task/TaskList.tsx:65-73 | sorting is stable: the elements tying with any given one appear in the same order before and after |
| TaskList.CellOf | client/app/lookback/components/task/TaskList.tsx:66-68 | a field's value is numeric exactly for the numeric fields |
| TaskList.TextLessIrreflexive | client/app/lookback/components/task/TaskList.tsx:66-68 | no string is less than itself |
| TaskList.TextLessTransitive | client/app/lookback/components/task/TaskList.tsx:66-68 | string `<` is transitive |
| TaskList.TextLessTotal | client/app/lookback/components/task/TaskList.tsx:66-68 | two different strings are ordered one way or the other |
| TaskList.CellLessOrder | client/app/lookback/components/task/TaskList.tsx:66-72 | `<` on one field's values is a strict total order |
| TaskList.PrecedesIsTotal | client/app/lookback/components/task/TaskList.tsx:65-73 | the comparator for either order is a total preorder on rows |
| TaskList.Initial | client/app/lookback/components/task/TaskList.tsx:56-60 | rows are the tasks, the order is descending, and no column is active |
| TaskList.ClickSort | client/app/lookback/components/task/TaskList.tsx:62-80 | the clicked column becomes active; another column sorts descending and the active one flips; the rows are a permutation, non-decreasing in asc and non-increasing in desc |
| TaskList.ClickSortStable | client/app/lookback/components/task/TaskList.tsx:64-73 | rows whose clicked field holds equal values (the comparator returns 0) keep their previous relative order |
| TaskList.ResetRows | client/app/lookback/components/task/TaskList.tsx:82-87 | rows become the new tasks; order and active column are kept |
| TaskList.ClickAgainFlips | client/app/lookback/components/task/TaskList.tsx:63-64 | repeated clicks on one column alternate the order |
| TaskList.AscendingMeansNonDecreasing | client/app/lookback/components/task/TaskList.tsx:65-73 | in ascending order each row's value is at most any later row's |
| TaskList.ClickOnSortedRows | client/app/lookback/components/task/TaskList.tsx:65-73 | rows already in the requested order are left as they are |
| TaskList.ClickTwiceKeepsRows | client/app/lookback/components/task/TaskList.tsx:65 | two clicks still permute the same rows |
| TaskList.ResetAfterSort | client/app/lookback/components/task/TaskList.tsx:75-87 | a task change discards the sorted order but keeps the header state |
| TaskList.DeleteClick | client/app/lookback/components/task/TaskList.tsx:213-218 | delete is dispatched, with the row's id, iff the row's owner is the login user |
| TaskList.ToPost | client/app/lookback/components/task/TaskList.tsx:226 | the edited task carries the row's editable fields |
| TaskList.EditClick | client/app/lookback/components/task/TaskList.tsx:224-227 | an owner's edit makes the row the edited task and nothing else changes; anyone else's click changes nothing |
| TaskList.RowClick | client/app/lookback/components/task/TaskList.tsx:185-188 | the row is selected and the edit is reset |
| TaskList.AddNew | client/app/lookback/components/task/TaskList.tsx:128-142 | a fresh edited task with id 0 and the login user as responsible; the selection is cleared |
| TaskList.RowClickForgetsEdit | client/app/lookback/components/task/TaskList.tsx:185-188 | a row click discards any pending edit |
| TaskList.DeleteOnlyOwn | client/app/lookback/components/task/TaskList.tsx:216-218 | a delete that goes through is the owner's, and once answered no task with that id remains |
| TaskList.EditThenRowClick | client/app/lookback/components/task/TaskList.tsx:185-226 | an edit followed by a row click leaves only the selection |
| Auth.PasswordCheck | client/app/lookback/components/Auth.tsx:48 | the scan succeeds iff some letter and some digit occur, in either order, with no line terminator between them |
| Auth.NoMatchEndingAt | client/app/lookback/components/Auth.tsx:48 | a match cannot span the last line terminator |
| Auth.PasswordIssues | client/app/lookback/components/Auth.tsx:52-54 | the length message appears iff the password is shorter than 8; the letter-and-digit message iff the pattern fails; length comes first |
| Auth.FirstOrEmpty | client/app/lookback/components/Auth.tsx:90-91 | the first message, or `""` when there is none |
| Auth.Validate | client/app/lookback/components/Auth.tsx:50-91 | accepted iff at least 8 characters and the pattern holds; on rejection the user name has no error and the password shows the first failing message |
| Auth.IsDisabled | client/app/lookback/components/Auth.tsx:68-70 | disabled iff the user name or the password is empty |
| Auth.ChangeField | client/app/lookback/components/Auth.tsx:72-77 | only the edited field changes, and only its error is cleared |
| Auth.ToggleView | client/app/lookback/components/Auth.tsx:168 | the link flips login and register view and keeps the input |
| Auth.Submit | client/app/lookback/components/Auth.tsx:86-111 | rejected: the errors are shown and nothing is sent; accepted: the credential is sent as login or register by the view |
| Auth.ShortPasswordBlocked | client/app/lookback/components/Auth.tsx:52-93 | a password under 8 characters is never sent and shows the length message |
| Auth.SentPasswordsAreStrong | client/app/lookback/components/Auth.tsx:50-97 | a sent password has 8 or more characters and matches the pattern |
| Auth.LettersOnlyRejected | client/app/lookback/components/Auth.tsx:48-54 | eight letters fail with the letter-and-digit message |
| Auth.LineBreakSeparates | client/app/lookback/components/Auth.tsx:48 | a letter and a digit separated by a line break do not satisfy the pattern |
| Auth.StrongPasswordSent | client/app/lookback/components/Auth.tsx:68-97 | `abcdefg1` with a user name enables the button and is sent as a login |
| Auth.RetypeClearsOnlyPassword | client/app/lookback/components/Auth.tsx:72-93 | after a rejection, retyping the password clears its error and keeps the user name's |
| Email.IsDisabled | client/app/lookback/components/profile/Email.tsx:41 | disabled iff the new address is empty |
| Email.Validate | client/app/lookback/components/profile/Email.tsx:43-53 | fails iff the new address equals the current one, with the fixed message |
| Email.ChangeInput | client/app/lookback/components/profile/Email.tsx:55-58 | typing replaces the address and clears the error |
| Email.Update | client/app/lookback/components/profile/Email.tsx:60-68 | an unchanged address shows the error and sends nothing; any other is sent as typed |
| Email.SentAddressIsNew | client/app/lookback/components/profile/Email.tsx:41-68 | through the enabled button only a non-empty, different address is sent |
| Email.RetryAfterRejection | client/app/lookback/components/profile/Email.tsx:55-68 | after a rejection, typing a different address clears the error and the next update sends it |
| Email.RejectionRepeats | client/app/lookback/components/profile/Email.tsx:60-66 | clicking again without typing is rejected the same way |
| TaskForm.IsDisabled | client/app/lookback/components/task/TaskForm.tsx:125-129 | save is disabled iff task or description is empty, or responsible or category is 0 |
| TaskForm.IsCatDisabled | client/app/lookback/components/task/TaskForm.tsx:131 | category save is disabled iff the text is empty |
| TaskForm.ChangeText | client/app/lookback/components/task/TaskForm.tsx:137-144 | only the named text field of the edited task changes |
| TaskForm.ChangeEstimate | client/app/lookback/components/task/TaskForm.tsx:137-144 | only the estimate changes |
| TaskForm.SelectResponsible | client/app/lookback/components/task/TaskForm.tsx:150-153 | only the responsible user changes |
| TaskForm.SelectStatus | client/app/lookback/components/task/TaskForm.tsx:155-158 | only the status changes |
| TaskForm.SelectCategory | client/app/lookback/components/task/TaskForm.tsx:160-163 | only the category changes |
| TaskForm.UserChoices | client/app/lookback/components/task/TaskForm.tsx:165-169 | a blank id-0 entry, then every user in order |
| TaskForm.CategoryChoices | client/app/lookback/components/task/TaskForm.tsx:170-174 | a blank id-0 entry, then every category in order |
| TaskForm.Save | client/app/lookback/components/task/TaskForm.tsx:289-299 | nothing while disabled; otherwise update iff the id is non-zero, else create, carrying the edited task |
| TaskForm.Cancel | client/app/lookback/components/task/TaskForm.tsx:308-311 | edited and selected task return to the blank records; nothing else changes |
| TaskForm.OpenDialog | client/app/lookback/components/task/TaskForm.tsx:119-121 | the dialog opens and keeps its text |
| TaskForm.ChangeCategoryText | client/app/lookback/components/task/TaskForm.tsx:133-135 | typing replaces the dialog's text |
| TaskForm.SaveCategory | client/app/lookback/components/task/TaskForm.tsx:278-282 | while enabled, the typed name is sent and the dialog closes; the text is kept either way |
| TaskForm.ChosenUserListed | client/app/lookback/components/task/TaskForm.tsx:165 | every fetched user has its entry after the blank one |
| TaskForm.BlankChoiceDisables | client/app/lookback/components/task/TaskForm.tsx:128-165 | choosing the blank responsible entry disables save |
| TaskForm.SelectionsCommute | client/app/lookback/components/task/TaskForm.tsx:150-163 | the select handlers commute |
| TaskForm.AddNewSavesAsCreate | client/app/lookback/components/task/TaskForm.tsx:295-299 | after "Add new" and filling the fields, save is a create with the login user as responsible |
| TaskForm.EditRowSavesAsUpdate | client/app/lookback/components/task/TaskForm.tsx:295-297 | after editing an owned row with an id, save is an update of that row's fields |
| TaskForm.SaveDisabledAfterReset | client/app/lookback/components/task/TaskForm.tsx:125-311 | after cancel, or after a create comes back, save is disabled |
| TaskForm.CategoryTextKept | client/app/lookback/components/task/TaskForm.tsx:278-282 | the dialog keeps its text, so reopening and saving sends the same name again |

## Left out

- HTTP requests, thunks, cookies, local storage and the router are left out. Every fulfilled or rejected case takes the value the request resolved with. Redirects (`router.push`) are left out; on the rejected paths that only redirect, the state is unchanged.
- The bodies of `swapTasks`, `updateTasks` and `deleteTasks` are not part of this model: `useTaskGroups.ts` destructures an array from `useTasks()`, which returns an object. Their assumed behaviour is described above.
  - There are no error kinds for out-of-range indices, because no shown code raises any.
  - The primitives, `Column.Hover` and `Column.AddCard` require valid indices for that reason.
- Column.Hover: requires an arranged store and a drag item that names its card. The handler itself runs on any store; for other stores, only `Column.HandleDrop`'s arithmetic is modelled.
- Sorting.Sort: `Array.prototype.sort` is stable but its algorithm is unspecified. The model is an insertion sort. For a total preorder, a sorted permutation that keeps ties in order (Sorting.SortStable) is unique, so any stable sort gives the same result.
- TaskReducer.CreateCategoryFulfilled: `localeCompare` is a parameter `collate`, assumed to be a total preorder. Locale tables are foreign.
- TaskList.TextLess: JavaScript compares strings by UTF-16 code unit, the model by Unicode scalar value. The two orders differ only between supplementary-plane characters and U+E000–U+FFFF.
- Auth.Validate: the schema's `min(8)` counts UTF-16 code units, the model counts Unicode scalar values.
- Estimates are JavaScript numbers and are modelled as integers. `Number()` conversion of the estimate input and the date picker (`handleSelectDate`) are left out.
- TaskList.ToPost: `editTask(row)` stores the whole row object as the edited task. The model keeps only the fields the edited-task record has.
- TaskList.AddNew: the source's edited task has a `criteria` field, which the record lacks, and no start date. The model drops `criteria` and uses an empty start date.
- `slices/taskSlice.ts` uses capitalized field names and a numeric status. It shares the records of `reducer/taskSlice.ts`, because its reducers only move whole records around.
- The fetch effects of `useTasks` (the setters filled from GET requests) are left out, as is its stale-closure behaviour: each update reads the `tasks` of the render that created it.
- The Go backend, rendering, modals, the calendar, the snackbar in `Auth.tsx` and the react-dnd wiring are left out.
- The 30-character input limit of the e-mail field is enforced by the browser and is left out.

## Findings

| source | as written | input that shows it | evidently intended | confidence | as-written member | corrected member |
|---|---|---|---|---|---|---|
| client/app/lookback/slices/userSlice.ts:62-64 | `loginUser` assigns the payload to its `state` parameter; under Immer this rebinding is discarded and the state is unchanged | initial state `{ID: 0, Name: ""}` with payload `{ID: 1, Name: "alice", UserGroupID: 0}` stays `{ID: 0, Name: ""}` | the payload becomes the logged-in user, as in the login-fulfilled case | not executed | UserSlice.LoginUserAsWrittenIgnoresPayload | UserSlice.LoginUserAgreesWithLogin |
