/**
 * The records the task reducers and hooks pass around, and the two list
 * updates they share: replace the entries carrying an id, and drop them.
 * Field names follow the snake_case keys of `reducer/taskSlice.ts`.
 */
module Records {

  /** `READ_TASK`: a task as the server returns it. */
  datatype ReadTask = ReadTask(
    id: int,
    task: string,
    description: string,
    startDate: string,
    owner: int,
    ownerUsername: string,
    responsible: int,
    responsibleUsername: string,
    estimate: int,
    category: int,
    categoryItem: string,
    status: string,
    statusName: string,
    createdAt: string,
    updatedAt: string)

  /** `POST_TASK`: the editable part of a task, as the form sends it. */
  datatype PostTask = PostTask(
    id: int,
    task: string,
    description: string,
    startDate: string,
    responsible: int,
    estimate: int,
    category: int,
    status: string)

  /** `USER` as the task reducers hold it: `{ID, Name}`. */
  datatype Member = Member(id: int, name: string)

  /** `CATEGORY`: `{ID, Category}`. */
  datatype Category = Category(id: int, category: string)

  /** The placeholder task record of the initial state: id 0 and every field empty. */
  const BlankReadTask := ReadTask(0, "", "", "", 0, "", 0, "", 0, 0, "", "", "", "", "")

  /** The placeholder edited task of the initial state: id 0 and every field empty. */
  const BlankPostTask := PostTask(0, "", "", "", 0, 0, 0, "")

  /** `tasks.map(t => t.id === id ? x : t)`: every entry carrying `id` becomes `x`. */
  function ReplaceById(tasks: seq<ReadTask>, id: int, x: ReadTask): (r: seq<ReadTask>)
    ensures |r| == |tasks|
    ensures forall i :: 0 <= i < |r| && tasks[i].id == id ==> r[i] == x
    ensures forall i :: 0 <= i < |r| && tasks[i].id != id ==> r[i] == tasks[i]
  {
    if tasks == [] then []
    else [if tasks[0].id == id then x else tasks[0]] + ReplaceById(tasks[1..], id, x)
  }

  /** `tasks.filter(t => t.id !== id)`: every entry carrying `id` is dropped. */
  function RemoveById(tasks: seq<ReadTask>, id: int): (r: seq<ReadTask>)
    ensures |r| <= |tasks|
    ensures forall t :: t in r <==> t in tasks && t.id != id
  {
    if tasks == [] then []
    else (if tasks[0].id == id then [] else [tasks[0]]) + RemoveById(tasks[1..], id)
  }

  /** Does any entry carry `id`? */
  predicate HasId(tasks: seq<ReadTask>, id: int) {
    exists i :: 0 <= i < |tasks| && tasks[i].id == id
  }

  /** Replacing an id no entry carries changes nothing. */
  lemma ReplaceAbsentId(tasks: seq<ReadTask>, id: int, x: ReadTask)
    requires !HasId(tasks, id)
    ensures ReplaceById(tasks, id, x) == tasks
  {
  }

  /** Replacing with a record that carries the same id twice is the same as replacing once. */
  lemma ReplaceIdempotent(tasks: seq<ReadTask>, x: ReadTask)
    ensures ReplaceById(ReplaceById(tasks, x.id, x), x.id, x) == ReplaceById(tasks, x.id, x)
  {
  }

  /** Dropping an id after replacing it by a record with that id drops exactly what dropping alone would. */
  lemma {:induction false} RemoveAfterReplace(tasks: seq<ReadTask>, x: ReadTask)
    ensures RemoveById(ReplaceById(tasks, x.id, x), x.id) == RemoveById(tasks, x.id)
  {
    if tasks != [] {
      RemoveAfterReplace(tasks[1..], x);
      assert ReplaceById(tasks, x.id, x)[1..] == ReplaceById(tasks[1..], x.id, x);
    }
  }

  /** Dropping distributes over concatenation, so the kept entries stay in their order. */
  lemma {:induction false} RemoveAppend(a: seq<ReadTask>, b: seq<ReadTask>, id: int)
    ensures RemoveById(a + b, id) == RemoveById(a, id) + RemoveById(b, id)
  {
    if a == [] {
      assert a + b == b;
    } else {
      assert (a + b)[1..] == a[1..] + b;
      RemoveAppend(a[1..], b, id);
    }
  }

  /** Dropping an id twice is dropping it once. */
  lemma {:induction false} RemoveIdempotent(tasks: seq<ReadTask>, id: int)
    ensures RemoveById(RemoveById(tasks, id), id) == RemoveById(tasks, id)
  {
    if tasks != [] {
      RemoveIdempotent(tasks[1..], id);
      var head := if tasks[0].id == id then [] else [tasks[0]];
      RemoveAppend(head, RemoveById(tasks[1..], id), id);
    }
  }

  /** Dropping an id no entry carries changes nothing. */
  lemma {:induction false} RemoveAbsentId(tasks: seq<ReadTask>, id: int)
    requires !HasId(tasks, id)
    ensures RemoveById(tasks, id) == tasks
  {
    if tasks != [] {
      RemoveAbsentId(tasks[1..], id);
    }
  }
}
