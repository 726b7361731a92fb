/** The in-memory task repository of todo.py: an ordered list of immutable
    tasks plus a monotone id counter, with each repository method written as
    a pure transition from one state to the next. */
module Todo {
  import opened Wrappers
  import opened Title

  type TaskId = int

  /** The frozen `Task` dataclass (todo.py:9-13). */
  datatype Task = Task(id: TaskId, title: string, done: bool)

  /** `InMemoryTaskRepository`'s two fields: `_tasks` and `_next_id`. */
  datatype Repo = Repo(tasks: seq<Task>, nextId: nat)

  /** The `ValueError` that `toggle` raises for an unknown id. */
  datatype Error = NotFound(id: TaskId)

  /** Ids strictly increase along the list, so they are pairwise distinct. */
  predicate IdsAscending(ts: seq<Task>) {
    forall i, j :: 0 <= i < j < |ts| ==> ts[i].id < ts[j].id
  }

  /** Every id was issued by a counter that now stands at `next`. */
  predicate IdsBelow(ts: seq<Task>, next: int) {
    forall i :: 0 <= i < |ts| ==> 0 <= ts[i].id < next
  }

  /** A title `add` can have stored: non-empty and already stripped. */
  predicate IsStoredTitle(title: string) {
    title != [] && IsStripped(title)
  }

  predicate TitlesStored(ts: seq<Task>) {
    forall i :: 0 <= i < |ts| ==> IsStoredTitle(ts[i].title)
  }

  /** The invariant every reachable repository state keeps. */
  predicate Valid(s: Repo) {
    IdsAscending(s.tasks) && IdsBelow(s.tasks, s.nextId) && TitlesStored(s.tasks)
  }

  predicate HasId(ts: seq<Task>, id: TaskId) {
    exists i :: 0 <= i < |ts| && ts[i].id == id
  }

  /** The ids of the list, in list order. */
  function Ids(ts: seq<Task>): (r: seq<TaskId>)
    ensures |r| == |ts|
    ensures forall i :: 0 <= i < |ts| ==> r[i] == ts[i].id
  {
    if ts == [] then [] else [ts[0].id] + Ids(ts[1..])
  }

  /** `InMemoryTaskRepository()` (todo.py:37-39): no tasks, counter at 0. */
  function Init(): (s: Repo)
    ensures Valid(s)
    ensures |s.tasks| == 0 && s.nextId == 0
  {
    Repo([], 0)
  }

  /** `list_tasks` (todo.py:41-42): the stored tasks, in stored order. The
      copy Python makes is implicit, since sequences are values. */
  function ListTasks(s: Repo): (r: seq<Task>)
    ensures |r| == |s.tasks|
    ensures forall i :: 0 <= i < |r| ==> r[i] == s.tasks[i]
  {
    s.tasks
  }

  /** `add` (todo.py:44-52). A blank title creates nothing and leaves the
      state as it was; any other title appends one not-done task carrying
      the stripped title and the counter's value as its id, and advances the
      counter by one, leaving every earlier task where it was. */
  function Add(s: Repo, title: string): (out: (Repo, Option<Task>))
    ensures IsBlank(title) ==> out.0 == s && out.1 == None
    ensures !IsBlank(title) ==>
      && out.1.Some?
      && out.1.value.id == s.nextId
      && out.1.value.title == Normalise(title)
      && IsStoredTitle(out.1.value.title)
      && !out.1.value.done
      && |out.0.tasks| == |s.tasks| + 1
      && out.0.tasks[..|s.tasks|] == s.tasks
      && out.0.tasks[|s.tasks|] == out.1.value
      && out.0.nextId == s.nextId + 1
  {
    var normalised := Normalise(title);
    if normalised == [] then
      (s, None)
    else
      var task := Task(s.nextId, normalised, false);
      assert (s.tasks + [task])[..|s.tasks|] == s.tasks;
      (Repo(s.tasks + [task], s.nextId + 1), Some(task))
  }

  /** The position of the first task with id `id`, scanning from the front
      as `toggle`'s `enumerate` loop does; None when no task has that id. */
  function IndexOf(ts: seq<Task>, id: TaskId): (r: Option<nat>)
    ensures r.None? <==> !HasId(ts, id)
    ensures r.Some? ==>
      && r.value < |ts|
      && ts[r.value].id == id
      && forall k :: 0 <= k < r.value ==> ts[k].id != id
  {
    if |ts| == 0 then None
    else if ts[0].id == id then Some(0)
    else
      match IndexOf(ts[1..], id)
      case None =>
        assert forall k :: 1 <= k < |ts| ==> ts[k].id == ts[1..][k - 1].id;
        None
      case Some(k) => Some(k + 1)
  }

  /** `dataclasses.replace(task, done=not task.done)`. */
  function Flip(t: Task): (r: Task)
    ensures r.id == t.id && r.title == t.title && r.done != t.done
  {
    t.(done := !t.done)
  }

  /** `toggle` (todo.py:54-60). An unknown id fails with NotFound and the
      state stays as it was. Otherwise the first task with that id is
      replaced in place by a copy with `done` flipped, that copy is
      returned, and nothing else changes: same length, same order, same
      other tasks, same counter. */
  function Toggle(s: Repo, id: TaskId): (out: (Repo, Result<Task, Error>))
    ensures out.1.Failure? <==> !HasId(s.tasks, id)
    ensures out.1.Failure? ==> out.0 == s && out.1.error == NotFound(id)
    ensures out.1.Success? ==>
      var i := IndexOf(s.tasks, id).value;
      && out.1.value.id == id
      && out.1.value.title == s.tasks[i].title
      && out.1.value.done == !s.tasks[i].done
      && out.0.tasks == s.tasks[i := out.1.value]
      && out.0.nextId == s.nextId
  {
    match IndexOf(s.tasks, id)
    case None => (s, Failure(NotFound(id)))
    case Some(i) =>
      var updated := Flip(s.tasks[i]);
      (s.(tasks := s.tasks[i := updated]), Success(updated))
  }

  /** `[task for task in tasks if task.id != id]`: the tasks whose id
      differs from `id`. */
  function Without(ts: seq<Task>, id: TaskId): (r: seq<Task>)
    ensures |r| <= |ts|
    ensures forall t :: t in r <==> t in ts && t.id != id
  {
    if ts == [] then []
    else if ts[0].id == id then Without(ts[1..], id)
    else [ts[0]] + Without(ts[1..], id)
  }

  /** `remove` (todo.py:62-63): drops the task with that id, if any; the
      counter is untouched, so the freed id is never issued again. */
  function Remove(s: Repo, id: TaskId): (r: Repo)
    ensures r.nextId == s.nextId
    ensures !HasId(r.tasks, id)
    ensures forall t :: t in r.tasks <==> t in s.tasks && t.id != id
  {
    Repo(Without(s.tasks, id), s.nextId)
  }

  /** The number of tasks marked done. */
  function CountDone(ts: seq<Task>): (n: nat)
    ensures n <= |ts|
  {
    if ts == [] then 0
    else (if ts[0].done then 1 else 0) + CountDone(ts[1..])
  }

  /** The `done` flags of the list, in list order. */
  function Flags(ts: seq<Task>): (r: seq<bool>)
    ensures |r| == |ts|
    ensures forall i :: 0 <= i < |ts| ==> r[i] == ts[i].done
  {
    seq(|ts|, i requires 0 <= i < |ts| => ts[i].done)
  }

  /** The recursive count is the number of `true` flags, that is, the number
      of tasks marked done. */
  lemma {:induction false} CountDoneCountsFlags(ts: seq<Task>)
    ensures CountDone(ts) == multiset(Flags(ts))[true]
  {
    if ts != [] {
      CountDoneCountsFlags(ts[1..]);
      assert Flags(ts) == [ts[0].done] + Flags(ts[1..]);
    }
  }

  /** No task is done exactly when the count is zero, and every task is done
      exactly when the count is the length of the list. */
  lemma {:induction false} CountDoneExtremes(ts: seq<Task>)
    ensures CountDone(ts) == 0 <==> forall i :: 0 <= i < |ts| ==> !ts[i].done
    ensures CountDone(ts) == |ts| <==> forall i :: 0 <= i < |ts| ==> ts[i].done
  {
    if ts != [] {
      CountDoneExtremes(ts[1..]);
      assert forall i :: 1 <= i < |ts| ==> ts[i] == ts[1..][i - 1];
    }
  }

  /** `completion_stats` (todo.py:65-68): `(done, total)`, where total is
      the number of tasks and done the number of them marked done, so that
      done never exceeds total. */
  function CompletionStats(s: Repo): (r: (nat, nat))
    ensures r.1 == |s.tasks|
    ensures r.0 == multiset(Flags(s.tasks))[true]
    ensures r.0 <= r.1
    ensures r.0 == 0 <==> forall i :: 0 <= i < |s.tasks| ==> !s.tasks[i].done
    ensures r.0 == r.1 <==> forall i :: 0 <= i < |s.tasks| ==> s.tasks[i].done
  {
    CountDoneCountsFlags(s.tasks);
    CountDoneExtremes(s.tasks);
    (CountDone(s.tasks), |s.tasks|)
  }
}
