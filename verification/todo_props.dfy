/** Properties of the in-memory repository: the invariant each operation
    keeps, what each mutation leaves alone, toggle's self-inverse, remove's
    exact effect and idempotence, how the completion counts move, and what
    holds after any sequence of operations. */
module TodoProperties {
  import opened Wrappers
  import opened Title
  import opened Todo

  // ---------------------------------------------------------------------
  // Helper facts about the list functions

  /** `IndexOf` looks only at ids, so two lists with the same ids agree on it. */
  lemma {:induction false} IndexOfSameIds(a: seq<Task>, b: seq<Task>, id: TaskId)
    requires Ids(a) == Ids(b)
    ensures IndexOf(a, id) == IndexOf(b, id)
  {
    if a != [] {
      assert a[0].id == Ids(a)[0] == Ids(b)[0] == b[0].id;
      assert Ids(a[1..]) == Ids(a)[1..] == Ids(b)[1..] == Ids(b[1..]);
      IndexOfSameIds(a[1..], b[1..], id);
    }
  }

  /** Filtering out an id that no task carries changes nothing. */
  lemma {:induction false} WithoutAbsent(ts: seq<Task>, id: TaskId)
    requires !HasId(ts, id)
    ensures Without(ts, id) == ts
  {
    if ts != [] {
      assert ts[0].id != id;
      WithoutAbsent(ts[1..], id);
    }
  }

  /** With ascending ids, the first task's id occurs nowhere else, so
      filtering it out just drops the head. */
  lemma WithoutHead(ts: seq<Task>)
    requires IdsAscending(ts)
    requires |ts| > 0
    ensures Without(ts, ts[0].id) == ts[1..]
  {
    assert !HasId(ts[1..], ts[0].id) by {
      forall k | 0 <= k < |ts| - 1
        ensures ts[1..][k].id != ts[0].id
      {
        assert ts[0].id < ts[k + 1].id;
      }
    }
    WithoutAbsent(ts[1..], ts[0].id);
  }

  /** With ascending ids, filtering out a present id removes exactly the
      one task at its index and keeps the others in their order. */
  lemma {:induction false} WithoutSplice(ts: seq<Task>, id: TaskId, i: nat)
    requires IdsAscending(ts)
    requires i < |ts| && ts[i].id == id
    ensures Without(ts, id) == ts[..i] + ts[i + 1..]
  {
    if i == 0 {
      WithoutHead(ts);
    } else {
      var tail := ts[1..];
      assert IdsAscending(tail);
      assert ts[0].id < ts[i].id;
      calc {
        Without(ts, id);
        [ts[0]] + Without(tail, id);
        { WithoutSplice(tail, id, i - 1); }
        [ts[0]] + (tail[..i - 1] + tail[i..]);
        { assert ts[..i] == [ts[0]] + tail[..i - 1]; }
        ts[..i] + ts[i + 1..];
      }
    }
  }

  /** Every task that survives the filter comes from `ts`, after `ts[0]`'s
      position when taken from the tail; so ascending ids stay ascending. */
  lemma {:induction false} WithoutKeepsAscending(ts: seq<Task>, id: TaskId)
    requires IdsAscending(ts)
    ensures IdsAscending(Without(ts, id))
  {
    if ts != [] {
      var tail := ts[1..];
      assert IdsAscending(tail);
      WithoutKeepsAscending(tail, id);
      var rest := Without(tail, id);
      forall k | 0 <= k < |rest|
        ensures ts[0].id < rest[k].id
      {
        assert rest[k] in tail;
        var m :| 0 <= m < |tail| && tail[m] == rest[k];
        assert ts[m + 1] == rest[k];
      }
    }
  }

  lemma {:induction false} CountDoneAppend(a: seq<Task>, b: seq<Task>)
    ensures CountDone(a + b) == CountDone(a) + CountDone(b)
  {
    if a == [] {
      assert a + b == b;
    } else {
      assert (a + b)[1..] == a[1..] + b;
      CountDoneAppend(a[1..], b);
    }
  }

  lemma CountDoneAppendOne(ts: seq<Task>, t: Task)
    ensures CountDone(ts + [t]) == CountDone(ts) + (if t.done then 1 else 0)
  {
    CountDoneAppend(ts, [t]);
    assert [t][1..] == [];
  }

  /** Cutting one task out of a list drops the done count by that task's
      `done` flag. */
  lemma {:induction false} CountDoneSplice(ts: seq<Task>, i: nat)
    requires i < |ts|
    ensures CountDone(ts[..i] + ts[i + 1..]) == CountDone(ts) - (if ts[i].done then 1 else 0)
  {
    if i == 0 {
      assert ts[..i] + ts[i + 1..] == ts[1..];
    } else {
      var tail := ts[1..];
      CountDoneSplice(tail, i - 1);
      assert ts[..i] + ts[i + 1..] == [ts[0]] + (tail[..i - 1] + tail[i..]);
    }
  }

  /** With ascending ids, filtering out the id at index `i` drops the done
      count by that task's `done` flag. */
  lemma CountDoneWithout(ts: seq<Task>, id: TaskId, i: nat)
    requires IdsAscending(ts)
    requires i < |ts| && ts[i].id == id
    ensures |Without(ts, id)| == |ts| - 1
    ensures CountDone(Without(ts, id)) == CountDone(ts) - (if ts[i].done then 1 else 0)
  {
    WithoutSplice(ts, id, i);
    CountDoneSplice(ts, i);
  }

  /** Replacing one task moves the done count by the difference in that
      task's `done` flag. */
  lemma {:induction false} CountDoneUpdate(ts: seq<Task>, i: nat, t: Task)
    requires i < |ts|
    ensures CountDone(ts[i := t])
         == CountDone(ts) - (if ts[i].done then 1 else 0) + (if t.done then 1 else 0)
  {
    if i == 0 {
      assert ts[i := t][1..] == ts[1..];
    } else {
      assert ts[i := t][1..] == ts[1..][i - 1 := t];
      CountDoneUpdate(ts[1..], i - 1, t);
    }
  }

  // ---------------------------------------------------------------------
  // Titles

  /** Every title a valid repository holds is non-empty and equal to its own
      normalisation, so normalising a stored title again is a no-op. */
  lemma StoredTitlesAreNormal(s: Repo, i: nat)
    requires Valid(s)
    requires i < |s.tasks|
    ensures s.tasks[i].title != []
    ensures Normalise(s.tasks[i].title) == s.tasks[i].title
  {
    NormalisedIffStripped(s.tasks[i].title);
  }

  // ---------------------------------------------------------------------
  // The invariant, operation by operation

  lemma InitValid()
    ensures Valid(Init())
    ensures CompletionStats(Init()) == (0, 0)
  {
  }

  /** Appending a task whose id is the counter's value and whose title is a
      stored title, then advancing the counter, keeps the invariant. */
  lemma AppendPreservesValid(s: Repo, t: Task)
    requires Valid(s)
    requires t.id == s.nextId && IsStoredTitle(t.title)
    ensures Valid(Repo(s.tasks + [t], s.nextId + 1))
  {
  }

  /** `add` keeps the invariant: the new id is the counter's value, above
      every id already stored, and the counter moves past it. */
  lemma AddPreservesValid(s: Repo, title: string)
    requires Valid(s)
    ensures Valid(Add(s, title).0)
  {
    var out := Add(s, title);
    if !IsBlank(title) {
      assert out.0 == Repo(s.tasks + [out.1.value], s.nextId + 1);
      AppendPreservesValid(s, out.1.value);
    }
  }

  /** The id `add` hands out is greater than every id already in the list,
      so in particular it is not one of them. */
  lemma AddIssuesFreshId(s: Repo, title: string)
    requires Valid(s)
    requires !IsBlank(title)
    ensures forall i :: 0 <= i < |s.tasks| ==> s.tasks[i].id < Add(s, title).1.value.id
    ensures !HasId(s.tasks, Add(s, title).1.value.id)
  {
  }

  /** `toggle` keeps the invariant: ids, titles and the counter are as before. */
  lemma TogglePreservesValid(s: Repo, id: TaskId)
    requires Valid(s)
    ensures Valid(Toggle(s, id).0)
  {
  }

  /** In a valid state the task with the given id is the only one that
      changes: it gets its `done` flipped and every other entry is kept. */
  lemma ToggleTouchesOnlyTarget(s: Repo, id: TaskId)
    requires Valid(s)
    requires HasId(s.tasks, id)
    ensures |Toggle(s, id).0.tasks| == |s.tasks|
    ensures forall j :: 0 <= j < |s.tasks| ==>
      Toggle(s, id).0.tasks[j] == (if s.tasks[j].id == id then Flip(s.tasks[j]) else s.tasks[j])
  {
    var i := IndexOf(s.tasks, id).value;
    forall j | 0 <= j < |s.tasks| && j != i
      ensures s.tasks[j].id != id
    {
      if j < i {
        assert s.tasks[j].id < s.tasks[i].id;
      } else {
        assert s.tasks[i].id < s.tasks[j].id;
      }
    }
  }

  /** Toggling the same id twice gives back the original state; on a present
      id the second toggle returns the task exactly as it was before. */
  lemma ToggleTwiceRestores(s: Repo, id: TaskId)
    ensures Toggle(Toggle(s, id).0, id).0 == s
    ensures HasId(s.tasks, id) ==>
      Toggle(Toggle(s, id).0, id).1 == Success(s.tasks[IndexOf(s.tasks, id).value])
  {
    var (s1, r1) := Toggle(s, id);
    if r1.Success? {
      var i := IndexOf(s.tasks, id).value;
      assert Ids(s1.tasks) == Ids(s.tasks);
      IndexOfSameIds(s1.tasks, s.tasks, id);
      assert s1.tasks[i := Flip(s1.tasks[i])] == s.tasks;
    }
  }

  /** `remove` keeps the invariant: the survivors keep their ids, titles and
      order and the counter is untouched. */
  lemma RemovePreservesValid(s: Repo, id: TaskId)
    requires Valid(s)
    ensures Valid(Remove(s, id))
  {
    WithoutKeepsAscending(s.tasks, id);
    var r := Remove(s, id).tasks;
    forall k | 0 <= k < |r|
      ensures 0 <= r[k].id < s.nextId && IsStoredTitle(r[k].title)
    {
      assert r[k] in s.tasks;
    }
  }

  /** In a valid state `remove` yields exactly the previous list with the
      task carrying that id cut out and the others in their old order; an
      absent id leaves the state as it was. */
  lemma RemoveExact(s: Repo, id: TaskId)
    requires Valid(s)
    ensures IndexOf(s.tasks, id).None? ==> Remove(s, id) == s
    ensures IndexOf(s.tasks, id).Some? ==>
      var i := IndexOf(s.tasks, id).value;
      Remove(s, id).tasks == s.tasks[..i] + s.tasks[i + 1..]
  {
    match IndexOf(s.tasks, id)
    case None => WithoutAbsent(s.tasks, id);
    case Some(i) => WithoutSplice(s.tasks, id, i);
  }

  /** Removing the same id twice is the same as removing it once. */
  lemma RemoveIdempotent(s: Repo, id: TaskId)
    ensures Remove(Remove(s, id), id) == Remove(s, id)
  {
    WithoutAbsent(Remove(s, id).tasks, id);
  }

  // ---------------------------------------------------------------------
  // Completion statistics under each mutation

  /** Adding a task increases the total by one and leaves the done count. */
  lemma AddStats(s: Repo, title: string)
    requires !IsBlank(title)
    ensures CompletionStats(Add(s, title).0)
         == (CompletionStats(s).0, CompletionStats(s).1 + 1)
  {
    var out := Add(s, title);
    assert out.0.tasks == s.tasks + [out.1.value];
    CountDoneAppendOne(s.tasks, out.1.value);
  }

  /** Toggling a present id moves the done count by one, up if the task was
      open and down if it was done; the total stays. */
  lemma ToggleStats(s: Repo, id: TaskId)
    requires HasId(s.tasks, id)
    ensures var i := IndexOf(s.tasks, id).value;
      CompletionStats(Toggle(s, id).0)
      == (if s.tasks[i].done then CompletionStats(s).0 - 1 else CompletionStats(s).0 + 1,
          CompletionStats(s).1)
  {
    var i := IndexOf(s.tasks, id).value;
    CountDoneUpdate(s.tasks, i, Flip(s.tasks[i]));
  }

  /** In a valid state removing a present task drops the total by one, and
      the done count by one exactly when that task was done. */
  lemma RemoveStats(s: Repo, id: TaskId)
    requires Valid(s)
    requires HasId(s.tasks, id)
    ensures var i := IndexOf(s.tasks, id).value;
      CompletionStats(Remove(s, id))
      == (if s.tasks[i].done then CompletionStats(s).0 - 1 else CompletionStats(s).0,
          CompletionStats(s).1 - 1)
  {
    var i := IndexOf(s.tasks, id).value;
    CountDoneWithout(s.tasks, id, i);
  }

  // ---------------------------------------------------------------------
  // Order of the listing

  /** A valid repository lists its tasks in ascending id order, which is the
      order the SQLite backend's `ORDER BY id` query produces (todo.py:79). */
  lemma ListTasksOrderedById(s: Repo)
    requires Valid(s)
    ensures forall i, j :: 0 <= i < j < |ListTasks(s)| ==> ListTasks(s)[i].id < ListTasks(s)[j].id
  {
  }

  // ---------------------------------------------------------------------
  // Any sequence of operations

  /** One call of a repository method, as a client of `TaskRepository`
      would make it. */
  datatype Op =
    | AddOp(title: string)
    | ToggleOp(id: TaskId)
    | RemoveOp(id: TaskId)
    | ListOp
    | StatsOp

  /** The state after one call; `list_tasks` and `completion_stats` only
      read, and a failing `toggle` leaves the state as it was. */
  function Step(s: Repo, op: Op): Repo {
    match op
    case AddOp(title) => Add(s, title).0
    case ToggleOp(id) => Toggle(s, id).0
    case RemoveOp(id) => Remove(s, id)
    case ListOp => s
    case StatsOp => s
  }

  /** The state after a whole sequence of calls. */
  function Run(s: Repo, ops: seq<Op>): Repo
    decreases |ops|
  {
    if ops == [] then s else Run(Step(s, ops[0]), ops[1..])
  }

  lemma StepPreservesValid(s: Repo, op: Op)
    requires Valid(s)
    ensures Valid(Step(s, op))
    ensures Step(s, op).nextId >= s.nextId
  {
    match op
    case AddOp(title) => AddPreservesValid(s, title);
    case ToggleOp(id) => TogglePreservesValid(s, id);
    case RemoveOp(id) => RemovePreservesValid(s, id);
    case ListOp =>
    case StatsOp =>
  }

  /** After any sequence of calls from a valid state the state is still
      valid, and the id counter has never gone down. */
  lemma {:induction false} RunPreservesValid(s: Repo, ops: seq<Op>)
    requires Valid(s)
    ensures Valid(Run(s, ops))
    ensures Run(s, ops).nextId >= s.nextId
    decreases |ops|
  {
    if ops != [] {
      StepPreservesValid(s, ops[0]);
      RunPreservesValid(Step(s, ops[0]), ops[1..]);
    }
  }

  lemma HasIdAppend(ts: seq<Task>, t: Task, id: TaskId)
    requires t.id != id
    requires !HasId(ts, id)
    ensures !HasId(ts + [t], id)
  {
  }

  /** `add` introduces only the counter's value as a new id. */
  lemma AddKeepsIdAbsent(s: Repo, title: string, id: TaskId)
    requires id < s.nextId
    requires !HasId(s.tasks, id)
    ensures !HasId(Add(s, title).0.tasks, id)
  {
    if !IsBlank(title) {
      var out := Add(s, title);
      assert out.0.tasks == s.tasks + [out.1.value];
      HasIdAppend(s.tasks, out.1.value, id);
    }
  }

  /** `toggle` keeps the ids of the list as they were, in the same order. */
  lemma ToggleKeepsIds(s: Repo, id: TaskId)
    ensures Ids(Toggle(s, id).0.tasks) == Ids(s.tasks)
  {
  }

  /** One call never brings back an id below the counter that the list
      lacks: `add` uses the counter's value, `toggle` keeps every id and
      `remove` only drops tasks. */
  lemma StepKeepsIdAbsent(s: Repo, op: Op, id: TaskId)
    requires Valid(s)
    requires id < s.nextId
    requires !HasId(s.tasks, id)
    ensures !HasId(Step(s, op).tasks, id)
  {
    match op
    case AddOp(title) => AddKeepsIdAbsent(s, title, id);
    case ToggleOp(x) => ToggleKeepsIds(s, x);
    case RemoveOp(x) =>
    case ListOp =>
    case StatsOp =>
  }

  /** Ids are never reused: an id below the counter that is not in the list
      (one that was issued and then removed) is never in the list again,
      whatever calls follow. */
  lemma {:induction false} RemovedIdNeverReturns(s: Repo, ops: seq<Op>, id: TaskId)
    requires Valid(s)
    requires id < s.nextId
    requires !HasId(s.tasks, id)
    ensures !HasId(Run(s, ops).tasks, id)
    decreases |ops|
  {
    if ops != [] {
      var s1 := Step(s, ops[0]);
      StepPreservesValid(s, ops[0]);
      StepKeepsIdAbsent(s, ops[0], id);
      RemovedIdNeverReturns(s1, ops[1..], id);
    }
  }

  /** A removed id stays gone for the rest of the repository's life. */
  lemma RemoveThenRunNeverReissues(s: Repo, id: TaskId, ops: seq<Op>)
    requires Valid(s)
    requires HasId(s.tasks, id)
    ensures !HasId(Run(Remove(s, id), ops).tasks, id)
  {
    RemovePreservesValid(s, id);
    RemovedIdNeverReturns(Remove(s, id), ops, id);
  }
}
