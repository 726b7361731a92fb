# In-memory task repository: a Dafny model

This project models the in-memory backend of a single-user to-do list, `InMemoryTaskRepository` in `todo.py`. It also models the title normalisation that backend relies on. The repository holds two things: an ordered list of immutable `Task` values (`id`, `title`, `done`) and an id counter that only ever goes up. Its five operations are modelled as pure state transitions:

- `list_tasks` reads the list.
- `add` strips the title. A blank title creates nothing. Any other title appends a new open task whose id is the counter's value.
- `toggle` replaces the task with the given id by a copy whose `done` is flipped. An unknown id fails.
- `remove` filters out the task with the given id. An absent id changes nothing.
- `completion_stats` returns the done count and the total.

Files:

- `wrappers.dfy` (module `Wrappers`): `Option`, which models Python's `None`, and `Result`, which models the raised `ValueError`.
- `title.dfy` (module `Title`): the whitespace table behind Python's `str.strip`, plus `TrimStart`, `TrimEnd`, `Strip` and `Normalise` (`_normalise_title`). It also holds the uniqueness, fixpoint and blankness facts about them.
- `todo.dfy` (module `Todo`): `Task` and the repository state `Repo(tasks, nextId)`. It defines the invariant `Valid`: ids strictly ascend along the list, every id lies in `0 .. nextId-1`, and every title is non-empty and already stripped. The five operations and `InMemoryTaskRepository()` live here too.
- `todo_props.dfy` (module `TodoProperties`): these lemmas show that every operation keeps `Valid`. They also show:
  - each mutation touches only its target;
  - toggling twice restores the state;
  - `remove` is exactly a splice and is idempotent;
  - how the completion counts move under each mutation.
  
  Finally, `Op`, `Step` and `Run` replay any sequence of calls. Lemmas about `Run` show that the invariant survives every sequence and that a removed id never comes back.
- `todo_scenarios.dfy` (module `TodoScenarios`): the shared test suite's scenarios (`tests/test_todo.py`), replayed on the model.

Two facts about numbering and order:

- The in-memory counter starts at 0 (`todo.py:39`), so the first task gets id 0.
- The SQLite backend lists tasks `ORDER BY id` (`todo.py:79`). `ListTasksOrderedById` shows that the in-memory list of a valid state is already in id order.

## Model

| member | source | states |
|---|---|---|
| Title.TrimStart | todo.py:32-33 | The leading part of `str.strip`: the result is a suffix of the input. What was dropped is all whitespace. The result is empty or starts with a non-whitespace character. |
| Title.TrimEnd | todo.py:32-33 | The trailing part of `str.strip`: the result is a prefix of the input. What was dropped is all whitespace. The result is empty or ends with a non-whitespace character. |
| Title.Strip | todo.py:32-33 | `str.strip()` returns a slice of the input with only whitespace outside it and no whitespace at either end. The result is empty exactly when the input is all whitespace. |
| Title.StripUnique | todo.py:32-33 | Any slice with no whitespace at its ends and only whitespace outside it equals `Strip`'s result. This is an independent characterisation of strip. |
| Title.StrippedIsFixpoint | todo.py:32-33 | Stripping a string that has no whitespace at either end leaves it unchanged. |
| Title.Normalise | todo.py:32-33 | `_normalise_title` returns a slice of the title with only whitespace outside it and no whitespace at either end. It is empty exactly when the title is blank. |
| Title.NormaliseIdempotent | todo.py:32-33 | Normalising an already normalised title changes nothing. |
| Title.NormalisedIffStripped | todo.py:32-33 | A title equals its normalisation if and only if it has no whitespace at either end. |
| Todo.Init | todo.py:37-39 | A new repository has no tasks, its counter at 0, and satisfies the invariant. |
| Todo.ListTasks | todo.py:41-42 | Returns the stored tasks in stored order. |
| Todo.Add | todo.py:44-52 | A blank title returns `None` and leaves tasks and counter unchanged. Any other title appends exactly one task with the stripped title, `done = false` and id equal to the old counter. Earlier tasks stay unchanged and in order, and the counter rises by 1. |
| Todo.IndexOf | todo.py:55-56 | The `enumerate` scan finds the first index whose task has the id. It finds nothing exactly when no task has that id. |
| Todo.Flip | todo.py:57 | `replace(task, done=not task.done)` keeps the id and title and negates `done`. |
| Todo.Toggle | todo.py:54-60 | An absent id fails with NotFound, and the state is unchanged. A present id replaces the first matching task with a copy whose `done` is flipped and returns that copy. Length, order, the other tasks and the counter are unchanged. |
| Todo.Without | todo.py:63 | The comprehension keeps exactly the tasks of the list whose id differs from the given one. |
| Todo.Remove | todo.py:62-63 | Afterwards no task has the id, the surviving tasks are exactly the old ones with another id, and the counter is unchanged. |
| Todo.CountDone | todo.py:67 | `sum(task.done ...)` never exceeds the number of tasks. |
| Todo.Flags | todo.py:67 | The flags `sum` adds up: one `done` flag per task, in list order. |
| Todo.CountDoneCountsFlags | todo.py:67 | The done count equals the number of `true` flags, that is, the number of tasks marked done. This is independent of the recursive definition. |
| Todo.CountDoneExtremes | todo.py:67 | The done count is 0 exactly when no task is done. It equals the length exactly when every task is done. |
| Todo.CompletionStats | todo.py:65-68 | Returns `(done, total)`: total is the list length, done is the number of tasks marked done and never exceeds total, and done is 0 / equals total exactly when no task / every task is done. |
| TodoProperties.InitValid | todo.py:37-39 | A fresh repository satisfies the invariant and reports `(0, 0)`. |
| TodoProperties.AppendPreservesValid | todo.py:49-51 | Appending a task with the counter's id and a stored title, then advancing the counter, keeps the invariant. |
| TodoProperties.AddPreservesValid | todo.py:44-52 | `add` keeps the invariant: ids unique, ascending and below the counter; titles non-blank and stripped. |
| TodoProperties.AddIssuesFreshId | todo.py:49-51 | The id `add` hands out is larger than every id already stored, so no stored task has it. |
| TodoProperties.StoredTitlesAreNormal | todo.py:44-49 | Every stored title is non-empty and equal to its own normalisation. |
| TodoProperties.TogglePreservesValid | todo.py:54-60 | `toggle` keeps the invariant. |
| TodoProperties.ToggleKeepsIds | todo.py:54-60 | `toggle` leaves the list of ids exactly as it was. |
| TodoProperties.ToggleTouchesOnlyTarget | todo.py:54-59 | On a valid state, the task with the id is flipped and every other entry is unchanged. |
| TodoProperties.ToggleTwiceRestores | todo.py:54-60 | Toggling the same id twice restores the original state. For a present id, the second toggle returns the original task. |
| TodoProperties.IndexOfSameIds | todo.py:55-56 | The lookup depends only on the ids, so lists with equal ids give the same index. |
| TodoProperties.RemovePreservesValid | todo.py:62-63 | `remove` keeps the invariant. |
| TodoProperties.RemoveExact | todo.py:62-63 | On a valid state, `remove` yields the old list with the matching task cut out and the rest in order. An absent id leaves the state unchanged. |
| TodoProperties.WithoutSplice | todo.py:63 | With ascending ids, filtering out a present id equals `ts[..i] + ts[i+1..]` for its index `i`. |
| TodoProperties.WithoutAbsent | todo.py:63 | Filtering out an id no task has returns the list unchanged. |
| TodoProperties.WithoutKeepsAscending | todo.py:63 | The filter keeps ids ascending. |
| TodoProperties.RemoveIdempotent | todo.py:62-63 | Removing the same id twice equals removing it once. |
| TodoProperties.AddStats | todo.py:65-68 | After a non-blank `add` the total is one higher and the done count is unchanged. |
| TodoProperties.ToggleStats | todo.py:65-68 | After toggling a present id the total is unchanged. The done count moves by one: up if the task was open, down if it was done. |
| TodoProperties.RemoveStats | todo.py:65-68 | After removing a present id from a valid state the total drops by one, and the done count drops by one exactly when the removed task was done. |
| TodoProperties.CountDoneUpdate | todo.py:67 | Replacing one task changes the done count by the difference of the two `done` flags. |
| TodoProperties.CountDoneSplice | todo.py:67 | Cutting one task out lowers the done count by that task's flag. |
| TodoProperties.ListTasksOrderedById | todo.py:41-42 | On a valid state the listing is in ascending id order, the order the SQLite backend's `ORDER BY id` gives. |
| TodoProperties.StepPreservesValid | todo.py:36-68 | Any single repository call keeps the invariant and never lowers the counter. |
| TodoProperties.RunPreservesValid | todo.py:36-68 | After any sequence of calls from a valid state the invariant still holds and the counter has not decreased. |
| TodoProperties.AddKeepsIdAbsent | todo.py:49-51 | `add` never introduces an id below the counter. |
| TodoProperties.StepKeepsIdAbsent | todo.py:44-63 | No single call brings back an id that is below the counter and absent from the list. |
| TodoProperties.RemovedIdNeverReturns | todo.py:44-63 | An id below the counter that is absent from the list stays absent after any sequence of calls, so ids are never reused. |
| TodoProperties.RemoveThenRunNeverReissues | todo.py:62-63 | Once a present id is removed, no later sequence of calls puts a task with that id back in the list. |
| TodoScenarios.AddTrimsPaddedTitle | tests/test_todo.py:37-45 | Adding `"  write doc  "` to a fresh repository creates task 0 titled `"write doc"`, not done. |
| TodoScenarios.AddSecondTitle | tests/test_todo.py:37-47 | A second add creates task 1, whose id is larger than the first. |
| TodoScenarios.AddIgnoresBlank | tests/test_todo.py:50-53 | Adding `"   "` returns `None` and the list stays empty. |
| TodoScenarios.ToggleFlipsBackAndForth | tests/test_todo.py:56-62 | Toggling task 0 sets `done`, and toggling again clears it. |
| TodoScenarios.RemoveDropsOnlyTarget | tests/test_todo.py:65-73 | Removing the middle of three tasks leaves tasks 0 and 2 in order. |
| TodoScenarios.StatsAfterOneToggle | tests/test_todo.py:104-113 | With one of two tasks toggled, the stats are `(1, 2)`. |

## Left out

- `SQLiteTaskRepository` (`todo.py:71-139`): its behaviour lives in SQL text, `commit`, `lastrowid` and SQLite's AUTOINCREMENT semantics, none of which is visible as code. The only fact taken from it is that it lists by id (`todo.py:79`).
- `app.py`: Streamlit page wiring, the cached connection and session state. It only calls the repository.
- `position` and `reorder`: the tests use `task.position` and `repo.reorder(...)` (`tests/test_todo.py:76-101`), but `Task` has no such field and neither backend defines `reorder`. Modelling them would invent behaviour. Those two tests therefore have no counterpart here.
- The `TaskRepository` protocol (`todo.py:20-29`) is a type-level interface with no behaviour. Its five methods are the five transitions, and `Op` lists them for replaying call sequences.
- `list_tasks` returns a fresh Python list (`list(self._tasks)`) so callers cannot alias the internal one. Dafny sequences are values, so this copy has no counterpart.
- Todo.Toggle: the `ValueError` message text is not modelled; the failure carries only the id.
- Title.IsWhitespace follows the table of characters for which CPython's `str.isspace` holds. That table depends on the Unicode database version. No property lemma relies on it. The scenario lemmas rely only on `' '` being whitespace and letters not being whitespace.
- Python integers are unbounded, as Dafny's are, so no width or wrap-around is modelled.
