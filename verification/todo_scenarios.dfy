/** The shared test suite's scenarios (tests/test_todo.py), replayed on the
    model. The add scenarios start from a fresh repository; the toggle,
    remove and stats scenarios start from the state the test's adds build,
    written out directly. */
module TodoScenarios {
  import opened Wrappers
  import opened Title
  import opened Todo

  lemma PaddedTitle()
    ensures !IsBlank("  write doc  ")
    ensures Normalise("  write doc  ") == "write doc"
  {
    assert !IsWhitespace("  write doc  "[2]);
    assert Frames("  write doc  ", "write doc", 2, 11);
    StripUnique("  write doc  ", "write doc", 2, 11);
  }

  /** A title with no whitespace at its ends is kept as it is. */
  lemma PlainTitle(title: string)
    requires IsStoredTitle(title)
    ensures !IsBlank(title)
    ensures Normalise(title) == title
  {
    assert !IsWhitespace(title[0]);
    StrippedIsFixpoint(title);
  }

  /** `add` on a title that is not blank, once its normalisation is known. */
  lemma AddKnown(s: Repo, title: string, normalised: string)
    requires !IsBlank(title)
    requires Normalise(title) == normalised
    ensures Add(s, title)
         == (Repo(s.tasks + [Task(s.nextId, normalised, false)], s.nextId + 1),
             Some(Task(s.nextId, normalised, false)))
  {
  }

  /** The first title is trimmed and gets id 0 (tests/test_todo.py:37-47;
      the titles are parameters so that the verifier does not evaluate the
      calls on literals). */
  lemma AddTrimsPaddedTitle(padded: string)
    requires padded == "  write doc  "
    ensures Add(Init(), padded)
         == (Repo([Task(0, "write doc", false)], 1), Some(Task(0, "write doc", false)))
  {
    PaddedTitle();
    AddKnown(Init(), padded, "write doc");
  }

  /** The second title gets the larger id 1 (tests/test_todo.py:37-47). */
  lemma AddSecondTitle(plain: string, s1: Repo)
    requires plain == "file bugs"
    requires s1 == Repo([Task(0, "write doc", false)], 1)
    ensures Add(s1, plain) == (Repo(s1.tasks + [Task(1, plain, false)], 2), Some(Task(1, plain, false)))
  {
    PlainTitle(plain);
    AddKnown(s1, plain, plain);
  }

  /** A whitespace-only title creates nothing and the list stays empty
      (tests/test_todo.py:50-53). */
  lemma AddIgnoresBlank(blank: string)
    requires blank == "   "
    ensures Add(Init(), blank) == (Init(), None)
    ensures ListTasks(Add(Init(), blank).0) == []
  {
    assert IsBlank(blank);
  }

  /** Toggling twice flips `done` on and off again (tests/test_todo.py:56-62). */
  lemma ToggleFlipsBackAndForth(s1: Repo, s2: Repo)
    requires s1 == Repo([Task(0, "ship", false)], 1)
    requires s2 == Repo([Task(0, "ship", true)], 1)
    ensures Toggle(s1, 0) == (s2, Success(Task(0, "ship", true)))
    ensures Toggle(s2, 0) == (s1, Success(Task(0, "ship", false)))
  {
    assert IndexOf(s1.tasks, 0) == Some(0);
    assert s1.tasks[0 := Flip(s1.tasks[0])] == s2.tasks;
    assert IndexOf(s2.tasks, 0) == Some(0);
    assert s2.tasks[0 := Flip(s2.tasks[0])] == s1.tasks;
  }

  /** Of three tasks "ship", "test" and "deploy" with ids 0, 1 and 2,
      removing the middle one leaves the other two in their order
      (tests/test_todo.py:65-73). */
  lemma RemoveDropsOnlyTarget(s3: Repo)
    requires s3 == Repo([Task(0, "ship", false), Task(1, "test", false), Task(2, "deploy", false)], 3)
    ensures Remove(s3, 1) == Repo([Task(0, "ship", false), Task(2, "deploy", false)], 3)
  {
    var ts := s3.tasks;
    assert Without(ts[2..], 1) == [ts[2]];
    assert Without(ts, 1) == [ts[0], ts[2]];
  }

  /** One of two tasks toggled gives stats (1, 2) (tests/test_todo.py:104-113). */
  lemma StatsAfterOneToggle(s2: Repo)
    requires s2 == Repo([Task(0, "ship", false), Task(1, "test", false)], 2)
    ensures Toggle(s2, 0).0 == Repo([Task(0, "ship", true), Task(1, "test", false)], 2)
    ensures CompletionStats(Toggle(s2, 0).0) == (1, 2)
  {
    assert IndexOf(s2.tasks, 0) == Some(0);
    var ts := Toggle(s2, 0).0.tasks;
    assert ts == [Task(0, "ship", true), Task(1, "test", false)];
    assert CountDone(ts[1..]) == 0;
  }
}
