/** The file-system repository's test tables, stated as facts about the query
    model. Sessions are the ones the tests save; a directory listing may
    return their files in any order. */
module FileSystemRepositoryTests {

  import opened Wrappers
  import opened Seqs
  import opened SessionDomain
  import opened FileSystemRepository
  import InMemoryRepository

  // Instants used by the tests, all on 2024-04-17 or 2024-04-18, UTC.
  const Apr17At1700: Time := 1_713_373_200 * Second
  const Apr17At1900: Time := 1_713_380_400 * Second
  const Apr17At2000: Time := 1_713_384_000 * Second
  const Apr17At2001: Time := 1_713_384_060 * Second
  const Apr17At2100: Time := 1_713_387_600 * Second
  const Apr17At2200: Time := 1_713_391_200 * Second
  const Apr17At2300: Time := 1_713_394_800 * Second
  const Apr18At2100: Time := 1_713_474_000 * Second

  /** When the expected enumeration is start-ordered and its start times are
      distinct, any listing of the same sessions enumerates to it. */
  lemma EnumeratesTo(listing: Listing, expected: seq<Session>)
    requires SortedByStart(expected) && StartTimesIdentify(expected)
    requires multiset(listing) == multiset(expected)
    ensures FindAllSessions(listing) == expected
  {
    SortedArrangementUnique(expected, FindAllSessions(listing));
  }

  // Sessions of the enumeration and last-session tests.
  const Ended1: Session := Session("1", Apr17At1900, Apr17At2000, "Flow", ["test-save"])
  const Running2: Session := Session("2", Apr17At2100, ZERO, "Flow", [])

  /** Both saved sessions come back ordered by start time, every field intact,
      including the zero end time and the missing tags. */
  lemma FindAllSessionsExample(listing: Listing)
    requires multiset(listing) == multiset([Ended1, Running2])
    ensures FindAllSessions(listing) == [Ended1, Running2]
  {
    EnumeratesTo(listing, [Ended1, Running2]);
  }

  /** An empty directory enumerates to an empty sequence. */
  lemma FindAllSessionsEmptyExample()
    ensures FindAllSessions([]) == []
  {
  }

  /** The last session is the later-started one. */
  lemma FindLastSessionExample(listing: Listing)
    requires multiset(listing) == multiset([Ended1, Running2])
    ensures FindLastSession(listing) == Some(Running2)
  {
    EnumeratesTo(listing, [Ended1, Running2]);
  }

  // Sessions of the projects test.
  const FlowTest1: Session := Session("1", Apr17At1900, Apr17At2000, "Flow", ["test"])
  const Todo2: Session := Session("2", Apr17At2100, Apr17At2200, "MyTodo", [])
  const Todo3: Session := Session("3", Apr17At2300, ZERO, "MyTodo", [])

  /** Three sessions over two projects list each project once. */
  lemma FindAllProjectsExample(listing: Listing)
    requires multiset(listing) == multiset([FlowTest1, Todo2, Todo3])
    ensures FindAllProjects(listing) == ["Flow", "MyTodo"]
  {
    EnumeratesTo(listing, [FlowTest1, Todo2, Todo3]);
    ProjectsInOrder();
    DedupOfProjects();
  }

  lemma ProjectsInOrder()
    ensures InMemoryRepository.Projects([FlowTest1, Todo2, Todo3]) == ["Flow", "MyTodo", "MyTodo"]
  {
  }

  lemma DedupOfProjects()
    ensures Dedup(["Flow", "MyTodo", "MyTodo"]) == ["Flow", "MyTodo"]
  {
    assert "Flow" != "MyTodo" by { assert "Flow"[0] != "MyTodo"[0]; }
    DedupAppendNew([], "Flow");
    assert [] + ["Flow"] == ["Flow"];
    DedupAppendNew(["Flow"], "MyTodo");
    assert ["Flow"] + ["MyTodo"] == ["Flow", "MyTodo"];
    DedupAppendSeen(["Flow", "MyTodo"], "MyTodo");
    assert ["Flow", "MyTodo"] + ["MyTodo"] == ["Flow", "MyTodo", "MyTodo"];
  }

  // Sessions of the project-tags test.
  const Flow1: Session := Session("1", Apr17At1900, Apr17At2000, "Flow", ["tests", "integration"])
  const Todo2Tagged: Session := Session("2", Apr17At2100, Apr17At2200, "MyTodo", ["add-todo", "update-todo"])
  const Todo3Tagged: Session := Session("3", Apr17At2300, ZERO, "MyTodo", ["update-todo", "delete-todo"])

  /** The tags of project "Flow" are those of its one session. */
  lemma FindAllProjectTagsOfFlowExample(listing: Listing)
    requires multiset(listing) == multiset([Flow1, Todo2Tagged, Todo3Tagged])
    ensures FindAllProjectTags(listing, "Flow") == ["tests", "integration"]
  {
    EnumeratesTo(listing, [Flow1, Todo2Tagged, Todo3Tagged]);
    SessionsOfFlow();
    TagsOfFlow();
    DedupOfFlowTags();
  }

  lemma SessionsOfFlow()
    ensures InMemoryRepository.FindAllByProject([Flow1, Todo2Tagged, Todo3Tagged], "Flow") == [Flow1]
  {
    assert "Flow" != "MyTodo" by { assert "Flow"[0] != "MyTodo"[0]; }
    SessionsOfProject("Flow");
  }

  /** The tags of project "MyTodo", with the shared tag "update-todo" kept
      once. */
  lemma FindAllProjectTagsOfMyTodoExample(listing: Listing)
    requires multiset(listing) == multiset([Flow1, Todo2Tagged, Todo3Tagged])
    ensures FindAllProjectTags(listing, "MyTodo") == ["add-todo", "update-todo", "delete-todo"]
  {
    EnumeratesTo(listing, [Flow1, Todo2Tagged, Todo3Tagged]);
    SessionsOfMyTodo();
    TagsOfMyTodo();
    DedupOfMyTodoTags();
  }

  lemma SessionsOfMyTodo()
    ensures InMemoryRepository.FindAllByProject([Flow1, Todo2Tagged, Todo3Tagged], "MyTodo")
         == [Todo2Tagged, Todo3Tagged]
  {
    assert "Flow" != "MyTodo" by { assert "Flow"[0] != "MyTodo"[0]; }
    SessionsOfProject("MyTodo");
  }

  /** The project filter over the three sessions, one session at a time. */
  lemma SessionsOfProject(project: string)
    ensures InMemoryRepository.FindAllByProject([Flow1, Todo2Tagged, Todo3Tagged], project)
         == (if Flow1.project == project then [Flow1] else [])
          + (if Todo2Tagged.project == project then [Todo2Tagged] else [])
          + (if Todo3Tagged.project == project then [Todo3Tagged] else [])
  {
    var p := (x: Session) => x.project == project;
    FilterAppend([], Flow1, p);
    FilterAppend([Flow1], Todo2Tagged, p);
    FilterAppend([Flow1, Todo2Tagged], Todo3Tagged, p);
    assert [] + [Flow1] == [Flow1];
    assert [Flow1] + [Todo2Tagged] == [Flow1, Todo2Tagged];
    assert [Flow1, Todo2Tagged] + [Todo3Tagged] == [Flow1, Todo2Tagged, Todo3Tagged];
  }

  lemma TagsOfFlow()
    ensures InMemoryRepository.AllTags([Flow1]) == ["tests", "integration"]
  {
    assert [Flow1][..0] == [];
  }

  lemma DedupOfFlowTags()
    ensures Dedup(["tests", "integration"]) == ["tests", "integration"]
  {
    assert "tests" != "integration" by { assert "tests"[0] != "integration"[0]; }
    DedupAppendNew([], "tests");
    assert [] + ["tests"] == ["tests"];
    DedupAppendNew(["tests"], "integration");
    assert ["tests"] + ["integration"] == ["tests", "integration"];
  }

  lemma TagsOfMyTodo()
    ensures InMemoryRepository.AllTags([Todo2Tagged, Todo3Tagged])
         == ["add-todo", "update-todo", "update-todo", "delete-todo"]
  {
    assert [Todo2Tagged, Todo3Tagged][..1] == [Todo2Tagged];
    assert [Todo2Tagged][..0] == [];
    assert InMemoryRepository.AllTags([Todo2Tagged]) == ["add-todo", "update-todo"];
    assert ["add-todo", "update-todo"] + ["update-todo", "delete-todo"]
        == ["add-todo", "update-todo", "update-todo", "delete-todo"];
  }

  lemma DedupOfMyTodoTags()
    ensures Dedup(["add-todo", "update-todo", "update-todo", "delete-todo"])
         == ["add-todo", "update-todo", "delete-todo"]
  {
    assert "add-todo" != "update-todo" by { assert "add-todo"[0] != "update-todo"[0]; }
    assert "add-todo" != "delete-todo" by { assert "add-todo"[0] != "delete-todo"[0]; }
    assert "update-todo" != "delete-todo" by { assert "update-todo"[0] != "delete-todo"[0]; }
    DedupDropsRepeat("add-todo", "update-todo", "delete-todo");
  }

  /** The shape of the "MyTodo" tag stream: a repeat in the middle. */
  lemma DedupDropsRepeat<T(!new)>(a: T, u: T, d: T)
    requires a != u && a != d && u != d
    ensures Dedup([a, u, u, d]) == [a, u, d]
  {
    DedupAppendNew([], a);
    assert [] + [a] == [a];
    DedupAppendNew([a], u);
    assert [a] + [u] == [a, u];
    DedupAppendSeen([a, u], u);
    assert [a, u] + [u] == [a, u, u];
    DedupAppendNew([a, u, u], d);
    assert [a, u, u] + [d] == [a, u, u, d];
    assert [a, u] + [d] == [a, u, d];
  }

  // Sessions of the time-range test.
  const Todo2Long: Session := Session("2", Apr17At2100, Apr17At2300, "MyTodo", ["add-todo", "update-todo"])
  const Todo3NextDay: Session := Session("3", Apr18At2100, ZERO, "MyTodo", ["delete-todo"])

  /** The four range queries of the test table. No session starts on a bound,
      so each holds whether the bounds are inclusive or not. */
  lemma FindInTimeRangeExamples(listing: Listing, incl: Inclusivity)
    requires multiset(listing) == multiset([Flow1, Todo2Long, Todo3NextDay])
    ensures FindInTimeRange(listing, TimeRange(ZERO, ZERO), incl) == [Flow1, Todo2Long, Todo3NextDay]
    ensures FindInTimeRange(listing, TimeRange(Apr17At2000, ZERO), incl) == [Todo2Long, Todo3NextDay]
    ensures FindInTimeRange(listing, TimeRange(ZERO, Apr17At2001), incl) == [Flow1]
    ensures FindInTimeRange(listing, TimeRange(Apr17At1700, Apr17At2200), incl) == [Flow1, Todo2Long]
  {
    EnumeratesTo(listing, [Flow1, Todo2Long, Todo3NextDay]);
    FindInTimeRangeUnbounded(listing, incl);
    SinceOnly(incl);
    UntilOnly(incl);
    SinceAndUntil(incl);
  }

  lemma SinceOnly(incl: Inclusivity)
    ensures Filter([Flow1, Todo2Long, Todo3NextDay], StartsIn(TimeRange(Apr17At2000, ZERO), incl))
         == [Todo2Long, Todo3NextDay]
  {
    SinceBoundSplits(incl);
    RangeFilter(TimeRange(Apr17At2000, ZERO), incl);
    assert [] + [Todo2Long] + [Todo3NextDay] == [Todo2Long, Todo3NextDay];
  }

  lemma SinceBoundSplits(incl: Inclusivity)
    ensures !StartsIn(TimeRange(Apr17At2000, ZERO), incl)(Flow1)
    ensures StartsIn(TimeRange(Apr17At2000, ZERO), incl)(Todo2Long)
    ensures StartsIn(TimeRange(Apr17At2000, ZERO), incl)(Todo3NextDay)
  {
  }

  lemma UntilOnly(incl: Inclusivity)
    ensures Filter([Flow1, Todo2Long, Todo3NextDay], StartsIn(TimeRange(ZERO, Apr17At2001), incl))
         == [Flow1]
  {
    RangeFilter(TimeRange(ZERO, Apr17At2001), incl);
  }

  lemma SinceAndUntil(incl: Inclusivity)
    ensures Filter([Flow1, Todo2Long, Todo3NextDay], StartsIn(TimeRange(Apr17At1700, Apr17At2200), incl))
         == [Flow1, Todo2Long]
  {
    RangeFilter(TimeRange(Apr17At1700, Apr17At2200), incl);
  }

  /** The range filter over the three sessions, one session at a time. */
  lemma RangeFilter(range: TimeRange, incl: Inclusivity)
    ensures Filter([Flow1, Todo2Long, Todo3NextDay], StartsIn(range, incl))
         == (if StartsIn(range, incl)(Flow1) then [Flow1] else [])
          + (if StartsIn(range, incl)(Todo2Long) then [Todo2Long] else [])
          + (if StartsIn(range, incl)(Todo3NextDay) then [Todo3NextDay] else [])
  {
    var p := StartsIn(range, incl);
    FilterAppend([], Flow1, p);
    FilterAppend([Flow1], Todo2Long, p);
    FilterAppend([Flow1, Todo2Long], Todo3NextDay, p);
    assert [] + [Flow1] == [Flow1];
    assert [Flow1] + [Todo2Long] == [Flow1, Todo2Long];
    assert [Flow1, Todo2Long] + [Todo3NextDay] == [Flow1, Todo2Long, Todo3NextDay];
  }
}
