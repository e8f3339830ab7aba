# Flow sessions: entity, in-memory repository and file-system query contract

A Dafny model of the session core of `flow`, a command-line tool that tracks
"flow sessions": intervals of work on a project, labelled with tags. It
covers three pieces.

- **The `Session` value** (`session.dfy`, module `SessionDomain`): its status
  (FLOWING until an end time is recorded, then ENDED), its duration rounded
  to whole seconds the way Go's `Duration.Round(time.Second)` does, identity
  by id, tag membership, and the `"/"` shown for a missing end time.
- **The in-memory repository** (`inmemory.dfy`, module `InMemoryRepository`):
  the store is a `seq<Session>`, and every operation is a pure function of
  it. `Save` is modelled as written. Its lookup closure names its parameter
  `s` and so hides the session being saved. It compares a stored start time
  with itself and accepts every stored session. As a result, `Save` appends
  only to an empty store and otherwise overwrites index 0.
- **The file-system repository's query contract** (`filesystem.dfy`, module
  `FileSystemRepository`): the sessions read back from the storage directory
  arrive in listing order. The model enumerates them in ascending start-time
  order and answers every query from that enumeration; the tests are consistent
  with this order but do not single it out (see "## Left out"). The repository's test
  tables are stated as lemmas in `fs_tests.dfy` (module
  `FileSystemRepositoryTests`).

Shared sequence operations live in `seqs.dfy` (module `Seqs`). These are
Go's `slices.IndexFunc`, the append-if-matching filter loop, and the
append-unless-contained loop that deduplicates in first-seen order.
`wrappers.dfy` holds `Option`, which models a nil or non-nil session pointer.

Time is an integer count of nanoseconds since 1970-01-01 UTC. `ZERO` is
Go's zero `time.Time{}` (0001-01-01 UTC), so `IsZero(t)` is `t == ZERO` and
`time.Equal` is `==`. `Duration` is an integer count of nanoseconds.

## Model

| member | source | states |
|---|---|---|
| `SessionDomain.Status` | internal/domain/session/session.go:39-45 | FLOWING exactly when the end time is Go's zero time, ENDED exactly when it is not |
| `SessionDomain.FormattedEndTime` | internal/domain/session/session.go:24-30 | a running session shows `"/"`; an ended one shows the formatter's rendering of its end time |
| `SessionDomain.RoundToSecond` | internal/domain/session/session.go:36 | the result is a whole number of seconds, at most half a second from the input; an exact half rounds away from zero; a non-negative input rounds to a non-negative result |
| `SessionDomain.RoundToSecondIsUnique` | internal/domain/session/session.go:36 | those three conditions determine the rounded value uniquely, so the rounding is round-half-away-from-zero |
| `SessionDomain.SessionDuration` | internal/domain/session/session.go:32-37 | zero while running; once ended, the end-minus-start span rounded to whole seconds; non-negative when the end is not before the start |
| `SessionDomain.FlowingHasNoDuration` | internal/domain/session/session.go:32-45 | a session reporting FLOWING has zero duration |
| `SessionDomain.Equals` | internal/domain/session/session.go:47-49 | two sessions are equal exactly when their ids are equal |
| `SessionDomain.EqualsIsIdentity` | internal/domain/session/session.go:47-49 | equality is reflexive, symmetric and transitive, and changing any field other than the id does not change it |
| `SessionDomain.HasTag` | internal/domain/session/session.go:51-58 | true exactly when the tag occurs in the session's tags |
| `SessionDomain.HasTagDependsOnTagSetOnly` | internal/domain/session/session.go:51-58 | reordering or repeating tags does not change tag membership |
| `Seqs.IndexFunc` | internal/infra/session_inmemory_repository.go:15-17 | -1 exactly when no element matches; otherwise a matching index with no match before it |
| `InMemoryRepository.Save` | internal/infra/session_inmemory_repository.go:14-26 | saving into an empty store gives exactly the one session; into a non-empty store it overwrites index 0, keeps the length and every other element, and never appends |
| `InMemoryRepository.SavesFromEmptyKeepOnlyTheLast` | internal/infra/session_inmemory_repository.go:14-26 | any run of saves starting from an empty store leaves exactly the last saved session, so the store never holds more than one |
| `InMemoryRepository.SaveOverwritesUnrelatedSession` | internal/infra/session_inmemory_repository.go:15-22 | saving a session whose start time differs from the first stored one loses that stored session entirely |
| `InMemoryRepository.SaveAsWrittenDropsFirstSession` | internal/infra/session_inmemory_repository.go:15-22 | saving session "2" into a store holding session "1", which started at another time, leaves only session "2" |
| `InMemoryRepository.SaveByStartTime` | internal/infra/session_inmemory_repository.go:15-23 | with the lookup matching the saved session's start time: append when no stored session has it; otherwise replace the first session with that start time by it and keep the length; every other session, including later ones with the same start time, is untouched; lookup by that start time then finds the saved session; unique start times stay unique |
| `InMemoryRepository.SaveByStartTimeKeepsOthers` | internal/infra/session_inmemory_repository.go:15-23 | after the corrected save, lookup by any other start time finds what it found before |
| `InMemoryRepository.SaveByStartTimeKeepsBothSessions` | internal/infra/session_inmemory_repository.go:15-23 | the two saves that lose a session as written keep both sessions when corrected |
| `InMemoryRepository.FindByStartTime` | internal/infra/session_inmemory_repository.go:28-34 | given that some stored session starts at the time, returns the first stored session that does |
| `Seqs.Filter` | internal/infra/session_inmemory_repository.go:36-46 | keeps exactly the elements satisfying the predicate, each as often as in the input, as an order-preserving subsequence |
| `InMemoryRepository.FindAllByProject` | internal/infra/session_inmemory_repository.go:36-46 | exactly the sessions of that project, with their multiplicities, in store order, as a subsequence of the store |
| `InMemoryRepository.FindLastSession` | internal/infra/session_inmemory_repository.go:48-54 | absent exactly when the store is empty; otherwise the last session in insertion order |
| `InMemoryRepository.FindAllSessions` | internal/infra/session_inmemory_repository.go:56-58 | the stored sequence itself, in insertion order, neither sorted nor filtered |
| `Seqs.Dedup` | internal/infra/session_inmemory_repository.go:60-74 | no duplicates, the same elements as the input, ordered by where each first occurs in the input |
| `Seqs.DedupIsTheFirstSeenDedup` | internal/infra/session_inmemory_repository.go:60-74 | any sequence with those three properties is the deduplication, so they specify it completely |
| `InMemoryRepository.FindAllProjects` | internal/infra/session_inmemory_repository.go:60-74 | each project of a stored session exactly once, and nothing else, in order of first occurrence in the store |
| `InMemoryRepository.AllTags` | internal/infra/session_inmemory_repository.go:81-89 | a tag occurs exactly when some of the given sessions carries it |
| `InMemoryRepository.FindAllProjectTags` | internal/infra/session_inmemory_repository.go:76-92 | each tag carried by a session of the project exactly once, never a tag seen only on other projects, in first-seen order across that project's sessions |
| `FileSystemRepository.FindAllSessions` | internal/infra/filesystem/session_fs_repository_test.go:51-104 | the sessions read back, all of them and nothing else, with every field as read, ordered by ascending start time; an empty directory gives an empty sequence |
| `FileSystemRepository.SortedArrangementUnique` | internal/infra/filesystem/session_fs_repository_test.go:51-90 | two start-ordered arrangements of the same sessions are identical when no two sessions share a start time |
| `FileSystemRepository.ListingOrderIrrelevant` | internal/infra/filesystem/session_fs_repository_test.go:51-90 | the enumeration does not depend on the directory-listing order when start times are distinct |
| `FileSystemRepository.FindLastSession` | internal/infra/filesystem/session_fs_repository_test.go:106-136 | absent exactly when there are no sessions; otherwise a stored session with the latest start time |
| `FileSystemRepository.LastOfSortedIsLatest` | internal/infra/filesystem/session_fs_repository_test.go:106-136 | on a start-ordered sequence the in-memory last session is the element with the latest start |
| `FileSystemRepository.FindAllProjects` | internal/infra/filesystem/session_fs_repository_test.go:138-170 | each project exactly once, in first-seen order across the start-ordered enumeration |
| `FileSystemRepository.FindAllProjectTags` | internal/infra/filesystem/session_fs_repository_test.go:172-220 | each tag of the project's sessions exactly once and no other, in first-seen order across the enumeration |
| `FileSystemRepository.FindInTimeRange` | internal/infra/filesystem/session_fs_repository_test.go:222-345 | exactly the sessions whose start lies in the range, where a zero bound is open, with their multiplicities, as a start-ordered subsequence of the enumeration |
| `FileSystemRepository.FindInTimeRangeUnbounded` | internal/infra/filesystem/session_fs_repository_test.go:251-276 | with both bounds zero the range query returns the whole enumeration |
| `FileSystemRepository.FindInTimeRangeIsIntersection` | internal/infra/filesystem/session_fs_repository_test.go:313-335 | with both bounds set, the query is the `since`-only result filtered by the `until` bound |
| `FileSystemRepositoryTests.FindAllSessionsExample` | internal/infra/filesystem/session_fs_repository_test.go:51-90 | for any listing order, the two saved sessions enumerate as session 1 then session 2, including the zero end time and empty tags |
| `FileSystemRepositoryTests.FindLastSessionExample` | internal/infra/filesystem/session_fs_repository_test.go:106-136 | for any listing order, the last session is session 2 |
| `FileSystemRepositoryTests.FindAllProjectsExample` | internal/infra/filesystem/session_fs_repository_test.go:138-170 | three sessions give the projects `["Flow", "MyTodo"]` |
| `FileSystemRepositoryTests.FindAllProjectTagsOfFlowExample` | internal/infra/filesystem/session_fs_repository_test.go:172-220 | project "Flow" gives `["tests", "integration"]` |
| `FileSystemRepositoryTests.FindAllProjectTagsOfMyTodoExample` | internal/infra/filesystem/session_fs_repository_test.go:172-220 | project "MyTodo" gives `["add-todo", "update-todo", "delete-todo"]`, with the shared tag once |
| `FileSystemRepositoryTests.FindInTimeRangeExamples` | internal/infra/filesystem/session_fs_repository_test.go:222-345 | the four rows of the range table (all, since, until, since and until) give the expected sessions, whichever way the bounds treat equality |

## Left out

- File-system I/O is not modelled: creating the storage directory, writing one `<id>.json` per session, JSON encoding and decoding, and read or parse failures. A query takes the sessions already read back, in listing order. `internal/infra/filesystem/session_fs_repository.go` is not part of this model. The file-system `Save` is left out with the file I/O: the tests use it only to fill the directory, and `TestSave_Success` checks only that `<id>.json` exists afterwards. No test saves the same id twice, so overwriting by id is not pinned down. The tests never call the file-system `FindAllByProject`, so it is left out too.
- FileSystemRepository.FindInTimeRange: inclusivity of the bounds is a parameter (`Inclusivity`). It is not fixed, because no test places a start time on a bound and `pkg/timerange` is not part of this model. Every example is proved for both choices.
- FileSystemRepository.FindAllSessions: the model takes ascending start time as the enumeration order. The tests do not distinguish it from ascending id or save order, because in every test that saves several sessions the three orders coincide; `internal/infra/filesystem/session_fs_repository.go` is not part of this model, so which key the repository sorts on is an assumption. The order among sessions with equal start times is not specified either, because the tests never have two. The model uses one particular insertion order. `ListingOrderIrrelevant` and `FindLastSession` make no promise about ties.
- SessionDomain.RoundToSecond: models only `Round(time.Second)`, the one divisor the source uses. It does not model the `int64` saturation of `Sub` and `Round`, because integers here are unbounded.
- `GetFormattedStartTime` and the non-zero branch of `GetFormattedEndTime` are Go's layout-based date formatting. They are represented by a formatter parameter and not interpreted.
- Go distinguishes a nil slice from an empty one: absent tags, and `FindAllSessions` returning `[]` rather than nil. Both are the empty sequence here.
- `FindByStartTime` and `FindLastSession` return pointers into the store, and the in-memory `FindAllSessions` returns the store's own slice, so a later `Save` writing in place at index 0 shows through a result obtained earlier. The model returns values, so this aliasing and mutation through such pointers are not modelled.
- InMemoryRepository.FindByStartTime: requires a session with that start time. With none, the source indexes the slice with -1 and panics; the model does not represent the panic.
- The `error` results of the in-memory repository are always nil and are dropped.
- Time zones and monotonic clock readings of `time.Time` are not modelled: an instant is one integer.
- `cmd/root.go`, `internal/application/usecases/app.go` and `test/helpers.go` are CLI wiring, dependency injection and test harness with no logic of their own. Date and id providers are injected collaborators.
- InMemoryRepository.SaveByStartTime: keys the corrected lookup on the start time, because that is the field the closure compares; keying by id would be a different design, not a correction of this code.

## Findings

| source | as written | input that shows it | evidently intended | confidence | as-written member | corrected member |
|---|---|---|---|---|---|---|
| internal/infra/session_inmemory_repository.go:15-17 | the lookup closure's parameter `s` hides the session being saved, so `s.StartTime.Equal(s.StartTime)` holds for every stored session and `Save` overwrites index 0 of any non-empty store | store `[session "1" started at 1 s]`, then save session "2" started at 2 s: the store becomes `[session "2"]` and session "1" is gone | find the stored session with the saved session's start time (the `startedSessionIndex` being stopped), replace it, and append otherwise | high; not executed | `InMemoryRepository.SaveAsWrittenDropsFirstSession` | `InMemoryRepository.SaveByStartTime` |
