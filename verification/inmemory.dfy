/** The in-memory session repository: an ordered slice of sessions held for
    the lifetime of the process. Each operation takes the stored sequence and
    returns its result; the store is a value, so no query changes it. */
module InMemoryRepository {

  import opened Wrappers
  import opened Seqs
  import opened SessionDomain

  type Store = seq<Session>

  /** The lookup `Save` performs. Its closure names its own parameter `s`,
      hiding the session being saved, so it compares a stored session's start
      time with itself and accepts every stored session. */
  predicate SaveLookupMatches(stored: Session) {
    stored.startTime == stored.startTime
  }

  /** `Save` as written: append when the lookup finds nothing, otherwise
      overwrite the session it found. Because the lookup accepts anything,
      that is index 0 of any non-empty store. */
  function Save(store: Store, s: Session): (r: Store)
    ensures |store| == 0 ==> r == [s]
    ensures |store| > 0 ==> |r| == |store| && r[0] == s
    ensures forall i :: 0 < i < |store| ==> r[i] == store[i]
  {
    var i := IndexFunc(store, SaveLookupMatches);
    if i == -1 then store + [s] else store[i := s]
  }

  /** Saving each of `ss` in turn. */
  function SaveAll(store: Store, ss: seq<Session>): Store
    decreases |ss|
  {
    if |ss| == 0 then store else SaveAll(Save(store, ss[0]), ss[1..])
  }

  /** Starting from an empty store, any run of saves leaves at most one
      session behind: the most recently saved one. */
  lemma {:induction false} SavesFromEmptyKeepOnlyTheLast(ss: seq<Session>)
    ensures |ss| == 0 ==> SaveAll([], ss) == []
    ensures |ss| > 0 ==> SaveAll([], ss) == [ss[|ss| - 1]]
  {
    if |ss| > 0 {
      SavesOnSingletonKeepTheLast(ss[0], ss[1..]);
    }
  }

  lemma {:induction false} SavesOnSingletonKeepTheLast(s: Session, ss: seq<Session>)
    ensures |ss| == 0 ==> SaveAll([s], ss) == [s]
    ensures |ss| > 0 ==> SaveAll([s], ss) == [ss[|ss| - 1]]
    decreases |ss|
  {
    if |ss| > 0 {
      assert Save([s], ss[0]) == [ss[0]];
      SavesOnSingletonKeepTheLast(ss[0], ss[1..]);
      if |ss| > 1 {
        assert ss[1..][|ss[1..]| - 1] == ss[|ss| - 1];
      }
    }
  }

  /** No two stored sessions share a start time. */
  predicate UniqueStartTimes(store: Store) {
    forall i, j :: 0 <= i < j < |store| ==> store[i].startTime != store[j].startTime
  }

  /** As written, saving a session overwrites the first stored session even
      when that one has a different start time: its session is lost. */
  lemma SaveOverwritesUnrelatedSession(store: Store, s: Session)
    requires |store| > 0 && UniqueStartTimes(store)
    requires s.startTime != store[0].startTime
    ensures forall x :: x in Save(store, s) ==> x.startTime != store[0].startTime
  {
  }

  /** A concrete instance: saving a second session into a store holding one
      session started at another time replaces it instead of adding to it. */
  lemma SaveAsWrittenDropsFirstSession()
    ensures Save([Session("1", 1 * Second, ZERO, "Flow", [])],
                 Session("2", 2 * Second, ZERO, "Flow", []))
         == [Session("2", 2 * Second, ZERO, "Flow", [])]
  {
  }

  /** The upsert `Save` evidently means: look up the stored session with the
      same start time as `s` (the session being stopped) and replace it, or
      append `s` when there is none. */
  function SaveByStartTime(store: Store, s: Session): (r: Store)
    ensures (forall i :: 0 <= i < |store| ==> store[i].startTime != s.startTime) ==> r == store + [s]
    ensures (exists i :: 0 <= i < |store| && store[i].startTime == s.startTime) ==> |r| == |store|
    ensures forall i :: 0 <= i < |store| && store[i].startTime != s.startTime ==> r[i] == store[i]
    ensures forall i ::
              (0 <= i < |store| && store[i].startTime == s.startTime &&
               (forall j :: 0 <= j < i ==> store[j].startTime != s.startTime))
              ==> r[i] == s
    ensures forall i, j :: 0 <= j < i < |store| && store[j].startTime == s.startTime ==> r[i] == store[i]
    ensures exists i :: 0 <= i < |r| && r[i] == s
    ensures FindByStartTime(r, s.startTime) == s
    ensures UniqueStartTimes(store) ==> UniqueStartTimes(r)
  {
    var i := IndexFunc(store, (x: Session) => x.startTime == s.startTime);
    if i == -1 then
      var r := store + [s];
      assert r[|store|] == s;
      FirstWithStartTime(r, |store|, s.startTime);
      r
    else
      var r := store[i := s];
      assert r[i] == s;
      FirstWithStartTime(r, i, s.startTime);
      r
  }

  /** The session found by start time is the one at the first index with
      that start time. */
  lemma FirstWithStartTime(store: Store, k: nat, t: Time)
    requires k < |store| && store[k].startTime == t
    requires forall j :: 0 <= j < k ==> store[j].startTime != t
    ensures FindByStartTime(store, t) == store[k]
  {
    var a := FindByStartTime(store, t);
    var ia :| 0 <= ia < |store| && store[ia] == a && forall j :: 0 <= j < ia ==> store[j].startTime != t;
    assert ia == k;
  }

  /** Saving with the corrected lookup keeps every session of another start
      time retrievable, unchanged. */
  lemma SaveByStartTimeKeepsOthers(store: Store, s: Session, t: Time)
    requires t != s.startTime
    requires exists i :: 0 <= i < |store| && store[i].startTime == t
    ensures FindByStartTime(SaveByStartTime(store, s), t) == FindByStartTime(store, t)
  {
    var r := SaveByStartTime(store, s);
    var k := IndexFunc(store, (x: Session) => x.startTime == t);
    FirstWithStartTime(store, k, t);
    assert r[k] == store[k];
    FirstWithStartTime(r, k, t);
  }

  /** The same two saves as `SaveAsWrittenDropsFirstSession`, with the
      corrected lookup: both sessions are kept. */
  lemma SaveByStartTimeKeepsBothSessions()
    ensures SaveByStartTime([Session("1", 1 * Second, ZERO, "Flow", [])],
                            Session("2", 2 * Second, ZERO, "Flow", []))
         == [Session("1", 1 * Second, ZERO, "Flow", []), Session("2", 2 * Second, ZERO, "Flow", [])]
  {
  }

  /** The session the source points to: the first one whose start time is
      `t`. The source indexes with -1, and panics, when there is none, so a
      matching session is required. */
  function FindByStartTime(store: Store, t: Time): (r: Session)
    requires exists i :: 0 <= i < |store| && store[i].startTime == t
    ensures r.startTime == t
    ensures exists i :: 0 <= i < |store| && store[i] == r
                         && forall j :: 0 <= j < i ==> store[j].startTime != t
  {
    var i := IndexFunc(store, (x: Session) => x.startTime == t);
    store[i]
  }

  /** Every session of `project`, in store order. */
  function FindAllByProject(store: Store, project: string): (r: seq<Session>)
    ensures forall x :: x in r <==> x in store && x.project == project
    ensures forall x :: multiset(r)[x] == if x.project == project then multiset(store)[x] else 0
    ensures IsSubsequence(r, store)
  {
    Filter(store, (x: Session) => x.project == project)
  }

  /** The most recently inserted session, if any. */
  function FindLastSession(store: Store): (r: Option<Session>)
    ensures r == None <==> |store| == 0
    ensures r.Some? ==> r.value == store[|store| - 1]
  {
    if |store| == 0 then None else Some(store[|store| - 1])
  }

  /** The stored sessions, in insertion order, unsorted. */
  function FindAllSessions(store: Store): (r: seq<Session>)
    ensures r == store
  {
    store
  }

  /** The project of each session, in order. */
  function Projects(ss: seq<Session>): (r: seq<string>)
    ensures |r| == |ss|
    ensures forall i :: 0 <= i < |ss| ==> r[i] == ss[i].project
  {
    seq(|ss|, i requires 0 <= i < |ss| => ss[i].project)
  }

  /** The tags of each session, one after the other. */
  function AllTags(ss: seq<Session>): (r: seq<string>)
    ensures forall t :: t in r <==> exists x :: x in ss && t in x.tags
  {
    if |ss| == 0 then []
    else
      var prefix := ss[..|ss| - 1];
      assert ss == prefix + [ss[|ss| - 1]];
      AllTags(prefix) + ss[|ss| - 1].tags
  }

  /** Each project once, in the order projects first appear in the store. */
  function FindAllProjects(store: Store): (r: seq<string>)
    ensures NoDuplicates(r)
    ensures forall p :: p in r <==> exists x :: x in store && x.project == p
    ensures IsFirstSeenDedup(r, Projects(store))
  {
    var ps := Projects(store);
    assert forall x :: x in store ==> x.project in ps;
    Dedup(ps)
  }

  /** Each tag of a project's sessions once, in the order tags first appear
      across those sessions. */
  function FindAllProjectTags(store: Store, project: string): (r: seq<string>)
    ensures NoDuplicates(r)
    ensures forall t :: t in r <==> exists x :: x in store && x.project == project && t in x.tags
    ensures IsFirstSeenDedup(r, AllTags(FindAllByProject(store, project)))
  {
    Dedup(AllTags(FindAllByProject(store, project)))
  }
}
