/** The query side of the file-system session repository. Each session lives
    in its own `<id>.json` file in the storage directory. In this model a
    query takes the sessions read back, in whatever order the directory
    listing gives, orders them by start time, and answers from that sorted
    enumeration. The reading and writing of files is not modelled. */
module FileSystemRepository {

  import opened Wrappers
  import opened Seqs
  import opened SessionDomain
  import InMemoryRepository

  /** The sessions read back from the storage directory, in directory-listing
      order, which carries no meaning. */
  type Listing = seq<Session>

  predicate SortedByStart(ss: seq<Session>) {
    forall i, j :: 0 <= i < j < |ss| ==> ss[i].startTime <= ss[j].startTime
  }

  /** Sessions that start at the same instant are the same session. */
  predicate StartTimesIdentify(ss: seq<Session>) {
    forall i, j :: 0 <= i < |ss| && 0 <= j < |ss| && ss[i].startTime == ss[j].startTime ==> ss[i] == ss[j]
  }

  function InsertByStart(x: Session, sorted: seq<Session>): (r: seq<Session>)
    requires SortedByStart(sorted)
    ensures SortedByStart(r)
    ensures multiset(r) == multiset(sorted) + multiset{x}
  {
    if |sorted| == 0 then [x]
    else if x.startTime <= sorted[0].startTime then [x] + sorted
    else
      var rest := InsertByStart(x, sorted[1..]);
      HeadPrecedesInsertion(x, sorted, rest);
      [sorted[0]] + rest
  }

  lemma HeadPrecedesInsertion(x: Session, sorted: seq<Session>, rest: seq<Session>)
    requires SortedByStart(sorted) && |sorted| > 0
    requires sorted[0].startTime < x.startTime
    requires SortedByStart(rest)
    requires multiset(rest) == multiset(sorted[1..]) + multiset{x}
    ensures SortedByStart([sorted[0]] + rest)
    ensures multiset([sorted[0]] + rest) == multiset(sorted) + multiset{x}
  {
    assert sorted == [sorted[0]] + sorted[1..];
    forall i | 0 <= i < |rest|
      ensures sorted[0].startTime <= rest[i].startTime
    {
      assert rest[i] in multiset(rest);
      if rest[i] != x {
        assert rest[i] in multiset(sorted[1..]);
        assert rest[i] in sorted[1..];
      }
    }
  }

  /** The enumeration: every session read back, ordered by ascending start
      time whatever the listing order. */
  function FindAllSessions(listing: Listing): (r: seq<Session>)
    ensures SortedByStart(r)
    ensures multiset(r) == multiset(listing)
    ensures |r| == |listing|
  {
    if |listing| == 0 then []
    else
      var prefix := listing[..|listing| - 1];
      var last := listing[|listing| - 1];
      assert listing == prefix + [last];
      assert multiset(listing) == multiset(prefix) + multiset{last};
      var r := InsertByStart(last, FindAllSessions(prefix));
      assert |r| == |multiset(r)|;
      r
  }

  /** Two start-ordered arrangements of the same sessions coincide when no
      two different sessions share a start time. */
  lemma {:induction false} SortedArrangementUnique(a: seq<Session>, b: seq<Session>)
    requires SortedByStart(a) && SortedByStart(b)
    requires multiset(a) == multiset(b)
    requires StartTimesIdentify(a)
    ensures a == b
    decreases |a|
  {
    assert |a| == |multiset(a)| == |multiset(b)| == |b|;
    if |a| != 0 {
      SortedHeadsAgree(a, b);
      DropCommonHead(a, b);
      assert StartTimesIdentify(a[1..]) by {
        forall i, j | 0 <= i < |a| - 1 && 0 <= j < |a| - 1
          ensures a[1..][i].startTime == a[1..][j].startTime ==> a[1..][i] == a[1..][j]
        {
          assert a[1..][i] == a[i + 1] && a[1..][j] == a[j + 1];
        }
      }
      SortedArrangementUnique(a[1..], b[1..]);
      assert a == [a[0]] + a[1..];
      assert b == [b[0]] + b[1..];
    }
  }

  lemma SortedHeadsAgree(a: seq<Session>, b: seq<Session>)
    requires SortedByStart(a) && SortedByStart(b)
    requires |a| > 0 && |b| > 0
    requires multiset(a) == multiset(b)
    requires StartTimesIdentify(a)
    ensures a[0] == b[0]
  {
    assert a[0] in multiset(b);
    var k :| 0 <= k < |b| && b[k] == a[0];
    assert b[0] in multiset(a);
    var k' :| 0 <= k' < |a| && a[k'] == b[0];
    assert a[0].startTime <= a[k'].startTime;
    assert b[0].startTime <= b[k].startTime;
  }

  lemma DropCommonHead(a: seq<Session>, b: seq<Session>)
    requires |a| > 0 && |b| > 0 && a[0] == b[0]
    requires multiset(a) == multiset(b)
    ensures multiset(a[1..]) == multiset(b[1..])
    ensures SortedByStart(a) ==> SortedByStart(a[1..])
    ensures SortedByStart(b) ==> SortedByStart(b[1..])
  {
    assert a == [a[0]] + a[1..];
    assert b == [b[0]] + b[1..];
    assert multiset(a) == multiset{a[0]} + multiset(a[1..]);
    assert multiset(b) == multiset{b[0]} + multiset(b[1..]);
    forall y ensures multiset(a[1..])[y] == multiset(b[1..])[y] {
      assert multiset(a)[y] == multiset(b)[y];
    }
  }

  /** The enumeration does not depend on the order of the directory listing. */
  lemma ListingOrderIrrelevant(l1: Listing, l2: Listing)
    requires multiset(l1) == multiset(l2)
    requires StartTimesIdentify(l1)
    ensures FindAllSessions(l1) == FindAllSessions(l2)
  {
    var a := FindAllSessions(l1);
    forall i, j | 0 <= i < |a| && 0 <= j < |a| && a[i].startTime == a[j].startTime
      ensures a[i] == a[j]
    {
      assert a[i] in multiset(l1);
      assert a[j] in multiset(l1);
    }
    SortedArrangementUnique(a, FindAllSessions(l2));
  }

  /** In a start-ordered sequence the last session has the latest start, so
      the in-memory "last inserted" and the file-system "latest started"
      agree on the enumeration. */
  lemma LastOfSortedIsLatest(ss: seq<Session>)
    requires SortedByStart(ss) && |ss| > 0
    ensures InMemoryRepository.FindLastSession(ss) == Some(ss[|ss| - 1])
    ensures forall x :: x in ss ==> x.startTime <= ss[|ss| - 1].startTime
  {
  }

  /** The session with the latest start time, if there is any session. */
  function FindLastSession(listing: Listing): (r: Option<Session>)
    ensures r == None <==> |listing| == 0
    ensures r.Some? ==> r.value in listing
    ensures r.Some? ==> forall x :: x in listing ==> x.startTime <= r.value.startTime
  {
    var all := FindAllSessions(listing);
    var r := InMemoryRepository.FindLastSession(all);
    assert r.Some? ==> r.value in multiset(listing);
    assert forall x :: x in listing ==> x in multiset(all);
    r
  }

  /** Each project once, in the order projects first appear in the
      enumeration. */
  function FindAllProjects(listing: Listing): (r: seq<string>)
    ensures NoDuplicates(r)
    ensures forall p :: p in r <==> exists x :: x in listing && x.project == p
    ensures IsFirstSeenDedup(r, InMemoryRepository.Projects(FindAllSessions(listing)))
  {
    var all := FindAllSessions(listing);
    assert forall x :: x in listing <==> x in all by {
      assert forall x :: x in listing <==> x in multiset(all);
    }
    InMemoryRepository.FindAllProjects(all)
  }

  /** Each tag of a project's sessions once, in the order tags first appear
      across those sessions in the enumeration. */
  function FindAllProjectTags(listing: Listing, project: string): (r: seq<string>)
    ensures NoDuplicates(r)
    ensures forall t :: t in r <==> exists x :: x in listing && x.project == project && t in x.tags
    ensures IsFirstSeenDedup(r, InMemoryRepository.AllTags(
                                  InMemoryRepository.FindAllByProject(FindAllSessions(listing), project)))
  {
    var all := FindAllSessions(listing);
    assert forall x :: x in listing <==> x in all by {
      assert forall x :: x in listing <==> x in multiset(all);
    }
    InMemoryRepository.FindAllProjectTags(all, project)
  }

  /** A filter window on start times; a zero bound leaves that side open. */
  datatype TimeRange = TimeRange(since: Time, until: Time)

  /** Whether each bound admits a start time equal to it. The source of the
      range check is not part of this model, and no test places a start time
      on a bound, so every query below is stated for either choice. */
  datatype Inclusivity = Inclusivity(sinceInclusive: bool, untilInclusive: bool)

  predicate StartsAfterSince(t: Time, since: Time, incl: Inclusivity) {
    IsZero(since) || (if incl.sinceInclusive then since <= t else since < t)
  }

  predicate StartsBeforeUntil(t: Time, until: Time, incl: Inclusivity) {
    IsZero(until) || (if incl.untilInclusive then t <= until else t < until)
  }

  predicate InTimeRange(t: Time, range: TimeRange, incl: Inclusivity) {
    StartsAfterSince(t, range.since, incl) && StartsBeforeUntil(t, range.until, incl)
  }

  /** The range test as a filter over sessions. */
  function StartsIn(range: TimeRange, incl: Inclusivity): Session -> bool {
    (x: Session) => InTimeRange(x.startTime, range, incl)
  }

  /** Filtering a start-ordered sequence leaves it start-ordered. */
  lemma {:induction false} FilterKeepsSorted(ss: seq<Session>, p: Session -> bool)
    requires SortedByStart(ss)
    ensures SortedByStart(Filter(ss, p))
    decreases |ss|
  {
    if |ss| != 0 {
      var prefix := ss[..|ss| - 1];
      FilterKeepsSorted(prefix, p);
      var f := Filter(prefix, p);
      forall i | 0 <= i < |f|
        ensures f[i].startTime <= ss[|ss| - 1].startTime
      {
        assert f[i] in prefix;
      }
    }
  }

  /** The sessions starting inside `range`, in enumeration order. */
  function FindInTimeRange(listing: Listing, range: TimeRange, incl: Inclusivity): (r: seq<Session>)
    ensures SortedByStart(r)
    ensures IsSubsequence(r, FindAllSessions(listing))
    ensures forall x :: x in r <==> x in listing && InTimeRange(x.startTime, range, incl)
    ensures forall x :: multiset(r)[x] ==
              if InTimeRange(x.startTime, range, incl) then multiset(listing)[x] else 0
  {
    var all := FindAllSessions(listing);
    FilterKeepsSorted(all, StartsIn(range, incl));
    assert forall x :: x in listing <==> x in all by {
      assert forall x :: x in listing <==> x in multiset(all);
    }
    Filter(all, StartsIn(range, incl))
  }

  /** With both bounds zero the range query returns the whole enumeration. */
  lemma FindInTimeRangeUnbounded(listing: Listing, incl: Inclusivity)
    ensures FindInTimeRange(listing, TimeRange(ZERO, ZERO), incl) == FindAllSessions(listing)
  {
    FilterKeepsAll(FindAllSessions(listing), StartsIn(TimeRange(ZERO, ZERO), incl));
  }

  /** With both bounds set the range query keeps what the `since`-only query
      and the `until`-only query both keep, in enumeration order. */
  lemma FindInTimeRangeIsIntersection(listing: Listing, since: Time, until: Time, incl: Inclusivity)
    ensures FindInTimeRange(listing, TimeRange(since, until), incl)
         == Filter(FindInTimeRange(listing, TimeRange(since, ZERO), incl),
                   StartsIn(TimeRange(ZERO, until), incl))
  {
    FilterSinceThenUntil(FindAllSessions(listing), since, until, incl);
  }

  lemma FilterSinceThenUntil(ss: seq<Session>, since: Time, until: Time, incl: Inclusivity)
    ensures Filter(ss, StartsIn(TimeRange(since, until), incl))
         == Filter(Filter(ss, StartsIn(TimeRange(since, ZERO), incl)), StartsIn(TimeRange(ZERO, until), incl))
  {
    var p := StartsIn(TimeRange(since, ZERO), incl);
    var q := StartsIn(TimeRange(ZERO, until), incl);
    var both := StartsIn(TimeRange(since, until), incl);
    FilterFilter(ss, p, q);
    forall x ensures (p(x) && q(x)) == both(x) {
      assert p(x) == StartsAfterSince(x.startTime, since, incl);
      assert q(x) == StartsBeforeUntil(x.startTime, until, incl);
    }
    FilterCongruent(ss, (x: Session) => p(x) && q(x), both);
  }
}
