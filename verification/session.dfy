/** The flow-session entity: a tracked interval of work on a project, with
    derived status and duration. */
module SessionDomain {

  import Seqs

  /** An instant, in nanoseconds since 1970-01-01 00:00:00 UTC. */
  type Time = int

  /** A length of time in nanoseconds, like Go's `time.Duration`. */
  type Duration = int

  const Second: Duration := 1_000_000_000

  /** Go's zero `time.Time{}`: 0001-01-01 00:00:00 UTC. A session whose end is
      this instant has not ended yet. */
  const ZERO: Time := -62_135_596_800 * Second

  predicate IsZero(t: Time) {
    t == ZERO
  }

  const FlowingStatus: string := "FLOWING"
  const EndedStatus: string := "ENDED"

  datatype Session = Session(
    id: string,
    startTime: Time,
    endTime: Time,
    project: string,
    tags: seq<string>
  )

  /** A session that is still running; the one status the entity reports as
      FLOWING. */
  predicate IsRunning(s: Session) {
    IsZero(s.endTime)
  }

  function Status(s: Session): (r: string)
    ensures r == FlowingStatus <==> IsRunning(s)
    ensures r == EndedStatus <==> !IsRunning(s)
  {
    if IsZero(s.endTime) then FlowingStatus else EndedStatus
  }

  /** The end time as shown to the user; `format` stands for Go's layout-based
      date formatting, which this model does not interpret. */
  function FormattedEndTime(s: Session, format: Time -> string): (r: string)
    ensures IsRunning(s) ==> r == "/"
    ensures !IsRunning(s) ==> r == format(s.endTime)
  {
    if IsZero(s.endTime) then "/" else format(s.endTime)
  }

  function Abs(x: int): nat {
    if x < 0 then -x else x
  }

  /** Go's `%` by one second, which truncates toward zero: the remainder
      takes the sign of the dividend. */
  function TruncatedRem(d: Duration): (r: Duration)
    ensures Abs(r) < Second
    ensures d >= 0 ==> r >= 0
    ensures d < 0 ==> r <= 0
    ensures (d - r) % Second == 0
  {
    if d >= 0 then d % Second else -((-d) % Second)
  }

  /** `r` is the value Go's rounding to whole seconds produces for `d`: a
      multiple of one second, no more than half a second away from `d`, and on
      an exact tie the one further from zero. */
  ghost predicate IsRoundedToSecond(r: Duration, d: Duration) {
    && r % Second == 0
    && 2 * Abs(r - d) <= Second
    && (2 * Abs(r - d) == Second ==> (if d >= 0 then r > d else r < d))
  }

  /** Go's `d.Round(time.Second)`, ignoring its saturation at the `int64`
      limits: halfway values round away from zero. */
  function RoundToSecond(d: Duration): (r: Duration)
    ensures IsRoundedToSecond(r, d)
    ensures d >= 0 ==> r >= 0
  {
    if d < 0 then
      var rem := -TruncatedRem(d);
      if rem + rem < Second then d + rem else d - Second + rem
    else
      var rem := TruncatedRem(d);
      if rem + rem < Second then d - rem else d + Second - rem
  }

  /** The rounding rule leaves no choice: at most one value satisfies it, so
      `RoundToSecond` is the round-half-away-from-zero of its argument. */
  lemma RoundToSecondIsUnique(d: Duration, r: Duration)
    requires IsRoundedToSecond(r, d)
    ensures RoundToSecond(d) == r
  {
  }

  /** Elapsed time of the session rounded to whole seconds; zero while it is
      still running. */
  function SessionDuration(s: Session): (r: Duration)
    ensures IsRunning(s) ==> r == 0
    ensures !IsRunning(s) ==> IsRoundedToSecond(r, s.endTime - s.startTime)
    ensures !IsRunning(s) && s.startTime <= s.endTime ==> r >= 0
  {
    if IsZero(s.endTime) then 0
    else RoundToSecond(s.endTime - s.startTime)
  }

  /** A running session reports FLOWING and a zero duration. */
  lemma FlowingHasNoDuration(s: Session)
    requires Status(s) == FlowingStatus
    ensures SessionDuration(s) == 0
  {
  }

  /** Sessions are the same session exactly when their ids are equal. */
  function Equals(a: Session, b: Session): (r: bool)
    ensures r <==> a.id == b.id
  {
    a.id == b.id
  }

  /** `Equals` is an equivalence relation that sees nothing but the id. */
  lemma EqualsIsIdentity(a: Session, b: Session, c: Session)
    ensures Equals(a, a)
    ensures Equals(a, b) == Equals(b, a)
    ensures Equals(a, b) && Equals(b, c) ==> Equals(a, c)
    ensures Equals(a, b) == Equals(a.(startTime := b.startTime, endTime := b.endTime,
                                      project := b.project, tags := b.tags), b)
  {
  }

  /** The scan over `tags` that stops at the first tag equal to `tag`. */
  function HasTag(s: Session, tag: string): (r: bool)
    ensures r <==> tag in s.tags
  {
    Seqs.IndexFunc(s.tags, t => t == tag) != -1
  }

  /** Reordering or repeating tags does not change tag membership. */
  lemma HasTagDependsOnTagSetOnly(s1: Session, s2: Session, tag: string)
    requires forall t :: t in s1.tags <==> t in s2.tags
    ensures HasTag(s1, tag) == HasTag(s2, tag)
  {
  }
}
