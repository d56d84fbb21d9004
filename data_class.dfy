/**
 * The records of the lottery service and the lifecycle predicates of an activity.
 * Timestamps are whole seconds; `now` is the instant the scheduler reads its clock.
 */
module DataClass {
  import opened Wrappers

  /** ActivityStatus codes as stored in activity_list.activity_status. */
  const PENDING: int := 1
  const ACTIVE: int := 2
  const KILLED: int := 3
  const ENDED: int := 4

  /** Seconds in a day: the modulus of `timedelta.seconds`. */
  const DAY: int := 86400
  /** Half an hour: the minimum duration and the final window of the pre-close check. */
  const CHECK_WINDOW: int := 1800

  datatype ConditionType = JoinGroup | JoinChannel | FollowBot | SpeechCount

  /** A participation condition. For SpeechCount, `targetId` lists chat ids joined by ','
      and `targetIdLink` holds the required message count as text. */
  datatype Condition = Condition(
    kind: ConditionType,
    targetId: string,
    targetIdLink: string,
    buttonName: string,
    name: string)

  /** A prize tier: `prizeCount` winners receive `prizeName` / `prizeContent`. */
  datatype Price = Price(prizeName: string, prizeContent: string, prizeCount: int)

  /** One row of activity_user: a participant of one activity. `userName` is None for SQL NULL. */
  datatype ActivityUser = ActivityUser(
    id: int,
    userName: Option<string>,
    userId: int,
    fullName: string,
    conditionStatus: int,
    winningStatus: int,
    winningContent: string,
    activityId: int,
    prizeLevel: int)

  datatype Activity = Activity(
    id: int,
    name: string,
    startTime: int,
    endTime: int,
    prices: seq<Price>,
    sysUserId: int,
    scope: string,
    checked: int,
    activityUsers: seq<ActivityUser>,
    conditions: seq<Condition>,
    activityStatus: int)

  /** `timedelta(seconds = d).seconds`: the seconds-within-a-day component, never negative. */
  function Seconds(d: int): (r: int)
    ensures 0 <= r < DAY
    ensures exists k :: d == k * DAY + r
  {
    var r := d % DAY;
    assert d == (d / DAY) * DAY + r;
    r
  }

  predicate IsActive(a: Activity, now: int)
  {
    a.startTime <= now <= a.endTime && a.activityStatus == ACTIVE
  }

  predicate ShouldStart(a: Activity, now: int)
  {
    now >= a.startTime && a.activityStatus == PENDING
  }

  /** The half-hour-before-close check; both durations are taken modulo one day. */
  predicate ShouldCheck(a: Activity, now: int)
  {
    Seconds(a.endTime - a.startTime) >= CHECK_WINDOW
    && Seconds(a.endTime - now) <= CHECK_WINDOW
    && a.activityStatus == ACTIVE
  }

  predicate ShouldEnd(a: Activity, now: int)
  {
    now >= a.endTime && a.activityStatus == ACTIVE
  }

  /** A killed or ended activity is never active and triggers nothing, whatever the clock says. */
  lemma TerminalIsInert(a: Activity, now: int)
    requires a.activityStatus == KILLED || a.activityStatus == ENDED
    ensures !IsActive(a, now) && !ShouldStart(a, now) && !ShouldCheck(a, now) && !ShouldEnd(a, now)
  {
  }

  /** Start and end ask for different status codes, so they never hold together. */
  lemma StartExcludesEnd(a: Activity, now: int)
    ensures !(ShouldStart(a, now) && ShouldEnd(a, now))
  {
  }

  /** `Seconds` ignores whole days. */
  lemma {:induction false} SecondsIgnoresDays(d: int, k: nat)
    ensures Seconds(d + k * DAY) == Seconds(d)
  {
    if k > 0 {
      SecondsIgnoresDays(d, k - 1);
      assert d + k * DAY == (d + (k - 1) * DAY) + DAY;
    }
  }

  /** Within the last day before the end, the check fires exactly in the final half hour
      (for an active activity whose duration is between half an hour and a day). */
  lemma CheckInLastDay(a: Activity, now: int)
    requires a.activityStatus == ACTIVE
    requires CHECK_WINDOW <= a.endTime - a.startTime < DAY
    requires 0 <= a.endTime - now < DAY
    ensures ShouldCheck(a, now) <==> a.endTime - now <= CHECK_WINDOW
  {
  }

  /** The check window repeats every day before the end: whenever the check fires at
      `now`, it also fired exactly `k` days earlier. */
  lemma {:induction false} CheckRecursDaily(a: Activity, now: int, k: nat)
    requires ShouldCheck(a, now)
    ensures ShouldCheck(a, now - k * DAY)
  {
    SecondsIgnoresDays(a.endTime - now, k);
    assert a.endTime - (now - k * DAY) == (a.endTime - now) + k * DAY;
  }

  /** An activity that lasts one day and 100 seconds is taken to last 100 seconds,
      so the pre-close check never fires for it. */
  lemma DayAndALittleNeverChecked(a: Activity, now: int)
    requires a.endTime - a.startTime == DAY + 100
    ensures !ShouldCheck(a, now)
  {
    SecondsIgnoresDays(100, 1);
  }

  /** An activity shorter than half an hour is never checked. */
  lemma ShortActivityNeverChecked(a: Activity, now: int)
    requires 0 <= a.endTime - a.startTime < CHECK_WINDOW
    ensures !ShouldCheck(a, now)
  {
  }
}
