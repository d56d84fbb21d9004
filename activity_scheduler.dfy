/**
 * ActivityScheduler: one tick lists the open activities and runs at most one handler per
 * activity. The handlers write the activity's status and checked flag, fan notifications
 * out to the activity's scope, validate participants and draw winners. Work that the
 * source runs concurrently is run in list order.
 */
module ActivityScheduler {
  import opened Wrappers
  import opened Text
  import opened DataClass
  import opened DataRepository
  import opened Validator
  import opened PrizeChoice

  // ---------------------------------------------------------------------------
  // Dispatch

  datatype Handler = StartHandler | EndHandler | CheckHandler | NoHandler

  /** _process_activity: the first of should_start, should_end, should_check that holds. */
  function Dispatch(a: Activity, now: int): Handler
  {
    if ShouldStart(a, now) then StartHandler
    else if ShouldEnd(a, now) then EndHandler
    else if ShouldCheck(a, now) then CheckHandler
    else NoHandler
  }

  /** The end handler runs exactly when should_end holds, whatever should_check says; the
      check handler only when neither start nor end is due. */
  lemma DispatchPriority(a: Activity, now: int)
    ensures Dispatch(a, now) == StartHandler <==> ShouldStart(a, now)
    ensures Dispatch(a, now) == EndHandler <==> ShouldEnd(a, now)
    ensures Dispatch(a, now) == CheckHandler <==> ShouldCheck(a, now) && !ShouldEnd(a, now)
    ensures Dispatch(a, now) == NoHandler <==> !ShouldStart(a, now) && !ShouldEnd(a, now) && !ShouldCheck(a, now)
  {
    StartExcludesEnd(a, now);
  }

  /** Ended and killed activities get no handler. */
  lemma TerminalGetsNoHandler(a: Activity, now: int)
    requires a.activityStatus == ENDED || a.activityStatus == KILLED
    ensures Dispatch(a, now) == NoHandler
  {
    TerminalIsInert(a, now);
  }

  // ---------------------------------------------------------------------------
  // Notification fan-out

  datatype Notice = StartNotice | EndNotice

  /** What the scheduler does that is visible outside the participant table, in order. */
  datatype Event =
    | StatusWritten(activityId: int, status: int)
    | CheckedWritten(activityId: int, checked: int)
    | Notified(notice: Notice, activityId: int, target: string, delivered: bool)

  /** The group_id column of the given rows. */
  function GroupIds(groups: seq<GroupRow>): seq<string>
  {
    seq(|groups|, j requires 0 <= j < |groups| => groups[j].groupId)
  }

  /** The chats an activity's notices go to: the scope itself when it is a chat id
      starting with "-100", otherwise every group tagged with the scope. */
  function Targets(a: Activity, groups: seq<GroupRow>): seq<string>
  {
    if StartsWith(a.scope, "-100") then [a.scope]
    else GroupIds(TaggedGroups(groups, a.scope, a.sysUserId))
  }

  /** One notice per target, whatever the other targets' delivery outcome. */
  function Notices(delivers: (Notice, int, string) -> bool, n: Notice, a: Activity, targets: seq<string>): seq<Event>
  {
    seq(|targets|, j requires 0 <= j < |targets| => Notified(n, a.id, targets[j], delivers(n, a.id, targets[j])))
  }

  /** A "-100" scope gets exactly one notice addressed to it; any other scope gets a notice
      for every tagged group and for nothing else, and none when no group is tagged. */
  lemma FanOut(delivers: (Notice, int, string) -> bool, n: Notice, a: Activity, groups: seq<GroupRow>)
    ensures StartsWith(a.scope, "-100") ==>
      |Notices(delivers, n, a, Targets(a, groups))| == 1 && Notices(delivers, n, a, Targets(a, groups))[0].target == a.scope
    ensures !StartsWith(a.scope, "-100") ==>
      && (forall e :: e in Notices(delivers, n, a, Targets(a, groups)) ==>
            exists g :: g in groups && Tagged(g, a.scope, a.sysUserId) && g.groupId == e.target)
      && (forall g :: g in groups && Tagged(g, a.scope, a.sysUserId) ==>
            exists e :: e in Notices(delivers, n, a, Targets(a, groups)) && e.target == g.groupId)
    ensures !StartsWith(a.scope, "-100") && (forall g :: g in groups ==> !Tagged(g, a.scope, a.sysUserId)) ==>
      Notices(delivers, n, a, Targets(a, groups)) == []
  {
    TaggedGroupsMembership(groups, a.scope, a.sysUserId);
    if !StartsWith(a.scope, "-100") {
      var tagged := TaggedGroups(groups, a.scope, a.sysUserId);
      var events := Notices(delivers, n, a, Targets(a, groups));
      forall e | e in events ensures exists g :: g in groups && Tagged(g, a.scope, a.sysUserId) && g.groupId == e.target {
        var j :| 0 <= j < |events| && events[j] == e;
        assert tagged[j] in tagged;
      }
      forall g | g in groups && Tagged(g, a.scope, a.sysUserId) ensures exists e :: e in events && e.target == g.groupId {
        var j :| 0 <= j < |tagged| && tagged[j] == g;
        assert events[j] in events;
      }
    }
  }

  // ---------------------------------------------------------------------------
  // Effects of the handlers on the activity table and the trace

  /** _handle_activity_start's writes: status 2, then checked 1, unless checked is set. */
  function StartWrites(rows: seq<ActivityRow>, a: Activity): seq<ActivityRow>
  {
    if a.checked != 0 then rows else WithChecked(WithStatus(rows, a.id, ACTIVE), a.id, 1)
  }

  /** _handle_activity_end's write: status 4, unless checked is 0. */
  function EndWrites(rows: seq<ActivityRow>, a: Activity): seq<ActivityRow>
  {
    if a.checked == 0 then rows else WithStatus(rows, a.id, ENDED)
  }

  /** The activity-table effect of processing one listed activity. */
  function ActivityEffect(rows: seq<ActivityRow>, a: Activity, now: int): seq<ActivityRow>
  {
    match Dispatch(a, now)
    case StartHandler => StartWrites(rows, a)
    case EndHandler => EndWrites(rows, a)
    case _ => rows
  }

  /** The activity-table effect of one tick over the listed activities, in order. */
  function TickEffect(rows: seq<ActivityRow>, listed: seq<Activity>, now: int): seq<ActivityRow>
  {
    if listed == [] then rows
    else ActivityEffect(TickEffect(rows, listed[..|listed| - 1], now), listed[|listed| - 1], now)
  }

  /** The start handler's trace: status write, notices, checked write. */
  function StartEvents(delivers: (Notice, int, string) -> bool, a: Activity, groups: seq<GroupRow>): seq<Event>
  {
    if a.checked != 0 then []
    else [StatusWritten(a.id, ACTIVE)] + Notices(delivers, StartNotice, a, Targets(a, groups)) + [CheckedWritten(a.id, 1)]
  }

  /** The end handler's trace after the draw: status write, then notices. */
  function EndEvents(delivers: (Notice, int, string) -> bool, a: Activity, groups: seq<GroupRow>): seq<Event>
  {
    if a.checked == 0 then []
    else [StatusWritten(a.id, ENDED)] + Notices(delivers, EndNotice, a, Targets(a, groups))
  }

  function HandlerEvents(delivers: (Notice, int, string) -> bool, a: Activity, now: int, groups: seq<GroupRow>): seq<Event>
  {
    match Dispatch(a, now)
    case StartHandler => StartEvents(delivers, a, groups)
    case EndHandler => EndEvents(delivers, a, groups)
    case _ => []
  }

  /** The start handler writes ACTIVE before its first notice and checked = 1 after its last. */
  lemma StartOrder(delivers: (Notice, int, string) -> bool, a: Activity, groups: seq<GroupRow>)
    requires a.checked == 0
    ensures var ev := StartEvents(delivers, a, groups);
      && ev[0] == StatusWritten(a.id, ACTIVE)
      && ev[|ev| - 1] == CheckedWritten(a.id, 1)
      && forall j :: 0 < j < |ev| - 1 ==> ev[j].Notified? && ev[j].notice == StartNotice
  {
  }

  /** A status step a tick may take: none, pending to active, or active to ended. */
  predicate Advanced(before: int, after: int)
  {
    after == before || (before == PENDING && after == ACTIVE) || (before == ACTIVE && after == ENDED)
  }

  /** Every listed activity matches the row it came from, and their ids are distinct. */
  ghost predicate ListedFrom(rows: seq<ActivityRow>, listed: seq<Activity>)
  {
    && (forall i :: 0 <= i < |listed| ==>
          exists k :: 0 <= k < |rows| && rows[k].id == listed[i].id && rows[k].activityStatus == listed[i].activityStatus)
    && (forall i, j :: 0 <= i < j < |listed| ==> listed[i].id != listed[j].id)
  }

  /** Rows whose id no processed activity has are untouched by the tick. */
  lemma {:induction false} TickLeavesOthers(rows: seq<ActivityRow>, listed: seq<Activity>, now: int, k: int)
    requires 0 <= k < |rows|
    requires forall i :: 0 <= i < |listed| ==> listed[i].id != rows[k].id
    ensures |TickEffect(rows, listed, now)| == |rows|
    ensures TickEffect(rows, listed, now)[k] == rows[k]
  {
    if listed != [] {
      TickLeavesOthers(rows, listed[..|listed| - 1], now, k);
    }
  }

  /** The writes of one activity keep every row's id and touch only rows with its id. */
  lemma ActivityEffectFrame(rows: seq<ActivityRow>, a: Activity, now: int)
    ensures |ActivityEffect(rows, a, now)| == |rows|
    ensures forall k :: 0 <= k < |rows| ==> ActivityEffect(rows, a, now)[k].id == rows[k].id
    ensures forall k :: 0 <= k < |rows| && rows[k].id != a.id ==> ActivityEffect(rows, a, now)[k] == rows[k]
    ensures forall k :: 0 <= k < |rows| && rows[k].id == a.id && rows[k].activityStatus == a.activityStatus ==>
              Advanced(rows[k].activityStatus, ActivityEffect(rows, a, now)[k].activityStatus)
  {
  }

  /** The status half of TickAdvances, for any activity list that matches its rows. */
  lemma {:induction false} TickAdvancesListed(rows: seq<ActivityRow>, listed: seq<Activity>, now: int)
    requires UniqueActivityIds(rows) && ListedFrom(rows, listed)
    ensures |TickEffect(rows, listed, now)| == |rows|
    ensures forall k :: 0 <= k < |rows| ==>
              TickEffect(rows, listed, now)[k].id == rows[k].id
              && Advanced(rows[k].activityStatus, TickEffect(rows, listed, now)[k].activityStatus)
  {
    if listed != [] {
      var n := |listed| - 1;
      var init := listed[..n];
      var a := listed[n];
      assert ListedFrom(rows, init);
      TickAdvancesListed(rows, init, now);
      var mid := TickEffect(rows, init, now);
      ActivityEffectFrame(mid, a, now);
      forall k | 0 <= k < |rows|
        ensures TickEffect(rows, listed, now)[k].id == rows[k].id
        ensures Advanced(rows[k].activityStatus, TickEffect(rows, listed, now)[k].activityStatus)
      {
        if rows[k].id == a.id {
          TickLeavesOthers(rows, init, now, k);
          var k' :| 0 <= k' < |rows| && rows[k'].id == a.id && rows[k'].activityStatus == a.activityStatus;
          assert k' == k;
        }
      }
    }
  }

  /** The listing of open activities matches its rows and has distinct ids. */
  lemma {:induction false} ListingIsListedFrom(rows: seq<ActivityRow>, users: seq<ActivityUser>)
    requires UniqueActivityIds(rows)
    ensures ListedFrom(rows, Listing(rows, users, 0))
  {
    if rows != [] {
      var init := rows[..|rows| - 1];
      var last := rows[|rows| - 1];
      ListingIsListedFrom(init, users);
      var listed := Listing(rows, users, 0);
      var before := Listing(init, users, 0);
      forall i | 0 <= i < |listed|
        ensures exists k :: 0 <= k < |rows| && rows[k].id == listed[i].id && rows[k].activityStatus == listed[i].activityStatus
      {
        if i < |before| {
          var k :| 0 <= k < |init| && init[k].id == before[i].id && init[k].activityStatus == before[i].activityStatus;
          assert rows[k] == init[k];
        } else {
          assert rows[|rows| - 1].id == listed[i].id;
        }
      }
      forall i, j | 0 <= i < j < |listed| ensures listed[i].id != listed[j].id {
        if j >= |before| {
          var k :| 0 <= k < |init| && init[k].id == before[i].id && init[k].activityStatus == before[i].activityStatus;
          assert rows[k] == init[k];
        }
      }
    }
  }

  /** One tick moves every activity at most one step along pending, active, ended, keeps
      every row, and never revives an ended or killed activity. */
  lemma TickAdvances(rows: seq<ActivityRow>, users: seq<ActivityUser>, now: int)
    requires UniqueActivityIds(rows)
    ensures var r := TickEffect(rows, Listing(rows, users, 0), now);
      && |r| == |rows|
      && forall k :: 0 <= k < |rows| ==> r[k].id == rows[k].id && Advanced(rows[k].activityStatus, r[k].activityStatus)
  {
    ListingIsListedFrom(rows, users);
    TickAdvancesListed(rows, Listing(rows, users, 0), now);
  }

  // ---------------------------------------------------------------------------
  // Participant validation

  /** One validate_user_conditions call for a participant of `a`, as it affects the
      participant table: the activity is re-read by id and the flag written for its rows. */
  function ValidationStep(o: Oracles, acts: seq<ActivityRow>, users: seq<ActivityUser>, a: Activity, userId: int)
    : seq<ActivityUser>
  {
    match FindActivity(Listing(acts, users, 0), IntId(a.id))
    case Success(Some(b)) => WithConditionStatus(users, b.id, userId, ConditionFlag(o, b, userId, a.sysUserId))
    case _ => users
  }

  /** _validate_users_conditions: one validation per participant of the snapshot, in order;
      only condition_status ever changes. */
  function ValidatedUsers(o: Oracles, acts: seq<ActivityRow>, users: seq<ActivityUser>, a: Activity,
                          participants: seq<ActivityUser>): (r: seq<ActivityUser>)
    ensures |r| == |users|
    ensures forall k :: 0 <= k < |r| ==> r[k].(conditionStatus := users[k].conditionStatus) == users[k]
  {
    if participants == [] then users
    else
      var n := |participants| - 1;
      ValidationStep(o, acts, ValidatedUsers(o, acts, users, a, participants[..n]), a, participants[n].userId)
  }

  /** An activity with its participant list emptied: everything a validator looks at. */
  function Shape(r: Result<Option<Activity>>): Result<Option<Activity>>
  {
    match r
    case Success(Some(b)) => Success(Some(b.(activityUsers := [])))
    case _ => r
  }

  /** The listing depends on the participant table only through the participant lists. */
  lemma {:induction false} ListingShapeIgnoresUsers(rows: seq<ActivityRow>, u1: seq<ActivityUser>,
                                                    u2: seq<ActivityUser>, activityId: int)
    ensures |Listing(rows, u1, activityId)| == |Listing(rows, u2, activityId)|
    ensures forall i :: 0 <= i < |Listing(rows, u1, activityId)| ==>
              Listing(rows, u1, activityId)[i].(activityUsers := []) == Listing(rows, u2, activityId)[i].(activityUsers := [])
  {
    if rows != [] {
      ListingShapeIgnoresUsers(rows[..|rows| - 1], u1, u2, activityId);
    }
  }

  lemma {:induction false} FindShapeIgnoresUsers(l1: seq<Activity>, l2: seq<Activity>, arg: IdArg)
    requires |l1| == |l2|
    requires forall i :: 0 <= i < |l1| ==> l1[i].(activityUsers := []) == l2[i].(activityUsers := [])
    ensures Shape(FindActivity(l1, arg)) == Shape(FindActivity(l2, arg))
  {
    if l1 != [] && IntOf(arg).Some? {
      assert l1[0].id == l1[0].(activityUsers := []).id;
      assert l2[0].id == l2[0].(activityUsers := []).id;
      if l1[0].id != IntOf(arg).value {
        FindShapeIgnoresUsers(l1[1..], l2[1..], arg);
      }
    }
  }

  /** Looking an activity up by id gives the same activity, participants aside, whatever
      the participant table holds. */
  lemma FindIgnoresUsers(rows: seq<ActivityRow>, u1: seq<ActivityUser>, u2: seq<ActivityUser>, arg: IdArg)
    ensures Shape(FindActivity(Listing(rows, u1, 0), arg)) == Shape(FindActivity(Listing(rows, u2, 0), arg))
  {
    ListingShapeIgnoresUsers(rows, u1, u2, 0);
    FindShapeIgnoresUsers(Listing(rows, u1, 0), Listing(rows, u2, 0), arg);
  }

  /** After the validation pass over an open activity, every row of that activity whose
      user was in the participant snapshot holds the flag its conditions give, whatever the
      row held before: a pass can turn into a fail. */
  lemma {:induction false} ParticipantsFlagged(o: Oracles, acts: seq<ActivityRow>, users: seq<ActivityUser>, a: Activity,
                                               participants: seq<ActivityUser>, b: Activity, k: int)
    requires FindActivity(Listing(acts, users, 0), IntId(a.id)) == Success(Some(b))
    requires 0 <= k < |users| && users[k].activityId == a.id
    requires exists j :: 0 <= j < |participants| && participants[j].userId == users[k].userId
    ensures ValidatedUsers(o, acts, users, a, participants)[k].conditionStatus
            == ConditionFlag(o, b, users[k].userId, a.sysUserId)
  {
    var n := |participants| - 1;
    var init := participants[..n];
    var prev := ValidatedUsers(o, acts, users, a, init);
    FindIgnoresUsers(acts, users, prev, IntId(a.id));
    FindActivityCases(Listing(acts, users, 0), IntId(a.id));
    var found := FindActivity(Listing(acts, prev, 0), IntId(a.id));
    assert found.Success? && found.value.Some?;
    var b' := found.value.value;
    assert b'.(activityUsers := []) == b.(activityUsers := []);
    assert b'.id == b.id && b'.conditions == b.conditions && b'.startTime == b.startTime && b'.endTime == b.endTime;
    FlagIgnoresParticipants(o, b, b', users[k].userId, a.sysUserId);
    assert prev[k].activityId == users[k].activityId && prev[k].userId == users[k].userId;
    if participants[n].userId != users[k].userId {
      var j :| 0 <= j < |participants| && participants[j].userId == users[k].userId;
      assert init[j].userId == users[k].userId;
      ParticipantsFlagged(o, acts, users, a, init, b, k);
    }
  }

  // ---------------------------------------------------------------------------
  // Drawing winners at the end

  /** The participants with a truthy condition_status, in order. */
  function Eligible(us: seq<ActivityUser>): (r: seq<ActivityUser>)
    ensures forall u :: u in r <==> u in us && u.conditionStatus != 0
  {
    if us == [] then []
    else
      var last := us[|us| - 1];
      Eligible(us[..|us| - 1]) + (if last.conditionStatus != 0 then [last] else [])
  }

  /** _validate_and_choose_winners as a relation between the participant table before and
      after, given the tiers drawn: nothing when no bot is available (the exception is
      logged), otherwise validation, a re-read by id, and a draw among the eligible
      participants of the re-read activity when there are both such participants and prizes. */
  ghost predicate ChoseWinners(o: Oracles, botOk: bool, acts: seq<ActivityRow>, before: seq<ActivityUser>,
                               after: seq<ActivityUser>, a: Activity, drawn: seq<seq<ActivityUser>>, raised: bool)
  {
    if !botOk then after == before && drawn == [] && !raised
    else
      var validated := ValidatedUsers(o, acts, before, a, a.activityUsers);
      var listed := Listing(acts, validated, a.id);
      if listed == [] then after == validated && drawn == [] && !raised
      else
        var b := listed[0];
        var eligible := Eligible(b.activityUsers);
        if eligible != [] && b.prices != [] then
          Allocation(b.prices, eligible, drawn, raised) && after == ApplyAwards(validated, Awards(b.prices, drawn))
        else after == validated && drawn == [] && !raised
  }

  /** The end step adds and removes no participant rows and changes only their condition
      and prize columns. */
  lemma ChoseWinnersKeepsRows(o: Oracles, botOk: bool, acts: seq<ActivityRow>, before: seq<ActivityUser>,
                              after: seq<ActivityUser>, a: Activity, drawn: seq<seq<ActivityUser>>, raised: bool)
    requires ChoseWinners(o, botOk, acts, before, after, a, drawn, raised)
    ensures SameParticipants(before, after)
  {
  }

  /** Everyone who wins is a participant of the re-read activity whose condition_status was
      truthy after validation, and nobody wins twice. */
  lemma WinnersWereEligible(o: Oracles, acts: seq<ActivityRow>, before: seq<ActivityUser>,
                            after: seq<ActivityUser>, a: Activity, drawn: seq<seq<ActivityUser>>, raised: bool,
                            u: ActivityUser)
    requires ChoseWinners(o, true, acts, before, after, a, drawn, raised)
    requires UniqueUserIds(before)
    requires u in Winners(drawn)
    ensures var validated := ValidatedUsers(o, acts, before, a, a.activityUsers);
      u in validated && u.conditionStatus != 0 && u.activityId == Listing(acts, validated, a.id)[0].id
    ensures multiset(Winners(drawn))[u] == 1
  {
    var validated := ValidatedUsers(o, acts, before, a, a.activityUsers);
    var b := Listing(acts, validated, a.id)[0];
    var eligible := Eligible(b.activityUsers);
    assert eligible != [] && b.prices != [];
    ListingSound(acts, validated, a.id, b);
    WinnersFromCandidates(b.prices, eligible, drawn);
    assert u in multiset(eligible);
    UsersOfMembership(validated, b.id);
    EligibleUnique(b.activityUsers, validated, b.id);
    UniqueIdsAreKeyed(eligible);
  }

  /** The eligible participants of an activity have distinct row ids. */
  lemma EligibleUnique(us: seq<ActivityUser>, validated: seq<ActivityUser>, activityId: int)
    requires us == UsersOf(validated, activityId)
    requires forall i, j :: 0 <= i < j < |validated| ==> validated[i].id != validated[j].id
    ensures UniqueUserIds(Eligible(us))
  {
    UsersOfUnique(validated, activityId);
    FilterKeepsUnique(us);
  }

  lemma {:induction false} FilterKeepsUnique(us: seq<ActivityUser>)
    requires UniqueUserIds(us)
    ensures UniqueUserIds(Eligible(us))
  {
    if us != [] {
      var init := us[..|us| - 1];
      FilterKeepsUnique(init);
      var before := Eligible(init);
      forall i | 0 <= i < |before| ensures before[i].id != us[|us| - 1].id {
        assert before[i] in init;
      }
    }
  }

  /** At the end, the row of a winner of tier i (0-based) records the re-read activity's
      i-th prize text, level i + 1 and winning_status 1. */
  lemma EndWinnersRecorded(o: Oracles, acts: seq<ActivityRow>, before: seq<ActivityUser>,
                           after: seq<ActivityUser>, a: Activity, drawn: seq<seq<ActivityUser>>, raised: bool,
                           i: int, u: ActivityUser, k: int)
    requires ChoseWinners(o, true, acts, before, after, a, drawn, raised)
    requires UniqueUserIds(before)
    requires 0 <= i < |drawn| && u in drawn[i]
    requires 0 <= k < |before| && before[k].id == u.id
    ensures var b := Listing(acts, ValidatedUsers(o, acts, before, a, a.activityUsers), a.id)[0];
      && i < |b.prices|
      && after[k].winningStatus == 1
      && after[k].winningContent == PrizeText(b.prices[i])
      && after[k].prizeLevel == i + 1
  {
    var validated := ValidatedUsers(o, acts, before, a, a.activityUsers);
    var b := Listing(acts, validated, a.id)[0];
    var eligible := Eligible(b.activityUsers);
    assert eligible != [] && b.prices != [];
    ListingSound(acts, validated, a.id, b);
    EligibleUnique(b.activityUsers, validated, b.id);
    WinnerRowRecordsTier(validated, b.prices, eligible, drawn, i, u, k);
  }

  // ---------------------------------------------------------------------------
  // The scheduler

  class Scheduler {
    const repository: Repository
    const oracles: Oracles
    /** Whether LotteryBot.get_lottery_bot(owner) yields a bot, i.e. _get_bot does not raise. */
    const botFor: int -> bool
    /** Whether a notice reaches its chat; a failure is logged by the notification service. */
    const delivers: (Notice, int, string) -> bool
    /** The store writes to activities and the notices sent, in order. */
    var trace: seq<Event>

    constructor (repository: Repository, oracles: Oracles, botFor: int -> bool, delivers: (Notice, int, string) -> bool)
      ensures this.repository == repository && this.oracles == oracles
      ensures this.botFor == botFor && this.delivers == delivers
      ensures trace == []
    {
      this.repository := repository;
      this.oracles := oracles;
      this.botFor := botFor;
      this.delivers := delivers;
      trace := [];
    }

    /** _send_single_notification: one notice; its failure stays inside. */
    method SendSingleNotification(n: Notice, a: Activity, target: string)
      modifies this
      ensures trace == old(trace) + [Notified(n, a.id, target, delivers(n, a.id, target))]
    {
      trace := trace + [Notified(n, a.id, target, delivers(n, a.id, target))];
    }

    /** _send_activity_notification: the scope itself, or every tagged group in turn. */
    method SendActivityNotification(n: Notice, a: Activity)
      modifies this
      ensures trace == old(trace) + Notices(delivers, n, a, Targets(a, repository.groups))
    {
      if StartsWith(a.scope, "-100") {
        SendSingleNotification(n, a, a.scope);
      } else {
        var groups := repository.GetGroupsByTag(a.scope, a.sysUserId);
        var targets := GroupIds(groups);
        var j := 0;
        while j < |groups|
          invariant 0 <= j <= |groups|
          invariant trace == old(trace) + Notices(delivers, n, a, targets[..j])
        {
          assert Notices(delivers, n, a, targets[..j + 1]) == Notices(delivers, n, a, targets[..j]) + [Notified(n, a.id, targets[j], delivers(n, a.id, targets[j]))];
          SendSingleNotification(n, a, groups[j].groupId);
          j := j + 1;
        }
        assert targets[..j] == targets;
      }
    }

    /** _validate_users_conditions: validates every participant of the snapshot. */
    method ValidateUsersConditions(a: Activity)
      requires repository.Valid()
      modifies repository
      ensures repository.Valid()
      ensures repository.users == ValidatedUsers(oracles, old(repository.activities), old(repository.users), a, a.activityUsers)
      ensures repository.activities == old(repository.activities) && repository.groups == old(repository.groups)
      ensures repository.userParticipations == old(repository.userParticipations)
      ensures repository.nextUserId == old(repository.nextUserId)
    {
      var us := a.activityUsers;
      var j := 0;
      while j < |us|
        invariant 0 <= j <= |us|
        invariant repository.Valid()
        invariant repository.users == ValidatedUsers(oracles, old(repository.activities), old(repository.users), a, us[..j])
        invariant repository.activities == old(repository.activities) && repository.groups == old(repository.groups)
        invariant repository.userParticipations == old(repository.userParticipations)
        invariant repository.nextUserId == old(repository.nextUserId)
      {
        assert us[..j + 1][..j] == us[..j];
        var _ := ValidateUserConditions(repository, oracles, us[j].userId, IntId(a.id), a.sysUserId);
        j := j + 1;
      }
      assert us[..j] == us;
    }

    /** _validate_and_choose_winners: every exception is logged and ends the step early. */
    method ValidateAndChooseWinners(a: Activity) returns (ghost drawn: seq<seq<ActivityUser>>, ghost raised: bool)
      requires repository.Valid()
      modifies repository
      ensures repository.Valid()
      ensures ChoseWinners(oracles, botFor(a.sysUserId), old(repository.activities), old(repository.users),
                           repository.users, a, drawn, raised)
      ensures repository.activities == old(repository.activities) && repository.groups == old(repository.groups)
      ensures repository.userParticipations == old(repository.userParticipations)
      ensures repository.nextUserId == old(repository.nextUserId)
    {
      drawn, raised := [], false;
      if !botFor(a.sysUserId) {
        return;
      }
      ValidateUsersConditions(a);
      var listed := repository.GetAllActivities(a.id);
      if listed == [] {
        return;
      }
      var b := listed[0];
      var eligible := Eligible(b.activityUsers);
      if eligible != [] && b.prices != [] {
        var r;
        r, drawn := RandomChoicePrizer(repository, b.prices, eligible);
        raised := r;
      }
    }

    /** _handle_activity_start. */
    method HandleStart(a: Activity)
      requires repository.Valid()
      modifies this, repository
      ensures repository.Valid()
      ensures repository.activities == StartWrites(old(repository.activities), a)
      ensures trace == old(trace) + StartEvents(delivers, a, old(repository.groups))
      ensures repository.users == old(repository.users) && repository.groups == old(repository.groups)
      ensures repository.userParticipations == old(repository.userParticipations)
      ensures repository.nextUserId == old(repository.nextUserId)
    {
      if a.checked != 0 {
        return;
      }
      repository.SetActivityStatus(a.id, ACTIVE);
      trace := trace + [StatusWritten(a.id, ACTIVE)];
      SendActivityNotification(StartNotice, a);
      repository.UpdateActivityChecked(a.id, 1);
      trace := trace + [CheckedWritten(a.id, 1)];
    }

    /** _handle_activity_end: draw, then status 4, then notices. */
    method HandleEnd(a: Activity) returns (ghost drawn: seq<seq<ActivityUser>>, ghost raised: bool)
      requires repository.Valid()
      modifies this, repository
      ensures repository.Valid()
      ensures a.checked == 0 ==> repository.users == old(repository.users)
      ensures a.checked != 0 ==> ChoseWinners(oracles, botFor(a.sysUserId), old(repository.activities),
                                              old(repository.users), repository.users, a, drawn, raised)
      ensures repository.activities == EndWrites(old(repository.activities), a)
      ensures trace == old(trace) + EndEvents(delivers, a, old(repository.groups))
      ensures repository.groups == old(repository.groups)
      ensures repository.userParticipations == old(repository.userParticipations)
      ensures repository.nextUserId == old(repository.nextUserId)
    {
      drawn, raised := [], false;
      if a.checked == 0 {
        return;
      }
      drawn, raised := ValidateAndChooseWinners(a);
      repository.SetActivityStatus(a.id, ENDED);
      trace := trace + [StatusWritten(a.id, ENDED)];
      SendActivityNotification(EndNotice, a);
    }

    /** _handle_activity_check: validation only, with no checked guard. */
    method HandleCheck(a: Activity)
      requires repository.Valid()
      modifies repository
      ensures repository.Valid()
      ensures repository.users == (if botFor(a.sysUserId)
                                   then ValidatedUsers(oracles, old(repository.activities), old(repository.users), a, a.activityUsers)
                                   else old(repository.users))
      ensures repository.activities == old(repository.activities) && repository.groups == old(repository.groups)
      ensures repository.userParticipations == old(repository.userParticipations)
      ensures repository.nextUserId == old(repository.nextUserId)
    {
      if botFor(a.sysUserId) {
        ValidateUsersConditions(a);
      }
    }

    /** _process_activity: at most one handler, chosen by Dispatch. */
    method ProcessActivity(a: Activity, now: int) returns (ghost drawn: seq<seq<ActivityUser>>, ghost raised: bool)
      requires repository.Valid()
      modifies this, repository
      ensures repository.Valid()
      ensures repository.activities == ActivityEffect(old(repository.activities), a, now)
      ensures trace == old(trace) + HandlerEvents(delivers, a, now, old(repository.groups))
      ensures match Dispatch(a, now)
        case StartHandler => repository.users == old(repository.users)
        case EndHandler =>
          if a.checked == 0 then repository.users == old(repository.users)
          else ChoseWinners(oracles, botFor(a.sysUserId), old(repository.activities), old(repository.users),
                            repository.users, a, drawn, raised)
        case CheckHandler =>
          repository.users == (if botFor(a.sysUserId)
                               then ValidatedUsers(oracles, old(repository.activities), old(repository.users), a, a.activityUsers)
                               else old(repository.users))
        case NoHandler => repository.users == old(repository.users)
      ensures repository.groups == old(repository.groups)
      ensures repository.userParticipations == old(repository.userParticipations)
      ensures repository.nextUserId == old(repository.nextUserId)
    {
      drawn, raised := [], false;
      match Dispatch(a, now)
      case StartHandler => HandleStart(a);
      case EndHandler => drawn, raised := HandleEnd(a);
      case CheckHandler => HandleCheck(a);
      case NoHandler =>
    }

    /** _scheduler_loop: lists the open activities once and processes each in turn. */
    method SchedulerLoop(now: int)
      requires repository.Valid()
      modifies this, repository
      ensures repository.Valid()
      ensures repository.activities
              == TickEffect(old(repository.activities), Listing(old(repository.activities), old(repository.users), 0), now)
      ensures old(trace) <= trace
      ensures SameParticipants(old(repository.users), repository.users)
      ensures repository.groups == old(repository.groups)
      ensures repository.userParticipations == old(repository.userParticipations)
    {
      var listed := repository.GetAllActivities(0);
      var i := 0;
      while i < |listed|
        invariant 0 <= i <= |listed|
        invariant repository.Valid()
        invariant repository.activities == TickEffect(old(repository.activities), listed[..i], now)
        invariant old(trace) <= trace
        invariant SameParticipants(old(repository.users), repository.users)
        invariant repository.groups == old(repository.groups)
        invariant repository.userParticipations == old(repository.userParticipations)
      {
        assert listed[..i + 1][..i] == listed[..i];
        ghost var drawn, raised := ProcessActivity(listed[i], now);
        i := i + 1;
      }
      assert listed[..i] == listed;
    }
  }
}
