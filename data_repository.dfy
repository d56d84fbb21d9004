/**
 * The store behind the scheduler: the activity_list, activity_user and
 * tg_group_configurations tables, and the in-memory participation map, held as an
 * in-memory table class whose methods have the row effects of the SQL statements.
 */
module DataRepository {
  import opened Wrappers
  import opened Text
  import opened DataClass

  /** One row of activity_list (prizes and conditions already decoded). */
  datatype ActivityRow = ActivityRow(
    id: int,
    name: string,
    startTime: int,
    endTime: int,
    activityStatus: int,
    sysUserId: int,
    prices: seq<Price>,
    conditions: seq<Condition>,
    scope: string,
    checked: int,
    deleted: bool)

  /** One row of tg_group_configurations. */
  datatype GroupRow = GroupRow(
    groupId: string,
    groupTag: seq<string>,
    createdBy: int,
    deleted: bool,
    groupStatus: int)

  /** The `from` object of an incoming Telegram update; absent keys are None. */
  datatype Sender = Sender(id: int, username: Option<string>, firstName: Option<string>, lastName: Option<string>)

  /** An activity id as callers pass it: an int from the store, or text from a callback. */
  datatype IdArg = IntId(n: int) | StrId(s: string)

  /** The contents of one participation record (a JSON-like dictionary). */
  type Participation = map<string, string>

  /** `int(activity_id)`: None when the text is not an integer literal. */
  function IntOf(arg: IdArg): Option<int>
  {
    match arg
    case IntId(n) => Some(n)
    case StrId(s) => ParseInt(s)
  }

  /** How Python renders an optional value inside an f-string: None becomes 'None'. */
  function PyText(v: Option<string>): string
  {
    match v
    case None => "None"
    case Some(s) => s
  }

  // ---------------------------------------------------------------------------
  // SELECT: activities

  /** The filter of get_all_activities without an id: not ended, not killed, not deleted. */
  predicate Listed(r: ActivityRow)
  {
    r.activityStatus != ENDED && r.activityStatus != KILLED && !r.deleted
  }

  /** The WHERE clause of get_all_activities: a falsy id lists, any other id selects that row. */
  predicate Selected(r: ActivityRow, activityId: int)
  {
    if activityId == 0 then Listed(r) else r.id == activityId
  }

  /** The participants of one activity, in table order. */
  function UsersOf(users: seq<ActivityUser>, activityId: int): seq<ActivityUser>
  {
    if users == [] then []
    else
      var last := users[|users| - 1];
      UsersOf(users[..|users| - 1], activityId) + (if last.activityId == activityId then [last] else [])
  }

  /** The participants of an activity are exactly the rows carrying its id. */
  lemma {:induction false} UsersOfMembership(users: seq<ActivityUser>, activityId: int)
    ensures forall u :: u in UsersOf(users, activityId) <==> u in users && u.activityId == activityId
  {
    if users != [] {
      var init := users[..|users| - 1];
      UsersOfMembership(init, activityId);
      assert users == init + [users[|users| - 1]];
    }
  }

  /** Selecting the participants of one activity keeps row ids distinct. */
  lemma {:induction false} UsersOfUnique(users: seq<ActivityUser>, activityId: int)
    requires UniqueUserIds(users)
    ensures UniqueUserIds(UsersOf(users, activityId))
  {
    if users != [] {
      var init := users[..|users| - 1];
      var last := users[|users| - 1];
      UsersOfUnique(init, activityId);
      UsersOfMembership(init, activityId);
      var before := UsersOf(init, activityId);
      forall i | 0 <= i < |before| ensures before[i].id != last.id {
        assert before[i] in init;
      }
    }
  }

  /** An activity row joined with its participants. */
  function Load(r: ActivityRow, users: seq<ActivityUser>): Activity
  {
    Activity(r.id, r.name, r.startTime, r.endTime, r.prices, r.sysUserId, r.scope, r.checked,
             UsersOf(users, r.id), r.conditions, r.activityStatus)
  }

  /** What get_all_activities(activity_id) returns, in table order. */
  function Listing(rows: seq<ActivityRow>, users: seq<ActivityUser>, activityId: int): seq<Activity>
  {
    if rows == [] then []
    else
      var last := rows[|rows| - 1];
      Listing(rows[..|rows| - 1], users, activityId)
        + (if Selected(last, activityId) then [Load(last, users)] else [])
  }

  /** Every listed activity comes from a selected row. */
  lemma {:induction false} ListingSound(rows: seq<ActivityRow>, users: seq<ActivityUser>, activityId: int, a: Activity)
    requires a in Listing(rows, users, activityId)
    ensures exists r :: r in rows && Selected(r, activityId) && a == Load(r, users)
  {
    var last := rows[|rows| - 1];
    if a in Listing(rows[..|rows| - 1], users, activityId) {
      ListingSound(rows[..|rows| - 1], users, activityId, a);
      var r :| r in rows[..|rows| - 1] && Selected(r, activityId) && a == Load(r, users);
      assert r in rows;
    } else {
      assert Selected(last, activityId) && a == Load(last, users);
    }
  }

  /** Every selected row is listed. */
  lemma {:induction false} ListingComplete(rows: seq<ActivityRow>, users: seq<ActivityUser>, activityId: int, r: ActivityRow)
    requires r in rows && Selected(r, activityId)
    ensures Load(r, users) in Listing(rows, users, activityId)
  {
    var init := rows[..|rows| - 1];
    assert rows == init + [rows[|rows| - 1]];
    if r != rows[|rows| - 1] {
      ListingComplete(init, users, activityId, r);
    }
  }

  /** Without an id, an ended or killed activity is never listed; with an id, only that id is. */
  lemma ListingFilter(rows: seq<ActivityRow>, users: seq<ActivityUser>, activityId: int, a: Activity)
    requires a in Listing(rows, users, activityId)
    ensures activityId == 0 ==> a.activityStatus != ENDED && a.activityStatus != KILLED
    ensures activityId != 0 ==> a.id == activityId
  {
    ListingSound(rows, users, activityId, a);
  }

  /** get_activity_by_id over the listed activities: the first whose id equals int(arg).
      The conversion happens inside the loop, so an empty listing never parses the id. */
  function FindActivity(listed: seq<Activity>, arg: IdArg): Result<Option<Activity>>
  {
    if listed == [] then Success(None)
    else
      match IntOf(arg)
      case None => Failure(BadIntLiteral(arg.s))
      case Some(v) => if listed[0].id == v then Success(Some(listed[0])) else FindActivity(listed[1..], arg)
  }

  /** What FindActivity returns, case by case. */
  lemma {:induction false} FindActivityCases(listed: seq<Activity>, arg: IdArg)
    ensures FindActivity(listed, arg).Failure? <==> listed != [] && IntOf(arg).None?
    ensures FindActivity(listed, arg) == Success(None) <==>
              listed == [] || (IntOf(arg).Some? && forall a :: a in listed ==> a.id != IntOf(arg).value)
    ensures FindActivity(listed, arg).Success? && FindActivity(listed, arg).value.Some? ==>
              var a := FindActivity(listed, arg).value.value;
              IntOf(arg) == Some(a.id)
              && exists i :: 0 <= i < |listed| && listed[i] == a && forall j :: 0 <= j < i ==> listed[j].id != a.id
  {
    if listed != [] && IntOf(arg).Some? && listed[0].id != IntOf(arg).value {
      FindActivityCases(listed[1..], arg);
      var r := FindActivity(listed, arg);
      assert r == FindActivity(listed[1..], arg);
      if r.Success? && r.value.Some? {
        var a := r.value.value;
        var i :| 0 <= i < |listed[1..]| && listed[1..][i] == a && forall j :: 0 <= j < i ==> listed[1..][j].id != a.id;
        assert listed[i + 1] == a;
        forall j | 0 <= j < i + 1 ensures listed[j].id != a.id {
          if j > 0 { assert listed[j] == listed[1..][j - 1]; }
        }
      }
      if r == Success(None) {
        forall a | a in listed ensures a.id != IntOf(arg).value {
          if a != listed[0] { assert a in listed[1..]; }
        }
      } else {
        assert exists a :: a in listed[1..] && a.id == IntOf(arg).value;
      }
    } else if listed != [] && IntOf(arg).Some? {
      assert FindActivity(listed, arg) == Success(Some(listed[0]));
      assert listed[0] in listed;
    }
  }

  /** An ended or killed activity is never found by id. */
  lemma TerminalNeverFound(rows: seq<ActivityRow>, users: seq<ActivityUser>, arg: IdArg)
    requires FindActivity(Listing(rows, users, 0), arg).Success?
    requires FindActivity(Listing(rows, users, 0), arg).value.Some?
    ensures var a := FindActivity(Listing(rows, users, 0), arg).value.value;
            a.activityStatus != ENDED && a.activityStatus != KILLED
  {
    var listed := Listing(rows, users, 0);
    FindActivityCases(listed, arg);
    var a := FindActivity(listed, arg).value.value;
    var i :| 0 <= i < |listed| && listed[i] == a;
    ListingFilter(rows, users, 0, a);
  }

  // ---------------------------------------------------------------------------
  // SELECT: groups and winners

  /** The WHERE clause of get_groups_by_tag. */
  predicate Tagged(g: GroupRow, tag: string, sysUserId: int)
  {
    tag in g.groupTag && g.createdBy == sysUserId && !g.deleted && g.groupStatus == 1
  }

  function TaggedGroups(groups: seq<GroupRow>, tag: string, sysUserId: int): seq<GroupRow>
  {
    if groups == [] then []
    else
      var last := groups[|groups| - 1];
      TaggedGroups(groups[..|groups| - 1], tag, sysUserId) + (if Tagged(last, tag, sysUserId) then [last] else [])
  }

  /** get_groups_by_tag returns exactly the matching rows, and [] when none matches. */
  lemma {:induction false} TaggedGroupsMembership(groups: seq<GroupRow>, tag: string, sysUserId: int)
    ensures forall g :: g in TaggedGroups(groups, tag, sysUserId) <==> g in groups && Tagged(g, tag, sysUserId)
    ensures (forall g :: g in groups ==> !Tagged(g, tag, sysUserId)) ==> TaggedGroups(groups, tag, sysUserId) == []
  {
    if groups != [] {
      var init := groups[..|groups| - 1];
      TaggedGroupsMembership(init, tag, sysUserId);
      assert groups == init + [groups[|groups| - 1]];
    }
  }

  /** The WHERE clause of get_winning_user. */
  predicate Won(u: ActivityUser, activityId: int)
  {
    u.activityId == activityId && u.winningStatus == 1
  }

  function WonRows(users: seq<ActivityUser>, activityId: int): seq<ActivityUser>
  {
    if users == [] then []
    else
      var last := users[|users| - 1];
      WonRows(users[..|users| - 1], activityId) + (if Won(last, activityId) then [last] else [])
  }

  predicate SortedByLevel(s: seq<ActivityUser>)
  {
    forall i, j :: 0 <= i < j < |s| ==> s[i].prizeLevel <= s[j].prizeLevel
  }

  /** Places `u` after every entry whose level is not above its own. */
  function InsertByLevel(sorted: seq<ActivityUser>, u: ActivityUser): seq<ActivityUser>
  {
    if sorted == [] then [u]
    else if u.prizeLevel < sorted[0].prizeLevel then [u] + sorted
    else [sorted[0]] + InsertByLevel(sorted[1..], u)
  }

  /** The rows get_winning_user returns: ORDER BY prize_level, ties in table order. */
  function WinningUsers(users: seq<ActivityUser>, activityId: int): seq<ActivityUser>
  {
    if users == [] then []
    else
      var last := users[|users| - 1];
      var w := WinningUsers(users[..|users| - 1], activityId);
      if Won(last, activityId) then InsertByLevel(w, last) else w
  }

  lemma {:induction false} InsertByLevelElements(sorted: seq<ActivityUser>, u: ActivityUser)
    ensures multiset(InsertByLevel(sorted, u)) == multiset(sorted) + multiset{u}
    decreases |sorted|
  {
    if sorted != [] && u.prizeLevel >= sorted[0].prizeLevel {
      InsertByLevelElements(sorted[1..], u);
      assert sorted == [sorted[0]] + sorted[1..];
    }
  }

  lemma {:induction false} InsertByLevelSorted(sorted: seq<ActivityUser>, u: ActivityUser)
    requires SortedByLevel(sorted)
    ensures SortedByLevel(InsertByLevel(sorted, u))
    decreases |sorted|
  {
    if sorted == [] {
    } else if u.prizeLevel < sorted[0].prizeLevel {
      var r := [u] + sorted;
      forall i, j | 0 <= i < j < |r| ensures r[i].prizeLevel <= r[j].prizeLevel {
        if i > 0 {
          assert r[i] == sorted[i - 1] && r[j] == sorted[j - 1];
        } else {
          assert r[j] == sorted[j - 1];
        }
      }
    } else {
      var rest := InsertByLevel(sorted[1..], u);
      InsertByLevelSorted(sorted[1..], u);
      InsertByLevelElements(sorted[1..], u);
      forall k | 0 <= k < |rest| ensures sorted[0].prizeLevel <= rest[k].prizeLevel {
        assert rest[k] in multiset(rest);
        if rest[k] != u {
          assert rest[k] in multiset(sorted[1..]);
          var m :| 0 <= m < |sorted[1..]| && sorted[1..][m] == rest[k];
          assert sorted[m + 1] == rest[k];
        }
      }
      var r := [sorted[0]] + rest;
      forall i, j | 0 <= i < j < |r| ensures r[i].prizeLevel <= r[j].prizeLevel {
        assert r[j] == rest[j - 1];
        if i > 0 {
          assert r[i] == rest[i - 1];
        }
      }
    }
  }

  lemma {:induction false} WonRowsMembership(users: seq<ActivityUser>, activityId: int)
    ensures forall u :: u in WonRows(users, activityId) <==> u in users && Won(u, activityId)
  {
    if users != [] {
      var init := users[..|users| - 1];
      WonRowsMembership(init, activityId);
      assert users == init + [users[|users| - 1]];
    }
  }

  /** get_winning_user: exactly the activity's winning rows, ordered by prize level. */
  lemma {:induction false} WinningUsersOrdered(users: seq<ActivityUser>, activityId: int)
    ensures SortedByLevel(WinningUsers(users, activityId))
    ensures multiset(WinningUsers(users, activityId)) == multiset(WonRows(users, activityId))
    ensures forall u :: u in WinningUsers(users, activityId) <==> u in users && Won(u, activityId)
  {
    if users != [] {
      var init := users[..|users| - 1];
      WinningUsersOrdered(init, activityId);
      if Won(users[|users| - 1], activityId) {
        InsertByLevelSorted(WinningUsers(init, activityId), users[|users| - 1]);
        InsertByLevelElements(WinningUsers(init, activityId), users[|users| - 1]);
      }
    }
    WonRowsMembership(users, activityId);
    forall u ensures u in WinningUsers(users, activityId) <==> u in WonRows(users, activityId) {
      assert u in WinningUsers(users, activityId) <==> u in multiset(WinningUsers(users, activityId));
      assert u in WonRows(users, activityId) <==> u in multiset(WonRows(users, activityId));
    }
  }

  // ---------------------------------------------------------------------------
  // UPDATE: row effects

  /** UPDATE activity_list SET activity_status = s WHERE id = activityId. */
  function WithStatus(rows: seq<ActivityRow>, activityId: int, s: int): seq<ActivityRow>
  {
    seq(|rows|, i requires 0 <= i < |rows| =>
      if rows[i].id == activityId then rows[i].(activityStatus := s) else rows[i])
  }

  /** UPDATE activity_list SET checked = c WHERE id = activityId. */
  function WithChecked(rows: seq<ActivityRow>, activityId: int, c: int): seq<ActivityRow>
  {
    seq(|rows|, i requires 0 <= i < |rows| =>
      if rows[i].id == activityId then rows[i].(checked := c) else rows[i])
  }

  /** UPDATE activity_user SET condition_status = c WHERE activity_id = a AND user_id = u. */
  function WithConditionStatus(rows: seq<ActivityUser>, activityId: int, userId: int, c: int): seq<ActivityUser>
  {
    seq(|rows|, i requires 0 <= i < |rows| =>
      if rows[i].activityId == activityId && rows[i].userId == userId then rows[i].(conditionStatus := c) else rows[i])
  }

  /** UPDATE activity_user SET winning_status = 1, winning_content = t, prize_level = l WHERE id = rowId. */
  function WithPrize(rows: seq<ActivityUser>, rowId: int, content: string, level: int): seq<ActivityUser>
  {
    seq(|rows|, i requires 0 <= i < |rows| =>
      if rows[i].id == rowId then rows[i].(winningStatus := 1, winningContent := content, prizeLevel := level) else rows[i])
  }

  predicate UniqueActivityIds(rows: seq<ActivityRow>)
  {
    forall i, j :: 0 <= i < j < |rows| ==> rows[i].id != rows[j].id
  }

  predicate UniqueUserIds(rows: seq<ActivityUser>)
  {
    forall i, j :: 0 <= i < j < |rows| ==> rows[i].id != rows[j].id
  }

  /** A status write changes that one column of at most one row (ids are a primary key). */
  lemma StatusWriteIsOneCell(rows: seq<ActivityRow>, activityId: int, s: int)
    requires UniqueActivityIds(rows)
    ensures var r := WithStatus(rows, activityId, s);
      && |r| == |rows|
      && (forall i :: 0 <= i < |r| ==> r[i].(activityStatus := rows[i].activityStatus) == rows[i])
      && (forall i, j :: 0 <= i < j < |r| && r[i] != rows[i] ==> r[j] == rows[j])
  {
  }

  /** A prize write marks the one row with that id as a winner and touches nothing else:
      ids are a primary key, so at most one row changes. */
  lemma PrizeWriteIsOneRow(rows: seq<ActivityUser>, rowId: int, content: string, level: int)
    requires UniqueUserIds(rows)
    ensures var r := WithPrize(rows, rowId, content, level);
      && |r| == |rows|
      && (forall i :: 0 <= i < |r| && rows[i].id == rowId ==>
            r[i].winningStatus == 1 && r[i].winningContent == content && r[i].prizeLevel == level
            && r[i].(winningStatus := rows[i].winningStatus, winningContent := rows[i].winningContent,
                     prizeLevel := rows[i].prizeLevel) == rows[i])
      && (forall i :: 0 <= i < |r| && rows[i].id != rowId ==> r[i] == rows[i])
      && (forall i, j :: 0 <= i < j < |r| && r[i] != rows[i] ==> r[j] == rows[j])
  {
  }

  // ---------------------------------------------------------------------------
  // Participation map and new participants

  /** The key of user_participations: f"{user_id}_{activity_id}". */
  function ParticipationKey(userId: string, activityId: string): string
  {
    userId + "_" + activityId
  }

  /** get_user_participation on a map: the stored record, or {} for an unsaved key. */
  function ParticipationOf(m: map<string, Participation>, userId: string, activityId: string): Participation
  {
    var key := ParticipationKey(userId, activityId);
    if key in m then m[key] else map[]
  }

  /** Keys of user ids without '_' identify the pair. */
  lemma ParticipationKeyInjective(u1: string, a1: string, u2: string, a2: string)
    requires '_' !in u1 && '_' !in u2
    requires ParticipationKey(u1, a1) == ParticipationKey(u2, a2)
    ensures u1 == u2 && a1 == a2
  {
    SplitAround(u1, a1, '_');
    SplitAround(u2, a2, '_');
    SplitWithoutSeparator(u1, '_');
    SplitWithoutSeparator(u2, '_');
    assert u1 + "_" + a1 == u1 + ['_'] + a1;
    assert u2 + "_" + a2 == u2 + ['_'] + a2;
    assert Split(ParticipationKey(u1, a1), '_')[0] == u1;
    assert Split(ParticipationKey(u2, a2), '_')[0] == u2;
    assert a1 == ParticipationKey(u1, a1)[|u1| + 1..];
    assert a2 == ParticipationKey(u2, a2)[|u2| + 1..];
  }

  /** A saved record is returned for its own pair, and other pairs (ids without '_') keep theirs. */
  lemma SavedParticipationIsReturned(m: map<string, Participation>, userId: string, activityId: string,
                                     data: Participation, otherUser: string, otherActivity: string)
    requires '_' !in userId && '_' !in otherUser
    requires (userId, activityId) != (otherUser, otherActivity)
    ensures ParticipationOf(m[ParticipationKey(userId, activityId) := data], userId, activityId) == data
    ensures ParticipationOf(m[ParticipationKey(userId, activityId) := data], otherUser, otherActivity)
              == ParticipationOf(m, otherUser, otherActivity)
  {
    if ParticipationKey(userId, activityId) == ParticipationKey(otherUser, otherActivity) {
      ParticipationKeyInjective(userId, activityId, otherUser, otherActivity);
    }
  }

  /** Two different pairs can share a key when a user id contains '_'. */
  lemma ParticipationKeysCanCollide()
    ensures ParticipationKey("1_2", "3") == ParticipationKey("1", "2_3")
  {
  }

  /** The full_name save_activity_detail stores: first_name ++ last_name when last_name is
      truthy, else first_name as Python renders it; None when first_name is missing but
      last_name is present (a KeyError). */
  function FullName(s: Sender): Option<string>
  {
    if s.lastName.Some? && s.lastName.value != "" then
      if s.firstName.Some? then Some(s.firstName.value + s.lastName.value) else None
    else Some(PyText(s.firstName))
  }

  /** With a first name present, the stored full name is first ++ last or first alone. */
  lemma FullNameRule(s: Sender)
    requires s.firstName.Some?
    ensures FullName(s).Some?
    ensures s.lastName.Some? && s.lastName.value != "" ==> FullName(s).value == s.firstName.value + s.lastName.value
    ensures s.lastName.None? || s.lastName.value == "" ==> FullName(s).value == s.firstName.value
  {
  }

  // ---------------------------------------------------------------------------
  // The store

  class Repository {
    var activities: seq<ActivityRow>
    var users: seq<ActivityUser>
    var groups: seq<GroupRow>
    var userParticipations: map<string, Participation>
    /** The next AUTO_INCREMENT value of activity_user.id. */
    var nextUserId: int

    ghost predicate Valid()
      reads this
    {
      && UniqueActivityIds(activities)
      && (forall i :: 0 <= i < |activities| ==> activities[i].id > 0)
      && UniqueUserIds(users)
      && (forall i :: 0 <= i < |users| ==> users[i].id < nextUserId)
    }

    constructor ()
      ensures Valid()
      ensures activities == [] && users == [] && groups == [] && userParticipations == map[]
    {
      activities, users, groups := [], [], [];
      userParticipations := map[];
      nextUserId := 1;
    }

    method GetAllActivities(activityId: int) returns (r: seq<Activity>)
      ensures r == Listing(activities, users, activityId)
    {
      r := [];
      var i := 0;
      while i < |activities|
        invariant 0 <= i <= |activities|
        invariant r == Listing(activities[..i], users, activityId)
      {
        assert activities[..i + 1][..i] == activities[..i];
        if Selected(activities[i], activityId) {
          r := r + [Load(activities[i], users)];
        }
        i := i + 1;
      }
      assert activities[..i] == activities;
    }

    method GetActivityById(activityId: IdArg) returns (r: Result<Option<Activity>>)
      ensures r == FindActivity(Listing(activities, users, 0), activityId)
    {
      var listed := GetAllActivities(0);
      var i := 0;
      while i < |listed|
        invariant 0 <= i <= |listed|
        invariant FindActivity(listed, activityId) == FindActivity(listed[i..], activityId)
      {
        var wanted := IntOf(activityId);
        if wanted.None? {
          return Failure(BadIntLiteral(activityId.s));
        }
        if listed[i].id == wanted.value {
          return Success(Some(listed[i]));
        }
        assert listed[i..][1..] == listed[i + 1..];
        i := i + 1;
      }
      return Success(None);
    }

    method SetActivityStatus(activityId: int, activityStatus: int)
      requires Valid()
      modifies this
      ensures Valid()
      ensures activities == WithStatus(old(activities), activityId, activityStatus)
      ensures users == old(users) && groups == old(groups)
      ensures userParticipations == old(userParticipations) && nextUserId == old(nextUserId)
    {
      activities := WithStatus(activities, activityId, activityStatus);
    }

    method UpdateActivityChecked(activityId: int, checked: int)
      requires Valid()
      modifies this
      ensures Valid()
      ensures activities == WithChecked(old(activities), activityId, checked)
      ensures users == old(users) && groups == old(groups)
      ensures userParticipations == old(userParticipations) && nextUserId == old(nextUserId)
    {
      activities := WithChecked(activities, activityId, checked);
    }

    method UpdateActivityDetail(activityId: int, userId: int, conditionStatus: int)
      requires Valid()
      modifies this
      ensures Valid()
      ensures users == WithConditionStatus(old(users), activityId, userId, conditionStatus)
      ensures activities == old(activities) && groups == old(groups)
      ensures userParticipations == old(userParticipations) && nextUserId == old(nextUserId)
    {
      users := WithConditionStatus(users, activityId, userId, conditionStatus);
    }

    method UpdatePrizeUser(prizeContent: string, rowId: int, prizeLevel: int)
      requires Valid()
      modifies this
      ensures Valid()
      ensures users == WithPrize(old(users), rowId, prizeContent, prizeLevel)
      ensures activities == old(activities) && groups == old(groups)
      ensures userParticipations == old(userParticipations) && nextUserId == old(nextUserId)
    {
      users := WithPrize(users, rowId, prizeContent, prizeLevel);
    }

    /** Inserts a participant row from a Telegram sender; a KeyError on the name is
        swallowed and nothing is inserted. */
    method SaveActivityDetail(activityId: int, sender: Sender) returns (saved: bool)
      requires Valid()
      modifies this
      ensures Valid()
      ensures saved <==> FullName(sender).Some?
      ensures saved ==> users == old(users) + [ActivityUser(old(nextUserId), Some(PyText(sender.username)),
                                    sender.id, FullName(sender).value, 0, 0, "", activityId, 0)]
      ensures !saved ==> users == old(users)
      ensures activities == old(activities) && groups == old(groups)
      ensures userParticipations == old(userParticipations)
    {
      var fullName := FullName(sender);
      if fullName.None? {
        return false;
      }
      users := users + [ActivityUser(nextUserId, Some(PyText(sender.username)), sender.id, fullName.value,
                                     0, 0, "", activityId, 0)];
      nextUserId := nextUserId + 1;
      saved := true;
    }

    method GetGroupsByTag(tag: string, sysUserId: int) returns (r: seq<GroupRow>)
      ensures r == TaggedGroups(groups, tag, sysUserId)
    {
      r := [];
      var i := 0;
      while i < |groups|
        invariant 0 <= i <= |groups|
        invariant r == TaggedGroups(groups[..i], tag, sysUserId)
      {
        assert groups[..i + 1][..i] == groups[..i];
        if Tagged(groups[i], tag, sysUserId) {
          r := r + [groups[i]];
        }
        i := i + 1;
      }
      assert groups[..i] == groups;
    }

    method GetWinningUser(activityId: int) returns (r: seq<ActivityUser>)
      ensures r == WinningUsers(users, activityId)
    {
      r := [];
      var i := 0;
      while i < |users|
        invariant 0 <= i <= |users|
        invariant r == WinningUsers(users[..i], activityId)
      {
        assert users[..i + 1][..i] == users[..i];
        if Won(users[i], activityId) {
          r := InsertByLevel(r, users[i]);
        }
        i := i + 1;
      }
      assert users[..i] == users;
    }

    method GetUserParticipation(userId: string, activityId: string) returns (data: Participation)
      ensures data == ParticipationOf(userParticipations, userId, activityId)
    {
      var key := userId + "_" + activityId;
      data := if key in userParticipations then userParticipations[key] else map[];
    }

    method SaveUserParticipation(userId: string, activityId: string, data: Participation)
      requires Valid()
      modifies this
      ensures Valid()
      ensures userParticipations == old(userParticipations)[ParticipationKey(userId, activityId) := data]
      ensures activities == old(activities) && users == old(users) && groups == old(groups)
      ensures nextUserId == old(nextUserId)
    {
      var key := userId + "_" + activityId;
      userParticipations := userParticipations[key := data];
    }
  }
}
