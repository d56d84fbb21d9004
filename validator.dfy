/**
 * Per-condition validators and their aggregation for one participant of one activity.
 * Telegram and database lookups are oracles: a lookup either returns a value or raises.
 */
module Validator {
  import opened Wrappers
  import opened Text
  import opened DataClass
  import opened DataRepository

  /** The outcome of an external lookup that may raise. */
  datatype Lookup<T> = Raised | Returned(value: T)

  /** One row of chat_messages_logs; chat ids are numeric columns. */
  datatype ChatMessage = ChatMessage(userId: int, chatId: int, createdAt: int)

  /** The outside world the validators consult. */
  datatype Oracles = Oracles(
    /** get_first_bot(target, type, owner) then get_chat_member(target, user): the member status. */
    chatMember: (string, ConditionType, int, int) -> Lookup<string>,
    /** Truthiness of check_users_follow_bots(target, user, owner). */
    followsBots: (string, int, int) -> Lookup<bool>,
    /** The chat_messages_logs table. */
    messageLog: seq<ChatMessage>,
    /** The chat id the database reads from a group text pasted into `chat_id={group}`;
        None when that statement does not parse. */
    chatLiteral: string -> Option<int>,
    /** Whether the log query for (user, chat) answers with code 200. */
    logQueryOk: (int, string) -> bool)

  const MEMBER_STATUSES: set<string> := {"member", "administrator", "creator"}

  /** The error text for an activity that is not found. */
  const ACTIVITY_MISSING: string := "活动不存在"

  /** What validate returns in Python: True, False, or None (Some(true), Some(false), None). */
  type PyVerdict = Option<bool>

  predicate Truthy(v: PyVerdict)
  {
    v == Some(true)
  }

  /** JoinGroupValidator / JoinChannelValidator: a member status check; a raised lookup is False. */
  function JoinVerdict(o: Oracles, c: Condition, userId: int, sysUserId: int): bool
  {
    match o.chatMember(c.targetId, c.kind, sysUserId, userId)
    case Raised => false
    case Returned(status) => status in MEMBER_STATUSES
  }

  /** FollowBotValidator: True on a truthy lookup, None on a falsy one, False when it raises. */
  function FollowBotVerdict(o: Oracles, c: Condition, userId: int, sysUserId: int): PyVerdict
  {
    match o.followsBots(c.targetId, userId, sysUserId)
    case Raised => Some(false)
    case Returned(b) => if b then Some(true) else None
  }

  /** Messages of `userId` in `chat` strictly inside the window. */
  function MessagesIn(log: seq<ChatMessage>, userId: int, chat: int, start: int, end: int): nat
  {
    if log == [] then 0
    else
      var m := log[|log| - 1];
      MessagesIn(log[..|log| - 1], userId, chat, start, end)
        + (if m.userId == userId && m.chatId == chat && start < m.createdAt < end then 1 else 0)
  }

  /** The count the speech validator sees for one listed group text: the messages in the chat
      the database reads that text as, or 0 when the query fails. */
  function Times(o: Oracles, userId: int, group: string, start: int, end: int): nat
  {
    match o.chatLiteral(group)
    case None => 0
    case Some(chat) => if o.logQueryOk(userId, group) then MessagesIn(o.messageLog, userId, chat, start, end) else 0
  }

  /** Two group texts the database reads as the same chat (" -1002" and "-1002", say) get the
      same count when their queries succeed: groups are matched by chat id, not by text. */
  lemma SameChatSameCount(o: Oracles, userId: int, g1: string, g2: string, start: int, end: int)
    requires o.chatLiteral(g1).Some? && o.chatLiteral(g1) == o.chatLiteral(g2)
    requires o.logQueryOk(userId, g1) && o.logQueryOk(userId, g2)
    ensures Times(o, userId, g1, start, end) == Times(o, userId, g2, start, end)
    ensures Times(o, userId, g1, start, end) == MessagesIn(o.messageLog, userId, o.chatLiteral(g1).value, start, end)
  {
  }

  /** A message counts toward a group iff it is the user's, in that chat, strictly inside the window. */
  lemma {:induction false} MessagesInCounts(log: seq<ChatMessage>, userId: int, chat: int, start: int, end: int)
    ensures MessagesIn(log, userId, chat, start, end)
            == |set k | 0 <= k < |log| && log[k].userId == userId && log[k].chatId == chat && start < log[k].createdAt < end|
  {
    if log != [] {
      var n := |log| - 1;
      MessagesInCounts(log[..n], userId, chat, start, end);
      var before := set k | 0 <= k < n && log[..n][k].userId == userId && log[..n][k].chatId == chat
                            && start < log[..n][k].createdAt < end;
      var all := set k | 0 <= k < |log| && log[k].userId == userId && log[k].chatId == chat && start < log[k].createdAt < end;
      assert before == set k | k in all && k < n;
      if log[n].userId == userId && log[n].chatId == chat && start < log[n].createdAt < end {
        assert all == before + {n};
      } else {
        assert all == before;
      }
    }
  }

  /** One listed chat meets the speech target: the target parses and the count reaches it. */
  predicate GroupMet(o: Oracles, userId: int, a: Activity, c: Condition, group: string)
  {
    ParseInt(c.targetIdLink).Some? && Times(o, userId, group, a.startTime, a.endTime) >= ParseInt(c.targetIdLink).value
  }

  /** Every speech_count condition of the activity is met in every chat it lists. */
  predicate SpeechCountMet(o: Oracles, userId: int, a: Activity)
  {
    forall i, g ::
      (0 <= i < |a.conditions| && a.conditions[i].kind == SpeechCount && g in Split(a.conditions[i].targetId, ','))
      ==> GroupMet(o, userId, a, a.conditions[i], g)
  }

  /** The value the condition's validator returns. */
  function ConditionVerdict(o: Oracles, c: Condition, a: Activity, userId: int, sysUserId: int): PyVerdict
  {
    match c.kind
    case JoinGroup => Some(JoinVerdict(o, c, userId, sysUserId))
    case JoinChannel => Some(JoinVerdict(o, c, userId, sysUserId))
    case FollowBot => FollowBotVerdict(o, c, userId, sysUserId)
    case SpeechCount => Some(SpeechCountMet(o, userId, a))
  }

  /** The entry of the results dictionary for one condition. */
  datatype ConditionResult = ConditionResult(kind: ConditionType, buttonName: string, verified: PyVerdict)

  /** The results dictionary after the given conditions, keyed by condition type. */
  function ResultsOf(o: Oracles, conds: seq<Condition>, a: Activity, userId: int, sysUserId: int)
    : map<ConditionType, ConditionResult>
  {
    if conds == [] then map[]
    else
      var c := conds[|conds| - 1];
      ResultsOf(o, conds[..|conds| - 1], a, userId, sysUserId)[
        c.kind := ConditionResult(c.kind, c.buttonName, ConditionVerdict(o, c, a, userId, sysUserId))]
  }

  /** all_verified: every condition's validator returned a truthy value. */
  predicate AllVerified(o: Oracles, a: Activity, userId: int, sysUserId: int)
  {
    forall c :: c in a.conditions ==> Truthy(ConditionVerdict(o, c, a, userId, sysUserId))
  }

  /** The condition_status written for the participant. */
  function ConditionFlag(o: Oracles, a: Activity, userId: int, sysUserId: int): int
  {
    if AllVerified(o, a, userId, sysUserId) then 1 else 0
  }

  /** What validate_user_conditions returns. */
  datatype Report =
    | Checked(allVerified: bool, conditions: map<ConditionType, ConditionResult>)
    | Error(error: string)

  /** SpeechCountValidator.validate: nested loops over the speech conditions and their chats,
      returning False at the first shortfall or non-numeric target. */
  method SpeechCountValidate(o: Oracles, userId: int, a: Activity) returns (ok: bool)
    ensures ok == SpeechCountMet(o, userId, a)
  {
    var i := 0;
    while i < |a.conditions|
      invariant 0 <= i <= |a.conditions|
      invariant forall i', g ::
                  (0 <= i' < i && a.conditions[i'].kind == SpeechCount && g in Split(a.conditions[i'].targetId, ','))
                  ==> GroupMet(o, userId, a, a.conditions[i'], g)
    {
      var c := a.conditions[i];
      if c.kind == SpeechCount {
        var groups := Split(c.targetId, ',');
        var j := 0;
        while j < |groups|
          invariant 0 <= j <= |groups|
          invariant forall j' :: 0 <= j' < j ==> GroupMet(o, userId, a, c, groups[j'])
        {
          var times := Times(o, userId, groups[j], a.startTime, a.endTime);
          var target := ParseInt(c.targetIdLink);
          if target.None? || times < target.value {
            assert !GroupMet(o, userId, a, a.conditions[i], groups[j]);
            return false;
          }
          j := j + 1;
        }
        forall g | g in groups ensures GroupMet(o, userId, a, c, g) {
          var j' :| 0 <= j' < |groups| && groups[j'] == g;
        }
      }
      i := i + 1;
    }
    return true;
  }

  /** The loop of validate_user_conditions: runs every condition's validator in order,
      recording each verdict under its type and folding them into all_verified. */
  method RunValidators(o: Oracles, a: Activity, userId: int, sysUserId: int)
    returns (allVerified: bool, results: map<ConditionType, ConditionResult>)
    ensures allVerified == AllVerified(o, a, userId, sysUserId)
    ensures results == ResultsOf(o, a.conditions, a, userId, sysUserId)
  {
    results := map[];
    allVerified := true;
    var i := 0;
    while i < |a.conditions|
      invariant 0 <= i <= |a.conditions|
      invariant results == ResultsOf(o, a.conditions[..i], a, userId, sysUserId)
      invariant allVerified <==> forall c :: c in a.conditions[..i] ==> Truthy(ConditionVerdict(o, c, a, userId, sysUserId))
    {
      var c := a.conditions[i];
      assert a.conditions[..i + 1][..i] == a.conditions[..i];
      assert a.conditions[..i + 1] == a.conditions[..i] + [c];
      var verified: PyVerdict;
      if c.kind == SpeechCount {
        var ok := SpeechCountValidate(o, userId, a);
        verified := Some(ok);
      } else if c.kind == FollowBot {
        verified := FollowBotVerdict(o, c, userId, sysUserId);
      } else {
        verified := Some(JoinVerdict(o, c, userId, sysUserId));
      }
      results := results[c.kind := ConditionResult(c.kind, c.buttonName, verified)];
      if !Truthy(verified) {
        allVerified := false;
      }
      i := i + 1;
    }
    assert a.conditions[..i] == a.conditions;
  }

  /** ConditionValidatorFactory.validate_user_conditions: re-reads the activity, runs every
      condition's validator, and always writes condition_status 1 or 0 for the participant. */
  method ValidateUserConditions(repo: Repository, o: Oracles, userId: int, activityId: IdArg, sysUserId: int)
    returns (r: Report)
    requires repo.Valid()
    modifies repo
    ensures repo.Valid()
    ensures repo.activities == old(repo.activities) && repo.groups == old(repo.groups)
    ensures repo.userParticipations == old(repo.userParticipations) && repo.nextUserId == old(repo.nextUserId)
    ensures match FindActivity(old(Listing(repo.activities, repo.users, 0)), activityId)
      case Failure(e) => r == Error(e) && repo.users == old(repo.users)
      case Success(None) => r == Error(ACTIVITY_MISSING) && repo.users == old(repo.users)
      case Success(Some(a)) =>
        && r == Checked(AllVerified(o, a, userId, sysUserId), ResultsOf(o, a.conditions, a, userId, sysUserId))
        && repo.users == WithConditionStatus(old(repo.users), a.id, userId, ConditionFlag(o, a, userId, sysUserId))
  {
    var found := repo.GetActivityById(activityId);
    if found.Failure? {
      return Error(found.error);
    }
    if found.value.None? {
      return Error(ACTIVITY_MISSING);
    }
    var a := found.value.value;
    var allVerified, results := RunValidators(o, a, userId, sysUserId);
    repo.UpdateActivityDetail(a.id, userId, if allVerified then 1 else 0);
    return Checked(allVerified, results);
  }

  /** The results dictionary holds, for each type, the entry of the last condition of that type. */
  lemma {:induction false} ResultsKeepLastOfType(o: Oracles, conds: seq<Condition>, a: Activity, userId: int,
                                                 sysUserId: int, i: nat)
    requires i < |conds|
    requires forall j :: i < j < |conds| ==> conds[j].kind != conds[i].kind
    ensures var m := ResultsOf(o, conds, a, userId, sysUserId);
            conds[i].kind in m
            && m[conds[i].kind] == ConditionResult(conds[i].kind, conds[i].buttonName,
                                                   ConditionVerdict(o, conds[i], a, userId, sysUserId))
  {
    if i < |conds| - 1 {
      ResultsKeepLastOfType(o, conds[..|conds| - 1], a, userId, sysUserId, i);
      assert conds[|conds| - 1].kind != conds[i].kind;
    }
  }

  /** A type is a key of the results dictionary exactly when some condition has it. */
  lemma {:induction false} ResultsKeys(o: Oracles, conds: seq<Condition>, a: Activity, userId: int, sysUserId: int)
    ensures forall t :: t in ResultsOf(o, conds, a, userId, sysUserId) <==> exists c :: c in conds && c.kind == t
  {
    if conds != [] {
      var init := conds[..|conds| - 1];
      ResultsKeys(o, init, a, userId, sysUserId);
      assert conds == init + [conds[|conds| - 1]];
    }
  }

  /** Overwriting by type can hide a failure: with two join-group conditions where only the
      second passes, the dictionary reports the type as verified while all_verified is false. */
  lemma LaterConditionOverwritesResult(o: Oracles, a: Activity, userId: int, sysUserId: int)
    requires |a.conditions| == 2
    requires a.conditions[0].kind == JoinGroup && a.conditions[1].kind == JoinGroup
    requires !JoinVerdict(o, a.conditions[0], userId, sysUserId)
    requires JoinVerdict(o, a.conditions[1], userId, sysUserId)
    ensures ResultsOf(o, a.conditions, a, userId, sysUserId)[JoinGroup].verified == Some(true)
    ensures !AllVerified(o, a, userId, sysUserId)
  {
    ResultsKeepLastOfType(o, a.conditions, a, userId, sysUserId, 1);
    assert a.conditions[0] in a.conditions;
  }

  /** Fail-closed: a follow-bot lookup that is falsy (None) or raises fails the participant. */
  lemma FollowBotFailsClosed(o: Oracles, a: Activity, userId: int, sysUserId: int, c: Condition)
    requires c in a.conditions && c.kind == FollowBot
    requires o.followsBots(c.targetId, userId, sysUserId) != Returned(true)
    ensures ConditionFlag(o, a, userId, sysUserId) == 0
  {
  }

  /** Fail-closed: a non-numeric speech target fails the participant, whatever the counts. */
  lemma NonNumericSpeechTargetFails(o: Oracles, a: Activity, userId: int, sysUserId: int, i: nat)
    requires i < |a.conditions| && a.conditions[i].kind == SpeechCount
    requires ParseInt(a.conditions[i].targetIdLink).None?
    ensures !SpeechCountMet(o, userId, a)
    ensures ConditionFlag(o, a, userId, sysUserId) == 0
  {
    var g := Split(a.conditions[i].targetId, ',')[0];
    assert g in Split(a.conditions[i].targetId, ',');
    assert !GroupMet(o, userId, a, a.conditions[i], g);
    assert a.conditions[i] in a.conditions;
  }

  /** The join validators pass exactly for a returned member, administrator or creator status. */
  lemma JoinPassesOnlyForMembers(o: Oracles, c: Condition, userId: int, sysUserId: int)
    ensures JoinVerdict(o, c, userId, sysUserId) <==>
      (o.chatMember(c.targetId, c.kind, sysUserId, userId).Returned?
       && o.chatMember(c.targetId, c.kind, sysUserId, userId).value in {"member", "administrator", "creator"})
  {
  }

  /** The flag depends only on the activity's conditions and window, not on its participants
      or status, so re-reading the activity between participants yields the same flag. */
  lemma FlagIgnoresParticipants(o: Oracles, a: Activity, b: Activity, userId: int, sysUserId: int)
    requires a.conditions == b.conditions && a.startTime == b.startTime && a.endTime == b.endTime
    ensures ConditionFlag(o, a, userId, sysUserId) == ConditionFlag(o, b, userId, sysUserId)
  {
    assert SpeechCountMet(o, userId, a) == SpeechCountMet(o, userId, b);
    assert forall c :: ConditionVerdict(o, c, a, userId, sysUserId) == ConditionVerdict(o, c, b, userId, sysUserId);
  }
}
