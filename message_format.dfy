/**
 * InMessageFormat.reply_message_format: the prize list, the condition list and the winner
 * list of an activity as text. A failed group lookup and a winner whose content has fewer
 * than two space-separated tokens raise; the whole reply is then absent.
 */
module MessageFormat {
  import opened Wrappers
  import opened Text
  import opened DataClass
  import opened DataRepository
  import opened PrizeChoice

  /** The texts reply_message_format returns. */
  datatype Reply = Reply(prizeContent: string, conditionsContent: string, winningContent: string,
                         name: string, endTime: int)

  /** get_group(chat)["group_name"]: None when the lookup raises. */
  type GroupNames = string -> Option<string>

  // ---------------------------------------------------------------------------
  // Prizes

  function PrizeLine(p: Price): string
  {
    "🔹 " + p.prizeName + " " + p.prizeContent + " " + IntToString(p.prizeCount) + "人\n"
  }

  /** The prize lines, in order. */
  function PrizeContent(prices: seq<Price>): string
  {
    if prices == [] then "" else PrizeContent(prices[..|prices| - 1]) + PrizeLine(prices[|prices| - 1])
  }

  /** The prize text of a list of tiers is the prize text of its parts, one after the other. */
  lemma {:induction false} PrizeContentAppend(p1: seq<Price>, p2: seq<Price>)
    ensures PrizeContent(p1 + p2) == PrizeContent(p1) + PrizeContent(p2)
  {
    if p2 != [] {
      var init, last := p2[..|p2| - 1], p2[|p2| - 1];
      var all := p1 + p2;
      assert all[..|all| - 1] == p1 + init;
      assert all[|all| - 1] == last;
      PrizeContentAppend(p1, init);
      ConcatAssoc(PrizeContent(p1), PrizeContent(init), PrizeLine(last));
    } else {
      assert p1 + p2 == p1;
    }
  }

  /** Associativity of text concatenation, kept apart so that the step above stays small. */
  lemma ConcatAssoc(x: string, y: string, z: string)
    ensures (x + y) + z == x + (y + z)
  {
  }

  // ---------------------------------------------------------------------------
  // Conditions

  /** The loop state: the text so far and the group names collected so far. */
  datatype CondState = CondState(content: string, names: seq<string>)

  /** The names of the listed chats, in order; None when a lookup raises. */
  function LookupNames(groupName: GroupNames, chats: seq<string>): Option<seq<string>>
  {
    if chats == [] then Some([])
    else
      match LookupNames(groupName, chats[..|chats| - 1])
      case None => None
      case Some(ns) =>
        match groupName(chats[|chats| - 1])
        case None => None
        case Some(n) => Some(ns + [n])
  }

  function SpeechLine(c: Condition, names: seq<string>): string
  {
    c.buttonName + ": " + c.name + "\n" + "请在以下群组发言: " + Join(names, "|") + "\n"
  }

  /** One condition: a `button: link` line, or for speech_count the names of its chats are
      appended to the collected names and the line lists every name collected so far. */
  function ConditionStep(groupName: GroupNames, st: CondState, c: Condition): Option<CondState>
  {
    if c.kind != SpeechCount then
      Some(CondState(st.content + c.buttonName + ": " + c.targetIdLink + "\n", st.names))
    else
      match LookupNames(groupName, Split(c.targetId, ','))
      case None => None
      case Some(ns) => Some(CondState(st.content + SpeechLine(c, st.names + ns), st.names + ns))
  }

  function ConditionsFold(groupName: GroupNames, conds: seq<Condition>): Option<CondState>
  {
    if conds == [] then Some(CondState("", []))
    else
      match ConditionsFold(groupName, conds[..|conds| - 1])
      case None => None
      case Some(st) => ConditionStep(groupName, st, conds[|conds| - 1])
  }

  /** Without speech conditions the text is one `button: link` line per condition. */
  lemma {:induction false} PlainConditions(groupName: GroupNames, conds: seq<Condition>)
    requires forall i :: 0 <= i < |conds| ==> conds[i].kind != SpeechCount
    ensures ConditionsFold(groupName, conds).Some?
    ensures ConditionsFold(groupName, conds).value.names == []
    ensures |conds| > 0 ==>
      var last := conds[|conds| - 1];
      ConditionsFold(groupName, conds).value.content
        == ConditionsFold(groupName, conds[..|conds| - 1]).value.content + last.buttonName + ": " + last.targetIdLink + "\n"
  {
    if conds != [] {
      PlainConditions(groupName, conds[..|conds| - 1]);
    }
  }

  /** The collected names are those of every speech condition's chats, in order: a later
      speech condition's line also lists the chats of the earlier ones. */
  lemma TwoSpeechConditions(groupName: GroupNames, c1: Condition, c2: Condition, n1: seq<string>, n2: seq<string>)
    requires c1.kind == SpeechCount && c2.kind == SpeechCount
    requires LookupNames(groupName, Split(c1.targetId, ',')) == Some(n1)
    requires LookupNames(groupName, Split(c2.targetId, ',')) == Some(n2)
    ensures ConditionsFold(groupName, [c1, c2]) == Some(CondState(SpeechLine(c1, n1) + SpeechLine(c2, n1 + n2), n1 + n2))
  {
    assert [c1][..0] == [];
    assert ConditionsFold(groupName, []) == Some(CondState("", []));
    assert "" + SpeechLine(c1, [] + n1) == SpeechLine(c1, n1) by { assert [] + n1 == n1; }
    assert ConditionsFold(groupName, [c1]) == Some(CondState(SpeechLine(c1, n1), n1)) by { assert [] + n1 == n1; }
    assert [c1, c2][..1] == [c1];
  }

  // ---------------------------------------------------------------------------
  // Winners

  /** The name shown for a winner: the full name when the stored user name is NULL or the
      text 'None', otherwise "@" + user name. */
  function DisplayName(u: ActivityUser): string
  {
    if u.userName.None? || u.userName.value == "None" then u.fullName else "@" + u.userName.value
  }

  /** A participant saved without a Telegram user name is shown by full name. */
  lemma SavedWithoutUsernameShowsFullName(u: ActivityUser)
    requires u.userName == Some(PyText(None))
    ensures DisplayName(u) == u.fullName
  {
  }

  /** One winner line: tokens 0 and 1 of winning_content split on " "; None (IndexError)
      when there are fewer than two. */
  function WinnerLine(u: ActivityUser): Option<string>
  {
    var tokens := Split(u.winningContent, ' ');
    if |tokens| < 2 then None
    else Some("⭐️ " + DisplayName(u) + " " + tokens[0] + " " + tokens[1] + "\n")
  }

  /** "\n" followed by one line per winner, in order. */
  function WinningContent(winners: seq<ActivityUser>): Option<string>
  {
    if winners == [] then Some("\n")
    else
      match WinningContent(winners[..|winners| - 1])
      case None => None
      case Some(w) =>
        match WinnerLine(winners[|winners| - 1])
        case None => None
        case Some(line) => Some(w + line)
  }

  /** The winner list formats exactly when every winner's content has at least two tokens. */
  lemma {:induction false} WinningContentPresent(winners: seq<ActivityUser>)
    ensures WinningContent(winners).Some? <==>
      forall i :: 0 <= i < |winners| ==> |Split(winners[i].winningContent, ' ')| >= 2
  {
    if winners != [] {
      var init := winners[..|winners| - 1];
      WinningContentPresent(init);
      assert forall i :: 0 <= i < |init| ==> init[i] == winners[i];
    }
  }

  /** Content written by the allocator always splits into at least two tokens, and when
      neither the prize name nor the prize content has a space the two tokens are exactly
      the prize name and the prize content. */
  lemma {:induction false} PrizeTextRoundTrip(p: Price)
    ensures |Split(PrizeText(p), ' ')| >= 2
    ensures ' ' !in p.prizeName && ' ' !in p.prizeContent ==>
      Split(PrizeText(p), ' ') == [p.prizeName, p.prizeContent]
  {
    assert PrizeText(p) == p.prizeName + [' '] + p.prizeContent;
    SplitAround(p.prizeName, p.prizeContent, ' ');
    if ' ' !in p.prizeName && ' ' !in p.prizeContent {
      SplitWithoutSeparator(p.prizeName, ' ');
      SplitWithoutSeparator(p.prizeContent, ' ');
    }
  }

  /** A winner row written by the allocator always yields a line, and that line shows the
      prize name and content when they have no spaces. */
  lemma AwardedWinnerLine(u: ActivityUser, p: Price)
    requires u.winningContent == PrizeText(p)
    ensures WinnerLine(u).Some?
    ensures ' ' !in p.prizeName && ' ' !in p.prizeContent ==>
      WinnerLine(u) == Some("⭐️ " + DisplayName(u) + " " + p.prizeName + " " + p.prizeContent + "\n")
  {
    PrizeTextRoundTrip(p);
  }

  /** With a space inside the prize name, the line shows the name's first two words and
      drops the prize content. */
  lemma SpacedPrizeNameIsTruncated(u: ActivityUser)
    requires u.winningContent == PrizeText(Price("iPhone 15", "Pro", 1))
    ensures WinnerLine(u) == Some("⭐️ " + DisplayName(u) + " " + "iPhone" + " " + "15" + "\n")
  {
    assert PrizeText(Price("iPhone 15", "Pro", 1)) == "iPhone" + [' '] + ("15" + [' '] + "Pro");
    SplitAround("iPhone", "15" + [' '] + "Pro", ' ');
    SplitAround("15", "Pro", ' ');
    SplitWithoutSeparator("iPhone", ' ');
    SplitWithoutSeparator("15", ' ');
    SplitWithoutSeparator("Pro", ' ');
  }

  // ---------------------------------------------------------------------------
  // The reply

  /** reply_message_format over an activity, the winner rows get_winning_user returns and
      the group-name lookup. */
  function ReplyOf(a: Activity, winners: seq<ActivityUser>, groupName: GroupNames): Option<Reply>
  {
    match ConditionsFold(groupName, a.conditions)
    case None => None
    case Some(st) =>
      match WinningContent(winners)
      case None => None
      case Some(w) => Some(Reply(PrizeContent(a.prices), st.content, w, a.name, a.endTime))
  }

  /** Once a prefix of the conditions raises, so do all of them. */
  lemma {:induction false} ConditionsFailSticks(groupName: GroupNames, conds: seq<Condition>, i: nat)
    requires i <= |conds| && ConditionsFold(groupName, conds[..i]).None?
    ensures ConditionsFold(groupName, conds).None?
  {
    if i < |conds| {
      var init := conds[..|conds| - 1];
      assert init[..i] == conds[..i];
      ConditionsFailSticks(groupName, init, i);
    } else {
      assert conds[..i] == conds;
    }
  }

  lemma {:induction false} LookupFailSticks(groupName: GroupNames, chats: seq<string>, i: nat)
    requires i <= |chats| && LookupNames(groupName, chats[..i]).None?
    ensures LookupNames(groupName, chats).None?
  {
    if i < |chats| {
      var init := chats[..|chats| - 1];
      assert init[..i] == chats[..i];
      LookupFailSticks(groupName, init, i);
    } else {
      assert chats[..i] == chats;
    }
  }

  lemma {:induction false} WinnersFailSticks(winners: seq<ActivityUser>, i: nat)
    requires i <= |winners| && WinningContent(winners[..i]).None?
    ensures WinningContent(winners).None?
  {
    if i < |winners| {
      var init := winners[..|winners| - 1];
      assert init[..i] == winners[..i];
      WinnersFailSticks(init, i);
    } else {
      assert winners[..i] == winners;
    }
  }

  /** The group names of one speech condition, looked up in turn; None when one raises. */
  method CollectNames(groupName: GroupNames, chats: seq<string>) returns (r: Option<seq<string>>)
    ensures r == LookupNames(groupName, chats)
  {
    var names: seq<string> := [];
    for j := 0 to |chats|
      invariant LookupNames(groupName, chats[..j]) == Some(names)
    {
      assert chats[..j + 1][..j] == chats[..j];
      var n := groupName(chats[j]);
      if n.None? {
        LookupFailSticks(groupName, chats, j + 1);
        return None;
      }
      names := names + [n.value];
    }
    assert chats[..|chats|] == chats;
    return Some(names);
  }

  /** The prize loop of reply_message_format. */
  method FormatPrizes(prices: seq<Price>) returns (content: string)
    ensures content == PrizeContent(prices)
  {
    content := "";
    for i := 0 to |prices|
      invariant content == PrizeContent(prices[..i])
    {
      assert prices[..i + 1][..i] == prices[..i];
      content := content + PrizeLine(prices[i]);
    }
    assert prices[..|prices|] == prices;
  }

  /** The condition loop of reply_message_format; None when a group lookup raises. */
  method FormatConditions(groupName: GroupNames, conds: seq<Condition>) returns (r: Option<string>)
    ensures r.Some? <==> ConditionsFold(groupName, conds).Some?
    ensures r.Some? ==> r.value == ConditionsFold(groupName, conds).value.content
  {
    var content := "";
    var groupNames: seq<string> := [];
    for i := 0 to |conds|
      invariant ConditionsFold(groupName, conds[..i]) == Some(CondState(content, groupNames))
    {
      assert conds[..i + 1][..i] == conds[..i];
      var c := conds[i];
      if c.kind != SpeechCount {
        content := content + c.buttonName + ": " + c.targetIdLink + "\n";
      } else {
        var added := CollectNames(groupName, Split(c.targetId, ','));
        if added.None? {
          ConditionsFailSticks(groupName, conds, i + 1);
          return None;
        }
        groupNames := groupNames + added.value;
        var line := c.buttonName + ": " + c.name + "\n" + "请在以下群组发言: " + Join(groupNames, "|") + "\n";
        content := content + line;
      }
    }
    assert conds[..|conds|] == conds;
    return Some(content);
  }

  /** The winner loop of reply_message_format; None when a winner's content has fewer
      than two tokens. */
  method FormatWinners(winners: seq<ActivityUser>) returns (r: Option<string>)
    ensures r == WinningContent(winners)
  {
    var content := "\n";
    for i := 0 to |winners|
      invariant WinningContent(winners[..i]) == Some(content)
    {
      assert winners[..i + 1][..i] == winners[..i];
      var u := winners[i];
      var tokens := Split(u.winningContent, ' ');
      if |tokens| < 2 {
        WinnersFailSticks(winners, i + 1);
        return None;
      }
      var shown := if u.userName.None? || u.userName.value == "None" then u.fullName else "@" + u.userName.value;
      content := content + ("⭐️ " + shown + " " + tokens[0] + " " + tokens[1] + "\n");
    }
    assert winners[..|winners|] == winners;
    return Some(content);
  }

  /** reply_message_format: the three texts, or None when one of its loops raises. */
  method ReplyMessageFormat(a: Activity, repo: Repository, groupName: GroupNames) returns (r: Option<Reply>)
    ensures r == ReplyOf(a, WinningUsers(repo.users, a.id), groupName)
  {
    var prizeContent := FormatPrizes(a.prices);
    var conditionsContent := FormatConditions(groupName, a.conditions);
    if conditionsContent.None? {
      return None;
    }
    var winners := repo.GetWinningUser(a.id);
    var winningContent := FormatWinners(winners);
    if winningContent.None? {
      return None;
    }
    return Some(Reply(prizeContent, conditionsContent.value, winningContent.value, a.name, a.endTime));
  }
}
