# Lottery activity scheduler — a verified model

This project models the decision and bookkeeping layer of the lottery activity service, a
Telegram lottery bot back end. Each scheduler tick lists the activities that are neither
ended nor killed and picks at most one handler per activity, in the order start, end, check.
- The start handler writes ACTIVE, notifies the activity's groups, and marks the activity
  as checked.
- The end handler re-validates every participant's conditions, draws winners tier by tier
  without replacement, records each prize in the participant table, writes ENDED and
  notifies.
- The check handler re-validates the participants.

The message formatter reads the recorded prizes back to build the winner list.

Modules, one per source file, plus two helpers:
- `Wrappers` holds `Option` and `Result`. `Text` models the Python string helpers the code
  relies on: `str.split`, `'|'.join`, `int()` and the `repr` in its error text, `str(int)`
  and `startswith`.
- `DataClass` (data_class.py) has the status codes, the records, and the lifecycle
  predicates over integer-second timestamps. `timedelta.seconds` is modelled as the
  within-a-day remainder.
- `DataRepository` (data_repository.py) is the store as an in-memory table class. The
  activity, participant and group tables are `seq` fields. The participation dictionary is
  a `map` field. Each SQL statement becomes the row effect it has on those tables.
- `Validator` (validator.py) has the four condition validators and the per-user
  aggregation. Telegram, the bot-follow service, the success of the message-log query and
  the chat id the database reads from a group text are oracle parameters. The message log
  itself is a table whose rows are matched by user, chat id and time window.
- `PrizeChoice` is the prize allocator of activity_scheduler.py. `random.sample` is a
  nondeterministic choice of a sub-multiset of the requested size.
- `ActivityScheduler` (activity_scheduler.py) has the dispatcher, the handlers and the
  notification fan-out, as a `Scheduler` class over the store. Every notification call is
  appended to a trace. Whether it is delivered is an oracle.
- `MessageFormat` (message_format.py) builds the prize, condition and winner texts.

Python behaviour the model keeps on purpose:
- `get_activity_by_id` converts its argument with `int()` lazily, inside the loop. When no
  activity is listed, it answers `None` even for a non-numeric id. This covers an empty
  table and a table whose rows are all ended, killed or deleted. A non-empty listing
  raises.
- The error text of that `int()` is Python's: the prefix, then `repr` of the id cut to 200
  characters, with repr's choice of quotes and its escapes.
- A negative prize count makes `random.sample` raise. The draws already written stay.
- A participant saved without a user name is stored as the text `None`.
- `FollowBotValidator` may return `None`.
- Validation results are keyed by condition type, so a later condition of a type overwrites
  an earlier one.
- The check handler has no `checked` guard.
- The speech-count group names accumulate across conditions in the reply text.

## Model

| member | source | states |
|---|---|---|
| DataClass.IsActive | data_class.py:104-107 | is_active: start ≤ now ≤ end and status ACTIVE |
| DataClass.ShouldStart | data_class.py:109-111 | should_start: now ≥ start and status PENDING |
| DataClass.ShouldCheck | data_class.py:113-116 | should_check: the duration's `.seconds` ≥ 1800, the remaining time's `.seconds` ≤ 1800, and status ACTIVE |
| DataClass.ShouldEnd | data_class.py:118-120 | should_end: now ≥ end and status ACTIVE |
| DataClass.Seconds | data_class.py:116 | `timedelta.seconds` of a duration is its remainder within a day: in [0, 86400), and the duration differs from it by whole days |
| DataClass.TerminalIsInert | data_class.py:104-120 | for a KILLED or ENDED activity, is_active, should_start, should_check and should_end are all false at any time |
| DataClass.StartExcludesEnd | data_class.py:109-120 | should_start and should_end never hold together |
| DataClass.SecondsIgnoresDays | data_class.py:116 | adding whole days to a duration does not change its `.seconds` |
| DataClass.CheckInLastDay | data_class.py:113-116 | for an ACTIVE activity that lasts between 1800 s and a day, with less than a day left, should_check holds iff at most 1800 s remain |
| DataClass.CheckRecursDaily | data_class.py:113-116 | if should_check holds now, it also holds any whole number of days earlier |
| DataClass.DayAndALittleNeverChecked | data_class.py:113-116 | an activity lasting 86400+100 s never triggers the check |
| DataClass.ShortActivityNeverChecked | data_class.py:113-116 | an activity whose duration is between 0 and 1800 s never triggers the check |
| Text.Split | message_format.py:79 | `str.split` always yields at least one part |
| Text.SplitAround | message_format.py:88-89 | splitting `x + sep + y` gives the parts of x followed by the parts of y |
| Text.SplitWithoutSeparator | message_format.py:88-89 | a text without the separator splits into itself |
| Text.ParseInt | validator.py:80 | `int()` on ASCII text succeeds exactly on an optionally signed, non-empty run of decimal digits, and returns their base-10 value, negated after a minus sign |
| Text.BadIntLiteral | data_repository.py:79 | the ValueError text of `int(s)`: the fixed prefix followed by at most 200 characters, `%.200R` of s |
| Text.Repr | data_repository.py:79 | `repr(s)`: the same quote opens and closes, double quotes exactly when s holds a single quote and no double quote |
| Text.ReprRoundTrip | data_repository.py:79 | what repr writes between its quotes reads back as the original id: the escaping loses nothing |
| Text.UnescapeEscapeAll | data_repository.py:79 | backslash, the quote, `\n`, `\r`, `\t` and `\xNN` escapes are undone by reading them back, with either quote |
| Text.PlainIdMessage | data_repository.py:79 | an id of at most 198 characters with no quote, backslash or control character appears whole in single quotes |
| Text.LongIdIsCut | data_repository.py:79 | an id of 199 characters or more shows only the first 200 characters of its repr |
| Text.SingleQuoteIdMessage | data_repository.py:79 | the id `a'b` is shown as `"a'b"` |
| Text.IntRoundTrip | validator.py:80 | `int(str(n)) == n` for every integer n |
| Text.DigitsRoundTrip | validator.py:80 | the digits `str` writes for a natural number are digits, and read back as that number |
| DataRepository.UsersOfMembership | data_repository.py:127-133 | an activity's participant list holds exactly the participant rows whose activity_id is the activity's id |
| DataRepository.UsersOfUnique | data_repository.py:127-133 | a participant list drawn from a table with distinct row ids has distinct row ids |
| DataRepository.Listing | data_repository.py:101-204 | the activities get_all_activities returns: the selected rows in table order, each with the participant rows of its id |
| DataRepository.FindActivity | data_repository.py:75-81 | get_activity_by_id's loop: the first listed activity whose id equals int(argument), converting the argument at the first comparison |
| DataRepository.ListingSound | data_repository.py:104-113 | every listed activity comes from a row the WHERE clause selects |
| DataRepository.ListingComplete | data_repository.py:104-113 | every selected row is listed |
| DataRepository.ListingFilter | data_repository.py:104-113 | with id 0, listed activities are neither ENDED nor KILLED; with an id, only that id is listed, whatever its status |
| DataRepository.FindActivityCases | data_repository.py:75-81 | get_activity_by_id raises iff the list is non-empty and the id is not an integer literal; it returns None iff the list is empty or no id matches; otherwise it returns the first activity with that id |
| DataRepository.TerminalNeverFound | data_repository.py:75-81 | an ENDED or KILLED activity is never found by id |
| DataRepository.TaggedGroupsMembership | data_repository.py:237-242 | the tag query returns exactly the active, undeleted groups of that owner carrying the tag, and [] when none matches |
| DataRepository.InsertByLevelElements | data_repository.py:256 | ordering by prize_level keeps the same rows |
| DataRepository.InsertByLevelSorted | data_repository.py:256 | ordering by prize_level yields rows sorted by level |
| DataRepository.WonRowsMembership | data_repository.py:256 | the winner filter keeps exactly that activity's rows with winning_status 1 |
| DataRepository.WinningUsersOrdered | data_repository.py:255-260 | get_winning_user returns exactly that activity's winners, as a permutation of them, sorted by prize_level |
| DataRepository.StatusWriteIsOneCell | data_repository.py:210-211 | with distinct ids, set_activity_status changes only the status column, and of one row at most |
| DataRepository.PrizeWriteIsOneRow | data_repository.py:218-219 | update_prize_user sets winning_status 1, the content and the level on the row with that id and changes nothing else; with distinct ids, at most one row changes |
| DataRepository.ParticipationKeyInjective | data_repository.py:244-250 | the `user_activity` key identifies the pair when the user id has no underscore |
| DataRepository.SavedParticipationIsReturned | data_repository.py:244-250 | after a save, a read of the same pair returns the saved data and other pairs read as before |
| DataRepository.ParticipationKeysCanCollide | data_repository.py:244-250 | two different pairs can share a key when a user id has an underscore |
| DataRepository.FullName | data_repository.py:227-228 | the full_name expression: first + last when last_name is truthy, else first_name rendered as text; a KeyError when last_name is present but first_name is missing |
| DataRepository.FullNameRule | data_repository.py:227-228 | full name is first_name + last_name when last_name is non-empty, else first_name |
| DataRepository.Repository.constructor | data_repository.py:71-73 | an empty store |
| DataRepository.Repository.GetAllActivities | data_repository.py:101-204 | returns the listing of the selected rows, each with its participants |
| DataRepository.Repository.GetActivityById | data_repository.py:75-81 | returns the first non-terminal activity whose id equals int(argument), None, or the conversion error |
| DataRepository.Repository.SetActivityStatus | data_repository.py:210-211 | writes the status of the rows with that id; nothing else changes |
| DataRepository.Repository.UpdateActivityChecked | data_repository.py:252-253 | writes checked on the rows with that id; nothing else changes |
| DataRepository.Repository.UpdateActivityDetail | data_repository.py:214-215 | writes condition_status on the rows matching activity and user; nothing else changes |
| DataRepository.Repository.UpdatePrizeUser | data_repository.py:218-219 | records the prize on the row with that id; nothing else changes |
| DataRepository.Repository.SaveActivityDetail | data_repository.py:222-235 | appends one participant row with the full-name rule and the user name as text; a sender with last_name but no first_name raises a KeyError, which is swallowed, and nothing is saved |
| DataRepository.Repository.GetGroupsByTag | data_repository.py:237-242 | returns the tagged groups of that owner |
| DataRepository.Repository.GetWinningUser | data_repository.py:255-260 | returns that activity's winners ordered by level |
| DataRepository.Repository.GetUserParticipation | data_repository.py:244-246 | returns the saved entry for the pair, or `{}` |
| DataRepository.Repository.SaveUserParticipation | data_repository.py:248-250 | stores the entry under the pair's key in place |
| Validator.JoinVerdict | validator.py:18-47 | join_group and join_channel: the member status is member, administrator or creator; a raised lookup is False |
| Validator.FollowBotVerdict | validator.py:50-62 | follow_bot: True on a truthy lookup, None when the lookup is falsy, False when it raises |
| Validator.ConditionVerdict | validator.py:115-127 | the validator chosen by condition type, and what it returns |
| Validator.MessagesInCounts | validator.py:74-76 | the log count for a group is the number of the user's messages in that chat strictly inside the activity window |
| Validator.SameChatSameCount | validator.py:74 | group texts the database reads as the same chat id get the same count: groups are matched by chat id, not by text |
| Validator.SpeechCountValidate | validator.py:67-86 | the nested loop returns true iff every group of every speech_count condition has at least int(target_id_link) messages strictly inside the activity window; a non-numeric target fails |
| Validator.RunValidators | validator.py:112-134 | all_verified is the AND of every condition's truthiness; results map each type to the result of its last condition |
| Validator.ValidateUserConditions | validator.py:103-147 | an id that does not convert returns the error and writes nothing; an unknown activity returns "活动不存在" and writes nothing; otherwise it returns the results and writes 1 or 0, overwriting the earlier value |
| Validator.ResultsKeepLastOfType | validator.py:119-132 | the result stored for a type is the one of the last condition of that type |
| Validator.ResultsKeys | validator.py:119-132 | results hold exactly the types that occur among the conditions |
| Validator.LaterConditionOverwritesResult | validator.py:119-134 | a failing then passing join_group shows as passed in results, yet all_verified is false |
| Validator.FollowBotFailsClosed | validator.py:57-62 | a follow-bot lookup that is not true (false, None or raised) makes the written flag 0 |
| Validator.NonNumericSpeechTargetFails | validator.py:80-86 | a non-numeric target count fails speech-count, and the flag is 0 |
| Validator.JoinPassesOnlyForMembers | validator.py:25-47 | join-group and join-channel pass iff the member lookup succeeds with member, administrator or creator |
| Validator.FlagIgnoresParticipants | validator.py:113-139 | the flag depends only on the conditions and the activity window, not on the participant list |
| PrizeChoice.Awards | activity_scheduler.py:40-41 | one store write per winner, in draw order |
| PrizeChoice.ApplyAwards | activity_scheduler.py:40-41 | prize writes keep every row, keep condition_status, and touch only the prize columns |
| PrizeChoice.RemoveFirst | activity_scheduler.py:37-38 | `list.remove` removes one occurrence |
| PrizeChoice.ApplyAwardsAppend | activity_scheduler.py:40-41 | writing two batches is writing their concatenation |
| PrizeChoice.UnawardedRowUnchanged | activity_scheduler.py:40-41 | a row no write names is unchanged |
| PrizeChoice.AwardedRowRecordsWrite | activity_scheduler.py:40-41 | a row named by exactly one write records that write |
| PrizeChoice.WinnersFromCandidates | activity_scheduler.py:27-38 | winners are a sub-multiset of the candidates; winners plus the remaining pool are the candidates |
| PrizeChoice.SumCountsStep | activity_scheduler.py:29-34 | the prize counts of one more tier add that tier's count |
| PrizeChoice.WinnersCountPrefix | activity_scheduler.py:29-34 | after n tiers, min(sum of their counts, pool size) users have won |
| PrizeChoice.TotalWinners | activity_scheduler.py:27-46 | when nothing raises, total winners = min(sum of prize counts, number of candidates) |
| PrizeChoice.SumCountsGrows | activity_scheduler.py:29 | with non-negative counts, a prefix's count is at most the total |
| PrizeChoice.UniqueIdsAreKeyed | activity_scheduler.py:37-38 | distinct row ids mean no participant occurs twice |
| PrizeChoice.TwoPositionsCountTwice | activity_scheduler.py:37-38 | a value at two positions occurs at least twice |
| PrizeChoice.KeyedAreUniqueIds | activity_scheduler.py:37-38 | participants that never repeat have distinct row ids |
| PrizeChoice.WinnerHasAward | activity_scheduler.py:40-41 | every winner of tier i gets a write with `prize_name + " " + prize_content` and level i+1 |
| PrizeChoice.WinnerRowRecordsTier | activity_scheduler.py:29-41 | a winner's row records its tier's text, level i+1 and winning_status 1 |
| PrizeChoice.WinnersUniqueIds | activity_scheduler.py:34-38 | no participant is recorded for two tiers |
| PrizeChoice.LoserRowUnchanged | activity_scheduler.py:40-41 | a participant who did not win keeps its row |
| PrizeChoice.Sample | activity_scheduler.py:34 | `random.sample` takes k users from the pool without replacement |
| PrizeChoice.PrefixIsSample | activity_scheduler.py:34 | a sample of every allowed size exists |
| PrizeChoice.RemoveEach | activity_scheduler.py:37-38 | removing the taken users leaves the pool minus them |
| PrizeChoice.AwardTier | activity_scheduler.py:40-41 | one prize write per taken user, in order |
| PrizeChoice.RandomChoicePrizer | activity_scheduler.py:26-46 | tier i takes min(count, remaining) users from the remaining pool until the pool is empty; a negative count raises; the store receives exactly the writes of the draws made |
| PrizeChoice.NextTier | activity_scheduler.py:29-41 | one loop round extends the allocation by one tier |
| ActivityScheduler.Dispatch | activity_scheduler.py:166-171 | the if-elif chain: start, else end, else check, else nothing |
| ActivityScheduler.DispatchPriority | activity_scheduler.py:162-173 | start runs iff should_start; end iff should_end; check iff should_check and not should_end; otherwise nothing |
| ActivityScheduler.TerminalGetsNoHandler | activity_scheduler.py:162-173 | an ENDED or KILLED activity gets no handler |
| ActivityScheduler.FanOut | activity_scheduler.py:224-254 | a `-100` scope gets exactly one call, aimed at the scope; otherwise every call goes to a tagged group and every tagged group gets a call; no tagged group means no call |
| ActivityScheduler.StartOrder | activity_scheduler.py:175-191 | an unchecked start writes ACTIVE first, then the start notices, then checked = 1 |
| ActivityScheduler.TickLeavesOthers | activity_scheduler.py:149-160 | a row not listed this tick is unchanged |
| ActivityScheduler.ActivityEffectFrame | activity_scheduler.py:162-214 | one activity's handler writes only its own row, and advances its status by at most one step |
| ActivityScheduler.TickAdvancesListed | activity_scheduler.py:149-173 | a tick over listed activities keeps every row id and moves each status forward at most one step |
| ActivityScheduler.ListingIsListedFrom | activity_scheduler.py:152 | each listed activity matches a store row with its id and status, and no id is listed twice |
| ActivityScheduler.TickAdvances | activity_scheduler.py:149-214 | a tick keeps every row id and never moves a status backwards |
| ActivityScheduler.ValidatedUsers | activity_scheduler.py:284-316 | validation keeps every participant row and changes only condition_status |
| ActivityScheduler.ListingShapeIgnoresUsers | data_repository.py:101-204 | the listing apart from participants does not depend on the participant table |
| ActivityScheduler.FindShapeIgnoresUsers | data_repository.py:75-81 | the lookup result apart from participants depends only on the listing apart from participants |
| ActivityScheduler.FindIgnoresUsers | data_repository.py:75-81 | condition-status writes do not change which activity a later lookup finds |
| ActivityScheduler.ParticipantsFlagged | activity_scheduler.py:284-316 | every participant row of a validated activity ends with the flag its conditions give, whatever it held before |
| ActivityScheduler.Eligible | activity_scheduler.py:267-270 | the eligible users are exactly the re-read users with truthy condition_status |
| ActivityScheduler.ChoseWinnersKeepsRows | activity_scheduler.py:256-282 | validation and allocation keep every participant row, changing only status and prize columns |
| ActivityScheduler.WinnersWereEligible | activity_scheduler.py:263-277 | every winner was a validated participant of the re-read activity with truthy condition_status, and won once |
| ActivityScheduler.EligibleUnique | activity_scheduler.py:267-270 | eligible users drawn from a table with distinct ids have distinct ids |
| ActivityScheduler.FilterKeepsUnique | activity_scheduler.py:267-270 | filtering keeps ids distinct |
| ActivityScheduler.EndWinnersRecorded | activity_scheduler.py:194-282 | after the end handler, each tier-i winner's row records the re-read activity's tier-i prize and level i+1 |
| ActivityScheduler.Scheduler.constructor | activity_scheduler.py:115-122 | a scheduler over the store with an empty trace |
| ActivityScheduler.Scheduler.SendSingleNotification | activity_scheduler.py:248-254 | one call to one group; a failure is recorded and swallowed |
| ActivityScheduler.Scheduler.SendActivityNotification | activity_scheduler.py:224-246 | the calls made are exactly the fan-out targets, in order |
| ActivityScheduler.Scheduler.ValidateUsersConditions | activity_scheduler.py:284-316 | the store afterwards holds the validated participant table; other tables are unchanged |
| ActivityScheduler.Scheduler.ValidateAndChooseWinners | activity_scheduler.py:256-282 | no bot: nothing happens; otherwise validate, re-read by id (an empty re-read raises and nothing is allocated), and allocate only when eligible users and prizes both exist |
| ActivityScheduler.Scheduler.HandleStart | activity_scheduler.py:175-191 | no-op when checked ≠ 0; otherwise ACTIVE, then the start notices, then checked = 1 |
| ActivityScheduler.Scheduler.HandleEnd | activity_scheduler.py:194-214 | no-op when checked = 0; otherwise validate and allocate, then write ENDED even if they raised, then the end notices |
| ActivityScheduler.Scheduler.HandleCheck | activity_scheduler.py:216-222 | re-validates the participants when a bot is found, with no checked guard |
| ActivityScheduler.Scheduler.ProcessActivity | activity_scheduler.py:162-173 | runs exactly the dispatched handler, and only its effects |
| ActivityScheduler.Scheduler.SchedulerLoop | activity_scheduler.py:149-160 | processes every listed activity in turn; the activity table ends as the tick's effect, the trace only grows, and every participant row is kept |
| MessageFormat.PrizeContentAppend | message_format.py:69-71 | the prize text is the in-order concatenation of one line per tier |
| MessageFormat.PlainConditions | message_format.py:75-77 | without speech conditions each condition adds `button: link` and no group name is collected |
| MessageFormat.TwoSpeechConditions | message_format.py:74-82 | the second speech condition's line lists the first one's groups too |
| MessageFormat.DisplayName | message_format.py:90-93 | full_name when user_name is NULL or the text 'None', else "@" + user_name |
| MessageFormat.WinnerLine | message_format.py:88-94 | tokens 0 and 1 of winning_content split on " ", after the star and the display name; an IndexError when there are fewer than two |
| MessageFormat.ReplyOf | message_format.py:67-100 | the reply: prize text, condition text, winner text, name and end time, or nothing when a group lookup or a winner line raises |
| MessageFormat.SavedWithoutUsernameShowsFullName | message_format.py:90-93 | a participant saved without a user name is shown by full name |
| MessageFormat.WinningContentPresent | message_format.py:85-94 | the winner text exists iff every winner's content has at least two tokens |
| MessageFormat.PrizeTextRoundTrip | activity_scheduler.py:41 | allocator content always splits into ≥ 2 tokens, and into exactly name and content when neither has a space |
| MessageFormat.AwardedWinnerLine | message_format.py:88-94 | an allocator-written winner always gets a line, and it shows prize name and content when they have no spaces |
| MessageFormat.SpacedPrizeNameIsTruncated | message_format.py:88-89 | a prize named "iPhone 15" with content "Pro" is shown as "iPhone 15": the content is dropped |
| MessageFormat.ConditionsFailSticks | message_format.py:75-82 | once a group lookup raises, the whole condition text raises |
| MessageFormat.LookupFailSticks | message_format.py:80-81 | one failing lookup fails the group list |
| MessageFormat.WinnersFailSticks | message_format.py:87-94 | one malformed winner fails the winner text |
| MessageFormat.CollectNames | message_format.py:79-81 | looks up each group name in turn |
| MessageFormat.FormatPrizes | message_format.py:69-71 | the prize loop builds the prize text |
| MessageFormat.FormatConditions | message_format.py:73-82 | the condition loop builds the condition text, or raises when a group lookup raises |
| MessageFormat.FormatWinners | message_format.py:85-94 | the winner loop builds the winner text, or raises on a winner with fewer than two tokens |
| MessageFormat.ReplyMessageFormat | message_format.py:67-100 | returns the three texts, the name and the end time for the store's winners, or nothing when a loop raises |

## Left out

- Concurrency: the semaphores and `asyncio.gather` become sequential loops in list order.
- Timer and shutdown: the APScheduler wiring and `task_scheduler`/`stop` are not modelled.
- Logging and DingTalk alerting are not modelled.
- SQL text, JSON decoding, `get_all_reply`, `get_finish_conditions_user` and `get_close_activity_by_id` are not modelled. Only the row effects of the statements used by the core are modelled.
- Store failures are not modelled. A statement that fails, or `get_all_activities` swallowing an error and returning nothing, would need an error model of the database.
- Row order: rows with equal prize_level keep their table order in `get_winning_user`, while SQL leaves that order unspecified.
- Listing order: the activity listing and each activity's participant list (`JSON_ARRAYAGG`) follow table order. Neither query has an ORDER BY, so the database may return another order. No proved property depends on that order.
- New participant rows: `SaveActivityDetail` gives condition_status, winning_status and prize_level 0 and winning_content "". The INSERT sets only user_id, user_name, full_name and activity_id; those four values are schema defaults that the source does not show.
- Telegram, the bot-follow service, the bot lookup `_get_bot`, `get_group`, whether the message-log query answers, and the chat id the database reads from a group text pasted into `chat_id={group}` are oracle parameters. Whether a notification is delivered is an oracle too.
- `random.sample`: only the size and without-replacement facts are modelled. Its distribution is not.
- Validator.ValidateUserConditions: when the activity id fails to convert, the error text for an id holding a non-printable character above U+00FF differs. Examples are U+200B and U+2028. Python's repr writes those as `\uXXXX` escapes; the model leaves them unescaped. The reason is that Python's notion of a printable character follows the Unicode category tables, which the model does not include.
- Text.ParseInt: accepts only ASCII digits with an optional sign. Python's `int()` also accepts surrounding whitespace, `_` between digits, and every other Unicode decimal digit, such as fullwidth `１０` or Arabic-Indic `٥`. A speech-count target written that way fails in the model but passes in the source.
- Notification text: `content_format`, the reply templates and the notification service are not modelled. The notification service builds `InMessageFormat`, whose `__init__` is declared `async`.
- `to_dict` serialisers and datetime microsecond precision are not modelled.
- Clock reads: each tick reads one clock value, while the source reads `datetime.now()` once per predicate.
- The writes to `activity.status` are not modelled. That attribute is not `activity_status` and never reaches the store.
- ActivityScheduler.Scheduler.SchedulerLoop: states the activity table exactly, but states only that participant rows are kept and the trace grows. It does not state which validation and allocation each activity received; ProcessActivity states that for one activity.
