# Notekeeper Core: a verified model

This project models the dense parts of Notekeeper's Core service and of its web client in Dafny and proves
what they are for. PostgreSQL is modelled by what each statement does to the rows: a transaction is one
atomic step under the lock it takes, and a run is an arbitrary sequence of steps. There is one nondecreasing
clock; where a request reads it before it takes its lock, as the throttle and a revocation do, readings may be out
of lock order.

| area | modules |
|---|---|
| ordering keys, placing into lists, the client's optimistic order | `Fracindex`, `EvenKeys`, `Position`, `Board`, `TiedKeys` |
| change feed, event streams, wake-ups on any number of replicas | `ChangeFeed`, `Hub`, `Wakeups` |
| recurrence and the reminder firing protocol | `Calendar`, `Recurrence`, `Reminders`, `ReminderRuns`, `ReminderEffects`, `ReminderLimits`, `ReminderService` |
| attachment storage | `BlobStore`, `BlobRuns`, `BlobService`, `Chunks` |
| rate limiter, login throttle, sessions | `RateLimit`, `Throttle`, `Sessions` |
| chat edits | `ChatEdits`, `ChatHistory` |

Where the source changes state step by step, the model is a class whose methods make the same steps and are
proved equal to specification functions; the properties are then proved about those functions and about runs of
them, in terms of what was asked for and what is stored, not of the functions themselves. The operations of a hub are proved to be steps of the system in `Wakeups`, whose runs are then what the
properties of event streams are about.

## What the proofs found

Some promises hold only under a condition. Each has a lemma that gives the condition exactly.

- A comment in `fracindex.go` says one more character per 62 operations at an end of a list. The code adds one
  per 31 (`AppendGrowth`, `PrependGrowth`), so a list that only grows at one end is first rebalanced by the
  48 * 31st placement after its first item (`FirstRebalance`).
- A key placed between two hints that are still in order is guaranteed to be new, and the client's order to be the
  server's, exactly when the hints are neighbours (`FreshIffAdjacent`, `AgreesIffAdjacent`). Two clients that send
  the same two neighbours get equal keys (`SameHintsSameKey`). Lists with equal keys stay in order of key and id,
  and placing into them works as in any other (`PlaceLands`, `MoveKeepsSorted`). The client agrees on them exactly
  if the members around the place differ in key, or the move rebalances the list (`AgreesUnlessTied`).
- `Even(n)` stays within 64 bits exactly for n + 1 <= 62^9 (`FitsInt64`).
- `changesLost` is exact for every client exactly when only the oldest rows are purged (`ChangesLostExact`). Rows are
  purged by a stamp that is taken before the user lock, so purging is safe exactly if no transaction began before one
  that took the lock ahead of it (`PurgingIsSafeExactly`). Otherwise a client can miss a change and not be told
  (`OverlapIsMissed`).
- A recurring reminder keeps its schedule under re-anchoring exactly when no month it visits is too short for its
  day (`KeepsScheduleIffNeverClamped`). `Next` gives up exactly when 20000 occurrences have passed (`NextGivesUp`).
- A reminder that came due while its note was in the Trash is not to be sent (CORE-R7). It is sent after all, once
  the note is back, in some run exactly if it was armed in the Trash (`MissedInTrashIsSentExactly`): bringing the
  note back visits suspended reminders only. It is armed there exactly by snoozing a fired or done one
  (`SilentUnlessArmedInTrash`). `SentForTheTrash` is a run that does it: fire, dismiss, snooze, wait, restore, fire.
  While the note is in the Trash nothing fires (`FiredDuesIncrease`).
- Finishing a fired recurring reminder never arms it again: it has fired because it had no occurrence left, and then
  it never gets one (`FiredIsLast`).
- The limits of 20 reminders per note and 500 per user are checked when a reminder is created. The first is passed
  exactly by merging notes that together have more (`NoteLimitExactly`), the second exactly by updating or snoozing
  one that was not armed (`UserLimitExactly`). Runs from the empty system pass each (`NoteLimitIsPassed`,
  `UserLimitIsPassed`).
- A publication after its blob was cleaned away gives a reservation back twice, unless nothing is reserved or the
  content is new (`LatePublication`). The 10-minute deadline below the one-hour stale age is what rules it out.
- Chat edits converge in every order of delivery exactly when no edit that made the latest text earlier is followed
  in time by a different text, and the original is not the latest text unless all are (`ConvergesExactly`). A note
  edited to milk, to eggs and back to milk says eggs if the second edit arrives last (`BackToMilk`).
- The throttle's longest delay is as long as its quiet time: after a full delay the count starts again, exactly
  unless the next admission is at the very instant the block ends (`FullDelayStartsAgain`). Four of the five
  policies reach that delay, ten failures past the free ones (`FullDelays`).
- A comment in `accounts.go` says that a race between tabs signs nobody out. The second call with a token succeeds
  exactly within the grace and as long as nobody has used the successor (`RaceOfTwoTabs`). If the first tab renews
  once more, the second signs both out, however soon it calls (`SlowTabEndsSession`).
- A renewal takes a remembered session for one that is not, exactly when remembered sessions are configured to last
  no longer than the others (`RememberedIffLonger`).

## Model

| member | source | states |
|---|---|---|
| Fracindex.LessTotal | core/internal/fracindex/fracindex.go:48-56 | the byte order of keys is total: equal, below or above |
| Fracindex.MidpointIsInside | core/internal/fracindex/fracindex.go:59-102 | the midpoint of an open or proper gap is a valid key strictly inside it, at most one longer than the longer bound |
| Fracindex.BetweenCorrect | core/internal/fracindex/fracindex.go:48-109 | Between errs exactly on an invalid or misordered bound, and otherwise gives a valid key strictly between, of length at most max + 1 |
| Fracindex.CountPrefix | core/internal/fracindex/fracindex.go:59-66 | the prefix loop counts the common prefix, with an exhausted lower bound read as zeros |
| Fracindex.GenerateMidpoint | core/internal/fracindex/fracindex.go:59-102 | the imperative midpoint computes the specified one |
| Fracindex.AppendGrowth | core/internal/fracindex/fracindex.go:59-78 | the key after m appends is z^(m/31) and the digit of index 31 + m%31 |
| Fracindex.PrependGrowth | core/internal/fracindex/fracindex.go:59-102 | the key after m prepends is 0^(m/31) and the digit of index 31 - m%31 |
| Fracindex.GrowthThreshold | core/internal/fracindex/fracindex.go:17-18 | the keys of appending and prepending first pass the length limit at m = 48 * 31 |
| Position.FirstRebalance | core/internal/position/position.go:49-64 | a list that only grows at one end, by placements without hints, is first rebalanced by placement 48 * 31 after its first item |
| EvenKeys.FitsInt64 | core/internal/fracindex/fracindex.go:113-140 | every value of the loop fits 64 bits if and only if n + 1 <= 62^9 |
| EvenKeys.EvenIsOrdered | core/internal/fracindex/fracindex.go:113-132 | n valid, strictly increasing keys, none longer than the width and one |
| EvenKeys.EvenLeavesRoomBetween | core/internal/fracindex/fracindex.go:111-132 | between any two of the keys there is room for a key one shorter than the width |
| EvenKeys.EvenLeavesRoomBelow | core/internal/fracindex/fracindex.go:111-132 | a key before the first is no longer than the width |
| EvenKeys.EvenLeavesRoomAbove | core/internal/fracindex/fracindex.go:111-132 | a key after the last is no longer than the width |
| EvenKeys.Pow | core/internal/fracindex/fracindex.go:134-140 | the loop computes the power without overflow |
| EvenKeys.EncodeKey | core/internal/fracindex/fracindex.go:142-149 | the buffer holds the fixed-width base-62 form of the number |
| EvenKeys.EncodeLess | core/internal/fracindex/fracindex.go:142-149 | byte order of the fixed-width forms is numeric order |
| EvenKeys.GenerateEven | core/internal/fracindex/fracindex.go:113-132 | the imperative form gives the specified keys, in 64-bit arithmetic |
| Position.ShortAfterRebalance | core/internal/position/position.go:49-64 | after a rebalance every key fits the length limit, so one retry is enough |
| Position.RebalancesExactly | core/internal/position/position.go:49-64 | the members keep their keys exactly while the key between the two neighbours fits the limit; else all get the even keys of their places |
| TiedKeys.PlaceOnceSucceeds | core/internal/position/position.go:66-118 | into any list of valid keys, in order or not, a placement fails exactly on an unknown neighbour |
| TiedKeys.PlaceLands | core/internal/position/position.go:49-118 | for lists in order of key and id, equal keys included: at most 48 long, between two hints in order, else right above or right below the key the hints name, or at an end; a key no member has when the hints ask for one place |
| TiedKeys.InsertSorted | core/internal/store/queries/board.sql:107-108 | read back in order, the new row is in one place and the others keep their order |
| TiedKeys.MoveKeepsSorted | core/internal/board/board.go:233-265 | every move leaves the list in order of key and id |
| Position.FreshIffAdjacent | core/internal/position/position.go:66-95 | two hints in order give a new key over all lists with keys the service stores if and only if they are neighbours |
| Position.SameHintsSameKey | core/internal/position/position.go:66-95 | two items placed between the same two hints get the same key |
| Position.Group.Rebalance | core/internal/board/board.go:88-103 | every key is rewritten in list order and every member recorded as changed |
| Position.Group.TryPlace | core/internal/position/position.go:66-118 | the switch over the hints finds the specified bounds and key |
| Position.Group.PlaceItem | core/internal/position/position.go:49-64 | a key that is too long rebalances once and is placed again; anything else leaves the list alone |
| Board.Pages.UpdatePage | core/internal/board/board.go:233-265 | a move commits the new list and its changes, or leaves everything as it was |
| Board.EveryChangeIsAnnounced | core/internal/board/board.go:88-103 | a move announces the moved page and every page whose key it rewrote |
| Board.OptimisticOrderIsServerOrder | web/src/features/cache.ts:118-127 | for one hint, or hints that are neighbours or inverted, sorting by the server's key gives the client's list |
| TiedKeys.AgreesUnlessTied | web/src/features/cache.ts:118-127 | with equal keys, for hints that ask for one place, the two agree if and only if the members around it differ in key or the list is rebalanced |
| Board.AgreesIffAdjacent | web/src/features/cache.ts:118-127 | for two hints in order, client and server agree on all lists with keys the service stores if and only if they are neighbours |
| Board.NeighboursRoundTrip | web/src/features/cache.ts:118-132 | placing by the neighbours of a dropped item gives back the list it was dropped into |
| Board.ShownWhere | web/src/features/cache.ts:118-127 | the client shows the item once, behind the first hint it knows, else in front of the second, else last; the others keep their order |
| ChangeFeed.Store.InUserTx | core/internal/store/store.go:105-151 | all changes commit with the next numbers and one announcement, or nothing does; refused exactly for a limited quantity that grows past its limit |
| ChangeFeed.UsageStaysWithin | core/internal/store/store.go:127-143 | over every run the usage stays within a limit, or below what it was when the limit was lowered |
| ChangeFeed.UserTx.RecordChange | core/internal/store/store.go:156-165 | a change takes the next number of its user |
| ChangeFeed.CommitExtendsHistory | core/internal/store/store.go:105-165 | a commit extends the history without a gap |
| ChangeFeed.ChangesLostExact | core/internal/server/sse.go:157-159 | for every client it is true exactly when a change after last is gone or last is ahead, if and only if purging removes the oldest only |
| ChangeFeed.FeedIsExact | core/internal/server/sse.go:157-159 | for a feed purged from the front it is true exactly when a change after last is gone or last is ahead |
| ChangeFeed.PurgingIsSafeExactly | core/internal/store/queries/tokens.sql:62-63 | it stays exact at every cutoff of the purge if and only if the stamps do not fall with the numbers |
| ChangeFeed.OverlapIsMissed | core/migrations/0002_schema.sql:272-281 | two transactions, the later one first in the lock, and a purge between them: a change is missed and not reported |
| ChangeFeed.RowsOfSnapshot | core/internal/server/sse.go:81-100 | a snapshot's batch is the very next changes of the history |
| ChangeFeed.ToldExactlyOnce | core/internal/server/sse.go:81-115 | without a resync a stream tells each change after its start once and in order |
| ChangeFeed.EventStream.Drain | core/internal/server/sse.go:81-115 | writes exactly the changes from where the client was, batch by batch; a resync only if the last read shows that something after them was lost; a success ends where the last snapshot does |
| ChangeFeed.EventStream.WriteBatch | core/internal/server/sse.go:99-111 | one read: a resync exactly if something the client lacks is no longer kept or it is ahead, else the next changes, a batch at most |
| ChangeFeed.DrainTells | core/internal/server/sse.go:81-115 | if the last read finds no loss after the place where the drain began, the client is told exactly the changes from there, and no resync |
| Hub.Hub.Subscribe | core/internal/realtime/hub.go:90-106 | refused exactly at the maximum; ended with the advice to reconnect while shutting down |
| Hub.Hub.Unsubscribe | core/internal/realtime/hub.go:109-116 | one stream leaves, and the user's entry with the last |
| Hub.Hub.WakeUser | core/internal/realtime/hub.go:162-168 | exactly the user's streams hold a token |
| Hub.Hub.WakeAll | core/internal/realtime/hub.go:170-178 | every stream holds a token |
| Hub.Hub.Shutdown | core/internal/realtime/hub.go:119-128 | every stream is ended once, and the reason of those that had ended stays |
| Hub.Hub.RevokeSession | core/internal/realtime/hub.go:180-202 | exactly the session's streams are ended for good |
| Hub.Hub.Open | core/internal/realtime/hub.go:90-106 | subscribing is the step of the system in which a stream opens |
| Hub.Hub.Leave | core/internal/realtime/hub.go:109-116 | unsubscribing is the step in which one ends |
| Hub.Hub.TakeToken | core/internal/server/sse.go:119-143 | a handler's receive from its channel is the step that takes the token |
| Hub.Hub.CatchUp | core/internal/realtime/hub.go:235 | the catching up after connecting is the step that wakes every stream |
| Hub.Hub.Handle | core/internal/realtime/hub.go:246-264 | a change notification is the step that receives it and gives exactly the user's streams a token; a revocation ends exactly its own streams, for good |
| Hub.Hub.Elsewhere | core/internal/realtime/hub.go:61-71 | no other step of the system touches what a hub holds |
| Hub.Hub.Listen | core/internal/realtime/hub.go:224-265 | with handlers taking tokens in between, a stream holds one unless it was taken since the last change of its user, and is ended exactly for a revocation of its own |
| Hub.NotifiedHoldsToken | core/internal/realtime/hub.go:53-58 | a change leaves the user's streams with a token for as long as nobody takes it |
| Hub.TakenHoldsNone | core/internal/realtime/hub.go:53-58 | a token that was taken is gone until the next change for the user |
| Wakeups.StepKeepsInv | core/internal/realtime/hub.go:46-265 | every step of writers, purges, listeners and handlers keeps the invariant |
| Wakeups.NoLostWakeup | core/internal/realtime/hub.go:162-265 | a stream that is behind has a token, a notification or a listener that will wake it, or reads again before it blocks |
| Wakeups.QuietMeansUpToDate | core/internal/server/sse.go:119-143 | when nothing is on its way every live stream has told everything |
| Wakeups.StreamsAreFaithful | core/internal/server/sse.go:56-115 | in every run each stream tells the next change each time, or says hello or resync |
| Wakeups.EveryResyncIsForLoss | core/internal/server/sse.go:99-104 | in every run each resync of a stream comes from a read of its own, made when it had written just the events before, that showed a loss |
| Wakeups.NoLossNoResync | core/internal/server/sse.go:99-115 | a run without purges, from clients that are not ahead, contains no resync |
| Calendar.DateRoundTrip | core/internal/timeparse/rrule.go:85-91 | month and day determine the day and the day its month, over the whole Gregorian calendar |
| Calendar.LengthsRepeat | core/internal/timeparse/rrule.go:87-90 | month lengths repeat every 4800 months |
| Calendar.YearStart | core/internal/timeparse/rrule.go:85-91 | the months add up to 365 days a year and the leap days of a closed formula |
| Calendar.KnownDays | core/internal/timeparse/rrule.go:71-75 | 1 January 1970 is day 719528, a Thursday, and 1 January 2000 a Saturday |
| Calendar.WeeksStartOnMonday | core/internal/timeparse/rrule.go:71-74 | a week starts on Monday and weekdays come round every seven days |
| Recurrence.ParseRule | core/internal/timeparse/rrule.go:21-59 | accepts exactly valid parts with a frequency and weekdays for weekly rules only, and then gives a well-formed rule |
| Recurrence.LastPartCounts | core/internal/timeparse/rrule.go:21-50 | of repeated frequencies and intervals the last counts, and the interval is one when none is given |
| Recurrence.WeekdaysAddUp | core/internal/timeparse/rrule.go:41-48 | every weekday of every list is one of the rule's |
| Recurrence.AtFullMinute | core/internal/timeparse/rrule.go:65-69 | an occurrence is at the full minute of the one it counts from |
| Recurrence.SearchSucceeds | core/internal/timeparse/rrule.go:98-112 | the search over 7 * interval + 7 days always finds a day |
| Recurrence.StepIsFirstAfter | core/internal/timeparse/rrule.go:77-113 | each step goes to the first later day of the rule's set |
| Recurrence.NextIsLeast | core/internal/timeparse/rrule.go:65-123 | the result is the earliest instant of the set after both the anchor's day and `after` |
| Recurrence.NextGivesUp | core/internal/timeparse/rrule.go:76-122 | no result if and only if the first 20000 occurrences have passed |
| Recurrence.FindNext | core/internal/timeparse/rrule.go:65-123 | the loop computes the specified next occurrence |
| Recurrence.NextWeekly | core/internal/timeparse/rrule.go:92-112 | the week loop finds the specified day |
| Recurrence.CarryMonths | core/internal/timeparse/rrule.go:81-86 | carrying months into years keeps the month number |
| Recurrence.ReanchoringKeepsSchedule | core/internal/timeparse/rrule.go:65-123 | Next counted from a returned occurrence is Next counted from the start |
| Recurrence.KeepsScheduleIffNeverClamped | core/internal/timeparse/rrule.go:81-91 | that holds for all instants if and only if no month visited is too short; always for daily, weekly and days 1 to 28 |
| Recurrence.FiringsStayOnSchedule | core/internal/reminders/reminders.go:477-489 | however late each firing, the due time is the one the first anchor gives |
| Reminders.StepKeepsInv | core/internal/reminders/reminders.go:101-499 | every transaction keeps: armed reminders are due after everything sent for them, sent dues increase, leases end soon, waiting messages are wanted |
| Reminders.FireKeepsInv | core/internal/reminders/reminders.go:400-499 | a firing keeps all of it |
| Reminders.RestoreKeepsInv | core/internal/reminders/reminders.go:331-360 | so does bringing a note back |
| ReminderRuns.FiredDuesIncrease | core/internal/reminders/reminders.go:365-499 | in every run each due time is sent once, in increasing order, by a step that found it pending and due on an active note of an active user |
| ReminderRuns.StepSends | core/internal/reminders/reminders.go:400-473 | only a firing sends, one notification at a time |
| ReminderRuns.OldDueNeverFires | core/internal/reminders/reminders.go:398-416 | a due time that is over is never sent for, whatever replica had claimed it |
| ReminderRuns.EditsEndOldDues | core/internal/reminders/reminders.go:151-360 | update, snooze, done, delete, restore and firing each end the due time that had come, but for restoring exactly if the reminder was armed in the Trash |
| ReminderRuns.MissedInTrashIsSentExactly | core/internal/reminders/reminders.go:328-360 | some legal run sends for a due time that came in the Trash if and only if the reminder was armed there |
| ReminderRuns.FiredIsLast | core/internal/reminders/reminders.go:265-277 | in every run a fired reminder has no occurrence left, so finishing it does not arm it |
| ReminderRuns.SentForTheTrash | core/internal/reminders/reminders.go:227-239 | a legal run from the empty system that sends for a due time that passed in the Trash |
| ReminderRuns.NoMessageAfterEnd | core/internal/reminders/reminders.go:187-193 | no chat message of a finished or deleted reminder is left waiting |
| ReminderRuns.WaitingMessagesAreWanted | core/internal/store/queries/outbox.sql:49-56 | in every run a waiting message is for a reminder that is there and not done |
| ReminderRuns.SilentUnlessArmedInTrash | core/internal/reminders/reminders.go:227-288 | a step arms a reminder in the Trash if and only if it snoozes a fired or done one there |
| ReminderRuns.NoteLimitExactly | core/internal/reminders/reminders.go:116-126 | the limit per note survives a step if and only if the step does not merge past it |
| ReminderRuns.UserLimitExactly | core/internal/reminders/reminders.go:116-126 | the limit per user survives a step if and only if the step does not re-arm past it by update or snooze |
| ReminderLimits.NoteLimitIsPassed | core/internal/notes/ops.go:745-775 | a legal run from the empty system after which a note has 21 reminders |
| ReminderLimits.UserLimitIsPassed | core/internal/reminders/reminders.go:227-239 | a legal run from the empty system after which a user has 501 armed reminders |
| ReminderRuns.DueBecomesClaimable | core/internal/store/queries/reminders.sql:38-60 | a due reminder can be claimed again once the failure backoff has passed |
| ReminderRuns.RunKeepsSchedule | core/internal/reminders/reminders.go:477-489 | in a run that does not edit it, a recurring reminder is due at the first instant of its schedule after it last fired |
| ReminderRuns.StepKeepsRecurring | core/internal/reminders/reminders.go:254-360 | firing, skipping by done and coming back from the Trash move to the first instant of the recurrence set after the old day and now |
| ReminderRuns.RunKeepsRecurring | core/internal/reminders/reminders.go:254-499 | in every run in which it is not given a new time, snoozed or deleted, a recurring reminder is due at an instant of its own recurrence set |
| ReminderRuns.SendsAreOccurrences | core/internal/reminders/reminders.go:400-499 | and everything sent for it in such a run is for an instant of that set |
| Recurrence.NextStaysOnSet | core/internal/timeparse/rrule.go:65-123 | Next counted from any instant of the set is the set's first instant after that day and `after` |
| ReminderService.Service.CreateIn | core/internal/reminders/reminders.go:101-140 | the checks in order, their errors, and the new row |
| ReminderService.Service.Change | core/internal/reminders/reminders.go:151-185 | new time or rule, armed again; errors leave everything alone |
| ReminderService.Service.SnoozeIn | core/internal/reminders/reminders.go:227-239 | within a year and for pending, fired and done reminders only |
| ReminderService.Service.DoneIn | core/internal/reminders/reminders.go:254-288 | a recurring reminder skips to its next occurrence, others are done; an error also keeps the messages |
| ReminderService.Service.DeleteReminder | core/internal/reminders/reminders.go:196-213 | the row and its waiting messages go |
| ReminderService.Service.DismissNote | core/internal/reminders/reminders.go:315-326 | the note's pending reminders are suspended |
| ReminderService.Service.OnRestore | core/internal/reminders/reminders.go:331-360 | visits the suspended reminders of the note; BackInTime and BackTooLate say what becomes of them |
| ReminderEffects.BackInTime | core/internal/reminders/reminders.go:314-360 | in every run, a note that comes back from the Trash before a reminder is due gives the reminder back as it was, its lease aside, and some run sends for it |
| ReminderEffects.BackTooLate | core/internal/reminders/reminders.go:331-360 | after the due time the reminder goes on to the first instant of its recurrence after now, and is cancelled if and only if it has none left |
| ReminderEffects.ArmedCanBeSent | core/internal/reminders/reminders.go:363-420 | a pending reminder on an active note is sent for its due time by some run |
| ReminderEffects.CreateTakes | core/internal/reminders/reminders.go:101-140 | a new reminder is as asked for; refused exactly for a bad time or rule, a note that is not active, or a limit |
| ReminderEffects.RefusalsHaveReasons | core/internal/reminders/reminders.go:101-126 | each refusal has its reason: the time, the rule, the note or a limit |
| ReminderEffects.SameDateYearsOn | core/internal/reminders/reminders.go:62-75 | a year bound is the same date and time that many years on; from 29 February it is 1 March where there is none |
| ReminderEffects.UpdateTakes | core/internal/reminders/reminders.go:149-185 | an update arms the reminder for the time and rule asked for, or that it had, and some run sends for it; refused exactly if they are not acceptable or the note is not active |
| ReminderEffects.SnoozeTakes | core/internal/reminders/reminders.go:227-240 | a snooze moves the due time, at most a year ahead, and arms a pending, fired or done reminder |
| ReminderEffects.FinishSkips | core/internal/reminders/reminders.go:254-288 | finishing goes on to the next occurrence, and ends the reminder if and only if it has none left |
| ReminderEffects.DeleteRemoves | core/internal/reminders/reminders.go:196-213 | a deletion removes exactly the reminder, or those of the note |
| ReminderEffects.MergeMoves | core/internal/store/queries/notes.sql:149-150 | a merge moves exactly the source note's reminders and changes nothing else in them |
| ReminderEffects.OthersUntouched | core/internal/reminders/reminders.go:89-500 | no transaction touches a reminder that it does not concern |
| ReminderEffects.OtherMessagesStay | core/internal/reminders/reminders.go:187-193 | only the messages of a reminder that is finished or deleted are cancelled |
| ReminderEffects.LeaseHolds | core/internal/store/queries/reminders.sql:38-47 | a claimed reminder can be claimed again if and only if its lease is over |
| ReminderEffects.DeferHolds | core/internal/store/queries/reminders.sql:58-60 | a reminder set aside can be claimed again if and only if that time is over |
| ReminderEffects.FireSends | core/internal/reminders/reminders.go:398-500 | a firing sends one notification, marked late after five minutes, and one message to each target |
| ReminderEffects.FireGoesOn | core/internal/reminders/reminders.go:477-497 | then the reminder goes on to its next occurrence, and has fired for good if and only if it has none left |
| ReminderService.Service.FireOne | core/internal/reminders/reminders.go:400-499 | fires exactly if the reminder still qualifies; one notification, a message per target, the next occurrence or fired |
| ReminderService.Service.FireDue | core/internal/reminders/reminders.go:365-396 | with anything in between it is a run of the model; undisturbed it counts what it sent and leaves nothing claimed unsent but failures |
| ReminderService.TurnKeepsOthers | core/internal/reminders/reminders.go:379-394 | a turn settles its own reminder and leaves the other claimed ones as they were |
| BlobStore.PublishSucceeds | core/internal/blobs/blobs.go:205-235 | within its deadline a publication finds its blob and violates no constraint |
| BlobStore.PublishKeepsInv | core/internal/blobs/blobs.go:205-235 | publishing, as a duplicate or not, keeps accounts and deduplication |
| BlobStore.DeleteKeepsInv | core/internal/blobs/blobs.go:275-298 | so does deleting, with a blob that is shared or not |
| BlobStore.DropsKeepInv | core/internal/blobs/blobs.go:302-317 | so does the janitor's release, because stale is older than any upload that can still publish |
| BlobStore.StepKeepsInv | core/internal/blobs/blobs.go:116-328 | every step keeps the invariant |
| BlobStore.EmptyIsValid | core/internal/store/queries/blobs.sql:1-2 | an account with nothing stored satisfies the invariant |
| BlobStore.RunKeepsInv | core/internal/blobs/blobs.go:116-328 | in every run reserved and used are the sums of incomplete and complete blobs, fit the quota, and content is stored once with an attachment each |
| BlobRuns.StoredIsWhatWasSent | core/internal/blobs/blobs.go:205-235 | every attachment's blob holds the bytes that were sent for it, or the two collide in digest and length |
| BlobRuns.LinkedFilesStay | core/internal/store/queries/blobs.sql:71-74 | an attachment a note uses keeps its row and its file through every run that does not unlink it |
| BlobRuns.UploadThenDelete | core/internal/blobs/blobs.go:116-298 | uploading and deleting restores counters and rows, duplicate or not |
| BlobRuns.JanitorIsExact | core/internal/blobs/blobs.go:302-328 | afterwards nothing stale is left, a complete blob stays exactly if an attachment that stays needs it, and every row that is left is as it was |
| BlobRuns.LatePublication | core/internal/server/attachments.go:18-19 | without a deadline: a publication whose blob is gone fails on new content, and on known content keeps the accounts if and only if nothing is reserved |
| BlobService.Storage.BeginUpload | core/internal/blobs/blobs.go:116-166 | the checks in order, the existing attachment, or the reservation and its row |
| BlobService.Storage.PublishUpload | core/internal/blobs/blobs.go:205-238 | publishes, or rolls back on a constraint |
| BlobService.Storage.AbortUpload | core/internal/blobs/blobs.go:242-255 | makes the step of the model that AbortGivesBack and AbortUndoes are about |
| BlobRuns.GrantedExactly | core/internal/blobs/blobs.go:116-167 | a reservation is granted if and only if nothing is stored or running for the id and what is stored, what may still come and it fit the quota; it takes just the declared bytes |
| BlobRuns.AbortGivesBack | core/internal/blobs/blobs.go:240-255 | whatever runs besides, an abort gives back just what the upload had reserved, and the same upload may begin again; after the publication it changes no row and no counter |
| BlobRuns.AbortUndoes | core/internal/blobs/blobs.go:116-255 | reserving, sending any pieces and aborting leaves everything as it was |
| BlobRuns.PublishAdds | core/internal/blobs/blobs.go:205-237 | a publication adds just the attachment, with what was sent, and touches no other blob |
| BlobRuns.FreshIsKept | core/internal/store/queries/blobs.sql:71-74 | the janitor may take an attachment no note uses if and only if it is more than an hour old |
| BlobService.Storage.DeleteAttachment | core/internal/blobs/blobs.go:275-298 | the attachment goes, and an unshared blob with its space |
| BlobService.Storage.ReleaseStaleRows | core/internal/blobs/blobs.go:302-328 | visits exactly the stale uploads and the unused attachments |
| Chunks.StreamIn | core/internal/blobs/blobs.go:170-203 | accepted exactly if as long as declared, ended properly and stored; otherwise the reason; the rows are the body's slices |
| Chunks.AcceptedExactly | core/internal/blobs/blobs.go:170-203 | accepted if and only if as long as declared, ended properly and every chunk stored; each refusal has its reason |
| Chunks.ReadFull | core/internal/blobs/blobs.go:173-176 | a full read from the limited body, and how it ended |
| Chunks.AcceptedRoundTrip | core/internal/blobs/blobs.go:170-203 | the stored chunks joined are the body |
| Chunks.JoinedIsFile | core/internal/blobs/blobs.go:170-203 | joining all aligned slices gives the file |
| Chunks.Reader.Read | core/internal/blobs/blobs.go:366-386 | the file's bytes at the offset up to the chunk's end, with the cached chunk equal to storage; errors change nothing |
| Chunks.ReadStops | core/internal/blobs/blobs.go:366-386 | a read gives what was asked for, or stops at the end of the file or of the chunk it starts in |
| Chunks.Reader.Seek | core/internal/blobs/blobs.go:389-406 | all origins, past the end too; errors keep the offset |
| Chunks.Answers | core/internal/blobs/blobs.go:353-406 | any sequence of reads and seeks is answered as by the flat file |
| Chunks.ReadAll | core/internal/blobs/blobs.go:366-386 | reading on with any buffer gives exactly the rest of the file |
| RateLimit.Limiter.AllowN | core/internal/ratelimit/ratelimit.go:37-54 | this answer and all later ones are those of the limiter that keeps every key |
| RateLimit.Limiter.Sweep | core/internal/ratelimit/ratelimit.go:72-82 | drops exactly keys that are full again, which changes no later level |
| RateLimit.Limiter.RetryAfter | core/internal/ratelimit/ratelimit.go:57-69 | exactly a second when nothing is missing or known, else what the missing units take, at least a second |
| RateLimit.Serve | core/internal/ratelimit/ratelimit.go:37-82 | any sequence of requests is answered as without dropping |
| RateLimit.WindowBound | core/internal/ratelimit/ratelimit.go:18-54 | what a key gets in a window is at most burst + rate * length |
| RateLimit.GrantedExactly | core/internal/ratelimit/ratelimit.go:37-54 | a request is granted if and only if with it every window that ends with it stays within burst + rate * length; refused requests do not count |
| RateLimit.RetryIsEnough | core/internal/ratelimit/ratelimit.go:56-69 | after the advertised wait the units are there |
| RateLimit.RetryIsNeeded | core/internal/ratelimit/ratelimit.go:56-69 | before it they are not |
| Throttle.DelayIsMonotone | core/internal/throttle/throttle.go:25-38 | the delay never falls, never passes its cap, and fits 64 bits when the cap does |
| Throttle.DelayDoubles | core/internal/throttle/throttle.go:25-38 | no delay within the free failures, then two seconds, then twice as long each time up to the cap |
| Throttle.ShiftFits | core/internal/throttle/throttle.go:30-34 | the power of two taken before the cap fits 64 bits |
| Throttle.Table.ChargeKey | core/internal/throttle/throttle.go:97-123 | a blocked key refuses and stays; otherwise the count and the block are set in one step |
| Throttle.Table.Attempt | core/internal/throttle/throttle.go:78-95 | counts on none when a key is blocked already, else on each in turn, by its own clock reading; the answer is zero for distinct keys |
| Throttle.RepeatedKeyWaits | core/internal/throttle/throttle.go:88-93 | an attempt that names a key twice is refused for what is left of the delay of its own first charge |
| Throttle.Table.Blocked | core/internal/throttle/throttle.go:162-178 | positive exactly if a key is blocked, enough for all of them, and no longer than that |
| Throttle.EveryKeyIsCharged | core/internal/throttle/throttle.go:78-95 | an attempt on distinct keys that is let through is counted on each |
| Throttle.RowIsLastAdmission | core/internal/throttle/throttle.go:97-123 | for clock readings in any order, successive admissions are at least the delay apart where one is asked for, and count up unless quiet |
| Throttle.AdmittedExactly | core/internal/throttle/throttle.go:97-123 | an attempt is let through if and only if the delay of the last admission is over; the count goes up by one, or starts again after a quiet time |
| Throttle.PacingAddsUp | core/internal/throttle/throttle.go:25-123 | m successive admissions without a quiet time take at least the sum of their delays |
| Throttle.PacingAddsUpInOrder | core/internal/throttle/throttle.go:25-123 | on a clock read in lock order that is so for every run of admissions |
| Throttle.Table.Success | core/internal/throttle/throttle.go:128-157 | keys to reset are forgotten, each refund takes one failure back |
| Throttle.RefundTouchesItsKeys | core/internal/throttle/throttle.go:124-127 | a success leaves every key alone that it neither resets nor refunds |
| Throttle.RefundUndoesCharge | core/internal/throttle/throttle.go:128-157 | a refund restores the count and lifts the block while the failures left are free |
| Throttle.RefundTakesOne | core/internal/throttle/throttle.go:136-153 | after a refund the key has one failure less and is blocked while it was before, if and only if the failures left are not all free |
| Throttle.EachRefundTakesOne | core/internal/throttle/throttle.go:128-157 | so for every key of a list of distinct ones |
| Throttle.FullDelayStartsAgain | core/internal/throttle/throttle.go:41-59 | after a delay as long as the quiet time the count starts again if and only if the admission is not at the instant the block ends |
| Throttle.FullDelays | core/internal/throttle/throttle.go:50-59 | which policies reach that delay, and from which count on |
| Sessions.SessionRow.Refresh | core/internal/accounts/accounts.go:276-348 | makes the steps of the model; EndIsSet, SecondTab and RefusalChangesNothing say what they are |
| Sessions.EndIsSet | core/internal/accounts/accounts.go:300-325 | over every run a renewal at t sets and answers the earlier of t + the lifetime and the absolute end; it stays until the next renewal, and a grace answer does not change it |
| Sessions.EndOfLogin | core/internal/accounts/accounts.go:120-146 | until the first renewal the end is that of the login |
| Sessions.AnswerLasts | core/internal/accounts/accounts.go:148-157 | every answer carries an access token that lasts from now, and whether the session is remembered |
| Sessions.AnsweredWhileUsed | core/internal/accounts/accounts.go:276-325 | a session renewed each time with its current token is answered every time if and only if each renewal comes within the lifetime since the last and before the absolute end |
| Sessions.SignedOutStaysOut | core/internal/store/queries/sessions.sql:19-20 | a session that was signed out is refused for good |
| Sessions.RefusalChangesNothing | core/internal/accounts/accounts.go:290-348 | a refused renewal changes nothing, unless it presents an old token of a live session, which it ends |
| Sessions.RunKeeps | core/internal/accounts/accounts.go:276-348 | the absolute end stays and is never passed, the generation never falls, a revoked session stays as it is |
| Sessions.SuccessGivesSuccessor | core/internal/accounts/accounts.go:306-322 | in every run a success for g gives g + 1, which is then the stored generation |
| Sessions.SecondTab | core/internal/accounts/accounts.go:306-337 | in every run a token that was rotated away is served exactly if the session is live, its successor is still the stored generation and the grace is not over; a live session that refuses it is ended |
| Sessions.UnusedIffStored | core/internal/accounts/accounts.go:306-322 | in every run the generation is still the same if and only if no event since was answered for it |
| Sessions.RaceOfTwoTabs | core/internal/accounts/accounts.go:306-322 | in every run the second of two calls with one token succeeds if and only if the session is live, the grace is not over and nobody used the successor in between; both then have the same one |
| Sessions.SlowTabEndsSession | core/internal/accounts/accounts.go:306-337 | a run within the grace in which the second of two tabs ends the session |
| Sessions.ReuseEndsSession | core/internal/accounts/accounts.go:323-337 | an older token ends the session for every token of it |
| Sessions.StolenTokenIsFound | core/internal/accounts/accounts.go:320-337 | a token that served once and comes back after the grace finds or leaves the session ended |
| Sessions.RememberedIffLonger | core/internal/accounts/accounts.go:301-305 | the renewal knows remembered sessions if and only if they last longer |
| ChatEdits.Store.Edited | core/internal/ingest/ingest.go:593-622 | the k-th new text edits the k-th old one, the rest stay; ChatHistory says what an edit writes |
| ChatEdits.Store.Handle | core/internal/ingest/ingest.go:261-307 | the first delivery is answered and recorded, a repeated one gets that answer and changes nothing |
| ChatEdits.CreatedIsUntouched | core/internal/ingest/ingest.go:494-501 | a created part has its text as first history entry and no edit time |
| ChatEdits.EachEditOnce | core/internal/ingest/ingest.go:574-622 | what is answered is what was delivered, and each edit is in the history exactly once |
| ChatHistory.FirstDecides | core/internal/ingest/ingest.go:261-307 | whatever is delivered, the first delivery of an event decides: from before linking it leaves only that answer, else each part has one entry of it, with its text and the time it was made, or the time it came if that is too far in the future |
| ChatHistory.DeliveryWrites | core/internal/ingest/ingest.go:593-616 | one delivery writes one entry to each part it has a text for, or nothing |
| ChatHistory.HistoryOnlyGrows | core/internal/ingest/ingest.go:605-610 | entries once written never change |
| ChatHistory.TextFollowsHistory | core/internal/ingest/ingest.go:604-616 | after any deliveries an entry was applied if and only if all that had set the text by then were made before it, and the text is that of the last applied one, or the original |
| ChatHistory.FutureDoesNotPin | core/internal/ingest/ingest.go:287-289 | no claimed time makes the text later than the clock and the skew |
| ChatHistory.NextIsApplied | core/internal/ingest/ingest.go:287-289 | so an edit made after that is applied |
| ChatEdits.EditKeepsPart | core/internal/ingest/ingest.go:606-620 | an edit in any place of the order keeps the part at its own latest text |
| ChatEdits.ConvergesExactly | core/internal/ingest/ingest.go:571-622 | all orders of delivery end with the latest edit's text if and only if the texts allow it |
| ChatEdits.BackToMilk | core/internal/ingest/ingest.go:606-620 | a concrete set of edits and an order of delivery, all at one instant, that ends with an older text |
| ChatEdits.DifferentTextsConverge | core/internal/ingest/ingest.go:571-622 | pairwise different texts, also from the original, always converge |

## Left out

- PostgreSQL, row-level security, the job scheduler, HTTP, bots, metrics and the user interface: only the atomic effect of each transaction is modelled.
- Network and storage failures in the middle of a transaction: a transaction commits or leaves everything as it was.
- Category groups and note columns: `board.go` and the notes service use the same `Group` with other queries; pages stand for all of them.
- EvenKeys.GenerateEven: asks for n + 1 <= 62^9, where the source's arithmetic would overflow; FitsInt64 shows the bound is exact.
- TiedKeys.PlaceLands: asks for a list that fits the same bound.
- Purges that leave a gap: `Wakeups` and `Drain` purge from the front only; PurgingIsSafeExactly says when the code does.
- Daylight-saving gaps and a change of the user's zone: the recurrence model uses one civil timeline.
- Recurrence.NextIsLeast: days 29 to 31 of a monthly rule are clamped to the last day, as the code does and RFC 5545 does not.
- Recurrence.ParseRule: starts from the parts of the text, split and their names and values recognised.
- The order in which due reminders are claimed: any set of claimable rows up to the limit may be claimed, since other replicas may hold locks on rows.
- ReminderService.Service.FireDue: what a message says, and errors while it is built, appear only as a firing that fails.
- Deleting an account, which also deletes reminders and attachments, and changing a quota while uploads run.
- Chunk indices are unbounded, where the source casts to 32 bits; the size limit keeps them far below.
- Reader.Open and downloads running while a file is deleted: a missing chunk is an error of one read.
- RateLimit.RetryIsEnough: reals for floating point; the source truncates the wait to nanoseconds.
- Throttle.PacingAddsUp: for one key without refunds, resets or purges, which shorten waits on purpose.
- Throttle.Table.Attempt: no other attempt between its charges; RowIsLastAdmission covers attempts that interleave on a key.
- Failures counted apart from an attempt (`Fail`, `Reset`): they set the same row without the check.
- Waiting bots and the payload text of session notifications in the hub.
- Token signing and hashing: a refresh token is its generation, a digest is a function of the bytes.
- ChatEdits.ConvergesExactly: edits from the app, edits from the future that are clamped, and edits that lack a text for the part are outside it; ChatHistory covers the last two.
- Messages whose deletion empties a note, attachment parts, and grouping of messages into notes.
