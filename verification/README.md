# Deadline notifications of the task manager, in Dafny

This project models the decision logic of a task-management web application
(workspaces → boards → lists → cards) around card deadlines:

- the **notification provider** of the frontend (`NotificationContext.tsx`): an
  ordered store of deadline notifications with add (replace in place or append)
  and dismiss (filter out); three classifiers over the signed number of
  milliseconds left until a deadline (urgency priority, the human-readable
  message, the threshold windows); and `checkDeadlines`, which filters cards,
  de-duplicates through a set of `(card, minute bucket)` keys and adds the
  resulting notifications to the store;
- the **popup policy** (`DeadlineNotificationPopup.tsx`): auto-dismiss timer per
  priority, its cleanup, alert severity, chip colour, close and click;
- the backend's **board statistics** (`getBoardStatistics` in `board.service.ts`);
- the client's **token-expiry decision** (`isTokenExpired.ts`);
- the **role gate** (`RoleBasedAccess.tsx`).

Time is an integer count of milliseconds and is always a parameter (`now`); a
card deadline is `Option<int>`. React state is explicit: a `Monitor` value
carries the notification list and the shown-key set from one call to the
next. Within one `checkDeadlines` call, every window test reads the shown set as
it was when the call began, because the state update is deferred. The queued
updates then apply in order.

Modules, one per source concern: `Wrappers` (Option, Result), `Cards`,
`JsMath` (JavaScript's truncating `%`, division facts), `DeadlineRules`,
`NotificationStore`, `DeadlineCheck`, `NotificationKeys` (the string form of
keys and identifiers), `NotificationPopup`, `BoardStatistics`, `TokenExpiry`,
`RoleAccess`.

Three behaviours of the code are easy to misread, and the model keeps them as written:

- The threshold windows are half-open, `(threshold − width, threshold]`. The
  lower bound is exclusive (`NotificationContext.tsx:94-96`), not a closed interval.
- The "overdue" message is reachable. Any deadline less than one minute ahead
  passes the ten-minute window and reads "overdue!", because both the hour and
  the minute components are 0 (`MessageByRange`, `WindowClassification`).
- The minute-bucket key only suppresses repeats within one bucket. A card that
  is still inside a window one minute later is notified again at that poll,
  under the next bucket (`RefiresNextMinute`). The de-duplication invariant
  proved is that a key, once emitted, is never emitted again by any later call
  of any run (`KeyFiresOnce`). A repeated check with the same cards and clock
  emits nothing and changes nothing (`NothingNewOnRepeat`,
  `CheckDeadlinesIdempotent`).

## Model

| member | source | states |
|---|---|---|
| `NotificationStore.Dismiss` | apps/frontend/src/context/NotificationContext.tsx:40-42 | keeps exactly the entries whose id differs, removes every entry with the id, shrinks by the number of such entries, and is a no-op when the id is absent |
| `NotificationStore.DismissAppend` | apps/frontend/src/context/NotificationContext.tsx:40-42 | dismissal distributes over concatenation, so the relative order of the kept entries is unchanged |
| `NotificationStore.DismissSingleton` | apps/frontend/src/context/NotificationContext.tsx:41 | a single entry is kept exactly when its id differs |
| `NotificationStore.DismissIdempotent` | apps/frontend/src/context/NotificationContext.tsx:40-42 | dismissing twice is dismissing once |
| `NotificationStore.DismissKeepsOthers` | apps/frontend/src/context/NotificationContext.tsx:40-42 | the entries of every other id keep their count |
| `NotificationStore.ReplaceById` | apps/frontend/src/context/NotificationContext.tsx:48 | the `prev.map` that puts the new notification in place of every entry with its id; the length is unchanged, and `Add` states the effect entry by entry |
| `NotificationStore.Add` | apps/frontend/src/context/NotificationContext.tsx:44-51 | a fresh id is appended after the unchanged old list; a present id keeps the length, every entry with that id becomes the new notification and the others stay in place; the ids afterwards are the old ones plus the new one |
| `NotificationStore.AddPreservesUniqueIds` | apps/frontend/src/context/NotificationContext.tsx:46-48 | adding keeps ids unique |
| `NotificationStore.AddTwice` | apps/frontend/src/context/NotificationContext.tsx:44-51 | two adds under one id equal a single add of the second notification |
| `NotificationStore.AddTwiceSingleEntry` | apps/frontend/src/context/NotificationContext.tsx:44-51 | after two adds under a fresh id the store holds exactly one entry with it |
| `NotificationStore.DismissAfterAdd` | apps/frontend/src/context/NotificationContext.tsx:40-51 | dismissing the id just added gives the old store minus that id, and exactly the old store when the id was fresh |
| `JsMath.JsRem` | apps/frontend/src/context/NotificationContext.tsx:62 | JavaScript's remainder: smaller than the divisor in magnitude, carries the sign of the dividend, and differs from it by a multiple of the divisor |
| `DeadlineRules.GetNotificationPriority` | apps/frontend/src/context/NotificationContext.tsx:76-84 | high iff at most 10 minutes left, medium iff within (10 min, 1 h], low iff more than an hour |
| `DeadlineRules.PriorityMonotone` | apps/frontend/src/context/NotificationContext.tsx:76-84 | less time left never gives a less urgent priority |
| `DeadlineRules.CreateNotificationMessage` | apps/frontend/src/context/NotificationContext.tsx:60-74 | carries the card title; a "due in" message has an amount of at least 1 and the plural "s" iff the amount exceeds 1 |
| `DeadlineRules.MessageByRange` | apps/frontend/src/context/NotificationContext.tsx:60-74 | from one day on the message counts whole days, from one hour whole hours, from one minute whole minutes; it reads "overdue" exactly when less than one minute is left, including deadlines still ahead |
| `DeadlineRules.MessageExamples` | apps/frontend/src/context/NotificationContext.tsx:60-84 | 9 minutes reads "9 minutes" at high priority; 23 h 58 min reads "23 hours" at low priority |
| `DeadlineRules.InDayWindow` | apps/frontend/src/context/NotificationContext.tsx:94 | defines the one-day window, half-open: more than 23 h 55 min and at most 24 h left |
| `DeadlineRules.InHourWindow` | apps/frontend/src/context/NotificationContext.tsx:95 | defines the one-hour window, half-open: more than 58 min and at most 1 h left |
| `DeadlineRules.InTenMinuteWindow` | apps/frontend/src/context/NotificationContext.tsx:96 | defines the ten-minute window: more than 0 and at most 10 min left |
| `DeadlineRules.InThresholdWindow` | apps/frontend/src/context/NotificationContext.tsx:94-98 | defines the union of the three windows that the test at line 98 uses; `WindowClassification` states how they relate |
| `DeadlineRules.WindowClassification` | apps/frontend/src/context/NotificationContext.tsx:89-96 | the three windows are disjoint and lie before the deadline; the day window is low priority reading "23 hours" or "1 day", the hour window medium reading "58/59 minutes" or "1 hour", the ten-minute window high reading at most ten minutes or "overdue" |
| `DeadlineRules.KeyFor` | apps/frontend/src/context/NotificationContext.tsx:87 | the key's bucket is the floor of the time left in minutes |
| `DeadlineRules.BucketShift` | apps/frontend/src/context/NotificationContext.tsx:87 | one minute less left moves the bucket down by exactly one, so each poll inside a window reads a new key |
| `DeadlineRules.ShouldShowNotification` | apps/frontend/src/context/NotificationContext.tsx:86-104 | passes iff the time lies in one of the three windows and the key is not in the snapshot; a pass adds exactly its key to the pending set, a fail adds nothing |
| `DeadlineRules.ShownKeySuppresses` | apps/frontend/src/context/NotificationContext.tsx:86-104 | once a key is recorded the same card never passes again within that minute bucket; passing implies a future deadline |
| `DeadlineCheck.IsActive` | apps/frontend/src/context/NotificationContext.tsx:108-111 | defines the filter: not DONE, deadline set and strictly after now; `ActiveCards` states what keeping exactly these cards means |
| `DeadlineCheck.ActiveCards` | apps/frontend/src/context/NotificationContext.tsx:107-112 | keeps exactly the cards that are not DONE and have a deadline after now |
| `DeadlineCheck.ActiveCardsSingleton` | apps/frontend/src/context/NotificationContext.tsx:108-112 | a single card is kept exactly when it is active |
| `DeadlineCheck.ActiveCardsAppend` | apps/frontend/src/context/NotificationContext.tsx:108-112 | the filter distributes over concatenation, so it keeps the cards in order, duplicates included |
| `DeadlineCheck.MakeNotification` | apps/frontend/src/context/NotificationContext.tsx:122-129 | builds the notification of one card: id (card, now), the card, the time left, its priority and message, isShown false; `EmittedSound` states these fields of every emitted notification |
| `DeadlineCheck.Passes` | apps/frontend/src/context/NotificationContext.tsx:96-98 | defines the per-card test of one check: deadline set, time left inside a threshold window, key not in the snapshot; this is the condition under which `ShouldShowNotification`'s contract says the test passes |
| `DeadlineCheck.Collect` | apps/frontend/src/context/NotificationContext.tsx:114-133 | the notifications built, with the pending set threaded through the tests, are exactly the in-order list of the passing cards' notifications (`Build`), and the pending set gains exactly their keys |
| `DeadlineCheck.BuildAppend` | apps/frontend/src/context/NotificationContext.tsx:116-133 | the in-order list distributes over concatenation of the cards, so notifications come out in card order |
| `DeadlineCheck.BuildSingleton` | apps/frontend/src/context/NotificationContext.tsx:116-133 | one card yields its notification exactly when it passes, and nothing otherwise |
| `DeadlineCheck.BuildMembers` | apps/frontend/src/context/NotificationContext.tsx:116-133 | every notification built is the notification of an input card that passed, and every passing card's notification is built |
| `DeadlineCheck.AddAll` | apps/frontend/src/context/NotificationContext.tsx:135-137 | the queued adds keep every old id, gain the new ones, and leave the old entries under ids not re-added in place |
| `DeadlineCheck.Emitted` | apps/frontend/src/context/NotificationContext.tsx:114-133 | defines `newNotifications`, the notifications one call creates, as the in-order list of the passing active cards; `Collect` and `CheckDeadlines` state that the call builds exactly this list |
| `DeadlineCheck.EmittedSound` | apps/frontend/src/context/NotificationContext.tsx:106-133 | each emitted notification is for an input card that is not DONE, has a deadline, and has positive time left inside a window under an unshown key; it carries the two classifications of that time, the id (card, now) and isShown false |
| `DeadlineCheck.CheckDeadlines` | apps/frontend/src/context/NotificationContext.tsx:106-138 | the store afterwards is the old store with the emitted notifications added in order; the shown set gains exactly their keys; the ids gain exactly theirs |
| `DeadlineCheck.EmittedComplete` | apps/frontend/src/context/NotificationContext.tsx:106-133 | every active card in a window under an unshown key is emitted |
| `DeadlineCheck.CheckDeadlinesUpdates` | apps/frontend/src/context/NotificationContext.tsx:98-137 | the shown set grows by exactly the emitted keys, all with non-negative buckets; the store's ids grow by exactly the emitted ids |
| `DeadlineCheck.EmittedKeyRecorded` | apps/frontend/src/context/NotificationContext.tsx:98-99 | the key of every card that passes is among the keys the call records |
| `DeadlineCheck.NothingNewOnceRecorded` | apps/frontend/src/context/NotificationContext.tsx:86-133 | a state whose shown set holds the old one and the emitted keys lets nothing through for the same cards and clock |
| `DeadlineCheck.NothingNewOnRepeat` | apps/frontend/src/context/NotificationContext.tsx:86-137 | a second check with the same cards and clock, on the state the first left, emits nothing |
| `DeadlineCheck.CheckDeadlinesIdempotent` | apps/frontend/src/context/NotificationContext.tsx:86-137 | a second check with the same cards and clock, on the state the first left, changes nothing |
| `DeadlineCheck.KeyFiresOnce` | apps/frontend/src/context/NotificationContext.tsx:87-99 | a key emitted in one call is never emitted again, in any call of any later run of polls, whatever their cards and clocks |
| `DeadlineCheck.RefiresNextMinute` | apps/frontend/src/context/NotificationContext.tsx:87-99 | a card that fires and is still inside a window one minute later is emitted again at that poll, under the next bucket |
| `DeadlineCheck.AddAllFresh` | apps/frontend/src/context/NotificationContext.tsx:135-137 | with distinct ids new to the store, the store grows by the emitted notifications in order |
| `DeadlineCheck.AddAllPreservesUniqueIds` | apps/frontend/src/context/NotificationContext.tsx:135-137 | unique ids stay unique across a check |
| `DeadlineCheck.Run` | apps/frontend/src/context/NotificationContext.tsx:106-138 | successive calls of `checkDeadlines`, each on the state the previous one left; `RunMonotone` and `KeyFiresOnce` state what a run keeps |
| `DeadlineCheck.RunMonotone` | apps/frontend/src/context/NotificationContext.tsx:106-137 | over successive checks the shown set only grows and no id leaves the store |
| `NotificationKeys.KeyText` | apps/frontend/src/context/NotificationContext.tsx:87 | the string key `${cardId}-${bucket}`; `KeyTextInjective` and `KeyTextCollidesOnNegativeBucket` state when it identifies the pair |
| `NotificationKeys.IdText` | apps/frontend/src/context/NotificationContext.tsx:123 | the string id `${card.id}-${Date.now()}`; `IdTextInjective` states when it identifies the pair |
| `NotificationKeys.KeyTextInjective` | apps/frontend/src/context/NotificationContext.tsx:87 | the string key `${cardId}-${bucket}` distinguishes keys with non-negative buckets |
| `NotificationKeys.IdTextInjective` | apps/frontend/src/context/NotificationContext.tsx:123 | the string id `${card.id}-${Date.now()}` distinguishes ids with non-negative clocks |
| `NotificationKeys.KeyTextCollidesOnNegativeBucket` | apps/frontend/src/context/NotificationContext.tsx:87 | with negative buckets two different keys share one string |
| `NotificationKeys.TextMembershipAgrees` | apps/frontend/src/context/NotificationContext.tsx:98 | on a shown set of non-negative buckets, testing the string and testing the pair agree |
| `NotificationKeys.RunKeepsBucketsNonNegative` | apps/frontend/src/context/NotificationContext.tsx:96-99 | every shown set reachable by checks from one of non-negative buckets keeps non-negative buckets |
| `NotificationPopup.ScheduleAutoDismiss` | apps/frontend/src/components/Notifications/DeadlineNotificationPopup.tsx:30-40 | low arms an 8000 ms timer and medium a 12000 ms timer on the notification's own id; high arms none |
| `NotificationPopup.Cleanup` | apps/frontend/src/components/Notifications/DeadlineNotificationPopup.tsx:42-46 | after cleanup no timer is armed |
| `NotificationPopup.Fire` | apps/frontend/src/components/Notifications/DeadlineNotificationPopup.tsx:33-39 | an armed timer dismisses its target id; anything else leaves the store alone |
| `NotificationPopup.ClearedTimerNeverDismisses` | apps/frontend/src/components/Notifications/DeadlineNotificationPopup.tsx:42-46 | a timer that went through cleanup never dismisses |
| `NotificationPopup.AutoDismissEffect` | apps/frontend/src/components/Notifications/DeadlineNotificationPopup.tsx:26-47 | a high notification stays; a low or medium one's timer removes its own id and leaves every other id's entries alone |
| `NotificationPopup.GetSeverity` | apps/frontend/src/components/Notifications/DeadlineNotificationPopup.tsx:49-60 | the severity rank equals the urgency rank: high → error, medium → warning, low → info |
| `NotificationPopup.SeverityMatchesTimer` | apps/frontend/src/components/Notifications/DeadlineNotificationPopup.tsx:26-60 | severity is one-to-one and order-preserving in urgency; the popups without a timer are exactly the error-severity ones |
| `NotificationPopup.GetPriorityColor` | apps/frontend/src/components/Notifications/DeadlineNotificationPopup.tsx:75-86 | HIGH → error, MEDIUM → warning, LOW → success, any other priority → default, each both ways |
| `NotificationPopup.HandleClose` | apps/frontend/src/components/Notifications/DeadlineNotificationPopup.tsx:88-90 | removes exactly this notification's id and keeps every other entry |
| `NotificationPopup.HandleCardClick` | apps/frontend/src/components/Notifications/DeadlineNotificationPopup.tsx:92-98 | removes exactly this notification's id and keeps every other entry |
| `NotificationPopup.CloseAndClickAgree` | apps/frontend/src/components/Notifications/DeadlineNotificationPopup.tsx:88-98 | close and click have the same effect, and closing twice is closing once |
| `BoardStatistics.GetBoardStatistics` | apps/backend/src/board/board.service.ts:43-94 | a missing board is NotFound and nothing else is; a found board echoes id, title and colour and counts its lists (what the other fields count is stated by `StatisticsStatusCounts` and `StatisticsPriorityCounts`) |
| `BoardStatistics.Flatten` | apps/backend/src/board/board.service.ts:60 | a card is in the flattened list exactly when it is in one of the lists |
| `BoardStatistics.Matches` | apps/backend/src/board/board.service.ts:62-76 | defines the five filters the statistics count by: DONE, TODO, overdue at now, open with a priority, open |
| `BoardStatistics.Count` | apps/backend/src/board/board.service.ts:62-76 | the filtered length never exceeds the number of cards |
| `BoardStatistics.CountAppend` | apps/backend/src/board/board.service.ts:62-76 | appending a card raises a count by exactly one when the card matches the filter, and leaves it unchanged otherwise |
| `BoardStatistics.CountIsPositions` | apps/backend/src/board/board.service.ts:62-76 | a count is the number of positions whose card matches the filter |
| `BoardStatistics.StatisticsStatusCounts` | apps/backend/src/board/board.service.ts:61-71 | the total is the number of cards; completed counts the positions of DONE cards, pending those of TODO cards, overdue those with a deadline set and before now that are not DONE |
| `BoardStatistics.StatisticsPriorityCounts` | apps/backend/src/board/board.service.ts:74-76 | high, medium and low count the positions of the cards of that priority that are not DONE |
| `BoardStatistics.FlattenLength` | apps/backend/src/board/board.service.ts:60-61 | the number of cards over all lists is the sum of the list sizes |
| `BoardStatistics.CompletedPlusOpen` | apps/backend/src/board/board.service.ts:62 | every card is either DONE or open |
| `BoardStatistics.OpenByPriority` | apps/backend/src/board/board.service.ts:74-76 | the open cards split by the four priority variants |
| `BoardStatistics.StatisticsCounts` | apps/backend/src/board/board.service.ts:59-92 | the total is the sum of list sizes; done plus to-do is the total when those are the only statuses; overdue and the priority breakdown stay within the open tasks, and the breakdown covers them when priorities are LOW/MEDIUM/HIGH |
| `BoardStatistics.CompletionPercentage` | apps/backend/src/board/board.service.ts:86 | 0 for an empty board, otherwise the nearest integer to 100·completed/total with halves rounded up |
| `BoardStatistics.PercentageBounds` | apps/backend/src/board/board.service.ts:86 | the percentage lies in [0, 100]; it is 0 with nothing done, 100 with everything done, and 100 exactly from 99.5% on |
| `BoardStatistics.StatisticsPercentage` | apps/backend/src/board/board.service.ts:82-86 | the served percentage lies in [0, 100], is 0 for an empty board or nothing done and 100 when everything is done |
| `TokenExpiry.Present` | apps/frontend/src/lib/isTokenExpired.ts:7 | defines JavaScript truthiness of a token: neither null nor the empty string |
| `TokenExpiry.IsTokenExpired` | apps/frontend/src/lib/isTokenExpired.ts:3-22 | a missing or empty token, or a decode failure, means expired; otherwise expired iff `exp` is present and `exp·1000 < now` |
| `TokenExpiry.RefreshTokenContentsIgnored` | apps/frontend/src/lib/isTokenExpired.ts:7-17 | any two present refresh tokens give the same answer |
| `TokenExpiry.ExpiryBoundary` | apps/frontend/src/lib/isTokenExpired.ts:13 | not expired at exactly `exp·1000`, expired one millisecond later, and expiry persists as the clock advances |
| `RoleAccess.IsAdmin` | apps/frontend/src/context/AuthContextProvider.tsx:43 | defines `isAdmin`: a user is signed in and has the role ADMIN; `GateProperties` states that the ADMIN gate agrees with it |
| `RoleAccess.RoleBasedAccess` | apps/frontend/src/components/RoleBasedAccess.tsx:9-23 | renders the children iff a user is signed in and their role is listed, and the given fallback otherwise |
| `RoleAccess.GateProperties` | apps/frontend/src/components/RoleBasedAccess.tsx:12-22 | the `['ADMIN']` gate admits exactly the admins; an empty list admits nobody; a larger list admits at least as many; no user and no fallback render nothing |

## Left out

- The polling hook (`useDeadlineMonitor.ts`) is not modelled. This covers the nested `fetch` traversal, `setInterval`/`clearInterval`, start/stop and effect re-runs, which are network and timer plumbing. `checkDeadlines` receives an abstract card list, and `Run` stands for successive polls. The hook's own pre-filter is subsumed by `ActiveCards`.
- Real clocks and timers are not modelled. `Date.now()`, `new Date(...)` parsing and `setTimeout` elapsing become an integer `now`, an `Option<int>` deadline and the chosen delay.
- The source reads the clock three times in `checkDeadlines` (lines 107, 55 and 123). The model reads it once, because the few milliseconds between the reads are not modelled.
- The model assumes that a re-render happens between successive calls to `checkDeadlines`. Two calls within one render would both read the same stale shown set.
- Card `createdAt`/`updatedAt` are omitted because no modelled rule reads them. Status and priority strings other than the known literals collapse into one variant each, because the code only compares against those literals.
- JavaScript numbers are modelled as unbounded integers. Millisecond values are far below 2^53, and `exp` is taken to be a whole number of seconds.
- BoardStatistics.CompletionPercentage: rounds the exact quotient `100·completed/total`. The source rounds the floating-point value `completed / total * 100`, and binary rounding of that value near a half is not modelled.
- The Prisma calls of `board.service.ts` (`findAll`, `findOne`, `create`, `update`, `delete`) are persistence. The board lookup in `getBoardStatistics` becomes an `Option<Board>` argument.
- `jwtDecode` and `getUserFromToken` are library or external code and are parameters here. So is the localStorage sync of the authentication context.
- Presentational parts are not modelled: the popup icon and layout, the `console.log` of the click handler, the notification container and the other components.
- Message text is a datatype (title, amount, unit, plural flag) rather than the formatted string.
