# Durood counter: counting and leaderboard core in Dafny

This project models the counting and ranking logic of the Durood Community
Counter, a Next.js app in which users tap to count recitations.

- **Tap counter.** `src/components/dashboard/zikr-counter.tsx` counts taps
  towards a target. It reports every tap to the dashboard
  (`onDailyCountUpdate`). It commits taps to the shared totals in batches of
  25, or flushes the remainder when the target is reached
  (`onBatchCommit(n)`).
- **Dashboard page.** `src/app/dashboard/page.tsx` keeps the current user's
  record (today / week / all-time counts and a last-update stamp), the list of
  all user records keyed by email, the collective total and an hourly
  leaderboard snapshot.
  - On load it zeroes a stale day or week.
  - It ranks users by today's count.
  - It counts the users active today.
- **Leaderboard card and flows.** `src/components/dashboard/leaderboard.tsx`
  and the two flows in `src/ai/flows` show the three highest-ranked users.

How each part is modelled:

- **Functions and classes.** Pure computations are functions with contracts.
  The counter component and the dashboard page are classes (`ZikrCounter.Counter`,
  `DashboardPage.Page`) whose fields are the component state. Their methods are
  proved against those functions.
- **Time.** Time is an integer number of milliseconds of local wall-clock
  time.
  - "Same day" compares day indices.
  - "Same week" compares Monday-started week indices (`Clock`).
- **Sorting.** Every ranking is the stable descending sort `StableSort.SortDesc`.
  Since ECMAScript 2019, `Array.prototype.sort` has been stable: it keeps tied
  elements in input order. `StableSort.StableSortIsUnique` proves that any
  sequence in descending key order, with ties in input order, is this sort's
  result. So the model's sort agrees with whatever algorithm the engine uses.

The code's order of the two commits in `handleIncrement` is followed here:
1. the batch-of-25 check (zikr-counter.tsx:56-61);
2. the flush at the target (zikr-counter.tsx:67-71).

A tap that both completes a batch and reaches the target therefore commits 25
once and flushes nothing.

## Model

| member | source | states |
|---|---|---|
| ZikrCounter.Tap | src/components/dashboard/zikr-counter.tsx:50-71 | an accepted tap raises the count by exactly 1 and keeps the target; it reports reaching the target iff the new count is at or above the target, and then nothing stays uncommitted |
| ZikrCounter.TapCommits | src/components/dashboard/zikr-counter.tsx:56-71 | from a valid state: at most one commit per tap, of 1 to 25; a commit of 25 exactly when 25 uncommitted taps build up; no commit exactly when under 25 and below the target; committed plus uncommitted is conserved; the uncommitted count stays in [0, 25) |
| ZikrCounter.RunConserves | src/components/dashboard/zikr-counter.tsx:50-71 | over any run of taps from a valid state: the sum of commits plus what is uncommitted equals what was uncommitted plus the taps, and every commit is in [1, 25] |
| ZikrCounter.RunBelowTarget | src/components/dashboard/zikr-counter.tsx:56-61 | from a fresh session, `n` taps below the target commit exactly `n / 25` batches of 25 and leave `n % 25` uncommitted |
| ZikrCounter.RunToTarget | src/components/dashboard/zikr-counter.tsx:67-71 | the tap reaching the target flushes the remainder: the commits are `target / 25` batches of 25 and then the remainder if it is not zero |
| ZikrCounter.RunToTargetCommitsAll | src/components/dashboard/zikr-counter.tsx:50-71 | once the target is reached from a fresh session, the commits add up to the count |
| ZikrCounter.TargetThirty | src/components/dashboard/zikr-counter.tsx:56-71 | target 30 commits 25, then flushes 5 at the target |
| ZikrCounter.TargetHundred | src/components/dashboard/zikr-counter.tsx:56-71 | target 100 commits four batches of 25, and the tap reaching the target has nothing left to flush |
| ZikrCounter.ParseTarget | src/components/dashboard/zikr-counter.tsx:86-87 | a target is accepted iff `parseInt` gives a number greater than 0, and it is that number |
| ZikrCounter.SetTarget | src/components/dashboard/zikr-counter.tsx:85-93 | an accepted target restarts the session at count 0 with nothing uncommitted; otherwise the session is unchanged; validity is kept |
| ZikrCounter.SetTargetFromText | src/components/dashboard/zikr-counter.tsx:86-91 | text starting with a positive decimal number sets that target whatever follows; zero or a negative number changes nothing |
| JsParseInt.ParseInt | src/components/dashboard/zikr-counter.tsx:86 | `parseInt(text, 10)` is NaN exactly when the first character after the leading white space and an optional sign is not a digit; a negative result only follows a `-`, a positive one never does |
| JsParseInt.ParseIntReadsDecimal | src/components/dashboard/zikr-counter.tsx:86 | `parseInt` reads back a decimal number, signed or not, after leading white space and before any non-digit text |
| JsParseInt.ParseIntNaN | src/components/dashboard/zikr-counter.tsx:86 | text whose first non-space character is not a digit or sign gives NaN |
| ZikrCounter.TapKeepsLog | src/components/dashboard/zikr-counter.tsx:50-71 | if the commits logged since the session began plus the uncommitted taps make the count, they still do once a tap's commits are logged, and every logged commit stays between 1 and 25 |
| ZikrCounter.Counter.constructor | src/components/dashboard/zikr-counter.tsx:35-40 | the counter starts at 0 of target 100, the target field reads "100", both dialogs are closed, and nothing has been reported |
| ZikrCounter.Counter.HandleIncrement | src/components/dashboard/zikr-counter.tsx:45-83 | while the debounce flag is set nothing changes and nothing is reported; an accepted tap moves the state as `Tap` says, reports exactly one daily update and the tap's commits, sets the debounce time, and opens the congratulations dialog on reaching the target; the amounts it has reported through `onBatchCommit` since the count last restarted, plus the uncommitted taps, stay equal to the count (the invariant `Valid`, kept through `TapKeepsLog`) |
| ZikrCounter.Counter.SetTargetDialogOpen | src/components/dashboard/zikr-counter.tsx:169-176 | the trigger opens the target dialog and dismissing it closes it; only the dialog flag changes |
| ZikrCounter.Counter.EditTarget | src/components/dashboard/zikr-counter.tsx:185 | typing into the target field changes only its text |
| ZikrCounter.Counter.HandleSetTarget | src/components/dashboard/zikr-counter.tsx:85-93 | the state becomes `SetTarget` of the field's text; uncommitted taps are dropped without a commit; the dialog closes either way |
| ZikrCounter.Counter.HandleCongratsDialogClose | src/components/dashboard/zikr-counter.tsx:95-100 | count and uncommitted count return to 0, the target is kept, nothing is reported, the dialog closes |
| Clock.SameDay | src/app/dashboard/page.tsx:102 | two times on the same calendar day are less than one day apart |
| Clock.SameWeek | src/app/dashboard/page.tsx:106 | two times in the same Monday-started week are less than seven days apart, and two times on the same day are in the same week |
| Clock.AddMinutes | src/app/dashboard/page.tsx:76 | adding a non-negative number of minutes never goes back in time, and adding a full day of minutes lands on the next calendar day |
| Clock.WeekStartsOnMonday | src/app/dashboard/page.tsx:106-108 | a Monday-started week ends exactly when the next day is a Monday, and week indices advance by at most one per day |
| Clock.SameWeekIsNear | src/app/dashboard/page.tsx:106-108 | two times in the same Monday-started week lie on day indices less than 7 apart |
| Aggregator.ResetOnLoad | src/app/dashboard/page.tsx:97-109 | the reset fails iff the record has no stats and the day has changed; otherwise it stamps `now`, keeps every other field and `allTime`, and each of `today` and `week` is kept or zeroed |
| Aggregator.ResetOnLoadZeroes | src/app/dashboard/page.tsx:102-108 | `today` is zeroed iff the day changed and `week` iff the Monday-started week changed, both judged against the stamp before the update; on the same day nothing changes |
| Aggregator.ResetOnLoadIdempotent | src/app/dashboard/page.tsx:97-109 | resetting twice at the same instant gives the same record as resetting once |
| Aggregator.ResetOnLoadWithoutStamp | src/app/dashboard/page.tsx:100 | a record without a stamp counts as updated now: nothing is reset |
| Aggregator.RecordTap | src/app/dashboard/page.tsx:188-196 | `today` grows by exactly 1 and the record is stamped `now`; `week`, `allTime` and the other fields are unchanged |
| Aggregator.CommitBatch | src/app/dashboard/page.tsx:215-222 | `week` and `allTime` grow by exactly `n`; `today`, the stamp and the other fields are unchanged |
| Directory.FirstIndexOf | src/app/dashboard/page.tsx:95 | the lookup finds the first record with the email, and nothing iff there is none |
| Directory.ReplaceByEmail | src/app/dashboard/page.tsx:168-169 | the `map` keeps the length and the email at every position; each record with the written email becomes the written record, every other record is kept |
| Directory.Upsert | src/app/dashboard/page.tsx:166-169 | when the email is present, every record with it becomes the written record and every other record stays where it was, so the length is unchanged; without a match the record is appended, so the length grows by 1 exactly then; the written record is in the result and is the only one with its email |
| Directory.UpsertIdempotent | src/app/dashboard/page.tsx:199-205 | writing the same record twice gives the same list as writing it once: each run of the write-back writes the list the run before it wrote |
| Directory.UpsertKeepsKey | src/app/dashboard/page.tsx:199-205 | with unique emails, the upsert keeps them unique and a lookup by the email then finds exactly the record written |
| Directory.CountActiveToday | src/app/dashboard/page.tsx:180-181 | the active-today count is never more than the number of records |
| Directory.CountActiveTodayCounts | src/app/dashboard/page.tsx:128-130 | the active-today count is the number of records stamped on the same day as now |
| Snapshot.NextUpdate | src/app/dashboard/page.tsx:76 | the next refresh is shown exactly one update interval (60 minutes) after the snapshot |
| Snapshot.Rank | src/app/dashboard/page.tsx:67 | the ranking is a permutation of the users, non-increasing in today's count (missing stats read as 0), ties in input order |
| Snapshot.RankIsTheStableSort | src/app/dashboard/page.tsx:67 | any stable descending ordering of the users by today's count is the ranking |
| Snapshot.ShouldRefreshOnLoad | src/app/dashboard/page.tsx:136 | the load recomputes the ranking iff there is no stored stamp or `now` is past the next-update time shown for it |
| Snapshot.ShouldRefreshOnTick | src/app/dashboard/page.tsx:153 | the timer recomputes iff a stamp exists and the load test would recompute; then `now` is past the shown next-update time |
| Snapshot.RefreshThrottled | src/app/dashboard/page.tsx:136 | within the hour after a snapshot, the load serves it rather than recomputing; a stale snapshot stays stale as time passes |
| Initials.InitialsOf | src/components/dashboard/leaderboard.tsx:21-23 | the initials are the upper-cased characters that start a word (not a space, first or after a space), whatever the spacing |
| Initials.GetInitials | src/app/dashboard/page.tsx:59-62 | the dashboard's version, with its empty-name guard, gives the same initials as the leaderboard's version without it |
| Initials.LaterPartsStartWords | src/components/dashboard/leaderboard.tsx:22 | the parts of `split(' ')` after the first start exactly at the characters that follow a space and are not spaces |
| DashboardPage.Page.constructor | src/app/dashboard/page.tsx:44-53 | the page starts loading, with the default user, empty lists, a zero total and no next-update time |
| DashboardPage.Page.UpdateLeaderboard | src/app/dashboard/page.tsx:65-77 | the shown and stored leaderboard become the ranking, stamped `now`, and the next update is one hour later |
| DashboardPage.ResolveUser | src/app/dashboard/page.tsx:94-119 | the load picks the first record with the logged-in email, reset in place in the list, or on the default user with the list unchanged when there is none; it fails exactly when that record's reset throws |
| DashboardPage.Page.ServeLeaderboard | src/app/dashboard/page.tsx:133-143 | the leaderboard is recomputed, stored and stamped `now` iff the stored stamp is missing or more than an hour old; otherwise the stored ranking is shown unchanged, with the next update one hour after its stamp |
| DashboardPage.Page.Load | src/app/dashboard/page.tsx:79-146 | without a logged-in email nothing changes (the redirect); when the user's reset throws nothing changes; otherwise the list and current user are `ResolveUser`'s, the stored total is shown, today's active users are counted, the leaderboard is served as `ServeLeaderboard` states, and loading ends |
| DashboardPage.Page.Tick | src/app/dashboard/page.tsx:149-161 | the timer recomputes from the stored users iff a stamp exists and it is over an hour old; otherwise nothing changes |
| DashboardPage.Page.HandleDailyCountUpdate | src/app/dashboard/page.tsx:187-209 | the current user becomes `RecordTap` of itself and is upserted into the in-memory list; the active count stays within the list |
| DashboardPage.Page.HandleBatchCommit | src/app/dashboard/page.tsx:211-223 | the collective total grows by exactly `n`, and the current user becomes `CommitBatch` of itself |
| DashboardPage.Page.PersistEffect | src/app/dashboard/page.tsx:164-184 | once loaded, the current user is upserted into the list, the list and total are stored, the current user is in the stored list, and the active count is recomputed; while loading nothing changes |
| SessionTotals.CommitAll | src/app/dashboard/page.tsx:211-223 | applying several batches adds their sum to the collective total, `week` and `allTime`, and leaves `today` and the stamp |
| SessionTotals.AfterTaps | src/components/dashboard/zikr-counter.tsx:53-71 | the counter's state after the taps seen through the dashboard callbacks is the state of the run of taps |
| SessionTotals.AfterTapsTotals | src/app/dashboard/page.tsx:187-223 | over a run of taps, `today` grows by one per tap, while the collective total, `week` and `allTime` grow by the committed sum; the stamp is the last tap's time |
| SessionTotals.SessionBelowTarget | src/components/dashboard/zikr-counter.tsx:56-61 | before the target, the shared totals grow by `(n / 25) * 25` after `n` taps, never by `n` directly, while `today` grows by `n` |
| SessionTotals.SessionToTarget | src/components/dashboard/zikr-counter.tsx:67-71 | on reaching the target every tap has reached the collective total, `week`, `allTime` and `today`, and nothing is uncommitted |
| StableSort.SortDesc | src/app/dashboard/page.tsx:67 | the sort keeps the length and returns the same elements with the same multiplicities |
| StableSort.Top | src/components/dashboard/leaderboard.tsx:25-26 | the first `n` of the sort has `min(n, len)` elements, all drawn from the input with no element taken more often than it occurs |
| StableSort.SortDescIsStableSort | src/components/dashboard/leaderboard.tsx:25 | the sort returns a permutation of its input, in non-increasing key order, with ties in input order |
| StableSort.StableSortIsUnique | src/ai/flows/generate-daily-leaderboard.ts:56 | two sequences in non-increasing key order with the same elements in the same order within each key are equal |
| StableSort.TopSelects | src/ai/flows/generate-weekly-leaderboard.ts:56-59 | the first `n` of the sort: `min(n, len)` elements, a prefix of the sorted sequence, non-increasing, distinct input positions, none left out ranked above one kept, ties in input order |
| Leaderboard.Top3Users | src/components/dashboard/leaderboard.tsx:25-26 | the card shows `min(3, len)` users: a prefix of the ranking, non-increasing in today's count, drawn from the input, with every shown user at least every user not shown, and ties in input order |
| Leaderboard.RankIsIdempotent | src/components/dashboard/leaderboard.tsx:25 | sorting an already ranked list changes nothing, so the card over the dashboard's snapshot shows the snapshot's first three |
| DailyLeaderboardFlow.GenerateDailyLeaderboard | src/ai/flows/generate-daily-leaderboard.ts:56-61 | `min(3, len)` entries, a prefix of the stable sort by count, non-increasing, unchanged entries at distinct input positions, none omitted with a higher count, ties in input order |
| WeeklyLeaderboardFlow.GenerateWeeklyLeaderboard | src/ai/flows/generate-weekly-leaderboard.ts:56-61 | the same selection as the daily flow: `min(3, len)` entries, a prefix of the stable sort by count, unchanged entries at distinct input positions, none omitted with a higher count, ties in input order |

## Left out

- Browser storage is an in-memory `Store` value. JSON encoding, the `users`, `leaderboardUsers` and timestamp strings, and `router.push` to the login page (a `Redirected` outcome here) are not modelled.
- The stored collective total is an integer in the `Store`. Its `parseInt` from storage is not modelled, because the page only ever stores decimal numbers there.
- Profile pictures are not part of the model: not the record field, not their separate storage, and not their hydration on load and for the leaderboard card.
- React scheduling is not modelled. Each method is one callback or effect with its state updates applied. The write-back effect is a method the caller runs after each change. Stale closures and batched renders are not modelled.
- The debounce timer is a last-accepted time. A tap is accepted 100 ms or more after the last accepted one; the possible lateness of the `setTimeout` callback is not modelled.
- Wall-clock reads are parameters. The several `new Date()` calls inside one callback share one `now`.
- date-fns is replaced by day and Monday-week indices of local time. Time zones and daylight-saving shifts are not modelled.
- The `stats` object is a record of three natural numbers. A stats object missing some of its counters is read as having them at 0, as every reader in the core does with `?? 0`.
- Counts are unbounded integers. JavaScript doubles lose integer precision above 2^53, and that is not modelled.
- `parseInt` results are exact integers. Double rounding of very long digit runs is not modelled, and `-0` reads as 0.
- `toUpperCase` in the initials maps ASCII letters only. Other Unicode case mappings, including ones that change length, are not modelled. A string is a sequence of Unicode scalar values, not of UTF-16 code units: for a name part that starts with a character outside the Basic Multilingual Plane (an emoji, say), the source's `n[0]` takes a lone high surrogate, while `Initials.FirstChars` takes the whole character.
- The two leaderboard flows model only their bodies. The genkit `ai.defineFlow` wrapper and the zod schemas are not modelled, and `zikrCount` is an integer rather than any number.
- Lost updates between browser sessions that write back the whole user list are not modelled, because that is concurrency across sessions.
- Dialog contents, confetti, vibration, toasts, image export, the progress percentage and date formatting are not modelled.
- DashboardPage.Page.PersistEffect: models one run of the write-back effect. In the source every run hands `setAllUsers` a new array, and `allUsers` is among the effect's dependencies (src/app/dashboard/page.tsx:172, 184), so React runs the effect again after every run, without end, rewriting storage each time. The model does not capture that re-run loop; `Directory.UpsertIdempotent` shows only that each run writes the same list as the run before it.
- ZikrCounter.Counter: the calls to the two dashboard callbacks are recorded as two logs: a count of daily updates and the list of commit amounts. Their interleaving within one tap (daily update first) is stated by `SessionTotals.AfterTaps`, not by the class.
