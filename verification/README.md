# InboxPilot: a Dafny model of its algorithms and protocols

InboxPilot reads a user's Gmail and Google Calendar, sorts mail into categories, drafts replies, and
bills by subscription. It has no single kernel. Its difficulty lies in a dozen compact algorithms and
protocols whose only memory is a Redis key, a Gmail label or one database row, and whose remote calls can
fail at any moment, before or after taking effect. Each has a module here.

| module | what it covers |
|---|---|
| `Calendar`, `Bookings` | free working-hour slots and double bookings: nested loops, a moving cursor, early breaks |
| `Redis`, `RateLimit`, `Claims`, `Locks` | the fixed-window limiter, `SET NX EX` claims, and the `single_run` lock, for any number of workers on one clock |
| `GoogleClient`, `FollowUp`, `Drafts`, `Quota` | the authorised request loop, quiet threads, the draft passes over one mailbox, and the monthly cap |
| `Billing` | webhooks in any order, checkout, cancel, and the trial deadline |
| `Credentials`, `ConnectionCache` | guarded token writes to a shared row, and 60-second snapshots of it in many processes |
| `Mailman` | delivery slots, do-not-disturb, and runs of minute ticks |
| `Gmail`, `Poll`, `Losses` | paged listings, history and chunked label changes; the cursor-and-claim protocol that finds new mail, and exactly when it loses some |
| `Taxonomy`, `Categorization`, `Labels` | categories, rules and fallback; deciding one message; exclusive labels on a thread |
| `Render`, `Mime`, `Walk` | Markdown blocks, base64url re-padding, flattening a payload |
| `Ordering`, `Filtering`, `Wrappers`, `Mail` | stable sorting, what a filter keeps, `Option`, and the message record |

Code that changes state step by step is a class or a method with its loops, tied by `ensures` to a function
of the old state. Code that only computes is a function. The laws are lemmas about those functions, over all
inputs and all runs. Runs are sequences of atomic steps: a database transaction, a Redis command or a remote
call is one step, and which step comes next, and whether it fails, is arbitrary. Times are integers at one
fixed UTC offset.

Remote outcomes, clocks, model answers, Unicode case folding, pattern tests and inline formatting are
parameters.

## Where the code departs from its documentation, or may surprise

The model follows the code.

- `src/core/ratelimit.py:8-10`: the documented "up to 2x the limit" across a boundary is never reached within one
  half-open window's length: the sharp bound is `2 * limit - 1` (`RateLimit.TraceBound`, `RateLimit.BoundMet`).
  If the `EXPIRE` that follows a first hit never lands, the count never resets and every hit beyond the limit is
  refused for good (`RateLimit.LostExpireSticks`).
- `src/core/locks.py:52-55`: the lock excludes exactly as long as no run reaches its lifetime
  (`Locks.ExcludesExactly`). It is deleted unconditionally, so a late run frees another run's lock
  (`Locks.LateReleaseFreesAnother`); `Locks.RunsBound` says how much that can cost.
- `src/integrations/google/client.py:126-130`: a first 401 met on the fourth attempt refreshes the token but is
  never retried (`GoogleClient.ExhaustedExactly`).
- `src/services/drafts/sweep.py:137-212`: the count a pass stops by leaves out drafts whose marking failed, whose
  response was lost or whose response had no id. So a pass can make more drafts than its limit
  (`Drafts.LimitMissesUnmarked`), unless its categories together hold no more mail to try than that
  (`Drafts.SweepLimitExactly`). A nudge pass can too (`Drafts.NudgeLimitExactly`).
  `Drafts.SweepSafe` accounts for each draft, and `Drafts.CalmPass` is the case in which the count is exact.
- `src/api/v1/billing.py:119-134`: the report of an available trial agrees with what a checkout grants exactly when
  the user has no row or a consumed one (`Billing.ReportAgrees`).
- `src/api/v1/billing.py:360-364`: a row made by a first checkout has status `authenticated`, not `created` as the
  comment says.
- `src/services/billing/webhooks.py:155-160`: a relinking event takes over the subscription id before the staleness
  test, so even an event found stale leaves its id behind (`Billing.StaleKeepsRowExactly`).
- `src/api/v1/billing.py:400-407`: whether a cancel takes effect at the end of the cycle is decided before Razorpay is
  asked. One begun in the trial ends access at once, even if the subscription became active meanwhile
  (`Billing.CancelExactly`, `Billing.LateCancelLocksOut`).
- `src/integrations/google/credentials.py:122-136`: a snapshot is stamped after the row is read. Two threads of one
  process can leave the older row cached after their process's own write (`ConnectionCache.ThreadsCanRace`).
  A commit is safe exactly when none of its process's loads is in flight (`ConnectionCache.CommitSafeExactly`). For
  the same reason "60 seconds" is 60 seconds plus the time of a load.
- `src/workers/jobs/mailman_tick.py`: nothing is delivered within 90 seconds of the last delivery, so of two
  wanted minutes in a row only the first delivers (`Mailman.SlotTick`, `Mailman.AllDeliveredExactly`). The delivery
  is stamped before the mail is released, so a release that fails is not retried until the next one is due
  (`Mailman.AllReleasedExactly`, `Mailman.FailedReleaseWaits`).
- `src/workers/jobs/gmail_poll.py:231-233`: a crash before the cursor moves does replay the batch, but the claim taken
  before the hand-off makes the replay skip the message (`Losses.CrashLosesMail`). Of claimed mail a crash loses exactly
  the message its worker holds between the two (`Losses.CrashLosesExactly`), for as long as the claim lasts
  (`Losses.StrandedForGood`).
- `src/workers/jobs/gmail_poll.py:238-273`: a poll that resets the cursor moves it before it dispatches the recent mail,
  so nothing replays that mail after a crash (`Losses.CatchUpCrashLosesMail`). What its batch still held unread is lost
  unless another worker is yet to come to it (`Losses.CatchUpCrashLosesExactly`, `Losses.ForgottenExactly`). A listing that
  fails after the reset is a reset that lists nothing.
- `src/workers/jobs/gmail_poll.py:208-212`: the cursor moves past what the cap of 200 messages, or of 20 pages, left
  out (`Losses.BacklogLoses`, `Losses.BatchCoversExactly`, `Gmail.HistoryCompleteExactly`).
- `src/workers/jobs/gmail_poll.py:264-292`: while Redis is down no command is meant to pass, but a poll that has reset
  the cursor dispatches mail without its labels, so it takes no message for a command and lets each through
  unguarded (`Losses.UnguardedCommandExactly`). No other poll does (`Losses.CommandsGuarded`).
- `src/integrations/google/credentials.py:400-437`: a reset of the cursor between two advances breaks their chain
  (`Credentials.ResetBreaksChain`, `Credentials.ChainExactly`).
- `src/services/mailman/gmail_ops.py:61-63`: nothing clears the label cache, so an id outlives its label for as long as
  the process lives (`Labels.CachedFromLatest`).
- `src/services/mailman/gmail_ops.py:144-150`: a label name that does not resolve is skipped as it cannot be on the
  message. But a name is also unresolved when the listing fails, and then an older category label stays on beside the
  new one (`Labels.ExclusiveExactly`, `Labels.AlwaysClearsExactly`).
- `src/api/v1/categorization.py:135-144`: a patch that flips the archive switch and nulls a column queues the move of
  labelled mail, although the row is not written (`Taxonomy.Store.UpdateCategory`).
- `src/core/idempotency.py:67`: the cap of five replies is per key lifetime; over an arbitrary hour it is nine
  (`Claims.RepliesPerHour`).
- `src/integrations/google/calendar.py:191-192`: busy time is fetched up to `now + days`, while the windows of that
  last day are scanned too. Slots are disjoint from the fetched busy list; what that means for the calendar itself is
  said by `Calendar.TrulyFreeExactly`, `Calendar.SurelyFreeExactly` and `Calendar.OnlyLastDayAtRisk`.

## Model

| member | source | states |
|---|---|---|
| `Calendar.SweepWindow` | src/integrations/google/calendar.py:201-210 | The cursor walk over one working window appends exactly the gaps the recursive specification gives, skipping periods behind the cursor or past the window. |
| `Calendar.FreeSlots` | src/integrations/google/calendar.py:177-213 | For any busy list, day count, hours and cut, the early break and the slice return exactly the first `max_slots` of the uncut list over all working windows; negative cuts behave as Python's slice does. |
| `Calendar.FreeSlotsExact` | src/integrations/google/calendar.py:177-213 | The uncut list is in time order without overlap; each slot lies between the two hours of a Monday to Friday from today to `days` ahead, not before now, is long enough and meets no busy period; every such free interval lies in a slot; and no slot can be stretched. |
| `Calendar.WindowsExact` | src/integrations/google/calendar.py:195-200 | The windows scanned are exactly the working hours, by clock and weekday, of the days from today to `days` ahead. |
| `Calendar.WindowSlotsExact` | src/integrations/google/calendar.py:201-210 | In one window the gaps are sound, complete and ordered. |
| `Calendar.UncutMaximal` | src/integrations/google/calendar.py:177-213 | A usable free interval around a slot is that slot. |
| `Calendar.StopEarly` | src/integrations/google/calendar.py:211-213 | Once enough slots are in hand, later windows cannot change the first `max_slots`. |
| `Calendar.TrulyFreeExactly` | src/integrations/google/calendar.py:191-192 | An interval free of the fetched periods is free of the whole calendar if and only if no period that runs past the fetch horizon meets it; one that ends by the horizon always is. |
| `Calendar.SurelyFreeExactly` | src/integrations/google/calendar.py:191-192 | Such an interval is free whatever the calendar holds beyond the horizon, if and only if it ends by it. |
| `Calendar.OnlyLastDayAtRisk` | src/integrations/google/calendar.py:177-213 | A slot that the whole calendar does not leave free lies in the working window of the last day scanned. |
| `Bookings.AddClashes` | src/integrations/google/calendar.py:126-131 | The inner loop with its break reports every later event that overlaps the current one. |
| `Bookings.BreakLosesNothing` | src/integrations/google/calendar.py:128-129 | In start order, nothing after the first late start overlaps the current event. |
| `Bookings.FindDoubleBookings` | src/integrations/google/calendar.py:110-132 | Both loops, breaks included, read off the names of all overlapping pairs in sorted order. |
| `Bookings.ReportExact` | src/integrations/google/calendar.py:110-132 | Whatever the input order, the report is exactly the unordered pairs of overlapping timed events, each once. |
| `Bookings.TimedExact` | src/integrations/google/calendar.py:115-120 | Every event with bounds is compared, in order, under its summary or the stand-in for one, and no other is. |
| `Bookings.PairsAscend` | src/integrations/google/calendar.py:124-132 | The report goes through the sorted events, by the first event of a pair and then by the second. |
| `Bookings.SortedTimed` | src/integrations/google/calendar.py:121-121 | The events are gone through by start, then end, then name in code-point order. |
| `RateLimit.Allow` | src/core/ratelimit.py:28-36 | One hit: the count after it, the key's new value and lifetime, and failing open when either Redis call fails. |
| `RateLimit.RunInv` | src/core/ratelimit.py:28-36 | Over every trace, lifetimes start at least a window apart and the hits of each are numbered from one. |
| `RateLimit.TraceBound` | src/core/ratelimit.py:28-36 | Over every trace of hits and delayed EXPIREs from an empty key, any span one window long lets at most 2 × limit − 1 hits through. |
| `RateLimit.Straddle` | src/core/ratelimit.py:28-36 | Hits of two lifetimes within one window's length are of consecutive ones, and the earlier one's first hit lies before them. |
| `RateLimit.BoundMet` | src/core/ratelimit.py:28-36 | For every limit of at least one and every window of at least two ticks there is a trace that meets the bound. |
| `RateLimit.SilenceResetsExactly` | src/core/ratelimit.py:30-33 | After a silent window the next hit opens a fresh lifetime if and only if no EXPIRE is still owed. |
| `RateLimit.LostExpireSticks` | src/core/ratelimit.py:30-33 | If the EXPIRE never lands, the count grows for ever, however late the hits. |
| `Claims.ClaimEvent` | src/core/idempotency.py:37-53 | A claim succeeds exactly when the key is not live, and then sets it for a day; otherwise it changes nothing. |
| `Claims.AllowReply` | src/core/idempotency.py:66-72 | The reply count, its lifetime, and the cap of five. |
| `Claims.KeysApart` | src/core/idempotency.py:37-73 | Different events have different keys, and no event key is a reply key. |
| `Claims.WinsExactly` | src/core/idempotency.py:37-53 | Over any attempts by any workers, an attempt wins if and only if every earlier win is at least one lifetime old. |
| `Claims.RepliesPerHour` | src/core/idempotency.py:66-72 | In any hour at most nine replies are let through. |
| `Locks.Enter` | src/core/locks.py:47-51 | The lock is taken exactly when no live key exists. |
| `Locks.Exit` | src/core/locks.py:52-55 | Leaving deletes the key, whoever holds it. |
| `Locks.RunsBound` | src/core/locks.py:23-55 | Over every interleaving the concurrent runs number at most the live key plus the expiries so far. |
| `Locks.MutualExclusion` | src/core/locks.py:23-55 | While no run outlasts its lifetime, at most one run is inside and the key is its own. |
| `Locks.ExcludesExactly` | src/core/locks.py:23-55 | For every lifetime and duration: all interleavings of runs that stay no longer than the duration are exclusive if and only if the duration is below the lifetime. |
| `Locks.LateReleaseFreesAnother` | src/core/locks.py:52-55 | Whatever the lifetime, one late release lets two punctual runs overlap. |
| `Locks.BoundMet` | src/core/locks.py:23-55 | For every lifetime and number of expiries some interleaving meets the bound. |
| `GoogleClient.Request` | src/integrations/google/client.py:92-148 | Exactly which attempts are followed by another, how many are made, and how the call ends, for any answers, down to the status and reason each ending stands for. |
| `GoogleClient.AtMostOnce` | src/integrations/google/client.py:92-148 | A non-idempotent request is carried out at most once: at most two are sent, the first answered 401. |
| `GoogleClient.OnceIs` | src/integrations/google/client.py:92-148 | What `Request` promises determines the end of a non-idempotent call. |
| `GoogleClient.ExhaustedExactly` | src/integrations/google/client.py:92-148 | The call gives up after a refresh it never uses if and only if it may be repeated, the refresh works, the first three answers are transient and the fourth is the first 401. |
| `GoogleClient.RepeatsExactly` | src/integrations/google/client.py:92-148 | A request that may be repeated and meets no 401 goes on exactly while it gets no answer, a 429, a 5xx or a rate-limiting 403, and at most four times. |
| `GoogleClient.RefreshTooLate` | src/integrations/google/client.py:126-130 | One such run of answers and its end. |
| `FollowUp.LatestInbound` | src/services/drafts/follow_up.py:42-51 | The newest date of each thread, for exactly the threads with dated mail. |
| `FollowUp.FindQuietThreads` | src/services/drafts/follow_up.py:77-96 | The loop over sorted sent mail equals the specification read along that order. |
| `FollowUp.FirstIsLastWord` | src/services/drafts/follow_up.py:84-95 | In the sorted order a message is the first usable one of its thread exactly when it is the thread's newest, the earlier one winning a tie. |
| `FollowUp.QuietExact` | src/services/drafts/follow_up.py:54-96 | A threaded sent message is reported exactly when it is its thread's last usable word and no inbound mail is later; once per thread, newest first. |
| `Drafts.Account.CreateAndMark` | src/services/drafts/create.py:126-166 | Create, then mark, then meter; the whole new state for every way the calls can fail. |
| `Drafts.Account.DraftReply` | src/services/drafts/create.py:169-234 | The configuration gate, then one draft call; declined mail is marked. |
| `Drafts.Account.DraftFollowUp` | src/services/drafts/create.py:237-282 | The same call behind the follow-up gate. |
| `Drafts.Account.SweepCategory` | src/services/drafts/sweep.py:174-203 | The inner loop with its skips and its break equals trying each wanted message in turn up to the limit. |
| `Drafts.Account.SweepUser` | src/services/drafts/sweep.py:137-212 | One scheduled pass equals its specification, each category fetched when its turn comes. |
| `Drafts.Account.NudgeUser` | src/services/drafts/follow_up.py:99-154 | One nudge pass equals its specification. |
| `Drafts.Account.Live` | src/services/drafts/sweep.py:137-212 | Any script of passes and mailbox changes equals the run that the laws below speak of. |
| `Drafts.OneCall` | src/services/drafts/create.py:126-234 | However its remote calls fail, one draft call leaves at most one unexplained draft, and then the marker is on. |
| `Drafts.CallExactly` | src/services/drafts/create.py:126-234 | What a call does by how it goes: nothing without plan or recipient or when it fails early; declined mail is only marked; else a draft per create that Google carried out, and no marker unless the answer arrived. |
| `Drafts.TryAllSafe` | src/services/drafts/sweep.py:174-203 | Trying distinct unmarked messages keeps the conservation law, stays within the limit, and accounts for every draft made and metered. |
| `Drafts.SweepSafe` | src/services/drafts/sweep.py:61-212 | A scheduled pass keeps the law, counts at most `effective_limit` drafts, and touches only unmarked mail of chosen, enabled categories outside the threads its lookup found answered. |
| `Drafts.AnsweredSpared` | src/services/drafts/sweep.py:86-113 | In message fields alone: no message of a thread gains a draft or the marker if the user sent into it within two days, as far as the lookup works and reads. |
| `Drafts.DueReached` | src/services/drafts/sweep.py:174-203 | In message fields alone: a pass that meets no failure and ends below its limit has marked all mail due in every chosen category, up to the fetch cap, in threads the user has not answered. |
| `Drafts.SwitchedOff` | src/services/drafts/sweep.py:137-172 | Switched off, or with no category chosen, a pass touches nothing; nor does a nudge pass without its own switch. |
| `Drafts.NudgeSafe` | src/services/drafts/follow_up.py:54-154 | A nudge pass keeps the law, counts at most its limit, and touches only unmarked sent mail of its window. |
| `Drafts.AnsweredNotNudged` | src/services/drafts/follow_up.py:54-154 | In message fields alone: sent mail that a later message the pass reads answers gains neither draft nor marker. |
| `Drafts.QuietReached` | src/services/drafts/follow_up.py:54-154 | A nudge pass that meets no failure and ends below its limit has marked the newest sent mail of the window in each thread it reads that nothing it reads answers. |
| `Drafts.NudgeLimitExactly` | src/services/drafts/follow_up.py:99-154 | However its calls go, a nudge pass that gets to its mail makes no more drafts than its limit if and only if it reports no more quiet messages than that, or the limit is zero. |
| `Drafts.AlwaysSound` | src/services/drafts/create.py:126-234 | Over any run, a message's drafts number at most one if marked (else none) plus its failed markings, its lost responses, and the times its marker was lifted. |
| `Drafts.CalmPass` | src/services/drafts/sweep.py:174-203 | When nothing goes wrong and the limit has room, every message tried ends up marked and the count is the number of drafts. |
| `Drafts.LimitHoldsExactly` | src/services/drafts/sweep.py:174-203 | However its calls go, a pass over a list makes no more drafts than its limit if and only if the list is no longer than that, or the limit is zero. |
| `Drafts.SweepLimitExactly` | src/services/drafts/sweep.py:137-212 | The same of a whole scheduled pass over any categories, judged by the mail all of them would try in the mailbox it starts from. |
| `Drafts.LimitMissesUnmarked` | src/services/drafts/create.py:137-143 | On a mailbox of two candidates with a budget of one, a scheduled pass makes two drafts and counts one. |
| `Drafts.LimitStops` | src/services/drafts/sweep.py:175-176 | Breaking off at the limit changes nothing. |
| `Drafts.EffectiveLimit` | src/services/drafts/sweep.py:119-134 | Never negative, never over the ceiling, never over the budget. |
| `Quota.UsageTable.GetOrCreate` | src/services/billing/usage.py:25-60 | A month's counter is created once and never reset. |
| `Quota.UsageTable.AddDrafts` | src/services/billing/usage.py:103-130 | The credit lands on the month's counter and on nothing else; metering in the runs below is this credit of one. |
| `Quota.UsageTable.AddBotSeconds` | src/services/billing/usage.py:62-100 | Bot seconds land beside the drafts of the same row. |
| `Quota.CapBound` | src/services/drafts/create.py:46-92 | With N workers interleaving check, create and meter, no month exceeds the cap by more than N − 1. |
| `Quota.CounterExact` | src/services/billing/usage.py:103-130 | A month's counter is its starting value plus the meterings that fell in it, whatever other credits the table takes. |
| `Quota.OvershootMet` | src/services/drafts/create.py:46-92 | For every cap and N some interleaving reaches cap + N − 1. |
| `Billing.Ledger.HandleEvent` | src/services/billing/webhooks.py:67-160 | When an event is ignored, stale or applied, and the row it leaves, relinking included. |
| `Billing.HoldsNewest` | src/services/billing/webhooks.py:94-110 | After any deliveries of own events the row holds the status and period of the one with the largest period end. |
| `Billing.OrderIrrelevant` | src/services/billing/webhooks.py:94-110 | The same events in any order with any duplicates leave the same status and period. |
| `Billing.OrdersAgreeExactly` | src/services/billing/webhooks.py:94-110 | For any events with a status, period or none: the period never depends on the order, and the status does not if and only if all events that are never stale report the same one. |
| `Billing.StatusSettled` | src/services/billing/webhooks.py:94-110 | After any deliveries the status is that of the last event that names no period or the latest one. |
| `Billing.RedeliveryIdle` | src/services/billing/webhooks.py:67-160 | Delivering an event twice in a row equals once, stale or not, relinked or not. |
| `Billing.StaleKeepsRowExactly` | src/services/billing/webhooks.py:85-102 | A stale event leaves the row as it was if and only if the row already carried its subscription id; otherwise it changes that id and nothing else. |
| `Billing.CustomerSettled` | src/services/billing/webhooks.py:89-113 | After any deliveries the customer is the one that the last event in time to name one named, and nothing beyond status, period and customer was written. |
| `Billing.AccessAfterWebhook` | src/services/billing/webhooks.py:104-108 | After an event in time that reports a status, access is that status's alone, a trial's until its deadline, unless the row is comped. |
| `Billing.NewRowNoTrial` | src/services/billing/webhooks.py:116-160 | A row that a webhook makes gives access only through an active or pending status it reports. |
| `Billing.Ledger.StartCheckout` | src/api/v1/billing.py:217-388 | When a checkout is refused, the row it writes, and a start time only beyond the lead time. |
| `Billing.Ledger.Cancel` | src/api/v1/billing.py:392-411 | When there is nothing to cancel, and what a cancel writes at once or at cycle end. |
| `Billing.CancelExactly` | src/api/v1/billing.py:392-411 | Over any run between its decision and its write: a cancel decided on an active or pending subscription sets the flag and leaves access as it is at every instant; any other ends access there and then unless comped; every other column stays. |
| `Billing.LateCancelLocksOut` | src/api/v1/billing.py:400-407 | A run in which a cancel decided in the trial ends the access of a subscription that became active before it was written. |
| `Billing.Ledger.GetOrCreate` | src/services/billing/store.py:17-44 | A missing row is made with its trial; an existing one is returned untouched. |
| `Billing.ReportAgrees` | src/api/v1/billing.py:119-134 | The reported trial equals what a checkout grants if and only if there is no row or a consumed one. |
| `Billing.OneTrial` | src/services/billing/access.py:21-36 | Over every run, access through `authenticated` ends at the one deadline fixed when a trial was first granted; a row a webhook made never has it. |
| `Billing.PeriodNeverBack` | src/services/billing/webhooks.py:94-110 | The period end never moves back over any mix of webhooks, checkouts and cancels. |
| `Billing.CheckoutKeepsAccess` | src/api/v1/billing.py:254-375 | In every reachable state a checkout that goes through at once takes no access away. |
| `Billing.CheckoutKeepsExactly` | src/api/v1/billing.py:254-375 | Over all rows: an at-once checkout of an entitled, unrefused row keeps its access if and only if it is comped, not in trial, or its trial is consumed. |
| `Credentials.Connections.GetConnection` | src/integrations/google/credentials.py:122-136 | A snapshot younger than 60 seconds is served; otherwise the row is, and is cached. |
| `Credentials.Connections.PersistRefreshed` | src/integrations/google/credentials.py:281-322 | The guarded write: an older token never replaces a newer one, rotation is unconditional, the snapshot goes. |
| `Credentials.RotationKept` | src/integrations/google/credentials.py:281-369 | Over any writes, the refresh token is that of the last refresh or grant to carry one since the row began, even when that refresh's access token lost to a newer one. |
| `Credentials.Connections.StoreGrant` | src/integrations/google/credentials.py:330-369 | A grant replaces the pair, clears the revocation, and keeps an old refresh token when none is given. |
| `Credentials.Connections.MarkRevoked` | src/integrations/google/credentials.py:372-397 | A revocation drops the access token only; the snapshot goes even if the write fails. |
| `Credentials.Connections.AdvanceHistoryId` | src/integrations/google/credentials.py:413-437 | The cursor moves exactly if it still is what the caller read. |
| `Credentials.OnlyGrantsRevive` | src/integrations/google/credentials.py:281-397 | Between grants no write clears the revoked flag, moves the expiry back or brings a deleted row back. |
| `Credentials.LatestExpiryWins` | src/integrations/google/credentials.py:281-322 | Between grants and revocations the stored pair is the latest-expiring on offer, the first committed on a tie. |
| `Credentials.CommitOrderIrrelevant` | src/integrations/google/credentials.py:281-322 | The same refreshes in any commit order, with any repeated, leave the same pair, provided that those of the latest expiry carry one token. |
| `Credentials.CommitOrderExactly` | src/integrations/google/credentials.py:281-322 | All commit orders leave the same pair if and only if the refreshes that expire latest, and after the stored token, carry one token, or there is no row. |
| `Credentials.Connections.SetHistoryId` | src/integrations/google/credentials.py:400-410 | A reset overwrites the cursor; a seed leaves a set one alone. |
| `Credentials.Connections.SetWatchExpiry` | src/integrations/google/credentials.py:440-451 | A watch's end is recorded on an existing row, its other columns stay, and the snapshot goes. |
| `Credentials.Connections.Disconnect` | src/integrations/google/credentials.py:512-527 | The row goes, cursor and all. |
| `Credentials.CursorChain` | src/integrations/google/credentials.py:400-437 | A successful advance starts where the last write to take effect on the cursor left it, be that an advance, a reset or a disconnect. |
| `Credentials.ChainExactly` | src/integrations/google/credentials.py:400-437 | Successive successful advances join if and only if no reset took effect between them, or the last one set that very cursor. |
| `Credentials.ResetBreaksChain` | src/workers/jobs/gmail_poll.py:238-255 | A reset between two advances breaks the plain chain. |
| `ConnectionCache.AnswersRecent` | src/integrations/google/credentials.py:122-136 | Over any run of processes and threads, every answer is the row as it stood within the last 60 seconds plus the time of a load. |
| `ConnectionCache.ReadsOwnWrites` | src/integrations/google/credentials.py:105-136 | A process that acts serially never sees a state older than its own latest write. |
| `ConnectionCache.CommitSafeExactly` | src/integrations/google/credentials.py:105-136 | A commit is followed by up-to-date answers in every serial continuation if and only if none of the process's own loads is in flight at it. |
| `ConnectionCache.ThreadsCanRace` | src/integrations/google/credentials.py:122-136 | Two threads of one process can. |
| `Mailman.DndIsCyclic` | src/services/mailman/scheduler.py:48-60 | A minute is quiet exactly when it is less than the window's length past its start, modulo a day. |
| `Mailman.QuietEnds` | src/services/mailman/scheduler.py:48-60 | From any minute the quiet stretch ends within its own length. |
| `Mailman.WantedExactly` | src/services/mailman/scheduler.py:28-45 | A slot mode wants exactly the minutes of the day listed, or the window's start and the whole steps from it, outside the quiet stretch. |
| `Mailman.TimesSlots` | src/services/mailman/scheduler.py:28-45 | Times mode gives as many slots as asked for, inside the window, if and only if it has a minute for each; otherwise one. |
| `Mailman.IntervalNext` | src/services/mailman/scheduler.py:63-82 | In interval mode the next delivery is exactly the first minute past the interval that is not quiet and whose lookup works. |
| `Mailman.IntervalComes` | src/services/mailman/scheduler.py:63-82 | When lookups work it does come, no later than the interval plus the quiet stretch. |
| `Mailman.IntervalGap` | src/services/mailman/scheduler.py:63-82 | Any two successive deliveries are at least the interval apart, and at most that plus the quiet stretch when lookups work. |
| `Mailman.IntervalInMinutes` | src/services/mailman/scheduler.py:75-80 | Two successive deliveries are the minutes set, or else the hours set, apart when nothing else holds the second back, except that one minute counts as two. |
| `Mailman.SlotTick` | src/workers/jobs/mailman_tick.py:28-78 | In the slot modes a tick stamps a delivery exactly if its minute is wanted, its lookup works, and the minute before stamped none. |
| `Mailman.AllDeliveredExactly` | src/workers/jobs/mailman_tick.py:40-59 | Every ready minute is stamped as delivered in every run if and only if no two ready minutes are neighbours. |
| `Mailman.AllReleasedExactly` | src/workers/jobs/mailman_tick.py:40-71 | Every ready minute whose release works does release in every run, if and only if none of them has a ready minute right before it, whether or not that one's own release works. |
| `Mailman.FailedReleaseWaits` | src/workers/jobs/mailman_tick.py:59-71 | In interval mode, mail whose release failed waits at least the whole interval before any release. |
| `Mailman.TimesDelivered` | src/services/mailman/scheduler.py:28-82 | Times mode delivers exactly its slots outside the quiet stretch when there is one slot or two minutes for each; without quiet stretch and failures, only then. |
| `Taxonomy.Store.CreateCategory` | src/api/v1/categorization.py:207-278 | Each refusal in its order, and the row added when there is none; a failed label leaves no row. |
| `Taxonomy.Store.UpdateCategory` | src/api/v1/categorization.py:89-146 | Each refusal in its order, the one row changed, merged actions, and the move of labelled mail queued when the archive switch flips, even if the write then fails. |
| `Taxonomy.Store.RemoveCategory` | src/api/v1/categorization.py:281-292 | Built-ins stay; a custom category goes with its rules and the fallback on it. |
| `Taxonomy.Store.CreateRule` | src/api/v1/categorization.py:314-331 | An assigning rule must name a category; a new rule goes last. |
| `Taxonomy.Store.UpdateRule` | src/api/v1/categorization.py:334-352 | The rule as it would be after the update is what is checked; every field given is written, and a null that no column takes fails. |
| `Taxonomy.Store.ReorderRules` | src/api/v1/categorization.py:364-380 | Refused unless every rule is listed once; then position is priority. |
| `Taxonomy.Store.UpdateSettings` | src/api/v1/categorization.py:154-177 | Only an allowed model and an existing fallback are taken, a null switch or threshold fails the write, and otherwise exactly the columns given are written. |
| `Taxonomy.Store.Serve` | src/api/v1/categorization.py:83-380 | Any sequence of requests keeps keys, labels and normalised names distinct and every rule target and fallback existing. |
| `Taxonomy.BuiltinsApart` | src/services/categorization/store.py:33-70 | The six built-ins are distinct in all three respects under any case folding that lowers ASCII. |
| `Taxonomy.SeededExact` | src/services/categorization/store.py:33-70 | A taxonomy without categories is seeded with the six built-ins in order; any other is left alone. |
| `Taxonomy.StripExact` | src/api/v1/categorization.py:219-255 | Names and values lose their outer blanks and nothing else. |
| `Taxonomy.PatchedExact` | src/api/v1/categorization.py:89-146 | A category takes exactly what the patch gives, switch by switch; its key, label and origin never move; mail is queued to move exactly if the archive switch is given the other way. |
| `Taxonomy.PatchedRuleExact` | src/api/v1/categorization.py:334-352 | A rule takes exactly what the patch gives; a null only clears its category. |
| `Taxonomy.PatchedPrefsExact` | src/api/v1/categorization.py:154-177 | Settings take exactly what the patch gives; a null clears the model or the extra instructions. |
| `Taxonomy.TargetExactly` | src/api/v1/categorization.py:295-311 | A rule is taken, or left by an update, exactly if it excludes or names a category there is. |
| `Taxonomy.DeleteSound` | src/services/categorization/store.py:123-140 | Deleting a category leaves a sound taxonomy without it. |
| `Taxonomy.WriteOrder` | src/api/v1/categorization.py:378-379 | The loop writes each listed position into the rule it names. |
| `Taxonomy.ReorderObeyed` | src/services/categorization/store.py:79-86 | After a reorder, rules are evaluated in the order the request gave. |
| `Taxonomy.ReorderTakenExactly` | src/api/v1/categorization.py:364-376 | A reorder is taken exactly if it lists every rule, no other, and none twice. |
| `Taxonomy.NewRuleLast` | src/services/categorization/store.py:99-104 | A new rule is evaluated after every existing one. |
| `Categorization.MatchRule` | src/services/categorization/rules.py:63-74 | The rule found is the first enabled fitting one by priority, then age. |
| `Categorization.TargetNeverMissing` | src/services/categorization/pipeline.py:113-170 | In a sound taxonomy no rule points nowhere, and with a fallback an unsure classifier leaves nothing undecided. |
| `Categorization.LabelNamesChoice` | src/services/categorization/pipeline.py:172-179 | In a sound taxonomy whose labels have different ids, the labels a call leaves name exactly the category chosen, among the categories whose label was looked up. |
| `Categorization.CategorizeAndApply` | src/services/categorization/pipeline.py:99-192 | By cases: nothing when switched off, when the first fitting rule excludes, or when no category is on; an assigning rule's category whatever the classifier says; else the classifier's pick at or above the threshold, and below it the fallback. That one is labelled, or the call raises and changes nothing, and its key is returned. |
| `Labels.Resolver.Resolve` | src/services/mailman/gmail_ops.py:36-58 | Hits need no listing, a miss warms the cache with the whole folded listing and is never itself cached. |
| `Labels.ListedIdsExact` | src/services/mailman/gmail_ops.py:47-57 | A listing gives exactly the names its usable entries fold to, each the id of the last alike. |
| `Labels.Resolver.Clear` | src/services/mailman/gmail_ops.py:61-63 | Clearing empties the cache. |
| `Labels.CachedFromLatest` | src/services/mailman/gmail_ops.py:23-58 | A cached id is the one the latest listing to name the label gave, however stale. |
| `Labels.ApplyCategory` | src/services/mailman/gmail_ops.py:103-161 | One change with disjoint add and remove sets, or an error and no change. |
| `Labels.ExclusiveExactly` | src/services/mailman/gmail_ops.py:103-161 | By Gmail's own ids: after a call a message carries exactly the winner of the taxonomy, if and only if the call does not star while the star label belongs to another category, and every other taxonomy label the message wore was looked up or is taken off by an action. |
| `Labels.AlwaysClearsExactly` | src/services/mailman/gmail_ops.py:144-150 | With lookups that are right or fail, a call without actions clears every older verdict from whatever message, if and only if each taxonomy label Gmail has resolved or is the winner's. |
| `Labels.LastVerdictWins` | src/services/mailman/gmail_ops.py:103-161 | However calls under whatever taxonomies and arrivals interleave, and whatever lookups failed, every message present at the last call carries exactly its winner of the taxonomy, if and only if that call does not clash with the star and clears what the message then wore. |
| `Labels.OthersUntouched` | src/services/mailman/gmail_ops.py:103-161 | Labels in no call's taxonomy and outside the three actions never change. |
| `Gmail.BatchModify` | src/integrations/google/gmail.py:315-333 | The chunks are consecutive slices, each of at most a thousand; a failure leaves exactly the earlier ones applied. |
| `Gmail.ListMessageIds` | src/integrations/google/gmail.py:476-509 | Paging until the limit returns the first ids of the whole listing. |
| `Gmail.PresentExact` | src/integrations/google/gmail.py:501-503 | Exactly the entries with an id count, in page order. |
| `Gmail.ListedExact` | src/integrations/google/gmail.py:476-509 | The whole listing is what is there on the pages one after another. |
| `Gmail.HistorySince` | src/integrations/google/gmail.py:609-652 | Of the first `max_pages` pages, each message once, where it first appears, and the last history id given. |
| `Gmail.DedupeFirst` | src/integrations/google/gmail.py:636-646 | Every id is kept exactly where it first appears, in that order. |
| `Gmail.LatestIdExact` | src/integrations/google/gmail.py:632-650 | The history id is the last that any page read gave, however many after it give none. |
| `Gmail.HistoryCompleteExactly` | src/integrations/google/gmail.py:625-650 | The page cap loses nothing if and only if the pages beyond it name no new message. |
| `Poll.AtMostOnce` | src/workers/jobs/gmail_poll.py:190-320 | However polls overlap, replay, crash or lose Redis, a message is handed on at most once, plus once per lapsed claim and per time it was let through unguarded. |
| `Poll.NothingVanishes` | src/workers/jobs/gmail_poll.py:190-320 | Over any run, every message behind the cursor was handed on, is in a worker's hands, waits in a catch-up's batch, or is gone for one of seven named reasons. |
| `Poll.ExactlyOnce` | src/workers/jobs/gmail_poll.py:190-320 | Whatever befalls other mail, a message behind the cursor that no guard, cap, failed reading, lapsed claim or missing Redis took out is handed on exactly once or in one worker's hands, if and only if no worker crashed with it and no catch-up is yet to meet it or crashed before it did; otherwise it is neither. |
| `Losses.CrashLosesExactly` | src/workers/jobs/gmail_poll.py:231-235 | At any crash, a claimed and undecided message is never handed on while its claim lasts, in any continuation, if and only if it is the crashing worker that holds it. |
| `Losses.CatchUpCrashLosesExactly` | src/workers/jobs/gmail_poll.py:238-273 | At any crash, a message behind the cursor that no guard has decided about is never handed on in any continuation that does not bring it again, if and only if it is in the unread rest of the crashing catch-up's batch and no other worker is yet to come to it. |
| `Losses.ForgottenExactly` | src/workers/jobs/gmail_poll.py:190-320 | In every reachable state: a message behind the cursor that no guard has let past is never handed on, unless it arrives again or a reset brings it, if and only if no worker is yet to come to it. |
| `Losses.CrashFreeExactly` | src/workers/jobs/gmail_poll.py:231-273 | A crash leaves everything but its worker as it was, if and only if the worker has empty hands and no unread mail of a catch-up that was not abandoned before. |
| `Losses.StrandedForGood` | src/workers/jobs/gmail_poll.py:190-320 | A claimed message in nobody's hands stays so, and is not handed on, in every run in which its claim does not lapse and no poll meets it with Redis down. |
| `Losses.UnguardedCommandExactly` | src/workers/jobs/gmail_poll.py:264-303 | A step lets a command past without a claim if and only if Redis is down and the poll has reset the cursor. |
| `Losses.CommandsGuarded` | src/workers/jobs/gmail_poll.py:275-303 | Over any run in which no poll has reset the cursor, no command is ever let past without a claim. |
| `Poll.BalancedStep` | src/workers/jobs/gmail_poll.py:275-320 | No step loses or invents a message between its guard and its fate. |
| `Poll.ClaimsExactly` | src/workers/jobs/gmail_poll.py:275-303 | A step claims a message exactly if a guard looks at it that reaches Redis, finds it neither ours nor claimed, and is to keep it by its labels or knows none. |
| `Poll.BlindExactly` | src/workers/jobs/gmail_poll.py:294-303 | A step lets a message past unclaimed exactly if its guard finds Redis down and is to keep it and sees no command, or knows no labels. |
| `Poll.TurnsAwayExactly` | src/workers/jobs/gmail_poll.py:289-303 | What a guard that lets nothing past records: filtered by its labels, ours, or a command refused. |
| `Poll.WithheldNeverPasses` | src/workers/jobs/gmail_poll.py:289-303 | Over any run, mail that its labels say not to keep whenever a guard looks at it, or that is known as ours, is never claimed, let past or handed on. |
| `Poll.FatesExactly` | src/workers/jobs/gmail_poll.py:305-320 | What a worker holds is handed on, dropped when it cannot be read, or lost in its crash, each exactly by that step. |
| `Poll.CursorKept` | src/workers/jobs/gmail_poll.py:219-272 | No step moves the cursor past a message that nobody has decided about, has taken on to catch up, or left behind in a crashed catch-up. |
| `Losses.CutExactly` | src/workers/jobs/gmail_poll.py:208-273 | What is cut: exactly the messages that a cursor moved by an advance or a reset passes and the batch that goes with it left out. |
| `Losses.CursorMovesExactly` | src/workers/jobs/gmail_poll.py:219-255 | The cursor moves exactly by a reset, or at the end of an ordinary poll that still finds it where it read it and has something later to move it to. |
| `Losses.BatchCoversExactly` | src/workers/jobs/gmail_poll.py:196-212 | A poll that reads its history in full takes all of it on if and only if it names at most 200 messages. |
| `Losses.BacklogLoses` | src/workers/jobs/gmail_poll.py:190-216 | For every larger number of arrivals, a faultless poll from a fresh start passes all of them and never hands on those beyond 200. |
| `Losses.CrashLosesMail` | src/workers/jobs/gmail_poll.py:231-235 | A run from a fresh start: claim, crash, replay, and the cursor past a message never handed on. |
| `Losses.CatchUpCrashLosesMail` | src/workers/jobs/gmail_poll.py:255-273 | A run from a fresh start: the reset passes a message, takes it on and crashes before its guard, and no continuation hands it on. |
| `Render.ToBlocks` | src/services/commands/render.py:57-119 | The loop with its two buffers, never both in use, equals grouping into longest runs. |
| `Render.TakeLine` | src/services/commands/render.py:77-113 | One turn of the loop keeps what is out, what is buffered and what is to come equal to the whole. |
| `Render.GroupRun` | src/services/commands/render.py:65-78 | A run that the next line does not extend is one block. |
| `Render.KindsApart` | src/services/commands/render.py:77-113 | Which line is which, where several patterns fit: a bullet with a number is a numbered item under the bullet's text, an item is no heading. |
| `Render.BlocksPartitionLines` | src/services/commands/render.py:57-119 | The blocks in order are the non-blank lines in order, none lost or repeated, no list of two kinds. |
| `Render.BlocksMaximal` | src/services/commands/render.py:57-119 | Between blank lines no two neighbouring blocks could be merged. |
| `Mime.RoundTrip` | src/integrations/google/mime.py:97-111 | Stripping the padding and re-padding restores the encoded text, and decoding returns the bytes. |
| `Mime.DecodeEncode` | src/integrations/google/mime.py:276-276 | Decoding what is sent returns the bytes. |
| `Mime.AlphabetExact` | src/integrations/google/mime.py:276-276 | The digits are those of Table 2 of RFC 4648, in order. |
| `Mime.QuadExact` | src/integrations/google/mime.py:276-276 | Four digits spell the 24 bits of three bytes, most significant first. |
| `Mime.JunkIgnored` | src/integrations/google/mime.py:108-111 | ASCII outside the alphabet and padding never changes what a text decodes to. |
| `Mime.NonAsciiRefused` | src/integrations/google/mime.py:108-111 | One character outside ASCII makes a text unreadable, wherever it stands. |
| `Mime.RepadDecodes` | src/integrations/google/mime.py:108-111 | Unpadded alphabet text decodes if and only if its length is not one more than a multiple of four. |
| `Walk.Visit` | src/integrations/google/mime.py:158-181 | A visit's effect on the three lists is that of the payload's leaves from left to right. |
| `Walk.WalkPayload` | src/integrations/google/mime.py:148-182 | Every attachment name in document order, and of each kind of text the shortest run of parts that fills the budget, its empty parts left out and the rest joined by newlines. |
| `Walk.JoinedExact` | src/integrations/google/mime.py:182-182 | Every text that is not empty is kept whole, in order, with one line break between two. |
| `Walk.TextsExact` | src/integrations/google/mime.py:176-179 | The texts of a kind are those of its leaves, in document order. |
| `Walk.TextsOfType` | src/integrations/google/mime.py:162-179 | Every text kept is that of a nameless part of its own type, and no container is taken for a part. |
| `Walk.NamesExact` | src/integrations/google/mime.py:162-168 | The attachment names are those of the leaves that have one, in document order. |
| `Walk.LeavesPruned` | src/integrations/google/mime.py:158-174 | What is found is exactly what is left of the payload cut off at the depth limit. |
| `Walk.JoinedEmptyExactly` | src/integrations/google/mime.py:182-182 | A joined text is empty if and only if every part kept is empty. |
| `Walk.BudgetBounds` | src/integrations/google/mime.py:176-179 | A text list exceeds the budget by less than its longest part. |
| `Walk.ShallowKeepsAll` | src/integrations/google/mime.py:158-174 | A payload within the depth limit loses no part. |

## Left out

- Time zones and daylight saving: one fixed UTC offset, so the clock is one integer.
- Parsing of event bounds and of free/busy answers, all-day events, and conference links: plumbing around the sweeps.
- Two webhook transactions racing on one row: each event is one step, as is the commit that begins a checkout.
- Convergence for events that relink a row: the staleness test then compares against another subscription's period.
- Razorpay calls, plan catalogue and signature checks: outcomes are parameters, and signatures are security code.
- Billing.CheckoutKeepsAccess: speaks of a checkout whose final write follows at once, since a cancel in between rightly ends access.
- Feature entitlements other than the draft cap, `may_process_mail` and starting mail sync: branching over rows without state of its own.
- Mailing users, activity records and logs: they decide nothing.
- Refresh locking, decryption failures and the token endpoint: how a fresh token is obtained.
- Gmail's query language: the three queries are predicates on messages, and one fetch reads one state of the mailbox.
- Two draft passes at once over one mailbox: the sweep runs under `single_run`, and `Locks` says what that guarantees.
- Quota.CapBound: assumes metering never fails; a failed metering is tallied in `Drafts` instead.
- Taxonomy.Store.UpdateCategory: carries neither description nor colours, which are prompt and display text.
- The `google_sub` and `last_polled_at` columns: they decide nothing here.
- Concurrent taxonomy requests and the unique constraint's 409: one request is one step.
- The pattern of `slugify`, full Unicode case folding and rule matching: parameters.
- Inline Markdown, HTML tags and styles: `inline` is a parameter, a block is a value.
- Charset decoding and HTML stripping: a part's decoded text is given.
- The poll's billing gate, its lock and its error returns before a reset: each ends a poll without effect, as a crash of a poll that has not begun to read does.
- The loop of `_dispatch`: its turns are the guard, hand-off and failure steps of `Poll`, so that other workers can act between them.
- Prompts, model calls and their answers: arbitrary.
