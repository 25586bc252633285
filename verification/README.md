# Broadcast dispatcher — a Dafny model of the dispatch engine of `bot.py`

The bot copies one authored message to every channel of a registry. Copies go
one channel at a time: each waits out a per-channel cooldown, is retried on
error, and has its Forbidden rejections counted, which can deregister the
channel. A sweep over the outbox delivers scheduled entries when they fall
due. This project models that engine as pure functions over one immutable
state record and proves what the code promises about it.

- `State`: the datatypes.
  - The per-channel result record, the ledger post, and the outbox entry.
  - `Bot`, the whole state: the registry, `forbidden_counts`, `last_sent_times`, the ledger, the outbox, and a virtual clock.
  - The configuration (`SEND_RETRY_COUNT`, `SEND_RETRY_DELAY` and the anti-ban block, with their defaults).
- `Registry`:
  - `add_channel` and `remove_channel` as set-like insertion and deletion on an ordered list.
  - The `@` target fix-up of `/addchannel` and `/removechannel`.
  - The registry side of both commands.
- `Dispatch`: `broadcast_copy`, in four parts.
  - The cooldown wait.
  - The retry loop (`Retry`), with the Forbidden counter and auto-removal.
  - The per-channel result records.
  - The channel loop over the snapshot taken on entry, and the ledger append.
- `Outbox`: `outbox_loop`.
  - Phase 1 of a pass marks due entries `sending`.
  - Phase 2 delivers every `sending` entry, by kind.
  - An unreadable `send_at` abandons the pass.
  - The loop: passes separated by a one-second sleep.
- `Schedule`:
  - The `/schedule` time parser (`5m`, `2h`, `tomorrow [HH:MM]`, `HH:MM`).
  - The pending entry the command appends.
- `Analytics`: the counts of `/analytics` and `/stats`.
  - The per-channel table in dictionary insertion order, and the sums over it.
  - The flat counts, and the five most recent posts.
- `Text`: the Python string operations the above rely on.
  - `strip`, `lower`, `in`, `replace`, `split`, `lstrip` and `isdigit`.
  - Decimal `int()` and `str()`.
- `Wrappers`: `Option` and `Result`.

Time is an integer number of milliseconds (a day is 86 400 000).

The transport is an oracle `reply: nat -> Outcome`. Attempt number `k` of the
process gets `reply(k)`. Every sending operation takes the number of its first
attempt (a cursor) and returns the number after its last one.

The clock only moves through the sleeps the code performs: the cooldown wait,
`SEND_RETRY_DELAY` after every failed attempt except the Forbidden reply that
triggers auto-removal (the loop breaks before that sleep), and `INTER_SEND_DELAY` after
every channel, and the one-second sleep between two passes of the outbox
loop. The wall clock a pass reads is this clock: entries fall due against it,
and `sent_at` is stamped with it after the broadcast's own sleeps.

Behaviours of the code worth noting:

- An empty registry makes `broadcast_copy` return without any ledger post. `write_log` is a no-op, so the `no_channels` record is never written.
- The Forbidden counter is never reset. Nothing in the code resets it, not even a successful send.
- A Forbidden reply below the threshold is retried like any other error. It is not treated as permanent (`Dispatch.BelowThresholdRetried`).
- When auto-removal fires on the last permitted attempt, the channel receives both a `forbidden` and a `failed` record (`Dispatch.VisitFailed`, `Dispatch.AlwaysForbidden`).
- `remove_channel` deletes only the first occurrence of the id.
- A pending entry with a missing or unreadable `send_at` is not skipped. It raises, the whole pass is abandoned before anything is saved, and every later pass does the same while the entry remains (`Outbox.LoopWedged`).
- Entries left `sending` by an earlier pass are delivered by the next pass. Phase 2 handles every `sending` entry it loads, not only the ones it just marked.

## Model

| member | source | states |
|---|---|---|
| Registry.AddChannel | bot.py:201-209 | answers true exactly when the id was not registered; the id is registered afterwards; the old list is kept as the prefix; the list grows by one on true and is unchanged on false |
| Registry.AddKeepsSet | bot.py:201-209 | on a duplicate-free registry the result is duplicate-free and holds exactly the old ids plus the new one |
| Registry.AddTwice | bot.py:204-206 | adding a new id twice answers true then false, and the list grows once |
| Registry.RemoveChannel | bot.py:212-220 | answers true exactly when the id is registered, and the list is then one shorter |
| Registry.RemoveSpec | bot.py:212-220 | an absent id gives false and no change; otherwise exactly the first occurrence goes and the rest keep their order; as a multiset, exactly one copy of the id is removed |
| Registry.RemoveShrinks | bot.py:215-217 | removal adds nothing, and the only id it can take away is the one named |
| Registry.RemoveKeepsSet | bot.py:212-220 | on a duplicate-free registry the id is really gone afterwards and no other id is lost |
| Registry.AddThenRemove | bot.py:201-220 | adding a new id and removing it again gives back the original registry with answer true |
| Registry.RemoveIdempotent | bot.py:215-216 | removing an id a second time answers false and changes nothing |
| Registry.NormalizeTarget | bot.py:331-333 | the target starts with `@` or is dashes then characters `isdigit` accepts (the decimal digits and `¹²³`); it is unchanged exactly when it already was such, otherwise `@` is prefixed |
| Registry.NormalizeIdempotent | bot.py:353-355 | applying the fix-up twice is applying it once |
| Registry.NormalizeChatId | bot.py:332-333 | the text of any integer chat id passes the fix-up unchanged |
| Registry.SuperscriptTargetKept | bot.py:332-333 | a typed `²` or `-²` passes the fix-up unchanged, as `isdigit` accepts it, though `int` cannot read it |
| Registry.AddCommand | bot.py:313-335 | a forwarded chat registers `str(id)` unnormalised; typed arguments register the fixed-up first argument; no argument means usage and no change |
| Registry.RemoveCommand | bot.py:347-357 | no argument means usage and no change; otherwise the fixed-up first argument is removed, with answer true exactly when it was registered |
| Text.ParseShowRoundTrip | bot.py:670 | Python `int()` of the decimal rendering of any integer gives back that integer |
| Text.SplitPairOf | bot.py:678 | splitting `a:b` at the colon gives exactly `a` and `b` when neither holds a colon |
| Dispatch.CooldownWait | bot.py:247-254 | the wait is never negative; after it at least the cooldown has passed since a recorded (non-zero) send time; a positive wait ends exactly at the end of the cooldown |
| Dispatch.Retry | bot.py:256-286 | at most SEND_RETRY_COUNT attempts; the loop ends on success, on auto-removal, or with `attempt >= SEND_RETRY_COUNT`; removal only when REMOVE_ON_FORBIDDEN holds and the counter reached FORBIDDEN_THRESHOLD; the counter and the clock never decrease |
| Dispatch.RetryReplies | bot.py:258-284 | the loop variable counts every attempt except an accepted one; the last attempt was accepted exactly when the loop succeeded; an auto-removal follows a Forbidden reply |
| Dispatch.RetryStopsAtOk | bot.py:259-264 | retrying stops at the first accepted attempt: no attempt before the last one was accepted |
| Dispatch.RetryCounts | bot.py:269-271 | the counter grows by exactly one per Forbidden reply, and is written exactly when there was one |
| Dispatch.RetryForbiddenRetried | bot.py:270-284 | a Forbidden reply that takes the counter to the threshold while removal is on ends the loop: no attempt before the last one was such a reply |
| Dispatch.BelowThresholdRetried | bot.py:270-286 | a Forbidden reply that leaves the counter below the threshold, or comes while removal is off, is retried: when it is the last reply, every permitted attempt was used |
| Dispatch.RecordsOfRetry | bot.py:256-289 | a channel's records are `ok`, `forbidden`, `failed` or `forbidden`+`failed`; `failed` alone means every permitted attempt was made; two records appear exactly when removal fired on attempt SEND_RETRY_COUNT |
| Dispatch.VisitChannel | bot.py:244-296 | one channel yields one of the four record groups and at most SEND_RETRY_COUNT attempts |
| Dispatch.VisitEvolves | bot.py:246-292 | a channel leaves the registry only by auto-removal with the counter at the threshold; ledger and outbox unchanged; counters only grow; every channel with a send time keeps one, and with a non-negative cooldown and clock no send time moves backwards; no other channel's counter moves |
| Dispatch.VisitTimes | bot.py:246-292 | the first attempt comes no earlier than the cooldown allows; the send time of the channel is recorded, and no other channel's is touched |
| Dispatch.VisitSucceeded | bot.py:258-264 | a channel is `ok` exactly when its last attempt was accepted, and no earlier attempt was |
| Dispatch.VisitFailed | bot.py:273-289 | `failed` alone means all permitted attempts were made; `forbidden` means the last reply was Forbidden and the counter reached the threshold; both records exactly when removal used the last permitted attempt |
| Dispatch.VisitRegistry | bot.py:270-284 | auto-removal through `remove_channel` is the only registry change; the channel's counter grows by its number of Forbidden replies |
| Dispatch.SendAll | bot.py:244-296 | the records are one group per snapshot channel, in snapshot order; at most SEND_RETRY_COUNT attempts per channel; the state evolves as for one channel |
| Dispatch.SendAllTrackers | bot.py:244-292 | every snapshot channel gets a send time; channels outside the snapshot keep their counter and send time |
| Dispatch.RecordPost | bot.py:227-231 | the ledger grows by exactly the new post at the end, earlier posts untouched |
| Dispatch.Broadcast | bot.py:234-297 | an empty registry changes nothing and records nothing; otherwise the records match the registry as it was on entry and exactly one post carrying them is appended |
| Dispatch.MatchesShape | bot.py:242-289 | every record is `ok`, `forbidden` or `failed` and names a snapshot channel; there are between one and two records per channel |
| Dispatch.MatchesCoversSnapshot | bot.py:235-244 | every snapshot channel gets a record, so removals during the loop skip no channel |
| Dispatch.VisitAccepted | bot.py:258-264 | a channel whose first attempt is accepted gets one `ok` after one attempt, with registry and counters unchanged |
| Dispatch.SendAllAccepted | bot.py:244-264 | with every attempt accepted, each channel gets one `ok` after one attempt, in order; registry and counters unchanged |
| Dispatch.BroadcastAccepted | bot.py:234-297 | with every attempt accepted, the one new post lists `ok` for every registered channel |
| Dispatch.RetryAlwaysForbidden | bot.py:256-284 | under the defaults, a channel that rejects everything is removed on the third attempt, with its counter at 3 after two retry delays |
| Dispatch.AlwaysForbidden | bot.py:256-289 | under the defaults such a channel gets `forbidden` and `failed`, after three attempts, and is deregistered |
| Dispatch.AlwaysForbiddenEmptiesRegistry | bot.py:234-297 | a one-channel registry whose channel rejects everything is empty after one broadcast |
| Dispatch.TransientThenOk | bot.py:256-286 | two transient errors then an accepted attempt give one `ok`, three attempts, two retry delays and no counter change |
| Outbox.Promote | bot.py:755-762 | the pass is abandoned exactly when a pending entry has no readable `send_at`, at the first such entry; otherwise exactly the due pending entries become `sending` |
| Outbox.PromoteIdempotent | bot.py:755-762 | marking twice at the same instant is marking once |
| Outbox.SendFile | bot.py:783-796 | one direct send per channel in registry order, `ok` when accepted and `error` otherwise |
| Outbox.ResolveEntry | bot.py:767-806 | only a `sending` entry changes, to `sent`, `error` or `unknown_type` as its kind dictates; `error` exactly for a copy entry missing a key; `sent_at` is no earlier than the clock the delivery began at, and the clock never goes back |
| Outbox.ResolveEntryAdvances | bot.py:770-799 | delivering one entry moves the dispatcher state forward as a broadcast does |
| Outbox.ResolveCopy | bot.py:770-779 | only a `sending` copy entry that names its message broadcasts, and its post carries that message and origin |
| Outbox.ResolveFile | bot.py:780-799 | a `sending` file entry makes one send per registered channel and leaves the state alone |
| Outbox.ResolveAll | bot.py:767-806 | every entry is resolved in place, each `sent_at` no earlier than the clock the pass began at |
| Outbox.ResolveAllAdvances | bot.py:767-806 | delivering the entries in turn only moves the dispatcher state forward |
| Outbox.ResolveAllQuiet | bot.py:767-769 | with nothing `sending`, delivery changes nothing and sends nothing |
| Outbox.Sweep | bot.py:750-811 | a pass, at the current clock, fails exactly when a pending entry has no readable `send_at`; otherwise the outbox keeps its length |
| Outbox.SweepAdvances | bot.py:750-811 | apart from the outbox, a completed pass only moves the dispatcher state forward |
| Outbox.MarkThenResolve | bot.py:755-806 | marking and then resolving one entry yields its swept form |
| Outbox.SweepEntries | bot.py:755-806 | after a pass nothing is `sending`; exactly the not-yet-due pending entries stay pending, each exactly as it was; terminal entries are untouched; no status moves backwards; a delivered entry is `sent` unless it is a copy missing its message or of unknown type; a newly sent entry's `sent_at` is no earlier than the pass and than its `send_at` |
| Outbox.SweepIdempotent | bot.py:750-809 | when no further entry falls due while a pass runs, an immediate second pass sends nothing and changes nothing |
| Outbox.SweepAbandoned | bot.py:758-811 | a pass that meets an unreadable pending entry fails at or before it |
| Outbox.LoopStep | bot.py:749-812 | an iteration takes at least the one-second sleep; an abandoned pass changes nothing but the clock |
| Outbox.Loop | bot.py:749-812 | iterations only move the clock forward and keep the outbox's length |
| Outbox.LoopTakesTime | bot.py:812 | each pass starts at least a second after the one before |
| Outbox.LoopWedged | bot.py:758-812 | while an entry is unreadable, every pass is abandoned: nothing is sent and only the clock moves |
| Outbox.LoopStepEntries | bot.py:749-812 | an iteration on a readable outbox gives every entry its swept form and leaves the outbox readable |
| Outbox.LoopStepPending | bot.py:754-806 | one iteration leaves a pending entry untouched before its send time and delivers it from then on |
| Outbox.LoopStepTerminal | bot.py:757-769 | one iteration leaves an entry with a terminal status alone |
| Outbox.LoopKeepsTerminal | bot.py:749-812 | an entry with a terminal status is never touched again |
| Outbox.LoopKeepsPending | bot.py:749-812 | a pending entry stays exactly as it is through every pass that starts before its send time |
| Outbox.LoopDelivers | bot.py:749-812 | the pass that starts at or after a pending entry's send time delivers it, with the status its kind dictates and a `sent_at` no earlier than the send time |
| Schedule.DayStart | bot.py:685 | midnight of the day `now` falls in is at most `now` and less than a day before it |
| Schedule.ClockOffset | bot.py:684-685 | a read time of day lies within the day, and only a text with exactly one colon is read |
| Schedule.Relative | bot.py:669-674 | `<n>m` and `<n>h` succeed exactly when the text before the unit is an integer; otherwise the time is invalid |
| Schedule.Tomorrow | bot.py:675-682 | a `tomorrow` time is strictly after now and before the end of the day after today; without a colon it is exactly one day from now |
| Schedule.AtClock | bot.py:683-688 | an `HH:MM` time is never in the past and less than a day ahead |
| Schedule.ParseTimeSpec | bot.py:667-694 | the format is invalid exactly when none of the four forms matches, in their order of precedence; each form's bounds hold |
| Schedule.MinutesFormReads | bot.py:669-671 | a text ending in `m` whose prefix is the integer n is read as n minutes from now, even when it also holds `tomorrow` or a colon |
| Schedule.HoursFormReads | bot.py:672-674 | a text ending in `h` whose prefix is the integer n is read as n hours from now, taking precedence over `tomorrow` and a colon |
| Schedule.MinutesRoundTrip | bot.py:669-671 | `str(n) + "m"` is read back as `n` minutes from now |
| Schedule.HoursRoundTrip | bot.py:672-674 | `str(n) + "h"` is read back as `n` hours from now |
| Schedule.ClockOffsetOfText | bot.py:684-685 | a valid `HH:MM` text is read as its offset from midnight |
| Schedule.NextAtSpec | bot.py:685-688 | the next occurrence of a time of day is no earlier than now, less than a day ahead, and has that time of day |
| Schedule.ClockRoundTrip | bot.py:683-688 | `HH:MM` is read as the next moment from now on whose time of day is HH:MM |
| Schedule.TomorrowRoundTrip | bot.py:675-680 | `tomorrow HH:MM` is read as HH:MM on the day after today |
| Schedule.ScheduleEntry | bot.py:655-707 | not a reply and no arguments are the two refusals; success exactly when the joined arguments parse; then exactly one pending copy entry for the replied-to message, stamped with the parsed time and the admin, is appended |
| Schedule.ScheduleKeepsReadable | bot.py:696-705 | scheduling keeps every pending entry's `send_at` readable |
| Schedule.ScheduleThenSweep | bot.py:696-811 | the next pass after scheduling sends the message, stamped no earlier than its send time, when that time has come, and leaves the entry exactly as it was otherwise |
| Schedule.ScheduleThenLoop | bot.py:696-812 | a scheduled message stays exactly as it was through every pass of the loop that starts before its send time, and the first pass that starts at or after it sends it, stamped no earlier than that time |
| Analytics.InitTable | bot.py:528 | one zero row per distinct registered channel, and no other row |
| Analytics.Tick | bot.py:530-540 | counting a record keeps the table well formed and adds a row only for a channel it did not have |
| Analytics.TickLookup | bot.py:533-540 | counting a record bumps its channel's total and its success or failed count, and leaves every other row alone |
| Analytics.TabulateCounts | bot.py:529-540 | each row's total is its channel's number of records and its success count the number of its `ok` records |
| Analytics.TabulateKeys | bot.py:529-535 | the rows are the initial channels plus every channel that has a record |
| Analytics.TabulateSums | bot.py:529-545 | the totals grow by the number of records, the successes by the `ok` records, the failures by the others |
| Analytics.Recent | bot.py:549 | the last five posts reversed: element `i` is the `i`-th post counted back from the newest, and there are five of them (fewer if there are fewer posts) |
| Analytics.RecentAfterRecord | bot.py:549 | recording a post puts it at the head of the recent list and pushes the oldest of five out |
| Analytics.Analyze | bot.py:520-549 | every row has success + failed = total; the rows are every registered channel and every channel with records; grand totals are the record counts over all posts; only `ok` is a success |
| Analytics.QuickStats | bot.py:607-625 | success and failed add up to the number of records; the last post's time is reported exactly when there is a post |
| Analytics.ReportsAgree | bot.py:543-545 | the two reports give the same success and failure totals |
| Analytics.BroadcastDeliveries | bot.py:234-297 | a broadcast adds between one and two deliveries per registered channel to the totals, and one success per `ok` record |

## Left out

- JSON file I/O (`load_json`, `save_json`) is left out; the stores are in-memory sequences inside `Bot`. A missing or corrupt file reading as empty is not modelled.
- The `asyncio.Lock` and all concurrency are left out. This includes the unlocked outbox append of `/schedule`, which the final save of a sweep pass can overwrite.
- The Telegram calls (`copy_message`, `send_document`, `send_message`, `reply_text`) are reduced to the outcome oracle. Reply texts, log records and console output are left out.
- The random jitter added to the inter-send delay is left out. It only lengthens the gaps between channels.
- Floating-point time is modelled as integer milliseconds.
- Success-rate percentages, emoji thresholds and every rendering of the reports (`strftime`, ISO formatting) are left out.
- Time zones, daylight saving and the `datetime` range limits are left out. Local and UTC time are one timeline, and `send_at` is an integer or absent (unreadable).
- Text handling covers the code points below U+0100 only. Above U+00FF the model treats no character as a digit or a blank, while Python's tables include some, such as U+3000 as a blank and U+0660 as a digit.
- Text.Lower: maps only the ASCII and Latin-1 capitals. Python's `lower` also maps letters above U+00FF, and turns `İ` into two characters, which can change the `tomorrow` test of `/schedule`.
- A channels.json value that cannot be iterated (`null`, a number, `true`) makes `for ch in channels` raise, and the file entry ends `error` (bot.py:785, bot.py:801-804). The model keeps the registry as a list, so a file entry always ends `sent`.
- Console output is treated as infallible. bot.py:253 and bot.py:272 print the channel id inside `rich` markup. An id holding a markup tag, such as `@a[/b]`, makes that print raise. Line 253 is outside the retry `try`, and line 272 runs inside its `except` handler, so the error escapes `broadcast_copy` after the earlier channels were sent. The sweep then marks the copy entry `error` (bot.py:776-778). In the model a copy entry ends `error` only when a key is missing.
- A file entry's `file_path` versus `text` choice is left out. Both are one send per channel.
- The admin checks of the commands are left out. So are `handle_message`, `error_handler`, the configuration and token loading, the terminal UI and `main`.
- autopatch.py (import machinery) and compat.py (an `imghdr` replacement) are not part of this model.
- Dispatch.Retry: the clock is only stated to move forward. The exact sum of retry delays is shown only in the scenarios (`Dispatch.RetryAlwaysForbidden`, `Dispatch.TransientThenOk`).
