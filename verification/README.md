# Verification of the payment backend's stateful and arithmetic core

This project models, in Dafny, the parts of the backend whose correctness depends on
runs rather than on single calls, and the parsers, printers and arithmetic that other
parts rely on. `dafny verify dfyconfig.toml` checks all of it. Methods and classes
follow the service methods they are named after; each is tied to a specification
function or relation, and the properties below are proved about those.

| files | what they model |
|---|---|
| `SorobanEventIndexer` | paging through the ledger log, dispatch, dead letters and the stored cursor, over runs of polls |
| `RecurringPayments`, `RecurringRuns`, `RecurringRepeats`, `RecurringNotices` | notifying and charging as interleaved steps of any number of workers, the two job loops running among them, order and agreement of the charges, when a cycle is charged twice, cancelled subscriptions and repeated mails |
| `StellarTxQueue` | the per-account promise chain, the load-build-submit sections and their one retry |
| `WebhookDelivery` | failure counts, 24-hour circuits, resets, retries, replay |
| `SlidingWindow`, `InterleavedAdmissions` | the rate limiter's Redis and in-memory forms, alone, switching, and interleaved command by command |
| `CircuitBreaker`, `SorobanRpcResilience` | the breaker, retries with backoff, the fallback endpoint, overlapping calls |
| `NotificationTemplates` | versioned templates against append-only histories |
| `PaymentImportCsv` | the CSV reader against the audit-log and analytics writers (section 2 of RFC 4180) |
| `Base32` | both directions through a 32-bit register that is never masked (section 6 of RFC 4648) |
| `Ipv6Text`, `Cidr`, `IpGuards` | IPv6 text (section 2.2 of RFC 4291) and three forms of CIDR matching (section 2.3 of RFC 4291, section 3.1 of RFC 4632) |
| `DecimalStrings` | exact six-place decimals |
| `DateRange`, `AnalyticsSeries` | the UTC calendar, report windows, comparison periods and zero-filled series |
| `TopMerchantPages` | keyset pages |
| `PdfExport` | text escaping and the cross-reference table (sections 7.3.4.2 and 7.5.4 of ISO 32000-1) |
| `Numbers`, `Text`, `Wrappers` | positional numbers, digit strings, options |

## What the environment may do

Network, storage and time appear as parameters and nondeterministic steps, under these
assumptions:

- The clock does not go backwards and shows a year from 100 on.
- A ledger becomes visible whole and ledgers appear in order, numbered from 1; a page of
  fewer than 200 events ends what is visible; a paging token names a position in the log;
  a request without a start or a token reads from the beginning.
- An update of one database row, and one Redis command, is atomic. A transaction that
  locks its row is atomic too.
- A serial limiter call reads the clock once and its commands run at that instant; the
  random members it adds are distinct; all calls on a key use the same limit and window.
- A cron run ends before its five-minute timeout, and one process at a time polls events.
- `create` may throw with or without having made the payment, an update may throw with or
  without having been made, and a worker may vanish at any step.
- A transaction that was sent has been applied or not by the time its answer arrives.
- A template and a subscription get identifiers that are not in use.

## What the proofs found

Where the code and its own descriptions or the natural reading differ, the model follows
the code, and a lemma says exactly when the code does what is expected.

- **Billing holds under three conditions** (`RecurringRuns.AgreesExactlyWhenSound`):
  charges and schedule agree throughout a run if and only if no claim succeeds while
  another on the subscription is unpaid, no claim is released whose payment was made
  although `create` threw, and no worker leaves a claim behind unpaid. The compare-and-set
  only keeps two workers from claiming one cycle of an unchanged row. Any run with an active
  subscription can go on so that two claims overlap (`OverlapHappens`); one worker alone is enough to
  charge a cycle twice, when `create` throws after the payment (`MadePaymentRepeats`), or
  to skip one (`VanishedWorkerSkips`). A cycle is charged twice only through a release that
  sets the row back to or before a cycle already charged or still payable, and after such a
  release notifying, claiming and paying are enough (`ChargedTwiceExactlyWhenSetBack`).
  The charges, together with the payments that a run may still make, stay in order if and
  only if each claim takes the first cycle without a charge while no other payment may
  still be made (`OrderedExactlyWhenOrderly`).
- **Cancelled while a job runs** (`RecurringNotices.CancelledIsNotCharged`,
  `ActsAfterCancelWereLoaded`): a cancelled subscription is charged, or its merchant mailed,
  only by a job whose query had found it before; that it can still happen is
  `ChargedAfterCancel`. A charge is announced once as long as the row remembers it
  (`MailedOnce`), and again when the row could not be marked (`UnmarkedIsMailedAgain`).
- **Dead letters repeat** (`IndexerRuns.HandledAgainExactly`, `PassedExactly`): only
  dispatched events, and an empty page, move the cursor. Of the events that a poll handled
  on its way to the end, the next poll that gets to its end handles exactly those again
  that the first left behind: all of them when the cursor could not be stored, and
  otherwise, unless the pages were all full ones, those on ledgers after everything
  dispatched. An
  event with an invalid payload is dead-lettered by every poll that gets to its end until
  one passes it (`HandledUntilPassed`). In a log shorter than a page it is never passed, in
  any run, when no event on its ledger or later has a valid payload (`DeadLetterForever`).
- **Webhooks, disabled at once or never** (`WebhookHistory.FiveDaysExactlyWhenWhole`,
  `DisabledExactlyByTen`): a failure is counted before the row is read, disabled, the
  merchant read and the circuit opened, and any of these may throw. Ten failures in a row
  are sure to take five days from the fifth on if and only if failures five to nine all get
  past the circuit's update; when the read of the merchant throws ten times, they disable a
  webhook at once (`DisabledAtOnce`). A webhook is disabled if and only if some streak's
  tenth or later failure got past the disabling update; when the read of the row throws
  each time, any number of failures leave it enabled (`NeverDisabled`).
- **Letters outside ASCII** (`Base32.IgnoredExactlyWhenStray`, `CaseIsIgnored`): the
  decoder upper-cases first, so 17 characters such as U+00DF, U+0131 or U+FB00 are read as
  the letters of their upper-case forms. A character is ignored exactly when that form holds
  no letter of the alphabet; lower-casing a text changes it exactly when it holds U+0130,
  U+1E9E or U+212A.
- **Windows are one second short in real time** (`AtMostLimitInRealTime`,
  `RealTimeSpanExactly`): scores are whole seconds, so the limit holds for every span of
  `windowSeconds` clock seconds but, in milliseconds, only for spans of up to
  `(windowSeconds - 1) * 1000 + 1`. One millisecond more can hold twice the limit, whatever
  limit and window are.
- **A limit of 0 throws in memory** (`StoresDisagreeWithoutLimit`): in every history Redis
  refuses every call, while the in-memory form reads the oldest entry of an empty list.
- **Slow callers** (`InterleavedAdmissions.AdmittedWhenInterleaved`): the four Redis
  commands of a call are not one transaction. With `k` callers at most
  `limit + 3 * k - 1` calls with clock readings in any window are admitted, however late
  their commands run and whenever the key expires. A single caller reaches that, four calls
  for a limit of two, when its commands straddle the end of the key (`OneCallerReachesIt`).
- **Prefix 0 in the allowlist guard** (`CidrAgreement.GuardsAgree`): JavaScript shifts by
  32 modulo 32, so `/0` compares all 32 bits there, while the metrics guard matches every
  address. The guards agree exactly when the prefix is not 0 or the addresses are equal.
- **Years 0 to 99** (`StartOfUtcDayIs` and its neighbours, `WindowPeriodsAre`,
  `RevenueSplitIs`, `WalkIsUpto`): `Date.UTC` reads them as 1900 to 1999, so the calendar
  helpers are right exactly for all other years. What they give instead is stated for every
  day, and so is each condition under which ranges, periods and series are the ones meant.
  A custom range that starts on the eve of year 0 can span centuries (`RequestIsInside`),
  since a year after it is read as 1900.
- **Stray colons** (`Ipv6Forms.AcceptedExactlyWhenSpelled`): besides the standard's forms
  the address reader takes one colon before the first group or after the last, and leading
  zeros in a dotted quad. Nothing else is read.
- **Negative zero** (`TextRoundTrip`): `-0.000000` is the one canonical decimal that does
  not survive reading and printing.
- **The formula prefix** (`NeutraliseCollision`): it loses information only between a
  formula and the same text that already had the quote in front.
- **Accents in the PDF** (`PdfText.TextSurvivesExactlyWhenPlain`): the octal escapes of
  the first pass are escaped again by the third, so a reader sees `\351` and not the
  letter. Text survives exactly when it is printable ASCII.
- **The promise queue** (`TxQueueRuns.StoredPromise`): the comment at
  src/stellar/stellar-tx-queue.service.ts:101-103 says that the stored promise never
  rejects, but its handler throws again. It rejects exactly when its call failed, and the
  rejection is handled exactly when a later call on the account has chained onto it, so
  that of the last call stays unhandled.

## Model

| member | source | states |
|---|---|---|
| SorobanEventIndexer.SorobanEventIndexer.GetEvents | src/stellar/soroban-event-indexer.service.ts:206-249 | A request returns the next 200 or fewer visible events from its start ledger or paging token, with the latest ledger, after any growth of the chain; or it fails |
| SorobanEventIndexer.SorobanEventIndexer.HandleEvent | src/stellar/soroban-event-indexer.service.ts:98-106 | An event goes to the listeners as the notice it carries exactly when it carries one and they succeed; exactly the other topics are ignored; else it is dead-lettered, and a dead letter that cannot be written ends the poll |
| SorobanEventIndexer.OutcomeExactly | src/stellar/soroban-event-indexer.service.ts:139-204 | From the event's fields alone: a payment needs its topic, a non-empty reference, the first one present, a non-empty hash and an amount that is a number; a settlement its topic and a non-empty identifier, the first one present; the other topics are ignored and all else fails |
| SorobanEventIndexer.SorobanEventIndexer.HandlePage | src/stellar/soroban-event-indexer.service.ts:97-107 | A page's events are handled in order until one fails for good, and the running cursor is the highest ledger dispatched |
| SorobanEventIndexer.SorobanEventIndexer.ReadPages | src/stellar/soroban-event-indexer.service.ts:83-112 | Paging ends, and when no request fails it has handled every event between the stored cursor and the last reported ledger exactly once |
| SorobanEventIndexer.SorobanEventIndexer.IndexEvents | src/stellar/soroban-event-indexer.service.ts:82-121 | A poll is one step of the run relation: what it handled, whether it ended well, and how the stored cursor moved, including a save that is lost or half lost |
| SorobanEventIndexer.SorobanEventIndexer.PollEvents | src/stellar/soroban-event-indexer.service.ts:61-126 | A poll that finds another in flight only counts the skip and alerts from the fourth on; an unconfigured one does nothing; the skips are cleared by a poll that ends well and by one that finds its cron job still running, which does nothing else |
| IndexerRuns.CursorNeverDecreases | src/stellar/soroban-event-indexer.service.ts:83-119 | Over every run of polls, failures and growth the stored cursor never goes back |
| IndexerRuns.NothingIsLost | src/stellar/soroban-event-indexer.service.ts:89-119 | At every moment each event up to the cursor has been dispatched as the notice its fields carry, ignored for another topic, or dead-lettered |
| IndexerRuns.DispatchedOnce | src/stellar/soroban-event-indexer.service.ts:84-118 | What a poll that ended well dispatched is never handled again, in that poll or a later one |
| IndexerRuns.PollVisitsExactly | src/stellar/soroban-event-indexer.service.ts:84-112 | A poll that gets to its end, stored or not, handles an event exactly when its ledger lies after the cursor and not after the reported ledger, once each and in order |
| IndexerRuns.LeftBehindExactly | src/stellar/soroban-event-indexer.service.ts:92-118 | The cursor stays before an event that a poll handled on its way to the end exactly when it was not stored, or the last page was neither empty nor full and everything dispatched lies on earlier ledgers; only the latter when the poll ended well |
| IndexerRuns.HandledAgainExactly | src/stellar/soroban-event-indexer.service.ts:84-118 | In every run the next poll that gets to its end, whatever fails and grows in between, handles exactly those events again |
| IndexerRuns.PassedExactly | src/stellar/soroban-event-indexer.service.ts:84-118 | In every run the cursor lies past an event exactly when some poll got to its end, stored its cursor, and had read whole pages only or dispatched something on the event's ledger or later |
| IndexerRuns.HandledUntilPassed | src/stellar/soroban-event-indexer.service.ts:84-112 | Until then every poll that gets to its end with the event visible handles it, and writes a dead letter if its topic is known and its fields carry no notice |
| IndexerRuns.DeadLetterForever | src/stellar/soroban-event-indexer.service.ts:103-119 | In every run over a log shorter than a page no poll passes an event when no event on its ledger or later carries a notice |
| RecurringRuns.ChargesFollowTheSchedule | src/recurring-payments/recurring-payments.service.ts:56-136 | In every sound run the charges of a subscription are its cycles in order, none twice and none skipped, each due and announced by mail when it was made; with no claim owed their number is the time passed over the interval; at most one claim is owed |
| RecurringRuns.AgreesExactlyWhenSound | src/recurring-payments/recurring-payments.service.ts:114-135 | Charges and schedule agree at every moment of a run if and only if no claim succeeds while another is owed, no claim is released whose payment was made, and none is left behind unpaid |
| RecurringRuns.OrderedExactlyWhenOrderly | src/recurring-payments/recurring-payments.service.ts:114-135 | A run, with the payments it may still make, keeps the charges in order if and only if every claim takes the first cycle without a charge while no other payment may still be made |
| RecurringRuns.OutOfTurnBreaksOrder | src/recurring-payments/recurring-payments.service.ts:114-130 | After a claim out of turn, payments that may still be made break the order |
| RecurringRepeats.OverlapHappens | src/recurring-payments/recurring-payments.service.ts:104-121 | Any run with an active subscription can go on so that one claim overlaps another |
| RecurringRepeats.OverlapChargesTwice | src/recurring-payments/recurring-payments.service.ts:114-135 | There is a run in which an overlapping claim and a failed payment make one cycle be charged twice |
| RecurringRepeats.MadePaymentRepeats | src/recurring-payments/recurring-payments.service.ts:123-130 | From any sound run, one worker at a time, a payment made although `create` threw is made again, and nothing but the release is unsound |
| RecurringRepeats.VanishedWorkerSkips | src/recurring-payments/recurring-payments.service.ts:117-124 | When a worker is gone after its claim, the next charge is for the cycle after the claimed one |
| RecurringRepeats.ChargedOnce | src/recurring-payments/recurring-payments.service.ts:114-135 | Whatever overlaps, throws and vanishes, no cycle is charged twice as long as no release sets a row back to or before a cycle already charged or still payable |
| RecurringRepeats.ChargedTwiceExactlyWhenSetBack | src/recurring-payments/recurring-payments.service.ts:114-135 | For a subscription that is not cancelled, no way of going on from any moment of a run without a release charges a cycle twice, if and only if no release has set the row back that far |
| RecurringNotices.CancelledIsNotCharged | src/recurring-payments/recurring-payments.service.ts:43-136 | Once a subscription is cancelled and no job has it loaded, nothing that may follow charges it |
| RecurringNotices.CancelledIsNotMailed | src/recurring-payments/recurring-payments.service.ts:43-97 | Nor does anything mail its merchant |
| RecurringNotices.ActsAfterCancelWereLoaded | src/recurring-payments/recurring-payments.service.ts:43-136 | A charge or a mail after a cancellation comes from a worker whose query had found the row before it |
| RecurringNotices.ChargedAfterCancel | src/recurring-payments/recurring-payments.service.ts:104-130 | In any run an active subscription can be cancelled and charged after it, by a job that had loaded it |
| RecurringNotices.MailedOnce | src/recurring-payments/recurring-payments.service.ts:56-89 | As long as the row remembers a charge, a second mail for it comes only from a job that had loaded it before |
| RecurringNotices.UnmarkedIsMailedAgain | src/recurring-payments/recurring-payments.service.ts:75-94 | When the row cannot be marked after the mail, the next job can send it again |
| RecurringNotices.MailedADayAhead | src/recurring-payments/recurring-payments.service.ts:57-64 | No mail goes out more than 24 hours before its charge is due |
| RecurringNotices.ScheduleIsFixed | src/recurring-payments/recurring-payments.service.ts:30-41 | Whatever happens, the cycles of a subscription lie the chosen number of days apart from its start on |
| RecurringRuns.InvStep | src/recurring-payments/recurring-payments.service.ts:43-137 | Every step in turn of every worker, also subscribing, cancelling, mailing, failing and vanishing, keeps charges, claims and notifications in order |
| RecurringRuns.DebtsStep | src/recurring-payments/recurring-payments.service.ts:43-137 | Every step that settles keeps the row at the first cycle without a charge, or one after it while a claim is owed |
| RecurringWorkers.Database.ClaimCycle | src/recurring-payments/recurring-payments.service.ts:117-121 | The conditional update claims a cycle exactly when the row still stands where it was loaded, without a second look at its status |
| RecurringWorkers.Database.Create | src/recurring-payments/recurring-payments.service.ts:123-128 | A payment that is made stands, whether or not `create` returns |
| RecurringWorkers.Database.ReleaseClaim | src/recurring-payments/recurring-payments.service.ts:128-130 | A claim whose payment threw is set back to its cycle, whatever the row says by then |
| RecurringWorkers.Database.ChargeDueSubscriptions | src/recurring-payments/recurring-payments.service.ts:104-136 | Among arbitrary steps of other workers, the job tries each due row once, in order, until an update throws; each claim is paid, released or left behind as its statements went; the whole is a possible run |
| RecurringWorkers.Database.NotifyUpcomingCharges | src/recurring-payments/recurring-payments.service.ts:56-96 | Among arbitrary steps of other workers, the job mails each upcoming charge once and marks it only after the mail was queued; a failure does not stop it |
| TxQueueRuns.OneSectionAtATime | src/stellar/stellar-tx-queue.service.ts:67-109 | Sections on one account never overlap, and none has started before all earlier calls on the account are over |
| TxQueueRuns.NeverBlocked | src/stellar/stellar-tx-queue.service.ts:71-75 | Whatever has failed, as long as a call's promise has not settled, it or an earlier call on its account can always move |
| TxQueueRuns.SectionsEnd | src/stellar/stellar-tx-queue.service.ts:75-99 | Every step of a call, its promise's settling included, uses up one of at most five, and touches no other call |
| TxQueueRuns.AtMostTwoSends | src/stellar/stellar-tx-queue.service.ts:82-98 | A section sends at most twice, the second time only after a stale answer to the first and a retry's reload |
| TxQueueRuns.StoredPromise | src/stellar/stellar-tx-queue.service.ts:67-109 | The stored promise rejects exactly when its call failed, and the rejection is handled exactly when a later call on the account has been chained onto it |
| TxQueueRuns.NextNumberExactlyWhenAlone | src/stellar/stellar-tx-queue.service.ts:76-94 | A transaction carries the account's next sequence number exactly when nobody else wrote to the account since it was loaded |
| TxQueueRuns.AloneNeverStale | src/stellar/stellar-tx-queue.service.ts:76-94 | Without another writer every transaction carries the next number, and exactly the network's refusal of it as stale is ruled out; an operation's sequence error stays possible |
| TxQueueSections.StellarTxQueueService.SubmitFromTreasury | src/stellar/stellar-tx-queue.service.ts:57-112 | A call is refused without a key; otherwise it is chained behind the last call on the account and becomes the last itself |
| TxQueueSections.StellarTxQueueService.RunSection | src/stellar/stellar-tx-queue.service.ts:75-99 | Among arbitrary other steps a section ends; it sends a second time exactly after a stale answer, a reload and a rebuild that succeed, and its result is that of its last answer |
| TxQueueSections.StellarTxQueueService.SettlePromise | src/stellar/stellar-tx-queue.service.ts:104-109 | The stored promise settles the way its call did |
| WebhookDelivery.WebhookDeliveryProcessor.Process | src/webhooks/webhook-delivery.processor.ts:61-152 | A delivery is skipped exactly while the circuit is open; its row and its end follow from the steps that go wrong; a deleted webhook is sent to and counted nowhere |
| WebhookDelivery.FailureExactly | src/webhooks/webhook-delivery.processor.ts:122-233 | Read off the steps that throw: a failure is counted unless its log or count is refused, disables from ten failures on when the row is read and the update made, and opens the circuit for 24 hours from five on when nothing before it threw |
| WebhookRetries.FollowedExactly | src/webhooks/webhook-delivery.processor.ts:131-151 | A job is followed by another, with the next attempt number, exactly when it fails with every step made, does not open the circuit, and attempts are left |
| WebhookRetries.RetriesEnd | src/webhooks/webhook-delivery.processor.ts:105-151 | Following the retries, attempt numbers go up by one, there are at most `maxAttempts - attemptNumber + 1` jobs, and as many exactly when all but the last fail plainly |
| WebhookDelivery.WebhookDeliveryProcessor.MarkWebhookFailure | src/webhooks/webhook-delivery.processor.ts:191-222 | The count, the disabling of an active webhook from ten on and the circuit go as far as the first read or update that throws, updates that are made although they throw included |
| WebhookDelivery.WebhookDeliveryProcessor.OpenCircuitIfNeeded | src/webhooks/webhook-delivery.processor.ts:225-267 | The circuit opens for 24 hours exactly from five failures on, when it is not already open and its update is made; a notice that throws leaves it open |
| WebhookDelivery.WebhookDeliveryProcessor.ResetCircuit | src/webhooks/webhooks.service.ts:34-42 | A reset clears count and circuit and does not enable a disabled webhook |
| WebhookDelivery.EveryAttemptHappens | src/webhooks/webhook-delivery.processor.ts:85-152 | Every kind of attempt in the histories is produced by some steps that throw |
| WebhookHistory.CountIsStreak | src/webhooks/webhook-delivery.processor.ts:183-205 | In every serial history the stored count is the number of counted failures since the last success or reset, found from what was sent alone |
| WebhookHistory.SentExactlyWhenClosed | src/webhooks/webhook-delivery.processor.ts:64-71 | A delivery is sent exactly when no failure from the fifth of the streak on that got past the circuit's update lies less than 24 hours back |
| WebhookHistory.SentAfterADay | src/webhooks/webhook-delivery.processor.ts:64-71 | When no failure of the streak was cut short: sent exactly with fewer than five failures or 24 hours after the last |
| WebhookHistory.DaysPerWholeFailure | src/webhooks/webhook-delivery.processor.ts:191-233 | Between two failures of a streak, from the fifth on, lie at least as many days as failures in between got past the circuit's update |
| WebhookHistory.DaysAreAttained | src/webhooks/webhook-delivery.processor.ts:191-233 | However far each failure gets, some history is exactly that fast |
| WebhookHistory.FiveDaysExactlyWhenWhole | src/webhooks/webhook-delivery.processor.ts:191-233 | The tenth failure of a streak is sure to come five days after the fifth if and only if failures five to nine all get past the circuit's update |
| WebhookHistory.DisabledAtOnce | src/webhooks/webhook-delivery.processor.ts:207-215 | Ten failures at one moment, each cut short between the disabling and the circuit, disable a webhook |
| WebhookHistory.DisabledExactlyByTen | src/webhooks/webhook-delivery.processor.ts:183-210 | A webhook is disabled exactly when some streak's tenth or later failure got past the disabling update |
| WebhookHistory.NeverDisabled | src/webhooks/webhook-delivery.processor.ts:195-210 | Any number of failures, each cut short before the disabling, are all counted and leave a webhook enabled |
| WebhookReplay.Replay | src/webhooks/webhooks.service.ts:162-195 | Of the newest 500 logs the first of each webhook and event is sent again, and they are counted |
| WebhookReplay.EachPairOnce | src/webhooks/webhooks.service.ts:178-192 | Each webhook and event among those logs is sent exactly once, with its latest body |
| WebhookReplay.KeyIsPair | src/webhooks/webhooks.service.ts:181 | The joined key tells webhook and event apart for identifiers without a colon |
| SlidingWindow.CacheService.CheckRedis | src/cache/cache.service.ts:207-241 | The four commands take a key's set to what the specification says and leave other keys alone |
| SlidingWindow.CacheService.CheckMemory | src/cache/cache.service.ts:243-279 | The list of a key becomes what the specification says; with nothing in the window and no room it throws and changes nothing |
| SlidingWindowHistory.AtMostLimitPerWindow | src/cache/cache.service.ts:243-279 | In every serial history each span of `windowSeconds` clock seconds contains at most `limit` admitted calls |
| SlidingWindowHistory.AtMostLimitInRealTime | src/cache/cache.service.ts:247-250 | In milliseconds the same holds for spans of `(windowSeconds - 1) * 1000 + 1` |
| SlidingWindowHistory.RealTimeBoundIsTight | src/cache/cache.service.ts:247-250 | For every limit and window one millisecond more can contain twice the limit |
| SlidingWindowHistory.RealTimeSpanExactly | src/cache/cache.service.ts:207-241 | All histories keep to the limit in every span of a length if and only if it is at most (window - 1) * 1000 + 1 milliseconds |
| SlidingWindowHistory.AnswersAreExact | src/cache/cache.service.ts:250-278 | In every serial history `remaining` is the limit less the admitted calls of the window, and a refusal comes exactly when the window is full, with a retry time that is positive and ends when a place is free |
| SlidingWindowHistory.RetryIsExact | src/cache/cache.service.ts:253-269 | After a refusal in any serial history every call before `resetAt` is refused, and the next call is admitted exactly when it comes at or after it |
| TwoStores.StoresAgree | src/cache/cache.service.ts:207-279 | With a positive limit both stores give the same decision, remaining count, reset time and retry time to every call of every serial history, key expiry included |
| TwoStores.StoresDisagreeWithoutLimit | src/cache/cache.service.ts:220-257 | With a limit of zero or less, in every history, Redis refuses every call and the memory form throws on every call |
| TwoStores.SwitchingAdmitsTwice | src/cache/cache.service.ts:191-205 | Calls that switch between the stores in any way, whatever Redis had done before it failed, admit at most twice the limit in a window |
| TwoStores.SwitchingDoubles | src/cache/cache.service.ts:191-205 | For every limit and window some calls reach that bound, when Redis fails halfway |
| InterleavedChecks.SetStaysBounded | src/cache/cache.service.ts:216-234 | However `k` callers interleave their commands, and wherever they fail, the set holds at most `limit + k - 1` members |
| InterleavedChecks.BoundIsReached | src/cache/cache.service.ts:216-234 | For every limit and number of callers some run reaches that bound |
| InterleavedChecks.UninterruptedIsRedisCheck | src/cache/cache.service.ts:207-241 | A call whose commands nothing interrupts does to the set what the limiter's call does, and is admitted exactly when that says so |
| InterleavedAdmissions.AdmittedWhenInterleaved | src/cache/cache.service.ts:207-241 | In every interleaving of `k` callers, with old readings, failures and expiring keys, at most `limit + 3 * k - 1` calls with readings in any window are admitted |
| InterleavedAdmissions.OneCallerReachesIt | src/cache/cache.service.ts:207-241 | One caller is admitted four times in a window with a limit of two |
| CircuitBreaker.CircuitBreaker.GetState | src/common/circuit-breaker.ts:38-46 | Reading the state moves an open breaker to half-open once the timeout has passed |
| CircuitBreaker.CircuitBreaker.RecordFailure | src/common/circuit-breaker.ts:80-91 | A failure while half-open, or one that reaches the threshold, opens the breaker and restarts its clock |
| CircuitBreaker.CircuitBreaker.Execute | src/common/circuit-breaker.ts:56-71 | A guarded call runs unless the breaker is open, and records its success, or its failure if the error counts |
| BreakerHistory.AdmitsExactly | src/common/circuit-breaker.ts:38-91 | In every interleaving a call is let through exactly when the failures since the last recorded success are fewer than the threshold or the last is as old as the timeout |
| BreakerHistory.ListenerHearsEachChange | src/common/circuit-breaker.ts:93-97 | The listener's last word is the current state and every report is a real move, so each opening is reported once |
| SorobanRpcResilience.WithBackoff | src/stellar/soroban-rpc-resilience.ts:115-136 | At most three attempts, all but the last retryable, with delays of 250 and 500 milliseconds between them |
| SorobanRpcResilience.SorobanRpcResilience.Call | src/stellar/soroban-rpc-resilience.ts:79-113 | Refused without an attempt exactly while open; otherwise one to three attempts at the first endpoint, up to three at the second exactly when there is one and the first stayed retryable, and the outcome recorded |
| SorobanRpcResilience.FailureMeansEveryEndpoint | src/stellar/soroban-rpc-resilience.ts:86-112 | A failure is recorded exactly when every configured endpoint used up its attempts on retryable errors, a success exactly when one of them answered |
| SorobanRpcResilience.CallAnswers | src/stellar/soroban-rpc-resilience.ts:79-113 | A call's value, or its fatal error, is what some attempt at the first endpoint gives after retryable errors only, or at the second when the first never stopped being retryable |
| OverlappingCalls.OneOutcomePerCall | src/stellar/soroban-rpc-resilience.ts:79-113 | However calls overlap, each records at most one outcome and a refused one none |
| OverlappingCalls.OverlappingCallsAdmitted | src/stellar/soroban-rpc-resilience.ts:79-84 | However calls overlap, one is let through exactly when fewer than five failures are recorded since the last success or 30 seconds have passed since the last failure |
| NotificationTemplates.NotificationTemplateService.Create | src/email/notification-template.service.ts:42-48 | A template that does not compile or whose name is taken is refused; otherwise it starts at version 1 |
| NotificationTemplates.CreateExactly | src/email/notification-template.service.ts:42-48 | What a creation answers and leaves behind, text by text |
| NotificationTemplates.NotificationTemplateService.Update | src/email/notification-template.service.ts:55-63 | The replaced content becomes a snapshot; each given part replaces its own and the others stay, under the next version |
| NotificationTemplates.UpdateExactly | src/email/notification-template.service.ts:55-63 | A given text that does not compile or a missing template changes nothing; otherwise exactly the given parts change, one snapshot is added and nothing else |
| NotificationTemplates.NotificationTemplateService.Rollback | src/email/notification-template.service.ts:75-92 | A version without a snapshot is not found; otherwise its content comes back under the next version |
| TemplateHistory.Refines | src/email/notification-template.service.ts:42-121 | Every operation does to the store what it does to an append-only history |
| TemplateHistory.StoreShowsHistory | src/email/notification-template.service.ts:42-121 | After any operations a template's snapshots are exactly versions 1 to current - 1, and snapshot `k` is the content that was live at version `k` |
| TemplateHistory.SnapshotsAreImmutable | src/email/notification-template.service.ts:114-121 | A snapshot never changes and never goes away, whatever comes after |
| TemplateHistory.RollbackRestores | src/email/notification-template.service.ts:75-92 | `rollback(v)` succeeds exactly for versions before the current one, restores what was live at `v` under an unused number, and keeps what it replaced |
| PaymentImportCsv.ParseCsv | src/payments/payment-import.csv.ts:2-33 | The loop computes the reader's specification, the unclosed quote included |
| CsvRoundTrip.ParseUndoesPrint | src/payments/payment-import.csv.ts:2-33 | For all tables of arbitrary strings, however fields are quoted and with each of the three line ends, exactly the rows with a non-empty field come back, in order |
| CsvRoundTrip.UnclosedIsReported | src/payments/payment-import.csv.ts:26-28 | A quoted field that is never closed is an error, whatever was read before it |
| CsvRoundTrip.AuditExportReadsBack | src/admin/admin.service.ts:487-520 | The audit-log export reads back as its header and its non-blank rows, up to the formula prefix |
| CsvRoundTrip.AuditFileReadsBack | src/admin/admin.service.ts:487-503 | The file with its own columns reads back as those columns and every row, when none is blank |
| CsvRoundTrip.NoCellIsFormula | src/admin/admin.service.ts:505-520 | No exported cell starts with one of the six characters; it is the value, or the value after a quote exactly when the value starts with one |
| CsvRoundTrip.AnalyticsExportReadsBack | src/analytics/analytics-export.service.ts:199-204 | The analytics export reads back exactly, without its blank rows |
| CsvRoundTrip.ExportFileReadsBack | src/analytics/analytics-export.service.ts:199-204 | The file with its own columns reads back as those columns and every row, when none is blank |
| CsvRoundTrip.NeutraliseCollision | src/admin/admin.service.ts:515-517 | Two values print alike exactly when they are equal or one is the other with the prefix a formula gets |
| Base32.Base32Encode | src/admin/admin.service.ts:524-541 | The letters denote the bytes, zero-padded to whole quintets, although the register is never masked |
| Base32.Base32Decode | src/admin/admin.service.ts:543-559 | The bytes are the whole bytes of the number that the letters denote |
| Base32.DecodeUndoesEncode | src/admin/admin.service.ts:524-559 | Whatever decodes an encoding of some bytes is those bytes |
| Base32.RoundTrip | src/admin/admin.service.ts:524-559 | What is sent spells the bytes in the alphabet, what comes back is what the received text denotes, and any text that spells the encoding, in either case, with padding and with strangers in between, gives the bytes |
| Base32.ShiftInKeeps | src/admin/admin.service.ts:530-551 | Shifting into the truncated register keeps every bit that still counts |
| Base32.IgnoredExactlyWhenStray | src/admin/admin.service.ts:548-550 | A character changes nothing exactly when its upper-case form holds no letter of the alphabet |
| Base32.CaseIsIgnored | src/admin/admin.service.ts:548 | Upper-casing a text changes nothing, and lower-casing it nothing exactly when it holds none of three characters outside ASCII |
| Base32.PaddingIsIgnored | src/admin/admin.service.ts:548 | Trailing padding changes nothing |
| Ipv6Text.Ipv6ToBytes | src/security/ip-allowlist.guard.ts:24-90 | The parser computes its specification on every text, malformed ones included |
| Ipv6Text.FillGap | src/security/ip-allowlist.guard.ts:47-83 | The groups around a double colon are filled up to eight, and too many or too few are refused |
| Ipv6Forms.SpellingsAgree | src/security/ip-allowlist.guard.ts:24-90 | Whatever zero run is written as `::`, with or without a trailing dotted quad, a stray colon, brackets or a zone, the bytes are those of the eight groups |
| Ipv6Forms.AcceptedExactlyWhenSpelled | src/security/ip-allowlist.guard.ts:24-90 | A text is read exactly when, without spaces around it, brackets and zone, it spells an address, perhaps with one stray colon before the first or after the last group; every spelling is read as what it denotes |
| Ipv6Cidr.BytesInCidr | src/security/ip-allowlist.guard.ts:98-105 | Whole bytes and one masked byte decide equality of the first `bits` bits of the 128-bit numbers |
| BitMasks.MaskWord | src/security/ip-allowlist.guard.ts:122-139 | Masking a 32-bit word keeps its quotient, so masked words agree exactly when the quotients do |
| IpAllowlist.Ipv6InCidr | src/security/ip-allowlist.guard.ts:92-106 | True exactly for a prefix length of 0 to 128 and two readable addresses with the same leading bits |
| IpAllowlist.IpInCidr | src/security/ip-allowlist.guard.ts:108-140 | The guard computes its specification on every pair of texts |
| IpAllowlist.BareEntryIsItself | src/security/ip-allowlist.guard.ts:109 | An entry without a slash admits itself and no other text |
| IpAllowlist.ParseIntReads | src/security/ip-allowlist.guard.ts:111-113 | A prefix length is the sign and digits after blanks, whatever follows them; without digits it cannot be read |
| IpAllowlist.ToIntReads | src/security/ip-allowlist.guard.ts:124-133 | In a text of four parts, one that is no octet makes itself and all before it count as 0 |
| MetricsGuard.MetricsGuard.constructor | src/prometheus/metrics.guard.ts:15-32 | The two lists hold exactly the plain entries and the readable networks of the setting |
| MetricsGuard.MetricsGuard.IsAllowed | src/prometheus/metrics.guard.ts:54-65 | Allowed exactly when listed or inside a listed interval |
| MetricsGuard.EveryEntryCounts | src/prometheus/metrics.guard.ts:15-81 | The guard allows an address exactly when some entry of the setting does |
| MetricsGuard.BlanksDoNotMatter | src/prometheus/metrics.guard.ts:23-31 | Blanks around the entries of the setting do not matter |
| CidrAgreement.BothReadQuad | src/security/ip-allowlist.guard.ts:124-133 | Both guards read a valid dotted quad as the same number |
| CidrAgreement.MaskIsPrefix | src/security/ip-allowlist.guard.ts:122-139 | The mask test is equality of leading bits, except that prefix 0 compares all 32 |
| CidrAgreement.IntervalIsPrefix | src/prometheus/metrics.guard.ts:61-80 | The interval test is equality of leading bits for every prefix length |
| CidrAgreement.GuardsDecidePrefix | src/prometheus/metrics.guard.ts:54-94 | On valid quads each guard, read from text, decides equality of leading bits |
| CidrAgreement.GuardsAgree | src/security/ip-allowlist.guard.ts:108-140 | The two guards agree exactly when the prefix is not 0 or the addresses are the same |
| CidrAgreement.BareGuardsAgree | src/security/ip-allowlist.guard.ts:109 | For an entry without a slash both guards decide whether it is the address, and agree unless both are empty |
| CidrAgreement.BareIsPrefix32 | src/security/ip-allowlist.guard.ts:108-140 | On canonical quads an entry without a slash decides what the same entry with `/32` does, in either guard |
| CidrAgreement.BadPrefixAdmitsNobody | src/security/ip-allowlist.guard.ts:111-121 | An entry whose prefix length cannot be read or is out of range admits nobody, in either guard |
| CidrAgreement.Ipv6MatchIsPrefix | src/security/ip-allowlist.guard.ts:92-120 | Matching two spelled addresses, from text, is equality of the leading bits of the 128-bit numbers they denote, for every prefix from 0 to 128 |
| DecimalStrings.UnitsOfWritten | src/analytics/analytics.service.ts:750-768 | Units are read off the digits of every decimal with an optional sign, whole part, point and fraction |
| DecimalStrings.UnitsTruncate | src/analytics/analytics.service.ts:750-768 | Further decimals are cut off: the magnitude is the floor of the value times a million |
| DecimalStrings.UnitsRoundTrip | src/analytics/analytics.service.ts:762-776 | Every integer survives printing and reading |
| DecimalStrings.TextRoundTrip | src/analytics/analytics.service.ts:762-776 | Every canonical six-place string survives reading and printing exactly when it is not negative zero |
| DecimalStrings.SubtractIsExact | src/analytics/analytics.service.ts:756-760 | Subtraction is exact, and defined exactly when both strings can be read |
| DateRangeMeaning.StartOfUtcDayIs | src/common/date-range.util.ts:34-36 | The helper gives the start of the day as `Date.UTC` reads it, which is the day's own exactly when the year is not 0 to 99 |
| UtcCalendar.ShownDayIs | src/common/date-range.util.ts:34-36 | A day is read as itself exactly outside the years 0 to 99, and what it is read as is read as itself |
| DateRangeMeaning.StartOfUtcMonthIs | src/common/date-range.util.ts:38-40 | The helper gives the start of the month as `Date.UTC` reads it, which is the month's own exactly when the year is not 0 to 99 |
| DateRangeMeaning.AddUtcDaysIs | src/common/date-range.util.ts:42-44 | The helper moves the day as `Date.UTC` reads it by that many days, to midnight; it moves the day itself exactly when the year is not 0 to 99 |
| DateRangeMeaning.AddUtcMonthsIs | src/common/date-range.util.ts:46-48 | The helper gives the start of the month that many months from the one `Date.UTC` reads, or from the month itself exactly when the year is not 0 to 99 |
| DateRangeMeaning.PresetWindowIs | src/common/date-range.util.ts:84-99 | A preset window ends today and holds its number of days, or the days since January 1st |
| DateRangeMeaning.RequestIsChecked | src/common/date-range.util.ts:70-110 | No window is meant exactly when nothing is given; an unknown preset, a preset together with a date, and a custom range without a readable start or with an unreadable end are refused |
| DateRangeMeaning.CustomWindowIs | src/common/date-range.util.ts:101-120 | A custom range is accepted exactly when its first day is not after its last and that is less than a calendar year later, and is then those whole days; days of any year, as `Date.UTC` reads them |
| DateRangeMeaning.RequestIsInside | src/common/date-range.util.ts:101-120 | An accepted custom range contains both requested instants exactly when no year has two digits, or it starts in the year before year 0; it has 1 to 366 days exactly unless it starts in that year and leaves it |
| DateRangeMeaning.DateRangeIs | src/common/date-range.util.ts:127-153 | A default range is 30 days or 12 whole months; a given one is the days, or the months, from the first to the last; an inverted one is refused; for given days of any year |
| DateRangeMeaning.MalformedDates | src/common/date-range.util.ts:127-147 | A date that cannot be read is refused |
| AnalyticsPeriods.WindowPeriodsAre | src/analytics/analytics.service.ts:122-139 | The current period is the days, or whole months, the window touches, and the previous one ends where it starts and has the same number of days or months, exactly when the days it is made from are read plainly |
| AnalyticsPeriods.CurrentContainsWindow | src/analytics/analytics.service.ts:122-139 | The current period contains the window, and exceeds it by less than 31 days on either side, exactly when the days are read plainly |
| AnalyticsPeriods.RevenueRangesAre | src/analytics/analytics.service.ts:613-683 | Default and given revenue ranges are split in the same way, and refused exactly when inverted, for given days of any year |
| AnalyticsPeriods.MalformedRevenueDates | src/analytics/analytics.service.ts:613-650 | A date that cannot be read is refused |
| AnalyticsPeriods.RevenueSplitIs | src/analytics/analytics.service.ts:613-683 | The split is two spans next to each other and equally long exactly when first and last bucket are read as themselves |
| AnalyticsSeries.BuildSeries | src/analytics/analytics.service.ts:506-554 | The volume series, and likewise the revenue series of lines 685 to 737, lists the days or months that the loop goes through, with their rows' numbers or zeros; each one of the range once and in order when none but the last lies in the years 0 to 99 |
| AnalyticsSeries.WalkIsUpto | src/analytics/analytics.service.ts:522-551 | The loop goes through every bucket of the range once and in order exactly when none but the last lies in the years 0 to 99 |
| AnalyticsSeries.SeriesAddsUp | src/analytics/analytics.service.ts:506-554 | The counts of the series, and its amounts in millionths, add up to those of the grouped rows whose bucket lies in the range |
| AnalyticsSeries.OneBucketPerInstant | src/analytics/analytics.service.ts:527-548 | Every instant of the range carries the label of exactly one bucket of the series |
| AnalyticsSeries.DayLabelSays | src/analytics/analytics.service.ts:790-792 | In the years 0 to 9999 a day's label is ten characters whose digits name its year, its month from 1 to 12 and its date, with dashes between |
| AnalyticsSeries.MonthLabelSays | src/analytics/analytics.service.ts:794-796 | A month's label is seven characters whose digits name the year and the month that the instant lies in |
| AnalyticsSeries.BucketLabelSays | src/analytics/analytics.service.ts:527-551 | The label of each bucket of the series names its own day or month |
| AnalyticsSeries.DayLabelTells | src/analytics/analytics.service.ts:790-792 | In the years 0 to 9999 two instants have the same label exactly when they lie on the same day |
| AnalyticsSeries.MonthLabelTells | src/analytics/analytics.service.ts:794-796 | In the years 0 to 9999 two instants have the same label exactly when they lie in the same month |
| AnalyticsSeries.SignedYearsCollide | src/analytics/analytics.service.ts:790-792 | Outside those years all days of a month have the same label |
| UtcCalendar.NextMonth | src/common/date-range.util.ts:46-48 | Consecutive months lie apart by the length of the first, leap years included |
| UtcCalendar.MonthsFollowPattern | src/common/date-range.util.ts:46-48 | From March on the lengths of the months follow their pattern, after a February of 28 or 29 days |
| UtcCalendar.MonthOfIs | src/common/date-range.util.ts:38-48 | A day belongs to the one month that starts no later and ends after it |
| TopMerchantPages.OrderOfHaving | src/admin/admin.service.ts:917-931 | Filtering by the cursor and ordering can be exchanged |
| TopMerchantPages.RestOfTable | src/admin/admin.service.ts:917-931 | The rows after the cursor of row `i` are rows `i + 1` on of the ordered table |
| TopMerchantPages.FewerRemain | src/admin/admin.service.ts:942-958 | Every page that has a next one leaves `limit` fewer groups to give |
| TopMerchantPages.FollowingGivesEverything | src/admin/admin.service.ts:871-966 | On an unchanged table, following `nextCursor` ends and gives every group exactly once, by volume descending then identifier ascending, in full pages up to the last |
| PdfText.ReaderShows | src/analytics/analytics-export.service.ts:417-426 | A PDF reader shows exactly what the first two passes leave |
| PdfText.TextSurvivesExactlyWhenPlain | src/analytics/analytics-export.service.ts:417-426 | It shows the text itself exactly when every character is printable ASCII |
| PdfText.AccentsBecomeFour | src/analytics/analytics-export.service.ts:419-422 | Each character from U+0080 to U+00FF is shown as four, each above U+FFFF as two |
| PdfText.OctalAlone | src/analytics/analytics-export.service.ts:419-422 | What the first pass makes of such a letter would read back as the letter |
| PdfText.ClosesWhereMeant | src/analytics/analytics-export.service.ts:373-426 | No text can end its literal string early or keep it open |
| PdfFile.BuildPdf | src/analytics/analytics-export.service.ts:399-414 | The file is its objects, the table of their offsets and a trailer that points at the table |
| PdfFile.NumbersAreWritten | src/analytics/analytics-export.service.ts:399-414 | Objects carry their numbers in decimal digits; table and trailer announce one entry more than there are objects, and `startxref` the table's offset |
| PdfFile.OffsetsPointAtObjects | src/analytics/analytics-export.service.ts:400-414 | Each recorded offset is where its object starts, and `startxref` is where the table starts |
| PdfFile.EntriesAreAligned | src/analytics/analytics-export.service.ts:410-412 | Table entries are twenty bytes, so each is found by its number, for files below ten billion bytes |

## Left out

- Payment creation, e-mail, metrics, alerts' contents, logging and Sentry: plumbing without state of its own here.
- The SQL and Redis text: a query is a filter with an order, a command an atomic step.
- SorobanEventIndexer: the one-year expiry of the stored cursor and several processes sharing it, either of which could move it back; events without a ledger number; listeners that had run before another one threw.
- RecurringPayments: the read-then-save race of `cancel` with a claim. src/payments/payments.service.ts is empty, so what `create` does is not part of this model, beyond making the payment or not and returning or throwing.
- StellarTxQueue: several processes on one account appear only as other writers; transaction contents are not modelled.
- WebhookHistory.CountIsStreak: this and the other histories are serial; deliveries of one webhook do not overlap.
- WebhookRetries.RetriesEnd: the delays between attempts, and a policy of the merchant that changes while retries wait.
- WebhookReplay.Replay: takes the query's answer as given; a webhook and event whose latest log is not among the newest 500 is not sent, as in the code.
- SlidingWindow: calls of one key with different limits, and Redis clocks that differ from the caller's.
- CircuitBreaker.CircuitBreaker.Execute: states a call that nothing overlaps; overlapping calls are covered by the histories of recorded outcomes.
- NotificationTemplates: previews, and whatever Handlebars accepts beyond its yes or no.
- PaymentImportCsv.ParseCsv: row validation after reading is not modelled.
- Base32.CaseIsIgnored: of case mappings only what they give of the alphabet is kept; all other characters map to themselves.
- AnalyticsSeries.BuildSeries: volumes stay exact decimal texts where the code turns them into floating point; percentages are left out for the same reason.
- DateRangeMeaning.CustomWindowIs: how `Date` parses texts is a parameter, and dates beyond what a `Date` can hold are not refused.
- TopMerchantPages.FollowingGivesEverything: volumes are exact where the cursor goes through a floating-point number; the encoding of the cursor as text and rates per row are left out.
- PdfFile.BuildPdf: the layout of the page's content, and the sorted rows of the analytics export, are short and stateless.
- Cryptography, key selection, the runtime-configuration cache, payment states, settlements, disputes and fee tiers.
