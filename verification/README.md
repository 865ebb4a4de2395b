# Email campaign scheduler — a Dafny model of its decision logic

The system schedules email campaigns. A client page collects recipients
from an uploaded file and a manual field and posts one request per
campaign. The server admits it: it validates the sender and the
recipients, computes a base delay and a stagger interval, and writes one
PENDING message plus one delayed queue job per recipient. A worker later
claims each job. It skips missing or already SENT messages, counts the
attempt in a per-sender, per-hour counter kept in Redis, throttles beyond
the sender's hourly quota (THROTTLED, re-delayed to the next whole hour),
and otherwise hands the message to the transport (SENT or FAILED). A
dashboard lists the messages on two tabs with two counters, and a listing
endpoint filters and orders them.

The model lifts each of these decisions into pure Dafny functions over
integers, reals, sequences and maps:

| file | module | models |
|---|---|---|
| `domain.dfy` | `Domain` | `Option`, `Result`, the four message statuses and their names, the sender record, one hour in ms |
| `seqs.dfy` | `Seqs` | `Array.prototype.filter`, subsequences, `Array.from(new Set(...))` (first-occurrence de-duplication) |
| `scheduling.dfy` | `Scheduling` | `scheduleEmail`: validation, base delay, interval, per-recipient delays, created messages and jobs |
| `listing.dfy` | `Listing` | `getScheduledEmails`: status filter (upper-cased) and sender filter, newest first |
| `rate_limit.dfy` | `RateLimit` | the Redis hour counter: key, INCR, expiry of 3660 s set on the first increment, the wait until the next hour |
| `email_worker.dfy` | `EmailWorker` | the worker's processing step, runs of steps, the quota bound, the retry policy (3 attempts, backoff from 1000 ms), the quota-2 burst |
| `compose.dfy` | `Compose` | `handleFileUpload` (split, trim, address pattern, append) and `handleSend` (manual address, de-duplication, aborts, numeric fields) |
| `dashboard.dfy` | `Dashboard` | `filteredEmails`, `scheduledCount`, `sentCount` |

Time is an integer number of milliseconds. Each request and each worker
step reads the clock once, as the parameter `now`. The hour of an instant
is `now / 3600000`. For instants in the years 0000 to 9999 the ISO
timestamp cut after its hour digits names exactly one UTC hour, so this
number identifies the same counter. The
stagger interval is a `real`, because `3600000 / hourlyLimit` is a float
division. The transport's verdict is a boolean input of the worker step.
Message ids come from a counter `nextId` passed to the admission.

Two consequences of the worker's code are worth stating:

- FAILED is not terminal. The worker skips only SENT messages
  (server/src/jobs/email.worker.ts:59-62). A retried job whose message is
  FAILED is counted again and may end SENT.
- Every claim is counted, throttled or not. With quota 2 and five messages
  claimed in one hour, two are sent and three throttled; in the next hour
  the three are claimed again and only two are admitted, so the third goes
  out the hour after (`EmailWorker.BurstWithQuotaTwo`).

## Model

| member | source | states |
|---|---|---|
| Scheduling.RecipientList | server/src/modules/email/email.controller.ts:16 | an array is taken as it is, element for element and in order; any other value becomes a one-element list; so the list is empty only for an empty array |
| Scheduling.CampaignJobs | server/src/modules/email/email.controller.ts:35-61 | one job per recipient, none with a negative delay |
| Scheduling.CampaignMessages | server/src/modules/email/email.controller.ts:38-50 | one message row per recipient |
| Scheduling.Schedule | server/src/modules/email/email.controller.ts:5-70 | an unknown sender is rejected before anything is created; "no recipients" exactly for an empty array (a non-array value is wrapped); otherwise one PENDING message and one job per recipient, in input order, with consecutive fresh ids, job id = message id, delay = base + i * interval, and send time = now + delay, rounded down to a whole millisecond |
| Scheduling.BaseDelay | server/src/modules/email/email.controller.ts:21-22 | the base delay is never negative, reaches `sendAt` exactly when it lies ahead, and is 0 when `sendAt` is absent or past |
| Scheduling.Interval | server/src/modules/email/email.controller.ts:24-31 | the interval is positive iff a positive limit or delay is given; it is at least the hourly spacing and at least delay * 1000 when those are set, and it equals one of them or 0 |
| Scheduling.DelaysIncrease | server/src/modules/email/email.controller.ts:35-38 | later recipients never wait less, and wait strictly longer when the interval is positive |
| Scheduling.EmailDelayMonotone | server/src/modules/email/email.controller.ts:37 | base + i * interval is non-decreasing in i, strictly increasing for a positive interval |
| Scheduling.DelayOnlyStagger | server/src/modules/email/email.controller.ts:29-37 | with only a per-pair delay D set, recipient i waits base + i * D * 1000 ms |
| Scheduling.ZeroFieldsMeanUnset | server/src/modules/email/email.controller.ts:26-31 | a zero delay or hourly limit admits exactly the same campaign as an absent one |
| Scheduling.HourWindowHoldsAtMostLimit | server/src/modules/email/email.controller.ts:24-37 | with an integral hourly limit L > 0, every half-open one-hour window holds at most L of the campaign's delays |
| Scheduling.SpacedHourBound | server/src/modules/email/email.controller.ts:26-27 | delays spaced by g, with L * g covering an hour, put at most L into any one-hour window |
| Scheduling.RepeatedRequestsGetDistinctIds | server/src/modules/email/email.controller.ts:41-58 | the same request admitted twice is admitted both times, with the same size and disjoint message and job ids (nothing is de-duplicated) |
| Scheduling.RecordCampaign | server/src/modules/email/email.controller.ts:41-50 | after admission the store holds exactly the earlier ids and the new ones; every new message is PENDING and every other stored status is unchanged |
| Listing.UpperChar | server/src/modules/email/email.controller.ts:89 | lower-case ASCII letters move up by 32, long s (U+017F) becomes 'S' and dotless i (U+0131) becomes 'I', and every other character is unchanged |
| Listing.UpperIdempotent | server/src/modules/email/email.controller.ts:89 | upper-casing twice is upper-casing once |
| Listing.StatusNamesAreUpperCase | server/src/modules/email/email.controller.ts:89 | a query spelled exactly like a status name selects that status |
| Listing.Matches | server/src/modules/email/email.controller.ts:87-93 | with neither filter given every record matches; a given status query matches only records whose status name is the upper-cased query; a given sender filter matches only that sender's records, and with no status query it matches every one of them |
| Listing.ListingByStatus | server/src/modules/email/email.controller.ts:88-96 | with a status query, every listed record has the upper-cased query as its status name, and every stored record with that status (and the given sender, if any) is listed |
| Listing.ListingBySender | server/src/modules/email/email.controller.ts:87-96 | with only a sender filter given, a record is listed iff it is stored with that sender's address, whatever its status |
| Listing.SortDesc | server/src/modules/email/email.controller.ts:98 | ordering keeps the number of records |
| Listing.ListScheduled | server/src/modules/email/email.controller.ts:83-99 | the listing is ordered newest first and is a rearrangement of exactly the stored records matching both filters |
| Listing.ListingHoldsExactlyTheMatches | server/src/modules/email/email.controller.ts:87-96 | a record is listed iff it is stored and matches the status filter (if given) and the sender filter (if given) |
| Listing.StatusQueryIgnoresCase | server/src/modules/email/email.controller.ts:88-90 | a status query and its upper-cased spelling list the same records |
| Listing.UnknownStatusListsNothing | server/src/modules/email/email.controller.ts:88-96 | a non-empty status query that names no status lists nothing |
| Listing.SortDescSortsAndPermutes | server/src/modules/email/email.controller.ts:98 | the createdAt-descending order is sorted and keeps every record exactly as often as before |
| Listing.InsertDescSorted | server/src/modules/email/email.controller.ts:98 | inserting into a newest-first list keeps it newest first |
| RateLimit.HourBucket | server/src/jobs/email.worker.ts:65 | the bucket is the hour that contains the instant: it starts at or before it and ends after it |
| RateLimit.KeyFor | server/src/jobs/email.worker.ts:65-66 | the counter key names the sender and the hour that contains the instant |
| RateLimit.Incr | server/src/jobs/email.worker.ts:68 | INCR returns one more than the live count (0 for a missing or expired key), keeps a live key's expiry, and leaves every other key alone |
| RateLimit.CountAttempt | server/src/jobs/email.worker.ts:65-72 | the counter of (sender, current hour) goes up by one; an expiry of now + 3660 s is set exactly when the count is 1; no other key changes |
| RateLimit.LiveThroughoutItsHour | server/src/jobs/email.worker.ts:70-72 | with expiries at least 3660 s after the hour's start, a counter never expires during its own hour |
| RateLimit.CountAttemptNeverResets | server/src/jobs/email.worker.ts:65-72 | counting keeps every counter's expiry past its hour and returns exactly the stored count plus one |
| RateLimit.NextHourDelay | server/src/jobs/email.worker.ts:84-88 | the re-delay lies in (0, 3600000] ms and lands on the start of the next hour |
| EmailWorker.Step | server/src/jobs/email.worker.ts:48-62 | a missing sender or message skips the step; an already SENT message skips it; a skipped step changes nothing; no step adds or removes messages |
| EmailWorker.Run | server/src/jobs/email.worker.ts:45-130 | processing claimed jobs one after another gives one outcome per job, and no run adds or removes a stored message |
| EmailWorker.StepPastGuards | server/src/jobs/email.worker.ts:64-129 | past the guards the counter goes up once; throttled iff count > quota (THROTTLED, re-delayed to the next hour, never FAILED); otherwise SENT or FAILED per the transport; nothing else changes |
| EmailWorker.StepCounting | server/src/jobs/email.worker.ts:68-74 | one step keeps the counters well formed, never lowers a count, and reaches the transport only within the quota |
| EmailWorker.RunWithinQuota | server/src/jobs/email.worker.ts:65-74 | over any run, the stored count plus the sends under one (sender, hour) counter never exceed the quota |
| EmailWorker.AtMostQuotaPerHour | server/src/jobs/email.worker.ts:65-74 | starting from no counter, at most hourlyQuota messages per sender and hour reach the transport |
| EmailWorker.SentIsNeverReprocessed | server/src/jobs/email.worker.ts:59-62 | a SENT message stays SENT and every later job for it is skipped before counting or sending |
| EmailWorker.Settle | server/src/jobs/queues.ts:6-11 | a throttle re-delays without spending an attempt; a transport error retries with backoff 1000 * 2^n until the third attempt, then the job stays failed; anything else completes |
| EmailWorker.AdmittedJobsPassGuards | server/src/jobs/email.worker.ts:51-62 | right after admission every job of the campaign finds its message and passes both guards |
| EmailWorker.ClaimStep | server/src/jobs/email.worker.ts:64-113 | one claim with n prior claims in the hour is delivered iff n < quota, throttled otherwise, and raises the count to n + 1 |
| EmailWorker.ClaimsWithinOneHour | server/src/jobs/email.worker.ts:68-91 | claims of distinct unsent messages in one hour: the k-th is delivered iff n + k < quota, and throttled otherwise |
| EmailWorker.ClaimsWithinOneHourStatuses | server/src/jobs/email.worker.ts:74-113 | the same claims leave the k-th message SENT iff n + k < quota and THROTTLED otherwise, and every other message as it was |
| EmailWorker.RunTouchesClaimedCounters | server/src/jobs/email.worker.ts:65-68 | a run creates counters only for the (sender, hour) pairs it claims in |
| EmailWorker.BurstFirstHour | server/test_scenarios.js:48-50 | quota 2, five PENDING messages claimed in one hour: two delivered, three throttled |
| EmailWorker.BurstWithQuotaTwo | server/src/jobs/email.worker.ts:74-91 | the burst end to end: 2 SENT and 3 THROTTLED, then 4 SENT after the next hour, then all 5 SENT the hour after |
| Compose.SplitPiecesArePlain | client/src/pages/ComposePage.tsx:71 | no piece of the split contains a newline, comma or semicolon |
| Compose.SplitSingle | client/src/pages/ComposePage.tsx:71 | text without separators splits into itself alone, and text with one splits into several pieces |
| Compose.SplitEmptyPieces | client/src/pages/ComposePage.tsx:71 | the first piece is empty iff the text is empty or starts with a separator, the last likewise at the end, and no other piece is empty (runs of separators count once) |
| Compose.SplitKeepsEveryOtherCharacter | client/src/pages/ComposePage.tsx:71 | the pieces concatenated give the text with its separators deleted |
| Compose.Split | client/src/pages/ComposePage.tsx:71 | the split always yields at least one piece, even for empty text |
| Compose.SplitAfterRun | client/src/pages/ComposePage.tsx:71 | a whole run of separators, of any length and mix, in front of a non-separator makes exactly one empty piece |
| Compose.SplitAfterPiece | client/src/pages/ComposePage.tsx:71 | a run of separators after a separator-free piece ends that piece, and the rest splits on its own |
| Compose.SplitJoin | client/src/pages/ComposePage.tsx:71 | splitting undoes joining with any non-empty runs of separators (such as ",\n" or ",;") between the pieces, for every list of pieces the split can produce |
| Compose.SplitMixedRun | client/src/pages/ComposePage.tsx:71 | a CSV line end ",\n" between two addresses is a single boundary |
| Compose.TrimStart | client/src/pages/ComposePage.tsx:73 | the result is a suffix, everything dropped is white space, and it does not start with white space |
| Compose.TrimEnd | client/src/pages/ComposePage.tsx:73 | the result is a prefix, everything dropped is white space, and it does not end with white space |
| Compose.Trim | client/src/pages/ComposePage.tsx:73 | the trimmed string neither starts nor ends with white space |
| Compose.TrimIsMiddle | client/src/pages/ComposePage.tsx:73 | what trimming keeps is the contiguous slice of the input that starts where the leading white space ends |
| Compose.TrimMargins | client/src/pages/ComposePage.tsx:73 | everything before and after that slice is white space |
| Compose.TrimRemovesPadding | client/src/pages/ComposePage.tsx:73 | any white space around a string without white space at its ends is exactly what trimming removes |
| Compose.TrimIdempotent | client/src/pages/ComposePage.tsx:73 | trimming twice is trimming once |
| Compose.IsValidEmail | client/src/pages/ComposePage.tsx:74 | a string the address pattern accepts has at least five characters, among them an '@' and a '.' |
| Compose.EmailPatternShape | client/src/pages/ComposePage.tsx:74 | the address pattern matches iff there is no white space, exactly one '@' and not first, and a '.' after it that is neither right after the '@' nor last |
| Compose.ParseUpload | client/src/pages/ComposePage.tsx:71-74 | every address taken from a file matches the pattern |
| Compose.ParseUploadCounts | client/src/pages/ComposePage.tsx:71-74 | a matching address occurs in the file's result exactly as often as among the trimmed pieces (repeats are kept), and a non-matching string never |
| Seqs.FilterCount | client/src/pages/ComposePage.tsx:74 | filtering keeps every copy of each value it accepts and no copy of one it rejects |
| Compose.ParseUploadTakesMatchingPieces | client/src/pages/ComposePage.tsx:71-74 | every trimmed piece that matches is taken; every address taken is a trimmed piece without separators; file order is kept |
| Compose.AfterUpload | client/src/pages/ComposePage.tsx:76 | the earlier list stays unchanged in front and is followed by exactly the file's parsed addresses in file order, without de-duplication |
| Compose.ManualAddress | client/src/pages/ComposePage.tsx:90-94 | the manual entry is used, trimmed, iff its trimmed form matches the pattern |
| Compose.FinalRecipients | client/src/pages/ComposePage.tsx:88-96 | the posted list is at most one longer than the uploaded list, and is empty when nothing was uploaded and the manual entry is invalid |
| Seqs.Dedup | client/src/pages/ComposePage.tsx:96 | de-duplication never lengthens the list |
| Compose.FinalRecipientsMembers | client/src/pages/ComposePage.tsx:88-96 | an address is posted iff it was uploaded or is the valid trimmed manual entry |
| Compose.FinalRecipientsContents | client/src/pages/ComposePage.tsx:88-101 | the posted list holds every uploaded address and the valid manual one, nothing else, each once; it is empty iff nothing was uploaded and the manual entry is invalid |
| Seqs.DedupSameElements | client/src/pages/ComposePage.tsx:96 | de-duplication keeps exactly the values of the list |
| Seqs.DedupNoDuplicates | client/src/pages/ComposePage.tsx:96 | after de-duplication no value occurs twice |
| Seqs.DedupKeepsFirstOccurrenceOrder | client/src/pages/ComposePage.tsx:96 | the survivors follow the order of their first occurrences |
| Compose.HandleSend | client/src/pages/ComposePage.tsx:82-112 | no sender (null or empty id) aborts; otherwise an empty final list aborts; otherwise one request with the final list, `Number` of both numeric fields and the chosen send time |
| Compose.PostedRequestIsAdmitted | client/src/pages/ComposePage.tsx:104-112 | a posted request for a known sender is admitted with one message per distinct recipient, every uploaded address among them |
| Compose.BlankFieldsMeanNoStagger | client/src/pages/ComposePage.tsx:109-110 | blank delay and hourly-limit fields post zeros, which the server reads as no stagger |
| Dashboard.FilteredEmails | client/src/pages/Dashboard.tsx:58-64 | the active tab lists exactly the fetched rows whose status belongs to it |
| Dashboard.TabKeepsFetchedOrder | client/src/pages/Dashboard.tsx:58-64 | each tab is a subsequence of the fetched list |
| Dashboard.TabsAreDisjoint | client/src/pages/Dashboard.tsx:58-64 | no row is on both tabs, and a row is on one of them iff its status is one of the five declared names |
| Dashboard.ScheduledCount | client/src/pages/Dashboard.tsx:66 | the scheduled counter never exceeds the number of rows, and equals it when every row is PENDING or THROTTLED |
| Dashboard.SentCount | client/src/pages/Dashboard.tsx:67 | the sent counter never exceeds the number of rows, and equals it when every row is SENT, COMPLETED or FAILED |
| Dashboard.CountsMatchTabs | client/src/pages/Dashboard.tsx:58-67 | each counter, whose condition is written out separately, equals the number of rows its tab lists |
| Dashboard.CountsCoverDeclaredRows | client/src/pages/Dashboard.tsx:66-67 | when every status is declared, the two counters add up to the number of rows |
| Dashboard.ServerStatusesLandOnATab | client/src/pages/Dashboard.tsx:17 | every stored status reaches the page as a declared name: PENDING and THROTTLED on the scheduled tab, SENT and FAILED on the sent tab |

## Left out

- HTTP plumbing, Prisma persistence and the status codes: the handlers are modelled as functions returning a result or an error value.
- The admission's crash gap: creating a row, enqueueing its job and back-filling the job id are one atomic step in the model.
- Database-generated ids: ids come from the `nextId` parameter.
- BullMQ internals: the delayed-queue claim, `moveToDelayed`, the exponential backoff timer, the 100-jobs-per-second limiter and worker concurrency. Steps run one after another; Redis INCR is atomic, so any interleaving is some such order.
- The transport (nodemailer, the Ethereal account, the HTML body): its verdict is a boolean input.
- The `minDelay` pause after a send: wall-clock pacing with no effect on state.
- Date parsing of `sendAt`: the model receives the parsed instant, or none for an absent or empty field; an unparsable string (NaN) is not modelled.
- Float rounding: the interval and delays are exact reals.
- Scheduling.HourWindowHoldsAtMostLimit: stated for an integral hourly limit only, because a fractional limit L permits up to ceil(L) delays per hour.
- EmailWorker.Step: a failure of the Redis counter client is not modelled; the counter store always answers. In the source a rejected INCR or EXPIRE throws before any status write, spends one of the three attempts, and after the third leaves the message PENDING or THROTTLED, never FAILED; a failed EXPIRE after a successful INCR leaves that hour's counter without an expiry.
- EmailWorker.Settle: "anything else completes" holds only because the step never fails on the counter store; the retry path of a counter-store failure above is not part of the disposition.
- RateLimit.HourBucket: instants before the year 0000 or from the year 10000 on are not modelled. There the ISO timestamp carries a signed six-digit year, the cut after thirteen characters names a whole day, and the source uses one counter for the whole day where the model uses one per hour.
- RateLimit.NextHourDelay: the source computes the next hour in local time; the model assumes the local offset is a whole number of hours, so local and UTC hours start together.
- Characters outside the Basic Multilingual Plane: a Dafny `char` is a Unicode scalar value, and JavaScript sees such a character as two surrogate code units. Neither form is a separator, white space, '@' or '.', so the split, the trim and the address pattern treat both alike; only string lengths differ, and since a string has at least as many code units as scalar values, every lower bound on a length stated here holds for JavaScript too.
- Listing.UpperChar: only the characters whose upper case is an ASCII letter are mapped. Every other mapping yields a non-ASCII character or a letter group (SS, FF, FI, FL, FFI, FFL, ST) that occurs in no status name, so equality with a status name is decided exactly.
- Listing.ListScheduled: rows created at the same instant keep their stored order; the database leaves their order unspecified. If the store rejected an unknown status name instead of matching nothing, that error is not modelled; the database schema is not part of this model.
- Arrays or other non-string query values of the listing parameters.
- The hourly quota's default of 100 when a sender is created: the model accepts any quota.
- Scheduling.RecipientValue: elements of `recipients` are addresses or `undefined`; whether the store accepts an undefined recipient depends on the schema, which is not part of this model.
- Dashboard polling every 10 s, the React rendering, routing, authentication and the sender lookup on the compose page.
