# MailBaby: a verified model

MailBaby takes email jobs from a queue, retries them, dead-letters what fails and sends
the rest over pooled SMTP connections. This project models its hard parts in Dafny and
proves what they keep: the concurrent parts for every interleaving of their atomic
steps, the sequential parts for every input. `dafny verify dfyconfig.toml` checks all of
it.

## How it is built

A concurrent part is a step system: a `State`, a set of `Event`s, when each is `Enabled`
and what comes `Next`. A goroutine is at one location, a step is one channel operation,
atomic operation or lock section of the source, and dial results, callback outcomes,
timeouts and scheduling are whatever events occur. `Run(ss, es)` is any finite run, and
the main lemmas speak of every state of every run.

A sequential part that updates fields or buffers is a class or a method with the
source's loops, proved against a specification function; the promises are then lemmas
about that function.

| file | part |
|---|---|
| `Basics.dfy` | bytes, options, regrouping of sequences and products |
| `Threads.dfy` | counting goroutines by location, counting in sequences |
| `ConnPool.dfy`, `ConnOutcome.dfy` | the SMTP connection pool; what its callers get |
| `Message.dfy`, `Settlement.dfy` | a queue message; Ack and Nack racing on it |
| `MemoryQueue.dfy` | the in-memory queue: publish, delayed publish, requeue, consume, receive, close |
| `Lifecycle.dfy` | starting and stopping the engine |
| `Backoff.dfy`, `Pipeline.dfy`, `RetryRhythm.dfy`, `Fate.dfy`, `EngineCounters.dfy` | retry arithmetic, one message through engine and consumer, the retry loop's sends and sleeps, what becomes of the message, the counters under concurrency |
| `KeyRateLimit.dfy`, `KeyRateBounds.dfy`, `TokenBucket.dfy` | the two rate limiters; the exact bound of the first |
| `AsyncLog.dfy`, `AsyncAccount.dfy` | the asynchronous log writer; what becomes of each entry |
| `Base64.dfy`, `MimeLines.dfy`, `MimeTree.dfy`, `MimeText.dfy` | base64, line breaking, MIME trees: how they are written, and a reader that stands on its own |
| `MimeHeaders.dfy`, `MimeAddresses.dfy`, `MimeBuilder.dfy`, `MimeOutline.dfy`, `MimeWriter.dfy` | the fields of a message, its address lists, its tree, what a reader finds in it, and the code that writes it |

## Where the code and its promises part

The model follows the code. Where a promise does not hold of it, a lemma gives a case and
another the exact condition.

- `activeConns`, between actions, is not the number of open connections once a dial has
  failed: the failed dial decrements a counter it never incremented
  (`FailedDialGoesNegative`, `ActiveIsOpenIff`).
- An Ack that returns nil early need not mean that the message is settled
  (`EarlyNilCanBeWrong`, `EarlyNilIsSettledIff`).
- Close can see `inFlight` at zero while a worker holds a message: zero means that none
  does if and only if as many workers have entered as have taken (`DrainMissesTheGap`,
  `DrainedIff`).
- After a Stop that timed out, Stopped is reported beside a live loop, and the stale
  consumer's exit can do so again under the next one: IsRunning is exact in all runs with
  at most n timed-out Stops if and only if n is zero (`TimedOutStopIsInexact`,
  `StaleConsumerHidesLiveOne`, `IsRunningExactIff`).
- The engine keeps a message unacknowledged when its dead-letter publish fails, but the
  memory consumer acknowledges it all the same: such messages are the residue
  (`AckOnlyAfterRecord`, `EveryFate`).
- The "sliding window" limiter is a fixed-window one: a window length can hold 2*cap - 1
  accepted requests of a key (`BurstRun`). And a key evicted from the full map starts
  afresh, so with one key more than the map holds there is no bound at all
  (`EvictionRun`). The exact bound is 2*cap - 1 for keys that fit the map; the sliding
  bound holds if and only if they fit and the cap is 1 (`BoundIff`, `SlidingIff`).
- The token bucket gains on the configured rate unless the rate divides a second or is
  at least 1000 (`ThreePerSecondGains`, `LongRunRateIff`).
- A connection acquired by Send is released if and only if the SMTP client does not panic
  (`AccountSender.Send`).
- The backoff follows its documentation until the shift wraps to a small positive value:
  an interval follows it at every attempt if and only if none of the first 39 shifts does
  (`WrapShortensBackoff`, `FirstOddPartThatFails`, `DocumentedIff`, `EveryAttemptIff`).
  `rand.Int63n` has a positive argument on every attempt if and only if the interval is at
  least 2ns (`JitterSafeIff`).
- A Sync that finds the log writer closed returns at once, while another Sync may still be
  at work: all returns are flushed, with at most n such calls, if and only if n is zero
  (`EarlySyncUnflushed`, `SyncFlushesIff`).
- A Write can return nil for an entry that is never written: exactly when it enqueues
  after the worker has seen the channel empty (`LostWrite`, `WrittenIff`).
- A caller's Content-Transfer-Encoding header is written before the body's own, and a
  reader goes by the first. A message reads back exactly if and only if that header, where
  set, is base64 for a single body and an identity for a multipart message, and no
  attachment type and no inline content id contains a CRLF, or an LF for a reader or a
  transport that ends lines at those too (`SevenBitHeader`, `MessageRoundTripIff`,
  `EveryOrderIff`).
- A file name quoted the Go way reads back under RFC 5322 if and only if it has no tab
  and no DEL (`TabReadsAsLetter`, `QuoteReadBackIff`).
- The To and Cc lines split into the recipients again if and only if no recipient holds a
  comma followed by a space (`RecipientsIff`).

## Model

| member | source | states |
|---|---|---|
| `ConnPool.Limits` | internal/sender/pool.go:39-57 | the limits of a new pool for every configuration, always an initial state of the step system |
| `ConnPool.TokensOwned` | internal/sender/pool.go:82-196 | in every run, tokens = idle connections + goroutines that own one, at most maxOpen; decrementActive always finds a token and removes exactly one |
| `ConnPool.BlockedMeansExhausted` | internal/sender/pool.go:117-156 | a blocked Acquire means all maxOpen tokens are held by goroutines, none by the idle channel |
| `ConnPool.OnePlaceEach` | internal/sender/pool.go:160-218 | every dialed connection is idle, with one goroutine, or closed once, never two of these; nothing is sent on the closed idle channel |
| `ConnPool.ClosedAndQuiet` | internal/sender/pool.go:160-218 | after Close, once borrowers and dials are done, every connection was closed exactly once and no token is left |
| `ConnPool.ActiveIsOpenIff` | internal/sender/pool.go:117-196 | in every state, activeConns = open connections, less those dialed and not yet counted and the failed dials, plus those closed and not yet uncounted; when these balance, and only then, it is the number of open ones; between actions, if and only if no dial failed |
| `ConnPool.FailedDialGoesNegative` | internal/sender/pool.go:129-134 | a run of one failed dial that leaves activeConns at -1 with nothing open |
| `ConnPool.StepInv` | internal/sender/pool.go:82-218 | each step of Acquire, Release, decrementActive and Close keeps the token, counter, locking, channel and placement laws together |
| `ConnOutcome.FailedRelease` | internal/sender/pool.go:160-196 | from a Release with an error on, the connection is never idle and never with another goroutine, and it is closed once that Release has left |
| `ConnOutcome.GoodRelease` | internal/sender/pool.go:160-188 | a Release without an error closes the connection on a closed pool; on an open one it goes to the end of the idle channel if there is room, or straight to a waiting Acquire, and is closed otherwise |
| `ConnOutcome.AcquireOutcome` | internal/sender/pool.go:82-157 | Acquire takes the connection longest idle, lends it if usable and closes it if not, otherwise lends the one it dialed; it returns without one only when the pool is closed, the context is done or the dial failed |
| `ConnOutcome.LoopsOfAcquire` | internal/sender/pool.go:96-157 | Acquire polls first, blocks only after finding the idle channel empty, and never goes back to polling; Release and Close are in neither loop |
| `ConnOutcome.ClosedRefusesAcquire` | internal/sender/pool.go:89-94 | from the step in which Close sets the flag, no Acquire begins and no second Close |
| `Message.Settle` | internal/queue/message.go:128-172 | nil if and only if the message is settled afterwards; not supported if and only if unsettled without a callback; the callback's error if and only if it ran and failed |
| `Message.Message.Ack` | internal/queue/message.go:128-148 | sets the flag, calls the callback exactly when unsettled and installed, rolls back on failure |
| `Message.Message.Nack` | internal/queue/message.go:152-172 | the same for the negative callback |
| `Message.Message.Clone` | internal/queue/message.go:182-211 | an equal message, every field of it, in fresh storage, with the settled flag and callbacks inherited |
| `Settlement.SettledOnce` | internal/queue/message.go:128-179 | for any callers: one callback at a time, at most one ever succeeds, the flag is set exactly while one is busy or after the success |
| `Settlement.SuccessIsFinal` | internal/queue/message.go:128-179 | after a success no callback ever starts again |
| `Settlement.EarlyNilIsSettledIff` | internal/queue/message.go:128-172 | an early nil means settled if and only if no other call is busy |
| `Settlement.EarlyNilCanBeWrong` | internal/queue/message.go:128-172 | a run where an early nil is followed by a rollback |
| `Settlement.UndisturbedCall` | internal/queue/message.go:128-172 | the steps of one undisturbed call end with the flag and the reply of the sequential Ack or Nack |
| `MemoryQueue.NothingLostOrReordered` | internal/queue/memory.go:199-423 | in every run, successful sends = messages taken followed by the channel's contents, in order, one taker per receive |
| `MemoryQueue.ClosedForGood` | internal/queue/memory.go:134-165 | histories only grow, and the sends stop growing once the channel is closed |
| `MemoryQueue.ClosedSendFails` | internal/queue/memory.go:22-30 | in every run, once the channel is closed a goroutine in sendMessage is never blocked and can only fail: a publish returns ErrQueueClosed, a requeue leaves its message unsettled, nothing is enqueued |
| `MemoryQueue.RefusedNeverSent` | internal/queue/memory.go:199-281 | a publish that returned ErrQueueClosed is in the channel at no time before or after, nor is a clone of it |
| `MemoryQueue.EveryPublish` | internal/queue/memory.go:199-281 | at every moment of every run each publish is in exactly one place, once: on its way, sent, refused with ErrQueueClosed, or dropped by its context |
| `MemoryQueue.Totals` | internal/queue/memory.go:199-423 | totalPublished = publishers' sends less those not yet counted; every message taken is with one taker or finished with |
| `MemoryQueue.RequeueExact` | internal/queue/memory.go:350-423 | a requeue sends the published message, settled, with Attempts one higher from a Consume worker and unchanged from a Receive caller |
| `MemoryQueue.BlockedIff` | internal/queue/memory.go:22-30 | a sender is blocked if and only if the channel is open and full |
| `MemoryQueue.ClosedRefusesPublish` | internal/queue/memory.go:134-281 | from the step in which Close sets the flag, no publish begins and no second Close |
| `MemoryQueue.SettledStays` | internal/queue/memory.go:350-389 | a message its taker has settled stays as it is and is not requeued after that |
| `MemoryQueue.AtMostTwoDeliveries` | internal/queue/memory.go:350-389 | each publish is delivered at most once as itself and at most once as a clone, with Attempts raised by at most one |
| `MemoryQueue.RequeueTerminates` | internal/queue/memory.go:350-389 | all deliveries together are at most twice the publishes, whatever the handlers do |
| `MemoryQueue.InFlightCounts` | internal/queue/memory.go:335-389 | inFlight = workers that hold a message less those between taking it and counting it |
| `MemoryQueue.DrainedIff` | internal/queue/memory.go:168-183 | inFlight zero means that no worker holds a message if and only if as many have entered as have taken |
| `MemoryQueue.DrainMissesTheGap` | internal/queue/memory.go:168-183 | a run where Close finds inFlight zero and the channel empty, and a worker holds a message |
| `Lifecycle.LoopsBounded` | internal/runtime/engine.go:103-207 | live consumer loops are at most one more than timed-out Stops; Running means the latest consumer is being launched or lives |
| `Lifecycle.StopCancelsLatest` | internal/runtime/engine.go:103-207 | whenever Stop cancels, it cancels the consumer of the latest Start |
| `Lifecycle.CallsReturn` | internal/runtime/engine.go:103-207 | Stop returns only with the state at Stopped; Start leaves a running engine as it is |
| `Lifecycle.StoppedMeansNoLoop` | internal/runtime/engine.go:103-207 | without a timed-out Stop, Stopped outside Start means no loop lives |
| `Lifecycle.IsRunningExact` | internal/runtime/engine.go:103-212 | without a timed-out Stop and between calls, IsRunning holds if and only if one loop lives, and Stopped if and only if none does |
| `Lifecycle.TimedOutStopIsInexact` | internal/runtime/engine.go:161-207 | a run where a Stop times out and Stopped stands beside a live loop |
| `Lifecycle.IsRunningExactIff` | internal/runtime/engine.go:103-212 | IsRunning is exact in all runs with at most n timed-out Stops if and only if n is zero |
| `Lifecycle.StaleConsumerHidesLiveOne` | internal/runtime/engine.go:103-207 | a run where one timed-out Stop lets Stopped be reported beside a live loop, and leaves two uncancelled loops |
| `Backoff.ShiftIsProduct` | internal/runtime/pipeline.go:114 | the int64 shift is multiplication by a power of two modulo 2^64, read as signed |
| `Backoff.BackoffInRange` | internal/runtime/pipeline.go:113-120 | every backoff lies in (0, 5min]; the jitter bound is positive unless the interval is 1ns on the first retry |
| `Backoff.JitterSafeIff` | internal/runtime/pipeline.go:119 | rand.Int63n never panics if and only if the interval is at least 2ns |
| `Backoff.SleepWithinQuarter` | internal/runtime/pipeline.go:118-120 | 3/4 backoff <= sleep < 5/4 backoff |
| `Backoff.DocumentedIff` | internal/runtime/pipeline.go:111-117 | the backoff is min(interval * 2^k, 5min) if and only if the product fits int64 or the cap catches the wrapped value |
| `Backoff.Nondecreasing` | internal/runtime/pipeline.go:111-117 | while the product fits, later attempts never wait less |
| `Backoff.SmallOddPartNeverWrapsBadly` | internal/runtime/pipeline.go:111-117 | an interval whose odd part is below 2^26 follows the documentation at every attempt |
| `Backoff.FirstOddPartThatFails` | internal/runtime/pipeline.go:111-117 | 2^26 + 1 nanoseconds wraps below the cap on the 39th retry |
| `Backoff.OddPartIff` | internal/runtime/pipeline.go:111-117 | all intervals m * 2^z with m below a bound follow the documentation if and only if the bound is at most 2^26 + 1 |
| `Backoff.EveryAttemptIff` | internal/runtime/pipeline.go:111-117 | an interval follows the documentation at every attempt if and only if none of the first 39 shifts wraps to a positive value below the cap |
| `Backoff.DefaultIntervalExact` | internal/runtime/pipeline.go:101-117 | the five-second default follows the documentation at every attempt |
| `Backoff.WrapShortensBackoff` | internal/runtime/pipeline.go:113-117 | an interval whose wait falls from five minutes to 17 seconds by wrapping |
| `Pipeline.Engine.SendWithRetry` | internal/runtime/pipeline.go:87-145 | the loop's events, error and retry count are those of `SendWithRetries`, which `RetryRhythm.SleepLaw` fixes |
| `Pipeline.Engine.RouteToDlq` | internal/runtime/pipeline.go:155-203 | publish a copy to the dead letter queue if there is one; unless that failed, call the error handler if there is one and acknowledge; what is published, when and in which order: `Fate.EveryFate`, `Fate.PublishedAndHandled`, `Fate.EngineInOrder` |
| `Pipeline.Engine.ProcessMessage` | internal/runtime/pipeline.go:23-82 | the message's events, error, settlement and counters are those of `Process`; inFlight is restored |
| `Pipeline.Engine.ProcessNil` | internal/runtime/pipeline.go:23-41 | a nil message is counted received and failed, and nothing else happens |
| `Pipeline.ConsumeMessage` | internal/queue/memory.go:350-389 | the consumer's events with the engine as handler are those of `Consume`; the message ends settled |
| `Fate.RetryLoop` | internal/runtime/pipeline.go:87-145 | delivery if and only if some attempt in the budget succeeds after only failed sends; one success at most and last; between one and the remaining attempts many sends; retries counted = failed sends |
| `RetryRhythm.SleepLaw` | internal/runtime/pipeline.go:87-145 | the events are send, sleep, send, ..., send: the k-th sleep within a quarter of the wait for shift k of the configured or five-second interval, in (0, 5min]; the sends are the attempts from min(max(Attempts, 1), limit) on, at most max(1, limit - Attempts + 1) of them; all but the last failed, none after a cancellation; the error is the one that ended the loop |
| `Fate.AckOnlyAfterRecord` | internal/runtime/pipeline.go:69-82 | with a dead letter queue, any engine ack of a parsed and valid message comes after a successful publish of it under the dead letter topic with its id, payload, attempts, timestamp, headers and the error; if the publish fails there is no ack |
| `Fate.CountersOfOne` | internal/runtime/pipeline.go:23-159 | one message is one success or one failure; failures but the empty payload are dead-lettered; retried = failed sends |
| `Fate.EveryFate` | internal/queue/memory.go:350-389 | every delivered message is sent once, recorded once under the dead letter topic with its own id, payload, attempts, timestamp and headers and the error that stopped it, or residue, never two; residue if and only if empty, or unsent with no queue or a failed publish |
| `Fate.PublishedAndHandled` | internal/runtime/pipeline.go:155-203 | an unsent message with a payload is published once if there is a dead letter queue, and its error handled once if there is a handler and the publish did not fail; nothing else is |
| `Fate.ErrorReported` | internal/runtime/pipeline.go:23-82 | which error is returned: none if and only if delivered, the dead letter queue's if and only if a valid message's publish failed, else the one that stopped the message |
| `Fate.SettledAfter` | internal/runtime/pipeline.go:23-203 | after the engine a message is settled if and only if it was, or the engine acknowledges it and its callback works |
| `Fate.EngineInOrder` | internal/runtime/pipeline.go:23-203 | sends and sleeps, then the dead letter queue, then the error handler, then the ack |
| `Fate.ConsumerInOrder` | internal/queue/memory.go:350-389 | with AutoAck the ack comes first, without it last |
| `Fate.AckedOnce` | internal/queue/memory.go:350-389 | the ack callback of a delivered message runs exactly once, or never if it arrived settled |
| `EngineCounters.CountersConsistent` | internal/runtime/pipeline.go:23-159 | in every interleaving of workers, success + failed <= received <= success + failed + inFlight, with equality and the dead-letter and retry laws at rest |
| `KeyRateLimit.KeyRateLimiter.constructor` | internal/handler/ratelimit.go:27-37 | the cap or its default, the window, the key limit, no buckets |
| `KeyRateLimit.KeyRateLimiter.Allow` | internal/handler/ratelimit.go:39-63 | the new map, the verdict and retryAfter are those of the specification, with a legal victim |
| `KeyRateLimit.KeyRateLimiter.EvictOldest` | internal/handler/ratelimit.go:65-79 | finds a bucket with the smallest window start and removes it when its window is over or the map is full |
| `KeyRateLimit.Bounded` | internal/handler/ratelimit.go:39-63 | the map never exceeds maxKeys |
| `KeyRateLimit.LessThanTwiceCap` | internal/handler/ratelimit.go:39-63 | any half-open interval of one window length holds at most 2*cap - 1 accepted requests of an unevicted key |
| `KeyRateLimit.FewKeysNeverEvict` | internal/handler/ratelimit.go:39-79 | with at most maxKeys keys nothing is evicted, so the bound holds for each key whatever the others do |
| `KeyRateLimit.RetryAfterInRange` | internal/handler/ratelimit.go:58-60 | in every run, every denial's retryAfter is in (0, window] |
| `KeyRateLimit.RetryAfterExact` | internal/handler/ratelimit.go:50-60 | in every run, the key's next request after a denial is accepted if and only if it waits retryAfter or the bucket was evicted meanwhile |
| `KeyRateBounds.BurstRun` | internal/handler/ratelimit.go:39-63 | for any cap, a run with cap - 1 + m accepted requests in one window-length interval, for every m up to the cap |
| `KeyRateBounds.EvictionRun` | internal/handler/ratelimit.go:50-55 | with maxKeys + 1 keys, a run with any number of accepted requests of one key at one instant |
| `KeyRateBounds.BoundIff` | internal/handler/ratelimit.go:39-79 | no window-length interval of any run with at most K keys holds more than n accepted requests of a key, if and only if K <= maxKeys and n >= 2*cap - 1 |
| `KeyRateBounds.SlidingIff` | internal/handler/ratelimit.go:14-79 | at most cap requests of a key in every window-length interval of every run with at most K keys, if and only if K <= maxKeys and cap is 1 |
| `TokenBucket.ClampRate` | internal/config/smtp.go:121-126 | a negative rate becomes 0, a rate above 10000 becomes 10000, others stay |
| `TokenBucket.TicksPerSecond` | internal/sender/sender.go:77-101 | for every positive configured rate, a second holds exactly min(rate, 1000) refill intervals, the capacity of the bucket |
| `TokenBucket.ThreePerSecondGains` | internal/sender/sender.go:98-101 | at three a second one tick is one more than the rate allows by then |
| `TokenBucket.LongRunRateIff` | internal/sender/sender.go:98-101 | ticks never gain on the rate if and only if it is at least 1000 or divides a second |
| `TokenBucket.Conservation` | internal/sender/sender.go:98-114 | takes plus tokens left are at most tokens plus ticks, with equality while the bucket never overflows |
| `TokenBucket.SegmentBound` | internal/sender/sender.go:77-116 | in any run segment with n ticks at most capacity + n sends pass, and the bucket never exceeds its capacity |
| `TokenBucket.AccountSender.constructor` | internal/sender/sender.go:66-90 | the bucket exists exactly for a positive rate, holds min(rate, 1000) and starts full |
| `TokenBucket.AccountSender.Refill` | internal/sender/sender.go:106-110 | one non-blocking tick |
| `TokenBucket.AccountSender.Send` | internal/sender/sender.go:129-232 | each answered call for an email moves one counter; a token per admitted email; Sent if and only if every stage succeeds, Failed if and only if one of them, each named, fails; the connection acquired is released if and only if the client does not panic |
| `AsyncLog.WholeEntries` | internal/logger/async.go:46-144 | for any writers, the output is whole entries, plus the first bytes of the write in progress |
| `AsyncAccount.EveryEntry` | internal/logger/async.go:100-123 | every entry let in by the closed check is, at every moment, with its caller, enqueued, being written directly or written directly, once; with no Write in progress, enqueued once or written whole once |
| `AsyncAccount.DirectIffFull` | internal/logger/async.go:108-123 | a Write goes to the underlying writer if and only if the channel is full, and into the channel if and only if it is not |
| `AsyncAccount.BatchBounded` | internal/logger/async.go:46-98 | the worker receives only with a batch of at most 16384 bytes |
| `AsyncAccount.TickFlushes` | internal/logger/async.go:46-98 | when the worker is back in its loop after a tick, exactly what it had received by then is written, in order |
| `AsyncAccount.LoopLeftForGood` | internal/logger/async.go:46-98 | a worker that has seen the stop never returns to its main loop |
| `AsyncAccount.SyncRefusesWrites` | internal/logger/async.go:100-134 | once any Sync has set the flag or found it set, no Write is let in |
| `AsyncLog.ChannelOrder` | internal/logger/async.go:46-123 | entries through the channel are written in enqueue order; none is lost or doubled |
| `AsyncLog.SyncFlushes` | internal/logger/async.go:128-144 | when the Sync that set closed has returned, everything enqueued before that is written; the rest came from writers overlapping it |
| `AsyncLog.EarlySyncUnflushed` | internal/logger/async.go:128-134 | a run where a second Sync returns nil while an entry enqueued before both is unwritten |
| `AsyncLog.SyncFlushesIff` | internal/logger/async.go:128-144 | every Sync returns with everything flushed, in all runs with at most n Syncs that start before the first has returned, if and only if n is zero |
| `AsyncLog.WrittenIff` | internal/logger/async.go:76-116 | once the worker is done, an entry that Write enqueued has been written if and only if the worker had not yet seen the channel empty |
| `AsyncLog.LostWrite` | internal/logger/async.go:76-116 | a run where Write returns nil and Sync returns, and the entry stays in the channel |
| `AsyncLog.SnapshotFixed` | internal/logger/async.go:128-144 | what Sync promises refers to the enqueue history at the step that set closed |
| `Base64.EncodeDecode` | internal/sender/mime.go:369-374 | an independent decoder returns the data, for every byte string |
| `MimeLines.WrapBase64` | internal/sender/mime.go:369-386 | the loop and the final TrimRight give the encoded text in 76-column lines joined by CRLF |
| `MimeLines.WrapRoundTrip` | internal/sender/mime.go:369-386 | dropping line breaks and decoding returns the data; all lines but the last have exactly 76 characters, the last at most |
| `MimeHeaders.SanitizeHeaderValue` | internal/sender/mime.go:28-40 | the value without its CR and LF characters |
| `MimeHeaders.StripLaw` | internal/sender/mime.go:28-40 | a sanitized value has no line break, and is unchanged if and only if it had none |
| `MimeHeaders.StripExact` | internal/sender/mime.go:28-40 | every CR and LF is taken out, wherever it stands, and no other character |
| `MimeHeaders.EncodeHeader` | internal/sender/mime.go:354-367 | text of tabs and the codes 32 to 127 as it is, anything else encoded |
| `MimeHeaders.StandardFields` | internal/sender/mime.go:43-112 | whatever the custom headers: one From, with the email's address and name or else the account's, one Date, Subject and MIME-Version, To, Cc and Reply-To exactly when set, no Bcc, no second Content-Type, all with the message's own values; no Content-Transfer-Encoding before the body's own if and only if the caller sets none |
| `MimeAddresses.RecipientsIff` | internal/sender/mime.go:59-67 | the To and Cc lines, split at comma and space, are the recipients in order if and only if none of them holds a comma and a space |
| `MimeAddresses.CommaJoinIff` | internal/sender/mime.go:59-67 | a joined list splits into itself if and only if no element holds the separator |
| `MimeHeaders.EncodingField` | internal/sender/mime.go:98-112 | the transfer encoding a reader finds first is the first one the caller set, in the order the map is walked |
| `MimeHeaders.MessageIdLaw` | internal/sender/mime.go:79-93 | there is always a Message-ID: the caller's, or exactly one of the random id and the host name or its default |
| `MimeHeaders.CustomExact` | internal/sender/mime.go:98-112 | a custom field is written if and only if its name is none of the nine reserved ones in any case, with its own sanitized value |
| `MimeTree.FoldsTogetherIff` | internal/sender/mime.go:81-107 | names compare by ASCII case: two characters fold together if and only if equal or the two cases of one letter |
| `MimeTree.ParseLines` | internal/sender/mime.go:114-344 | a reader that cuts at delimiter lines and decodes each leaf by its first transfer encoding gives back any well-formed tree, at any nesting |
| `MimeTree.LinesDashed` | internal/sender/mime.go:114-344 | no line of a part starts with two dashes but the delimiters of its own nested parts |
| `MimeTree.ParsedOnOneLine` | internal/sender/mime.go:28-40 | whatever the reader returns from single lines has no line break in any field |
| `MimeText.TextRoundTrip` | internal/sender/mime.go:114-344 | the text of a well-formed tree, split at CRLF, or at LF too, and read, is that tree |
| `MimeBuilder.HeaderBlock` | internal/sender/mime.go:56-112 | for every email with valid custom names, the header block reads back as exactly the fields set |
| `MimeBuilder.MessageRoundTripIff` | internal/sender/mime.go:43-344 | the written message reads back as itself if and only if no attachment type and no inline content id has a CRLF (no LF, for a reader that splits at LF too), and the first transfer encoding the caller set, if any, fits the message |
| `MimeBuilder.EveryOrderIff` | internal/sender/mime.go:43-344 | it does so in every order of the header map if and only if that holds of each such header |
| `MimeBuilder.SevenBitHeader` | internal/sender/mime.go:98-112 | with a custom header `Content-Transfer-Encoding: 7bit` a message reads back if and only if it is multipart |
| `MimeOutline.MessageHolds` | internal/sender/mime.go:114-344 | its tree, read by the headers alone, is the bodies as alternatives, related to the inline attachments, mixed with the others, in order; each leaf with its type, disposition, file name, content id and content, none missing or doubled |
| `MimeOutline.SubtypeIff` | internal/sender/mime.go:114-303 | the subtype read from the top: mixed if and only if some attachment is not inline, related if and only if there are attachments and all are inline, alternative if and only if there are both bodies and no attachment; the same for the nested parts |
| `MimeOutline.ReaderFinds` | internal/sender/mime.go:43-344 | for a message that reads back, a reader of its text finds the header fields that were set and that tree |
| `MimeBuilder.TabReadsAsLetter` | internal/sender/mime.go:331-335 | a tab in a file name reads back as the letter t |
| `MimeBuilder.QuoteReadBackIff` | internal/sender/mime.go:331-335 | a quoted plain file name reads back if and only if it has no tab and no DEL |
| `MimeWriter.WriteAttachmentPart` | internal/sender/mime.go:331-344 | writes the part of one attachment, inline or not |
| `MimeWriter.WriteAlternativeBodyParts` | internal/sender/mime.go:305-329 | writes the parts of the bodies there are, text first |
| `MimeWriter.WriteAlternativeOrSingle` | internal/sender/mime.go:263-303 | writes the body as one part, a nested multipart/alternative for both bodies |
| `MimeWriter.WriteRelatedBody` | internal/sender/mime.go:205-261 | writes the body, the inline attachments and the closing delimiter |
| `MimeWriter.BuildMime` | internal/sender/mime.go:43-203 | the text of the message's tree under its header fields, or an error if and only if a custom header name is empty or has a colon or a character outside the codes 33 to 126 |

## Left out

- The brokers other than the in-memory queue: glue over client libraries; most share the consumer pattern modelled here.
- SMTP dialing, TLS, authentication and the SMTP conversation: a nondeterministic success or failure.
- HTTP, gRPC, authentication middleware, health, CLI, configuration loading, metrics, tracing and log redaction: they do not touch the modelled state, or only add easy members.
- JSON and address parsing, RFC 2047 encoding, key fingerprints, random ids, boundaries and jitter: functions or values from outside. Distinct boundaries and fingerprints are assumed.
- Wall-clock durations: a timeout, a tick, a cancellation is a step that may come at any time.
- Update in place of the pool, the memory queue, the engine state and the log writer: these are step relations on values, because what they promise is about interleavings, and one step is one atomic action.
- Termination of blocking calls: a run may stop anywhere; nothing is said about how long a goroutine waits.
- Start and Stop called at the same time: the lifecycle takes them one after another, with the consumer goroutines racing both.
- The delayed-publish WaitGroup, priorities and the error-handler callback of the memory queue: they do not change what is sent, taken or settled.
- Writer errors and a nil writer in the log writer: the underlying writer accepts what it is given.
- Nil attachments: attachments are values.
- `mime/multipart.Writer`: only its delimiter format and the sorted order of part fields; its errors cannot occur on a buffer.
- Strings are sequences of characters: invalid UTF-8 is not modelled, and case folding is ASCII, which is exact for names that pass the field-name check.
- TokenBucket.AccountSender.Send: modelled for a call that finds its token or whose context ends, since a call that keeps waiting does nothing.
- MimeBuilder.QuoteReadBackIff: for plain file names, which are the ones written as they are; encoded ones hold no character that Go escapes.
- Pipeline.Engine.RouteToDlq: that the error handler is called is an event; what it does with the message is not modelled.
- Quoted-printable: the reader of the model takes it for an encoding it does not know, as nothing here writes it.
- MimeBuilder.MessageRoundTripIff: assumes that the formatted time, the host name and the id have no line break, and that boundaries are letters and digits.
- Pipeline.ConsumeMessage: the handler is the engine itself; middlewares that only observe or recover are not separate steps.
