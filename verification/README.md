# A Dafny model of the yield agent

This project models the parts of the agent whose promises range over whole runs, and proves them.

- **Shared-store protocols** (`lib/redis`). `Store.dfy` is the in-memory key/value and sorted-set store with expiry;
  `RateLimiter.dfy` the sliding-window limiter (the Redis script and the check-then-record path), `LimiterStores.dfy`
  its calls spread over several stores, `UserOpBudget.dfy` the daily operation counter, `DistributedLock.dfy` the lease
  lock, `Idempotency.dfy` the run-once wrapper for one key and `IdempotencyKeys.dfy` for any number of keys. The
  protocols are state machines over atomic store operations; runs are arbitrary interleavings of clients, clock ticks
  and expiries.
- **Sentinel** (`sentinel`). `SignalHistory.dfy`, `RulesEngine.dfy` and `Worker.dfy` follow the classes of the source;
  `EngineLaws.dfy` and `SentinelLaws.dfy` prove what they do over any sequence of signals and of poll cycles,
  `RuleLaws.dfy` what each rule answers as a condition on the readings themselves, and `PollLaws.dfy` which exits and
  incidents one poll leaves.
- **Rebalancing** (`lib/agent`). `DecisionEngine.dfy` chooses the move and `DecisionLaws.dfy` says which, over the fields of
  the market; `RebalanceBatch.dfy` builds its calls and runs
  them on the token ledger of `Ledger.dfy`, `CronBatch.dfy` compares the batch the cron builds with the decision,
  `CronPhase.dfy` processes all users in batches and chunks under locks.
- **Exact components.** `LruCache.dfy`, `Encryption.dfy` (the text format and the session authorizations),
  `BigIntCodec.dfy`. `Text.dfy`, `Seqs.dfy`, `Protocols.dfy` and `Wrappers.dfy` are shared helpers.

Time is an integer number of milliseconds and is a parameter of every operation that reads a clock. APYs, prices and
dollar values are exact rationals. Random ids, fetched data, the outcome of on-chain and network calls, and the order in
which concurrent work proceeds are parameters. A class with methods stands where the source updates an object in place;
each method is proved equal to a function of the old state, and the laws are about those functions.

## What the proofs found

- `withIdempotencyKey` promises "at most once" (lib/redis/idempotency.ts:44), but reads the cache before it takes the
  lock and not again. For a key whose two entries no other key uses, and while the lock outlasts every handler and no
  result expires, the handler runs at most once if and only if no entry comes after a run that threw or returned nothing
  to store, and none is by a call whose read missed a result stored since (`AtMostOnceExactly`,
  `KeyAtMostOnceExactly`). For such a key a caller that waits for each call, with a handler that always returns
  something, is safe (`KeySequentialRunsOnce`). Runs that show it fail: an early read (`HandlerCanRunTwice`), a handler
  that throws (`ThrowingHandlerRunsAgain`), one that outlasts its lock (`OverrunLockRunsTwo`).
- Not every key has its two entries to itself. The lock of key `x` is the entry that holds the result of key `x:lock`
  (lib/redis/idempotency.ts:59-60), and nothing restricts the key a client sends. Two keys stay out of each other's way
  if and only if neither is the other's lock (`ApartExactly`, `SiblingExactly`); when one is, a call can reply with the
  text of a lock (`ReplyFromLock`), be turned away with nobody inside (`BusyWithNobodyInside`), or run its handler again
  although its result was stored and each call of that key waited for the one before it (`SiblingRunsTwice`).
- The header of the same file calls a collision across users impossible. Two users share a full key exactly when one id
  goes on where the other stops, with a colon and the beginning of the other's key (`SharedKeyExactly`); this cannot
  happen among ids with equally many colons (`UsersNeverCollide`).
- The two-step release of the in-memory lock is safe exactly when the lease is still running at the delete
  (`TwoStepSafeExactly`).
- On one shared store a limiter keeps its bound in every run, outages included, if and only if it fails closed or its
  window is empty (`BoundUnderOutages`). A process whose first connection fails is answered from its own memory even in
  production (lib/redis/client.ts:116-119, 200-203), so calls can reach several stores. Over `n` stores the least bound is
  `n` times the limit (`BoundOverStores`): the configured limit holds if and only if, besides, all calls share one store
  or nothing is admitted at all (`SharedStoreNeeded`).
- The daily budget bounds the operations that are counted, and an executed operation goes uncounted whenever anything
  throws after it: the wait for its receipt or the delegation check (lib/agent/rebalance-executor.ts:315-340,
  lib/zerodev/kernel-client.ts:388-391), the log of its success (lib/agent/cron-orchestration-service.ts:392), for a claim
  its log or its cache invalidation (lines 548-555), or the increment itself, which swallows its error
  (lib/redis/rate-limiter.ts:315-317). In every history the operations executed in a day number at most 87 and the losses
  of that day, and no smaller bound holds (`ExecutedBoundExactly`, `OperationBookedOnce`).
- Where the signals are gathered from the configured vaults, only a drop of a vault's assets or of its share price ever
  starts an exit (`OnlyDropsExit`). Every price signal carries its vault's own underlying (sentinel/worker.ts:53-66,
  102-115), which the depeg rule takes for toxic, so the DEPEG exit is unreachable, and so is the MAX_REDEEM one, as the
  worker sends no such signal.
- Vault-flow and share-price breaches need not be consecutive: nothing but a trigger resets their count
  (`DropStreakNeverResets`, and `QuietPollDoesNotReset` for a run that shows it), unlike the price rules
  (`PriceStreakIsRunLength`).
- A history with `maxEntries` 0 is never trimmed, because `slice(-0)` keeps everything (`Trimmed`).
- Encrypting and decrypting gives a text back if and only if it is not empty, does not carry the `encrypted:v1:` mark, and
  there is a usable key (`Encryption.RoundTripExactly`); the prefix and version checks after the split in `decrypt` can never fail
  (`DecryptExact`).
- A string starting with `__bigint:` does not survive the cache codec; every other tree does (`BigIntCodec.RoundTripExactly`).
- For an ERC-4337 session the cron sends the batch from the smart wallet, while owner and receiver stay the user
  (lib/agent/cron-orchestration-service.ts:355-382). Sent by another account than the user, the batch goes through if and
  only if that account has the user's allowance for the shares (or, for YO, the shares themselves) and `redeemAmount` of
  its own (`BatchSucceedsExactlyBy`), and then it pays for the deposit itself while the user keeps all that the redeem
  paid (`OtherSenderPays`).
- `executeRebalanceTransaction` (lib/agent/cron-orchestration-service.ts:367-372) passes no protocols and no underlying.
  The cron builds the batch that was decided if and only if the money moves from one Morpho vault to another
  (`CronFollowsExactly`), and the engine does decide otherwise (`CronMissesYo`).

## Model

| member | source | states |
|---|---|---|
| Store.MemoryStore.Get | lib/redis/client.ts:205-213 | a read sees an entry up to and including its expiry instant, and deletes it afterwards |
| Store.MemoryStore.Set | lib/redis/client.ts:214-217 | a write replaces the entry; a zero or missing time-to-live means no expiry |
| Store.MemoryStore.SetNX | lib/redis/client.ts:218-226 | succeeds exactly when no live entry is there, and otherwise changes nothing |
| Store.MemoryStore.Del | lib/redis/client.ts:227-229 | removes the plain key and nothing else |
| Store.MemoryStore.Expire | lib/redis/client.ts:265-271 | acts on plain keys only, so a sorted set never expires here |
| Store.MemoryStore.ZAdd | lib/redis/client.ts:230-240 | a known member keeps its place and gets the new score, a new one is appended |
| Store.MemoryStore.ZRangeByScore | lib/redis/client.ts:241-247 | exactly the members with a score in the closed range, each once, in insertion order |
| Store.ListsRangeUnique | lib/redis/client.ts:246 | only one list is that |
| Store.MemoryStore.ZRemRangeByScore | lib/redis/client.ts:248-257 | exactly the members outside the closed range stay; other sets are untouched |
| Store.UpsertExactly | lib/redis/client.ts:230-240 | a member that is there keeps its place and gets the score, a new one goes to the end |
| Store.OutsideRangeExactly | lib/redis/client.ts:248-257 | what is left after a range is removed is exactly the members below or above it, in their order |
| Store.PutThenLookup | lib/redis/client.ts:205-217 | a stored text can be read through its last millisecond and not after |
| Store.SweepIsInvisible | lib/redis/client.ts:208-211 | deleting an expired entry on read changes no later read of any key |
| RateLimiter.RedisZSets.Eval | lib/redis/rate-limiter.ts:171-180 | the Lua script, command by command |
| RateLimiter.RedisZSets.CheckAndRecord | lib/redis/rate-limiter.ts:157-221 | the atomic limiter, including the fail-open and fail-closed answers |
| RateLimiter.StampOfMember | lib/redis/rate-limiter.ts:70 | the time printed into a member is the time read back from it |
| RateLimiter.MemberNameInjective | lib/redis/rate-limiter.ts:129-130 | members of different requests differ |
| RateLimiter.ScriptCountsWindow | lib/redis/rate-limiter.ts:171-180 | what the script counts is exactly the admissions of the last window, expiry included |
| RateLimiter.ScriptFaithful | lib/redis/rate-limiter.ts:171-185 | neither pruning nor the key's expiry drops an admission that is still inside the window |
| RateLimiter.WindowBound | lib/redis/rate-limiter.ts:157-208 | over any run, every window of length `windowMs` holds at most `maxRequests` admissions of a key |
| RateLimiter.BoundUnderOutages | lib/redis/rate-limiter.ts:209-220 | when all calls reach one shared store, counting those allowed during outages, the bound holds of every run if and only if the limiter fails closed (or the window is empty) |
| LimiterStores.BoundOverStores | lib/redis/client.ts:116-203 | over any runs of calls that reach any of `n` stores, outages included, a number bounds every window if and only if the limiter fails closed and the number is at least `n` times `maxRequests` (or the window is empty) |
| LimiterStores.SharedStoreNeeded | lib/redis/client.ts:116-203 | so the configured limit holds if and only if the limiter fails closed and all calls share one store, or nothing is admitted at all (or the window is empty) |
| LimiterStores.StoresAdd | lib/redis/rate-limiter.ts:157-234 | with a limiter that fails closed every store adds at most its own limit, wherever the calls go |
| RateLimiter.AdmissionExact | lib/redis/rate-limiter.ts:193-208 | admitted if and only if fewer than `maxRequests` admissions are younger than the window; `remaining` is what is left, 0 on a denial, and `resetTime` the end of a window that starts now |
| RateLimiter.ScriptDenialExact | lib/redis/rate-limiter.ts:193-208 | a denial by the script says that nothing remains and to try a whole window later; a call made then, with nothing admitted meanwhile, has the whole limit before it |
| RateLimiter.OutageAnswer | lib/redis/rate-limiter.ts:209-220 | while the store is down a limiter that fails closed denies for a minute and one that fails open admits, and nothing is stored |
| RateLimiter.CheckRateLimit | lib/redis/rate-limiter.ts:48-87 | the check: what it prunes, counts and answers, on one key only |
| RateLimiter.RecordRequest | lib/redis/rate-limiter.ts:119-142 | records one member with its time as score |
| RateLimiter.CheckAndRecordFallback | lib/redis/rate-limiter.ts:224-234 | check, then record and decrement `remaining` if allowed |
| RateLimiter.FallbackRefinesScript | lib/redis/rate-limiter.ts:171-234 | over any sequence of requests the in-memory path makes the script's decisions, reports the same `remaining` on admission and keeps the same in-window entries |
| RateLimiter.CheckAnswer | lib/redis/rate-limiter.ts:63-86 | a check lets in while fewer than the limit are listed, and says how many more it would |
| RateLimiter.ResetTimeExact | lib/redis/rate-limiter.ts:67-80 | in memory: every attempt before a denial's `resetTime` is denied, a check from it on succeeds if and only if `maxRequests >= 1`, and `retryAfter` seconds reach it with less than a second to spare |
| RateLimiter.RedisResetTimeExact | lib/redis/rate-limiter.ts:59-80 | the same on Redis, after any atomic admissions, whatever order members of one millisecond are listed in |
| UserOpBudget.GetUserOpCount | lib/redis/rate-limiter.ts:296-306 | the counter, or the full limit when the store is unreachable |
| UserOpBudget.IncrementUserOpCount | lib/redis/rate-limiter.ts:308-318 | one more, with a new day's time-to-live |
| UserOpBudget.CountAfterIncrement | lib/redis/rate-limiter.ts:296-318 | after an increment the counter reads one more for a full day, then zero |
| UserOpBudget.CountedForWallet | lib/redis/rate-limiter.ts:291-318 | an operation counts for its wallet under any letter case, for a day, and for no other wallet |
| UserOpBudget.DailyBound | lib/agent/cron-orchestration-service.ts:292-319 | on one shared store any half-open day holds at most 87 counted cron operations of a wallet, although every increment restarts the time-to-live and other operations count too |
| UserOpBudget.ExecutedBoundExactly | lib/agent/cron-orchestration-service.ts:292-319 | over every history with at most `n` losses in a day, the operations executed in it number at most 87 + `n`, and no smaller number bounds them; an operation is lost when it is executed on chain and not counted, whatever threw in between |
| UserOpBudget.LossesBreakBound | lib/agent/cron-orchestration-service.ts:388-399 | any number of losses adds to the counted operations of one day, the full 87 included |
| DistributedLock.AcquireUserLock | lib/redis/distributed-lock.ts:31-46 | takes the lock under the lower-case address, or refuses |
| DistributedLock.ReleaseUserLock | lib/redis/distributed-lock.ts:72-91 | run without interruption, the in-memory release leaves what the atomic one leaves, up to sweeping |
| DistributedLock.MutualExclusion | lib/redis/distributed-lock.ts:31-91 | on one shared store, after any interleaving at most one client holds an unexpired lease of an address, and the stored id is its own |
| DistributedLock.AcquireExact | lib/redis/distributed-lock.ts:39-45 | a new client gets the lock if and only if no lease on it is running |
| DistributedLock.LockKeyExactly | lib/redis/distributed-lock.ts:31-46 | two addresses share a lock if and only if they are equal up to letter case |
| DistributedLock.AddressesIndependent | lib/redis/distributed-lock.ts:31-91 | no step of a client of another address changes who holds the lock of this one |
| DistributedLock.ReleaseSparesOthers | lib/redis/distributed-lock.ts:53-59 | a release, even by a client whose lease has lapsed, leaves every other lease in place |
| DistributedLock.TwoStepsReleaseExactly | lib/redis/distributed-lock.ts:72-91 | with nothing in between, the two steps end the grant and leave what the atomic release leaves, swept; a running lease's entry is gone |
| DistributedLock.TwoStepRefinesAtomic | lib/redis/distributed-lock.ts:84-90 | a delete made while the lease runs leaves what the atomic release leaves |
| DistributedLock.TwoStepSafeExactly | lib/redis/distributed-lock.ts:84-90 | with another client acquiring between the read and the delete, the release is safe if and only if the lease is still running |
| Idempotency.WithIdempotencyKey | lib/redis/idempotency.ts:50-88 | one whole call: cached reply, busy error, or a run with its result stored unless it throws, the lock always given back |
| Idempotency.WholeCallExact | lib/redis/idempotency.ts:62-87 | the four steps of a call in the interleaved machine, run one after the other, leave and answer what the whole call does |
| Idempotency.ReplyExact | lib/redis/idempotency.ts:62-71 | for a key whose two entries no other key uses: a call replies from the cache if and only if the last stored result is defined and unexpired, and then with it |
| Idempotency.HandlersExclude | lib/redis/idempotency.ts:73-87 | for such a key, while runs are shorter than the lock, no two calls are inside their handler, and a call that missed gets in if and only if nobody is |
| Idempotency.SecondRunReadEarlier | lib/redis/idempotency.ts:62-83 | for such a key, a run within the time-to-live of a stored result means its call read before that result was stored |
| Idempotency.RepeatExact | lib/redis/idempotency.ts:62-83 | for such a key, once a result is stored, and while none is undefined or expires, a handler starts again if and only if its call's read is older than a stored result |
| Idempotency.AtMostOnceExactly | lib/redis/idempotency.ts:43-88 | for such a key, while the lock outlasts every handler and nothing expires, the handler runs at most once if and only if no entry follows a run that threw or left nothing to store, and every call that enters has seen all stored results |
| Idempotency.OnceIsClean | lib/redis/idempotency.ts:43-88 | in any run at all, an entry that is not clean has an entry before it |
| Idempotency.SequentialRunsOnce | lib/redis/idempotency.ts:43-88 | for such a key, calls made one after the other, with a handler that always returns something, run it at most once |
| Idempotency.ThrowingHandlerRunsAgain | lib/redis/idempotency.ts:79-87 | a handler that throws is run again by the next call |
| Idempotency.OverrunLockRunsTwo | lib/redis/idempotency.ts:73-87 | a handler that outlasts its lock is joined by a second one |
| Idempotency.HandlerCanRunTwice | lib/redis/idempotency.ts:44-83 | a run in which the handler runs twice within the time-to-live: the documented "at most once" is false |
| IdempotencyKeys.SharedKeyExactly | lib/redis/idempotency.ts:14-41 | two users and keys have the same full key if and only if user and used part (`BuildKeyExactly`) agree, or one user id is the other with a colon and the beginning of the other's key after it |
| IdempotencyKeys.BuildKeyExactly | lib/redis/idempotency.ts:37-41 | of a key with blanks around it the full key has the first 128 characters of what is between them, after prefix and user |
| IdempotencyKeys.OwnKeysStayApart | lib/redis/idempotency.ts:37-41 | one user's keys of up to 128 characters without blanks at their ends have one full key if and only if they are equal |
| IdempotencyKeys.OwnKeysMeetExactly | lib/redis/idempotency.ts:37-41 | in general one user's keys meet if and only if what is left of them agrees in its first 128 characters |
| IdempotencyKeys.UsersNeverCollide | lib/redis/idempotency.ts:14-41 | no full key is shared across users whose ids have equally many colons |
| IdempotencyKeys.ApartExactly | lib/redis/idempotency.ts:59-60 | the entries of two full keys are disjoint if and only if the keys differ and neither is the other's lock |
| IdempotencyKeys.SiblingExactly | lib/redis/idempotency.ts:37-60 | one user's lock of a key is the result entry of another of his keys if and only if the used part of the latter is that of the former with `:lock` after it |
| IdempotencyKeys.KeyAlone | lib/redis/idempotency.ts:50-88 | among calls of any number of keys on one store, a key apart from the others in use goes through a run of its own |
| IdempotencyKeys.KeyReplyExact | lib/redis/idempotency.ts:62-71 | `ReplyExact` for every key apart from the others in use |
| IdempotencyKeys.KeyHandlersExclude | lib/redis/idempotency.ts:73-87 | `HandlersExclude` for every such key |
| IdempotencyKeys.KeySecondRunReadEarlier | lib/redis/idempotency.ts:62-83 | `SecondRunReadEarlier` for every such key |
| IdempotencyKeys.KeyRepeatExact | lib/redis/idempotency.ts:62-83 | `RepeatExact` for every such key |
| IdempotencyKeys.KeyAtMostOnceExactly | lib/redis/idempotency.ts:43-88 | `AtMostOnceExactly` for every such key |
| IdempotencyKeys.KeySequentialRunsOnce | lib/redis/idempotency.ts:43-88 | `SequentialRunsOnce` for every such key |
| IdempotencyKeys.LawsHoldExactly | lib/redis/idempotency.ts:59-87 | for two keys in use, replies and entries follow each key's own history in every run if and only if neither key is the other's lock |
| IdempotencyKeys.ReplyFromLock | lib/redis/idempotency.ts:59-71 | while key `x` is locked, a first call of key `x:lock` replies with the text of the lock |
| IdempotencyKeys.BusyWithNobodyInside | lib/redis/idempotency.ts:59-76 | after `x:lock` has stored its result, a call of `x` is turned away although no call is inside |
| IdempotencyKeys.SiblingRunsTwice | lib/redis/idempotency.ts:59-87 | the unlock of `x` deletes the stored result of `x:lock`, whose handler then runs again for a call that had seen everything stored |
| SignalHistory.SignalHistory.Append | sentinel/types.ts:134-140 | push, then keep the last `maxEntries` (all of them when that is 0) |
| SignalHistory.SignalHistory.ReadRange | sentinel/types.ts:142-144 | exactly the samples within the closed range, each once, in the order they were appended |
| SignalHistory.AppendAllIsTrimmed | sentinel/types.ts:134-140 | after any appends the history is the end of the full log |
| SignalHistory.TrimInvisible | sentinel/types.ts:126-144 | with samples `spacing` apart and a window shorter than `maxEntries` spacings, a read of the trimmed history equals the read of the full log |
| SignalHistory.TrimInvisibleExactly | sentinel/types.ts:126-144 | that condition is also necessary |
| SignalHistory.DefaultHistorySuffices | sentinel/rules-engine.ts:160-163 | 120 samples at 30 s lose nothing either rolling window could see |
| RulesEngine.KeyTextInjective | sentinel/rules-engine.ts:50 | the text key of an incident determines its vault and signal type |
| RulesEngine.RulesEngine.Evaluate | sentinel/rules-engine.ts:38-74 | the loop over the signals, each at its own instant: suppressed ones are skipped and not appended, the others appended and judged in order |
| RulesEngine.RulesEngine.EvaluateSignal | sentinel/rules-engine.ts:76-101 | each signal type goes to its rule |
| RulesEngine.RulesEngine.EvaluatePrice | sentinel/rules-engine.ts:104-152 | the depeg rule: confirmation, toxic underlying, warning, reset |
| RulesEngine.RulesEngine.EvaluateDrop | sentinel/rules-engine.ts:155-191 | the drop rules, vault flow and share price alike (229-264) |
| RulesEngine.RulesEngine.ConfirmConsecutive | sentinel/rules-engine.ts:270-279 | the first breach opens an entry, the second confirms |
| EngineLaws.TriggersOnEvenBreach | sentinel/rules-engine.ts:104-191 | an evaluated signal triggers if and only if it is a breach and completes a pair of breaches of its key since the last reset; it is an ALERT exactly when a price breach hits the vault's own underlying |
| EngineLaws.PriceStreakIsRunLength | sentinel/rules-engine.ts:110-149 | for a price key that count is the length of the current run of off-peg readings |
| EngineLaws.DropStreakNeverResets | sentinel/rules-engine.ts:173-190 | for flow and share-price keys it counts all breaches, consecutive or not |
| EngineLaws.QuietPollDoesNotReset | sentinel/rules-engine.ts:155-191 | a dip, a quiet poll that is evaluated, and another dip end in a BANK_RUN exit |
| RuleLaws.WindowIsLatest | sentinel/rules-engine.ts:50-65 | after any events a key's window holds the last 120 readings that were evaluated, each under its own time, or the time of its evaluation if it has none |
| RuleLaws.FlowBreachExactly | sentinel/rules-engine.ts:155-175 | a vault's assets breach if and only if at least two readings are at most 1800000 ms old, the first of them is at least 1 in size, and the last is lower by more than 15 % of that size |
| RuleLaws.SharePriceBreachExactly | sentinel/rules-engine.ts:229-250 | a share price breaches if and only if at least two readings are at most 900000 ms old, the first of them is positive, and the last is below 0.98 of it |
| RuleLaws.PriceRule | sentinel/rules-engine.ts:104-152 | after any events, the answer to a price: above 1.03 or below 0.97, on every second such reading in a row, an EXIT, or an ALERT if the asset is the vault's own underlying up to letter case; else above 1.015 or below 0.985 a warning; with the distance from 1 as its value |
| RuleLaws.DropRule | sentinel/rules-engine.ts:155-264 | after any events, a report of assets or of the share price exits, with its reason, vault and protocol, if and only if it is a breach and the breaches of its key so far are even in number |
| RuleLaws.MaxRedeemRule | sentinel/rules-engine.ts:194-213 | nothing redeemable is an EXIT at once, unless the same poll reports the vault as paused |
| RuleLaws.PausedRule | sentinel/rules-engine.ts:216-226 | a paused vault is an ALERT every time |
| RuleLaws.TwoFallsExit | sentinel/rules-engine.ts:229-264 | two reports of a share price 10 % down end in a SHARE_PRICE_DROP exit |
| EngineLaws.PausedSeesOwn | sentinel/rules-engine.ts:197-203 | the cross-check of a zero max-redeem sees its own vault's pause signal only |
| EngineLaws.NonInterference | sentinel/rules-engine.ts:38-101 | over any events, a vault's outcomes, confirmations and windows are those of the engine run on that vault's events alone |
| EngineLaws.VaultAlone | sentinel/rules-engine.ts:38-74 | over any polls, what `evaluate` emits for a vault, and what the engine keeps for it, is what it would if it were only given that vault's signals and incidents |
| Worker.GatherSignals | sentinel/worker.ts:45-174 | the signals of all vaults, at most one per vault and type |
| PollLaws.SignalsExactly | sentinel/worker.ts:45-174 | each vault gives exactly these signals: a price, stamped in milliseconds, from the feed or, when the indexer is stale, from the pools; positive assets in millionths; pause flag and share price for Morpho vaults only; nothing about redeemability |
| Worker.SentinelWorker.Poll | sentinel/worker.ts:265-410 | one scheduled poll: actions in order, crash at any point, cleanup and failure count (`PollStartsExits`, `PollLeavesOpen`, `FailuresInARow` say what that comes to) |
| PollLaws.PollStartsExits | sentinel/worker.ts:277-299 | the exits a cycle starts are exactly the EXIT actions of its poll up to the crash, if there is one: in that order, each at its own time, with the samples and the first breach its rule went by |
| PollLaws.ExitIsStarted | sentinel/worker.ts:282-299 | in particular every EXIT action of a poll that does not crash before it is started |
| PollLaws.PollLeavesOpen | sentinel/worker.ts:251-365 | after a cycle that does not crash an incident is open if and only if it is at most an hour old and is that of an exit of this poll or, for a key without one, was open before |
| PollLaws.CrashLeavesOpen | sentinel/worker.ts:277-299 | after a crash the incidents of the exits started are open, and all others as before |
| PollLaws.FailuresInARow | sentinel/worker.ts:364-395 | in any history the counter that pages from three on is the number of cycles in a row that failed |
| Worker.SentinelWorker.Perform | sentinel/worker.ts:282-299 | an EXIT opens its incident first; an ALERT opens none |
| Worker.SentinelWorker.CleanupStaleIncidents | sentinel/worker.ts:251-259 | exactly the incidents older than the time-to-live are closed |
| SentinelLaws.PollSound | sentinel/worker.ts:277-296 | the actions of a poll have distinct, unsuppressed keys, and every exit is justified by the state before and after |
| SentinelLaws.CycleKeeps | sentinel/worker.ts:265-365 | every cycle, however it ends, keeps the invariant that guards past exits |
| SentinelLaws.ExitsApart | sentinel/worker.ts:251-365 | in any history two exits of a vault and signal are more than an hour apart; the later one compares only samples taken after the earlier exit and was confirmed by breaches more than an hour after it |
| SentinelLaws.OnlyDropsExit | sentinel/worker.ts:45-174 | in any history whose polls gather the configured vaults every exit is for a drop of assets or of the share price; none is ever started by a price or by redeemability |
| DecisionEngine.LargestIsFirstMaximum | lib/agent/decision-engine.ts:138-140 | the position considered is the first of those worth most |
| DecisionEngine.ByApySorts | lib/agent/decision-engine.ts:278 | the sort is a permutation in descending order |
| DecisionEngine.HeadIsFirstMaximum | lib/agent/decision-engine.ts:278 | its head is the first vault of the highest APY |
| DecisionEngine.EligibleExactly | lib/agent/decision-engine.ts:207-256 | the filters keep exactly the liquid, different, same-underlying vaults open for deposits |
| DecisionEngine.DecisionExact | lib/agent/decision-engine.ts:62-327 | a rebalance is advised if and only if the largest position can be redeemed and some acceptable vault beats it by 0.5 % (0.1 % when targeted) |
| DecisionEngine.DecisionSound | lib/agent/decision-engine.ts:278-327 | an advised target is acceptable and no acceptable vault is better |
| DecisionEngine.DecisionSource | lib/agent/decision-engine.ts:138-175 | the position reported is a largest one, at the APY of its vault |
| DecisionLaws.DecidesExactly | lib/agent/decision-engine.ts:62-327 | over the fields of the market and the holdings: the decision is the one answer that names the first largest position, what it earns (average net APY, else net APY, else nothing; first listed vault, else the one fetched), a pause of its redeems, the first best vault of 100000 dollars or more at another address with its symbol and open deposits, and the move if that gains 0.005, or 0.001 when targeted, with gain and yearly amount |
| DecisionLaws.NetApyIgnored | lib/agent/decision-engine.ts:149-191 | a vault's net APY never changes a decision when its average is present |
| DecisionLaws.AdvisedMoveGains | lib/agent/decision-engine.ts:278-327 | an advised move between Morpho vaults gains at least 0.005, or 0.001 when targeted, by what the two vaults pay |
| DecisionEngine.TargetStays | lib/agent/decision-engine.ts:208-294 | money moved to an advised target has nowhere to go next |
| DecisionEngine.MoveShrinks | lib/agent/decision-engine.ts:208-294 | following the advice strictly reduces the movable positions |
| DecisionEngine.RebalancingStops | lib/agent/decision-engine.ts:62-327 | with the market fixed, following the advice stops within as many moves as there were positions, whatever is targeted on the way |
| RebalanceBatch.SlippageAgrees | lib/yo/constants.ts:27-33 | the two spellings of "less half a percent" agree and never exceed the value |
| RebalanceBatch.LessHalfAPercent | lib/agent/rebalance-executor.ts:84-162 | the amount moved and the minimum shares are the quotes less half a percent, rounded down, on every path |
| RebalanceBatch.BuildRebalanceCalls | lib/agent/rebalance-executor.ts:72-192 | builds the batch of the four protocol pairs, or fails when the amount rounds to zero |
| RebalanceBatch.PlanExactly | lib/agent/rebalance-executor.ts:84-112 | there is a batch if and only if the quote of the redeem, of the vault or for YO of the gateway, is at least 2 |
| RebalanceBatch.CallsMarked | lib/agent/rebalance-executor.ts:86-189 | every call goes to its contract with no ether, receivers and owner are the user, and the gateway's calls carry the partner id |
| RebalanceBatch.BatchSucceedsExactly | lib/agent/rebalance-executor.ts:72-192 | run on the ledger, the batch goes through if and only if shares, vault assets, the paid amount and the minted minimum suffice |
| RebalanceBatch.BatchNeverReverts | lib/agent/rebalance-executor.ts:72-192 | in particular it never reverts when the redeem pays `redeemAmount` and a YO deposit mints its minimum |
| RebalanceBatch.BatchSucceedsExactlyBy | lib/agent/cron-orchestration-service.ts:355-382 | sent by any account, the batch goes through if and only if the source vault can pay, the sender may redeem (the user's shares on the user's allowance; its own shares for YO), the sender then has `redeemAmount` of the underlying, and the YO minimums are met |
| RebalanceBatch.OtherSenderPays | lib/agent/cron-orchestration-service.ts:355-382 | a sender that is not the user pays for the deposit from its own balance, and the user keeps all that the redeem paid |
| RebalanceBatch.BatchEffect | lib/agent/rebalance-executor.ts:94-189 | it burns exactly `shares`, moves `redeemAmount` into the target, leaves the rest of what was paid with the user and touches no other balance |
| RebalanceBatch.BatchAllowances | lib/agent/rebalance-executor.ts:118-188 | every allowance it grants is used up, and no other changes |
| RebalanceBatch.BatchConserves | lib/agent/rebalance-executor.ts:72-192 | token totals change by the shares burned and minted, and by nothing else |
| Ledger.BatchTotals | lib/agent/rebalance-executor.ts:42-46 | no batch of calls whatever creates or destroys other tokens |
| CronBatch.DefaultsMatchExactly | lib/agent/rebalance-executor.ts:72-75 | leaving protocols and underlying out builds the same batch, whatever the quotes, if and only if both vaults are Morpho vaults of USDC |
| CronBatch.CronFollowsExactly | lib/agent/cron-orchestration-service.ts:367-384 | the cron builds the batch that was decided if and only if the money moves from one Morpho vault to another |
| CronBatch.CronMissesYo | lib/agent/cron-orchestration-service.ts:367-384 | a market in which the engine advises a YO vault and the cron builds another batch than the one decided |
| CronPhase.ProcessUserRebalance | lib/agent/cron-orchestration-service.ts:181-329 | counts the user exactly once or throws and counts nothing; the budget, checked before and counted after the execution, grows exactly when a rebalance is counted and the store takes the count |
| CronPhase.VerdictExactly | lib/agent/cron-orchestration-service.ts:181-329 | the outcome is that of the first check, in the source's order, that is not passed, and a rebalance if all are: session, advice, authorization, expiry, revocation, simulation, fewer than 87 operations, execution |
| CronPhase.TurnIsBudgeted | lib/agent/cron-orchestration-service.ts:292-319 | a turn is, to the budget, its check, what others count meanwhile, and its end |
| CronPhase.OperationBookedOnce | lib/agent/rebalance-executor.ts:315-353 | an operation executed on chain is counted if and only if neither the receipt, nor the delegation check, nor the success log, nor the count threw, and is lost otherwise; nothing else is counted or lost |
| CronPhase.EveryOperationBooked | lib/agent/cron-orchestration-service.ts:292-399 | over any turns, the counted and the lost operations together are exactly those executed on chain |
| CronPhase.TurnsBounded | lib/agent/cron-orchestration-service.ts:292-319 | over any turns of a wallet, with any time and other operations between check and count, no day holds more than 87 counted rebalances, nor more than 87 executed ones beyond those lost in it |
| CronPhase.NotedBooked | lib/agent/cron-orchestration-service.ts:139-158 | one counter increment with one detail keeps every counter equal to the number of details of its kind |
| CronPhase.TaskStepBooked | lib/agent/cron-orchestration-service.ts:137-163 | a step of any user's turn keeps exactly one detail per decided user |
| CronPhase.TaskStepLogged | lib/agent/cron-orchestration-service.ts:137-163 | a step books the ending of its turn and nothing else: turned away as skipped, a throw as an error, any other outcome under its own kind and reason, and a turn that got its lock as processed |
| CronPhase.TurnEntersExactly | lib/agent/cron-orchestration-service.ts:138-147 | a turn gets its lock if and only if no lease on its wallet is running, and then for 300000 ms |
| CronPhase.TaskStepLocks | lib/agent/cron-orchestration-service.ts:137-163 | a turn holds its lock from acquire to release, among any other turns |
| CronPhase.TaskStepSpares | lib/agent/cron-orchestration-service.ts:137-163 | a step of a turn touches no lock but its own |
| CronPhase.Advance | lib/agent/cron-orchestration-service.ts:137-163 | one step of one turn, up to its next await (`TaskStepLogged` says what it books) |
| CronPhase.TakeTurn | lib/agent/cron-orchestration-service.ts:137-163 | whatever other processes do before it, a step keeps books and locks and brings its turn forward |
| CronPhase.RunChunk | lib/agent/cron-orchestration-service.ts:135-165 | `Promise.all` over a chunk ends with every turn finished, in whatever order they went on |
| CronPhase.ChunksOf | lib/agent/cron-orchestration-service.ts:130-133 | the chunks make up the batch; all but the last are as long as the concurrency, and none is empty or longer |
| CronPhase.ProcessUsersInParallel | lib/agent/cron-orchestration-service.ts:107-167 | for every user list, positive batch size and concurrency, interleaving and pattern of errors: each user's turn ends once, as the schedule has it; the details are those endings in their order; rebalanced, skipped and errors count them by kind, and processed the turns that got their lock; no lock is left behind |
| CronPhase.EndRun | lib/agent/cron-orchestration-service.ts:107-167 | the accounting of a finished run follows from the books, the log and the locks of its stages |
| LruCache.LRU.Get | lib/ens/cache.ts:27-38 | a hit moves to the end, an expired entry is dropped |
| LruCache.LRU.Set | lib/ens/cache.ts:40-48 | a set goes to the end with a new expiry; past `max` the oldest goes |
| LruCache.LRU.Delete | lib/ens/cache.ts:50-52 | removes the key |
| LruCache.LRU.Clear | lib/ens/cache.ts:54-56 | empties the cache |
| LruCache.CacheRefinesReference | lib/ens/cache.ts:17-61 | after any operations the size is at most `max`, and every key is cached exactly as an order-free reference says: until deleted, found expired, or crowded out by `max` rivals used since |
| LruCache.HitIsLastSet | lib/ens/cache.ts:27-48 | a hit returns the value last set for the key, within its time-to-live and with no delete or clear since |
| LruCache.Retention | lib/ens/cache.ts:27-48 | with fewer than `max` other keys set or hit since the key's own last use, a read returns the value until it expires and nothing after |
| Encryption.KeyCache.GetEncryptionKey | lib/security/encryption.ts:25-51 | the cached key is always that of the present environment |
| Encryption.RoundTrip | lib/security/encryption.ts:67-146 | decrypting what was encrypted gives it back, for every non-empty text without the mark |
| Encryption.EncryptIdempotent | lib/security/encryption.ts:72-75 | encrypting again, under any key, changes nothing |
| Encryption.DecryptExact | lib/security/encryption.ts:108-146 | marked text is accepted if and only if it is the printing of three colon-free parts of the right lengths that open under the key |
| Encryption.RefusalExact | lib/security/encryption.ts:108-146 | what `decrypt` answers to a marked text of three parts, check by check |
| Encryption.PlainTextPasses | lib/security/encryption.ts:98-106 | text without the mark is handed back as it is under any key, and empty text refused |
| Encryption.EncryptExactly | lib/security/encryption.ts:67-94 | what `encrypt` writes, and its answer when text or key will not do |
| Encryption.HasKeyExactly | lib/security/encryption.ts:25-51 | a key is usable if and only if it is 64 characters of hex for 32 bytes |
| Encryption.RoundTripExactly | lib/security/encryption.ts:67-146 | encrypting and then decrypting gives a text back if and only if it is not empty, does not carry the mark, and there is a usable key |
| Encryption.DecryptedIsShorter | lib/security/encryption.ts:98-146 | what a marked text decrypts to is shorter, so it is never itself |
| Encryption.MarkedPlaintextLost | lib/security/encryption.ts:72-121 | an instance: a marked plaintext with no further colon is passed through and then refused |
| SessionEncryption.AuthorizationRoundTrip | lib/security/session-encryption.ts:65-109 | decrypting an encrypted authorization gives it back, for all three kinds, if and only if no secret carries the mark and, if there is a secret, the key is usable |
| SessionEncryption.AuthorizationSealed | lib/security/session-encryption.ts:65-130 | no secret stays in the clear, the encrypted-test says so exactly when there is one, and encrypting again changes nothing |
| SessionEncryption.SealedApart | lib/security/session-encryption.ts:65-87 | each secret is encrypted on its own under its own vector, and no other field changes |
| SessionEncryption.NeedsKeyExactly | lib/security/session-encryption.ts:65-87 | without a usable key it fails exactly when there is a secret to encrypt |
| BigIntCodec.ParsePrinted | lib/redis/yo-cache.ts:29-39 | every integer, negative ones included, is read back from its decimal text |
| BigIntCodec.ParseBased | lib/redis/yo-cache.ts:34-39 | hexadecimal, octal and binary texts are read as numbers too |
| BigIntCodec.InBaseAccepts | lib/redis/yo-cache.ts:34-39 | a run is a number in a base if and only if it is not empty and has digits of the base only |
| BigIntCodec.DigitsInOrder | lib/redis/yo-cache.ts:34-39 | the digits are 0 to 9 and a to f in either case, each worth its place |
| BigIntCodec.BlankIsZero | lib/redis/yo-cache.ts:34-39 | blank text after the tag is zero |
| BigIntCodec.BlanksIgnored | lib/redis/yo-cache.ts:34-39 | blanks around a number do not count |
| BigIntCodec.WrittenAs | lib/redis/yo-cache.ts:29-32 | a big integer is written as `__bigint:` and its decimal text |
| BigIntCodec.ReplacedHasText | lib/redis/yo-cache.ts:29-32 | no big integer is left for `JSON.stringify` to reject |
| BigIntCodec.RoundTripExactly | lib/redis/yo-cache.ts:29-39 | reviving the replaced tree gives back the original if and only if no string in it carries the tag |
| BigIntCodec.TaggedTextIsForged | lib/redis/yo-cache.ts:34-39 | a tagged decimal string comes back as a number |

## Left out

- Store: the plain keys and the sorted sets are two maps here; the source keeps both in one Map, so a plain key that
  starts with `zset:` is not modelled. The JSON text of a stored sorted set is not modelled.
- RateLimiter: member texts without a leading time and counters that are not numbers read as 0 where the source gets
  NaN; no operation writes one. `resetRateLimit`, `getRateLimitUsage` and the transfer limiter are not modelled.
- UserOpBudget.DailyBound: bounds counted operations (see `ExecutedBoundExactly` for executed ones); all of a wallet's
  processes share one store, and increments are taken not to overlap, where the source reads and writes in two steps.
- UserOpBudget.ExecutedBoundExactly: a lost operation is dated by the end of its turn, which can be before it is included
  on chain when the wait for its receipt is what threw. Claims pass the same gate and end in the same events; the rest of
  the claim phase is not modelled.
- CronPhase.ProcessUserRebalance: other operations counted between its check and its count are in `TurnsBounded`, not in
  this method.
- RateLimiter.BoundUnderOutages: all calls reach one store; calls that reach several are in `LimiterStores`, where each
  store, shared or a process's own memory, decides as the script does (`FallbackRefinesScript`).
- DistributedLock: all clients share one store, lock ids are never repeated, and a store that throws is not modelled.
- Idempotency.HandlersExclude: assumes runs shorter than the lock, as the lock's time-to-live demands; the release
  deletes whatever lock is there.
- Idempotency.AtMostOnceExactly: all clients share one store. A store that throws while a result is stored counts as a
  handler that threw; other failures of the store are not modelled. Handlers are taken to use no entry of the wrapper.
- IdempotencyKeys.BuildKeyExactly: blanks are the six of ASCII, where `trim` also removes those of Unicode.
- IdempotencyKeys.LawsHoldExactly: every key has one time-to-live and one lock time-to-live, whichever call uses it.
- RulesEngine: a signal is evaluated at one instant where the source may read the clock up to three times for it, with no
  await in between; the histories in the shared windows map are values, so sharing a history object is not captured;
  `reset` and `latest` are not modelled.
- SentinelLaws.ExitsApart: holds per lifetime of the worker process, as a restart forgets the active incidents
  (sentinel/worker.ts:36); poll cycles are taken not to overlap, which `setInterval` (sentinel/worker.ts:416) does not
  ensure.
- SentinelLaws.OnlyDropsExit: takes every configured underlying to have a name, as the shipped ones do.
- Worker: the text of alerts, the vault-status table and the exit orchestrator are not modelled; an exit is the instant
  at which it is started.
- DecisionEngine: a fetch that throws, which the source turns into "no rebalance" (lib/agent/decision-engine.ts:328-339),
  names and reason texts are not modelled; case folding is that of ASCII.
- DecisionEngine.RebalancingStops: assumes that an address names one vault and that money is held under that vault's
  protocol.
- Ledger: amounts are unbounded, an allowance is never infinite, redeems pay at once, and the paid and minted amounts are
  parameters of a batch.
- CronPhase.ProcessUsersInParallel: the store is taken not to throw on acquire and release; ids are distinct and other
  processes use ids of their own, with atomic releases. The claim phase, whose counters can count a user twice when
  logging throws (lib/agent/cron-orchestration-service.ts:541-574), and the safety check before the run are not modelled.
- Encryption: AES-256-GCM, base64 and hex are functions with the laws stated in `Lawful` (inverses, lengths, and a
  ciphertext no shorter than its text); text that UTF-8
  cannot carry (lone surrogates) is not excluded there.
- SessionEncryption: fields that neither function reads are one text.
- BigIntCodec: JSON syntax, the order of object fields, and numbers that JSON has no text for are not modelled.
- User interface, SDK clients, SQL, GraphQL, risk scores, error classification and address resolution are not modelled.
