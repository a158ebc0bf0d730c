/** lib/redis/rate-limiter.ts: the daily UserOp counter of a wallet, and the gate the cron job
    puts in front of each operation (lib/agent/cron-orchestration-service.ts). */
module UserOpBudget {
  import opened Text
  import opened Store

  const USEROP_DAILY_LIMIT := 90
  const CRON_USEROP_RESERVE := 3
  const DAY_SECONDS: nat := 86400
  const DAY_MS := 86400000

  function BudgetKey(wallet: string): string {
    "userop_budget:" + ToLower(wallet)
  }

  /** The counter at an instant; a missing, expired or empty entry counts as 0, and so does a text
      that is not a number (no operation here writes one). */
  function UserOpCount(plain: Plain, wallet: string, now: int): int {
    match Lookup(plain, BudgetKey(wallet), now)
    case None => 0
    case Some(text) => match ParseInt(text) { case Some(n) => n case None => 0 }
  }

  /** One more operation; the entry's time-to-live starts again. */
  function Incremented(plain: Plain, wallet: string, now: int): Plain {
    Put(plain, BudgetKey(wallet), PrintInt(UserOpCount(plain, wallet, now) + 1), DAY_SECONDS, now)
  }

  /** An unreachable store reads as a spent budget. */
  method GetUserOpCount(store: MemoryStore, wallet: string, now: int, up: bool) returns (count: int)
    modifies store`plain
    ensures count == if up then UserOpCount(old(store.plain), wallet, now) else USEROP_DAILY_LIMIT
    ensures store.plain == if up then Swept(old(store.plain), BudgetKey(wallet), now) else old(store.plain)
  {
    if !up { return USEROP_DAILY_LIMIT; }
    var val := store.Get(BudgetKey(wallet), now);
    if val.None? { return 0; }
    var parsed := ParseInt(val.value);
    return if parsed.Some? then parsed.value else 0;
  }

  method IncrementUserOpCount(store: MemoryStore, wallet: string, now: int)
    modifies store`plain
    ensures store.plain == Incremented(old(store.plain), wallet, now)
  {
    ghost var before := store.plain;
    var current := GetUserOpCount(store, wallet, now, true);
    store.Set(BudgetKey(wallet), PrintInt(current + 1), DAY_SECONDS, now);
    assert store.plain == Incremented(before, wallet, now);
  }

  // ---- The daily bound ----

  /** What happens to one wallet: the cron job checks its budget, then the operation it started either
      is executed on chain and counted, or is executed and not counted, whatever threw in between, or is
      not executed; other operations are counted as they come. */
  datatype Event = Check(now: int, up: bool) | Succeed(now: int) | Lose(now: int) | Fail(now: int) | Other(now: int)

  /** `pending`: a cron operation passed the gate and has not ended (operations of one wallet do not
      overlap). `ops`: when each counted cron operation ended; `lost`: when each uncounted one did. */
  datatype Budget = Budget(plain: Plain, pending: bool, ops: seq<int>, lost: seq<int>)

  function Step(b: Budget, wallet: string, e: Event): Budget {
    match e
    case Check(now, up) =>
      if b.pending then b
      else
        var opsUsed := if up then UserOpCount(b.plain, wallet, now) else USEROP_DAILY_LIMIT;
        b.(pending := opsUsed < USEROP_DAILY_LIMIT - CRON_USEROP_RESERVE)
    case Succeed(now) =>
      if b.pending then Budget(Incremented(b.plain, wallet, now), false, b.ops + [now], b.lost) else b
    case Lose(now) =>
      if b.pending then b.(pending := false, lost := b.lost + [now]) else b
    case Fail(now) => b.(pending := false)
    case Other(now) => b.(plain := Incremented(b.plain, wallet, now))
  }

  function Run(start: Plain, wallet: string, events: seq<Event>): Budget {
    if events == [] then Budget(start, false, [], [])
    else Step(Run(start, wallet, events[..|events| - 1]), wallet, events[|events| - 1])
  }

  ghost predicate Clocked(events: seq<Event>) {
    && (forall i :: 0 <= i < |events| ==> 0 < events[i].now)
    && (forall i, j :: 0 <= i < j < |events| ==> events[i].now <= events[j].now)
  }

  /** How many of the times lie in the half-open window `[lo, hi)`. */
  function CountIn(times: seq<int>, lo: int, hi: int): nat {
    if times == [] then 0
    else CountIn(times[..|times| - 1], lo, hi) + (if lo <= times[|times| - 1] < hi then 1 else 0)
  }

  lemma {:induction false} CountAppend(times: seq<int>, more: seq<int>, lo: int, hi: int)
    ensures CountIn(times + more, lo, hi) == CountIn(times, lo, hi) + CountIn(more, lo, hi)
  {
    if more == [] {
      assert times + more == times;
    } else {
      var n := |more| - 1;
      CountAppend(times, more[..n], lo, hi);
      assert (times + more)[..|times| + n] == times + more[..n];
    }
  }

  function LastTime(events: seq<Event>): int {
    if events == [] then 0 else events[|events| - 1].now
  }

  /** After an increment the counter reads one more for a full day, then 0. */
  lemma CountAfterIncrement(plain: Plain, wallet: string, now: int, later: int)
    requires 0 < now <= later
    ensures UserOpCount(Incremented(plain, wallet, now), wallet, later)
         == if later <= now + DAY_MS then UserOpCount(plain, wallet, now) + 1 else 0
  {
    var next := UserOpCount(plain, wallet, now) + 1;
    PutThenLookup(plain, BudgetKey(wallet), PrintInt(next), DAY_SECONDS, now, later);
    ParsePrint(next, "");
    assert PrintInt(next) + "" == PrintInt(next);
  }

  /** Wallets share a counter if and only if they are equal up to letter case ... */
  lemma BudgetKeyExactly(wallet: string, other: string)
    ensures BudgetKey(wallet) == BudgetKey(other) <==> SameUpToCase(wallet, other)
  {
    LowerSameExactly(wallet, other);
    var n := |"userop_budget:"|;
    assert BudgetKey(wallet)[n..] == ToLower(wallet) && BudgetKey(other)[n..] == ToLower(other);
  }

  /** ... so an operation of one wallet counts for it under any spelling, and for no other wallet. */
  lemma CountedForWallet(plain: Plain, wallet: string, other: string, now: int, later: int)
    requires 0 < now <= later
    ensures UserOpCount(Incremented(plain, wallet, now), other, later)
         == if !SameUpToCase(wallet, other) then UserOpCount(plain, other, later)
            else if later <= now + 86400000 then UserOpCount(plain, wallet, now) + 1 else 0
  {
    BudgetKeyExactly(wallet, other);
    CountAfterIncrement(plain, wallet, now, later);
  }

  /** While a window is open its cron operations are all still in the counter, so one more can
      start only below the gate. */
  ghost predicate Covered(b: Budget, wallet: string, now: int, start: int) {
    var inWindow := CountIn(b.ops, start, start + DAY_MS);
    && inWindow <= USEROP_DAILY_LIMIT - CRON_USEROP_RESERVE
    && (b.pending && now < start + DAY_MS ==> inWindow < USEROP_DAILY_LIMIT - CRON_USEROP_RESERVE)
    && (inWindow > 0 ==> start <= now)
    && (forall t :: now <= t ==> UserOpCount(b.plain, wallet, t) >= 0)
    && (forall t :: now <= t < start + DAY_MS ==> UserOpCount(b.plain, wallet, t) >= inWindow)
  }

  lemma IncrementCovers(plain: Plain, wallet: string, now: int, at: int)
    requires 0 < at && now <= at && forall t :: now <= t ==> UserOpCount(plain, wallet, t) >= 0
    ensures forall t :: at <= t ==> UserOpCount(Incremented(plain, wallet, at), wallet, t) >= 0
    ensures forall t :: at <= t <= at + DAY_MS ==>
              UserOpCount(Incremented(plain, wallet, at), wallet, t) == UserOpCount(plain, wallet, at) + 1
  {
    forall t | at <= t
      ensures UserOpCount(Incremented(plain, wallet, at), wallet, t)
           == if t <= at + DAY_MS then UserOpCount(plain, wallet, at) + 1 else 0
    {
      CountAfterIncrement(plain, wallet, at, t);
    }
  }

  lemma StepCovered(b: Budget, wallet: string, now: int, start: int, e: Event)
    requires Covered(b, wallet, now, start) && 0 < e.now && now <= e.now
    ensures Covered(Step(b, wallet, e), wallet, e.now, start)
  {
    if e.Succeed? || e.Other? {
      IncrementCovers(b.plain, wallet, now, e.now);
    }
  }

  /** Every half-open window of a day holds at most 87 counted cron operations of a wallet,
      whatever other operations are counted in between and although each one restarts the
      entry's time-to-live. */
  lemma {:induction false} DailyBound(begin: Plain, wallet: string, events: seq<Event>, start: int)
    requires Clocked(events) && forall t :: 0 <= t ==> UserOpCount(begin, wallet, t) >= 0
    ensures CountIn(Run(begin, wallet, events).ops, start, start + DAY_MS) <= 87
    ensures Covered(Run(begin, wallet, events), wallet, LastTime(events), start)
  {
    if events != [] {
      var front := events[..|events| - 1];
      DailyBound(begin, wallet, front, start);
      StepCovered(Run(begin, wallet, front), wallet, LastTime(front), start, events[|events| - 1]);
    }
  }

  // ---- Operations that were executed but not counted ----

  /** The cron operations executed in a window, counted or not. */
  ghost function ExecutedIn(b: Budget, start: int): nat {
    CountIn(b.ops, start, start + DAY_MS) + LostIn(b, start)
  }

  ghost function LostIn(b: Budget, start: int): nat {
    CountIn(b.lost, start, start + DAY_MS)
  }

  /** A history of a wallet that starts with a sensible counter. */
  ghost predicate History(begin: Plain, wallet: string, events: seq<Event>) {
    Clocked(events) && forall t :: 0 <= t ==> UserOpCount(begin, wallet, t) >= 0
  }

  lemma RunOneMore(begin: Plain, wallet: string, events: seq<Event>, e: Event)
    ensures Run(begin, wallet, events + [e]) == Step(Run(begin, wallet, events), wallet, e)
  {
    assert (events + [e])[..|events|] == events;
  }

  /** `lost` operations that are not counted and then `counted` that are, in one millisecond. */
  function Attempts(lost: nat, counted: nat): seq<Event> {
    if counted > 0 then Attempts(lost, counted - 1) + [Check(1, true)] + [Succeed(1)]
    else if lost > 0 then Attempts(lost - 1, 0) + [Check(1, true)] + [Lose(1)]
    else []
  }

  ghost predicate AtFirst(events: seq<Event>) {
    forall i :: 0 <= i < |events| ==> events[i].now == 1
  }

  lemma AtFirstMore(events: seq<Event>, e: Event)
    requires AtFirst(events) && e.now == 1
    ensures AtFirst(events + [e])
  {
  }

  lemma {:induction false} AttemptsAtFirst(lost: nat, counted: nat)
    ensures AtFirst(Attempts(lost, counted))
  {
    if counted > 0 {
      AttemptsAtFirst(lost, counted - 1);
      AtFirstMore(Attempts(lost, counted - 1), Check(1, true));
      AtFirstMore(Attempts(lost, counted - 1) + [Check(1, true)], Succeed(1));
    } else if lost > 0 {
      AttemptsAtFirst(lost - 1, 0);
      AtFirstMore(Attempts(lost - 1, 0), Check(1, true));
      AtFirstMore(Attempts(lost - 1, 0) + [Check(1, true)], Lose(1));
    }
  }

  function Ones(n: nat): seq<int> {
    if n == 0 then [] else Ones(n - 1) + [1]
  }

  lemma {:induction false} OnesCount(n: nat)
    ensures CountIn(Ones(n), 1, 1 + DAY_MS) == n
  {
    if n > 0 {
      OnesCount(n - 1);
      assert Ones(n)[..|Ones(n)| - 1] == Ones(n - 1);
    }
  }

  /** Between two attempts, all at the first millisecond. */
  ghost predicate Attempted(b: Budget, wallet: string, lost: nat, counted: nat) {
    !b.pending && b.ops == Ones(counted) && b.lost == Ones(lost) && UserOpCount(b.plain, wallet, 1) == counted
  }

  lemma OneLost(b: Budget, wallet: string, lost: nat)
    requires Attempted(b, wallet, lost, 0)
    ensures Attempted(Step(Step(b, wallet, Check(1, true)), wallet, Lose(1)), wallet, lost + 1, 0)
  {
  }

  lemma OneCounted(b: Budget, wallet: string, lost: nat, counted: nat)
    requires Attempted(b, wallet, lost, counted) && counted < USEROP_DAILY_LIMIT - CRON_USEROP_RESERVE
    ensures Attempted(Step(Step(b, wallet, Check(1, true)), wallet, Succeed(1)), wallet, lost, counted + 1)
  {
    CountAfterIncrement(b.plain, wallet, 1, 1);
  }

  lemma {:induction false} AttemptsPass(wallet: string, lost: nat, counted: nat)
    requires counted <= USEROP_DAILY_LIMIT - CRON_USEROP_RESERVE
    ensures Attempted(Run(map[], wallet, Attempts(lost, counted)), wallet, lost, counted)
  {
    if counted > 0 {
      var before := Attempts(lost, counted - 1);
      AttemptsPass(wallet, lost, counted - 1);
      RunOneMore(map[], wallet, before, Check(1, true));
      RunOneMore(map[], wallet, before + [Check(1, true)], Succeed(1));
      OneCounted(Run(map[], wallet, before), wallet, lost, counted - 1);
    } else if lost > 0 {
      var before := Attempts(lost - 1, 0);
      AttemptsPass(wallet, lost - 1, 0);
      RunOneMore(map[], wallet, before, Check(1, true));
      RunOneMore(map[], wallet, before + [Check(1, true)], Lose(1));
      OneLost(Run(map[], wallet, before), wallet, lost - 1);
    }
  }

  lemma AttemptsHistory(wallet: string, lost: nat, counted: nat)
    ensures History(map[], wallet, Attempts(lost, counted))
  {
    AttemptsAtFirst(lost, counted);
  }

  /** Losses add to whatever is counted, the full budget included, and any number of them in one day. */
  lemma LossesBreakBound(wallet: string, n: nat, counted: nat)
    requires counted <= USEROP_DAILY_LIMIT - CRON_USEROP_RESERVE
    ensures var b := Run(map[], wallet, Attempts(n, counted));
            && History(map[], wallet, Attempts(n, counted))
            && LostIn(b, 1) == n && ExecutedIn(b, 1) == counted + n
  {
    AttemptsHistory(wallet, n, counted);
    AttemptsPass(wallet, n, counted);
    OnesCount(n);
    OnesCount(counted);
  }

  /** At most `limit` operations are executed in any day with no more than `n` losses, in any history. */
  ghost predicate ExecutedBound(wallet: string, n: nat, limit: int) {
    forall begin, events, start :: History(begin, wallet, events) && LostIn(Run(begin, wallet, events), start) <= n ==>
      ExecutedIn(Run(begin, wallet, events), start) <= limit
  }

  /** The operations executed in a day are bounded by 87 and the losses of that day, and by nothing
      less. */
  lemma ExecutedBoundExactly(wallet: string, n: nat, limit: int)
    ensures ExecutedBound(wallet, n, limit) <==> 87 + n <= limit
  {
    if 87 + n <= limit {
      forall begin, events, start | History(begin, wallet, events) && LostIn(Run(begin, wallet, events), start) <= n
        ensures ExecutedIn(Run(begin, wallet, events), start) <= limit
      {
        DailyBound(begin, wallet, events, start);
      }
    } else {
      var full := USEROP_DAILY_LIMIT - CRON_USEROP_RESERVE;
      LossesBreakBound(wallet, n, full);
      assert ExecutedIn(Run(map[], wallet, Attempts(n, full)), 1) > limit;
    }
  }
}
