/** lib/agent/cron-orchestration-service.ts, phase 1: users processed in batches and chunks, each
    under a lock, with the counters of the summary. */
module CronPhase {
  import opened Wrappers
  import opened Seqs
  import opened Store
  import Budget = UserOpBudget
  import Lock = DistributedLock

  const LOCK_TTL: nat := 300

  datatype ActionKind = Rebalanced | Skipped | Errored
  datatype Reason =
    | Locked | NoSession | NotAdvised | NoAuthorization | SessionExpired | SessionRevoked | Simulated | BudgetLow
    | Executed | ExecutionFailed | Exception
  datatype Detail = Detail(address: string, kind: ActionKind, reason: Reason)
  datatype Summary = Summary(processed: nat, rebalanced: nat, skipped: nat, errors: nat, details: seq<Detail>)

  const EMPTY := Summary(0, 0, 0, 0, [])

  /** One more detail, and its counter. */
  function Noted(s: Summary, address: string, kind: ActionKind, reason: Reason): Summary {
    var next := s.(details := s.details + [Detail(address, kind, reason)]);
    match kind
    case Rebalanced => next.(rebalanced := s.rebalanced + 1)
    case Skipped => next.(skipped := s.skipped + 1)
    case Errored => next.(errors := s.errors + 1)
  }

  class CronSummary {
    var processed: nat
    var rebalanced: nat
    var skipped: nat
    var errors: nat
    var details: seq<Detail>

    constructor ()
      ensures Value() == EMPTY
    {
      processed, rebalanced, skipped, errors, details := 0, 0, 0, 0, [];
    }

    ghost function Value(): Summary
      reads this
    {
      Summary(processed, rebalanced, skipped, errors, details)
    }

    method Skip(address: string, reason: Reason)
      modifies this
      ensures Value() == Noted(old(Value()), address, Skipped, reason)
    {
      skipped := skipped + 1;
      details := details + [Detail(address, Skipped, reason)];
    }

    method Fail(address: string, reason: Reason)
      modifies this
      ensures Value() == Noted(old(Value()), address, Errored, reason)
    {
      errors := errors + 1;
      details := details + [Detail(address, Errored, reason)];
    }

    method Succeed(address: string)
      modifies this
      ensures Value() == Noted(old(Value()), address, Rebalanced, Executed)
    {
      rebalanced := rebalanced + 1;
      details := details + [Detail(address, Rebalanced, Executed)];
    }
  }

  // ---- One user ----

  /** The answer of a call that may throw. */
  datatype Answer<T> = Got(value: T) | Threw

  /** What the calls made for one user answer: the session probe, the decision engine (which catches
      its own errors), the authorization row, its decryption to an expiry in seconds, the
      revocation check and the simulation log. Then, of the operation: whether it was executed on chain,
      whether its receipt and the delegation could be read afterwards, whether its success or its
      failure could be logged, and whether it could be added to the budget. */
  datatype Answers = Answers(validSession: bool, advised: bool, authorization: Answer<bool>, expiry: Answer<int>,
                             revoked: Answer<bool>, simulation: bool, logged: Answer<()>,
                             onChain: bool, receiptRead: bool, delegationRead: bool,
                             successLogged: bool, failureLogged: bool, countStored: bool)

  /** `executeRebalance`: an executed operation is reported as a failure when a read after it throws. */
  predicate Reported(a: Answers) {
    a.onChain && a.receiptRead && a.delegationRead
  }

  /** `executeRebalanceTransaction`: an execution whose success cannot be logged is reported as a
      failure, and a failure that cannot be logged throws. */
  function ExecuteResult(a: Answers): Answer<bool> {
    if Reported(a) && a.successLogged then Got(true) else if a.failureLogged then Got(false) else Threw
  }

  datatype Outcome = Counts(kind: ActionKind, reason: Reason) | Throws

  /** Every check before the budget passes. */
  predicate ReachesBudget(a: Answers, now: int) {
    && a.validSession && a.advised && a.authorization == Got(true)
    && a.expiry.Got? && a.expiry.value > now / 1000
    && a.revoked == Got(false) && !a.simulation
  }

  function Verdict(a: Answers, now: int, opsUsed: int): Outcome {
    if !a.validSession then Counts(Skipped, NoSession)
    else if !a.advised then Counts(Skipped, NotAdvised)
    else if a.authorization.Threw? then Throws
    else if !a.authorization.value then Counts(Errored, NoAuthorization)
    else if a.expiry.Threw? then Throws
    else if a.expiry.value <= now / 1000 then Counts(Skipped, SessionExpired)
    else if a.revoked.Threw? then Throws
    else if a.revoked.value then Counts(Skipped, SessionRevoked)
    else if a.simulation then (if a.logged.Threw? then Throws else Counts(Skipped, Simulated))
    else if opsUsed >= Budget.USEROP_DAILY_LIMIT - Budget.CRON_USEROP_RESERVE then Counts(Skipped, BudgetLow)
    else if ExecuteResult(a).Threw? then Throws
    else if ExecuteResult(a).value then Counts(Rebalanced, Executed)
    else Counts(Errored, ExecutionFailed)
  }

  /** One thing `processUserRebalance` asks, and what it does if the answer is no. */
  datatype Check = Check(passed: bool, otherwise: Outcome)

  /** The expiry, in seconds, is later than the clock, in milliseconds. */
  predicate NotExpired(a: Answers, now: int) {
    a.expiry.Got? && a.expiry.value * 1000 > now
  }

  /** All of them, in order. */
  function Checks(a: Answers, now: int, opsUsed: int): seq<Check> {
    [Check(a.validSession, Counts(Skipped, NoSession)),
     Check(a.advised, Counts(Skipped, NotAdvised)),
     Check(a.authorization.Got?, Throws),
     Check(a.authorization == Got(true), Counts(Errored, NoAuthorization)),
     Check(a.expiry.Got?, Throws),
     Check(NotExpired(a, now), Counts(Skipped, SessionExpired)),
     Check(a.revoked.Got?, Throws),
     Check(a.revoked == Got(false), Counts(Skipped, SessionRevoked)),
     Check(!a.simulation || a.logged.Got?, Throws),
     Check(!a.simulation, Counts(Skipped, Simulated)),
     Check(opsUsed < 87, Counts(Skipped, BudgetLow)),
     Check((a.onChain && a.receiptRead && a.delegationRead && a.successLogged) || a.failureLogged, Throws),
     Check(a.onChain && a.receiptRead && a.delegationRead && a.successLogged, Counts(Errored, ExecutionFailed))]
  }

  /** The first check that is not passed decides; a user who passes all has been rebalanced. */
  ghost predicate FirstFailure(checks: seq<Check>, outcome: Outcome) {
    || (exists k :: 0 <= k < |checks| && !checks[k].passed && outcome == checks[k].otherwise && forall j :: 0 <= j < k ==> checks[j].passed)
    || ((forall k :: 0 <= k < |checks| ==> checks[k].passed) && outcome == Counts(Rebalanced, Executed))
  }

  lemma FirstFailureStep(checks: seq<Check>, outcome: Outcome)
    requires checks != []
    ensures FirstFailure(checks, outcome) <==>
              if checks[0].passed then FirstFailure(checks[1..], outcome) else outcome == checks[0].otherwise
  {
    var rest := checks[1..];
    if checks[0].passed {
      if k :| 0 <= k < |checks| && !checks[k].passed && outcome == checks[k].otherwise && forall j :: 0 <= j < k ==> checks[j].passed {
        assert rest[k - 1] == checks[k] && forall j :: 0 <= j < k - 1 ==> rest[j] == checks[j + 1];
      }
      if k :| 0 <= k < |rest| && !rest[k].passed && outcome == rest[k].otherwise && forall j :: 0 <= j < k ==> rest[j].passed {
        assert checks[k + 1] == rest[k] && forall j :: 0 < j < k + 1 ==> checks[j] == rest[j - 1];
      }
      assert forall k :: 0 < k < |checks| ==> checks[k] == rest[k - 1];
    }
  }

  /** The same, worked out from the front. */
  function Failure(checks: seq<Check>): Outcome {
    if checks == [] then Counts(Rebalanced, Executed)
    else if checks[0].passed then Failure(checks[1..])
    else checks[0].otherwise
  }

  lemma {:induction false} FailureIsFirst(checks: seq<Check>, outcome: Outcome)
    ensures FirstFailure(checks, outcome) <==> outcome == Failure(checks)
  {
    if checks != [] {
      FirstFailureStep(checks, outcome);
      FailureIsFirst(checks[1..], outcome);
    }
  }

  /** What is decided about a user: exactly what the first check says that is not passed. */
  lemma VerdictExactly(a: Answers, now: int, opsUsed: int, outcome: Outcome)
    ensures outcome == Verdict(a, now, opsUsed) <==> FirstFailure(Checks(a, now, opsUsed), outcome)
  {
    var checks := Checks(a, now, opsUsed);
    FailureIsFirst(checks, outcome);
    FailureOfAll(a, now, opsUsed);
  }

  lemma FailureFrom(checks: seq<Check>, k: nat)
    requires k < |checks|
    ensures Failure(checks[k..]) == if checks[k].passed then Failure(checks[k + 1..]) else checks[k].otherwise
  {
    assert checks[k..][1..] == checks[k + 1..];
  }

  lemma NotExpiredExactly(a: Answers, now: int)
    requires a.expiry.Got?
    ensures NotExpired(a, now) <==> a.expiry.value > now / 1000
  {
  }

  lemma {:induction false} FailureOfThirteen(c: seq<Check>)
    requires |c| == 13
    ensures Failure(c) ==
              if !c[0].passed then c[0].otherwise else if !c[1].passed then c[1].otherwise
              else if !c[2].passed then c[2].otherwise else if !c[3].passed then c[3].otherwise
              else if !c[4].passed then c[4].otherwise else if !c[5].passed then c[5].otherwise
              else if !c[6].passed then c[6].otherwise else if !c[7].passed then c[7].otherwise
              else if !c[8].passed then c[8].otherwise else if !c[9].passed then c[9].otherwise
              else if !c[10].passed then c[10].otherwise else if !c[11].passed then c[11].otherwise
              else if !c[12].passed then c[12].otherwise else Counts(Rebalanced, Executed)
  {
    assert c[0..] == c && c[13..] == [];
    FailureFrom(c, 0); FailureFrom(c, 1); FailureFrom(c, 2); FailureFrom(c, 3); FailureFrom(c, 4);
    FailureFrom(c, 5); FailureFrom(c, 6); FailureFrom(c, 7); FailureFrom(c, 8); FailureFrom(c, 9);
    FailureFrom(c, 10); FailureFrom(c, 11); FailureFrom(c, 12);
  }

  lemma FailureOfAll(a: Answers, now: int, opsUsed: int)
    ensures Failure(Checks(a, now, opsUsed)) == Verdict(a, now, opsUsed)
  {
    FailureOfThirteen(Checks(a, now, opsUsed));
    if a.expiry.Got? {
      NotExpiredExactly(a, now);
    }
  }

  function OpsUsed(plain: Plain, user: string, now: int, up: bool): int {
    if up then Budget.UserOpCount(plain, user, now) else Budget.USEROP_DAILY_LIMIT
  }

  /** `processUserRebalance`: either counts the user exactly once, or throws and counts nothing. The
      budget, checked and counted at two instants, grows by one exactly when a rebalance is counted and
      the store takes the count. */
  method ProcessUserRebalance(summary: CronSummary, store: MemoryStore, user: string, a: Answers,
                              sessionAt: int, checkedAt: int, countedAt: int, up: bool)
      returns (threw: bool)
    requires sessionAt <= checkedAt <= countedAt
    modifies summary, store`plain
    ensures var outcome := Verdict(a, sessionAt, OpsUsed(old(store.plain), user, checkedAt, up));
            && threw == outcome.Throws?
            && summary.Value() == (if outcome.Throws? then old(summary.Value())
                                   else Noted(old(summary.Value()), user, outcome.kind, outcome.reason))
            && store.plain == (if outcome == Counts(Rebalanced, Executed) && a.countStored then Budget.Incremented(old(store.plain), user, countedAt)
                               else if ReachesBudget(a, sessionAt) && up then Swept(old(store.plain), Budget.BudgetKey(user), checkedAt)
                               else old(store.plain))
  {
    if !a.validSession {
      summary.Skip(user, NoSession);
      return false;
    }
    if !a.advised {
      summary.Skip(user, NotAdvised);
      return false;
    }
    if a.authorization.Threw? { return true; }
    if !a.authorization.value {
      summary.Fail(user, NoAuthorization);
      return false;
    }
    if a.expiry.Threw? { return true; }
    if !(a.expiry.value > sessionAt / 1000) {
      summary.Skip(user, SessionExpired);
      return false;
    }
    if a.revoked.Threw? { return true; }
    if a.revoked.value {
      summary.Skip(user, SessionRevoked);
      return false;
    }
    if a.simulation {
      if a.logged.Threw? { return true; }
      summary.Skip(user, Simulated);
      return false;
    }
    var opsUsed := Budget.GetUserOpCount(store, user, checkedAt, up);
    if opsUsed >= Budget.USEROP_DAILY_LIMIT - Budget.CRON_USEROP_RESERVE {
      summary.Skip(user, BudgetLow);
      return false;
    }
    var result := ExecuteResult(a);
    if result.Threw? { return true; }
    if result.value {
      summary.Succeed(user);
      if a.countStored {
        SweepBeforeCount(store.plain, old(store.plain), user, checkedAt, countedAt);
        Budget.IncrementUserOpCount(store, user, countedAt);
      }
    } else {
      summary.Fail(user, ExecutionFailed);
    }
    return false;
  }

  /** Counting after a sweep leaves what counting alone leaves. */
  lemma SweepBeforeCount(swept: Plain, plain: Plain, user: string, checkedAt: int, countedAt: int)
    requires swept == Swept(plain, Budget.BudgetKey(user), checkedAt) && checkedAt <= countedAt
    ensures Budget.Incremented(swept, user, countedAt) == Budget.Incremented(plain, user, countedAt)
  {
    SweepIsInvisible(plain, Budget.BudgetKey(user), checkedAt, Budget.BudgetKey(user), countedAt);
  }

  // ---- The budget of one wallet over all its turns ----

  /** A turn of one wallet: when its session and its budget were checked, when its execution ended, and
      when other operations of the wallet were counted while it went on. */
  datatype Turn = Turn(answers: Answers, sessionAt: int, checkedAt: int, up: bool, others: seq<int>, endedAt: int)

  /** The store, and when each rebalance that was counted, or executed without being counted, ended. */
  datatype Account = Account(plain: Plain, counted: seq<int>, uncounted: seq<int>)

  function CountOthers(plain: Plain, user: string, others: seq<int>): Plain {
    if others == [] then plain
    else Budget.Incremented(CountOthers(plain, user, others[..|others| - 1]), user, others[|others| - 1])
  }

  /** The execution was started. */
  predicate Executes(a: Account, user: string, t: Turn) {
    && ReachesBudget(t.answers, t.sessionAt)
    && OpsUsed(a.plain, user, t.checkedAt, t.up) < Budget.USEROP_DAILY_LIMIT - Budget.CRON_USEROP_RESERVE
  }

  function AfterTurn(a: Account, user: string, t: Turn): Account {
    var outcome := Verdict(t.answers, t.sessionAt, OpsUsed(a.plain, user, t.checkedAt, t.up));
    var meanwhile := CountOthers(a.plain, user, t.others);
    if outcome == Counts(Rebalanced, Executed) && t.answers.countStored
    then Account(Budget.Incremented(meanwhile, user, t.endedAt), a.counted + [t.endedAt], a.uncounted)
    else if Executes(a, user, t) && t.answers.onChain
    then Account(meanwhile, a.counted, a.uncounted + [t.endedAt])
    else a.(plain := meanwhile)
  }

  function AfterTurns(begin: Plain, user: string, turns: seq<Turn>): Account {
    if turns == [] then Account(begin, [], [])
    else AfterTurn(AfterTurns(begin, user, turns[..|turns| - 1]), user, turns[|turns| - 1])
  }

  /** The turn as the budget sees it. */
  function EventsOf(t: Turn): seq<Budget.Event> {
    if !ReachesBudget(t.answers, t.sessionAt) then OtherEvents(t.others)
    else [Budget.Check(t.checkedAt, t.up)] + OtherEvents(t.others) + [EndEvent(t)]
  }

  function EndEvent(t: Turn): Budget.Event {
    if Reported(t.answers) && t.answers.successLogged && t.answers.countStored then Budget.Succeed(t.endedAt)
    else if t.answers.onChain then Budget.Lose(t.endedAt)
    else Budget.Fail(t.endedAt)
  }

  function OtherEvents(others: seq<int>): seq<Budget.Event> {
    seq(|others|, i requires 0 <= i < |others| => Budget.Other(others[i]))
  }

  function AllEvents(turns: seq<Turn>): seq<Budget.Event> {
    if turns == [] then [] else AllEvents(turns[..|turns| - 1]) + EventsOf(turns[|turns| - 1])
  }

  lemma OtherEventsLast(events: seq<Budget.Event>, others: seq<int>)
    requires others != []
    ensures var n := |others| - 1;
            events + OtherEvents(others) == events + OtherEvents(others[..n]) + [Budget.Other(others[n])]
  {
  }

  lemma OneOther(begin: Plain, user: string, events: seq<Budget.Event>, at: int)
    ensures var b := Budget.Run(begin, user, events);
            Budget.Run(begin, user, events + [Budget.Other(at)]) == b.(plain := Budget.Incremented(b.plain, user, at))
  {
    Budget.RunOneMore(begin, user, events, Budget.Other(at));
  }

  lemma CountOthersLast(plain: Plain, user: string, others: seq<int>)
    requires others != []
    ensures var n := |others| - 1;
            CountOthers(plain, user, others) == Budget.Incremented(CountOthers(plain, user, others[..n]), user, others[n])
  {
  }

  lemma {:induction false} OthersRun(begin: Plain, user: string, events: seq<Budget.Event>, others: seq<int>)
    ensures var b := Budget.Run(begin, user, events);
            Budget.Run(begin, user, events + OtherEvents(others)) == b.(plain := CountOthers(b.plain, user, others))
  {
    if others == [] {
      assert events + OtherEvents(others) == events;
    } else {
      var n := |others| - 1;
      OthersRun(begin, user, events, others[..n]);
      OtherEventsLast(events, others);
      OneOther(begin, user, events + OtherEvents(others[..n]), others[n]);
      CountOthersLast(Budget.Run(begin, user, events).plain, user, others);
    }
  }

  /** Turn by turn, the budget model keeps the account. */
  lemma {:induction false} TurnsAreBudgeted(begin: Plain, user: string, turns: seq<Turn>)
    ensures Budget.Run(begin, user, AllEvents(turns)) == Seen(AfterTurns(begin, user, turns))
  {
    if turns != [] {
      var n := |turns| - 1;
      TurnsAreBudgeted(begin, user, turns[..n]);
      TurnIsBudgeted(begin, user, AllEvents(turns[..n]), AfterTurns(begin, user, turns[..n]), turns[n]);
    }
  }

  function Seen(a: Account): Budget.Budget {
    Budget.Budget(a.plain, false, a.counted, a.uncounted)
  }

  /** A turn that gets to the budget is a check, whatever others do meanwhile, and its end. */
  lemma TurnSteps(a: Account, user: string, t: Turn)
    requires ReachesBudget(t.answers, t.sessionAt)
    ensures var checked := Budget.Step(Seen(a), user, Budget.Check(t.checkedAt, t.up));
            Budget.Step(checked.(plain := CountOthers(checked.plain, user, t.others)), user, EndEvent(t)) == Seen(AfterTurn(a, user, t))
  {
  }

  lemma Regroup<T>(a: seq<T>, b: seq<T>, c: seq<T>, d: seq<T>)
    ensures a + (b + c + d) == a + b + c + d
  {
  }

  lemma TurnIsBudgeted(begin: Plain, user: string, before: seq<Budget.Event>, a: Account, t: Turn)
    requires Budget.Run(begin, user, before) == Seen(a)
    ensures Budget.Run(begin, user, before + EventsOf(t)) == Seen(AfterTurn(a, user, t))
  {
    if !ReachesBudget(t.answers, t.sessionAt) {
      OthersRun(begin, user, before, t.others);
    } else {
      var checked := before + [Budget.Check(t.checkedAt, t.up)];
      Budget.RunOneMore(begin, user, before, Budget.Check(t.checkedAt, t.up));
      OthersRun(begin, user, checked, t.others);
      Budget.RunOneMore(begin, user, checked + OtherEvents(t.others), EndEvent(t));
      Regroup(before, [Budget.Check(t.checkedAt, t.up)], OtherEvents(t.others), [EndEvent(t)]);
      TurnSteps(a, user, t);
    }
  }

  /** A turn whose operation was executed on chain books it once: as counted if and only if nothing
      threw after it, and as lost otherwise. No other turn books anything. */
  lemma OperationBookedOnce(a: Account, user: string, t: Turn)
    ensures var after, x := AfterTurn(a, user, t), t.answers;
            var nothingThrew := x.receiptRead && x.delegationRead && x.successLogged && x.countStored;
            var executed := Executes(a, user, t) && x.onChain;
            && after.counted == a.counted + (if executed && nothingThrew then [t.endedAt] else [])
            && after.uncounted == a.uncounted + (if executed && !nothingThrew then [t.endedAt] else [])
  {
  }

  /** When each operation of a wallet that was executed on chain ended. */
  function OnChainEnds(begin: Plain, user: string, turns: seq<Turn>): seq<int> {
    if turns == [] then []
    else
      var n := |turns| - 1;
      OnChainEnds(begin, user, turns[..n])
      + if Executes(AfterTurns(begin, user, turns[..n]), user, turns[n]) && turns[n].answers.onChain then [turns[n].endedAt] else []
  }

  /** So the account holds every executed operation exactly once, and no other. */
  lemma {:induction false} EveryOperationBooked(begin: Plain, user: string, turns: seq<Turn>)
    ensures var a := AfterTurns(begin, user, turns);
            multiset(OnChainEnds(begin, user, turns)) == multiset(a.counted) + multiset(a.uncounted)
  {
    if turns != [] {
      var n := |turns| - 1;
      EveryOperationBooked(begin, user, turns[..n]);
      OperationBookedOnce(AfterTurns(begin, user, turns[..n]), user, turns[n]);
    }
  }

  /** Over any turns of a wallet, with any time between the check and the count and other operations in
      between: no window of a day holds more than 87 counted rebalances, and none in which nothing is
      lost more than 87 that were executed. */
  lemma TurnsBounded(begin: Plain, user: string, turns: seq<Turn>, start: int)
    requires Budget.Clocked(AllEvents(turns)) && forall t :: 0 <= t ==> Budget.UserOpCount(begin, user, t) >= 0
    ensures var a := AfterTurns(begin, user, turns);
            && Budget.CountIn(a.counted, start, start + Budget.DAY_MS) <= 87
            && Budget.CountIn(a.counted + a.uncounted, start, start + Budget.DAY_MS)
                 <= 87 + Budget.CountIn(a.uncounted, start, start + Budget.DAY_MS)
  {
    var a := AfterTurns(begin, user, turns);
    TurnsAreBudgeted(begin, user, turns);
    Budget.DailyBound(begin, user, AllEvents(turns), start);
    Budget.CountAppend(a.counted, a.uncounted, start, start + Budget.DAY_MS);
  }

  // ---- One chunk: its users' turns interleaved at every await ----

  /** A user's turn: the wallet, and the random id its lock will be taken under. */
  datatype Job = Job(address: string, lockId: string)

  /** Before the lock, inside `processFn`, after it and before the release, finished. */
  datatype Stage = Waiting | Inside | Decided | Done

  /** The next step of one turn, up to its next await. */
  function TaskStep(s: Summary, locks: Lock.State, job: Job, stage: Stage, outcome: Outcome): (Summary, Lock.State, Stage) {
    match stage
    case Waiting =>
      var next := Lock.Step(locks, Lock.Acquire(job.address, job.lockId, LOCK_TTL));
      if job.lockId in next.grants then (s.(processed := s.processed + 1), next, Inside)
      else (Noted(s, job.address, Skipped, Locked), next, Done)
    case Inside =>
      (if outcome.Throws? then Noted(s, job.address, Errored, Exception)
       else Noted(s, job.address, outcome.kind, outcome.reason), locks, Decided)
    case Decided => (s, Lock.Step(locks, Lock.Release(job.address, job.lockId)), Done)
    case Done => (s, locks, Done)
  }

  function Addresses(details: seq<Detail>): seq<string> {
    seq(|details|, i requires 0 <= i < |details| => details[i].address)
  }

  function Wallets(jobs: seq<Job>): seq<string> {
    seq(|jobs|, i requires 0 <= i < |jobs| => jobs[i].address)
  }

  ghost function Ids(jobs: seq<Job>): set<string> {
    set j | j in jobs :: j.lockId
  }

  ghost predicate DistinctIds(jobs: seq<Job>) {
    forall i, j :: 0 <= i < j < |jobs| ==> jobs[i].lockId != jobs[j].lockId
  }

  function HasKind(kind: ActionKind): Detail -> bool {
    (d: Detail) => d.kind == kind
  }

  /** Every counter is the number of details of its kind. */
  ghost predicate Tallied(s: Summary) {
    && s.rebalanced == |Select(s.details, HasKind(Rebalanced))|
    && s.skipped == |Select(s.details, HasKind(Skipped))|
    && s.errors == |Select(s.details, HasKind(Errored))|
  }

  lemma NotedTallied(s: Summary, address: string, kind: ActionKind, reason: Reason)
    requires Tallied(s)
    ensures Tallied(Noted(s, address, kind, reason))
  {
    var d := [Detail(address, kind, reason)];
    SelectAppend(s.details, d, HasKind(Rebalanced));
    SelectAppend(s.details, d, HasKind(Skipped));
    SelectAppend(s.details, d, HasKind(Errored));
  }

  lemma {:induction false} KindsPartition(details: seq<Detail>)
    ensures |Select(details, HasKind(Rebalanced))| + |Select(details, HasKind(Skipped))| + |Select(details, HasKind(Errored))|
         == |details|
  {
    if details != [] {
      KindsPartition(details[1..]);
    }
  }

  /** The wallets of the turns that have been decided. */
  ghost function DecidedWallets(jobs: seq<Job>, stages: seq<Stage>): multiset<string>
    requires |jobs| == |stages|
  {
    if jobs == [] then multiset{}
    else DecidedWallets(jobs[1..], stages[1..]) + (if stages[0] in {Decided, Done} then multiset{jobs[0].address} else multiset{})
  }

  lemma {:induction false} StageChange(jobs: seq<Job>, stages: seq<Stage>, i: nat, stage: Stage)
    requires |jobs| == |stages| && i < |jobs| && stages[i] !in {Decided, Done}
    ensures DecidedWallets(jobs, stages[i := stage])
         == DecidedWallets(jobs, stages) + (if stage in {Decided, Done} then multiset{jobs[i].address} else multiset{})
  {
    if i == 0 {
      assert stages[i := stage][1..] == stages[1..];
    } else {
      assert stages[i := stage][1..] == stages[1..][i - 1 := stage];
      StageChange(jobs[1..], stages[1..], i - 1, stage);
    }
  }

  lemma {:induction false} StageKept(jobs: seq<Job>, stages: seq<Stage>, i: nat)
    requires |jobs| == |stages| && i < |jobs| && stages[i] == Decided
    ensures DecidedWallets(jobs, stages[i := Done]) == DecidedWallets(jobs, stages)
  {
    if i == 0 {
      assert stages[i := Done][1..] == stages[1..];
    } else {
      assert stages[i := Done][1..] == stages[1..][i - 1 := Done];
      StageKept(jobs[1..], stages[1..], i - 1);
    }
  }

  lemma {:induction false} AllDecided(jobs: seq<Job>, stages: seq<Stage>)
    requires |jobs| == |stages| && forall i :: 0 <= i < |stages| ==> stages[i] == Done
    ensures DecidedWallets(jobs, stages) == multiset(Wallets(jobs))
  {
    if jobs != [] {
      AllDecided(jobs[1..], stages[1..]);
      assert Wallets(jobs) == [jobs[0].address] + Wallets(jobs[1..]);
    } else {
      assert Wallets(jobs) == [];
    }
  }

  lemma {:induction false} NoneDecided(jobs: seq<Job>, stages: seq<Stage>)
    requires |jobs| == |stages| && forall i :: 0 <= i < |stages| ==> stages[i] == Waiting
    ensures DecidedWallets(jobs, stages) == multiset{}
  {
    if jobs != [] {
      NoneDecided(jobs[1..], stages[1..]);
    }
  }

  /** Where a lock stands, stage by stage. */
  ghost predicate LockFits(locks: Lock.State, job: Job, stage: Stage) {
    && (stage == Waiting ==> job.lockId !in locks.used && job.lockId !in locks.grants)
    && (stage in {Inside, Decided} ==> job.lockId in locks.grants && locks.grants[job.lockId].key == Lock.LockKey(job.address))
    && (stage == Done ==> job.lockId !in locks.grants)
  }

  ghost predicate LocksFit(locks: Lock.State, jobs: seq<Job>, stages: seq<Stage>)
    requires |jobs| == |stages|
  {
    Lock.Backed(locks) && forall i :: 0 <= i < |jobs| ==> LockFits(locks, jobs[i], stages[i])
  }

  /** Every decided turn has exactly one detail, and the counters agree with the details. */
  ghost predicate Booked(start: Summary, s: Summary, wallets: multiset<string>) {
    Tallied(s) && multiset(Addresses(s.details)) == multiset(Addresses(start.details)) + wallets
  }

  lemma NotedBooked(start: Summary, s: Summary, wallets: multiset<string>, address: string, kind: ActionKind, reason: Reason)
    requires Booked(start, s, wallets)
    ensures Booked(start, Noted(s, address, kind, reason), wallets + multiset{address})
  {
    NotedTallied(s, address, kind, reason);
    assert Addresses(Noted(s, address, kind, reason).details) == Addresses(s.details) + [address];
  }

  /** A step of any turn keeps the books, ... */
  lemma TaskStepBooked(start: Summary, s: Summary, locks: Lock.State, jobs: seq<Job>, stages: seq<Stage>, i: nat, outcome: Outcome)
    requires |jobs| == |stages| && i < |jobs| && Booked(start, s, DecidedWallets(jobs, stages))
    ensures var (s', locks', stage') := TaskStep(s, locks, jobs[i], stages[i], outcome);
            Booked(start, s', DecidedWallets(jobs, stages[i := stage']))
  {
    var stage' := TaskStep(s, locks, jobs[i], stages[i], outcome).2;
    match stages[i]
    case Waiting =>
      StageChange(jobs, stages, i, stage');
      NotedBooked(start, s, DecidedWallets(jobs, stages), jobs[i].address, Skipped, Locked);
    case Inside =>
      StageChange(jobs, stages, i, stage');
      NotedBooked(start, s, DecidedWallets(jobs, stages), jobs[i].address, Errored, Exception);
      if outcome.Counts? {
        NotedBooked(start, s, DecidedWallets(jobs, stages), jobs[i].address, outcome.kind, outcome.reason);
      }
    case Decided =>
      StageKept(jobs, stages, i);
    case Done =>
      assert stages[i := Done] == stages;
  }

  /** ... every lock that is not its own, ... */
  lemma TaskStepSpares(s: Summary, locks: Lock.State, job: Job, stage: Stage, outcome: Outcome, id: string)
    requires id != job.lockId
    ensures var locks' := TaskStep(s, locks, job, stage, outcome).1;
            && (id in locks'.used <==> id in locks.used) && (id in locks'.grants <==> id in locks.grants)
            && (id in locks.grants ==> locks'.grants[id] == locks.grants[id])
  {
  }

  lemma TaskStepFits(s: Summary, locks: Lock.State, job: Job, stage: Stage, outcome: Outcome)
    requires LockFits(locks, job, stage)
    ensures var (s', locks', stage') := TaskStep(s, locks, job, stage, outcome); LockFits(locks', job, stage')
  {
  }

  lemma TaskStepBacked(s: Summary, locks: Lock.State, job: Job, stage: Stage, outcome: Outcome)
    requires Lock.Backed(locks)
    ensures Lock.Backed(TaskStep(s, locks, job, stage, outcome).1)
  {
    if stage == Waiting {
      Lock.StepBacked(locks, Lock.Acquire(job.address, job.lockId, LOCK_TTL));
    } else if stage == Decided {
      Lock.StepBacked(locks, Lock.Release(job.address, job.lockId));
    }
  }

  /** ... and the fit of all locks to their stages. */
  lemma TaskStepLocks(s: Summary, locks: Lock.State, jobs: seq<Job>, stages: seq<Stage>, i: nat, outcome: Outcome)
    requires |jobs| == |stages| && i < |jobs| && DistinctIds(jobs) && LocksFit(locks, jobs, stages)
    ensures var (s', locks', stage') := TaskStep(s, locks, jobs[i], stages[i], outcome);
            LocksFit(locks', jobs, stages[i := stage'])
  {
    var (s', locks', stage') := TaskStep(s, locks, jobs[i], stages[i], outcome);
    TaskStepBacked(s, locks, jobs[i], stages[i], outcome);
    forall k | 0 <= k < |jobs| ensures LockFits(locks', jobs[k], stages[i := stage'][k]) {
      assert LockFits(locks, jobs[k], stages[k]);
      if k == i {
        TaskStepFits(s, locks, jobs[i], stages[i], outcome);
      } else {
        TaskStepSpares(s, locks, jobs[i], stages[i], outcome, jobs[k].lockId);
      }
    }
  }

  // ---- How each turn ended ----

  /** A turn is turned away without a lock, or it runs and ends some way. */
  datatype Ending = TurnedAway(job: Job) | Ran(job: Job, outcome: Outcome)

  /** What the report must say of it. */
  function DetailOf(e: Ending): Detail {
    match e
    case TurnedAway(job) => Detail(job.address, Skipped, Locked)
    case Ran(job, Throws) => Detail(job.address, Errored, Exception)
    case Ran(job, Counts(kind, reason)) => Detail(job.address, kind, reason)
  }

  function DetailsOf(log: seq<Ending>): seq<Detail> {
    seq(|log|, i requires 0 <= i < |log| => DetailOf(log[i]))
  }

  function JobsOf(log: seq<Ending>): seq<Job> {
    seq(|log|, i requires 0 <= i < |log| => log[i].job)
  }

  function HadLock(): Ending -> bool {
    (e: Ending) => e.Ran?
  }

  function Rebalances(): Ending -> bool {
    (e: Ending) => e.Ran? && e.outcome.Counts? && e.outcome.kind == Rebalanced
  }

  function Skips(): Ending -> bool {
    (e: Ending) => e.TurnedAway? || (e.outcome.Counts? && e.outcome.kind == Skipped)
  }

  function Fails(): Ending -> bool {
    (e: Ending) => e.Ran? && (e.outcome.Throws? || e.outcome.kind == Errored)
  }

  function InsideNow(stages: seq<Stage>): nat {
    if stages == [] then 0 else (if stages[0] == Inside then 1 else 0) + InsideNow(stages[1..])
  }

  /** The turns that have been decided. */
  ghost function DecidedJobs(jobs: seq<Job>, stages: seq<Stage>): multiset<Job>
    requires |jobs| == |stages|
  {
    if jobs == [] then multiset{}
    else DecidedJobs(jobs[1..], stages[1..]) + (if stages[0] in {Decided, Done} then multiset{jobs[0]} else multiset{})
  }

  /** The summary reports the endings in the log, in their order, and the counters count them; every
      decided turn has one ending; and the turns that got their lock are those that ran or are at it. */
  ghost predicate Logged(start: Summary, s: Summary, jobs: seq<Job>, stages: seq<Stage>, log: seq<Ending>)
    requires |jobs| == |stages|
  {
    && LogReported(start, s, log)
    && s.processed == start.processed + |Select(log, HadLock())| + InsideNow(stages)
    && multiset(JobsOf(log)) == DecidedJobs(jobs, stages)
  }

  ghost predicate LogReported(start: Summary, s: Summary, log: seq<Ending>) {
    && s.details == start.details + DetailsOf(log)
    && s.rebalanced == start.rebalanced + |Select(log, Rebalances())|
    && s.skipped == start.skipped + |Select(log, Skips())|
    && s.errors == start.errors + |Select(log, Fails())|
  }

  lemma {:induction false} InsideChange(stages: seq<Stage>, i: nat, stage: Stage)
    requires i < |stages|
    ensures InsideNow(stages[i := stage]) + (if stages[i] == Inside then 1 else 0) == InsideNow(stages) + (if stage == Inside then 1 else 0)
  {
    if i == 0 {
      assert stages[i := stage][1..] == stages[1..];
    } else {
      assert stages[i := stage][1..] == stages[1..][i - 1 := stage];
      InsideChange(stages[1..], i - 1, stage);
    }
  }

  lemma {:induction false} DecidedChange(jobs: seq<Job>, stages: seq<Stage>, i: nat, stage: Stage)
    requires |jobs| == |stages| && i < |jobs| && stages[i] !in {Decided, Done}
    ensures DecidedJobs(jobs, stages[i := stage])
         == DecidedJobs(jobs, stages) + (if stage in {Decided, Done} then multiset{jobs[i]} else multiset{})
  {
    if i == 0 {
      assert stages[i := stage][1..] == stages[1..];
    } else {
      assert stages[i := stage][1..] == stages[1..][i - 1 := stage];
      DecidedChange(jobs[1..], stages[1..], i - 1, stage);
    }
  }

  lemma {:induction false} DecidedKept(jobs: seq<Job>, stages: seq<Stage>, i: nat)
    requires |jobs| == |stages| && i < |jobs| && stages[i] == Decided
    ensures DecidedJobs(jobs, stages[i := Done]) == DecidedJobs(jobs, stages)
  {
    if i == 0 {
      assert stages[i := Done][1..] == stages[1..];
    } else {
      assert stages[i := Done][1..] == stages[1..][i - 1 := Done];
      DecidedKept(jobs[1..], stages[1..], i - 1);
    }
  }

  lemma {:induction false} NoneStarted(jobs: seq<Job>, stages: seq<Stage>)
    requires |jobs| == |stages| && forall i :: 0 <= i < |stages| ==> stages[i] == Waiting
    ensures DecidedJobs(jobs, stages) == multiset{} && InsideNow(stages) == 0
  {
    if jobs != [] {
      NoneStarted(jobs[1..], stages[1..]);
    }
  }

  lemma {:induction false} AllEnded(jobs: seq<Job>, stages: seq<Stage>)
    requires |jobs| == |stages| && forall i :: 0 <= i < |stages| ==> stages[i] == Done
    ensures DecidedJobs(jobs, stages) == multiset(jobs) && InsideNow(stages) == 0
  {
    if jobs != [] {
      AllEnded(jobs[1..], stages[1..]);
      assert jobs == [jobs[0]] + jobs[1..];
    }
  }

  lemma OneMoreEnding(log: seq<Ending>, e: Ending)
    ensures DetailsOf(log + [e]) == DetailsOf(log) + [DetailOf(e)] && JobsOf(log + [e]) == JobsOf(log) + [e.job]
    ensures |Select(log + [e], Rebalances())| == |Select(log, Rebalances())| + (if Rebalances()(e) then 1 else 0)
    ensures |Select(log + [e], Skips())| == |Select(log, Skips())| + (if Skips()(e) then 1 else 0)
    ensures |Select(log + [e], Fails())| == |Select(log, Fails())| + (if Fails()(e) then 1 else 0)
    ensures |Select(log + [e], HadLock())| == |Select(log, HadLock())| + (if HadLock()(e) then 1 else 0)
  {
    SelectAppend(log, [e], Rebalances());
    SelectAppend(log, [e], Skips());
    SelectAppend(log, [e], Fails());
    SelectAppend(log, [e], HadLock());
  }

  /** What a step adds to the log: an ending for a turn that got no lock, or that was inside. */
  function EndedBy(job: Job, stage: Stage, next: Stage, outcome: Outcome): seq<Ending> {
    if stage == Waiting && next == Done then [TurnedAway(job)] else if stage == Inside then [Ran(job, outcome)] else []
  }

  lemma ReportedEnd(start: Summary, s: Summary, e: Ending, log: seq<Ending>)
    requires LogReported(start, s, log)
    ensures var d := DetailOf(e); LogReported(start, Noted(s, d.address, d.kind, d.reason), log + [e])
  {
    OneMoreEnding(log, e);
  }

  lemma JobsEnd(jobs: seq<Job>, stages: seq<Stage>, i: nat, next: Stage, e: Ending, log: seq<Ending>)
    requires |jobs| == |stages| && i < |jobs| && multiset(JobsOf(log)) == DecidedJobs(jobs, stages)
    requires next in {Decided, Done} && e.job == jobs[i] && stages[i] !in {Decided, Done}
    ensures multiset(JobsOf(log + [e])) == DecidedJobs(jobs, stages[i := next])
  {
    DecidedChange(jobs, stages, i, next);
    assert JobsOf(log + [e]) == JobsOf(log) + [e.job];
  }

  lemma LoggedEnd(start: Summary, s: Summary, jobs: seq<Job>, stages: seq<Stage>, i: nat, next: Stage, e: Ending, log: seq<Ending>)
    requires |jobs| == |stages| && i < |jobs| && Logged(start, s, jobs, stages, log)
    requires next in {Decided, Done} && e.job == jobs[i] && stages[i] == if e.Ran? then Inside else Waiting
    ensures var d := DetailOf(e);
            Logged(start, Noted(s, d.address, d.kind, d.reason), jobs, stages[i := next], log + [e])
  {
    InsideChange(stages, i, next);
    ReportedEnd(start, s, e, log);
    JobsEnd(jobs, stages, i, next, e, log);
    SelectAppend(log, [e], HadLock());
  }

  lemma LoggedEntry(start: Summary, s: Summary, jobs: seq<Job>, stages: seq<Stage>, i: nat, log: seq<Ending>)
    requires |jobs| == |stages| && i < |jobs| && Logged(start, s, jobs, stages, log) && stages[i] == Waiting
    ensures Logged(start, s.(processed := s.processed + 1), jobs, stages[i := Inside], log)
  {
    InsideChange(stages, i, Inside);
    DecidedChange(jobs, stages, i, Inside);
  }

  lemma LoggedExit(start: Summary, s: Summary, jobs: seq<Job>, stages: seq<Stage>, i: nat, log: seq<Ending>)
    requires |jobs| == |stages| && i < |jobs| && Logged(start, s, jobs, stages, log) && stages[i] in {Decided, Done}
    ensures Logged(start, s, jobs, stages[i := Done], log)
  {
    InsideChange(stages, i, Done);
    if stages[i] == Decided {
      DecidedKept(jobs, stages, i);
    } else {
      assert stages[i := Done] == stages;
    }
  }

  lemma TaskStepLogged(start: Summary, s: Summary, locks: Lock.State, jobs: seq<Job>, stages: seq<Stage>, i: nat, outcome: Outcome,
                       log: seq<Ending>)
    requires |jobs| == |stages| && i < |jobs| && Logged(start, s, jobs, stages, log)
    ensures var (s', locks', stage') := TaskStep(s, locks, jobs[i], stages[i], outcome);
            Logged(start, s', jobs, stages[i := stage'], log + EndedBy(jobs[i], stages[i], stage', outcome))
  {
    match stages[i]
    case Waiting =>
      WaitingLogged(start, s, locks, jobs, stages, i, outcome, log);
    case Inside =>
      LoggedEnd(start, s, jobs, stages, i, Decided, Ran(jobs[i], outcome), log);
    case Decided =>
      assert log + [] == log;
      LoggedExit(start, s, jobs, stages, i, log);
    case Done =>
      assert log + [] == log;
      LoggedExit(start, s, jobs, stages, i, log);
  }

  lemma WaitingLogged(start: Summary, s: Summary, locks: Lock.State, jobs: seq<Job>, stages: seq<Stage>, i: nat, outcome: Outcome,
                      log: seq<Ending>)
    requires |jobs| == |stages| && i < |jobs| && stages[i] == Waiting && Logged(start, s, jobs, stages, log)
    ensures var (s', locks', stage') := TaskStep(s, locks, jobs[i], Waiting, outcome);
            Logged(start, s', jobs, stages[i := stage'], log + EndedBy(jobs[i], Waiting, stage', outcome))
  {
    if TaskStep(s, locks, jobs[i], Waiting, outcome).2 == Inside {
      assert log + [] == log;
      LoggedEntry(start, s, jobs, stages, i, log);
    } else {
      LoggedEnd(start, s, jobs, stages, i, Done, TurnedAway(jobs[i]), log);
    }
  }

  /** A turn gets its lock if and only if no lease on its wallet is running, and then for five minutes. */
  lemma TurnEntersExactly(s: Summary, locks: Lock.State, job: Job, outcome: Outcome)
    requires Lock.Backed(locks) && job.lockId !in locks.used
    ensures var (s', locks', stage') := TaskStep(s, locks, job, Waiting, outcome);
            && stage' == (if Lock.Held(locks, Lock.LockKey(job.address)) then Done else Inside)
            && (stage' == Inside ==> job.lockId in locks'.grants
                                     && locks'.grants[job.lockId] == Lock.Grant(Lock.LockKey(job.address), locks.now + 300000))
  {
    Lock.AcquireBackedExact(locks, job.address, job.lockId, LOCK_TTL);
  }

  /** What other processes may do meanwhile: let time pass, take and give back locks under ids of
      their own. */
  ghost predicate Foreign(a: Lock.Action, ids: set<string>) {
    a.Tick? || ((a.Acquire? || a.Release?) && a.lockId !in ids)
  }

  lemma ForeignKeeps(locks: Lock.State, a: Lock.Action, jobs: seq<Job>, stages: seq<Stage>, ids: set<string>)
    requires |jobs| == |stages| && LocksFit(locks, jobs, stages)
    requires Ids(jobs) <= ids && Foreign(a, ids)
    ensures LocksFit(Lock.Step(locks, a), jobs, stages)
    ensures forall id | id in ids :: (id in Lock.Step(locks, a).used <==> id in locks.used)
                                  && (id in Lock.Step(locks, a).grants <==> id in locks.grants)
  {
    Lock.StepBacked(locks, a);
    forall k | 0 <= k < |jobs| ensures LockFits(Lock.Step(locks, a), jobs[k], stages[k]) {
      assert jobs[k].lockId in Ids(jobs);
      assert LockFits(locks, jobs[k], stages[k]);
    }
  }

  /** The lock server all processes share. */
  class LockServer {
    var state: Lock.State

    constructor (now: int)
      ensures state == Lock.Start(now)
    {
      state := Lock.Start(now);
    }
  }

  /** What decides a run from outside: whose turn goes on, how it ends if it is inside `processFn`,
      and what other processes did before. */
  datatype Choice = Choice(turn: nat, outcome: Outcome, others: seq<Lock.Action>)
  type Schedule = nat -> Choice

  ghost predicate OnlyForeign(schedule: Schedule, ids: set<string>) {
    forall t, a :: a in schedule(t).others ==> Foreign(a, ids)
  }

  function Unfinished(stages: seq<Stage>): (indices: seq<nat>)
    ensures forall i | i in indices :: i < |stages| && stages[i] != Done
    ensures indices == [] ==> forall i :: 0 <= i < |stages| ==> stages[i] == Done
  {
    if stages == [] then []
    else
      var n := |stages| - 1;
      var front := Unfinished(stages[..n]);
      assert forall i | i in front :: stages[..n][i] == stages[i];
      if stages[n] == Done then front else front + [n]
  }

  function Weight(stage: Stage): nat {
    match stage case Waiting => 3 case Inside => 2 case Decided => 1 case Done => 0
  }

  function Remaining(stages: seq<Stage>): nat {
    if stages == [] then 0 else Weight(stages[0]) + Remaining(stages[1..])
  }

  lemma {:induction false} RemainingDrops(stages: seq<Stage>, i: nat, stage: Stage)
    requires i < |stages| && Weight(stage) < Weight(stages[i])
    ensures Remaining(stages[i := stage]) < Remaining(stages)
  {
    if i == 0 {
      assert stages[i := stage][1..] == stages[1..];
    } else {
      assert stages[i := stage][1..] == stages[1..][i - 1 := stage];
      RemainingDrops(stages[1..], i - 1, stage);
    }
  }

  /** The invariant of a run: books, log and locks fit the stages of all users. */
  ghost predicate Running(start: Summary, s: Summary, locks: Lock.State, users: seq<Job>, all: seq<Stage>, log: seq<Ending>) {
    && |all| == |users| && Booked(start, s, DecidedWallets(users, all)) && Logged(start, s, users, all, log)
    && LocksFit(locks, users, all)
  }

  /** Each turn that ran ended as the schedule says at one of these steps. */
  ghost predicate Scheduled(log: seq<Ending>, schedule: Schedule, until: nat) {
    forall e :: e in log && e.Ran? ==> exists t: nat :: t < until && schedule(t).outcome == e.outcome
  }

  lemma ScheduledNext(log: seq<Ending>, schedule: Schedule, at: nat, more: seq<Ending>)
    requires Scheduled(log, schedule, at) && forall e :: e in more && e.Ran? ==> e.outcome == schedule(at).outcome
    ensures Scheduled(log + more, schedule, at + 1)
  {
  }

  lemma RunningStep(start: Summary, s: Summary, locks: Lock.State, users: seq<Job>, all: seq<Stage>, i: nat, outcome: Outcome, log: seq<Ending>)
    requires Running(start, s, locks, users, all, log) && i < |users| && DistinctIds(users)
    ensures var (s', locks', stage') := TaskStep(s, locks, users[i], all[i], outcome);
            Running(start, s', locks', users, all[i := stage'], log + EndedBy(users[i], all[i], stage', outcome))
  {
    TaskStepLogged(start, s, locks, users, all, i, outcome, log);
    TaskStepBooked(start, s, locks, users, all, i, outcome);
    TaskStepLocks(s, locks, users, all, i, outcome);
  }

  /** While a chunk runs, the users before it are finished and those after it have not begun. */
  ghost predicate Aligned(all: seq<Stage>, before: nat, stages: seq<Stage>) {
    forall q :: 0 <= q < |all| ==>
      all[q] == if q < before then Done else if q - before < |stages| then stages[q - before] else Waiting
  }

  /** One step of one turn, in place. */
  method Advance(summary: CronSummary, locks: LockServer, job: Job, stage: Stage, outcome: Outcome) returns (next: Stage)
    modifies summary, locks
    ensures (summary.Value(), locks.state, next) == TaskStep(old(summary.Value()), old(locks.state), job, stage, outcome)
  {
    match stage {
      case Waiting =>
        locks.state := Lock.Step(locks.state, Lock.Acquire(job.address, job.lockId, LOCK_TTL));
        if job.lockId !in locks.state.grants {
          summary.Skip(job.address, Locked);
          return Done;
        }
        summary.processed := summary.processed + 1;
        return Inside;
      case Inside =>
        match outcome {
          case Throws => summary.Fail(job.address, Exception);
          case Counts(Rebalanced, reason) =>
            summary.rebalanced := summary.rebalanced + 1;
            summary.details := summary.details + [Detail(job.address, Rebalanced, reason)];
          case Counts(Skipped, reason) => summary.Skip(job.address, reason);
          case Counts(Errored, reason) => summary.Fail(job.address, reason);
        }
        return Decided;
      case Decided =>
        locks.state := Lock.Step(locks.state, Lock.Release(job.address, job.lockId));
        return Done;
      case Done =>
        return Done;
    }
  }

  /** What other processes do before the next step. */
  method Meanwhile(summary: CronSummary, locks: LockServer, others: seq<Lock.Action>,
                   ghost start: Summary, ghost users: seq<Job>, ghost all: seq<Stage>, ghost log: seq<Ending>)
    requires Running(start, summary.Value(), locks.state, users, all, log) && forall a | a in others :: Foreign(a, Ids(users))
    modifies locks
    ensures Running(start, summary.Value(), locks.state, users, all, log)
  {
    for n := 0 to |others|
      invariant Running(start, summary.Value(), locks.state, users, all, log)
    {
      ForeignKeeps(locks.state, others[n], users, all, Ids(users));
      locks.state := Lock.Step(locks.state, others[n]);
    }
  }

  /** What happens elsewhere, then one step of one turn. */
  method TakeTurn(summary: CronSummary, locks: LockServer, job: Job, stage: Stage, choice: Choice,
                  ghost start: Summary, ghost users: seq<Job>, ghost all: seq<Stage>, ghost log: seq<Ending>, ghost i: nat)
      returns (next: Stage)
    requires Running(start, summary.Value(), locks.state, users, all, log)
    requires i < |users| && job == users[i] && stage == all[i] && stage != Done
    requires DistinctIds(users) && forall a | a in choice.others :: Foreign(a, Ids(users))
    modifies summary, locks
    ensures Running(start, summary.Value(), locks.state, users, all[i := next], log + EndedBy(job, stage, next, choice.outcome))
    ensures Weight(next) < Weight(stage)
  {
    Meanwhile(summary, locks, choice.others, start, users, all, log);
    RunningStep(start, summary.Value(), locks.state, users, all, i, choice.outcome, log);
    next := Advance(summary, locks, job, stage, choice.outcome);
  }

  lemma AlignedStep(all: seq<Stage>, before: nat, stages: seq<Stage>, i: nat, next: Stage)
    requires Aligned(all, before, stages) && i < |stages| && before + |stages| <= |all|
    ensures all[before + i] == stages[i] && Aligned(all[before + i := next], before, stages[i := next])
  {
  }

  /** One of the turns that are not finished. */
  function Picked(stages: seq<Stage>, turn: nat): (i: nat)
    requires Unfinished(stages) != []
    ensures i < |stages| && stages[i] != Done
  {
    var unfinished := Unfinished(stages);
    var i := unfinished[turn % |unfinished|];
    assert i in unfinished;
    i
  }

  /** Some turn of a chunk that is not finished goes on. */
  method StepChunk(summary: CronSummary, locks: LockServer, chunk: seq<Job>, stages: seq<Stage>, choice: Choice,
                   ghost start: Summary, ghost users: seq<Job>, ghost all: seq<Stage>, ghost log: seq<Ending>, ghost before: nat)
      returns (stages': seq<Stage>, ghost all': seq<Stage>, ghost more: seq<Ending>)
    requires before + |chunk| <= |users| && chunk == users[before..before + |chunk|] && |stages| == |chunk|
    requires DistinctIds(users) && forall a | a in choice.others :: Foreign(a, Ids(users))
    requires Running(start, summary.Value(), locks.state, users, all, log) && Aligned(all, before, stages)
    requires Unfinished(stages) != []
    modifies summary, locks
    ensures Running(start, summary.Value(), locks.state, users, all', log + more) && Aligned(all', before, stages')
    ensures |stages'| == |stages| && Remaining(stages') < Remaining(stages)
    ensures forall e :: e in more && e.Ran? ==> e.outcome == choice.outcome
  {
    var i := Picked(stages, choice.turn);
    AlignedStep(all, before, stages, i, Done);
    var next := TakeTurn(summary, locks, chunk[i], stages[i], choice, start, users, all, log, before + i);
    AlignedStep(all, before, stages, i, next);
    RemainingDrops(stages, i, next);
    all' := all[before + i := next];
    more := EndedBy(chunk[i], stages[i], next, choice.outcome);
    stages' := stages[i := next];
  }

  /** `Promise.all` over one chunk: the turns go on in any order until all are finished. `at` numbers
      the steps of the whole run. */
  method RunChunk(summary: CronSummary, locks: LockServer, chunk: seq<Job>, schedule: Schedule, at: nat,
                  ghost start: Summary, ghost users: seq<Job>, ghost all: seq<Stage>, ghost log: seq<Ending>, ghost before: nat)
      returns (at': nat, ghost all': seq<Stage>, ghost log': seq<Ending>)
    requires before + |chunk| <= |users| && chunk == users[before..before + |chunk|]
    requires DistinctIds(users) && OnlyForeign(schedule, Ids(users))
    requires Running(start, summary.Value(), locks.state, users, all, log) && Scheduled(log, schedule, at) && Aligned(all, before, [])
    modifies summary, locks
    ensures Running(start, summary.Value(), locks.state, users, all', log') && Scheduled(log', schedule, at')
    ensures Aligned(all', before + |chunk|, [])
  {
    at', all', log' := at, all, log;
    var stages := seq(|chunk|, _ => Waiting);
    while Unfinished(stages) != []
      invariant |stages| == |chunk| && Aligned(all', before, stages)
      invariant Running(start, summary.Value(), locks.state, users, all', log') && Scheduled(log', schedule, at')
      decreases Remaining(stages)
    {
      ghost var more;
      stages, all', more := StepChunk(summary, locks, chunk, stages, schedule(at'), start, users, all', log', before);
      ScheduledNext(log', schedule, at', more);
      log' := log' + more;
      at' := at' + 1;
    }
  }

  function Flatten(chunks: seq<seq<Job>>): seq<Job> {
    if chunks == [] then [] else Flatten(chunks[..|chunks| - 1]) + chunks[|chunks| - 1]
  }

  lemma {:induction false} FlattenPrefix(chunks: seq<seq<Job>>, k: nat)
    requires k <= |chunks|
    ensures Flatten(chunks[..k]) <= Flatten(chunks)
  {
    if k < |chunks| {
      FlattenPrefix(chunks[..|chunks| - 1], k);
      assert chunks[..|chunks| - 1][..k] == chunks[..k];
    } else {
      assert chunks[..k] == chunks;
    }
  }

  function Min(a: nat, b: nat): nat {
    if a < b then a else b
  }

  /** How many users come before chunk `k`. */
  ghost function Before(chunks: seq<seq<Job>>, k: nat): nat
    requires k <= |chunks|
  {
    |Flatten(chunks[..k])|
  }

  lemma BeforeEnds(chunks: seq<seq<Job>>)
    ensures Before(chunks, 0) == 0 && Before(chunks, |chunks|) == |Flatten(chunks)|
  {
    assert chunks[..|chunks|] == chunks;
  }

  /** A chunk is a slice of the batch. */
  lemma ChunkSlice(chunks: seq<seq<Job>>, k: nat)
    requires k < |chunks|
    ensures var lo := Before(chunks, k);
            && lo + |chunks[k]| == Before(chunks, k + 1) <= |Flatten(chunks)|
            && chunks[k] == Flatten(chunks)[lo..lo + |chunks[k]|]
  {
    var upTo := Flatten(chunks[..k + 1]);
    assert chunks[..k + 1][..k] == chunks[..k];
    assert upTo == Flatten(chunks[..k]) + chunks[k];
    FlattenPrefix(chunks, k + 1);
    PrefixSlice(upTo, Flatten(chunks), Before(chunks, k));
  }

  lemma PrefixSlice(a: seq<Job>, b: seq<Job>, lo: nat)
    requires a <= b && lo <= |a|
    ensures a[lo..] == b[lo..|a|]
  {
    assert a == b[..|a|];
  }

  method ChunksOf(batch: seq<Job>, concurrency: nat) returns (chunks: seq<seq<Job>>)
    requires concurrency > 0
    ensures Flatten(chunks) == batch && forall chunk | chunk in chunks :: 0 < |chunk| <= concurrency
    ensures forall k | 0 <= k < |chunks| - 1 :: |chunks[k]| == concurrency
  {
    chunks := [];
    var j := 0;
    while j < |batch|
      invariant Flatten(chunks) == batch[..Min(j, |batch|)]
      invariant forall chunk | chunk in chunks :: 0 < |chunk| <= concurrency
      invariant forall k | 0 <= k < |chunks| :: j <= |batch| || k < |chunks| - 1 ==> |chunks[k]| == concurrency
    {
      var chunk := batch[j..Min(j + concurrency, |batch|)];
      assert (chunks + [chunk])[..|chunks|] == chunks;
      chunks := chunks + [chunk];
      j := j + concurrency;
    }
  }

  method RunNextChunk(summary: CronSummary, locks: LockServer, chunks: seq<seq<Job>>, k: nat, schedule: Schedule, at: nat,
                      ghost start: Summary, ghost users: seq<Job>, ghost all: seq<Stage>, ghost log: seq<Ending>, ghost before: nat)
      returns (at': nat, ghost all': seq<Stage>, ghost log': seq<Ending>)
    requires k < |chunks| && before + |Flatten(chunks)| <= |users| && Flatten(chunks) == users[before..before + |Flatten(chunks)|]
    requires DistinctIds(users) && OnlyForeign(schedule, Ids(users))
    requires Running(start, summary.Value(), locks.state, users, all, log) && Scheduled(log, schedule, at) && Aligned(all, before + Before(chunks, k), [])
    modifies summary, locks
    ensures Running(start, summary.Value(), locks.state, users, all', log') && Scheduled(log', schedule, at') && Aligned(all', before + Before(chunks, k + 1), [])
  {
    ghost var lo := Before(chunks, k);
    ChunkSlice(chunks, k);
    SliceOfSlice(users, before, Flatten(chunks), lo, chunks[k]);
    at', all', log' := RunChunk(summary, locks, chunks[k], schedule, at, start, users, all, log, before + lo);
  }

  method RunChunks(summary: CronSummary, locks: LockServer, chunks: seq<seq<Job>>, schedule: Schedule, at: nat,
                   ghost start: Summary, ghost users: seq<Job>, ghost all: seq<Stage>, ghost log: seq<Ending>, ghost before: nat)
      returns (at': nat, ghost all': seq<Stage>, ghost log': seq<Ending>)
    requires before + |Flatten(chunks)| <= |users| && Flatten(chunks) == users[before..before + |Flatten(chunks)|]
    requires DistinctIds(users) && OnlyForeign(schedule, Ids(users))
    requires Running(start, summary.Value(), locks.state, users, all, log) && Scheduled(log, schedule, at) && Aligned(all, before, [])
    modifies summary, locks
    ensures Running(start, summary.Value(), locks.state, users, all', log') && Scheduled(log', schedule, at')
    ensures Aligned(all', before + |Flatten(chunks)|, [])
  {
    at', all', log' := at, all, log;
    BeforeEnds(chunks);
    for k := 0 to |chunks|
      invariant Aligned(all', before + Before(chunks, k), [])
      invariant Running(start, summary.Value(), locks.state, users, all', log') && Scheduled(log', schedule, at')
    {
      at', all', log' := RunNextChunk(summary, locks, chunks, k, schedule, at', start, users, all', log', before);
    }
  }

  method RunBatch(summary: CronSummary, locks: LockServer, batch: seq<Job>, concurrency: nat, schedule: Schedule, at: nat,
                  ghost start: Summary, ghost users: seq<Job>, ghost all: seq<Stage>, ghost log: seq<Ending>, ghost before: nat)
      returns (at': nat, ghost all': seq<Stage>, ghost log': seq<Ending>)
    requires concurrency > 0 && before + |batch| <= |users| && batch == users[before..before + |batch|]
    requires DistinctIds(users) && OnlyForeign(schedule, Ids(users))
    requires Running(start, summary.Value(), locks.state, users, all, log) && Scheduled(log, schedule, at) && Aligned(all, before, [])
    modifies summary, locks
    ensures Running(start, summary.Value(), locks.state, users, all', log') && Scheduled(log', schedule, at')
    ensures Aligned(all', before + |batch|, [])
  {
    var chunks := ChunksOf(batch, concurrency);
    at', all', log' := RunChunks(summary, locks, chunks, schedule, at, start, users, all, log, before);
  }

  lemma SliceOfSlice(users: seq<Job>, before: nat, batch: seq<Job>, lo: nat, chunk: seq<Job>)
    requires before + |batch| <= |users| && batch == users[before..before + |batch|]
    requires lo + |chunk| <= |batch| && chunk == batch[lo..lo + |chunk|]
    ensures chunk == users[before + lo..before + lo + |chunk|]
  {
    forall q | 0 <= q < |chunk| ensures chunk[q] == users[before + lo + q] {
      assert chunk[q] == batch[lo + q];
    }
  }

  method RunBatches(summary: CronSummary, locks: LockServer, users: seq<Job>, batchSize: nat, concurrency: nat,
                    schedule: Schedule, ghost start: Summary, ghost all: seq<Stage>)
      returns (ghost all': seq<Stage>, ghost log: seq<Ending>)
    requires batchSize > 0 && concurrency > 0 && DistinctIds(users) && OnlyForeign(schedule, Ids(users))
    requires Running(start, summary.Value(), locks.state, users, all, []) && Aligned(all, 0, [])
    modifies summary, locks
    ensures Running(start, summary.Value(), locks.state, users, all', log) && Aligned(all', |users|, [])
    ensures exists until :: Scheduled(log, schedule, until)
  {
    all', log := all, [];
    var at := 0;
    var i := 0;
    while i < |users|
      invariant Aligned(all', Min(i, |users|), [])
      invariant Running(start, summary.Value(), locks.state, users, all', log) && Scheduled(log, schedule, at)
    {
      var batch := users[i..Min(i + batchSize, |users|)];
      at, all', log := RunBatch(summary, locks, batch, concurrency, schedule, at, start, users, all', log, i);
      i := i + batchSize;
    }
  }

  /** `processUsersInParallel`, for every list of users, batch size, concurrency and schedule: each user's
      turn ends once, as the schedule has it; the report is those endings, in their order; the counters
      count them; and no lock taken here is left behind. */
  method ProcessUsersInParallel(summary: CronSummary, locks: LockServer, users: seq<Job>, batchSize: nat, concurrency: nat,
                                schedule: Schedule)
      returns (ghost log: seq<Ending>)
    requires batchSize > 0 && concurrency > 0
    requires summary.Value() == EMPTY && Lock.Backed(locks.state)
    requires DistinctIds(users) && OnlyForeign(schedule, Ids(users))
    requires forall j | j in users :: j.lockId !in locks.state.used
    modifies summary, locks
    ensures multiset(JobsOf(log)) == multiset(users)
    ensures forall e | e in log && e.Ran? :: exists t: nat :: schedule(t).outcome == e.outcome
    ensures Reports(summary.Value(), log)
    ensures multiset(Addresses(summary.details)) == multiset(Wallets(users))
    ensures summary.rebalanced + summary.skipped + summary.errors == |summary.details| == |users|
    ensures Tallied(summary.Value())
    ensures forall j | j in users :: j.lockId !in locks.state.grants
    ensures forall j, k | j in users :: Lookup(locks.state.plain, k, locks.state.now) != Some(j.lockId)
  {
    ghost var start := summary.Value();
    ghost var all := seq(|users|, _ => Waiting);
    BeginRun(start, locks.state, users, all);
    all, log := RunBatches(summary, locks, users, batchSize, concurrency, schedule, start, all);
    EndRun(start, summary.Value(), locks.state, users, all, log);
  }

  /** A finished run: one detail per ending, each counter the number of endings of its kind, and
      `processed` the number of turns that got their lock. */
  ghost predicate Reports(s: Summary, log: seq<Ending>) {
    && s.details == DetailsOf(log)
    && s.rebalanced == |Select(log, Rebalances())| && s.skipped == |Select(log, Skips())| && s.errors == |Select(log, Fails())|
    && s.processed == |Select(log, HadLock())|
  }

  lemma BeginRun(start: Summary, locks: Lock.State, users: seq<Job>, all: seq<Stage>)
    requires start == EMPTY && Lock.Backed(locks)
    requires |all| == |users| && forall q :: 0 <= q < |all| ==> all[q] == Waiting
    requires forall j | j in users :: j.lockId !in locks.used
    ensures Running(start, start, locks, users, all, [])
  {
    NoneDecided(users, all);
    NoneStarted(users, all);
  }

  lemma EndRun(start: Summary, s: Summary, locks: Lock.State, users: seq<Job>, all: seq<Stage>, log: seq<Ending>)
    requires start == EMPTY && Running(start, s, locks, users, all, log)
    requires forall q :: 0 <= q < |all| ==> all[q] == Done
    ensures multiset(JobsOf(log)) == multiset(users) && Reports(s, log)
    ensures multiset(Addresses(s.details)) == multiset(Wallets(users))
    ensures s.rebalanced + s.skipped + s.errors == |s.details| == |users|
    ensures Tallied(s)
    ensures forall j | j in users :: j.lockId !in locks.grants
    ensures forall j, k | j in users :: Lookup(locks.plain, k, locks.now) != Some(j.lockId)
  {
    AllDecided(users, all);
    AllEnded(users, all);
    assert [] + DetailsOf(log) == DetailsOf(log);
    EndBooks(start, s, users, all);
    forall j | j in users ensures j.lockId !in locks.grants {
      var q :| 0 <= q < |users| && users[q] == j;
      assert LockFits(locks, users[q], all[q]);
    }
  }

  lemma EndBooks(start: Summary, s: Summary, users: seq<Job>, all: seq<Stage>)
    requires start == EMPTY && |all| == |users| && Booked(start, s, DecidedWallets(users, all))
    requires forall q :: 0 <= q < |all| ==> all[q] == Done
    ensures s.rebalanced + s.skipped + s.errors == |s.details| == |users|
  {
    AllDecided(users, all);
    KindsPartition(s.details);
    assert |multiset(Addresses(s.details))| == |multiset(Wallets(users))|;
  }
}
