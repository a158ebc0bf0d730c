/** sentinel/worker.ts: gathering signals, poll cycles, and the incidents they open and close. */
module Worker {
  import opened Wrappers
  import opened Protocols
  import opened SignalHistory
  import opened RulesEngine

  const INCIDENT_TTL_MS := 3600 * 1000

  // ---- Gathering signals ----

  datatype VaultConfig = VaultConfig(vault: Vault, underlying: string, hasFeed: bool, hasPools: bool)

  /** What the sources answered for one vault in one poll; None is a failure or nothing found. Prices
      carry a time in seconds. */
  datatype Reading = Reading(oracle: Option<(real, int)>, totalAssets: Option<int>, llama: Option<(real, int)>,
                             paused: Option<bool>, sharePrice: Option<real>, at: int)

  function IfSome(o: Option<Signal>): seq<Signal> {
    match o { case Some(s) => [s] case None => [] }
  }

  function PriceSignal(kind: SignalType, c: VaultConfig, price: Option<(real, int)>): Option<Signal> {
    match price
    case None => None
    case Some((value, seconds)) => Some(Signal(kind, c.vault, Some(c.underlying), Num(value), Some(seconds * 1000)))
  }

  function RpcSignal(kind: SignalType, c: VaultConfig, value: Option<SignalValue>, at: int): Option<Signal> {
    match value
    case None => None
    case Some(v) => Some(Signal(kind, c.vault, None, v, Some(at)))
  }

  function TvlOf(totalAssets: Option<int>): Option<SignalValue> {
    if totalAssets.Some? && totalAssets.value > 0 then Some(Num(totalAssets.value as real / 1000000.0)) else None
  }

  /** The signals of one vault: at most one of each type. */
  function SignalsOf(c: VaultConfig, r: Reading, ponderFresh: bool): seq<Signal> {
    IfSome(if ponderFresh && c.hasFeed then PriceSignal(ORACLE_PRICE, c, r.oracle) else None)
    + IfSome(RpcSignal(VAULT_FLOW, c, TvlOf(r.totalAssets), r.at))
    + IfSome(if !ponderFresh && c.hasPools then PriceSignal(DEX_PRICE, c, r.llama) else None)
    + (if c.vault.protocol != Morpho then []
       else
         IfSome(RpcSignal(VAULT_PAUSED, c, if r.paused.Some? then Some(Flag(r.paused.value)) else None, r.at))
         + IfSome(RpcSignal(SHARE_PRICE, c, if r.sharePrice.Some? then Some(Num(r.sharePrice.value)) else None, r.at)))
  }

  ghost predicate OnePerKey(signals: seq<Signal>) {
    forall i, j :: 0 <= i < j < |signals| ==> KeyOf(signals[i]) != KeyOf(signals[j])
  }

  lemma SignalsOfOnePerKey(c: VaultConfig, r: Reading, ponderFresh: bool)
    ensures OnePerKey(SignalsOf(c, r, ponderFresh))
    ensures forall s | s in SignalsOf(c, r, ponderFresh) :: s.vault == c.vault
  {
  }

  lemma AppendOnePerKey(a: seq<Signal>, b: seq<Signal>)
    requires OnePerKey(a) && OnePerKey(b)
    requires forall s, t :: s in a && t in b ==> KeyOf(s) != KeyOf(t)
    ensures OnePerKey(a + b)
  {
  }

  /** The poll's signals, vault by vault. Distinct vault addresses, which the configuration map
      guarantees, give at most one signal per key. */
  method GatherSignals(vaults: seq<VaultConfig>, readings: seq<Reading>, ponderFresh: bool) returns (signals: seq<Signal>)
    requires |readings| == |vaults|
    requires forall i, j :: 0 <= i < j < |vaults| ==> vaults[i].vault.address != vaults[j].vault.address
    ensures OnePerKey(signals)
    ensures forall i, s :: 0 <= i < |vaults| && s in SignalsOf(vaults[i], readings[i], ponderFresh) ==> s in signals
    ensures forall s :: s in signals ==> exists i :: 0 <= i < |vaults| && s in SignalsOf(vaults[i], readings[i], ponderFresh)
  {
    signals := [];
    for n := 0 to |vaults|
      invariant OnePerKey(signals)
      invariant forall i, s :: 0 <= i < n && s in SignalsOf(vaults[i], readings[i], ponderFresh) ==> s in signals
      invariant forall s :: s in signals ==> exists i :: 0 <= i < n && s in SignalsOf(vaults[i], readings[i], ponderFresh)
      invariant forall s :: s in signals ==> exists i :: 0 <= i < n && s.vault == vaults[i].vault
    {
      SignalsOfOnePerKey(vaults[n], readings[n], ponderFresh);
      var more := SignalsOf(vaults[n], readings[n], ponderFresh);
      forall a, b | a in signals && b in more ensures KeyOf(a) != KeyOf(b) {
        var i :| 0 <= i < n && a.vault == vaults[i].vault;
      }
      AppendOnePerKey(signals, more);
      signals := signals + more;
    }
  }

  // ---- Poll cycles ----

  datatype Incident = Incident(reason: Reason, createdAt: int)
  type Incidents = map<Key, Incident>

  /** An exit that was started: when, the two samples its rule compared (flow and share price), and
      when the first of the two confirming breaches was seen. */
  datatype ExitRecord = ExitRecord(key: Key, at: int, compared: Option<(Sample, Sample)>, since: Option<int>)

  /** `exits` is the history of all exits; the program does not keep it. */
  datatype Sentinel = Sentinel(engine: State, incidents: Incidents, failures: nat, exits: seq<ExitRecord>)

  /** When the signal of each key is evaluated. */
  type Clock = Key -> int

  function TimedBy(signals: seq<Signal>, clock: Clock): seq<Timed> {
    seq(|signals|, i requires 0 <= i < |signals| => Timed(signals[i], clock(KeyOf(signals[i]))))
  }

  /** A cycle either fails before the rules run, or starts to evaluate a poll at `at` and then works
      through the actions, the i-th at `times[i]`. `crash` is how many actions had been started when
      something threw, if anything did: an action's own notifications, or, after the last one, the
      status updates. The incident of a started action has been recorded by then. */
  datatype Cycle =
    | Unevaluated(at: int)
    | Evaluated(signals: seq<Signal>, at: int, clock: Clock, times: seq<int>, crash: Option<nat>, cleanupAt: int)

  function ActionKey(a: Action): Key {
    Key(a.vault, a.signalType)
  }

  /** How many of `n` actions the cycle gets to. */
  function Reached(n: nat, crash: Option<nat>): (r: nat)
    ensures r <= n
  {
    if crash.Some? && crash.value < n then crash.value else n
  }

  function Compared(windows: Windows, key: Key, at: int): Option<(Sample, Sample)> {
    if key.kind == VAULT_FLOW then Ends(HistoryOf(windows, key), TVL_WINDOW_MS, at)
    else if key.kind == SHARE_PRICE then Ends(HistoryOf(windows, key), SHARE_PRICE_WINDOW_MS, at)
    else None
  }

  function Since(buffer: Buffer, key: Key): Option<int> {
    if key in buffer then Some(buffer[key].firstSeen) else None
  }

  /** The incidents and exits after working through some actions; `before` and `after` are the
      engine's state around the evaluation that produced them. */
  function Worked(s: Sentinel, before: State, after: State, clock: Clock, actions: seq<Action>, times: seq<int>): Sentinel
    requires |actions| <= |times|
  {
    if actions == [] then s
    else
      var n := |actions| - 1;
      Started(Worked(s, before, after, clock, actions[..n], times), before, after, clock, actions[n], times[n])
  }

  function Started(s: Sentinel, before: State, after: State, clock: Clock, a: Action, time: int): Sentinel {
    if a.kind != EXIT then s
    else
      var key := ActionKey(a);
      s.(incidents := s.incidents[key := Incident(a.reason, time)],
         exits := s.exits + [ExitRecord(key, time, Compared(after.windows, key, clock(key)), Since(before.buffer, key))])
  }

  predicate Stale(incident: Incident, now: int) {
    now - incident.createdAt > INCIDENT_TTL_MS
  }

  function Cleaned(incidents: Incidents, now: int): Incidents {
    map k | k in incidents && !Stale(incidents[k], now) :: incidents[k]
  }

  /** The actions of a poll, and the engine after it. */
  function Polled(exposures: Exposures, s: Sentinel, c: Cycle): (State, seq<Action>)
    requires c.Evaluated?
  {
    var (engine, outcomes) := Run(exposures, s.engine, EventsOf(TimedBy(c.signals, c.clock), s.incidents.Keys));
    (engine, Present(outcomes))
  }

  /** The environment's side of a cycle that starts after `last`: time goes forward, from the start
      through the evaluation of each signal and the actions to the cleanup, and the poll has one signal per key. */
  ghost predicate Plausible(exposures: Exposures, s: Sentinel, c: Cycle, last: int) {
    && last <= c.at
    && (c.Evaluated? ==>
          && OnePerKey(c.signals) && |c.times| == |Polled(exposures, s, c).1| && c.at <= c.cleanupAt
          && (forall k :: c.at <= c.clock(k) <= c.cleanupAt)
          && (forall i, k :: 0 <= i < |c.times| ==> c.clock(k) <= c.times[i])
          && (forall i :: 0 <= i < |c.times| ==> c.times[i] <= c.cleanupAt)
          && (forall i, j :: 0 <= i < j < |c.times| ==> c.times[i] <= c.times[j]))
  }

  function AfterCycle(exposures: Exposures, s: Sentinel, c: Cycle): Sentinel
    requires c.Evaluated? ==> |c.times| == |Polled(exposures, s, c).1|
  {
    match c
    case Unevaluated(_) => s.(failures := s.failures + 1)
    case Evaluated(_, _, clock, times, crash, cleanupAt) =>
      var (engine, actions) := Polled(exposures, s, c);
      var reached := Reached(|actions|, crash);
      var worked := Worked(s.(engine := engine), s.engine, engine, clock, actions[..reached], times);
      if crash.Some? then worked.(failures := worked.failures + 1)
      else worked.(incidents := Cleaned(worked.incidents, cleanupAt), failures := 0)
  }

  function EndOf(c: Cycle): int {
    if c.Evaluated? then c.cleanupAt else c.at
  }

  class SentinelWorker {
    const engine: RulesEngine
    const windows: SignalWindows
    var activeIncidents: Incidents
    var consecutiveFailures: nat
    ghost var exits: seq<ExitRecord>

    constructor (exposures: Exposures)
      ensures View() == Sentinel(State(map[], map[]), map[], 0, []) && engine.exposures == exposures
      ensures fresh(engine) && fresh(windows)
    {
      engine := new RulesEngine(exposures);
      windows := new SignalWindows();
      activeIncidents, consecutiveFailures, exits := map[], 0, [];
    }

    ghost function View(): Sentinel
      reads this, engine, windows
    {
      Sentinel(State(engine.confirmationBuffer, windows.histories), activeIncidents, consecutiveFailures, exits)
    }

    /** Removes every incident older than the time-to-live, one by one. */
    method CleanupStaleIncidents(now: int)
      modifies this`activeIncidents
      ensures activeIncidents == Cleaned(old(activeIncidents), now)
    {
      var keys := activeIncidents.Keys;
      while keys != {}
        invariant keys <= old(activeIncidents).Keys
        invariant activeIncidents == map k | k in old(activeIncidents) && (k in keys || !Stale(old(activeIncidents)[k], now))
                                     :: old(activeIncidents)[k]
        decreases keys
      {
        var key :| key in keys;
        if now - activeIncidents[key].createdAt > INCIDENT_TTL_MS {
          activeIncidents := activeIncidents - {key};
        }
        keys := keys - {key};
      }
    }

    /** An EXIT opens an incident before anything else is tried; an ALERT only notifies. */
    method Perform(action: Action, time: int, clock: Clock, ghost before: State)
      modifies this`activeIncidents, this`exits
      ensures View() == Started(old(View()), before, View().engine, clock, action, time)
    {
      if action.kind == EXIT {
        exits := exits + [ExitRecord(ActionKey(action), time, Compared(windows.histories, ActionKey(action), clock(ActionKey(action))),
                                     Since(before.buffer, ActionKey(action)))];
        activeIncidents := activeIncidents[ActionKey(action) := Incident(action.reason, time)];
      }
    }

    method PerformAll(actions: seq<Action>, times: seq<int>, clock: Clock, ghost before: State)
      requires |actions| <= |times|
      modifies this`activeIncidents, this`exits
      ensures View() == Worked(old(View()), before, View().engine, clock, actions, times)
    {
      ghost var start := View();
      for i := 0 to |actions|
        invariant View() == Worked(start, before, start.engine, clock, actions[..i], times)
      {
        assert actions[..i + 1][..i] == actions[..i];
        Perform(actions[i], times[i], clock, before);
      }
      assert actions[..|actions|] == actions;
    }

    /** One scheduled poll. The times and the crash are the environment's. A third failure in a row
        pages the operator. */
    method Poll(c: Cycle) returns (paged: bool)
      requires c.Evaluated? ==> |c.times| == |Polled(engine.exposures, View(), c).1|
      modifies this, engine`confirmationBuffer, windows
      ensures View() == AfterCycle(engine.exposures, old(View()), c)
      ensures paged <==> consecutiveFailures >= 3
    {
      if c.Unevaluated? {
        consecutiveFailures := consecutiveFailures + 1;
        return consecutiveFailures >= 3;
      }
      ghost var before := View().engine;
      var actions := engine.Evaluate(TimedBy(c.signals, c.clock), windows, activeIncidents.Keys);
      PerformAll(actions[..Reached(|actions|, c.crash)], c.times, c.clock, before);
      if c.crash.Some? {
        consecutiveFailures := consecutiveFailures + 1;
        return consecutiveFailures >= 3;
      }
      CleanupStaleIncidents(c.cleanupAt);
      consecutiveFailures := 0;
      return false;
    }
  }
}
