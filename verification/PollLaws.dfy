/** What one poll of the sentinel does: which signals it gathers, which exits it starts, which incidents
    are open afterwards, and how failures are counted. */
module PollLaws {
  import opened Wrappers
  import opened Protocols
  import opened RulesEngine
  import opened Worker
  import opened SentinelLaws

  // ---- Exits and incidents ----

  /** The i-th action of a cycle is an exit, and nothing threw before it. */
  predicate DueAt(actions: seq<Action>, crash: Option<nat>, i: int) {
    0 <= i < |actions| && actions[i].kind == EXIT && (crash.None? || i < crash.value)
  }

  /** `at` lists the exits due among the first `n` actions, in order. */
  ghost predicate ListsDue(actions: seq<Action>, crash: Option<nat>, n: nat, at: seq<int>) {
    && (forall i :: i in at <==> i < n && DueAt(actions, crash, i))
    && (forall j, k :: 0 <= j < k < |at| ==> at[j] < at[k])
  }

  /** `records` are the exits at those places, each at its time, with what its rule went by. */
  ghost predicate Records(before: State, after: State, clock: Clock, actions: seq<Action>, times: seq<int>, at: seq<int>,
                          records: seq<ExitRecord>)
    requires |actions| <= |times|
  {
    && |records| == |at|
    && forall k :: 0 <= k < |at| ==>
         && 0 <= at[k] < |actions|
         && records[k].key == Key(actions[at[k]].vault, actions[at[k]].signalType)
         && records[k].at == times[at[k]]
         && records[k].compared == Compared(after.windows, records[k].key, clock(records[k].key))
         && records[k].since == Since(before.buffer, records[k].key)
  }

  /** The exits due for a key among the first `n` actions. */
  ghost predicate DueFor(actions: seq<Action>, crash: Option<nat>, n: nat, key: Key, i: int) {
    i < n && DueAt(actions, crash, i) && Key(actions[i].vault, actions[i].signalType) == key
  }

  /** The incidents after the first `n` actions: a key with an exit due has that exit's incident, any other
      keeps what it had. */
  ghost predicate Opened(found: Incidents, incidents: Incidents, actions: seq<Action>, crash: Option<nat>, times: seq<int>, n: nat)
    requires |actions| <= |times|
  {
    && (forall i, key :: DueFor(actions, crash, n, key, i) ==> key in incidents && incidents[key] == Incident(actions[i].reason, times[i]))
    && (forall key :: (forall i :: !DueFor(actions, crash, n, key, i)) ==>
          (key in incidents <==> key in found) && (key in found ==> incidents[key] == found[key]))
  }

  ghost predicate DistinctKeys(actions: seq<Action>) {
    forall i, j :: 0 <= i < j < |actions| ==> ActionKey(actions[i]) != ActionKey(actions[j])
  }

  /** Working through the first `n` actions, as many as the crash allows. */
  lemma {:induction false} WorkedOpens(s: Sentinel, before: State, clock: Clock, actions: seq<Action>, times: seq<int>, crash: Option<nat>, n: nat)
      returns (at: seq<int>)
    requires n <= |actions| <= |times| && DistinctKeys(actions) && (crash.Some? ==> n <= crash.value)
    ensures var w := Worked(s, before, s.engine, clock, actions[..n], times);
            && ListsDue(actions, crash, n, at) && |s.exits| <= |w.exits| && w.exits[..|s.exits|] == s.exits
            && Records(before, s.engine, clock, actions, times, at, w.exits[|s.exits|..])
            && Opened(s.incidents, w.incidents, actions, crash, times, n)
            && w.engine == s.engine && w.failures == s.failures
  {
    if n == 0 {
      at := [];
    } else {
      assert actions[..n][..n - 1] == actions[..n - 1];
      var front := WorkedOpens(s, before, clock, actions, times, crash, n - 1);
      var w := Worked(s, before, s.engine, clock, actions[..n - 1], times);
      at := if actions[n - 1].kind == EXIT then front + [n - 1] else front;
      OneMoreListed(actions, crash, n, front);
      OneMoreOpened(s.incidents, w, before, clock, actions, times, crash, n);
      OneMoreRecorded(s, w, before, clock, actions, times, n, front);
    }
  }

  lemma OneMoreListed(actions: seq<Action>, crash: Option<nat>, n: nat, front: seq<int>)
    requires 0 < n <= |actions| && ListsDue(actions, crash, n - 1, front) && (crash.Some? ==> n <= crash.value)
    ensures ListsDue(actions, crash, n, if actions[n - 1].kind == EXIT then front + [n - 1] else front)
  {
    var at := if actions[n - 1].kind == EXIT then front + [n - 1] else front;
    forall i ensures i in at <==> i < n && DueAt(actions, crash, i) {
      assert i in front <==> i < n - 1 && DueAt(actions, crash, i);
    }
    forall j | 0 <= j < |front| ensures front[j] < n - 1 { assert front[j] in front; }
  }

  lemma RecordsMore(before: State, after: State, clock: Clock, actions: seq<Action>, times: seq<int>, at: seq<int>,
                    records: seq<ExitRecord>, i: nat, e: ExitRecord)
    requires i < |actions| <= |times| && Records(before, after, clock, actions, times, at, records)
    requires Records(before, after, clock, actions, times, [i], [e])
    ensures Records(before, after, clock, actions, times, at + [i], records + [e])
  {
    forall k | 0 <= k < |at + [i]|
      ensures 0 <= (at + [i])[k] < |actions| && (records + [e])[k].at == times[(at + [i])[k]]
    {
      assert k == |at| ==> (at + [i])[k] == [i][0] && (records + [e])[k] == [e][0];
    }
  }

  lemma OneMoreRecorded(s: Sentinel, w: Sentinel, before: State, clock: Clock, actions: seq<Action>, times: seq<int>, n: nat, front: seq<int>)
    requires 0 < n <= |actions| <= |times| && |s.exits| <= |w.exits| && w.exits[..|s.exits|] == s.exits
    requires Records(before, s.engine, clock, actions, times, front, w.exits[|s.exits|..])
    ensures var w' := Started(w, before, s.engine, clock, actions[n - 1], times[n - 1]);
            && |s.exits| <= |w'.exits| && w'.exits[..|s.exits|] == s.exits
            && Records(before, s.engine, clock, actions, times,
                       if actions[n - 1].kind == EXIT then front + [n - 1] else front, w'.exits[|s.exits|..])
  {
    var w' := Started(w, before, s.engine, clock, actions[n - 1], times[n - 1]);
    if actions[n - 1].kind == EXIT {
      var e := w'.exits[|w.exits|];
      RecordsMore(before, s.engine, clock, actions, times, front, w.exits[|s.exits|..], n - 1, e);
      assert w'.exits[|s.exits|..] == w.exits[|s.exits|..] + [e];
    }
  }

  lemma OneMoreOpened(found: Incidents, w: Sentinel, before: State, clock: Clock, actions: seq<Action>, times: seq<int>, crash: Option<nat>, n: nat)
    requires 0 < n <= |actions| <= |times| && DistinctKeys(actions) && (crash.Some? ==> n <= crash.value)
    requires Opened(found, w.incidents, actions, crash, times, n - 1)
    ensures Opened(found, Started(w, before, w.engine, clock, actions[n - 1], times[n - 1]).incidents, actions, crash, times, n)
  {
    var a, m := actions[n - 1], n - 1;
    var incidents := Started(w, before, w.engine, clock, a, times[n - 1]).incidents;
    forall i, key | DueFor(actions, crash, n, key, i)
      ensures key in incidents && incidents[key] == Incident(actions[i].reason, times[i])
    {
      if i < n - 1 {
        assert DueFor(actions, crash, n - 1, key, i);
        assert ActionKey(actions[i]) != ActionKey(a);
      }
    }
    forall key | forall i :: !DueFor(actions, crash, n, key, i)
      ensures (key in incidents <==> key in found) && (key in found ==> incidents[key] == found[key])
    {
      assert !DueFor(actions, crash, n, key, n - 1);
      forall i ensures !DueFor(actions, crash, m, key, i) { assert !DueFor(actions, crash, n, key, i); }
    }
  }

  lemma PolledDistinct(exposures: Exposures, s: Sentinel, c: Cycle)
    requires c.Evaluated? && OnePerKey(c.signals)
    ensures DistinctKeys(Polled(exposures, s, c).1)
  {
    PolledOk(exposures, s, c);
  }

  /** An evaluated cycle starts every exit the poll asked for before anything threw, in the order of the
      actions, each at its own time, and no other. */
  lemma PollStartsExits(exposures: Exposures, s: Sentinel, c: Cycle) returns (at: seq<int>)
    requires c.Evaluated? && OnePerKey(c.signals) && |c.times| == |Polled(exposures, s, c).1|
    ensures var (engine, actions) := Polled(exposures, s, c);
            var s' := AfterCycle(exposures, s, c);
            && ListsDue(actions, c.crash, |actions|, at) && |s.exits| <= |s'.exits| && s'.exits[..|s.exits|] == s.exits
            && Records(s.engine, engine, c.clock, actions, c.times, at, s'.exits[|s.exits|..])
            && s'.engine == engine
  {
    var (engine, actions) := Polled(exposures, s, c);
    var n := if c.crash.Some? && c.crash.value < |actions| then c.crash.value else |actions|;
    PolledDistinct(exposures, s, c);
    at := WorkedOpens(s.(engine := engine), s.engine, c.clock, actions, c.times, c.crash, n);
    forall i ensures i in at <==> i < |actions| && DueAt(actions, c.crash, i) {
      assert i in at <==> i < n && DueAt(actions, c.crash, i);
    }
  }

  /** In particular: the exit of the i-th action is among them, whatever the others are. */
  lemma ExitIsStarted(exposures: Exposures, s: Sentinel, c: Cycle, i: nat)
    requires c.Evaluated? && OnePerKey(c.signals) && |c.times| == |Polled(exposures, s, c).1|
    requires i < |c.times| && Polled(exposures, s, c).1[i].kind == EXIT && (c.crash.None? || i < c.crash.value)
    ensures var a := Polled(exposures, s, c).1[i];
            exists e :: e in AfterCycle(exposures, s, c).exits && e.key == Key(a.vault, a.signalType) && e.at == c.times[i]
  {
    var actions, s' := Polled(exposures, s, c).1, AfterCycle(exposures, s, c);
    var at := PollStartsExits(exposures, s, c);
    assert DueAt(actions, c.crash, i);
    var k :| 0 <= k < |at| && at[k] == i;
    assert s'.exits[|s.exits|..][k] in s'.exits;
  }

  /** What a poll leaves open if nothing threw: the incident of each exit, and those it found, unless
      older than an hour at the cleanup. */
  ghost predicate OpenAfter(s: Sentinel, c: Cycle, actions: seq<Action>, key: Key, incident: Incident)
    requires c.Evaluated? && |c.times| == |actions|
  {
    && c.cleanupAt - incident.createdAt <= 3600000
    && if exists i :: DueFor(actions, None, |actions|, key, i)
       then exists i :: DueFor(actions, None, |actions|, key, i) && incident == Incident(actions[i].reason, c.times[i])
       else key in s.incidents && incident == s.incidents[key]
  }

  lemma PollLeavesOpen(exposures: Exposures, s: Sentinel, c: Cycle, key: Key, incident: Incident)
    requires c.Evaluated? && OnePerKey(c.signals) && |c.times| == |Polled(exposures, s, c).1| && c.crash.None?
    ensures var s' := AfterCycle(exposures, s, c);
            (key in s'.incidents && s'.incidents[key] == incident) <==> OpenAfter(s, c, Polled(exposures, s, c).1, key, incident)
  {
    var (engine, actions) := Polled(exposures, s, c);
    PolledDistinct(exposures, s, c);
    var at := WorkedOpens(s.(engine := engine), s.engine, c.clock, actions, c.times, None, |actions|);
    assert actions[..|actions|] == actions;
    var w := Worked(s.(engine := engine), s.engine, engine, c.clock, actions, c.times);
    CleanedExactly(w.incidents, c.cleanupAt, key, incident);
    OpenedExactly(s, c, actions, w.incidents, key, incident);
  }

  /** A key had its exit due at one place at most. */
  lemma OpenedExactly(s: Sentinel, c: Cycle, actions: seq<Action>, incidents: Incidents, key: Key, incident: Incident)
    requires c.Evaluated? && |c.times| == |actions| && DistinctKeys(actions)
    requires Opened(s.incidents, incidents, actions, None, c.times, |actions|)
    ensures (key in incidents && incidents[key] == incident && c.cleanupAt - incident.createdAt <= 3600000)
       <==> OpenAfter(s, c, actions, key, incident)
  {
    if exists i :: DueFor(actions, None, |actions|, key, i) {
      var i :| DueFor(actions, None, |actions|, key, i);
      forall j | DueFor(actions, None, |actions|, key, j) ensures i == j {
        assert ActionKey(actions[i]) == key && ActionKey(actions[j]) == key;
      }
    }
  }

  lemma CleanedExactly(incidents: Incidents, now: int, key: Key, incident: Incident)
    ensures (key in Cleaned(incidents, now) && Cleaned(incidents, now)[key] == incident)
       <==> key in incidents && incidents[key] == incident && now - incident.createdAt <= 3600000
  {
  }

  /** If something threw, nothing is closed. */
  lemma CrashLeavesOpen(exposures: Exposures, s: Sentinel, c: Cycle)
    requires c.Evaluated? && OnePerKey(c.signals) && |c.times| == |Polled(exposures, s, c).1| && c.crash.Some?
    ensures Opened(s.incidents, AfterCycle(exposures, s, c).incidents, Polled(exposures, s, c).1, c.crash, c.times, |c.times|)
  {
    var (engine, actions) := Polled(exposures, s, c);
    var n := if c.crash.value < |actions| then c.crash.value else |actions|;
    PolledDistinct(exposures, s, c);
    var at := WorkedOpens(s.(engine := engine), s.engine, c.clock, actions, c.times, c.crash, n);
    var incidents := AfterCycle(exposures, s, c).incidents;
    forall i, key ensures DueFor(actions, c.crash, n, key, i) <==> DueFor(actions, c.crash, |actions|, key, i) {}
    forall key | forall i :: !DueFor(actions, c.crash, |actions|, key, i)
      ensures (key in incidents <==> key in s.incidents) && (key in s.incidents ==> incidents[key] == s.incidents[key])
    {
      forall i ensures !DueFor(actions, c.crash, n, key, i) { assert !DueFor(actions, c.crash, |actions|, key, i); }
    }
  }

  // ---- Failures ----

  /** The cycle did not get to its end. */
  predicate Failed(c: Cycle) {
    c.Unevaluated? || c.crash.Some?
  }

  /** How many of the first `n` cycles failed since the last that did not. */
  function FailedInARow(cycles: seq<Cycle>, n: nat): nat
    requires n <= |cycles|
  {
    if n == 0 || !Failed(cycles[n - 1]) then 0 else FailedInARow(cycles, n - 1) + 1
  }

  lemma CycleFailures(exposures: Exposures, s: Sentinel, c: Cycle)
    requires c.Evaluated? ==> OnePerKey(c.signals) && |c.times| == |Polled(exposures, s, c).1|
    ensures AfterCycle(exposures, s, c).failures == if Failed(c) then s.failures + 1 else 0
  {
    if c.Evaluated? {
      var (engine, actions) := Polled(exposures, s, c);
      var n := if c.crash.Some? && c.crash.value < |actions| then c.crash.value else |actions|;
      PolledDistinct(exposures, s, c);
      var at := WorkedOpens(s.(engine := engine), s.engine, c.clock, actions, c.times, c.crash, n);
    }
  }

  /** In any history the failure counter, which pages the operator from three on, is the number of cycles
      in a row that failed. */
  lemma {:induction false} FailuresInARow(exposures: Exposures, states: seq<Sentinel>, cycles: seq<Cycle>, n: nat)
    requires History(exposures, states, cycles) && n <= |cycles|
    ensures states[n].failures == FailedInARow(cycles, n)
  {
    if n > 0 {
      FailuresInARow(exposures, states, cycles, n - 1);
      HistoryCycle(exposures, states, cycles, n - 1);
      CycleFailures(exposures, states[n - 1], cycles[n - 1]);
    }
  }

  // ---- Gathering ----

  /** What a vault's signal must be, type by type: prices are stamped in milliseconds, assets are counted
      in units of a million, and only Morpho vaults are asked for their pause flag and share price. */
  predicate Emits(c: VaultConfig, r: Reading, ponderFresh: bool, s: Signal) {
    s.vault == c.vault &&
    match s.kind
    case ORACLE_PRICE =>
      && ponderFresh && c.hasFeed && r.oracle.Some?
      && s.asset == Some(c.underlying) && s.value == Num(r.oracle.value.0) && s.timestamp == Some(1000 * r.oracle.value.1)
    case DEX_PRICE =>
      && !ponderFresh && c.hasPools && r.llama.Some?
      && s.asset == Some(c.underlying) && s.value == Num(r.llama.value.0) && s.timestamp == Some(1000 * r.llama.value.1)
    case VAULT_FLOW =>
      && r.totalAssets.Some? && r.totalAssets.value > 0
      && s.asset.None? && s.value.Num? && s.value.num * 1000000.0 == r.totalAssets.value as real && s.timestamp == Some(r.at)
    case VAULT_PAUSED =>
      && c.vault.protocol == Morpho && r.paused.Some?
      && s.asset.None? && s.value == Flag(r.paused.value) && s.timestamp == Some(r.at)
    case SHARE_PRICE =>
      && c.vault.protocol == Morpho && r.sharePrice.Some?
      && s.asset.None? && s.value == Num(r.sharePrice.value) && s.timestamp == Some(r.at)
    case MAX_REDEEM => false
  }

  lemma Millionths(x: real, y: real)
    ensures x == y / 1000000.0 <==> x * 1000000.0 == y
  {
  }

  /** A vault's signals are exactly those. */
  lemma SignalsExactly(c: VaultConfig, r: Reading, ponderFresh: bool, s: Signal)
    ensures s in SignalsOf(c, r, ponderFresh) <==> Emits(c, r, ponderFresh, s)
  {
    if s.value.Num? && r.totalAssets.Some? {
      Millionths(s.value.num, r.totalAssets.value as real);
    }
    SignalParts(c, r, ponderFresh, s);
  }

  lemma SignalParts(c: VaultConfig, r: Reading, ponderFresh: bool, s: Signal)
    ensures s in SignalsOf(c, r, ponderFresh) <==>
              || (ponderFresh && c.hasFeed && PriceSignal(ORACLE_PRICE, c, r.oracle) == Some(s))
              || RpcSignal(VAULT_FLOW, c, TvlOf(r.totalAssets), r.at) == Some(s)
              || (!ponderFresh && c.hasPools && PriceSignal(DEX_PRICE, c, r.llama) == Some(s))
              || (c.vault.protocol == Morpho && r.paused.Some? && s == Signal(VAULT_PAUSED, c.vault, None, Flag(r.paused.value), Some(r.at)))
              || (c.vault.protocol == Morpho && r.sharePrice.Some?
                  && s == Signal(SHARE_PRICE, c.vault, None, Num(r.sharePrice.value), Some(r.at)))
  {
  }
}
