/** Over any sequence of poll cycles, including ones that crash part way: exits of a vault and
    signal are more than an hour apart, and none is caused by what an earlier one left behind. */
module SentinelLaws {
  import opened Wrappers
  import opened SignalHistory
  import opened Seqs
  import opened RulesEngine
  import opened EngineLaws
  import opened Worker

  // ---- One poll ----

  /** Signal types whose rules wait for a second breach. */
  predicate Confirmable(kind: SignalType) {
    kind != MAX_REDEEM && kind != VAULT_PAUSED
  }

  ghost predicate BufferIsConfirmable(buffer: Buffer) {
    forall k :: k in buffer ==> Confirmable(k.kind)
  }

  predicate IsDrop(drop: Option<real>, value: SignalValue) {
    drop.Some? && value == Num(drop.value)
  }

  /** An exit of a confirmable key consumed a confirmation opened earlier, and a drop exit reports
      the drop between the two samples its rule compared. */
  ghost predicate Justified(before: State, after: State, at: int, a: Action) {
    var key := ActionKey(a);
    && (Confirmable(key.kind) ==> key in before.buffer && key !in after.buffer)
    && (key.kind == VAULT_FLOW ==>
          IsDrop(FlowDrop(HistoryOf(after.windows, key), at), a.value) && Compared(after.windows, key, at).Some?)
    && (key.kind == SHARE_PRICE ==>
          IsDrop(SharePriceDrop(HistoryOf(after.windows, key), at), a.value) && Compared(after.windows, key, at).Some?)
  }

  /** Each rule speaks for the signal it judged. */
  lemma JudgeActs(exposures: Exposures, st: State, s: Signal, all: seq<Signal>, now: int)
    ensures var action := Judge(exposures, st, s, all, now).1; action.Some? ==> ActionKey(action.value) == KeyOf(s)
  {
  }

  lemma StepActs(exposures: Exposures, st: State, e: Event)
    ensures var action := Step(exposures, st, e).1;
            action.Some? ==> ActionKey(action.value) == KeyOf(e.signal) && KeyOf(e.signal) !in e.incidents
  {
    if KeyOf(e.signal) !in e.incidents {
      JudgeActs(exposures, st.(windows := Observed(st.windows, e.signal, e.now)), e.signal, e.all, e.now);
    }
  }

  lemma PriceJustified(exposures: Exposures, buffer: Buffer, s: Signal, now: int)
    ensures var (after, action) := OnPrice(exposures, buffer, s, now);
            action.Some? && action.value.kind == EXIT ==> KeyOf(s) in buffer && KeyOf(s) !in after
  {
  }

  lemma DropJustified(buffer: Buffer, s: Signal, drop: Option<real>, limit: real, reason: Reason, now: int)
    ensures var (after, action) := OnDrop(buffer, s, drop, limit, reason, now);
            action.Some? ==> KeyOf(s) in buffer && KeyOf(s) !in after && IsDrop(drop, action.value.value)
  {
  }

  lemma StepJustified(exposures: Exposures, st: State, e: Event)
    ensures var (st', action) := Step(exposures, st, e);
            action.Some? && action.value.kind == EXIT ==> Justified(st, st', e.now, action.value)
  {
    var s := e.signal;
    StepActs(exposures, st, e);
    if KeyOf(s) !in e.incidents {
      var windows := Observed(st.windows, s, e.now);
      PriceJustified(exposures, st.buffer, s, e.now);
      DropJustified(st.buffer, s, FlowDrop(HistoryOf(windows, KeyOf(s)), e.now), TVL_DROP_EXIT_PCT, BANK_RUN, e.now);
      DropJustified(st.buffer, s, SharePriceDrop(HistoryOf(windows, KeyOf(s)), e.now), SHARE_PRICE_DROP_PCT, SHARE_PRICE_DROP, e.now);
    }
  }

  lemma StepConfirmable(exposures: Exposures, st: State, e: Event)
    requires BufferIsConfirmable(st.buffer)
    ensures BufferIsConfirmable(Step(exposures, st, e).0.buffer)
  {
  }

  /** A step touches only its own key's confirmation and window. */
  lemma StepFrame(exposures: Exposures, st: State, e: Event, k: Key)
    requires k != KeyOf(e.signal)
    ensures var st' := Step(exposures, st, e).0;
            Entry(st'.buffer, k) == Entry(st.buffer, k) && HistoryOf(st'.windows, k) == HistoryOf(st.windows, k)
  {
    if KeyOf(e.signal) !in e.incidents {
      JudgeFrame(exposures, st.(windows := Observed(st.windows, e.signal, e.now)), e.signal, e.all, e.now, k);
    }
  }

  /** A confirmation is either old or opened at this evaluation of an unsuppressed key. */
  lemma StepFirstSeen(exposures: Exposures, st: State, e: Event, k: Key)
    ensures var st' := Step(exposures, st, e).0;
            k in st'.buffer ==>
              (k in st.buffer && st'.buffer[k].firstSeen == st.buffer[k].firstSeen)
              || (st'.buffer[k].firstSeen == e.now && k !in e.incidents)
  {
  }

  /** What the actions of one poll have in common: distinct keys, none of them suppressed, and
      every exit justified by the state before and after. */
  ghost predicate Sound(before: State, after: State, incidents: set<Key>, clock: Clock, actions: seq<Action>) {
    && (forall i, j :: 0 <= i < j < |actions| ==> ActionKey(actions[i]) != ActionKey(actions[j]))
    && (forall i :: 0 <= i < |actions| ==> ActionKey(actions[i]) !in incidents)
    && (forall i :: 0 <= i < |actions| && actions[i].kind == EXIT ==>
          Justified(before, after, clock(ActionKey(actions[i])), actions[i]))
  }

  /** How the state after part of a poll relates to the state before it. */
  ghost predicate Advanced(before: State, after: State, incidents: set<Key>, clock: Clock, done: set<Key>) {
    && (forall k :: k !in done ==> Entry(after.buffer, k) == Entry(before.buffer, k)
                                   && HistoryOf(after.windows, k) == HistoryOf(before.windows, k))
    && (forall k :: k in after.buffer ==>
          (k in before.buffer && after.buffer[k].firstSeen == before.buffer[k].firstSeen)
          || (after.buffer[k].firstSeen == clock(k) && k !in incidents))
  }

  ghost function KeysOf(signals: seq<Signal>): set<Key> {
    set s | s in signals :: KeyOf(s)
  }

  lemma StepAdvanced(exposures: Exposures, before: State, mid: State, e: Event, clock: Clock, done: set<Key>)
    requires Advanced(before, mid, e.incidents, clock, done) && e.now == clock(KeyOf(e.signal))
    ensures Advanced(before, Step(exposures, mid, e).0, e.incidents, clock, done + {KeyOf(e.signal)})
  {
    var after := Step(exposures, mid, e).0;
    forall k | k !in done + {KeyOf(e.signal)}
      ensures Entry(after.buffer, k) == Entry(before.buffer, k) && HistoryOf(after.windows, k) == HistoryOf(before.windows, k)
    {
      StepFrame(exposures, mid, e, k);
    }
    forall k | k in after.buffer
      ensures (k in before.buffer && after.buffer[k].firstSeen == before.buffer[k].firstSeen)
              || (after.buffer[k].firstSeen == clock(k) && k !in e.incidents)
    {
      if k == KeyOf(e.signal) { StepFirstSeen(exposures, mid, e, k); } else { StepFrame(exposures, mid, e, k); }
    }
  }

  /** Justification depends only on the action's own key, before and after. */
  lemma JustifiedLocally(before: State, after: State, before': State, after': State, at: int, a: Action)
    requires Justified(before, after, at, a)
    requires Entry(before.buffer, ActionKey(a)) == Entry(before'.buffer, ActionKey(a))
    requires Entry(after.buffer, ActionKey(a)) == Entry(after'.buffer, ActionKey(a))
    requires HistoryOf(after.windows, ActionKey(a)) == HistoryOf(after'.windows, ActionKey(a))
    ensures Justified(before', after', at, a)
  {
  }

  /** The next signal's key is new to the poll, so adding its action keeps the poll sound. */
  lemma StepSound(exposures: Exposures, before: State, mid: State, e: Event, clock: Clock, done: set<Key>, actions: seq<Action>)
    requires Advanced(before, mid, e.incidents, clock, done) && KeyOf(e.signal) !in done && e.now == clock(KeyOf(e.signal))
    requires Sound(before, mid, e.incidents, clock, actions)
    requires forall i :: 0 <= i < |actions| ==> ActionKey(actions[i]) in done
    ensures var (after, action) := Step(exposures, mid, e);
            Sound(before, after, e.incidents, clock, if action.Some? then actions + [action.value] else actions)
  {
    var (after, action) := Step(exposures, mid, e);
    StepActs(exposures, mid, e);
    forall i | 0 <= i < |actions| && actions[i].kind == EXIT
      ensures Justified(before, after, clock(ActionKey(actions[i])), actions[i])
    {
      StepFrame(exposures, mid, e, ActionKey(actions[i]));
      JustifiedLocally(before, mid, before, after, clock(ActionKey(actions[i])), actions[i]);
    }
    if action.Some? && action.value.kind == EXIT {
      StepJustified(exposures, mid, e);
      JustifiedLocally(mid, after, before, after, e.now, action.value);
    }
  }

  /** All of the above about the first part of a poll. */
  ghost predicate PollOk(before: State, after: State, incidents: set<Key>, clock: Clock, done: set<Key>, actions: seq<Action>) {
    && Advanced(before, after, incidents, clock, done) && Sound(before, after, incidents, clock, actions)
    && (forall i :: 0 <= i < |actions| ==> ActionKey(actions[i]) in done)
    && (BufferIsConfirmable(before.buffer) ==> BufferIsConfirmable(after.buffer))
  }

  lemma StepPollOk(exposures: Exposures, before: State, mid: State, e: Event, clock: Clock, done: set<Key>, actions: seq<Action>)
    requires PollOk(before, mid, e.incidents, clock, done, actions) && KeyOf(e.signal) !in done && e.now == clock(KeyOf(e.signal))
    ensures var (after, action) := Step(exposures, mid, e);
            PollOk(before, after, e.incidents, clock, done + {KeyOf(e.signal)},
                   if action.Some? then actions + [action.value] else actions)
  {
    StepAdvanced(exposures, before, mid, e, clock, done);
    StepSound(exposures, before, mid, e, clock, done, actions);
    StepActs(exposures, mid, e);
    if BufferIsConfirmable(before.buffer) {
      StepConfirmable(exposures, mid, e);
    }
  }

  lemma RunNext(exposures: Exposures, st: State, events: seq<Event>, n: nat)
    requires n < |events|
    ensures var (mid, outcomes) := Run(exposures, st, events[..n]);
            var (after, action) := Step(exposures, mid, events[n]);
            && Run(exposures, st, events[..n + 1]).0 == after
            && Present(Run(exposures, st, events[..n + 1]).1)
            == if action.Some? then Present(outcomes) + [action.value] else Present(outcomes)
  {
    assert events[..n + 1][..n] == events[..n];
    var (mid, outcomes) := Run(exposures, st, events[..n]);
    var action := Step(exposures, mid, events[n]).1;
    assert (outcomes + [action])[..n] == outcomes;
  }

  lemma {:induction false} PollSound(exposures: Exposures, before: State, signals: seq<Signal>, incidents: set<Key>, clock: Clock, n: nat)
    requires OnePerKey(signals) && n <= |signals|
    ensures var (after, outcomes) := Run(exposures, before, EventsOf(TimedBy(signals, clock), incidents)[..n]);
            PollOk(before, after, incidents, clock, KeysOf(signals[..n]), Present(outcomes))
  {
    if n > 0 {
      var events := EventsOf(TimedBy(signals, clock), incidents);
      PollSound(exposures, before, signals, incidents, clock, n - 1);
      var (mid, outcomes) := Run(exposures, before, events[..n - 1]);
      KeysOfNext(signals, n - 1);
      StepPollOk(exposures, before, mid, events[n - 1], clock, KeysOf(signals[..n - 1]), Present(outcomes));
      RunNext(exposures, before, events, n - 1);
    }
  }

  lemma KeysOfNext(signals: seq<Signal>, n: nat)
    requires OnePerKey(signals) && n < |signals|
    ensures KeysOf(signals[..n + 1]) == KeysOf(signals[..n]) + {KeyOf(signals[n])}
    ensures KeyOf(signals[n]) !in KeysOf(signals[..n])
  {
    assert signals[..n + 1] == signals[..n] + [signals[n]];
    forall s | s in signals[..n] ensures KeyOf(s) != KeyOf(signals[n]) {
      var i :| 0 <= i < n && signals[i] == s;
    }
  }

  // ---- Whole histories ----

  /** Two exits of one key, in order: more than the incident time-to-live apart; both samples the
      later one compared were taken after the earlier exit, and so were both of its breaches. */
  predicate Apart(earlier: ExitRecord, later: ExitRecord) {
    earlier.key == later.key ==>
      && later.at - earlier.at > INCIDENT_TTL_MS
      && (later.compared.Some? ==> later.compared.value.0.timestamp > earlier.at && later.compared.value.1.timestamp > earlier.at)
      && (later.since.Some? ==> later.since.value - earlier.at > INCIDENT_TTL_MS)
  }

  /** Every exit of a rule that compares samples or waits for a second breach records them. */
  predicate Documented(e: ExitRecord) {
    && (e.key.kind == VAULT_FLOW || e.key.kind == SHARE_PRICE ==> e.compared.Some?)
    && (Confirmable(e.key.kind) ==> e.since.Some?)
  }

  /** All past exits of a key are more than the time-to-live before an instant. */
  ghost predicate LongAgo(exits: seq<ExitRecord>, key: Key, at: int) {
    forall i :: 0 <= i < |exits| && exits[i].key == key ==> at - exits[i].at > INCIDENT_TTL_MS
  }

  ghost predicate AllApart(exits: seq<ExitRecord>) {
    && (forall i :: 0 <= i < |exits| ==> Documented(exits[i]))
    && (forall i, j :: 0 <= i < j < |exits| ==> Apart(exits[i], exits[j]))
  }

  /** Every exit still has an incident at least as young as itself, or is long past; a pending
      confirmation was opened long after any exit of its key. */
  ghost predicate Guarded(incidents: Incidents, buffer: Buffer, exits: seq<ExitRecord>, now: int) {
    && (forall i :: 0 <= i < |exits| ==> exits[i].at <= now)
    && (forall i :: 0 <= i < |exits| && exits[i].key in incidents ==> exits[i].at <= incidents[exits[i].key].createdAt)
    && (forall i :: 0 <= i < |exits| && exits[i].key !in incidents ==> now - exits[i].at > INCIDENT_TTL_MS)
    && (forall k :: k in buffer ==> LongAgo(exits, k, buffer[k].firstSeen))
    && BufferIsConfirmable(buffer)
  }

  ghost predicate Invariant(s: Sentinel, now: int) {
    Guarded(s.incidents, s.engine.buffer, s.exits, now) && AllApart(s.exits)
  }

  lemma EndsInWindow(history: seq<Sample>, width: int, at: int)
    ensures var ends := Ends(history, width, at);
            ends.Some? ==> ends.value.0.timestamp >= at - width && ends.value.1.timestamp >= at - width
  {
    var entries := ValuesInRange(history, at - width, at);
    SelectMembers(history, InRange(at - width, at));
    if |entries| >= 2 {
      assert entries[0] in entries && entries[|entries| - 1] in entries;
    }
  }

  /** The evaluation itself keeps the guard: a new confirmation belongs to an unsuppressed key. */
  lemma EvaluationGuarded(s: Sentinel, after: State, last: int, at: int, clock: Clock, done: set<Key>)
    requires Guarded(s.incidents, s.engine.buffer, s.exits, last) && last <= at && forall k :: at <= clock(k)
    requires Advanced(s.engine, after, s.incidents.Keys, clock, done) && BufferIsConfirmable(after.buffer)
    ensures Guarded(s.incidents, after.buffer, s.exits, at)
    ensures forall k | k !in s.incidents :: LongAgo(s.exits, k, at)
  {
    forall k | k in after.buffer ensures LongAgo(s.exits, k, after.buffer[k].firstSeen) {
      if k in s.engine.buffer && after.buffer[k].firstSeen == s.engine.buffer[k].firstSeen {
        assert LongAgo(s.exits, k, s.engine.buffer[k].firstSeen);
      }
    }
  }

  /** Starting a justified exit of a key whose past exits are long gone keeps everything. */
  lemma ExitKeeps(s: Sentinel, before: State, clock: Clock, a: Action, last: int, time: int)
    requires Invariant(s, last) && last <= time && clock(ActionKey(a)) <= time && a.kind == EXIT
    requires Justified(before, s.engine, clock(ActionKey(a)), a) && LongAgo(s.exits, ActionKey(a), clock(ActionKey(a)))
    requires ActionKey(a) in before.buffer ==> LongAgo(s.exits, ActionKey(a), before.buffer[ActionKey(a)].firstSeen)
    ensures Invariant(Started(s, before, s.engine, clock, a, time), time)
  {
    var key, s' := ActionKey(a), Started(s, before, s.engine, clock, a, time);
    var e := s'.exits[|s.exits|];
    EndsInWindow(HistoryOf(s.engine.windows, key), TVL_WINDOW_MS, clock(key));
    EndsInWindow(HistoryOf(s.engine.windows, key), SHARE_PRICE_WINDOW_MS, clock(key));
    assert AllApart(s'.exits) by {
      forall i | 0 <= i < |s.exits| ensures Apart(s.exits[i], e) {}
    }
    forall k | k in s'.engine.buffer ensures LongAgo(s'.exits, k, s'.engine.buffer[k].firstSeen) {
      assert LongAgo(s.exits, k, s.engine.buffer[k].firstSeen) && k != key;
    }
  }

  lemma LaterInvariant(s: Sentinel, now: int, later: int)
    requires Invariant(s, now) && now <= later
    ensures Invariant(s, later)
  {
  }

  /** The exits of `w` are old ones and ones of the actions already worked through. */
  ghost predicate ExitsFrom(prior: seq<ExitRecord>, exits: seq<ExitRecord>, done: seq<Action>) {
    forall i :: 0 <= i < |exits| ==>
      exits[i] in prior || exists j :: 0 <= j < |done| && ActionKey(done[j]) == exits[i].key
  }

  /** What is long past for the old exits of a key not yet acted on is long past for all of them. */
  lemma OnlyOldExits(prior: seq<ExitRecord>, exits: seq<ExitRecord>, done: seq<Action>, key: Key, t: int)
    requires ExitsFrom(prior, exits, done) && LongAgo(prior, key, t)
    requires forall j :: 0 <= j < |done| ==> ActionKey(done[j]) != key
    ensures LongAgo(exits, key, t)
  {
    forall i | 0 <= i < |exits| && exits[i].key == key ensures t - exits[i].at > INCIDENT_TTL_MS {
      assert exits[i] in prior;
    }
  }

  /** Working through the actions of a sound poll. */
  lemma {:induction false} WorkedKeeps(s: Sentinel, before: State, at: int, clock: Clock, actions: seq<Action>, times: seq<int>, incidents: set<Key>)
    requires |actions| <= |times| && Sound(before, s.engine, incidents, clock, actions)
    requires Invariant(s, at) && forall k | k !in incidents :: LongAgo(s.exits, k, at)
    requires forall k | k in before.buffer && k !in incidents :: LongAgo(s.exits, k, before.buffer[k].firstSeen)
    requires (forall k :: at <= clock(k)) && forall i, k :: 0 <= i < |times| ==> clock(k) <= times[i]
    requires forall i, j :: 0 <= i < j < |times| ==> times[i] <= times[j]
    ensures var w := Worked(s, before, s.engine, clock, actions, times);
            && Invariant(w, if actions == [] then at else times[|actions| - 1]) && w.engine == s.engine
            && ExitsFrom(s.exits, w.exits, actions)
  {
    if actions != [] {
      var n := |actions| - 1;
      var front, a := actions[..n], actions[n];
      var key := ActionKey(a);
      WorkedKeeps(s, before, at, clock, front, times, incidents);
      var w := Worked(s, before, s.engine, clock, front, times);
      assert at <= clock(key) <= times[n];
      var last := if front == [] then at else times[n - 1];
      if a.kind == EXIT {
        OnlyOldExits(s.exits, w.exits, front, key, clock(key));
        if key in before.buffer {
          OnlyOldExits(s.exits, w.exits, front, key, before.buffer[key].firstSeen);
        }
        ExitKeeps(w, before, clock, a, last, times[n]);
      } else {
        LaterInvariant(w, last, times[n]);
      }
      WorkedExitsFrom(s.exits, w, before, clock, actions, times[n]);
    }
  }

  lemma WorkedExitsFrom(prior: seq<ExitRecord>, w: Sentinel, before: State, clock: Clock, actions: seq<Action>, time: int)
    requires actions != [] && ExitsFrom(prior, w.exits, actions[..|actions| - 1])
    ensures ExitsFrom(prior, Started(w, before, w.engine, clock, actions[|actions| - 1], time).exits, actions)
  {
    var n := |actions| - 1;
    forall i | 0 <= i < |w.exits|
      ensures w.exits[i] in prior || exists j :: 0 <= j < |actions| && ActionKey(actions[j]) == w.exits[i].key
    {
      if w.exits[i] !in prior {
        var j :| 0 <= j < n && ActionKey(actions[..n][j]) == w.exits[i].key;
        assert ActionKey(actions[j]) == w.exits[i].key;
      }
    }
  }

  /** Closing stale incidents frees only keys whose exits are all long past. */
  lemma CleanupKeeps(s: Sentinel, last: int, now: int)
    requires Invariant(s, last) && last <= now
    ensures Invariant(s.(incidents := Cleaned(s.incidents, now), failures := 0), now)
  {
  }

  lemma PolledOk(exposures: Exposures, s: Sentinel, c: Cycle)
    requires c.Evaluated? && OnePerKey(c.signals)
    ensures var (engine, actions) := Polled(exposures, s, c);
            PollOk(s.engine, engine, s.incidents.Keys, c.clock, KeysOf(c.signals), actions)
  {
    var events := EventsOf(TimedBy(c.signals, c.clock), s.incidents.Keys);
    assert events[..|events|] == events && c.signals[..|c.signals|] == c.signals;
    PollSound(exposures, s.engine, c.signals, s.incidents.Keys, c.clock, |c.signals|);
  }

  lemma ActionsKeep(s: Sentinel, engine: State, last: int, at: int, clock: Clock, done: set<Key>, actions: seq<Action>, n: nat, times: seq<int>, end: int)
    requires Invariant(s, last) && last <= at <= end
    requires PollOk(s.engine, engine, s.incidents.Keys, clock, done, actions) && n <= |actions| == |times|
    requires (forall k :: at <= clock(k)) && forall i, k :: 0 <= i < |times| ==> clock(k) <= times[i]
    requires forall i :: 0 <= i < |times| ==> times[i] <= end
    requires forall i, j :: 0 <= i < j < |times| ==> times[i] <= times[j]
    ensures Invariant(Worked(s.(engine := engine), s.engine, engine, clock, actions[..n], times), end)
  {
    EvaluationGuarded(s, engine, last, at, clock, done);
    var begin := s.(engine := engine);
    WorkedKeeps(begin, s.engine, at, clock, actions[..n], times, s.incidents.Keys);
    LaterInvariant(Worked(begin, s.engine, engine, clock, actions[..n], times), if n == 0 then at else times[n - 1], end);
  }

  /** One cycle, however it ends, keeps the invariant. */
  lemma CycleKeeps(exposures: Exposures, s: Sentinel, c: Cycle, last: int)
    requires Invariant(s, last) && Plausible(exposures, s, c, last)
    ensures Invariant(AfterCycle(exposures, s, c), EndOf(c))
  {
    if c.Evaluated? {
      var (engine, actions) := Polled(exposures, s, c);
      PolledOk(exposures, s, c);
      var n := Reached(|actions|, c.crash);
      ActionsKeep(s, engine, last, c.at, c.clock, KeysOf(c.signals), actions, n, c.times, c.cleanupAt);
      CleanupKeeps(Worked(s.(engine := engine), s.engine, engine, c.clock, actions[..n], c.times), c.cleanupAt, c.cleanupAt);
    }
  }

  // ---- Main results ----

  const INITIAL := Sentinel(State(map[], map[]), map[], 0, [])

  /** A history: the state before each cycle and at the end, cycles never overlapping. */
  ghost predicate History(exposures: Exposures, states: seq<Sentinel>, cycles: seq<Cycle>) {
    && |states| == |cycles| + 1 && states[0] == INITIAL
    && forall n :: 0 <= n < |cycles| ==> Follows(exposures, states, cycles, n)
  }

  /** The n-th cycle starts after the one before it, and leads to the next state. */
  ghost predicate Follows(exposures: Exposures, states: seq<Sentinel>, cycles: seq<Cycle>, n: int)
    requires |states| == |cycles| + 1 && 0 <= n < |cycles|
  {
    && Plausible(exposures, states[n], cycles[n], if n == 0 then cycles[0].at else EndOf(cycles[n - 1]))
    && states[n + 1] == AfterCycle(exposures, states[n], cycles[n])
  }

  lemma {:induction false} HistoryKeeps(exposures: Exposures, states: seq<Sentinel>, cycles: seq<Cycle>, n: nat)
    requires History(exposures, states, cycles) && 0 < n <= |cycles|
    ensures Invariant(states[n], EndOf(cycles[n - 1]))
  {
    assert Follows(exposures, states, cycles, n - 1);
    if n == 1 {
      CycleKeeps(exposures, states[0], cycles[0], cycles[0].at);
    } else {
      HistoryKeeps(exposures, states, cycles, n - 1);
      CycleKeeps(exposures, states[n - 1], cycles[n - 1], EndOf(cycles[n - 2]));
    }
  }

  /** In any history, any two exits of one vault and signal are more than an hour apart; the later
      one compares only samples taken after the earlier exit, and both breaches that confirmed it
      came more than an hour after that exit. */
  lemma ExitsApart(exposures: Exposures, states: seq<Sentinel>, cycles: seq<Cycle>, i: nat, j: nat)
    requires History(exposures, states, cycles)
    requires var exits := states[|cycles|].exits; i < j < |exits| && exits[i].key == exits[j].key
    ensures var earlier, later := states[|cycles|].exits[i], states[|cycles|].exits[j];
            && later.at - earlier.at > 3600000
            && (later.key.kind == VAULT_FLOW || later.key.kind == SHARE_PRICE ==>
                  && later.compared.Some?
                  && later.compared.value.0.timestamp > earlier.at && later.compared.value.1.timestamp > earlier.at)
            && (Confirmable(later.key.kind) ==> later.since.Some? && later.since.value - earlier.at > 3600000)
  {
    if |cycles| > 0 {
      HistoryKeeps(exposures, states, cycles, |cycles|);
      assert Documented(states[|cycles|].exits[j]);
      assert Apart(states[|cycles|].exits[i], states[|cycles|].exits[j]);
    }
  }

  // ---- Which rules can exit ----

  predicate IsPrice(kind: SignalType) {
    kind == DEX_PRICE || kind == ORACLE_PRICE
  }

  /** The rules engine knows every vault by the underlying its signals are gathered with. */
  ghost predicate Configured(exposures: Exposures, vaults: seq<VaultConfig>) {
    forall c :: c in vaults ==>
      c.underlying != "" && c.vault.address in exposures && exposures[c.vault.address] == c.underlying
  }

  /** The signals come from these vaults, whatever the sources answered. */
  ghost predicate GatheredFrom(vaults: seq<VaultConfig>, signals: seq<Signal>) {
    forall s :: s in signals ==> exists c, r, ponderFresh :: c in vaults && s in SignalsOf(c, r, ponderFresh)
  }

  /** A signal the worker gathers: none of redeemability, and prices of the vault's own underlying
      only. */
  predicate IsGathered(exposures: Exposures, s: Signal) {
    s.kind != MAX_REDEEM && (IsPrice(s.kind) ==> IsUnderlyingToxic(exposures, s.vault.address, s.asset))
  }

  predicate IsDropKind(kind: SignalType) {
    kind == VAULT_FLOW || kind == SHARE_PRICE
  }

  predicate ExitsByDrop(a: Action) {
    a.kind == EXIT ==> IsDropKind(a.signalType)
  }

  ghost predicate AllByDrop(actions: seq<Action>) {
    forall a :: a in actions ==> ExitsByDrop(a)
  }

  lemma GatheredSignal(c: VaultConfig, r: Reading, ponderFresh: bool, s: Signal)
    requires s in SignalsOf(c, r, ponderFresh)
    ensures s.vault == c.vault && s.kind != MAX_REDEEM && (IsPrice(s.kind) ==> s.asset == Some(c.underlying))
  {
    SignalsOfOnePerKey(c, r, ponderFresh);
  }

  lemma AllGathered(exposures: Exposures, vaults: seq<VaultConfig>, signals: seq<Signal>)
    requires Configured(exposures, vaults) && GatheredFrom(vaults, signals)
    ensures forall s :: s in signals ==> IsGathered(exposures, s)
  {
    forall s | s in signals ensures IsGathered(exposures, s) {
      var c, r, ponderFresh :| c in vaults && s in SignalsOf(c, r, ponderFresh);
      GatheredSignal(c, r, ponderFresh, s);
    }
  }

  lemma StepByDrop(exposures: Exposures, st: State, e: Event)
    requires IsGathered(exposures, e.signal)
    ensures var action := Step(exposures, st, e).1; action.Some? ==> ExitsByDrop(action.value)
  {
    StepActs(exposures, st, e);
  }

  lemma {:induction false} RunByDrop(exposures: Exposures, st: State, events: seq<Event>, n: nat)
    requires n <= |events| && forall e :: e in events ==> IsGathered(exposures, e.signal)
    ensures AllByDrop(Present(Run(exposures, st, events[..n]).1))
  {
    if n > 0 {
      RunByDrop(exposures, st, events, n - 1);
      StepByDrop(exposures, Run(exposures, st, events[..n - 1]).0, events[n - 1]);
      RunNext(exposures, st, events, n - 1);
    }
  }

  lemma PolledByDrop(exposures: Exposures, s: Sentinel, c: Cycle)
    requires c.Evaluated? && forall x :: x in c.signals ==> IsGathered(exposures, x)
    ensures AllByDrop(Polled(exposures, s, c).1)
  {
    var events := EventsOf(TimedBy(c.signals, c.clock), s.incidents.Keys);
    assert events[..|events|] == events;
    RunByDrop(exposures, s.engine, events, |events|);
  }

  ghost predicate ExitedByDrop(exits: seq<ExitRecord>) {
    forall x :: x in exits ==> IsDropKind(x.key.kind)
  }

  lemma {:induction false} WorkedByDrop(s: Sentinel, before: State, after: State, clock: Clock, actions: seq<Action>, times: seq<int>)
    requires |actions| <= |times| && AllByDrop(actions) && ExitedByDrop(s.exits)
    ensures ExitedByDrop(Worked(s, before, after, clock, actions, times).exits)
  {
    if actions != [] {
      WorkedByDrop(s, before, after, clock, actions[..|actions| - 1], times);
      assert ExitsByDrop(actions[|actions| - 1]);
    }
  }

  lemma CycleByDrop(exposures: Exposures, s: Sentinel, c: Cycle)
    requires ExitedByDrop(s.exits) && (c.Evaluated? ==> |c.times| == |Polled(exposures, s, c).1|)
    requires c.Evaluated? ==> forall x :: x in c.signals ==> IsGathered(exposures, x)
    ensures ExitedByDrop(AfterCycle(exposures, s, c).exits)
  {
    if c.Evaluated? {
      var (engine, actions) := Polled(exposures, s, c);
      PolledByDrop(exposures, s, c);
      WorkedByDrop(s.(engine := engine), s.engine, engine, c.clock, actions[..Reached(|actions|, c.crash)], c.times);
    }
  }

  lemma HistoryCycle(exposures: Exposures, states: seq<Sentinel>, cycles: seq<Cycle>, n: nat)
    requires History(exposures, states, cycles) && n < |cycles|
    ensures cycles[n].Evaluated? ==>
              OnePerKey(cycles[n].signals) && |cycles[n].times| == |Polled(exposures, states[n], cycles[n]).1|
    ensures states[n + 1] == AfterCycle(exposures, states[n], cycles[n])
  {
    assert Follows(exposures, states, cycles, n);
  }

  /** In a history whose polls gather the configured vaults, every exit is started by a drop of
      the vault's assets or of its share price: a depeg always is one of the vault's own underlying, and
      only alerts. */
  lemma {:induction false} OnlyDropsExit(exposures: Exposures, vaults: seq<VaultConfig>, states: seq<Sentinel>, cycles: seq<Cycle>, n: nat)
    requires History(exposures, states, cycles) && Configured(exposures, vaults) && n <= |cycles|
    requires forall i :: 0 <= i < |cycles| && cycles[i].Evaluated? ==> GatheredFrom(vaults, cycles[i].signals)
    ensures forall x :: x in states[n].exits ==> x.key.kind == VAULT_FLOW || x.key.kind == SHARE_PRICE
  {
    if n > 0 {
      OnlyDropsExit(exposures, vaults, states, cycles, n - 1);
      var c := cycles[n - 1];
      if c.Evaluated? {
        AllGathered(exposures, vaults, c.signals);
      }
      HistoryCycle(exposures, states, cycles, n - 1);
      CycleByDrop(exposures, states[n - 1], c);
    }
  }
}
