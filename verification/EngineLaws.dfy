/** What the rules engine does over any sequence of signals: which breach triggers, and that
    vaults do not influence one another. */
module EngineLaws {
  import opened Wrappers
  import opened Seqs
  import opened SignalHistory
  import opened RulesEngine

  // ---- Every second breach triggers ----

  /** A reading beyond its exit threshold, one that resets the confirmation, or neither. */
  datatype Class = Breach | Reset | Neutral

  predicate IsPrice(kind: SignalType) {
    kind == DEX_PRICE || kind == ORACLE_PRICE
  }

  predicate Exceeds(drop: Option<real>, limit: real) {
    drop.Some? && drop.value > limit
  }

  /** Classifies a signal against the windows it has just joined. */
  function ClassOf(windows: Windows, s: Signal, now: int): Class {
    var history := HistoryOf(windows, KeyOf(s));
    if IsPrice(s.kind) then
      if !s.value.Num? then Neutral else if Abs(1.0 - s.value.num) > DEPEG_EXIT_PCT then Breach else Reset
    else if s.kind == VAULT_FLOW then
      if Exceeds(FlowDrop(history, now), TVL_DROP_EXIT_PCT) then Breach else Neutral
    else if s.kind == SHARE_PRICE then
      if Exceeds(SharePriceDrop(history, now), SHARE_PRICE_DROP_PCT) then Breach else Neutral
    else Neutral
  }

  /** The event concerns this key and is not suppressed by an incident. */
  predicate Evaluates(e: Event, key: Key) {
    KeyOf(e.signal) == key && key !in e.incidents
  }

  function ClassIn(st: State, e: Event): Class {
    ClassOf(Observed(st.windows, e.signal, e.now), e.signal, e.now)
  }

  /** How many breaches of a key were evaluated since its last reset. */
  function Streak(exposures: Exposures, st: State, events: seq<Event>, key: Key): nat {
    if events == [] then 0
    else
      var front, e := events[..|events| - 1], events[|events| - 1];
      if !Evaluates(e, key) then Streak(exposures, st, front, key)
      else match ClassIn(Run(exposures, st, front).0, e)
           case Breach => Streak(exposures, st, front, key) + 1
           case Reset => 0
           case Neutral => Streak(exposures, st, front, key)
  }

  /** An action that confirms a breach, as opposed to a warning or a report. */
  predicate Triggers(action: Option<Action>) {
    action.Some? && action.value.reason in {DEPEG, TOXIC_UNDERLYING_DEPEG, BANK_RUN, SHARE_PRICE_DROP}
  }

  /** The buffer remembers the parity of the streak. */
  ghost predicate BufferIsParity(buffer: Buffer, key: Key, streak: nat) {
    && (key in buffer <==> streak % 2 == 1)
    && (key in buffer ==> buffer[key].count == 1)
  }

  lemma PriceParity(exposures: Exposures, buffer: Buffer, s: Signal, now: int, streak: nat)
    requires BufferIsParity(buffer, KeyOf(s), streak) && s.value.Num?
    ensures var (after, action) := OnPrice(exposures, buffer, s, now);
            var breach := Abs(1.0 - s.value.num) > DEPEG_EXIT_PCT;
            var next := if breach then streak + 1 else 0;
            && BufferIsParity(after, KeyOf(s), next)
            && (Triggers(action) <==> breach && next % 2 == 0)
            && (Triggers(action) ==> (action.value.kind == ALERT <==> IsUnderlyingToxic(exposures, s.vault.address, s.asset)))
  {
  }

  lemma DropParity(buffer: Buffer, s: Signal, drop: Option<real>, limit: real, reason: Reason, now: int, streak: nat)
    requires BufferIsParity(buffer, KeyOf(s), streak) && reason in {BANK_RUN, SHARE_PRICE_DROP}
    ensures var (after, action) := OnDrop(buffer, s, drop, limit, reason, now);
            var next := if Exceeds(drop, limit) then streak + 1 else streak;
            && BufferIsParity(after, KeyOf(s), next)
            && (Triggers(action) <==> Exceeds(drop, limit) && next % 2 == 0)
            && (Triggers(action) ==> action.value.kind == EXIT)
  {
  }

  function NextStreak(st: State, e: Event, key: Key, streak: nat): nat {
    if !Evaluates(e, key) then streak
    else match ClassIn(st, e) { case Breach => streak + 1 case Reset => 0 case Neutral => streak }
  }

  /** A step on another key, or a suppressed one, leaves this key's parity alone. */
  lemma OtherParity(exposures: Exposures, st: State, e: Event, key: Key, streak: nat)
    requires BufferIsParity(st.buffer, key, streak) && !Evaluates(e, key)
    ensures BufferIsParity(Step(exposures, st, e).0.buffer, key, streak)
  {
    if KeyOf(e.signal) !in e.incidents {
      var seen := st.(windows := Observed(st.windows, e.signal, e.now));
      JudgeFrame(exposures, seen, e.signal, e.all, e.now, key);
      assert Entry(Step(exposures, st, e).0.buffer, key) == Entry(st.buffer, key);
    }
  }

  /** What one step keeps and when it triggers, for one key. */
  ghost predicate KeepsParity(exposures: Exposures, st: State, e: Event, key: Key, streak: nat) {
    var (st', action) := Step(exposures, st, e);
    && BufferIsParity(st'.buffer, key, NextStreak(st, e, key, streak))
    && (Evaluates(e, key) ==> (Triggers(action) <==> ClassIn(st, e) == Breach && NextStreak(st, e, key, streak) % 2 == 0))
    && (Evaluates(e, key) && Triggers(action) ==>
          (action.value.kind == ALERT <==> IsPrice(key.kind) && IsUnderlyingToxic(exposures, key.vault, e.signal.asset)))
  }

  lemma PriceStep(exposures: Exposures, st: State, e: Event, streak: nat)
    requires BufferIsParity(st.buffer, KeyOf(e.signal), streak)
    requires Evaluates(e, KeyOf(e.signal)) && IsPrice(e.signal.kind)
    ensures KeepsParity(exposures, st, e, KeyOf(e.signal), streak)
  {
    if e.signal.value.Num? {
      PriceParity(exposures, st.buffer, e.signal, e.now, streak);
    }
  }

  lemma FlowStep(exposures: Exposures, st: State, e: Event, streak: nat)
    requires BufferIsParity(st.buffer, KeyOf(e.signal), streak)
    requires Evaluates(e, KeyOf(e.signal)) && e.signal.kind == VAULT_FLOW
    ensures KeepsParity(exposures, st, e, KeyOf(e.signal), streak)
  {
    var history := HistoryOf(Observed(st.windows, e.signal, e.now), KeyOf(e.signal));
    DropParity(st.buffer, e.signal, FlowDrop(history, e.now), TVL_DROP_EXIT_PCT, BANK_RUN, e.now, streak);
  }

  lemma SharePriceStep(exposures: Exposures, st: State, e: Event, streak: nat)
    requires BufferIsParity(st.buffer, KeyOf(e.signal), streak)
    requires Evaluates(e, KeyOf(e.signal)) && e.signal.kind == SHARE_PRICE
    ensures KeepsParity(exposures, st, e, KeyOf(e.signal), streak)
  {
    var history := HistoryOf(Observed(st.windows, e.signal, e.now), KeyOf(e.signal));
    DropParity(st.buffer, e.signal, SharePriceDrop(history, e.now), SHARE_PRICE_DROP_PCT, SHARE_PRICE_DROP, e.now, streak);
  }

  lemma StatusStep(exposures: Exposures, st: State, e: Event, streak: nat)
    requires BufferIsParity(st.buffer, KeyOf(e.signal), streak)
    requires Evaluates(e, KeyOf(e.signal)) && e.signal.kind in {MAX_REDEEM, VAULT_PAUSED}
    ensures KeepsParity(exposures, st, e, KeyOf(e.signal), streak)
  {
  }

  lemma OtherStep(exposures: Exposures, st: State, e: Event, key: Key, streak: nat)
    requires BufferIsParity(st.buffer, key, streak) && !Evaluates(e, key)
    ensures KeepsParity(exposures, st, e, key, streak)
  {
    OtherParity(exposures, st, e, key, streak);
  }

  lemma StepParity(exposures: Exposures, st: State, e: Event, key: Key, streak: nat)
    requires BufferIsParity(st.buffer, key, streak)
    ensures KeepsParity(exposures, st, e, key, streak)
  {
    if !Evaluates(e, key) {
      OtherStep(exposures, st, e, key, streak);
    } else if IsPrice(e.signal.kind) {
      PriceStep(exposures, st, e, streak);
    } else if e.signal.kind == VAULT_FLOW {
      FlowStep(exposures, st, e, streak);
    } else if e.signal.kind == SHARE_PRICE {
      SharePriceStep(exposures, st, e, streak);
    } else {
      StatusStep(exposures, st, e, streak);
    }
  }

  lemma StreakNext(exposures: Exposures, start: State, events: seq<Event>, key: Key)
    requires events != []
    ensures var front, e := events[..|events| - 1], events[|events| - 1];
            Streak(exposures, start, events, key) == NextStreak(Run(exposures, start, front).0, e, key, Streak(exposures, start, front, key))
  {
  }

  lemma {:induction false} RunParity(exposures: Exposures, windows: Windows, events: seq<Event>, key: Key)
    ensures var start := State(map[], windows);
            BufferIsParity(Run(exposures, start, events).0.buffer, key, Streak(exposures, start, events, key))
  {
    if events != [] {
      var front := events[..|events| - 1];
      RunParity(exposures, windows, front, key);
      var start := State(map[], windows);
      StreakNext(exposures, start, events, key);
      StepParity(exposures, Run(exposures, start, front).0, events[|events| - 1], key, Streak(exposures, start, front, key));
    }
  }

  /** The signal triggers if and only if it is a breach and the `count`-th of them, for an even count. */
  ghost predicate TriggersExactly(exposures: Exposures, st: State, e: Event, count: nat) {
    var key, action := KeyOf(e.signal), Step(exposures, st, e).1;
    && (Triggers(action) <==> ClassIn(st, e) == Breach && count % 2 == 0)
    && (Triggers(action) ==>
          (action.value.kind == ALERT <==> IsPrice(key.kind) && IsUnderlyingToxic(exposures, key.vault, e.signal.asset)))
  }

  /** Some events lead from an empty confirmation buffer to this state, with so many breaches of the key
      since its last reset. */
  ghost predicate LedTo(exposures: Exposures, st: State, key: Key, streak: nat) {
    exists windows, events ::
      st == Run(exposures, State(map[], windows), events).0 && streak == Streak(exposures, State(map[], windows), events, key)
  }

  /** After any events from an empty confirmation buffer, an evaluated signal triggers exactly when it is
      a breach and completes a pair: the breaches of its key since the last reset, itself included, are
      even in number. The trigger is an ALERT exactly when a price breach hits the vault's own
      underlying, and an EXIT otherwise. */
  lemma TriggersOnEvenBreach(exposures: Exposures, st: State, e: Event, streak: nat)
    requires LedTo(exposures, st, KeyOf(e.signal), streak) && KeyOf(e.signal) !in e.incidents
    ensures TriggersExactly(exposures, st, e, streak + 1)
  {
    var key := KeyOf(e.signal);
    var windows, events :| st == Run(exposures, State(map[], windows), events).0
                           && streak == Streak(exposures, State(map[], windows), events, key);
    RunParity(exposures, windows, events, key);
    StepParity(exposures, st, e, key, streak);
  }

  /** The readings of a price key that the engine evaluated, in order. */
  function Readings(events: seq<Event>, key: Key): seq<real> {
    if events == [] then []
    else
      var e, rest := events[|events| - 1], Readings(events[..|events| - 1], key);
      if Evaluates(e, key) && e.signal.value.Num? then rest + [e.signal.value.num] else rest
  }

  /** The length of the run of off-peg readings at the end. */
  function RunLength(readings: seq<real>): nat {
    if readings == [] || !OffPeg(readings[|readings| - 1]) then 0
    else RunLength(readings[..|readings| - 1]) + 1
  }

  predicate OffPeg(reading: real) {
    Abs(1.0 - reading) > DEPEG_EXIT_PCT
  }

  lemma PriceClass(st: State, e: Event)
    requires IsPrice(e.signal.kind)
    ensures ClassIn(st, e) == if !e.signal.value.Num? then Neutral else if OffPeg(e.signal.value.num) then Breach else Reset
  {
  }

  lemma RunLengthNext(readings: seq<real>, reading: real)
    ensures RunLength(readings + [reading]) == if OffPeg(reading) then RunLength(readings) + 1 else 0
  {
    assert (readings + [reading])[..|readings|] == readings;
  }

  /** For a price key the streak is the current run of consecutive off-peg readings: any reading at
      or below the threshold starts it over. */
  lemma {:induction false} PriceStreakIsRunLength(exposures: Exposures, st: State, events: seq<Event>, key: Key)
    requires IsPrice(key.kind)
    ensures Streak(exposures, st, events, key) == RunLength(Readings(events, key))
  {
    if events != [] {
      var front, e := events[..|events| - 1], events[|events| - 1];
      PriceStreakIsRunLength(exposures, st, front, key);
      if Evaluates(e, key) {
        PriceClass(Run(exposures, st, front).0, e);
        if e.signal.value.Num? {
          RunLengthNext(Readings(front, key), e.signal.value.num);
        }
      }
    }
  }

  /** How many breaches of a key were evaluated in all. */
  function Breaches(exposures: Exposures, st: State, events: seq<Event>, key: Key): nat {
    if events == [] then 0
    else
      var front, e := events[..|events| - 1], events[|events| - 1];
      Breaches(exposures, st, front, key)
      + (if Evaluates(e, key) && ClassIn(Run(exposures, st, front).0, e) == Breach then 1 else 0)
  }

  /** For the flow and share-price keys nothing resets the count: quiet polls in between do not
      matter, and every second breach triggers. */
  lemma {:induction false} DropStreakNeverResets(exposures: Exposures, st: State, events: seq<Event>, key: Key)
    requires !IsPrice(key.kind)
    ensures Streak(exposures, st, events, key) == Breaches(exposures, st, events, key)
  {
    if events != [] {
      DropStreakNeverResets(exposures, st, events[..|events| - 1], key);
    }
  }

  /** A vault whose TVL is reported at 100, 80, 100 and 80 within four minutes. */
  function Dips(vault: Vault): seq<Event> {
    [Reported(vault, 100.0, 1), Reported(vault, 80.0, 2), Reported(vault, 100.0, 3), Reported(vault, 80.0, 4)]
  }

  function Reported(vault: Vault, tvl: real, minute: nat): Event {
    var s := Signal(VAULT_FLOW, vault, None, Num(tvl), Some(minute * 60000));
    Event(s, [s], {}, minute * 60000)
  }

  function SamplesOf(tvls: seq<real>): seq<Sample> {
    seq(|tvls|, i requires 0 <= i < |tvls| => Sample(tvls[i], (i + 1) * 60000))
  }

  lemma SameQuotient(a: real, b: real, c: real, d: real)
    requires a == b && c == d && d != 0.0
    ensures a / c == b / d
  {
  }

  lemma DipHistory(tvls: seq<real>)
    requires 2 <= |tvls| <= 4 && tvls[0] == 100.0
    ensures FlowDrop(SamplesOf(tvls), |tvls| * 60000) == Some((100.0 - tvls[|tvls| - 1]) / 100.0)
  {
    var history, now := SamplesOf(tvls), |tvls| * 60000;
    SelectAll(history, InRange(now - TVL_WINDOW_MS, now));
    var first, last := history[0], history[|tvls| - 1];
    assert Ends(history, TVL_WINDOW_MS, now) == Some((first, last));
    assert first.value == 100.0 && Abs(100.0) == 100.0;
    assert FlowDrop(history, now) == Some((first.value - last.value) / Abs(first.value));
    assert last.value == tvls[|tvls| - 1];
    SameQuotient(first.value - last.value, 100.0 - tvls[|tvls| - 1], Abs(first.value), 100.0);
  }

  lemma DipObserved(vault: Vault, tvls: seq<real>, tvl: real)
    requires |tvls| < 4
    ensures var key, minute := Key(vault.address, VAULT_FLOW), |tvls| + 1;
            forall windows: Windows :: HistoryOf(windows, key) == SamplesOf(tvls) ==>
              Observed(windows, Reported(vault, tvl, minute).signal, minute * 60000) == windows[key := SamplesOf(tvls + [tvl])]
  {
    assert SamplesOf(tvls + [tvl]) == SamplesOf(tvls) + [Sample(tvl, (|tvls| + 1) * 60000)];
  }

  lemma DipStep(exposures: Exposures, st: State, vault: Vault, tvls: seq<real>, tvl: real)
    requires var key := Key(vault.address, VAULT_FLOW);
             1 <= |tvls| < 4 && tvls[0] == 100.0 && HistoryOf(st.windows, key) == SamplesOf(tvls)
    ensures var key, now := Key(vault.address, VAULT_FLOW), (|tvls| + 1) * 60000;
            var (st', action) := Step(exposures, st, Reported(vault, tvl, |tvls| + 1));
            && st'.windows == st.windows[key := SamplesOf(tvls + [tvl])]
            && (tvl == 100.0 ==> st'.buffer == st.buffer && action == None)
            && (tvl == 80.0 && key !in st.buffer ==> st'.buffer == st.buffer[key := Confirmation(1, now)] && action == None)
            && (tvl == 80.0 && key in st.buffer && st.buffer[key].count == 1 ==> action.Some? && action.value.kind == EXIT)
  {
    DipObserved(vault, tvls, tvl);
    DipHistory(tvls + [tvl]);
  }

  /** The documented "consecutive" polls are not needed: a dip, a quiet poll that was evaluated, and
      another dip end in an EXIT. */
  lemma QuietPollDoesNotReset(exposures: Exposures, vault: Vault)
    ensures var actions := Run(exposures, State(map[], map[]), Dips(vault)).1;
            && actions[1] == None && actions[2] == None
            && actions[3].Some? && actions[3].value.kind == EXIT && actions[3].value.reason == BANK_RUN
  {
    var e := Dips(vault);
    FirstTwo(exposures, vault);
    ThirdReport(exposures, vault);
    DipStep(exposures, AfterDip(vault, [100.0, 80.0, 100.0]), vault, [100.0, 80.0, 100.0], 80.0);
    FlowReason(exposures, AfterDip(vault, [100.0, 80.0, 100.0]), e[3]);
    RunFour(exposures, State(map[], map[]), e);
  }

  lemma FlowReason(exposures: Exposures, st: State, e: Event)
    requires e.signal.kind == VAULT_FLOW
    ensures var action := Step(exposures, st, e).1; action.Some? ==> action.value.reason == BANK_RUN
  {
  }

  /** One breach seen in the second minute, and these reports. */
  function AfterDip(vault: Vault, tvls: seq<real>): State {
    var key := Key(vault.address, VAULT_FLOW);
    State(map[key := Confirmation(1, 120000)], map[key := SamplesOf(tvls)])
  }

  lemma FirstTwo(exposures: Exposures, vault: Vault)
    ensures var s1 := Step(exposures, State(map[], map[]), Dips(vault)[0]).0;
            Step(exposures, s1, Dips(vault)[1]) == (AfterDip(vault, [100.0, 80.0]), None)
  {
    FirstReport(exposures, vault);
    var s1 := State(map[], map[Key(vault.address, VAULT_FLOW) := SamplesOf([100.0])]);
    DipStep(exposures, s1, vault, [100.0], 80.0);
    assert [100.0] + [80.0] == [100.0, 80.0];
    assert Step(exposures, s1, Dips(vault)[1]).0.windows == AfterDip(vault, [100.0, 80.0]).windows;
    assert Step(exposures, s1, Dips(vault)[1]).0.buffer == AfterDip(vault, [100.0, 80.0]).buffer;
  }

  lemma ThirdReport(exposures: Exposures, vault: Vault)
    ensures Step(exposures, AfterDip(vault, [100.0, 80.0]), Dips(vault)[2]) == (AfterDip(vault, [100.0, 80.0, 100.0]), None)
  {
    DipStep(exposures, AfterDip(vault, [100.0, 80.0]), vault, [100.0, 80.0], 100.0);
    assert [100.0, 80.0] + [100.0] == [100.0, 80.0, 100.0];
    assert Step(exposures, AfterDip(vault, [100.0, 80.0]), Dips(vault)[2]).0.windows == AfterDip(vault, [100.0, 80.0, 100.0]).windows;
  }

  lemma FirstReport(exposures: Exposures, vault: Vault)
    ensures Step(exposures, State(map[], map[]), Reported(vault, 100.0, 1)).0
         == State(map[], map[Key(vault.address, VAULT_FLOW) := SamplesOf([100.0])])
  {
    DipObserved(vault, [], 100.0);
    assert [] + [100.0] == [100.0] && SamplesOf([]) == [];
  }

  lemma RunMore(exposures: Exposures, st: State, events: seq<Event>, e: Event)
    ensures var (mid, actions) := Run(exposures, st, events);
            var (end, action) := Step(exposures, mid, e);
            Run(exposures, st, events + [e]) == (end, actions + [action])
  {
    assert (events + [e])[..|events|] == events;
  }

  lemma RunFour(exposures: Exposures, st: State, e: seq<Event>)
    requires |e| == 4
    ensures var (s1, a1) := Step(exposures, st, e[0]);
            var (s2, a2) := Step(exposures, s1, e[1]);
            var (s3, a3) := Step(exposures, s2, e[2]);
            Run(exposures, st, e).1 == [a1, a2, a3, Step(exposures, s3, e[3]).1]
  {
    RunMore(exposures, st, [], e[0]);
    assert [] + [e[0]] == [e[0]];
    RunMore(exposures, st, [e[0]], e[1]);
    RunMore(exposures, st, [e[0]] + [e[1]], e[2]);
    RunMore(exposures, st, [e[0]] + [e[1]] + [e[2]], e[3]);
    assert e == [e[0]] + [e[1]] + [e[2]] + [e[3]];
  }

  // ---- Vaults do not interfere ----

  function OwnBuffer(buffer: Buffer, vault: string): Buffer {
    map k | k in buffer && k.vault == vault :: buffer[k]
  }

  function OwnWindows(windows: Windows, vault: string): Windows {
    map k | k in windows && k.vault == vault :: windows[k]
  }

  /** The part of the engine's state that belongs to one vault. */
  function Own(st: State, vault: string): State {
    State(OwnBuffer(st.buffer, vault), OwnWindows(st.windows, vault))
  }

  function OfVault(vault: string): Signal -> bool {
    (s: Signal) => s.vault.address == vault
  }

  /** The same event in a world where only this vault is configured. */
  function Narrowed(e: Event, vault: string): Event {
    Event(e.signal, Select(e.all, OfVault(vault)), (set k | k in e.incidents && k.vault == vault), e.now)
  }

  function OwnEvents(events: seq<Event>, vault: string): seq<Event> {
    if events == [] then []
    else
      var rest, e := OwnEvents(events[..|events| - 1], vault), events[|events| - 1];
      if e.signal.vault.address == vault then rest + [Narrowed(e, vault)] else rest
  }

  function OwnActions(events: seq<Event>, actions: seq<Option<Action>>, vault: string): seq<Option<Action>>
    requires |events| == |actions|
  {
    if events == [] then []
    else
      var n := |events| - 1;
      var rest := OwnActions(events[..n], actions[..n], vault);
      if events[n].signal.vault.address == vault then rest + [actions[n]] else rest
  }

  lemma PausedSeesOwn(all: seq<Signal>, vault: string)
    ensures PausedIn(Select(all, OfVault(vault)), vault) <==> PausedIn(all, vault)
  {
    SelectMembers(all, OfVault(vault));
    var own := Select(all, OfVault(vault));
    if PausedIn(all, vault) {
      var i :| 0 <= i < |all| && all[i].kind == VAULT_PAUSED && all[i].vault.address == vault && all[i].value == Flag(true);
      assert all[i] in own;
    }
    if PausedIn(own, vault) {
      var i :| 0 <= i < |own| && own[i].kind == VAULT_PAUSED && own[i].vault.address == vault && own[i].value == Flag(true);
      assert own[i] in all;
    }
  }

  function Entry(buffer: Buffer, key: Key): Option<Confirmation> {
    if key in buffer then Some(buffer[key]) else None
  }

  /** A signal changes the confirmation of its own key only. */
  lemma JudgeFrame(exposures: Exposures, st: State, s: Signal, all: seq<Signal>, now: int, key: Key)
    requires key != KeyOf(s)
    ensures Entry(Judge(exposures, st, s, all, now).0, key) == Entry(st.buffer, key)
  {
  }

  /** A judgement depends only on the key's confirmation, its window, and whether the vault is
      reported paused. */
  lemma JudgeLocal(exposures: Exposures, a: State, b: State, s: Signal, allA: seq<Signal>, allB: seq<Signal>, now: int)
    requires Entry(a.buffer, KeyOf(s)) == Entry(b.buffer, KeyOf(s))
    requires HistoryOf(a.windows, KeyOf(s)) == HistoryOf(b.windows, KeyOf(s))
    requires PausedIn(allA, s.vault.address) == PausedIn(allB, s.vault.address)
    ensures var (bufferA, actionA) := Judge(exposures, a, s, allA, now);
            var (bufferB, actionB) := Judge(exposures, b, s, allB, now);
            actionA == actionB && Entry(bufferA, KeyOf(s)) == Entry(bufferB, KeyOf(s))
  {
  }

  /** An event of another vault leaves this vault's part alone. */
  lemma OtherVaultStep(exposures: Exposures, st: State, e: Event, vault: string)
    requires e.signal.vault.address != vault
    ensures Own(Step(exposures, st, e).0, vault) == Own(st, vault)
  {
    var st' := Step(exposures, st, e).0;
    forall k: Key | k.vault == vault ensures Entry(st'.buffer, k) == Entry(st.buffer, k) {
      if KeyOf(e.signal) !in e.incidents {
        JudgeFrame(exposures, st.(windows := Observed(st.windows, e.signal, e.now)), e.signal, e.all, e.now, k);
      }
    }
    SameOwnBuffer(st'.buffer, st.buffer, vault);
    assert OwnWindows(st'.windows, vault) == OwnWindows(st.windows, vault);
  }

  lemma SameOwnBuffer(a: Buffer, b: Buffer, vault: string)
    requires forall k: Key :: k.vault == vault ==> Entry(a, k) == Entry(b, k)
    ensures OwnBuffer(a, vault) == OwnBuffer(b, vault)
  {
    forall k: Key | k.vault == vault ensures k in a <==> k in b {
      assert Entry(a, k) == Entry(b, k);
    }
    forall k: Key | k.vault == vault && k in a ensures a[k] == b[k] {
      assert Entry(a, k) == Entry(b, k);
    }
  }

  /** An event of this vault acts on its own part, and on nothing else it can see. */
  lemma OwnVaultStep(exposures: Exposures, st: State, e: Event, vault: string)
    requires e.signal.vault.address == vault
    ensures var (st', action) := Step(exposures, st, e);
            Step(exposures, Own(st, vault), Narrowed(e, vault)) == (Own(st', vault), action)
  {
    var key, own := KeyOf(e.signal), Own(st, vault);
    if key !in e.incidents {
      var seen := st.(windows := Observed(st.windows, e.signal, e.now));
      var ownSeen := own.(windows := Observed(own.windows, e.signal, e.now));
      assert HistoryOf(st.windows, key) == HistoryOf(own.windows, key);
      assert ownSeen.windows == OwnWindows(seen.windows, vault);
      PausedSeesOwn(e.all, vault);
      var all := Select(e.all, OfVault(vault));
      JudgeLocal(exposures, seen, ownSeen, e.signal, e.all, all, e.now);
      OwnJudgement(exposures, seen, ownSeen, e, all, vault);
    }
  }

  lemma OwnJudgement(exposures: Exposures, seen: State, ownSeen: State, e: Event, all: seq<Signal>, vault: string)
    requires e.signal.vault.address == vault && ownSeen.buffer == OwnBuffer(seen.buffer, vault)
    requires Entry(Judge(exposures, seen, e.signal, e.all, e.now).0, KeyOf(e.signal))
          == Entry(Judge(exposures, ownSeen, e.signal, all, e.now).0, KeyOf(e.signal))
    ensures Judge(exposures, ownSeen, e.signal, all, e.now).0
         == OwnBuffer(Judge(exposures, seen, e.signal, e.all, e.now).0, vault)
  {
    var after, ownAfter := Judge(exposures, seen, e.signal, e.all, e.now).0, Judge(exposures, ownSeen, e.signal, all, e.now).0;
    forall k ensures Entry(ownAfter, k) == Entry(OwnBuffer(after, vault), k) {
      if k != KeyOf(e.signal) {
        JudgeFrame(exposures, seen, e.signal, e.all, e.now, k);
        JudgeFrame(exposures, ownSeen, e.signal, all, e.now, k);
      }
    }
    SameBuffer(ownAfter, OwnBuffer(after, vault));
  }

  lemma SameBuffer(a: Buffer, b: Buffer)
    requires forall k :: Entry(a, k) == Entry(b, k)
    ensures a == b
  {
    forall k ensures k in a <==> k in b {
      assert Entry(a, k) == Entry(b, k);
    }
    forall k | k in a ensures a[k] == b[k] {
      assert Entry(a, k) == Entry(b, k);
    }
  }

  /** Over any sequence of polls, what the engine keeps and emits for one vault is what it would
      keep and emit if that vault's signals and incidents were all there is. */
  lemma {:induction false} NonInterference(exposures: Exposures, st: State, events: seq<Event>, vault: string)
    ensures var (end, actions) := Run(exposures, st, events);
            Run(exposures, Own(st, vault), OwnEvents(events, vault)) == (Own(end, vault), OwnActions(events, actions, vault))
  {
    if events != [] {
      var n := |events| - 1;
      var front, e := events[..n], events[n];
      NonInterference(exposures, st, front, vault);
      var (mid, actions) := Run(exposures, st, front);
      var (end, action) := Step(exposures, mid, e);
      assert (actions + [action])[..n] == actions;
      if e.signal.vault.address == vault {
        OwnVaultStep(exposures, mid, e, vault);
        var own := OwnEvents(events, vault);
        assert own[..|own| - 1] == OwnEvents(front, vault);
      } else {
        OtherVaultStep(exposures, mid, e, vault);
      }
    }
  }

  // ---- The same, poll by poll ----

  /** One call of `evaluate`: its signals, each with its instant, and the keys with an incident. */
  datatype Poll = Poll(signals: seq<Timed>, incidents: set<Key>)

  function PollEvents(polls: seq<Poll>): seq<Event> {
    if polls == [] then []
    else
      var last := polls[|polls| - 1];
      PollEvents(polls[..|polls| - 1]) + EventsOf(last.signals, last.incidents)
  }

  function TimedOf(vault: string): Timed -> bool {
    (t: Timed) => t.signal.vault.address == vault
  }

  /** The poll if only this vault were configured. */
  function OwnPoll(p: Poll, vault: string): Poll {
    Poll(Select(p.signals, TimedOf(vault)), set k | k in p.incidents && k.vault == vault)
  }

  function OwnPolls(polls: seq<Poll>, vault: string): seq<Poll> {
    seq(|polls|, i requires 0 <= i < |polls| => OwnPoll(polls[i], vault))
  }

  lemma {:induction false} OwnSignals(poll: seq<Timed>, vault: string)
    ensures Signals(Select(poll, TimedOf(vault))) == Select(Signals(poll), OfVault(vault))
  {
    if poll == [] {
      assert Signals([]) == [];
    } else {
      var own := Select(poll[1..], TimedOf(vault));
      OwnSignals(poll[1..], vault);
      assert Signals(poll)[1..] == Signals(poll[1..]);
      assert Signals([poll[0]] + own) == [poll[0].signal] + Signals(own);
    }
  }

  /** The events of some signals of a poll that consists of `all`. */
  function EventsIn(some: seq<Timed>, all: seq<Signal>, incidents: set<Key>): seq<Event> {
    seq(|some|, i requires 0 <= i < |some| => Event(some[i].signal, all, incidents, some[i].now))
  }

  lemma {:induction false} OwnEventsIn(some: seq<Timed>, all: seq<Signal>, incidents: set<Key>, vault: string)
    ensures OwnEvents(EventsIn(some, all, incidents), vault)
         == EventsIn(Select(some, TimedOf(vault)), Select(all, OfVault(vault)), set k | k in incidents && k.vault == vault)
    decreases |some|
  {
    if some != [] {
      var n := |some| - 1;
      var own := Select(some[..n], TimedOf(vault));
      var ownAll, ownIncidents := Select(all, OfVault(vault)), set k | k in incidents && k.vault == vault;
      OwnEventsIn(some[..n], all, incidents, vault);
      SelectLast(some, TimedOf(vault));
      assert EventsIn(some, all, incidents)[..n] == EventsIn(some[..n], all, incidents);
      assert EventsIn(own + [some[n]], ownAll, ownIncidents)
          == EventsIn(own, ownAll, ownIncidents) + [Event(some[n].signal, ownAll, ownIncidents, some[n].now)];
    }
  }

  lemma {:induction false} OwnEventsAppend(a: seq<Event>, b: seq<Event>, vault: string)
    ensures OwnEvents(a + b, vault) == OwnEvents(a, vault) + OwnEvents(b, vault)
    decreases |b|
  {
    if b == [] {
      assert a + b == a;
    } else {
      assert (a + b)[..|a + b| - 1] == a + b[..|b| - 1];
      OwnEventsAppend(a, b[..|b| - 1], vault);
    }
  }

  /** A vault's events are those of its own polls. */
  lemma {:induction false} OwnPollEvents(polls: seq<Poll>, vault: string)
    ensures OwnEvents(PollEvents(polls), vault) == PollEvents(OwnPolls(polls, vault))
  {
    if polls != [] {
      var n := |polls| - 1;
      var last := polls[n];
      OwnPollEvents(polls[..n], vault);
      OwnEventsAppend(PollEvents(polls[..n]), EventsOf(last.signals, last.incidents), vault);
      OneOwnPoll(last, vault);
      assert OwnPolls(polls, vault)[..n] == OwnPolls(polls[..n], vault);
    }
  }

  lemma OneOwnPoll(p: Poll, vault: string)
    ensures OwnEvents(EventsOf(p.signals, p.incidents), vault) == EventsOf(OwnPoll(p, vault).signals, OwnPoll(p, vault).incidents)
  {
    OwnSignals(p.signals, vault);
    OwnEventsIn(p.signals, Signals(p.signals), p.incidents, vault);
    assert EventsOf(p.signals, p.incidents) == EventsIn(p.signals, Signals(p.signals), p.incidents);
  }

  function ActionOf(vault: string): Action -> bool {
    (a: Action) => a.vault == vault
  }

  /** An action names the vault of the signal it comes from. */
  lemma ActionNamesVault(exposures: Exposures, st: State, e: Event)
    ensures var action := Step(exposures, st, e).1; action.Some? ==> action.value.vault == e.signal.vault.address
  {
  }

  lemma {:induction false} OwnActionsPresent(exposures: Exposures, st: State, events: seq<Event>, vault: string)
    ensures var actions := Run(exposures, st, events).1;
            Present(OwnActions(events, actions, vault)) == Select(Present(actions), ActionOf(vault))
  {
    if events != [] {
      var n := |events| - 1;
      var (mid, actions) := Run(exposures, st, events[..n]);
      var action := Step(exposures, mid, events[n]).1;
      OwnActionsPresent(exposures, st, events[..n], vault);
      ActionNamesVault(exposures, mid, events[n]);
      assert (actions + [action])[..n] == actions;
      var own := OwnActions(events[..n], actions, vault);
      assert (own + [action])[..|own|] == own;
      if action.Some? {
        SelectAppend(Present(actions), [action.value], ActionOf(vault));
      }
    }
  }

  /** Over any polls, what `evaluate` emits for one vault, and what the engine then keeps for it, is what
      it would emit and keep if it were only ever given that vault's signals and incidents. */
  lemma VaultAlone(exposures: Exposures, st: State, polls: seq<Poll>, vault: string)
    ensures var (end, actions) := Run(exposures, st, PollEvents(polls));
            var (ownEnd, ownActions) := Run(exposures, Own(st, vault), PollEvents(OwnPolls(polls, vault)));
            ownEnd == Own(end, vault) && Present(ownActions) == Select(Present(actions), ActionOf(vault))
  {
    NonInterference(exposures, st, PollEvents(polls), vault);
    OwnPollEvents(polls, vault);
    OwnActionsPresent(exposures, st, PollEvents(polls), vault);
  }
}
