/** The rules of the sentinel over the signals themselves: what each rule answers to the last signal of any
    events, as a condition on the readings that came before it. */
module RuleLaws {
  import opened Wrappers
  import opened Protocols
  import opened Text
  import opened Seqs
  import opened SignalHistory
  import opened RulesEngine
  import opened EngineLaws

  // ---- The windows hold the last 120 readings ----

  /** The readings of a key that were evaluated, each under its own time or, if it has none, that of its
      evaluation. */
  function Log(events: seq<Event>, key: Key): seq<Sample> {
    if events == [] then []
    else
      var rest, e := Log(events[..|events| - 1], key), events[|events| - 1];
      if KeyOf(e.signal) != key || key in e.incidents || !e.signal.value.Num? then rest
      else
        var at := match e.signal.timestamp { case Some(t) => if t == 0 then e.now else t case None => e.now };
        rest + [Sample(e.signal.value.num, at)]
  }

  function Latest(log: seq<Sample>): seq<Sample> {
    if |log| > 120 then log[|log| - 120..] else log
  }

  /** The state after some events, from the start of the engine. */
  function After(exposures: Exposures, events: seq<Event>): State {
    Run(exposures, State(map[], map[]), events).0
  }

  lemma LatestNext(log: seq<Sample>, sample: Sample)
    ensures Appended(Latest(log), 120, sample.value, sample.timestamp) == Latest(log + [sample])
  {
    var all := log + [sample];
    if |log| > 120 {
      assert Latest(log) + [sample] == all[|log| - 120..];
    }
  }

  lemma StepWindow(exposures: Exposures, st: State, e: Event, key: Key, log: seq<Sample>)
    requires HistoryOf(st.windows, key) == Latest(log)
    ensures HistoryOf(Step(exposures, st, e).0.windows, key)
         == Latest(log + (if KeyOf(e.signal) == key && key !in e.incidents && e.signal.value.Num?
                          then [Sample(e.signal.value.num,
                                       match e.signal.timestamp { case Some(t) => if t == 0 then e.now else t case None => e.now })]
                          else []))
  {
    if KeyOf(e.signal) == key && key !in e.incidents && e.signal.value.Num? {
      var at := match e.signal.timestamp { case Some(t) => if t == 0 then e.now else t case None => e.now };
      LatestNext(log, Sample(e.signal.value.num, at));
    } else {
      assert log + [] == log;
    }
  }

  /** After any events a key's window is the end of its log. */
  lemma {:induction false} WindowIsLatest(exposures: Exposures, events: seq<Event>, key: Key)
    ensures HistoryOf(After(exposures, events).windows, key) == Latest(Log(events, key))
  {
    if events != [] {
      var n := |events| - 1;
      WindowIsLatest(exposures, events[..n], key);
      StepWindow(exposures, After(exposures, events[..n]), events[n], key, Log(events[..n], key));
      if !(KeyOf(events[n].signal) == key && key !in events[n].incidents && events[n].signal.value.Num?) {
        assert Log(events[..n], key) + [] == Log(events[..n], key);
      }
    }
  }

  // ---- What the rules compare ----

  function Within(since: int, until: int): Sample -> bool {
    (x: Sample) => since <= x.timestamp <= until
  }

  /** There are at least two positions, and these are the values at the first and the last of them. */
  predicate FirstAndLast(history: seq<Sample>, at: seq<int>, first: real, last: real) {
    && |at| >= 2 && 0 <= at[0] < |history| && 0 <= at[|at| - 1] < |history|
    && history[at[0]].value == first && history[at[|at| - 1]].value == last
  }

  /** The first and the last of at least two readings that are at most `width` old. */
  ghost predicate Compares(history: seq<Sample>, width: int, now: int, first: real, last: real) {
    exists at :: Picks(history, Within(now - width, now), at) && FirstAndLast(history, at, first, last)
  }

  lemma SameFilter(history: seq<Sample>, since: int, until: int, at: seq<int>)
    ensures Picks(history, Within(since, until), at) <==> Picks(history, InRange(since, until), at)
  {
    forall x ensures Within(since, until)(x) == InRange(since, until)(x) {}
  }

  lemma TakenEnds(history: seq<Sample>, at: seq<int>, entries: seq<Sample>)
    requires TakenAt(history, at, entries)
    ensures |entries| == |at| && (|at| >= 2 ==> FirstAndLast(history, at, entries[0].value, entries[|entries| - 1].value))
  {
  }

  lemma EndsCompared(history: seq<Sample>, width: int, now: int)
    requires Ends(history, width, now).Some?
    ensures var ends := Ends(history, width, now).value; Compares(history, width, now, ends.0.value, ends.1.value)
  {
    var at := SelectPicks(history, InRange(now - width, now));
    SameFilter(history, now - width, now, at);
    TakenEnds(history, at, ValuesInRange(history, now - width, now));
  }

  lemma ComparedEnds(history: seq<Sample>, width: int, now: int, first: real, last: real)
    requires Compares(history, width, now, first, last)
    ensures var ends := Ends(history, width, now); ends.Some? && ends.value.0.value == first && ends.value.1.value == last
  {
    var at :| Picks(history, Within(now - width, now), at) && FirstAndLast(history, at, first, last);
    SameFilter(history, now - width, now, at);
    PicksUnique(history, InRange(now - width, now), at);
    TakenEnds(history, at, ValuesInRange(history, now - width, now));
  }

  lemma EndsExactly(history: seq<Sample>, width: int, now: int)
    ensures var ends := Ends(history, width, now);
            && (ends.Some? ==> Compares(history, width, now, ends.value.0.value, ends.value.1.value))
            && forall first, last :: Compares(history, width, now, first, last) ==>
                 ends.Some? && ends.value.0.value == first && ends.value.1.value == last
  {
    if Ends(history, width, now).Some? {
      EndsCompared(history, width, now);
    }
    forall first, last | Compares(history, width, now, first, last)
      ensures var ends := Ends(history, width, now); ends.Some? && ends.value.0.value == first && ends.value.1.value == last
    {
      ComparedEnds(history, width, now, first, last);
    }
  }

  lemma QuotientExceeds(a: real, b: real, limit: real)
    requires b > 0.0
    ensures a / b > limit <==> a > limit * b
  {
    var q := a / b;
    assert q * b == a;
    if q > limit {
      assert (q - limit) * b > 0.0;
    } else {
      assert (limit - q) * b >= 0.0;
    }
  }

  /** The assets were not next to nothing half an hour ago, and have fallen by more than 15 % since. */
  ghost predicate FlowFalls(history: seq<Sample>, now: int) {
    exists first, last :: Compares(history, 1800000, now, first, last)
      && ((first >= 1.0 && first - last > 0.15 * first) || (first <= -1.0 && first - last > -0.15 * first))
  }

  /** The share price has fallen by more than 2 % in a quarter of an hour. */
  ghost predicate SharePriceFalls(history: seq<Sample>, now: int) {
    exists first, last :: Compares(history, 900000, now, first, last) && first > 0.0 && last < 0.98 * first
  }

  lemma FlowBreachExactly(history: seq<Sample>, now: int)
    ensures Exceeds(FlowDrop(history, now), TVL_DROP_EXIT_PCT) <==> FlowFalls(history, now)
  {
    EndsExactly(history, 1800000, now);
    var ends := Ends(history, TVL_WINDOW_MS, now);
    if ends.Some? {
      var first, last := ends.value.0.value, ends.value.1.value;
      if Abs(first) >= 1.0 {
        QuotientExceeds(first - last, Abs(first), 0.15);
      }
    }
  }

  lemma SharePriceBreachExactly(history: seq<Sample>, now: int)
    ensures Exceeds(SharePriceDrop(history, now), SHARE_PRICE_DROP_PCT) <==> SharePriceFalls(history, now)
  {
    EndsExactly(history, 900000, now);
    var ends := Ends(history, SHARE_PRICE_WINDOW_MS, now);
    if ends.Some? {
      var first, last := ends.value.0.value, ends.value.1.value;
      if first > 0.0 {
        QuotientExceeds(first - last, first, 0.02);
      }
    }
  }

  // ---- Breaches, over the events ----

  /** More than 3 % off the peg. */
  predicate FarOff(price: real) {
    price > 1.03 || price < 0.97
  }

  /** More than 1.5 % off the peg, but not more than 3 %. */
  predicate SomewhatOff(price: real) {
    !FarOff(price) && (price > 1.015 || price < 0.985)
  }

  function DistanceFromPeg(price: real): real {
    if price > 1.0 then price - 1.0 else 1.0 - price
  }

  /** The last event is an unsuppressed signal beyond the threshold of its rule. */
  ghost predicate EndsInBreach(events: seq<Event>) {
    events != [] &&
    var e := events[|events| - 1];
    var key := KeyOf(e.signal);
    && key !in e.incidents
    && match e.signal.kind
       case DEX_PRICE => e.signal.value.Num? && FarOff(e.signal.value.num)
       case ORACLE_PRICE => e.signal.value.Num? && FarOff(e.signal.value.num)
       case VAULT_FLOW => FlowFalls(Latest(Log(events, key)), e.now)
       case SHARE_PRICE => SharePriceFalls(Latest(Log(events, key)), e.now)
       case MAX_REDEEM => false
       case VAULT_PAUSED => false
  }

  /** How many breaches a key has had since its last price near the peg. */
  ghost function BreachesSince(events: seq<Event>, key: Key): nat {
    if events == [] then 0
    else
      var before, e := BreachesSince(events[..|events| - 1], key), events[|events| - 1];
      if KeyOf(e.signal) != key || key in e.incidents then before
      else if EndsInBreach(events) then before + 1
      else if IsPrice(key.kind) && e.signal.value.Num? then 0
      else before
  }

  function Front(events: seq<Event>): seq<Event>
    requires events != []
  {
    events[..|events| - 1]
  }

  ghost function ClassOfLast(events: seq<Event>): Class
    requires events != []
  {
    var s := events[|events| - 1].signal;
    if EndsInBreach(events) then Breach else if IsPrice(s.kind) && s.value.Num? then Reset else Neutral
  }

  /** What the engine answers to the last event. */
  function LastAnswer(exposures: Exposures, events: seq<Event>): Option<Action>
    requires events != []
  {
    Step(exposures, After(exposures, Front(events)), events[|events| - 1]).1
  }

  lemma {:induction false} ClassExactly(exposures: Exposures, events: seq<Event>)
    requires events != [] && KeyOf(events[|events| - 1].signal) !in events[|events| - 1].incidents
    ensures ClassIn(After(exposures, Front(events)), events[|events| - 1]) == ClassOfLast(events)
  {
    var n := |events| - 1;
    var e := events[n];
    var history := HistoryOf(Observed(After(exposures, events[..n]).windows, e.signal, e.now), KeyOf(e.signal));
    WindowIsLatest(exposures, events, KeyOf(e.signal));
    assert history == Latest(Log(events, KeyOf(e.signal)));
    FlowBreachExactly(history, e.now);
    SharePriceBreachExactly(history, e.now);
  }

  lemma {:induction false} StreakExactly(exposures: Exposures, events: seq<Event>, key: Key)
    ensures Streak(exposures, State(map[], map[]), events, key) == BreachesSince(events, key)
  {
    if events != [] {
      var n := |events| - 1;
      StreakExactly(exposures, events[..n], key);
      if Evaluates(events[n], key) {
        ClassExactly(exposures, events);
      }
    }
  }

  // ---- What the engine answers ----

  /** The asset is the vault's own underlying, up to letter case. */
  ghost predicate OwnUnderlying(exposures: Exposures, s: Signal) {
    && s.asset.Some? && s.asset.value != "" && s.vault.address in exposures
    && SameUpToCase(exposures[s.vault.address], s.asset.value)
  }

  lemma OwnUnderlyingExactly(exposures: Exposures, s: Signal)
    ensures IsUnderlyingToxic(exposures, s.vault.address, s.asset) <==> OwnUnderlying(exposures, s)
  {
    if s.asset.Some? && s.vault.address in exposures {
      LowerSameExactly(exposures[s.vault.address], s.asset.value);
    }
  }

  /** The answer to a price: beyond 3 %, on every second breach in a row, an EXIT, or an ALERT if the vault
      holds the token itself; beyond 1.5 %, a warning every time. */
  ghost function PriceAnswer(exposures: Exposures, s: Signal, breaches: nat): Option<Action> {
    if !s.value.Num? then None
    else
      var delta := Num(DistanceFromPeg(s.value.num));
      if FarOff(s.value.num) then
        if breaches % 2 == 1 then None
        else if OwnUnderlying(exposures, s) then Some(Action(ALERT, TOXIC_UNDERLYING_DEPEG, s.vault.address, None, s.kind, delta))
        else Some(Action(EXIT, DEPEG, s.vault.address, Some(s.vault.protocol), s.kind, delta))
      else if SomewhatOff(s.value.num) then Some(Action(ALERT, DEPEG_WARNING, s.vault.address, None, s.kind, delta))
      else None
  }

  /** The confirmation buffer before the last event holds the parity of the breaches so far. */
  lemma {:induction false} ParityBefore(exposures: Exposures, events: seq<Event>)
    requires events != []
    ensures var key := KeyOf(events[|events| - 1].signal);
            BufferIsParity(After(exposures, Front(events)).buffer, key, BreachesSince(Front(events), key))
  {
    var key := KeyOf(events[|events| - 1].signal);
    RunParity(exposures, map[], Front(events), key);
    StreakExactly(exposures, Front(events), key);
  }

  lemma {:induction false} BreachesNext(events: seq<Event>)
    requires events != [] && KeyOf(events[|events| - 1].signal) !in events[|events| - 1].incidents
    ensures var key := KeyOf(events[|events| - 1].signal);
            BreachesSince(events, key) == match ClassOfLast(events)
                                          case Breach => BreachesSince(Front(events), key) + 1
                                          case Reset => 0
                                          case Neutral => BreachesSince(Front(events), key)
  {
  }

  lemma {:induction false} PriceClassOfLast(events: seq<Event>)
    requires events != []
    requires var e := events[|events| - 1]; KeyOf(e.signal) !in e.incidents && IsPrice(e.signal.kind)
    ensures var s := events[|events| - 1].signal;
            ClassOfLast(events) == if !s.value.Num? then Neutral else if FarOff(s.value.num) then Breach else Reset
  {
  }

  /** After any events, an unsuppressed price is answered so. */
  lemma {:induction false} PriceRule(exposures: Exposures, events: seq<Event>)
    requires events != []
    requires var e := events[|events| - 1]; KeyOf(e.signal) !in e.incidents && IsPrice(e.signal.kind)
    ensures var s := events[|events| - 1].signal;
            LastAnswer(exposures, events) == PriceAnswer(exposures, s, BreachesSince(events, KeyOf(s)))
  {
    var e, front := events[|events| - 1], Front(events);
    var key := KeyOf(e.signal);
    ParityBefore(exposures, events);
    BreachesNext(events);
    PriceClassOfLast(events);
    OwnUnderlyingExactly(exposures, e.signal);
    PriceAnswered(exposures, After(exposures, front), e, BreachesSince(front, key));
  }

  /** If the value is not a number there is no answer, so the count does not matter. */
  lemma PriceAnswered(exposures: Exposures, st: State, e: Event, streak: nat)
    requires KeyOf(e.signal) !in e.incidents && IsPrice(e.signal.kind) && BufferIsParity(st.buffer, KeyOf(e.signal), streak)
    requires IsUnderlyingToxic(exposures, e.signal.vault.address, e.signal.asset) <==> OwnUnderlying(exposures, e.signal)
    ensures Step(exposures, st, e).1
         == PriceAnswer(exposures, e.signal, if e.signal.value.Num? && FarOff(e.signal.value.num) then streak + 1 else 0)
  {
  }

  lemma {:induction false} BreachCounts(events: seq<Event>)
    requires events != []
    requires KeyOf(events[|events| - 1].signal) !in events[|events| - 1].incidents
    ensures ClassOfLast(events) == Breach <==> EndsInBreach(events)
    ensures var key := KeyOf(events[|events| - 1].signal);
            EndsInBreach(events) ==> BreachesSince(events, key) == BreachesSince(Front(events), key) + 1
  {
  }

  /** An EXIT for this reason if and only if a pair of breaches is complete. */
  predicate ExitsOnPair(answer: Option<Action>, s: Signal, reason: Reason, breach: bool, count: nat) {
    && (answer.Some? <==> breach && count % 2 == 0)
    && (answer.Some? ==>
          && answer.value.value.Num?
          && answer.value == Action(EXIT, reason, s.vault.address, Some(s.vault.protocol), s.kind, answer.value.value))
  }

  function DropReason(kind: SignalType): Reason {
    if kind == VAULT_FLOW then BANK_RUN else SHARE_PRICE_DROP
  }

  /** After any events, an unsuppressed report of a vault's assets, or of its share price, exits on every
      second fall, however long ago the first was. */
  lemma {:induction false} DropRule(exposures: Exposures, events: seq<Event>)
    requires events != []
    requires var e := events[|events| - 1]; KeyOf(e.signal) !in e.incidents && e.signal.kind in {VAULT_FLOW, SHARE_PRICE}
    ensures var s := events[|events| - 1].signal;
            ExitsOnPair(LastAnswer(exposures, events), s, DropReason(s.kind), EndsInBreach(events), BreachesSince(events, KeyOf(s)))
  {
    var e, st := events[|events| - 1], After(exposures, Front(events));
    ParityBefore(exposures, events);
    BreachCounts(events);
    ClassExactly(exposures, events);
    DropAnswered(exposures, st, e, BreachesSince(Front(events), KeyOf(e.signal)), EndsInBreach(events), BreachesSince(events, KeyOf(e.signal)));
  }

  lemma DropAnswered(exposures: Exposures, st: State, e: Event, streak: nat, breach: bool, count: nat)
    requires KeyOf(e.signal) !in e.incidents && e.signal.kind in {VAULT_FLOW, SHARE_PRICE}
    requires BufferIsParity(st.buffer, KeyOf(e.signal), streak)
    requires (ClassIn(st, e) == Breach <==> breach) && (breach ==> count == streak + 1)
    ensures ExitsOnPair(Step(exposures, st, e).1, e.signal, DropReason(e.signal.kind), breach, count)
  {
  }

  /** Nothing redeemable is an EXIT at once, unless the same poll says the vault is paused. */
  lemma MaxRedeemRule(exposures: Exposures, st: State, e: Event)
    requires KeyOf(e.signal) !in e.incidents && e.signal.kind == MAX_REDEEM
    ensures Step(exposures, st, e).1
         == if (e.signal.value == Num(0.0) || e.signal.value == Big(0))
               && !exists x :: x in e.all && x.kind == VAULT_PAUSED && x.vault.address == e.signal.vault.address && x.value == Flag(true)
            then Some(Action(EXIT, MAX_REDEEM_ZERO, e.signal.vault.address, Some(e.signal.vault.protocol), MAX_REDEEM, Num(0.0)))
            else None
  {
    var vault := e.signal.vault.address;
    if PausedIn(e.all, vault) {
      var i :| 0 <= i < |e.all| && e.all[i].kind == VAULT_PAUSED && e.all[i].vault.address == vault && e.all[i].value == Flag(true);
      assert e.all[i] in e.all;
    }
  }

  /** A paused vault is an ALERT every time. */
  lemma PausedRule(exposures: Exposures, st: State, e: Event)
    requires KeyOf(e.signal) !in e.incidents && e.signal.kind == VAULT_PAUSED
    ensures Step(exposures, st, e).1
         == if e.signal.value == Flag(true) then Some(Action(ALERT, PAUSED, e.signal.vault.address, None, VAULT_PAUSED, Flag(true))) else None
  {
  }

  // ---- Two falls of the share price ----

  function PriceReport(vault: Vault, price: real, minute: nat): Event {
    var s := Signal(SHARE_PRICE, vault, None, Num(price), Some(minute * 60000));
    Event(s, [s], {}, minute * 60000)
  }

  /** 1, then 0.9 and again 0.9, a minute apart. */
  function TwoFalls(vault: Vault): seq<Event> {
    [PriceReport(vault, 1.0, 1)] + [PriceReport(vault, 0.9, 2)] + [PriceReport(vault, 0.9, 3)]
  }

  lemma LogNext(events: seq<Event>, vault: Vault, price: real, minute: nat)
    requires minute > 0
    ensures Log(events + [PriceReport(vault, price, minute)], Key(vault.address, SHARE_PRICE))
         == Log(events, Key(vault.address, SHARE_PRICE)) + [Sample(price, minute * 60000)]
  {
    assert (events + [PriceReport(vault, price, minute)])[..|events|] == events;
  }

  lemma FallsFromFirst(history: seq<Sample>, now: int)
    requires |history| >= 2 && history[0].value == 1.0 && history[|history| - 1].value == 0.9
    requires forall i :: 0 <= i < |history| ==> now - 900000 <= history[i].timestamp <= now
    ensures SharePriceFalls(history, now)
  {
    var at := seq(|history|, i => i);
    assert Picks(history, Within(now - 900000, now), at) by {
      forall i ensures i in at <==> 0 <= i < |history| && Within(now - 900000, now)(history[i]) {
        if 0 <= i < |history| { assert at[i] == i; }
      }
    }
    assert FirstAndLast(history, at, 1.0, 0.9);
    assert Compares(history, 900000, now, 1.0, 0.9);
  }

  /** The second and the third report are breaches. */
  lemma {:induction false} BothFall(vault: Vault)
    ensures EndsInBreach(Front(TwoFalls(vault))) && EndsInBreach(TwoFalls(vault))
  {
    var key, events := Key(vault.address, SHARE_PRICE), TwoFalls(vault);
    var one, two := [PriceReport(vault, 1.0, 1)], [PriceReport(vault, 1.0, 1)] + [PriceReport(vault, 0.9, 2)];
    assert [] + one == one && Front(events) == two;
    LogNext([], vault, 1.0, 1);
    LogNext(one, vault, 0.9, 2);
    LogNext(two, vault, 0.9, 3);
    FallsFromFirst(Latest(Log(two, key)), 120000);
    FallsFromFirst(Latest(Log(events, key)), 180000);
  }

  /** The second report of a price 10 % down, a minute after the first, starts an exit. */
  lemma {:induction false} TwoFallsExit(exposures: Exposures, vault: Vault)
    ensures var answer := LastAnswer(exposures, TwoFalls(vault));
            answer.Some? && answer.value.kind == EXIT && answer.value.reason == SHARE_PRICE_DROP && answer.value.vault == vault.address
  {
    var events := TwoFalls(vault);
    BothFall(vault);
    SecondBreach(vault);
    LastIsReport(vault);
    DropRule(exposures, events);
  }

  lemma LastIsReport(vault: Vault)
    ensures TwoFalls(vault)[|TwoFalls(vault)| - 1] == PriceReport(vault, 0.9, 3)
    ensures Front(TwoFalls(vault))[|Front(TwoFalls(vault))| - 1] == PriceReport(vault, 0.9, 2)
    ensures Front(Front(TwoFalls(vault))) == [PriceReport(vault, 1.0, 1)]
  {
  }

  lemma {:induction false} SecondBreach(vault: Vault)
    ensures BreachesSince(TwoFalls(vault), Key(vault.address, SHARE_PRICE)) == 2
  {
    LastIsReport(vault);
    BothFall(vault);
    NoBreachYet(vault);
    BreachCounts(Front(TwoFalls(vault)));
    BreachCounts(TwoFalls(vault));
  }

  lemma ComparesTwo(history: seq<Sample>, width: int, now: int, first: real, last: real)
    requires Compares(history, width, now, first, last)
    ensures |history| >= 2
  {
    var at :| Picks(history, Within(now - width, now), at) && FirstAndLast(history, at, first, last);
    assert at[0] in at && at[1] in at && at[0] < at[1];
  }

  /** One report has nothing to compare with. */
  lemma {:induction false} NoBreachYet(vault: Vault)
    ensures BreachesSince([PriceReport(vault, 1.0, 1)], Key(vault.address, SHARE_PRICE)) == 0
  {
    var key, one := Key(vault.address, SHARE_PRICE), [PriceReport(vault, 1.0, 1)];
    assert [] + one == one;
    LogNext([], vault, 1.0, 1);
    assert Log([], key) == [];
    var history := Latest(Log(one, key));
    assert history == [Sample(1.0, 60000)];
    forall first, last ensures !Compares(history, 900000, 60000, first, last) {
      if Compares(history, 900000, 60000, first, last) {
        ComparesTwo(history, 900000, 60000, first, last);
      }
    }
    assert !EndsInBreach(one);
    assert Front(one) == [];
  }
}
