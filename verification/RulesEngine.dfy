/** sentinel/rules-engine.ts: thresholds, two-poll confirmation and incident suppression. */
module RulesEngine {
  import opened Wrappers
  import opened Protocols
  import opened Text
  import opened SignalHistory

  // sentinel/config.ts
  const DEPEG_EXIT_PCT := 0.03
  const DEPEG_WARN_PCT := 0.015
  const TVL_DROP_EXIT_PCT := 0.15
  const SHARE_PRICE_DROP_PCT := 0.02
  const CONSECUTIVE_POLLS_REQUIRED := 2
  const TVL_WINDOW_MS := 1800000
  const SHARE_PRICE_WINDOW_MS := 900000
  const MAX_ENTRIES := 120

  datatype SignalType = DEX_PRICE | ORACLE_PRICE | VAULT_FLOW | MAX_REDEEM | VAULT_PAUSED | SHARE_PRICE
  datatype SignalValue = Num(num: real) | Big(big: int) | Flag(flag: bool)
  datatype Vault = Vault(address: string, protocol: Protocol)
  datatype Signal = Signal(kind: SignalType, vault: Vault, asset: Option<string>, value: SignalValue, timestamp: Option<int>)

  datatype ActionType = EXIT | ALERT
  datatype Reason =
    DEPEG | DEPEG_WARNING | BANK_RUN | MAX_REDEEM_ZERO | PAUSED | SHARE_PRICE_DROP | TOXIC_UNDERLYING_DEPEG
  datatype Action = Action(kind: ActionType, reason: Reason, vault: string, protocol: Option<Protocol>,
                           signalType: SignalType, value: SignalValue)

  // ---- Keys ----

  /** Incidents, windows and confirmations are all kept per vault and signal type. */
  datatype Key = Key(vault: string, kind: SignalType)

  function TypeName(kind: SignalType): string {
    match kind
    case DEX_PRICE => "DEX_PRICE"
    case ORACLE_PRICE => "ORACLE_PRICE"
    case VAULT_FLOW => "VAULT_FLOW"
    case MAX_REDEEM => "MAX_REDEEM"
    case VAULT_PAUSED => "VAULT_PAUSED"
    case SHARE_PRICE => "SHARE_PRICE"
  }

  /** The text the source uses as the key. */
  function KeyText(k: Key): string {
    k.vault + ":" + TypeName(k.kind)
  }

  function KeyOf(s: Signal): Key {
    Key(s.vault.address, s.kind)
  }

  /** The text determines the pair, whatever the address looks like. */
  lemma KeyTextInjective(a: Key, b: Key)
    requires KeyText(a) == KeyText(b)
    ensures a == b
  {
    var x, y := TypeName(a.kind), TypeName(b.kind);
    assert ':' !in x && ':' !in y;
    var t := KeyText(a);
    assert t[|t| - |x|..] == x && t[|t| - |y|..] == y;
    assert t[|t| - |x| - 1] == ':' && t[|t| - |y| - 1] == ':';
    assert x == y;
    assert t[..|t| - |x| - 1] == a.vault && t[..|t| - |y| - 1] == b.vault;
  }

  // ---- One evaluation, as a function of the state ----

  datatype Confirmation = Confirmation(count: nat, firstSeen: int)
  type Buffer = map<Key, Confirmation>
  type Windows = map<Key, seq<Sample>>
  datatype State = State(buffer: Buffer, windows: Windows)

  /** The underlying symbol of each configured vault. */
  type Exposures = map<string, string>

  function Abs(x: real): real {
    if x < 0.0 then -x else x
  }

  /** `confirmConsecutive`: the first breach only opens an entry. */
  function Confirmed(buffer: Buffer, key: Key, now: int): (Buffer, bool) {
    if key !in buffer then (buffer[key := Confirmation(1, now)], false)
    else
      var count := buffer[key].count + 1;
      (buffer[key := buffer[key].(count := count)], count >= CONSECUTIVE_POLLS_REQUIRED)
  }

  predicate IsUnderlyingToxic(exposures: Exposures, vault: string, asset: Option<string>) {
    && asset.Some? && asset.value != "" && vault in exposures
    && ToLower(exposures[vault]) == ToLower(asset.value)
  }

  function Exit(s: Signal, reason: Reason, value: real): Action {
    Action(EXIT, reason, s.vault.address, Some(s.vault.protocol), s.kind, Num(value))
  }

  function Alert(s: Signal, reason: Reason, value: SignalValue): Action {
    Action(ALERT, reason, s.vault.address, None, s.kind, value)
  }

  function OnPrice(exposures: Exposures, buffer: Buffer, s: Signal, now: int): (Buffer, Option<Action>) {
    if !s.value.Num? then (buffer, None)
    else
      var pegDelta := Abs(1.0 - s.value.num);
      if pegDelta > DEPEG_EXIT_PCT then
        var (counted, confirmed) := Confirmed(buffer, KeyOf(s), now);
        if !confirmed then (counted, None)
        else if IsUnderlyingToxic(exposures, s.vault.address, s.asset)
        then (counted - {KeyOf(s)}, Some(Alert(s, TOXIC_UNDERLYING_DEPEG, Num(pegDelta))))
        else (counted - {KeyOf(s)}, Some(Exit(s, DEPEG, pegDelta)))
      else if pegDelta > DEPEG_WARN_PCT
      then (buffer - {KeyOf(s)}, Some(Alert(s, DEPEG_WARNING, Num(pegDelta))))
      else (buffer - {KeyOf(s)}, None)
  }

  function HistoryOf(windows: Windows, key: Key): seq<Sample> {
    if key in windows then windows[key] else []
  }

  /** The first and last sample of a window, if it has two. */
  function Ends(history: seq<Sample>, width: int, now: int): Option<(Sample, Sample)> {
    var entries := ValuesInRange(history, now - width, now);
    if |entries| < 2 then None else Some((entries[0], entries[|entries| - 1]))
  }

  function FlowDrop(history: seq<Sample>, now: int): Option<real> {
    match Ends(history, TVL_WINDOW_MS, now)
    case None => None
    case Some((earliest, latest)) =>
      if Abs(earliest.value) < 1.0 then None
      else Some((earliest.value - latest.value) / Abs(earliest.value))
  }

  function SharePriceDrop(history: seq<Sample>, now: int): Option<real> {
    match Ends(history, SHARE_PRICE_WINDOW_MS, now)
    case None => None
    case Some((earliest, latest)) =>
      if earliest.value <= 0.0 then None
      else Some((earliest.value - latest.value) / earliest.value)
  }

  function OnDrop(buffer: Buffer, s: Signal, drop: Option<real>, limit: real, reason: Reason, now: int)
      : (Buffer, Option<Action>) {
    if drop.None? || drop.value <= limit then (buffer, None)
    else
      var (counted, confirmed) := Confirmed(buffer, KeyOf(s), now);
      if confirmed then (counted - {KeyOf(s)}, Some(Exit(s, reason, drop.value))) else (counted, None)
  }

  /** The poll also reports this vault as paused. */
  predicate PausedIn(all: seq<Signal>, vault: string) {
    exists i :: 0 <= i < |all| && all[i].kind == VAULT_PAUSED && all[i].vault.address == vault && all[i].value == Flag(true)
  }

  function OnMaxRedeem(s: Signal, all: seq<Signal>): Option<Action> {
    if s.value != Num(0.0) && s.value != Big(0) then None
    else if PausedIn(all, s.vault.address) then None
    else Some(Exit(s, MAX_REDEEM_ZERO, 0.0))
  }

  function OnPaused(s: Signal): Option<Action> {
    if s.value != Flag(true) then None else Some(Alert(s, PAUSED, Flag(true)))
  }

  /** A numeric signal joins its window under its own time, or the current one if it has none. */
  function Observed(windows: Windows, s: Signal, now: int): Windows {
    if !s.value.Num? then windows
    else
      var at := if s.timestamp.Some? && s.timestamp.value != 0 then s.timestamp.value else now;
      windows[KeyOf(s) := Appended(HistoryOf(windows, KeyOf(s)), MAX_ENTRIES, s.value.num, at)]
  }

  function Judge(exposures: Exposures, st: State, s: Signal, all: seq<Signal>, now: int)
      : (Buffer, Option<Action>) {
    var history := HistoryOf(st.windows, KeyOf(s));
    match s.kind
    case DEX_PRICE => OnPrice(exposures, st.buffer, s, now)
    case ORACLE_PRICE => OnPrice(exposures, st.buffer, s, now)
    case VAULT_FLOW => OnDrop(st.buffer, s, FlowDrop(history, now), TVL_DROP_EXIT_PCT, BANK_RUN, now)
    case SHARE_PRICE => OnDrop(st.buffer, s, SharePriceDrop(history, now), SHARE_PRICE_DROP_PCT, SHARE_PRICE_DROP, now)
    case MAX_REDEEM => (st.buffer, OnMaxRedeem(s, all))
    case VAULT_PAUSED => (st.buffer, OnPaused(s))
  }

  /** One signal of a poll: the signal, the whole poll it came in, the keys with an active
      incident, and the time. */
  datatype Event = Event(signal: Signal, all: seq<Signal>, incidents: set<Key>, now: int)

  function Step(exposures: Exposures, st: State, e: Event): (State, Option<Action>) {
    if KeyOf(e.signal) in e.incidents then (st, None)
    else
      var seen := st.(windows := Observed(st.windows, e.signal, e.now));
      var (buffer, action) := Judge(exposures, seen, e.signal, e.all, e.now);
      (seen.(buffer := buffer), action)
  }

  function Run(exposures: Exposures, st: State, events: seq<Event>): (r: (State, seq<Option<Action>>))
    ensures |r.1| == |events|
  {
    if events == [] then (st, [])
    else
      var (mid, actions) := Run(exposures, st, events[..|events| - 1]);
      var (after, action) := Step(exposures, mid, events[|events| - 1]);
      (after, actions + [action])
  }

  /** A signal and the instant at which it is evaluated. */
  datatype Timed = Timed(signal: Signal, now: int)

  function Signals(poll: seq<Timed>): seq<Signal> {
    seq(|poll|, i requires 0 <= i < |poll| => poll[i].signal)
  }

  function EventsOf(poll: seq<Timed>, incidents: set<Key>): seq<Event> {
    seq(|poll|, i requires 0 <= i < |poll| => Event(poll[i].signal, Signals(poll), incidents, poll[i].now))
  }

  function Present(actions: seq<Option<Action>>): seq<Action> {
    if actions == [] then []
    else
      var rest := Present(actions[..|actions| - 1]);
      match actions[|actions| - 1] { case Some(a) => rest + [a] case None => rest }
  }

  /** The rolling windows, shared between the worker and the engine. */
  class SignalWindows {
    var histories: Windows

    constructor ()
      ensures histories == map[]
    {
      histories := map[];
    }
  }

  class RulesEngine {
    var confirmationBuffer: Buffer
    const exposures: Exposures

    constructor (exposures: Exposures)
      ensures confirmationBuffer == map[] && this.exposures == exposures
    {
      confirmationBuffer := map[];
      this.exposures := exposures;
    }

    /** The instants are the clock's: it may move on from one signal to the next. */
    method Evaluate(poll: seq<Timed>, windows: SignalWindows, incidents: set<Key>) returns (actions: seq<Action>)
      modifies this`confirmationBuffer, windows
      ensures var (st, outcomes) := Run(exposures, State(old(confirmationBuffer), old(windows.histories)),
                                        EventsOf(poll, incidents));
              State(confirmationBuffer, windows.histories) == st && actions == Present(outcomes)
    {
      actions := [];
      ghost var events := EventsOf(poll, incidents);
      ghost var start := State(confirmationBuffer, windows.histories);
      for i := 0 to |poll|
        invariant var (st, outcomes) := Run(exposures, start, events[..i]);
                  State(confirmationBuffer, windows.histories) == st && actions == Present(outcomes)
      {
        var signal, now := poll[i].signal, poll[i].now;
        assert events[..i + 1][..i] == events[..i] && events[..i + 1][i] == Event(signal, Signals(poll), incidents, now);
        ghost var outcomes := Run(exposures, start, events[..i]).1;
        var action := None;
        if KeyOf(signal) !in incidents {
          windows.histories := Observed(windows.histories, signal, now);
          action := this.EvaluateSignal(signal, Signals(poll), windows, now);
          if action.Some? {
            actions := actions + [action.value];
          }
        }
        assert (outcomes + [action])[..i] == outcomes;
      }
      assert events[..|poll|] == events;
    }

    method EvaluateSignal(s: Signal, all: seq<Signal>, windows: SignalWindows, now: int) returns (action: Option<Action>)
      modifies this`confirmationBuffer
      ensures (confirmationBuffer, action)
           == Judge(exposures, State(old(confirmationBuffer), windows.histories), s, all, now)
    {
      match s.kind {
        case DEX_PRICE => action := EvaluatePrice(s, now);
        case ORACLE_PRICE => action := EvaluatePrice(s, now);
        case VAULT_FLOW => action := EvaluateDrop(s, FlowDrop(HistoryOf(windows.histories, KeyOf(s)), now), TVL_DROP_EXIT_PCT, BANK_RUN, now);
        case SHARE_PRICE => action := EvaluateDrop(s, SharePriceDrop(HistoryOf(windows.histories, KeyOf(s)), now), SHARE_PRICE_DROP_PCT, SHARE_PRICE_DROP, now);
        case MAX_REDEEM => action := OnMaxRedeem(s, all);
        case VAULT_PAUSED => action := OnPaused(s);
      }
    }

    method EvaluatePrice(s: Signal, now: int) returns (action: Option<Action>)
      modifies this`confirmationBuffer
      ensures (confirmationBuffer, action) == OnPrice(exposures, old(confirmationBuffer), s, now)
    {
      action := None;
      if !s.value.Num? { return; }
      var pegDelta := Abs(1.0 - s.value.num);
      if pegDelta > DEPEG_EXIT_PCT {
        var confirmed := ConfirmConsecutive(KeyOf(s), now);
        if confirmed {
          confirmationBuffer := confirmationBuffer - {KeyOf(s)};
          if IsUnderlyingToxic(exposures, s.vault.address, s.asset) {
            return Some(Alert(s, TOXIC_UNDERLYING_DEPEG, Num(pegDelta)));
          }
          return Some(Exit(s, DEPEG, pegDelta));
        }
      } else {
        confirmationBuffer := confirmationBuffer - {KeyOf(s)};
        if pegDelta > DEPEG_WARN_PCT {
          return Some(Alert(s, DEPEG_WARNING, Num(pegDelta)));
        }
      }
    }

    /** The common part of the vault-flow and share-price evaluators. */
    method EvaluateDrop(s: Signal, drop: Option<real>, limit: real, reason: Reason, now: int) returns (action: Option<Action>)
      modifies this`confirmationBuffer
      ensures (confirmationBuffer, action) == OnDrop(old(confirmationBuffer), s, drop, limit, reason, now)
    {
      action := None;
      if drop.Some? && drop.value > limit {
        var confirmed := ConfirmConsecutive(KeyOf(s), now);
        if confirmed {
          confirmationBuffer := confirmationBuffer - {KeyOf(s)};
          return Some(Exit(s, reason, drop.value));
        }
      }
    }

    method ConfirmConsecutive(key: Key, now: int) returns (confirmed: bool)
      modifies this`confirmationBuffer
      ensures (confirmationBuffer, confirmed) == Confirmed(old(confirmationBuffer), key, now)
    {
      if key !in confirmationBuffer {
        confirmationBuffer := confirmationBuffer[key := Confirmation(1, now)];
        return false;
      }
      var entry := confirmationBuffer[key].(count := confirmationBuffer[key].count + 1);
      confirmationBuffer := confirmationBuffer[key := entry];
      return entry.count >= CONSECUTIVE_POLLS_REQUIRED;
    }
  }
}
