/** lib/redis/idempotency.ts: run a handler once per key, by a cached result and a short lock. */
module Idempotency {
  import opened Wrappers
  import opened Text
  import opened Seqs
  import opened Store

  datatype Error = Busy | HandlerThrew

  /** How a handler ends. `Undefined` is a result JSON has no text for: it is stored as an empty
      text, which reads as "nothing cached". Other results have a non-empty text. */
  datatype Outcome = Value(json: string) | Undefined | Throws

  /** The part of a client's key that is used: trimmed, and cut at 128 characters. */
  function SafeKey(key: string): (safe: string)
    ensures |safe| <= 128
  {
    var trimmed := Trim(key);
    if |trimmed| > 128 then trimmed[..128] else trimmed
  }

  function BuildKey(userId: string, key: string): string {
    "transfer:idem:" + userId + ":" + SafeKey(key)
  }

  function LockOf(fullKey: string): string {
    fullKey + ":lock"
  }

  lemma LockIsAnotherKey(fullKey: string)
    ensures LockOf(fullKey) != fullKey
  {
    assert |LockOf(fullKey)| == |fullKey| + 5;
  }

  /** What the first read of a call finds: a non-empty text. */
  function Cached(plain: Plain, fullKey: string, now: int): Option<string> {
    match Lookup(plain, fullKey, now)
    case Some(text) => if text != "" then Some(text) else None
    case None => None
  }

  function StoredText(outcome: Outcome): string {
    if outcome.Value? then outcome.json else ""
  }

  /** One whole call, its store operations at the times given. `parses` says whether a cached text
      is JSON; one that is not is deleted and the handler runs again. */
  method WithIdempotencyKey(store: MemoryStore, userId: string, key: string, ttl: nat, lockTtl: nat, parses: string -> bool,
                            outcome: Outcome, readAt: int, lockAt: int, storeAt: int)
      returns (r: Result<Outcome, Error>, ran: bool)
    requires outcome.Value? ==> outcome.json != ""
    modifies store`plain
    ensures var fullKey := BuildKey(userId, key);
            var before := old(store.plain);
            var cached := Cached(before, fullKey, readAt);
            var swept := Swept(before, fullKey, readAt);
            var cleared := if cached.Some? then swept - {fullKey} else swept;
            var (locked, done) := PutIfAbsent(cleared, LockOf(fullKey), "1", lockTtl, lockAt);
            if cached.Some? && parses(cached.value) then
              r == Ok(Value(cached.value)) && !ran && store.plain == swept
            else if !done then
              r == Err(Busy) && !ran && store.plain == cleared
            else
              && ran && r == (if outcome.Throws? then Err(HandlerThrew) else Ok(outcome))
              && store.plain == (if outcome.Throws? then locked
                                 else Put(locked, fullKey, StoredText(outcome), ttl, storeAt)) - {LockOf(fullKey)}
  {
    var fullKey := BuildKey(userId, key);
    var cached := store.Get(fullKey, readAt);
    if cached.Some? && cached.value != "" {
      if parses(cached.value) {
        return Ok(Value(cached.value)), false;
      }
      store.Del(fullKey);
    }
    var acquired := store.SetNX(LockOf(fullKey), "1", lockTtl, lockAt);
    if !acquired {
      return Err(Busy), false;
    }
    if !outcome.Throws? {
      store.Set(fullKey, StoredText(outcome), ttl, storeAt);
    }
    store.Del(LockOf(fullKey));
    return if outcome.Throws? then Err(HandlerThrew) else Ok(outcome), true;
  }

  // ---- Any number of calls with one key, interleaved at their store operations; the two entries of
  //      the key are used by nobody else ----

  /** Where a call is. `seen`: how many results had been stored when it read and missed. `until`:
      the last millisecond of its lock. */
  datatype Phase =
    | Missed(seen: nat, readAt: int)
    | Running(seen: nat, readAt: int, until: int)
    | Unlocking(until: int)
    | Replied(json: string)
    | Rejected
    | Finished

  /** `Elsewhere`: calls with other keys leave the rest of the store like this. */
  datatype Action =
    | Tick(ms: nat)
    | Read(call: nat)
    | Lock(call: nat)
    | Finish(call: nat, outcome: Outcome)
    | Unlock(call: nat)
    | Elsewhere(plain: Plain)

  datatype Save = Save(text: string, at: int)

  /** `saves`: every result stored so far, oldest first. */
  datatype State = State(plain: Plain, now: int, calls: map<nat, Phase>, saves: seq<Save>)

  datatype Setup = Setup(fullKey: string, ttl: nat, lockTtl: nat)

  /** The entries a key uses: its result and its lock. */
  predicate IsSlot(fullKey: string, k: string) {
    k == fullKey || k == LockOf(fullKey)
  }

  /** `theirs`, but with the two entries of the key as in `mine`. */
  function Beside(fullKey: string, mine: Plain, theirs: Plain): Plain {
    map k | k in mine.Keys + theirs.Keys && (if IsSlot(fullKey, k) then k in mine else k in theirs) ::
      if IsSlot(fullKey, k) then mine[k] else theirs[k]
  }

  function Step(u: Setup, s: State, a: Action): State {
    match a
    case Tick(ms) => s.(now := s.now + ms)
    case Read(call) =>
      if call in s.calls then s
      else
        var cached := Cached(s.plain, u.fullKey, s.now);
        s.(plain := Swept(s.plain, u.fullKey, s.now),
           calls := s.calls[call := if cached.Some? then Replied(cached.value) else Missed(|s.saves|, s.now)])
    case Lock(call) =>
      if call !in s.calls || !s.calls[call].Missed? then s
      else
        var (plain, done) := PutIfAbsent(s.plain, LockOf(u.fullKey), "1", u.lockTtl, s.now);
        s.(plain := plain,
           calls := s.calls[call := if done then Running(s.calls[call].seen, s.calls[call].readAt, s.now + u.lockTtl * 1000)
                                    else Rejected])
    case Finish(call, outcome) =>
      if call !in s.calls || !s.calls[call].Running? then s
      else if outcome.Throws? then s.(calls := s.calls[call := Unlocking(s.calls[call].until)])
      else
        State(Put(s.plain, u.fullKey, StoredText(outcome), u.ttl, s.now), s.now,
              s.calls[call := Unlocking(s.calls[call].until)], s.saves + [Save(StoredText(outcome), s.now)])
    case Unlock(call) =>
      if call !in s.calls || !s.calls[call].Unlocking? then s
      else s.(plain := s.plain - {LockOf(u.fullKey)}, calls := s.calls[call := Finished])
    case Elsewhere(plain) => s.(plain := Beside(u.fullKey, s.plain, plain))
  }

  function Run(u: Setup, start: int, actions: seq<Action>): State {
    if actions == [] then State(map[], start, map[], [])
    else Step(u, Run(u, start, actions[..|actions| - 1]), actions[|actions| - 1])
  }

  /** The four steps of a new call, one after the other with the given pauses. */
  function WholeCall(u: Setup, s: State, call: nat, outcome: Outcome, a: nat, b: nat, c: nat): State {
    var read := Step(u, Step(u, s, Read(call)), Tick(a));
    var locked := Step(u, Step(u, read, Lock(call)), Tick(b));
    var finished := Step(u, Step(u, locked, Finish(call, outcome)), Tick(c));
    Step(u, finished, Unlock(call))
  }

  /** They leave in the store, and tell the caller, what one `withIdempotencyKey` does. */
  lemma WholeCallExact(u: Setup, s: State, call: nat, outcome: Outcome, a: nat, b: nat, c: nat)
    requires call !in s.calls
    ensures var s' := WholeCall(u, s, call, outcome, a, b, c);
            var cached := Cached(s.plain, u.fullKey, s.now);
            var swept := Swept(s.plain, u.fullKey, s.now);
            var (locked, done) := PutIfAbsent(swept, LockOf(u.fullKey), "1", u.lockTtl, s.now + a);
            call in s'.calls &&
            if cached.Some? then s'.calls[call] == Replied(cached.value) && s'.plain == swept && s'.saves == s.saves
            else if !done then s'.calls[call] == Rejected && s'.plain == swept && s'.saves == s.saves
            else
              && s'.calls[call] == Finished
              && s'.plain == (if outcome.Throws? then locked
                              else Put(locked, u.fullKey, StoredText(outcome), u.ttl, s.now + a + b)) - {LockOf(u.fullKey)}
              && s'.saves == s.saves + (if outcome.Throws? then [] else [Save(StoredText(outcome), s.now + a + b)])
  {
  }

  /** A call between taking its lock and giving it back. */
  predicate Inside(s: State, call: nat) {
    call in s.calls && (s.calls[call].Running? || s.calls[call].Unlocking?)
  }

  /** Runs are shorter than the lock: the clock does not pass the lock of a call still inside. */
  ghost predicate Timely(u: Setup, start: int, actions: seq<Action>) {
    forall i, call :: 0 <= i < |actions| && actions[i].Tick? && Inside(Run(u, start, actions[..i]), call) ==>
      Run(u, start, actions[..i]).now + actions[i].ms <= Run(u, start, actions[..i]).calls[call].until
  }

  function SaveItem(u: Setup, save: Save): Item {
    Item(save.text, if u.ttl != 0 then Some(save.at + u.ttl * 1000) else None)
  }

  /** A stored result can still be read. */
  predicate Fresh(u: Setup, save: Save, now: int) {
    u.ttl == 0 || now <= save.at + u.ttl * 1000
  }

  /** The slot holds the last result stored, until it expires. */
  ghost predicate SlotKept(u: Setup, s: State) {
    && s.now > 0
    && (s.saves == [] ==> u.fullKey !in s.plain)
    && (u.fullKey in s.plain ==> s.saves != [] && s.plain[u.fullKey] == SaveItem(u, s.saves[|s.saves| - 1]))
    && (s.saves != [] && Fresh(u, s.saves[|s.saves| - 1], s.now) ==> u.fullKey in s.plain)
  }

  ghost predicate InTimeOrder(saves: seq<Save>, now: int) {
    && (forall i :: 0 <= i < |saves| ==> 0 < saves[i].at <= now)
    && (forall i, j :: 0 <= i < j < |saves| ==> saves[i].at <= saves[j].at)
  }

  /** A read at `readAt` that saw `seen` results missed for a reason: nothing stored, an undefined
      result, or one that had expired. */
  predicate MissExplained(u: Setup, saves: seq<Save>, seen: nat, readAt: int, now: int) {
    && seen <= |saves| && readAt <= now
    && (seen == 0 || saves[seen - 1].text == "" || !Fresh(u, saves[seen - 1], readAt))
  }

  predicate PhaseExplained(u: Setup, s: State, p: Phase) {
    p.Missed? || p.Running? ==> MissExplained(u, s.saves, p.seen, p.readAt, s.now)
  }

  ghost predicate MissesExplained(u: Setup, s: State) {
    forall c :: c in s.calls ==> PhaseExplained(u, s, s.calls[c])
  }

  /** A read replies with the last stored result exactly when there is one, defined and not
      expired; otherwise its miss is explained. */
  lemma ReadFinds(u: Setup, s: State)
    requires SlotKept(u, s) && InTimeOrder(s.saves, s.now)
    ensures var n := |s.saves|;
            var cached := Cached(s.plain, u.fullKey, s.now);
            && (cached.Some? <==> n > 0 && s.saves[n - 1].text != "" && Fresh(u, s.saves[n - 1], s.now))
            && (cached.Some? ==> cached.value == s.saves[n - 1].text)
            && (cached.None? ==> MissExplained(u, s.saves, n, s.now, s.now))
  {
    var n := |s.saves|;
    if n > 0 {
      assert s.saves[n - 1].at > 0;
      assert Live(SaveItem(u, s.saves[n - 1]), s.now) <==> Fresh(u, s.saves[n - 1], s.now);
    }
  }

  lemma FinishSlotKept(u: Setup, s: State, call: nat, outcome: Outcome)
    requires SlotKept(u, s) && InTimeOrder(s.saves, s.now)
    requires call in s.calls && s.calls[call].Running? && !outcome.Throws?
    ensures var s' := Step(u, s, Finish(call, outcome)); SlotKept(u, s') && InTimeOrder(s'.saves, s'.now)
  {
  }

  /** A step that stores nothing: the slot is as it was, or swept after expiring. */
  lemma QuietSlotKept(u: Setup, s: State, s': State)
    requires SlotKept(u, s) && InTimeOrder(s.saves, s.now) && s.now <= s'.now && s'.saves == s.saves
    requires u.fullKey in s'.plain ==> u.fullKey in s.plain && s'.plain[u.fullKey] == s.plain[u.fullKey]
    requires u.fullKey in s.plain && u.fullKey !in s'.plain ==> !Live(s.plain[u.fullKey], s'.now)
    ensures SlotKept(u, s') && InTimeOrder(s'.saves, s'.now)
  {
    if s.saves != [] {
      assert s.saves[|s.saves| - 1].at > 0;
    }
  }

  lemma StepSlotKept(u: Setup, s: State, a: Action)
    requires SlotKept(u, s) && InTimeOrder(s.saves, s.now)
    ensures SlotKept(u, Step(u, s, a)) && InTimeOrder(Step(u, s, a).saves, Step(u, s, a).now)
  {
    LockIsAnotherKey(u.fullKey);
    if a.Finish? && a.call in s.calls && s.calls[a.call].Running? && !a.outcome.Throws? {
      FinishSlotKept(u, s, a.call, a.outcome);
    } else {
      QuietSlotKept(u, s, Step(u, s, a));
    }
  }

  lemma StepMissesExplained(u: Setup, s: State, a: Action)
    requires SlotKept(u, s) && InTimeOrder(s.saves, s.now) && MissesExplained(u, s)
    ensures MissesExplained(u, Step(u, s, a))
  {
    ReadFinds(u, s);
    var s' := Step(u, s, a);
    assert s.saves <= s'.saves && s.now <= s'.now;
    forall c | c in s'.calls ensures PhaseExplained(u, s', s'.calls[c]) {
      if c in s.calls {
        assert PhaseExplained(u, s, s.calls[c]);
      }
    }
  }

  lemma {:induction false} RunKept(u: Setup, start: int, actions: seq<Action>)
    requires start > 0
    ensures var s := Run(u, start, actions); SlotKept(u, s) && InTimeOrder(s.saves, s.now) && MissesExplained(u, s)
  {
    if actions != [] {
      var s := Run(u, start, actions[..|actions| - 1]);
      RunKept(u, start, actions[..|actions| - 1]);
      StepSlotKept(u, s, actions[|actions| - 1]);
      StepMissesExplained(u, s, actions[|actions| - 1]);
    }
  }

  /** After any interleaving, a new call replies from the cache, without running its handler,
      exactly when the last result stored is defined and within its time-to-live, and then with
      that result. */
  lemma ReplyExact(u: Setup, start: int, actions: seq<Action>, call: nat)
    requires start > 0 && call !in Run(u, start, actions).calls
    ensures var s := Run(u, start, actions);
            var n := |s.saves|;
            var p := Step(u, s, Read(call)).calls[call];
            && (p.Replied? <==> n > 0 && s.saves[n - 1].text != "" && Fresh(u, s.saves[n - 1], s.now))
            && (p.Replied? ==> p.json == s.saves[n - 1].text)
            && (!p.Replied? ==> p == Missed(n, s.now))
  {
    RunKept(u, start, actions);
    ReadFinds(u, Run(u, start, actions));
  }

  // ---- One call inside at a time ----

  /** A call inside holds a live lock entry, and is the only one inside. */
  ghost predicate OneInside(u: Setup, s: State) {
    && s.now > 0
    && (forall c :: Inside(s, c) ==>
          && LockOf(u.fullKey) in s.plain && s.plain[LockOf(u.fullKey)].expiry == Some(s.calls[c].until)
          && s.now <= s.calls[c].until)
    && (forall c, d :: Inside(s, c) && Inside(s, d) ==> c == d)
    && (LockOf(u.fullKey) in s.plain && Live(s.plain[LockOf(u.fullKey)], s.now) ==> exists c :: Inside(s, c))
  }

  /** A step that leaves the lock's entry, and who is inside until when, as they were. */
  lemma QuietOneInside(u: Setup, s: State, s': State)
    requires OneInside(u, s) && s.now <= s'.now
    requires LockOf(u.fullKey) in s'.plain <==> LockOf(u.fullKey) in s.plain
    requires LockOf(u.fullKey) in s.plain ==> s'.plain[LockOf(u.fullKey)] == s.plain[LockOf(u.fullKey)]
    requires forall c :: Inside(s', c) <==> Inside(s, c)
    requires forall c :: Inside(s, c) && Inside(s', c) ==> s'.calls[c].until == s.calls[c].until && s'.now <= s.calls[c].until
    ensures OneInside(u, s')
  {
    if LockOf(u.fullKey) in s'.plain && Live(s'.plain[LockOf(u.fullKey)], s'.now) {
      assert Live(s.plain[LockOf(u.fullKey)], s.now);
      var c :| Inside(s, c);
      assert Inside(s', c);
    }
  }

  lemma LockOneInside(u: Setup, s: State, call: nat)
    requires OneInside(u, s) && call in s.calls && s.calls[call].Missed?
    ensures OneInside(u, Step(u, s, Lock(call)))
  {
    var s', key := Step(u, s, Lock(call)), LockOf(u.fullKey);
    if key in s.plain && Live(s.plain[key], s.now) {
      QuietOneInside(u, s, s');
    } else {
      forall c ensures !Inside(s, c) {}
      assert Inside(s', call) && forall c :: Inside(s', c) ==> c == call;
    }
  }

  lemma UnlockOneInside(u: Setup, s: State, call: nat)
    requires OneInside(u, s) && call in s.calls && s.calls[call].Unlocking?
    ensures OneInside(u, Step(u, s, Unlock(call)))
  {
    assert Inside(s, call);
    forall c ensures !Inside(Step(u, s, Unlock(call)), c) {
      assert Inside(s, c) ==> c == call;
    }
  }

  lemma StepOneInside(u: Setup, s: State, a: Action)
    requires OneInside(u, s)
    requires a.Tick? ==> forall c :: Inside(s, c) ==> s.now + a.ms <= s.calls[c].until
    ensures OneInside(u, Step(u, s, a))
  {
    LockIsAnotherKey(u.fullKey);
    if a.Lock? && a.call in s.calls && s.calls[a.call].Missed? {
      LockOneInside(u, s, a.call);
    } else if a.Unlock? && a.call in s.calls && s.calls[a.call].Unlocking? {
      UnlockOneInside(u, s, a.call);
    } else {
      QuietOneInside(u, s, Step(u, s, a));
    }
  }

  lemma {:induction false} RunOneInside(u: Setup, start: int, actions: seq<Action>)
    requires start > 0 && Timely(u, start, actions)
    ensures OneInside(u, Run(u, start, actions))
  {
    if actions != [] {
      var front := actions[..|actions| - 1];
      forall i | 0 <= i < |front| ensures front[..i] == actions[..i] {}
      RunOneInside(u, start, front);
      StepOneInside(u, Run(u, start, front), actions[|actions| - 1]);
    }
  }

  /** No two calls are inside their handler at once, and a call that missed gets in exactly when
      no other call is inside. */
  lemma HandlersExclude(u: Setup, start: int, actions: seq<Action>, c: nat, d: nat)
    requires start > 0 && Timely(u, start, actions)
    ensures var s := Run(u, start, actions); Inside(s, c) && Inside(s, d) ==> c == d
    ensures var s := Run(u, start, actions);
            c in s.calls && s.calls[c].Missed? ==>
              (Inside(Step(u, s, Lock(c)), c) <==> forall e :: !Inside(s, e))
  {
    RunOneInside(u, start, actions);
    var s := Run(u, start, actions);
    if c in s.calls && s.calls[c].Missed? && (exists e :: Inside(s, e)) {
      var e :| Inside(s, e);
      assert Live(s.plain[LockOf(u.fullKey)], s.now);
    }
  }

  // ---- When the handler runs twice ----

  /** A call that gets in while a result stored earlier is still within its time-to-live, all
      later results being defined, had read the cache before that result was stored. */
  lemma SecondRunReadEarlier(u: Setup, start: int, actions: seq<Action>, call: nat, j: nat)
    requires start > 0
    requires var s := Run(u, start, actions);
             && call in s.calls && s.calls[call].Missed? && Inside(Step(u, s, Lock(call)), call)
             && j < |s.saves| && Fresh(u, s.saves[j], s.now)
             && forall k :: j <= k < |s.saves| ==> s.saves[k].text != ""
    ensures Run(u, start, actions).calls[call].seen <= j
  {
    RunKept(u, start, actions);
    var s := Run(u, start, actions);
    assert PhaseExplained(u, s, s.calls[call]);
  }

  /** The i-th action is a call taking the lock. */
  ghost predicate EntersAt(u: Setup, start: int, actions: seq<Action>, i: nat) {
    && i < |actions| && actions[i].Lock?
    && var s := Run(u, start, actions[..i]);
       actions[i].call in s.calls && s.calls[actions[i].call].Missed? && Inside(Step(u, s, actions[i]), actions[i].call)
  }

  lemma {:induction false} RunGrows(u: Setup, start: int, actions: seq<Action>, i: nat)
    requires i <= |actions|
    ensures Run(u, start, actions[..i]).saves <= Run(u, start, actions).saves
    ensures Run(u, start, actions[..i]).now <= Run(u, start, actions).now
  {
    if i < |actions| {
      var front := actions[..|actions| - 1];
      RunGrows(u, start, front, i);
      assert front[..i] == actions[..i];
    } else {
      assert actions[..i] == actions;
    }
  }

  /** In a run whose results are all defined and none of which expires, a handler starts again
      after a result was stored if and only if its call's read is older than a stored result. */
  lemma RepeatExact(u: Setup, start: int, actions: seq<Action>, i: nat)
    requires start > 0 && EntersAt(u, start, actions, i)
    requires var end := Run(u, start, actions); forall save | save in end.saves :: save.text != "" && Fresh(u, save, end.now)
    ensures var s := Run(u, start, actions[..i]);
            s.saves != [] <==> s.calls[actions[i].call].seen < |s.saves|
  {
    RunKept(u, start, actions[..i]);
    RunGrows(u, start, actions, i);
    var s, end := Run(u, start, actions[..i]), Run(u, start, actions);
    var p := s.calls[actions[i].call];
    assert PhaseExplained(u, s, p);
    assert forall k | 0 <= k < |s.saves| :: s.saves[k] == end.saves[k] && s.saves[k] in end.saves;
  }

  lemma RunNext(u: Setup, start: int, actions: seq<Action>, a: Action)
    ensures Run(u, start, actions + [a]) == Step(u, Run(u, start, actions), a)
  {
    assert (actions + [a])[..|actions|] == actions;
  }

  const TWO_READS: seq<Action> := [Read(0), Read(1)]
  const ONE_RUN: seq<Action> := TWO_READS + [Lock(0)] + [Finish(0, Value("{}"))] + [Unlock(0)]

  lemma AfterTwoReads(u: Setup, start: int)
    ensures Run(u, start, TWO_READS) == State(map[], start, map[0 := Missed(0, start), 1 := Missed(0, start)], [])
  {
    RunNext(u, start, [], Read(0));
    RunNext(u, start, [Read(0)], Read(1));
    assert [] + [Read(0)] == [Read(0)] && [Read(0)] + [Read(1)] == TWO_READS;
  }

  lemma AfterOneRun(u: Setup, start: int)
    requires start > 0
    ensures var s := Run(u, start, ONE_RUN);
            && s.now == start && s.saves == [Save("{}", start)] && LockOf(u.fullKey) !in s.plain
            && s.calls == map[0 := Finished, 1 := Missed(0, start)]
  {
    LockIsAnotherKey(u.fullKey);
    AfterTwoReads(u, start);
    RunNext(u, start, TWO_READS, Lock(0));
    RunNext(u, start, TWO_READS + [Lock(0)], Finish(0, Value("{}")));
    RunNext(u, start, TWO_READS + [Lock(0)] + [Finish(0, Value("{}"))], Unlock(0));
  }

  /** Such runs exist: two calls read, the first runs and stores its result, and the second then
      runs the handler again while that result is still within its time-to-live. */
  lemma {:induction false} HandlerCanRunTwice(u: Setup, start: int)
    requires start > 0
    ensures exists actions :: Timely(u, start, actions) &&
              var s := Run(u, start, actions);
              Inside(s, 1) && s.saves == [Save("{}", start)] && Fresh(u, s.saves[0], s.now)
  {
    AfterOneRun(u, start);
    RunNext(u, start, ONE_RUN, Lock(1));
    assert Timely(u, start, ONE_RUN + [Lock(1)]);
    assert Inside(Run(u, start, ONE_RUN + [Lock(1)]), 1);
  }

  // ---- Exactly when the handler runs at most once ----

  /** The positions at which a call enters its handler. */
  ghost function Entries(u: Setup, start: int, actions: seq<Action>): set<nat> {
    set i: nat | i < |actions| && EntersAt(u, start, actions, i)
  }

  /** The i-th action ends a run that leaves nothing to reply with: it threw, or its result has no
      text. */
  ghost predicate LeavesNothingAt(u: Setup, start: int, actions: seq<Action>, i: nat) {
    && i < |actions| && FinishesAt(u, start, actions, i)
    && (actions[i].outcome.Throws? || StoredText(actions[i].outcome) == "")
  }

  ghost predicate FinishesAt(u: Setup, start: int, actions: seq<Action>, i: nat) {
    i < |actions| && actions[i].Finish? && IsRunning(Run(u, start, actions[..i]), actions[i].call)
  }

  /** No result stored in the run has expired by its end. */
  ghost predicate NoneExpired(u: Setup, start: int, actions: seq<Action>) {
    var end := Run(u, start, actions);
    forall save | save in end.saves :: Fresh(u, save, end.now)
  }

  /** What a first and only run looks like at its entry: no run before it left nothing, and its call
      had seen every result stored by then. */
  ghost predicate CleanEntry(u: Setup, start: int, actions: seq<Action>, i: nat)
    requires EntersAt(u, start, actions, i)
  {
    var s := Run(u, start, actions[..i]);
    && (forall k: nat :: k < i ==> !LeavesNothingAt(u, start, actions, k))
    && s.calls[actions[i].call].seen >= |s.saves|
  }

  lemma RunPrefix(u: Setup, start: int, actions: seq<Action>, n: nat)
    requires n < |actions|
    ensures Run(u, start, actions[..n + 1]) == Step(u, Run(u, start, actions[..n]), actions[n])
  {
    assert actions[..n + 1][..n] == actions[..n];
  }

  /** A call inside its handler, or past it, once entered. */
  lemma {:induction false} InsideEntered(u: Setup, start: int, actions: seq<Action>, n: nat, call: nat) returns (i: nat)
    requires n <= |actions| && Inside(Run(u, start, actions[..n]), call)
    ensures i < n && EntersAt(u, start, actions, i) && actions[i].call == call
  {
    RunPrefix(u, start, actions, n - 1);
    if Inside(Run(u, start, actions[..n - 1]), call) {
      i := InsideEntered(u, start, actions, n - 1, call);
    } else {
      i := n - 1;
    }
  }

  /** Every stored result is the end of some run. */
  lemma {:induction false} SaveFinished(u: Setup, start: int, actions: seq<Action>, n: nat, j: nat) returns (k: nat)
    requires n <= |actions| && j < |Run(u, start, actions[..n]).saves|
    ensures k < n && FinishesAt(u, start, actions, k) && !actions[k].outcome.Throws?
    ensures StoredText(actions[k].outcome) == Run(u, start, actions[..n]).saves[j].text
  {
    RunPrefix(u, start, actions, n - 1);
    if j < |Run(u, start, actions[..n - 1]).saves| {
      k := SaveFinished(u, start, actions, n - 1, j);
    } else {
      k := n - 1;
    }
  }

  /** A call that entered is still inside its handler, or has finished it. */
  lemma {:induction false} EnteredFinishes(u: Setup, start: int, actions: seq<Action>, i: nat, n: nat) returns (k: nat)
    requires EntersAt(u, start, actions, i) && i < n <= |actions|
    requires !Inside(Run(u, start, actions[..n]), actions[i].call)
    ensures i < k < n && FinishesAt(u, start, actions, k) && actions[k].call == actions[i].call
  {
    k := i + 1;
    RunPrefix(u, start, actions, i);
    while !FinishesAt(u, start, actions, k) || actions[k].call != actions[i].call
      invariant i < k < n && IsRunning(Run(u, start, actions[..k]), actions[i].call)
      decreases n - k
    {
      RunPrefix(u, start, actions, k);
      StaysRunning(u, Run(u, start, actions[..k]), actions[k], actions[i].call);
      k := k + 1;
    }
  }

  predicate IsRunning(s: State, call: nat) {
    call in s.calls && s.calls[call].Running?
  }

  lemma StaysRunning(u: Setup, s: State, a: Action, call: nat)
    requires IsRunning(s, call) && !(a.Finish? && a.call == call)
    ensures IsRunning(Step(u, s, a), call)
  {
  }

  /** A run that stored a result shows in the results from then on. */
  lemma FinishShows(u: Setup, start: int, actions: seq<Action>, k: nat, n: nat)
    requires FinishesAt(u, start, actions, k) && k < n <= |actions| && !actions[k].outcome.Throws?
    ensures Run(u, start, actions[..n]).saves != []
  {
    RunPrefix(u, start, actions, k);
    RunGrows(u, start, actions[..n], k + 1);
    assert actions[..n][..k + 1] == actions[..k + 1];
  }

  /** A read that missed although it saw every result, and none of them has expired since, found one
      without a text. */
  lemma MissedEmptySave(u: Setup, saves: seq<Save>, seen: nat, readAt: int, now: int, later: int)
    requires MissExplained(u, saves, seen, readAt, now) && 0 < seen == |saves| && now <= later
    requires Fresh(u, saves[seen - 1], later)
    ensures saves[seen - 1].text == ""
  {
  }

  /** A call that saw every result stored before it, none of which has expired, comes after a run that
      left nothing. */
  lemma SeenAllFollowsNothing(u: Setup, start: int, actions: seq<Action>, j: nat) returns (f: nat)
    requires start > 0 && EntersAt(u, start, actions, j)
    requires var s := Run(u, start, actions[..j]); 0 < s.calls[actions[j].call].seen == |s.saves|
    requires NoneExpired(u, start, actions)
    ensures f < j && LeavesNothingAt(u, start, actions, f)
  {
    RunKept(u, start, actions[..j]);
    RunGrows(u, start, actions, j);
    var s, end := Run(u, start, actions[..j]), Run(u, start, actions);
    var p, last := s.calls[actions[j].call], |s.saves| - 1;
    assert PhaseExplained(u, s, p);
    assert s.saves[last] == end.saves[last] && end.saves[last] in end.saves;
    MissedEmptySave(u, s.saves, p.seen, p.readAt, s.now, end.now);
    f := SaveFinished(u, start, actions, j, last);
  }

  /** After a first run is over, a second entry is never clean: the first either left nothing, or
      left a result that the second call had not seen. */
  lemma SecondIsUnclean(u: Setup, start: int, actions: seq<Action>, i: nat, j: nat)
    requires start > 0 && i < j && EntersAt(u, start, actions, i) && EntersAt(u, start, actions, j)
    requires !Inside(Run(u, start, actions[..j]), actions[i].call)
    requires NoneExpired(u, start, actions)
    ensures !CleanEntry(u, start, actions, j)
  {
    var k := EnteredFinishes(u, start, actions, i, j);
    if !LeavesNothingAt(u, start, actions, k) {
      FinishShows(u, start, actions, k, j);
      SeenAtMostSaved(u, start, actions, j);
      var s := Run(u, start, actions[..j]);
      if s.calls[actions[j].call].seen == |s.saves| {
        var f := SeenAllFollowsNothing(u, start, actions, j);
      }
    }
  }

  lemma SeenAtMostSaved(u: Setup, start: int, actions: seq<Action>, j: nat)
    requires start > 0 && EntersAt(u, start, actions, j)
    ensures var s := Run(u, start, actions[..j]); s.calls[actions[j].call].seen <= |s.saves|
  {
    RunKept(u, start, actions[..j]);
    var s := Run(u, start, actions[..j]);
    assert PhaseExplained(u, s, s.calls[actions[j].call]);
  }

  /** An unclean entry has an entry before it. */
  lemma UncleanFollows(u: Setup, start: int, actions: seq<Action>, j: nat) returns (i: nat)
    requires EntersAt(u, start, actions, j) && !CleanEntry(u, start, actions, j)
    ensures i < j && EntersAt(u, start, actions, i)
  {
    var s := Run(u, start, actions[..j]);
    var k: nat;
    if exists k: nat :: k < j && LeavesNothingAt(u, start, actions, k) {
      k :| k < j && LeavesNothingAt(u, start, actions, k);
    } else {
      k := SaveFinished(u, start, actions, j, |s.saves| - 1);
    }
    i := InsideEntered(u, start, actions, k, actions[k].call);
  }

  lemma TwoIsMoreThanOne(entries: set<nat>, i: nat, j: nat)
    requires i in entries && j in entries && i != j
    ensures |entries| > 1
  {
    SubsetCard({i, j}, entries);
  }

  lemma AtMostOne(entries: set<nat>)
    requires forall i, j :: i in entries && j in entries ==> i == j
    ensures |entries| <= 1
  {
    if entries != {} {
      var i :| i in entries;
      SubsetCard(entries, {i});
    }
  }

  ghost predicate AllClean(u: Setup, start: int, actions: seq<Action>) {
    forall i: nat :: EntersAt(u, start, actions, i) ==> CleanEntry(u, start, actions, i)
  }

  lemma CleanRunsOnce(u: Setup, start: int, actions: seq<Action>)
    requires start > 0 && Timely(u, start, actions) && NoneExpired(u, start, actions)
    requires AllClean(u, start, actions)
    ensures |Entries(u, start, actions)| <= 1
  {
    var entries := Entries(u, start, actions);
    forall i, j | i in entries && j in entries && i < j ensures false {
      EntryFindsNobody(u, start, actions, j, actions[i].call);
      SecondIsUnclean(u, start, actions, i, j);
      assert false;
    }
    AtMostOne(entries);
  }

  lemma OnceIsClean(u: Setup, start: int, actions: seq<Action>)
    requires |Entries(u, start, actions)| <= 1
    ensures AllClean(u, start, actions)
  {
    forall j: nat | EntersAt(u, start, actions, j) ensures CleanEntry(u, start, actions, j) {
      if !CleanEntry(u, start, actions, j) {
        var i := UncleanFollows(u, start, actions, j);
        TwoIsMoreThanOne(Entries(u, start, actions), i, j);
        assert false;
      }
    }
  }

  /** When does "at most once" hold? In a run in which the lock outlasts every handler and no stored
      result expires: the handler runs at most once if and only if every entry is clean, that is, no
      entry comes after a run that threw or returned nothing to store, and none is by a call whose
      read missed a result stored since. */
  lemma AtMostOnceExactly(u: Setup, start: int, actions: seq<Action>)
    requires start > 0 && Timely(u, start, actions) && NoneExpired(u, start, actions)
    ensures |Entries(u, start, actions)| <= 1 <==> AllClean(u, start, actions)
  {
    if AllClean(u, start, actions) {
      CleanRunsOnce(u, start, actions);
    }
    if |Entries(u, start, actions)| <= 1 {
      OnceIsClean(u, start, actions);
    }
  }

  lemma EntryFindsNobody(u: Setup, start: int, actions: seq<Action>, j: nat, other: nat)
    requires start > 0 && Timely(u, start, actions) && EntersAt(u, start, actions, j)
    ensures !Inside(Run(u, start, actions[..j]), other)
  {
    forall i | 0 <= i < j ensures actions[..j][..i] == actions[..i] {}
    assert Timely(u, start, actions[..j]);
    HandlersExclude(u, start, actions[..j], actions[j].call, other);
  }

  // ---- For a caller that waits ----

  predicate Over(p: Phase) {
    p.Replied? || p.Rejected? || p.Finished?
  }

  /** Each call reads only after all calls before it are over. */
  ghost predicate Sequential(u: Setup, start: int, actions: seq<Action>) {
    forall i, c :: 0 <= i < |actions| && actions[i].Read? && c in Run(u, start, actions[..i]).calls
                   && actions[i].call !in Run(u, start, actions[..i]).calls ==>
      Over(Run(u, start, actions[..i]).calls[c])
  }

  ghost predicate OneActive(s: State) {
    && (forall c, d :: c in s.calls && d in s.calls && !Over(s.calls[c]) && !Over(s.calls[d]) ==> c == d)
    && (forall c :: c in s.calls && s.calls[c].Missed? ==> s.calls[c].seen == |s.saves|)
  }

  lemma StepOneActive(u: Setup, s: State, a: Action)
    requires OneActive(s)
    requires a.Read? && a.call !in s.calls ==> forall c :: c in s.calls ==> Over(s.calls[c])
    ensures OneActive(Step(u, s, a))
  {
  }

  lemma {:induction false} SequentialOneActive(u: Setup, start: int, actions: seq<Action>, n: nat)
    requires n <= |actions| && Sequential(u, start, actions)
    ensures OneActive(Run(u, start, actions[..n]))
  {
    if n > 0 {
      SequentialOneActive(u, start, actions, n - 1);
      RunPrefix(u, start, actions, n - 1);
      StepOneActive(u, Run(u, start, actions[..n - 1]), actions[n - 1]);
    }
  }

  lemma SequentialEntersAlone(u: Setup, start: int, actions: seq<Action>, j: nat, other: nat)
    requires Sequential(u, start, actions) && EntersAt(u, start, actions, j)
    ensures !Inside(Run(u, start, actions[..j]), other)
  {
    SequentialOneActive(u, start, actions, j);
  }

  lemma SequentialEntriesClean(u: Setup, start: int, actions: seq<Action>, j: nat)
    requires Sequential(u, start, actions) && EntersAt(u, start, actions, j)
    requires forall i :: 0 <= i < |actions| && actions[i].Finish? ==> actions[i].outcome.Value? && actions[i].outcome.json != ""
    ensures CleanEntry(u, start, actions, j)
  {
    SequentialOneActive(u, start, actions, j);
  }

  /** A caller that starts each call after the previous one is over, with a handler that always
      returns something to store, runs it at most once while nothing expires. */
  lemma SequentialRunsOnce(u: Setup, start: int, actions: seq<Action>)
    requires start > 0 && Sequential(u, start, actions)
    requires forall i :: 0 <= i < |actions| && actions[i].Finish? ==> actions[i].outcome.Value? && actions[i].outcome.json != ""
    requires NoneExpired(u, start, actions)
    ensures |Entries(u, start, actions)| <= 1
  {
    var entries := Entries(u, start, actions);
    forall i, j | i in entries && j in entries && i < j ensures false {
      SequentialEntersAlone(u, start, actions, j, actions[i].call);
      SecondIsUnclean(u, start, actions, i, j);
      SequentialEntriesClean(u, start, actions, j);
      assert false;
    }
    AtMostOne(entries);
  }

  // ---- Two more ways to run it twice ----

  const THROWN: seq<Action> := [Read(0)] + [Lock(0)] + [Finish(0, Throws)] + [Unlock(0)]

  lemma AfterThrow(u: Setup, start: int)
    requires start > 0
    ensures Run(u, start, [Read(0)]) == State(map[], start, map[0 := Missed(0, start)], [])
    ensures Run(u, start, THROWN) == State(map[], start, map[0 := Finished], [])
  {
    RunNext(u, start, [], Read(0));
    assert [] + [Read(0)] == [Read(0)];
    RunNext(u, start, [Read(0)], Lock(0));
    RunNext(u, start, [Read(0)] + [Lock(0)], Finish(0, Throws));
    RunNext(u, start, [Read(0)] + [Lock(0)] + [Finish(0, Throws)], Unlock(0));
    assert Run(u, start, THROWN).plain == map[];
  }

  /** A handler that throws is run again by the next call, however carefully its caller waits. */
  lemma {:induction false} ThrowingHandlerRunsAgain(u: Setup, start: int)
    requires start > 0
    ensures var actions := THROWN + [Read(1)] + [Lock(1)];
            && Timely(u, start, actions) && Sequential(u, start, actions) && Run(u, start, actions).saves == []
            && |Entries(u, start, actions)| > 1
  {
    var actions := THROWN + [Read(1)] + [Lock(1)];
    AfterThrow(u, start);
    RunNext(u, start, THROWN, Read(1));
    RunNext(u, start, THROWN + [Read(1)], Lock(1));
    assert actions[..0] == [] && actions[..1] == [Read(0)] && actions[..4] == THROWN && actions[..5] == THROWN + [Read(1)];
    assert EntersAt(u, start, actions, 1) && EntersAt(u, start, actions, 5);
    TwoIsMoreThanOne(Entries(u, start, actions), 1, 5);
  }

  /** A handler that outlasts its lock is joined by a second one. */
  lemma {:induction false} OverrunLockRunsTwo(u: Setup, start: int)
    requires start > 0
    ensures var actions := TWO_READS + [Lock(0)] + [Tick(u.lockTtl * 1000 + 1)] + [Lock(1)];
            var s := Run(u, start, actions);
            Inside(s, 0) && Inside(s, 1) && s.saves == [] && |Entries(u, start, actions)| > 1
  {
    var late := TWO_READS + [Lock(0)] + [Tick(u.lockTtl * 1000 + 1)];
    var actions := late + [Lock(1)];
    AfterTwoReads(u, start);
    RunNext(u, start, TWO_READS, Lock(0));
    RunNext(u, start, TWO_READS + [Lock(0)], Tick(u.lockTtl * 1000 + 1));
    RunNext(u, start, late, Lock(1));
    assert actions[..2] == TWO_READS && actions[..4] == late;
    assert EntersAt(u, start, actions, 2) && EntersAt(u, start, actions, 4);
    TwoIsMoreThanOne(Entries(u, start, actions), 2, 4);
  }
}
