/** lib/redis/idempotency.ts with any number of keys on one store. The lock of key `x` is kept under
    `x:lock`, which is also where the result of the key `x:lock` is kept. */
module IdempotencyKeys {
  import opened Wrappers
  import opened Text
  import opened Store
  import opened Idempotency

  // ---- Full keys ----

  lemma BuildKeyParts(userId: string, key: string)
    ensures BuildKey(userId, key) == "transfer:idem:" + (userId + ":" + SafeKey(key))
  {
  }

  lemma SafeKeyExactly(key: string, lead: string, core: string, trail: string)
    requires key == lead + core + trail && Blanks(lead) && Unpadded(core) && Blanks(trail)
    ensures SafeKey(key) == if |core| <= 128 then core else core[..128]
  {
    TrimExactly(lead, core, trail);
  }

  /** What becomes of a client's key: blanks around it are dropped, and of the rest the first 128 characters
      are used. */
  lemma BuildKeyExactly(user: string, key: string, lead: string, core: string, trail: string)
    requires key == lead + core + trail && Blanks(lead) && Unpadded(core) && Blanks(trail)
    ensures BuildKey(user, key) == "transfer:idem:" + user + ":" + (if |core| <= 128 then core else core[..128])
  {
    SafeKeyExactly(key, lead, core, trail);
  }

  /** So a user's keys of up to 128 characters without blanks at their ends never meet. */
  lemma OwnKeysStayApart(user: string, key: string, key': string)
    requires |key| <= 128 && |key'| <= 128 && Unpadded(key) && Unpadded(key')
    ensures BuildKey(user, key) == BuildKey(user, key') <==> key == key'
  {
    assert key == "" + key + "" && key' == "" + key' + "";
    BuildKeyExactly(user, key, "", key, "");
    BuildKeyExactly(user, key', "", key', "");
    SamePrefix("transfer:idem:" + user + ":", key, key');
  }

  /** And in general a user's two keys meet exactly when what is left of them agrees in its first 128
      characters. */
  lemma OwnKeysMeetExactly(user: string, key: string, key': string, core: string, core': string)
    requires exists lead, trail :: key == lead + core + trail && Blanks(lead) && Unpadded(core) && Blanks(trail)
    requires exists lead, trail :: key' == lead + core' + trail && Blanks(lead) && Unpadded(core') && Blanks(trail)
    ensures BuildKey(user, key) == BuildKey(user, key') <==>
              (if |core| <= 128 then core else core[..128]) == (if |core'| <= 128 then core' else core'[..128])
  {
    var lead, trail :| key == lead + core + trail && Blanks(lead) && Unpadded(core) && Blanks(trail);
    var lead', trail' :| key' == lead' + core' + trail' && Blanks(lead') && Unpadded(core') && Blanks(trail');
    BuildKeyExactly(user, key, lead, core, trail);
    BuildKeyExactly(user, key', lead', core', trail');
    SamePrefix("transfer:idem:" + user + ":", if |core| <= 128 then core else core[..128], if |core'| <= 128 then core' else core'[..128]);
  }

  /** The second user id goes on where the first stops, with a colon and the beginning of the first's
      key. */
  ghost predicate Spills(user: string, key: string, user': string, key': string) {
    exists middle :: user' == user + ":" + middle && SafeKey(key) == middle + ":" + SafeKey(key')
  }

  lemma SharedKeyOrdered(user: string, key: string, user': string, key': string)
    requires |user| <= |user'|
    ensures BuildKey(user, key) == BuildKey(user', key') <==>
            (user == user' && SafeKey(key) == SafeKey(key')) || Spills(user, key, user', key')
  {
    var a, b := user + ":" + SafeKey(key), user' + ":" + SafeKey(key');
    BuildKeyParts(user, key);
    BuildKeyParts(user', key');
    SamePrefix("transfer:idem:", a, b);
    if a == b && user == user' {
      assert SafeKey(key) == a[|user| + 1..] && SafeKey(key') == b[|user| + 1..];
    }
    if a == b && user != user' {
      assert user == a[..|user|] && b[..|user|] == user'[..|user|];
      assert |user| < |user'|;
      assert user'[|user|] == a[|user|] == ':';
      var middle := user'[|user| + 1..];
      assert user' == user + ":" + middle;
      assert SafeKey(key) == a[|user| + 1..];
      assert SafeKey(key) == middle + ":" + SafeKey(key');
    }
    forall middle | user' == user + ":" + middle && SafeKey(key) == middle + ":" + SafeKey(key') ensures a == b {
      assert a == user + ":" + (middle + ":" + SafeKey(key'));
      assert b == (user + ":" + middle) + ":" + SafeKey(key');
    }
  }

  /** When two clients share a full key: exactly for one user with one used part, or for two users of
      whom one's id spills into the other's key. */
  lemma SharedKeyExactly(user: string, key: string, user': string, key': string)
    ensures BuildKey(user, key) == BuildKey(user', key') <==>
            || (user == user' && SafeKey(key) == SafeKey(key'))
            || Spills(user, key, user', key') || Spills(user', key', user, key)
  {
    if |user| <= |user'| {
      SharedKeyOrdered(user, key, user', key');
      if Spills(user', key', user, key) {
        assert false;
      }
    } else {
      SharedKeyOrdered(user', key', user, key);
      if Spills(user, key, user', key') {
        assert false;
      }
    }
  }

  lemma SamePrefix(prefix: string, a: string, b: string)
    ensures prefix + a == prefix + b <==> a == b
  {
    assert (prefix + a)[|prefix|..] == a && (prefix + b)[|prefix|..] == b;
  }

  function Colons(s: string): nat {
    if s == "" then 0 else (if s[0] == ':' then 1 else 0) + Colons(s[1..])
  }

  lemma {:induction false} ColonsAppend(a: string, b: string)
    ensures Colons(a + b) == Colons(a) + Colons(b)
  {
    if a == "" {
      assert a + b == b;
    } else {
      assert (a + b)[1..] == a[1..] + b;
      ColonsAppend(a[1..], b);
    }
  }

  /** So different users never share a full key when all user ids have the same number of colons, as
      decentralised identifiers of one method do. */
  lemma UsersNeverCollide(user: string, key: string, user': string, key': string)
    requires Colons(user) == Colons(user')
    ensures BuildKey(user, key) == BuildKey(user', key') <==> user == user' && SafeKey(key) == SafeKey(key')
  {
    SharedKeyExactly(user, key, user', key');
    NoExtension(user, user');
    NoExtension(user', user);
  }

  lemma NoExtension(user: string, user': string)
    requires Colons(user) == Colons(user')
    ensures forall middle :: user' != user + ":" + middle
  {
    forall middle ensures user' != user + ":" + middle {
      ColonsAppend(user, ":");
      ColonsAppend(user + ":", middle);
      assert Colons(":") == 1;
    }
  }

  /** For one user, the lock of one key is the result of another exactly when the other's used part is
      the first's with `:lock` after it. */
  lemma SiblingExactly(user: string, key: string, key': string)
    ensures LockOf(BuildKey(user, key)) == BuildKey(user, key') <==> SafeKey(key') == SafeKey(key) + ":lock"
  {
    BuildKeyParts(user, key);
    BuildKeyParts(user, key');
    var prefix := "transfer:idem:" + (user + ":");
    assert BuildKey(user, key') == prefix + SafeKey(key');
    assert LockOf(BuildKey(user, key)) == prefix + (SafeKey(key) + ":lock");
    SamePrefix(prefix, SafeKey(key) + ":lock", SafeKey(key'));
  }

  /** The two keys have no entry in common. */
  predicate Apart(a: string, b: string) {
    a != b && a != LockOf(b) && b != LockOf(a)
  }

  lemma ApartExactly(a: string, b: string)
    ensures {a, LockOf(a)} !! {b, LockOf(b)} <==> Apart(a, b)
  {
    LockIsAnotherKey(a);
    LockIsAnotherKey(b);
    if LockOf(a) == LockOf(b) {
      assert a == LockOf(a)[..|LockOf(a)| - 5] && b == LockOf(b)[..|LockOf(b)| - 5];
    }
    if !Apart(a, b) {
      assert a in {a, LockOf(a)} && b in {b, LockOf(b)} && LockOf(a) in {a, LockOf(a)} && LockOf(b) in {b, LockOf(b)};
    }
  }

  // ---- Many keys on one store ----

  /** Every call's full key, and the times-to-live used with each. */
  datatype Rules = Rules(keyOf: nat -> string, ttlOf: string -> nat, lockTtlOf: string -> nat)

  datatype World = World(plain: Plain, now: int, calls: map<nat, Phase>, saves: map<string, seq<Save>>)

  function SetupOf(r: Rules, key: string): Setup {
    Setup(key, r.ttlOf(key), r.lockTtlOf(key))
  }

  function SavesOf(w: World, key: string): seq<Save> {
    if key in w.saves then w.saves[key] else []
  }

  /** What concerns one key. */
  function View(r: Rules, w: World, key: string): State {
    State(w.plain, w.now, map c | c in w.calls && r.keyOf(c) == key :: w.calls[c], SavesOf(w, key))
  }

  /** Every call does on the shared store what it does for its own key. */
  function WorldStep(r: Rules, w: World, a: Action): World {
    match a
    case Tick(ms) => w.(now := w.now + ms)
    case Elsewhere(_) => w
    case _ =>
      var key := r.keyOf(a.call);
      var s := Step(SetupOf(r, key), View(r, w, key), a);
      World(s.plain, s.now, w.calls + s.calls, w.saves[key := s.saves])
  }

  function WorldRun(r: Rules, start: int, actions: seq<Action>): World {
    if actions == [] then World(map[], start, map[], map[])
    else WorldStep(r, WorldRun(r, start, actions[..|actions| - 1]), actions[|actions| - 1])
  }

  predicate IsCall(a: Action) {
    a.Read? || a.Lock? || a.Finish? || a.Unlock?
  }

  /** No other key in use has an entry in common with this one. */
  ghost predicate Secluded(r: Rules, actions: seq<Action>, key: string) {
    forall i :: 0 <= i < |actions| && IsCall(actions[i]) && r.keyOf(actions[i].call) != key ==>
      Apart(key, r.keyOf(actions[i].call))
  }

  // ---- One key's part of a run is a run of its own ----

  /** A run as one key sees it. */
  function OwnAction(r: Rules, start: int, actions: seq<Action>, key: string, i: nat): Action
    requires i < |actions|
  {
    if actions[i].Tick? || (IsCall(actions[i]) && r.keyOf(actions[i].call) == key) then actions[i]
    else Elsewhere(WorldRun(r, start, actions[..i + 1]).plain)
  }

  function OwnRun(r: Rules, start: int, actions: seq<Action>, key: string): (own: seq<Action>)
    ensures |own| == |actions|
  {
    seq(|actions|, i requires 0 <= i < |actions| => OwnAction(r, start, actions, key, i))
  }

  /** A call touches the entries of its own key only. */
  lemma StepTouches(u: Setup, s: State, a: Action, k: string)
    requires IsCall(a) && !IsSlot(u.fullKey, k)
    ensures k in Step(u, s, a).plain <==> k in s.plain
    ensures k in s.plain ==> Step(u, s, a).plain[k] == s.plain[k]
  {
  }

  lemma StepCalls(u: Setup, s: State, a: Action, c: nat)
    requires IsCall(a)
    ensures c != a.call ==> (c in Step(u, s, a).calls <==> c in s.calls) && (c in s.calls ==> Step(u, s, a).calls[c] == s.calls[c])
    ensures c in s.calls ==> c in Step(u, s, a).calls
  {
  }

  lemma BesideSame(key: string, mine: Plain, theirs: Plain)
    requires forall k :: IsSlot(key, k) ==> (k in mine <==> k in theirs) && (k in mine ==> mine[k] == theirs[k])
    ensures Beside(key, mine, theirs) == theirs
  {
  }

  /** A step of the key's own call is that step in its view ... */
  lemma OwnStepView(r: Rules, w: World, a: Action, key: string)
    requires IsCall(a) && r.keyOf(a.call) == key
    ensures View(r, WorldStep(r, w, a), key) == Step(SetupOf(r, key), View(r, w, key), a)
  {
    var v := View(r, w, key);
    var s := Step(SetupOf(r, key), v, a);
    forall c ensures c in s.calls ==> r.keyOf(c) == key { StepCalls(SetupOf(r, key), v, a, c); }
    forall c | c in v.calls ensures c in s.calls { StepCalls(SetupOf(r, key), v, a, c); }
    assert View(r, WorldStep(r, w, a), key).calls == s.calls;
  }

  /** ... and a step of another key's call leaves its entries, calls and results alone. */
  lemma OtherStepView(r: Rules, w: World, a: Action, key: string)
    requires IsCall(a) && Apart(key, r.keyOf(a.call))
    ensures var w' := WorldStep(r, w, a);
            View(r, w', key) == Step(SetupOf(r, key), View(r, w, key), Elsewhere(w'.plain))
  {
    var other := r.keyOf(a.call);
    var v, w' := View(r, w, other), WorldStep(r, w, a);
    var s := Step(SetupOf(r, other), v, a);
    ApartExactly(key, other);
    forall k | IsSlot(key, k) ensures (k in w.plain <==> k in w'.plain) && (k in w.plain ==> w.plain[k] == w'.plain[k]) {
      assert k in {key, LockOf(key)} && k !in {other, LockOf(other)};
      StepTouches(SetupOf(r, other), v, a, k);
    }
    BesideSame(key, w.plain, w'.plain);
    forall c ensures c in s.calls ==> r.keyOf(c) == other { StepCalls(SetupOf(r, other), v, a, c); }
    assert View(r, w', key).calls == View(r, w, key).calls;
  }

  lemma OwnRunPrefix(r: Rules, start: int, actions: seq<Action>, key: string, n: nat)
    requires n <= |actions|
    ensures OwnRun(r, start, actions, key)[..n] == OwnRun(r, start, actions[..n], key)
  {
    forall i | 0 <= i < n ensures OwnAction(r, start, actions, key, i) == OwnAction(r, start, actions[..n], key, i) {
      assert actions[..n][..i + 1] == actions[..i + 1];
    }
  }

  /** What a secluded key goes through among all the others is a run of that key alone. */
  lemma {:induction false} KeyAlone(r: Rules, start: int, actions: seq<Action>, key: string)
    requires Secluded(r, actions, key)
    ensures View(r, WorldRun(r, start, actions), key) == Run(SetupOf(r, key), start, OwnRun(r, start, actions, key))
  {
    if actions != [] {
      var n := |actions| - 1;
      var w, a := WorldRun(r, start, actions[..n]), actions[n];
      KeyAlone(r, start, actions[..n], key);
      OwnRunPrefix(r, start, actions, key, n);
      assert actions[..n + 1] == actions;
      if a.Tick? {
      } else if !IsCall(a) {
        BesideSame(key, w.plain, w.plain);
      } else if r.keyOf(a.call) == key {
        OwnStepView(r, w, a, key);
      } else {
        OtherStepView(r, w, a, key);
      }
    } else {
      assert OwnRun(r, start, actions, key) == [];
    }
  }

  lemma KeyAlonePrefix(r: Rules, start: int, actions: seq<Action>, key: string, n: nat)
    requires Secluded(r, actions, key) && n <= |actions|
    ensures View(r, WorldRun(r, start, actions[..n]), key) == Run(SetupOf(r, key), start, OwnRun(r, start, actions, key)[..n])
  {
    KeyAlone(r, start, actions[..n], key);
    OwnRunPrefix(r, start, actions, key, n);
  }

  // ---- The laws, for every secluded key among any others ----

  predicate WorldInside(w: World, call: nat) {
    call in w.calls && (w.calls[call].Running? || w.calls[call].Unlocking?)
  }

  predicate WorldMissed(w: World, call: nat) {
    call in w.calls && w.calls[call].Missed?
  }

  /** A new call replies with the last stored result of its key exactly when that is defined and fresh,
      and otherwise misses. */
  ghost predicate ReplyRight(r: Rules, w: World, call: nat) {
    var key := r.keyOf(call);
    var saves := SavesOf(w, key);
    var n, after := |saves|, WorldStep(r, w, Read(call));
    var found := n > 0 && saves[n - 1].text != "" && Fresh(SetupOf(r, key), saves[n - 1], w.now);
    call in after.calls && after.calls[call] == if found then Replied(saves[n - 1].text) else Missed(n, w.now)
  }

  /** A call that missed gets in exactly when no call of its key is inside. */
  ghost predicate EntryRight(r: Rules, w: World, call: nat) {
    WorldInside(WorldStep(r, w, Lock(call)), call) <==>
    forall c :: r.keyOf(c) == r.keyOf(call) ==> !WorldInside(w, c)
  }

  /** The clock does not pass the lock of a call of this key that is still inside. */
  ghost predicate WorldTimely(r: Rules, start: int, actions: seq<Action>, key: string) {
    forall i, c :: 0 <= i < |actions| && actions[i].Tick? && r.keyOf(c) == key && WorldInside(WorldRun(r, start, actions[..i]), c) ==>
      WorldRun(r, start, actions[..i]).now + actions[i].ms <= WorldRun(r, start, actions[..i]).calls[c].until
  }

  lemma InsideView(r: Rules, w: World, key: string, c: nat)
    ensures Inside(View(r, w, key), c) <==> r.keyOf(c) == key && WorldInside(w, c)
  {
  }

  lemma OwnTimely(r: Rules, start: int, actions: seq<Action>, key: string)
    requires Secluded(r, actions, key) && WorldTimely(r, start, actions, key)
    ensures Timely(SetupOf(r, key), start, OwnRun(r, start, actions, key))
  {
    var u, own := SetupOf(r, key), OwnRun(r, start, actions, key);
    forall i, c | 0 <= i < |own| && own[i].Tick? && Inside(Run(u, start, own[..i]), c)
      ensures Run(u, start, own[..i]).now + own[i].ms <= Run(u, start, own[..i]).calls[c].until
    {
      KeyAlonePrefix(r, start, actions, key, i);
      InsideView(r, WorldRun(r, start, actions[..i]), key, c);
    }
  }

  lemma KeyReplyExact(r: Rules, start: int, actions: seq<Action>, call: nat)
    requires start > 0 && Secluded(r, actions, r.keyOf(call)) && call !in WorldRun(r, start, actions).calls
    ensures ReplyRight(r, WorldRun(r, start, actions), call)
  {
    var key, w := r.keyOf(call), WorldRun(r, start, actions);
    KeyAlone(r, start, actions, key);
    ReplyExact(SetupOf(r, key), start, OwnRun(r, start, actions, key), call);
    OwnStepView(r, w, Read(call), key);
  }

  lemma KeyHandlersExclude(r: Rules, start: int, actions: seq<Action>, c: nat, d: nat)
    requires start > 0 && Secluded(r, actions, r.keyOf(c)) && WorldTimely(r, start, actions, r.keyOf(c))
    requires r.keyOf(c) == r.keyOf(d)
    ensures var w := WorldRun(r, start, actions);
            && (WorldInside(w, c) && WorldInside(w, d) ==> c == d)
            && (WorldMissed(w, c) ==> EntryRight(r, w, c))
  {
    var key, w := r.keyOf(c), WorldRun(r, start, actions);
    KeyAlone(r, start, actions, key);
    OwnTimely(r, start, actions, key);
    HandlersExclude(SetupOf(r, key), start, OwnRun(r, start, actions, key), c, d);
    InsideView(r, w, key, c);
    InsideView(r, w, key, d);
    if WorldMissed(w, c) {
      OwnStepView(r, w, Lock(c), key);
      InsideView(r, WorldStep(r, w, Lock(c)), key, c);
      forall e ensures Inside(View(r, w, key), e) <==> r.keyOf(e) == key && WorldInside(w, e) { InsideView(r, w, key, e); }
    }
  }

  /** The i-th action is a call of this key entering its handler. */
  ghost predicate WorldEntersAt(r: Rules, start: int, actions: seq<Action>, key: string, i: nat) {
    && i < |actions| && actions[i].Lock? && r.keyOf(actions[i].call) == key
    && WorldMissed(WorldRun(r, start, actions[..i]), actions[i].call)
    && WorldInside(WorldRun(r, start, actions[..i + 1]), actions[i].call)
  }

  ghost function WorldEntries(r: Rules, start: int, actions: seq<Action>, key: string): set<nat> {
    set i: nat | i < |actions| && WorldEntersAt(r, start, actions, key, i)
  }

  lemma WorldRunNext(r: Rules, start: int, actions: seq<Action>, i: nat)
    requires i < |actions|
    ensures WorldRun(r, start, actions[..i + 1]) == WorldStep(r, WorldRun(r, start, actions[..i]), actions[i])
  {
    assert actions[..i + 1][..i] == actions[..i];
  }

  lemma SameEntry(r: Rules, start: int, actions: seq<Action>, key: string, i: nat)
    requires Secluded(r, actions, key) && i < |actions|
    ensures WorldEntersAt(r, start, actions, key, i) <==> EntersAt(SetupOf(r, key), start, OwnRun(r, start, actions, key), i)
  {
    var u, own, w := SetupOf(r, key), OwnRun(r, start, actions, key), WorldRun(r, start, actions[..i]);
    assert own[i] == OwnAction(r, start, actions, key, i);
    if actions[i].Lock? && r.keyOf(actions[i].call) == key {
      KeyAlonePrefix(r, start, actions, key, i);
      WorldRunNext(r, start, actions, i);
      OwnStepView(r, w, actions[i], key);
      InsideView(r, WorldStep(r, w, actions[i]), key, actions[i].call);
    }
  }

  lemma SameEntries(r: Rules, start: int, actions: seq<Action>, key: string)
    requires Secluded(r, actions, key)
    ensures WorldEntries(r, start, actions, key) == Entries(SetupOf(r, key), start, OwnRun(r, start, actions, key))
  {
    forall i: nat | i < |actions|
      ensures WorldEntersAt(r, start, actions, key, i) <==> EntersAt(SetupOf(r, key), start, OwnRun(r, start, actions, key), i)
    {
      SameEntry(r, start, actions, key, i);
    }
  }

  /** At most once, exactly: as for a key alone, in the run as the key sees it. */
  lemma KeyAtMostOnceExactly(r: Rules, start: int, actions: seq<Action>, key: string)
    requires start > 0 && Secluded(r, actions, key) && WorldTimely(r, start, actions, key)
    requires NoneExpired(SetupOf(r, key), start, OwnRun(r, start, actions, key))
    ensures |WorldEntries(r, start, actions, key)| <= 1 <==> AllClean(SetupOf(r, key), start, OwnRun(r, start, actions, key))
  {
    OwnTimely(r, start, actions, key);
    SameEntries(r, start, actions, key);
    AtMostOnceExactly(SetupOf(r, key), start, OwnRun(r, start, actions, key));
  }

  /** A caller that waits, with a handler that always returns something, whatever other keys do. */
  lemma KeySequentialRunsOnce(r: Rules, start: int, actions: seq<Action>, key: string)
    requires start > 0 && Secluded(r, actions, key)
    requires var u, own := SetupOf(r, key), OwnRun(r, start, actions, key);
             && Sequential(u, start, own) && NoneExpired(u, start, own)
             && forall i :: 0 <= i < |own| && own[i].Finish? ==> own[i].outcome.Value? && own[i].outcome.json != ""
    ensures |WorldEntries(r, start, actions, key)| <= 1
  {
    SameEntries(r, start, actions, key);
    SequentialRunsOnce(SetupOf(r, key), start, OwnRun(r, start, actions, key));
  }

  /** A call that would get in while a stored result is fresh, all later ones being defined, read before
      that result was stored. */
  lemma KeySecondRunReadEarlier(r: Rules, start: int, actions: seq<Action>, call: nat, j: nat)
    requires start > 0 && Secluded(r, actions, r.keyOf(call))
    requires var w := WorldRun(r, start, actions);
             var saves := SavesOf(w, r.keyOf(call));
             && WorldMissed(w, call) && WorldInside(WorldStep(r, w, Lock(call)), call)
             && j < |saves| && Fresh(SetupOf(r, r.keyOf(call)), saves[j], w.now)
             && forall k :: j <= k < |saves| ==> saves[k].text != ""
    ensures WorldRun(r, start, actions).calls[call].seen <= j
  {
    var key, w := r.keyOf(call), WorldRun(r, start, actions);
    KeyAlone(r, start, actions, key);
    OwnStepView(r, w, Lock(call), key);
    InsideView(r, WorldStep(r, w, Lock(call)), key, call);
    SecondRunReadEarlier(SetupOf(r, key), start, OwnRun(r, start, actions, key), call, j);
  }

  /** Once a result is stored, a call gets in again if and only if its read is older than a result. */
  lemma KeyRepeatExact(r: Rules, start: int, actions: seq<Action>, key: string, i: nat)
    requires start > 0 && Secluded(r, actions, key) && i < |actions| && WorldEntersAt(r, start, actions, key, i)
    requires var end := WorldRun(r, start, actions);
             forall save | save in SavesOf(end, key) :: save.text != "" && Fresh(SetupOf(r, key), save, end.now)
    ensures var w := WorldRun(r, start, actions[..i]);
            SavesOf(w, key) != [] <==> w.calls[actions[i].call].seen < |SavesOf(w, key)|
  {
    SameEntry(r, start, actions, key, i);
    KeyAlone(r, start, actions, key);
    KeyAlonePrefix(r, start, actions, key, i);
    RepeatExact(SetupOf(r, key), start, OwnRun(r, start, actions, key), i);
  }

  // ---- When keys are not apart ----

  lemma WorldRunMore(r: Rules, start: int, actions: seq<Action>, a: Action)
    ensures WorldRun(r, start, actions + [a]) == WorldStep(r, WorldRun(r, start, actions), a)
  {
    assert (actions + [a])[..|actions|] == actions;
  }

  // The four steps of a call, when nothing is in its way.

  function Kept(w: World, key: string): map<string, seq<Save>> {
    w.saves[key := SavesOf(w, key)]
  }

  lemma Reads(r: Rules, w: World, c: nat)
    requires c !in w.calls && r.keyOf(c) !in w.plain
    ensures WorldStep(r, w, Read(c))
         == World(w.plain, w.now, w.calls[c := Missed(|SavesOf(w, r.keyOf(c))|, w.now)], Kept(w, r.keyOf(c)))
  {
    var w' := WorldStep(r, w, Read(c));
    assert w'.calls == w.calls[c := Missed(|SavesOf(w, r.keyOf(c))|, w.now)];
  }

  function Until(r: Rules, w: World, c: nat): int {
    w.now + r.lockTtlOf(r.keyOf(c)) * 1000
  }

  function LockedBy(r: Rules, w: World, c: nat): Plain {
    w.plain[LockOf(r.keyOf(c)) := Item("1", Some(Until(r, w, c)))]
  }

  lemma Locks(r: Rules, w: World, c: nat)
    requires WorldMissed(w, c) && LockOf(r.keyOf(c)) !in w.plain
    ensures WorldStep(r, w, Lock(c))
         == World(LockedBy(r, w, c), w.now, w.calls[c := Running(w.calls[c].seen, w.calls[c].readAt, Until(r, w, c))],
                  Kept(w, r.keyOf(c)))
  {
    var w' := WorldStep(r, w, Lock(c));
    assert w'.calls == w.calls[c := Running(w.calls[c].seen, w.calls[c].readAt, Until(r, w, c))];
  }

  function Stored(r: Rules, w: World, c: nat, json: string): Plain {
    Put(w.plain, r.keyOf(c), json, r.ttlOf(r.keyOf(c)), w.now)
  }

  function Saved(r: Rules, w: World, c: nat, json: string): map<string, seq<Save>> {
    w.saves[r.keyOf(c) := SavesOf(w, r.keyOf(c)) + [Save(json, w.now)]]
  }

  lemma Finishes(r: Rules, w: World, c: nat, json: string)
    requires c in w.calls && w.calls[c].Running?
    ensures WorldStep(r, w, Finish(c, Value(json)))
         == World(Stored(r, w, c, json), w.now, w.calls[c := Unlocking(w.calls[c].until)], Saved(r, w, c, json))
  {
    var w' := WorldStep(r, w, Finish(c, Value(json)));
    assert w'.calls == w.calls[c := Unlocking(w.calls[c].until)];
  }

  lemma Unlocks(r: Rules, w: World, c: nat)
    requires c in w.calls && w.calls[c].Unlocking?
    ensures WorldStep(r, w, Unlock(c))
         == World(w.plain - {LockOf(r.keyOf(c))}, w.now, w.calls[c := Finished], Kept(w, r.keyOf(c)))
  {
    var w' := WorldStep(r, w, Unlock(c));
    assert w'.calls == w.calls[c := Finished];
  }

  lemma KeptKeeps(w: World, key: string, w': World)
    requires w'.saves == Kept(w, key)
    ensures forall k :: SavesOf(w', k) == SavesOf(w, k)
  {
  }

  /** A call reads and misses ... */
  lemma Misses(r: Rules, start: int, actions: seq<Action>, c: nat)
    requires var w := WorldRun(r, start, actions); c !in w.calls && r.keyOf(c) !in w.plain
    ensures var w, w' := WorldRun(r, start, actions), WorldRun(r, start, actions + [Read(c)]);
            && w'.now == w.now && w'.plain == w.plain && (forall k :: SavesOf(w', k) == SavesOf(w, k))
            && w'.calls == w.calls[c := Missed(|SavesOf(w, r.keyOf(c))|, w.now)]
  {
    var w := WorldRun(r, start, actions);
    WorldRunMore(r, start, actions, Read(c));
    Reads(r, w, c);
    KeptKeeps(w, r.keyOf(c), WorldRun(r, start, actions + [Read(c)]));
  }

  /** ... and locks. */
  lemma Enters(r: Rules, start: int, actions: seq<Action>, c: nat)
    requires var w := WorldRun(r, start, actions); WorldMissed(w, c) && LockOf(r.keyOf(c)) !in w.plain
    ensures var w, w' := WorldRun(r, start, actions), WorldRun(r, start, actions + [Lock(c)]);
            && w'.now == w.now && w'.plain == LockedBy(r, w, c) && (forall k :: SavesOf(w', k) == SavesOf(w, k))
            && w'.calls == w.calls[c := Running(w.calls[c].seen, w.calls[c].readAt, Until(r, w, c))]
  {
    var w := WorldRun(r, start, actions);
    WorldRunMore(r, start, actions, Lock(c));
    Locks(r, w, c);
    KeptKeeps(w, r.keyOf(c), WorldRun(r, start, actions + [Lock(c)]));
  }

  /** A call whose lock is taken is turned away. */
  lemma Refused(r: Rules, w: World, c: nat)
    requires var slot := LockOf(r.keyOf(c)); WorldMissed(w, c) && slot in w.plain && Live(w.plain[slot], w.now)
    ensures var w' := WorldStep(r, w, Lock(c)); c in w'.calls && w'.calls[c] == Rejected
  {
  }

  /** A call inside stores its result and unlocks. */
  lemma {:induction false} Leaves(r: Rules, start: int, actions: seq<Action>, c: nat)
    requires var w := WorldRun(r, start, actions); c in w.calls && w.calls[c].Running?
    ensures var w := WorldRun(r, start, actions);
            var w' := WorldRun(r, start, actions + [Finish(c, Value("{}"))] + [Unlock(c)]);
            && w'.now == w.now && w'.plain == Stored(r, w, c, "{}") - {LockOf(r.keyOf(c))} && w'.calls == w.calls[c := Finished]
            && (forall k :: SavesOf(w', k) == SavesOf(w, k) + if k == r.keyOf(c) then [Save("{}", w.now)] else [])
  {
    var w := WorldRun(r, start, actions);
    WorldRunMore(r, start, actions, Finish(c, Value("{}")));
    Finishes(r, w, c, "{}");
    var done := WorldRun(r, start, actions + [Finish(c, Value("{}"))]);
    WorldRunMore(r, start, actions + [Finish(c, Value("{}"))], Unlock(c));
    Unlocks(r, done, c);
    assert done.calls[c := Finished] == w.calls[c := Finished];
  }

  lemma ThreeSlots(key: string)
    ensures key != LockOf(key) && LockOf(key) != LockOf(LockOf(key)) && key != LockOf(LockOf(key))
  {
    assert |LockOf(key)| == |key| + 5 && |LockOf(LockOf(key))| == |key| + 10;
  }

  const FIRST_INSIDE: seq<Action> := [] + [Read(0)] + [Lock(0)]

  lemma AfterFirstEnters(r: Rules, start: int)
    ensures var w := WorldRun(r, start, FIRST_INSIDE);
            && w.now == start && w.plain == map[LockOf(r.keyOf(0)) := Item("1", Some(start + r.lockTtlOf(r.keyOf(0)) * 1000))]
            && w.calls == map[0 := Running(0, start, start + r.lockTtlOf(r.keyOf(0)) * 1000)]
            && forall k :: SavesOf(w, k) == []
  {
    Misses(r, start, [], 0);
    Enters(r, start, [] + [Read(0)], 0);
  }

  /** While a key is locked, a first call of its sibling replies with the text of the lock. */
  lemma {:induction false} ReplyFromLock(r: Rules, start: int)
    requires start > 0 && r.keyOf(1) == LockOf(r.keyOf(0))
    ensures var w := WorldRun(r, start, FIRST_INSIDE);
            && 1 !in w.calls && SavesOf(w, r.keyOf(1)) == [] && WorldStep(r, w, Read(1)).calls[1] == Replied("1")
            && !ReplyRight(r, w, 1)
  {
    AfterFirstEnters(r, start);
    ThreeSlots(r.keyOf(0));
  }

  const FIRST_DONE: seq<Action> := FIRST_INSIDE + [Finish(0, Value("{}"))] + [Unlock(0)]

  lemma {:induction false} AfterFirstDone(r: Rules, start: int)
    requires start > 0
    ensures var w := WorldRun(r, start, FIRST_DONE);
            && w.now == start && w.calls.Keys == {0} && w.calls[0].Finished?
            && r.keyOf(0) in w.plain && Live(w.plain[r.keyOf(0)], start)
            && forall k :: k in w.plain ==> k == r.keyOf(0)
  {
    AfterFirstEnters(r, start);
    Leaves(r, start, FIRST_INSIDE, 0);
    var w := WorldRun(r, start, FIRST_INSIDE);
    OnlyStored(r, w, 0, "{}");
    assert WorldRun(r, start, FIRST_DONE).plain == Stored(r, w, 0, "{}") - {LockOf(r.keyOf(0))};
  }

  /** Storing a result and giving the lock back leaves the live result in the place of the lock. */
  lemma OnlyStored(r: Rules, w: World, c: nat, json: string)
    requires w.now > 0 && w.plain.Keys == {LockOf(r.keyOf(c))}
    ensures var plain := Stored(r, w, c, json) - {LockOf(r.keyOf(c))};
            && plain.Keys == {r.keyOf(c)} && Live(plain[r.keyOf(c)], w.now)
  {
    LockIsAnotherKey(r.keyOf(c));
  }

  /** After the sibling has stored its result, a call of the key is turned away with nobody inside. */
  lemma {:induction false} BusyWithNobodyInside(r: Rules, start: int)
    requires start > 0 && r.keyOf(0) == LockOf(r.keyOf(1))
    ensures var w := WorldRun(r, start, FIRST_DONE + [Read(1)]);
            && WorldMissed(w, 1) && (forall c :: !WorldInside(w, c))
            && var w' := WorldStep(r, w, Lock(1)); 1 in w'.calls && w'.calls[1] == Rejected
  {
    ThreeSlots(r.keyOf(1));
    AfterFirstDone(r, start);
    Misses(r, start, FIRST_DONE, 1);
    Refused(r, WorldRun(r, start, FIRST_DONE + [Read(1)]), 1);
  }

  lemma BusyIsWrong(r: Rules, start: int)
    requires start > 0 && r.keyOf(0) == LockOf(r.keyOf(1))
    ensures !EntryRight(r, WorldRun(r, start, FIRST_DONE + [Read(1)]), 1)
  {
    BusyWithNobodyInside(r, start);
  }

  /** Both calls are inside, the key's lock in the place of the sibling's result. */
  const BOTH_INSIDE: seq<Action> := FIRST_INSIDE + [Read(1)] + [Lock(1)]

  lemma {:induction false} AfterBothEnter(r: Rules, start: int)
    requires start > 0 && r.keyOf(0) == LockOf(r.keyOf(1))
    ensures var w := WorldRun(r, start, BOTH_INSIDE);
            && w.now == start && 0 in w.calls && 1 in w.calls && w.calls[0].Running? && w.calls[1].Running?
            && w.calls.Keys == {0, 1} && (forall k :: SavesOf(w, k) == [])
            && w.plain.Keys == {LockOf(r.keyOf(0)), r.keyOf(0)}
  {
    ThreeSlots(r.keyOf(1));
    AfterFirstEnters(r, start);
    Misses(r, start, FIRST_INSIDE, 1);
    Enters(r, start, FIRST_INSIDE + [Read(1)], 1);
  }

  const SIBLING_DONE: seq<Action> := BOTH_INSIDE + [Finish(0, Value("{}"))] + [Unlock(0)]

  lemma {:induction false} AfterSiblingDone(r: Rules, start: int)
    requires start > 0 && r.keyOf(0) == LockOf(r.keyOf(1))
    ensures var w := WorldRun(r, start, SIBLING_DONE);
            && w.now == start && w.calls.Keys == {0, 1} && w.calls[1].Running?
            && SavesOf(w, r.keyOf(0)) == [Save("{}", start)] && w.plain.Keys == {r.keyOf(0)}
  {
    ThreeSlots(r.keyOf(1));
    AfterBothEnter(r, start);
    Leaves(r, start, BOTH_INSIDE, 0);
  }

  const BOTH_DONE: seq<Action> := SIBLING_DONE + [Finish(1, Value("{}"))] + [Unlock(1)]

  /** The key's unlock has deleted the sibling's result. */
  lemma {:induction false} AfterBothDone(r: Rules, start: int)
    requires start > 0 && r.keyOf(0) == LockOf(r.keyOf(1))
    ensures var w := WorldRun(r, start, BOTH_DONE);
            && w.now == start && w.plain.Keys == {r.keyOf(1)} && w.calls.Keys == {0, 1}
            && SavesOf(w, r.keyOf(0)) == [Save("{}", start)]
  {
    LockIsAnotherKey(r.keyOf(1));
    AfterSiblingDone(r, start);
    Leaves(r, start, SIBLING_DONE, 1);
    OnlyStored(r, WorldRun(r, start, SIBLING_DONE), 1, "{}");
  }

  lemma FirstEntry(r: Rules, start: int)
    ensures WorldEntersAt(r, start, BOTH_DONE + [Read(2)] + [Lock(2)], r.keyOf(0), 1)
  {
    var actions := BOTH_DONE + [Read(2)] + [Lock(2)];
    AfterFirstEnters(r, start);
    assert actions[..2] == FIRST_INSIDE && actions[..1] == [] + [Read(0)];
    Misses(r, start, [], 0);
  }

  /** Call 2 of the sibling reads after all others are over, and misses. */
  lemma {:induction false} LateRead(r: Rules, start: int)
    requires start > 0 && r.keyOf(0) == LockOf(r.keyOf(1)) && r.keyOf(2) == r.keyOf(0)
    ensures var w := WorldRun(r, start, BOTH_DONE + [Read(2)]);
            && 2 in w.calls && w.calls[2] == Missed(1, start) && w.now == start && SavesOf(w, r.keyOf(2)) == [Save("{}", start)]
            && LockOf(r.keyOf(2)) !in w.plain
  {
    ThreeSlots(r.keyOf(1));
    AfterBothDone(r, start);
    Misses(r, start, BOTH_DONE, 2);
  }

  lemma {:induction false} SecondEntry(r: Rules, start: int)
    requires start > 0 && r.keyOf(0) == LockOf(r.keyOf(1)) && r.keyOf(2) == r.keyOf(0)
    ensures WorldEntersAt(r, start, BOTH_DONE + [Read(2)] + [Lock(2)], r.keyOf(2), 9)
  {
    var actions := BOTH_DONE + [Read(2)] + [Lock(2)];
    LateRead(r, start);
    Enters(r, start, BOTH_DONE + [Read(2)], 2);
    assert actions[..9] == BOTH_DONE + [Read(2)] && actions[..10] == actions;
  }

  /** It has seen the stored result, which is fresh, and its key's only run returned it. It runs the
      handler again. */
  lemma {:induction false} SiblingRunsTwice(r: Rules, start: int)
    requires start > 0 && r.keyOf(0) == LockOf(r.keyOf(1)) && r.keyOf(2) == r.keyOf(0)
    ensures var w := WorldRun(r, start, BOTH_DONE + [Read(2)]);
            2 in w.calls && w.calls[2] == Missed(1, start) && SavesOf(w, r.keyOf(2)) == [Save("{}", start)] && w.now == start
    ensures |WorldEntries(r, start, BOTH_DONE + [Read(2)] + [Lock(2)], r.keyOf(2))| > 1
  {
    LateRead(r, start);
    FirstEntry(r, start);
    SecondEntry(r, start);
    TwoIsMoreThanOne(WorldEntries(r, start, BOTH_DONE + [Read(2)] + [Lock(2)], r.keyOf(2)), 1, 9);
  }

  // ---- So the laws hold exactly for keys that are apart ----

  /** After this run, a call of the key replies and enters as the key's own history says. */
  ghost predicate LawsAt(r: Rules, start: int, actions: seq<Action>, call: nat) {
    var w := WorldRun(r, start, actions);
    && (call !in w.calls ==> ReplyRight(r, w, call))
    && (WorldTimely(r, start, actions, r.keyOf(call)) && WorldMissed(w, call) ==> EntryRight(r, w, call))
  }

  /** Over all runs, its calls do. */
  ghost predicate LawsHold(r: Rules, key: string) {
    forall start, actions, call :: start > 0 && r.keyOf(call) == key ==> LawsAt(r, start, actions, call)
  }

  lemma LawsHoldApart(r: Rules, key: string)
    requires forall c :: r.keyOf(c) != key ==> Apart(key, r.keyOf(c))
    ensures LawsHold(r, key)
  {
    forall start, actions, call | start > 0 && r.keyOf(call) == key ensures LawsAt(r, start, actions, call) {
      assert Secluded(r, actions, key);
      if call !in WorldRun(r, start, actions).calls {
        KeyReplyExact(r, start, actions, call);
      }
      if WorldTimely(r, start, actions, key) {
        KeyHandlersExclude(r, start, actions, call, call);
      }
    }
  }

  lemma WrongReply(r: Rules, start: int, actions: seq<Action>, call: nat)
    requires start > 0 && call !in WorldRun(r, start, actions).calls && !ReplyRight(r, WorldRun(r, start, actions), call)
    ensures !LawsHold(r, r.keyOf(call))
  {
    assert !LawsAt(r, start, actions, call);
  }

  /** For two keys in use: the laws hold of both, in every run, if and only if neither is the other's
      lock. */
  lemma LawsHoldExactly(r: Rules, a: string, b: string)
    requires r.keyOf(0) == a && r.keyOf(1) == b && a != b
    requires forall c :: r.keyOf(c) == a || r.keyOf(c) == b
    ensures LawsHold(r, a) && LawsHold(r, b) <==> Apart(a, b)
  {
    if Apart(a, b) {
      LawsHoldApart(r, a);
      LawsHoldApart(r, b);
    } else if b == LockOf(a) {
      ReplyFromLock(r, 1);
      WrongReply(r, 1, FIRST_INSIDE, 1);
    } else {
      ReplyToFirst(r, 1);
      WrongReply(r, 1, SECOND_INSIDE, 0);
    }
  }

  const SECOND_INSIDE: seq<Action> := [] + [Read(1)] + [Lock(1)]

  lemma {:induction false} ReplyToFirst(r: Rules, start: int)
    requires start > 0 && r.keyOf(0) == LockOf(r.keyOf(1))
    ensures var w := WorldRun(r, start, SECOND_INSIDE); 0 !in w.calls && !ReplyRight(r, w, 0)
  {
    ThreeSlots(r.keyOf(1));
    Misses(r, start, [], 1);
    Enters(r, start, [] + [Read(1)], 1);
  }
}
