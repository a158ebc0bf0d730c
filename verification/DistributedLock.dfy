/** lib/redis/distributed-lock.ts: a lease per user address, taken with SET NX EX and given back
    by compare-and-delete. */
module DistributedLock {
  import opened Wrappers
  import opened Text
  import opened Store

  datatype LockResult = Acquired(lockId: string) | Refused

  function LockKey(user: string): string {
    "lock:rebalance:" + ToLower(user)
  }

  /** Addresses share a lock if and only if they are equal up to letter case. */
  lemma LockKeyExactly(user: string, other: string)
    ensures LockKey(user) == LockKey(other) <==> SameUpToCase(user, other)
  {
    LowerSameExactly(user, other);
    var n := |"lock:rebalance:"|;
    assert LockKey(user)[n..] == ToLower(user) && LockKey(other)[n..] == ToLower(other);
  }

  /** The atomic release: delete the entry if it still holds this id. */
  function Released(plain: Plain, key: string, lockId: string, now: int): Plain {
    if Lookup(plain, key, now) == Some(lockId) then plain - {key} else plain
  }

  method AcquireUserLock(store: MemoryStore, user: string, ttl: nat, lockId: string, now: int) returns (r: LockResult)
    modifies store`plain
    ensures var (plain, done) := PutIfAbsent(old(store.plain), LockKey(user), lockId, ttl, now);
            store.plain == plain && r == if done then Acquired(lockId) else Refused
  {
    var acquired := store.SetNX(LockKey(user), lockId, ttl, now);
    return if acquired then Acquired(lockId) else Refused;
  }

  /** The in-memory release, with nothing between its read and its delete: to every later reader
      and writer the same as the atomic one. */
  method ReleaseUserLock(store: MemoryStore, user: string, lockId: string, now: int)
    modifies store`plain
    ensures store.plain == Swept(Released(old(store.plain), LockKey(user), lockId, now), LockKey(user), now)
  {
    var current := store.Get(LockKey(user), now);
    if current == Some(lockId) {
      store.Del(LockKey(user));
    }
  }

  // ---- The protocol: any clients, any interleaving ----

  /** `Acquire` and `Release` are the atomic store operations. `PeekRelease` and `DropRelease` are
      the two steps of the in-memory release; other steps may come between them. `Drop` acts only
      if the peek found the caller's id. */
  datatype Action =
    | Tick(ms: nat)
    | Acquire(user: string, lockId: string, ttl: nat)
    | Release(user: string, lockId: string)
    | PeekRelease(user: string, lockId: string)
    | DropRelease(user: string, lockId: string)

  /** What a client was given: the key and the lease's last millisecond. */
  datatype Grant = Grant(key: string, expiry: int)

  /** `grants`: what was given out and not yet given back, by lock id. `used`: every id tried.
      `peeked`: the ids whose two-step release has read its own id and not yet deleted. */
  datatype State = State(plain: Plain, now: int, grants: map<string, Grant>, used: set<string>, peeked: set<string>)

  function Start(now: int): State {
    State(map[], now, map[], {}, {})
  }

  /** Lock ids are random UUIDs, so an id already tried is never tried again; a client releases
      only what it was granted, under the address it was granted for. */
  function Step(s: State, a: Action): State {
    match a
    case Tick(ms) => s.(now := s.now + ms)
    case Acquire(user, id, ttl) =>
      if id in s.used then s
      else
        var (plain, done) := PutIfAbsent(s.plain, LockKey(user), id, ttl, s.now);
        s.(plain := plain, used := s.used + {id},
           grants := if done then s.grants[id := Grant(LockKey(user), s.now + ttl * 1000)] else s.grants)
    case Release(user, id) =>
      if id !in s.grants || s.grants[id].key != LockKey(user) then s
      else s.(plain := Released(s.plain, LockKey(user), id, s.now), grants := s.grants - {id}, peeked := s.peeked - {id})
    case PeekRelease(user, id) =>
      if id !in s.grants || s.grants[id].key != LockKey(user) then s
      else if Lookup(s.plain, LockKey(user), s.now) == Some(id)
      then s.(plain := Swept(s.plain, LockKey(user), s.now), peeked := s.peeked + {id})
      else s.(plain := Swept(s.plain, LockKey(user), s.now), grants := s.grants - {id}, peeked := s.peeked - {id})
    case DropRelease(user, id) =>
      if id !in s.peeked || id !in s.grants || s.grants[id].key != LockKey(user) then s
      else s.(plain := s.plain - {LockKey(user)}, grants := s.grants - {id}, peeked := s.peeked - {id})
  }

  function Run(start: int, actions: seq<Action>): State {
    if actions == [] then Start(start)
    else Step(Run(start, actions[..|actions| - 1]), actions[|actions| - 1])
  }

  /** A client holds the lock while its lease has not run out and it has not given it back. */
  predicate Holds(s: State, id: string) {
    id in s.grants && s.now <= s.grants[id].expiry
  }

  /** Every delete of a two-step release comes while the lease it read is still running. */
  ghost predicate NoExpiryBetween(start: int, actions: seq<Action>) {
    forall i :: 0 <= i < |actions| && actions[i].DropRelease? ==>
      var s := Run(start, actions[..i]);
      actions[i].lockId in s.peeked && actions[i].lockId in s.grants ==> Holds(s, actions[i].lockId)
  }

  /** Every lease that has not run out is backed by the stored entry, and every live entry is
      somebody's running lease. */
  ghost predicate Backed(s: State) {
    && s.now > 0
    && (forall id :: id in s.grants ==> id in s.used)
    && (forall id :: Holds(s, id) ==>
          s.grants[id].key in s.plain && s.plain[s.grants[id].key] == Item(id, Some(s.grants[id].expiry)))
    && (forall k :: k in s.plain ==> s.plain[k].text in s.used && s.plain[k].expiry.Some? && s.plain[k].expiry.value > 0)
    && (forall k :: k in s.plain && Live(s.plain[k], s.now) ==>
          s.plain[k].text in s.grants && s.grants[s.plain[k].text] == Grant(k, s.plain[k].expiry.value))
  }

  lemma AcquireBacked(s: State, user: string, id: string, ttl: nat)
    requires Backed(s)
    ensures Backed(Step(s, Acquire(user, id, ttl)))
  {
  }

  lemma ReleaseBacked(s: State, user: string, id: string)
    requires Backed(s)
    ensures Backed(Step(s, Release(user, id))) && Backed(Step(s, PeekRelease(user, id)))
  {
  }

  lemma DropBacked(s: State, user: string, id: string)
    requires Backed(s) && (id in s.peeked && id in s.grants ==> Holds(s, id))
    ensures Backed(Step(s, DropRelease(user, id)))
  {
  }

  lemma StepBacked(s: State, a: Action)
    requires Backed(s)
    requires a.DropRelease? && a.lockId in s.peeked && a.lockId in s.grants ==> Holds(s, a.lockId)
    ensures Backed(Step(s, a))
  {
    match a
    case Tick(_) =>
    case Acquire(user, id, ttl) => AcquireBacked(s, user, id, ttl);
    case Release(user, id) => ReleaseBacked(s, user, id);
    case PeekRelease(user, id) => ReleaseBacked(s, user, id);
    case DropRelease(user, id) => DropBacked(s, user, id);
  }

  lemma {:induction false} RunBacked(start: int, actions: seq<Action>)
    requires start > 0 && NoExpiryBetween(start, actions)
    ensures Backed(Run(start, actions))
  {
    if actions != [] {
      var front := actions[..|actions| - 1];
      forall i | 0 <= i < |front| ensures front[..i] == actions[..i] {}
      RunBacked(start, front);
      StepBacked(Run(start, front), actions[|actions| - 1]);
    }
  }

  /** A state some interleaving leads to. */
  ghost predicate Reachable(s: State) {
    exists start, actions :: start > 0 && NoExpiryBetween(start, actions) && s == Run(start, actions)
  }

  lemma ReachableBacked(s: State)
    requires Reachable(s)
    ensures Backed(s)
  {
    var start, actions :| start > 0 && NoExpiryBetween(start, actions) && s == Run(start, actions);
    RunBacked(start, actions);
  }

  /** After any interleaving, at most one client holds the lock of an address, and the stored id
      is its own. */
  lemma MutualExclusion(s: State, id: string, id': string)
    requires Reachable(s) && Holds(s, id) && Holds(s, id') && s.grants[id].key == s.grants[id'].key
    ensures id == id' && Lookup(s.plain, s.grants[id].key, s.now) == Some(id)
  {
    ReachableBacked(s);
  }

  /** Some client's lease on this key is running. */
  ghost predicate Held(s: State, key: string) {
    exists id :: Holds(s, id) && s.grants[id].key == key
  }

  /** A new client gets the lock exactly when no lease on it is running: never while one is, and
      always once the last one has been given back or has run out. */
  lemma AcquireExact(s: State, user: string, id: string, ttl: nat)
    requires Reachable(s) && id !in s.used
    ensures Holds(Step(s, Acquire(user, id, ttl)), id) <==> !Held(s, LockKey(user))
  {
    ReachableBacked(s);
    AcquireBackedExact(s, user, id, ttl);
  }

  lemma AcquireBackedExact(s: State, user: string, id: string, ttl: nat)
    requires Backed(s) && id !in s.used
    ensures Holds(Step(s, Acquire(user, id, ttl)), id) <==> !Held(s, LockKey(user))
    ensures id in Step(s, Acquire(user, id, ttl)).grants <==> !Held(s, LockKey(user))
  {
    var key := LockKey(user);
    if key in s.plain && Live(s.plain[key], s.now) {
      assert Holds(s, s.plain[key].text);
    }
  }

  /** Whatever clients of another address do, and whatever happens to their leases, who holds the lock of
      this one does not change. */
  lemma AddressesIndependent(s: State, a: Action, user: string)
    requires !a.Tick? && !SameUpToCase(a.user, user)
    requires Reachable(s)
    ensures Held(Step(s, a), LockKey(user)) <==> Held(s, LockKey(user))
  {
    ReachableBacked(s);
    LockKeyExactly(a.user, user);
    var s' := Step(s, a);
    forall id | Holds(s, id) && s.grants[id].key == LockKey(user) ensures Holds(s', id) && s'.grants[id].key == LockKey(user) {}
    forall id | Holds(s', id) && s'.grants[id].key == LockKey(user) ensures Holds(s, id) && s.grants[id].key == LockKey(user) {}
  }

  /** A release, whether or not its own lease has run out, touches no other client's lease. */
  lemma ReleaseSparesOthers(s: State, user: string, id: string, other: string)
    requires Reachable(s) && other != id && Holds(s, other)
    ensures var s' := Step(s, Release(user, id));
            Holds(s', other) && Lookup(s'.plain, s.grants[other].key, s'.now) == Some(other)
  {
    ReachableBacked(s);
  }

  /** A two-step release whose lease is still running at its delete leaves what the atomic release
      leaves. */
  lemma TwoStepRefinesAtomic(s: State, user: string, id: string)
    requires Reachable(s) && id in s.peeked && Holds(s, id) && s.grants[id].key == LockKey(user)
    ensures Step(s, DropRelease(user, id)) == Step(s, Release(user, id))
  {
    ReachableBacked(s);
  }

  /** With nothing in between, the two steps end the client's grant and leave what the atomic release
      leaves, swept, whether or not its lease has run out. */
  lemma TwoStepsReleaseExactly(s: State, user: string, id: string)
    requires Reachable(s) && id in s.grants && s.grants[id].key == LockKey(user)
    ensures var s', released := Step(Step(s, PeekRelease(user, id)), DropRelease(user, id)), Step(s, Release(user, id));
            && s'.plain == Swept(released.plain, LockKey(user), s.now)
            && s'.grants == s.grants - {id} && s'.peeked == s.peeked - {id} && s'.used == s.used && s'.now == s.now
    ensures Holds(s, id) ==> LockKey(user) !in Step(Step(s, PeekRelease(user, id)), DropRelease(user, id)).plain
  {
    ReachableBacked(s);
  }

  /** There is always an id not tried yet: one longer than all of them. */
  lemma UnusedId(used: set<string>) returns (id: string)
    ensures id !in used
  {
    var rest := used;
    var length: nat := 0;
    while rest != {}
      invariant rest <= used && forall u | u in used - rest :: |u| < length
      decreases rest
    {
      var u :| u in rest;
      rest := rest - {u};
      length := if |u| < length then length else |u| + 1;
    }
    id := seq(length, _ => 'x');
    assert id in used ==> id in used - rest;
  }

  /** Every running lease is still the stored entry of its key. */
  ghost predicate Safe(s: State) {
    forall id :: Holds(s, id) ==> Lookup(s.plain, s.grants[id].key, s.now) == Some(id)
  }

  /** Between the two steps of a release another client may try to acquire. Whatever it does, the
      delete is safe if and only if the releasing client's lease is still running when the other
      client comes. */
  lemma TwoStepSafeExactly(s: State, user: string, id: string)
    requires Reachable(s) && id in s.peeked && id in s.grants && s.grants[id].key == LockKey(user)
    ensures Holds(s, id) <==>
            forall other, ttl :: other !in s.used ==>
              Safe(Step(Step(s, Acquire(user, other, ttl)), DropRelease(user, id)))
  {
    ReachableBacked(s);
    if Holds(s, id) {
      forall other, ttl | other !in s.used
        ensures Safe(Step(Step(s, Acquire(user, other, ttl)), DropRelease(user, id)))
      {
        StepBacked(s, Acquire(user, other, ttl));
        StepBacked(Step(s, Acquire(user, other, ttl)), DropRelease(user, id));
      }
    } else {
      var other := UnusedId(s.used);
      AcquireExact(s, user, other, 1);
      var mid := Step(s, Acquire(user, other, 1));
      var owner := other;
      if Held(s, LockKey(user)) {
        owner :| Holds(s, owner) && s.grants[owner].key == LockKey(user);
      }
      assert Holds(mid, owner) && mid.grants[owner].key == LockKey(user);
      assert Holds(Step(mid, DropRelease(user, id)), owner);
      assert !Safe(Step(mid, DropRelease(user, id)));
    }
  }
}
