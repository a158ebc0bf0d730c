/** lib/redis/rate-limiter.ts over several stores. A process whose first connection fails is answered
    from its own memory (lib/redis/client.ts), so two calls need not reach the same store. */
module LimiterStores {
  import opened RateLimiter

  /** A call, and the store it reaches. */
  datatype Placed = Placed(store: nat, call: Call)

  function CallsAt(calls: seq<Placed>, store: nat): seq<Call> {
    if calls == [] then []
    else
      var last := calls[|calls| - 1];
      CallsAt(calls[..|calls| - 1], store) + if last.store == store then [last.call] else []
  }

  ghost predicate ClockedEverywhere(calls: seq<Placed>) {
    forall i, j :: 0 <= i < j < |calls| ==> calls[i].call.now <= calls[j].call.now && calls[i].call.uuid != calls[j].call.uuid
  }

  /** How many calls the first `n` stores together allow in the window that starts at `start`. */
  ghost function AllowedOver(cfg: Config, calls: seq<Placed>, n: nat, key: string, start: int): nat {
    if n == 0 then 0 else AllowedOver(cfg, calls, n - 1, key, start) + AllowedFrom(cfg, CallsAt(calls, n - 1), key, start)
  }

  /** No run over `n` stores allows more than `limit` calls in a window. */
  ghost predicate Bounded(cfg: Config, n: nat, key: string, limit: nat) {
    forall calls, start :: ClockedEverywhere(calls) ==> AllowedOver(cfg, calls, n, key, start) <= limit
  }

  // ---- Every store keeps its own bound ----

  lemma {:induction false} CallsAtComeFrom(calls: seq<Placed>, store: nat)
    ensures forall c :: c in CallsAt(calls, store) ==> exists i :: 0 <= i < |calls| && calls[i].call == c
  {
    if calls != [] {
      var front := calls[..|calls| - 1];
      CallsAtComeFrom(front, store);
      forall c | c in CallsAt(calls, store) ensures exists i :: 0 <= i < |calls| && calls[i].call == c {
        if c in CallsAt(front, store) {
          var i :| 0 <= i < |front| && front[i].call == c;
          assert calls[i].call == c;
        } else {
          assert calls[|calls| - 1].call == c;
        }
      }
    }
  }

  lemma {:induction false} CallsAtClocked(calls: seq<Placed>, store: nat)
    requires ClockedEverywhere(calls)
    ensures Clocked(CallsAt(calls, store))
  {
    if calls != [] {
      var front, last := calls[..|calls| - 1], calls[|calls| - 1];
      CallsAtClocked(front, store);
      CallsAtComeFrom(front, store);
      forall c | c in CallsAt(front, store) ensures c.now <= last.call.now && c.uuid != last.call.uuid {
        var i :| 0 <= i < |front| && front[i].call == c;
        assert calls[i].call == c;
      }
      var before := CallsAt(front, store);
      assert forall i | 0 <= i < |before| :: before[i] in before;
    }
  }

  function Repeated(n: nat, m: nat): nat {
    if n == 0 then 0 else Repeated(n - 1, m) + m
  }

  lemma {:induction false} RepeatedIsProduct(n: nat, m: nat)
    ensures Repeated(n, m) == n * m
  {
    if n > 0 {
      RepeatedIsProduct(n - 1, m);
      assert (n - 1) * m + m == n * m;
    }
  }

  lemma {:induction false} StoresRepeat(cfg: Config, calls: seq<Placed>, n: nat, key: string, start: int)
    requires cfg.failClosed && ClockedEverywhere(calls)
    ensures AllowedOver(cfg, calls, n, key, start) <= Repeated(n, cfg.maxRequests)
  {
    if n > 0 {
      StoresRepeat(cfg, calls, n - 1, key, start);
      CallsAtClocked(calls, n - 1);
      WindowBound(cfg, CallsAt(calls, n - 1), key, start);
    }
  }

  /** With a limiter that fails closed, each store adds its own limit at most. */
  lemma StoresAdd(cfg: Config, calls: seq<Placed>, n: nat, key: string, start: int)
    requires cfg.failClosed && ClockedEverywhere(calls)
    ensures AllowedOver(cfg, calls, n, key, start) <= n * cfg.maxRequests
  {
    StoresRepeat(cfg, calls, n, key, start);
    RepeatedIsProduct(n, cfg.maxRequests);
  }

  lemma {:induction false} EmptyWindow(cfg: Config, calls: seq<Placed>, n: nat, key: string, start: int)
    requires cfg.windowMs == 0
    ensures AllowedOver(cfg, calls, n, key, start) == 0
  {
    if n > 0 {
      EmptyWindow(cfg, calls, n - 1, key, start);
      assert AdmittedIn(Run(cfg, CallsAt(calls, n - 1)), key, start, start + cfg.windowMs) == {};
    }
  }

  // ---- And they do add up ----

  function NthCall(key: string, n: nat): Call {
    Call(key, 0, seq(n, _ => 'x'), true)
  }

  /** After `calls`, `m` more on one store in the first millisecond, their ids longer and longer. */
  function Burst(calls: seq<Placed>, key: string, store: nat, m: nat): seq<Placed> {
    if m == 0 then calls
    else
      var front := Burst(calls, key, store, m - 1);
      front + [Placed(store, NthCall(key, |front|))]
  }

  /** `m` calls on each of the first `n` stores. */
  function Bursts(key: string, n: nat, m: nat): seq<Placed> {
    if n == 0 then [] else Burst(Bursts(key, n - 1, m), key, n - 1, m)
  }

  /** Each call is the one that belongs at its place. */
  ghost predicate Numbered(calls: seq<Placed>, key: string) {
    forall i :: 0 <= i < |calls| ==> calls[i].call == NthCall(key, i)
  }

  lemma NumberedClocked(calls: seq<Placed>, key: string)
    requires Numbered(calls, key)
    ensures ClockedEverywhere(calls)
  {
    forall i, j | 0 <= i < j < |calls| ensures calls[i].call.uuid != calls[j].call.uuid {
      assert |NthCall(key, i).uuid| < |NthCall(key, j).uuid|;
    }
  }

  lemma {:induction false} BurstNumbered(calls: seq<Placed>, key: string, store: nat, m: nat)
    requires Numbered(calls, key)
    ensures Numbered(Burst(calls, key, store, m), key)
  {
    if m > 0 {
      BurstNumbered(calls, key, store, m - 1);
    }
  }

  lemma {:induction false} BurstsNumbered(key: string, n: nat, m: nat)
    ensures Numbered(Bursts(key, n, m), key)
  {
    if n > 0 {
      BurstsNumbered(key, n - 1, m);
      BurstNumbered(Bursts(key, n - 1, m), key, n - 1, m);
    }
  }

  lemma CallsAtMore(calls: seq<Placed>, c: Placed, store: nat)
    ensures CallsAt(calls + [c], store) == CallsAt(calls, store) + if c.store == store then [c.call] else []
  {
    assert (calls + [c])[..|calls|] == calls;
  }

  /** A burst brings its calls to its store and none to another. */
  lemma {:induction false} BurstReaches(calls: seq<Placed>, key: string, store: nat, m: nat, other: nat)
    ensures other != store ==> CallsAt(Burst(calls, key, store, m), other) == CallsAt(calls, other)
    ensures other == store ==> |CallsAt(Burst(calls, key, store, m), other)| == |CallsAt(calls, other)| + m
  {
    if m > 0 {
      var front := Burst(calls, key, store, m - 1);
      BurstReaches(calls, key, store, m - 1, other);
      CallsAtMore(front, Placed(store, NthCall(key, |front|)), other);
    }
  }

  lemma {:induction false} BurstsReach(key: string, n: nat, m: nat, store: nat)
    ensures |CallsAt(Bursts(key, n, m), store)| == if store < n then m else 0
  {
    if n > 0 {
      BurstsReach(key, n - 1, m, store);
      BurstReaches(Bursts(key, n - 1, m), key, n - 1, m, store);
    }
  }

  /** Calls of one key in the first millisecond of a working store. */
  ghost predicate AtFirst(calls: seq<Call>, key: string) {
    forall c :: c in calls ==> c.key == key && c.now == 0 && c.up
  }

  ghost predicate AllAdmitted(w: World, key: string, n: nat) {
    |w.admitted| == n && forall m :: m in w.admitted ==> w.admitted[m] == Admission(key, 0)
  }

  lemma AllInWindow(w: World, key: string, n: nat, lo: int, hi: int)
    requires AllAdmitted(w, key, n) && lo <= 0 < hi
    ensures |AdmittedIn(w, key, lo, hi)| == n
  {
    assert AdmittedIn(w, key, lo, hi) == w.admitted.Keys;
  }

  lemma OneMoreAdmitted(cfg: Config, w: World, next: Call, n: nat)
    requires AllAdmitted(w, next.key, n) && next.now == 0 && MemberName(next.now, next.uuid) !in w.admitted
    requires Admit(cfg, w.zsets, next).1.allowed
    ensures AllAdmitted(Step(cfg, w, next), next.key, n + 1)
  {
  }

  lemma {:induction false} NextAllowed(cfg: Config, calls: seq<Call>, next: Call, key: string)
    requires Clocked(calls + [next]) && AtFirst(calls, key) && next.key == key && next.now == 0 && next.up
    requires cfg.windowMs > 0 && |calls| < cfg.maxRequests && AllAdmitted(Run(cfg, calls), key, |calls|)
    ensures Admit(cfg, Run(cfg, calls).zsets, next).1.allowed
  {
    var w := Run(cfg, calls);
    AllInWindow(w, key, |calls|, next.now - cfg.windowMs + 1, next.now + 1);
    assert |AdmittedIn(w, next.key, next.now - cfg.windowMs + 1, next.now + 1)| < cfg.maxRequests;
    AdmissionExact(cfg, calls, next);
  }

  lemma {:induction false} FrontAtFirst(calls: seq<Call>, key: string)
    requires AtFirst(calls, key) && calls != []
    ensures AtFirst(calls[..|calls| - 1], key)
    ensures var next := calls[|calls| - 1]; next.key == key && next.now == 0 && next.up
  {
  }

  /** As many as the limit are all admitted. */
  lemma {:induction false} AdmitsAll(cfg: Config, calls: seq<Call>, key: string)
    requires Clocked(calls) && AtFirst(calls, key) && |calls| <= cfg.maxRequests && cfg.windowMs > 0
    ensures AllAdmitted(Run(cfg, calls), key, |calls|)
  {
    if calls != [] {
      var n := |calls| - 1;
      var next := calls[n];
      FrontAtFirst(calls, key);
      AdmitsAll(cfg, calls[..n], key);
      assert calls[..n] + [next] == calls;
      NextAllowed(cfg, calls[..n], next, key);
      NextIsFresh(cfg, calls);
      OneMoreAdmitted(cfg, Run(cfg, calls[..n]), next, n);
    }
  }

  lemma NumberedAtFirst(calls: seq<Placed>, key: string, store: nat)
    requires Numbered(calls, key)
    ensures AtFirst(CallsAt(calls, store), key)
  {
    CallsAtComeFrom(calls, store);
  }

  lemma StoreFull(cfg: Config, key: string, n: nat, store: nat)
    requires store < n && cfg.windowMs > 0
    ensures AllowedFrom(cfg, CallsAt(Bursts(key, n, cfg.maxRequests), store), key, 0) == cfg.maxRequests
  {
    var calls := Bursts(key, n, cfg.maxRequests);
    BurstsNumbered(key, n, cfg.maxRequests);
    NumberedClocked(calls, key);
    CallsAtClocked(calls, store);
    NumberedAtFirst(calls, key, store);
    BurstsReach(key, n, cfg.maxRequests, store);
    AdmitsAll(cfg, CallsAt(calls, store), key);
    AllInWindow(Run(cfg, CallsAt(calls, store)), key, cfg.maxRequests, 0, cfg.windowMs);
  }

  lemma {:induction false} StoresFullRepeat(cfg: Config, calls: seq<Placed>, k: nat, key: string)
    requires forall i: nat :: i < k ==> AllowedFrom(cfg, CallsAt(calls, i), key, 0) == cfg.maxRequests
    ensures AllowedOver(cfg, calls, k, key, 0) == Repeated(k, cfg.maxRequests)
  {
    if k > 0 {
      StoresFullRepeat(cfg, calls, k - 1, key);
    }
  }

  lemma StoresFull(cfg: Config, calls: seq<Placed>, k: nat, key: string)
    requires forall i: nat :: i < k ==> AllowedFrom(cfg, CallsAt(calls, i), key, 0) == cfg.maxRequests
    ensures AllowedOver(cfg, calls, k, key, 0) == k * cfg.maxRequests
  {
    StoresFullRepeat(cfg, calls, k, key);
    RepeatedIsProduct(k, cfg.maxRequests);
  }

  // ---- A limiter that fails open has no bound on any store ----

  /** The calls of an outage, all on the first store. */
  function OnFirst(calls: seq<Call>): seq<Placed> {
    seq(|calls|, i requires 0 <= i < |calls| => Placed(0, calls[i]))
  }

  lemma {:induction false} OnFirstReach(calls: seq<Call>)
    ensures CallsAt(OnFirst(calls), 0) == calls
  {
    if calls != [] {
      var n := |calls| - 1;
      OnFirstReach(calls[..n]);
      assert OnFirst(calls)[..n] == OnFirst(calls[..n]);
    }
  }

  lemma {:induction false} AllowedOverAtLeast(cfg: Config, calls: seq<Placed>, n: nat, key: string, start: int)
    requires n > 0
    ensures AllowedFrom(cfg, CallsAt(calls, 0), key, start) <= AllowedOver(cfg, calls, n, key, start)
  {
    if n > 1 {
      AllowedOverAtLeast(cfg, calls, n - 1, key, start);
    }
  }

  lemma OutageUnbounded(cfg: Config, n: nat, key: string, limit: nat)
    requires n > 0 && !cfg.failClosed && cfg.windowMs > 0
    ensures !Bounded(cfg, n, key, limit)
  {
    var calls := OutageCalls(key, limit + 1);
    OutageClocked(key, limit + 1);
    OutageAdmitsAll(cfg, key, limit + 1);
    OnFirstReach(calls);
    AllowedOverAtLeast(cfg, OnFirst(calls), n, key, 0);
    assert ClockedEverywhere(OnFirst(calls)) && AllowedOver(cfg, OnFirst(calls), n, key, 0) > limit;
  }

  /** Over all runs of calls that reach any of `n` stores, outages included, `limit` bounds every
      window if and only if the limiter fails closed and `limit` covers the limits of all stores
      together (a window of no length holds nothing). */
  lemma BoundOverStores(cfg: Config, n: nat, key: string, limit: nat)
    requires n > 0
    ensures Bounded(cfg, n, key, limit) <==> cfg.windowMs == 0 || (cfg.failClosed && n * cfg.maxRequests <= limit)
  {
    if cfg.windowMs == 0 {
      forall calls, start ensures AllowedOver(cfg, calls, n, key, start) == 0 { EmptyWindow(cfg, calls, n, key, start); }
    } else if !cfg.failClosed {
      OutageUnbounded(cfg, n, key, limit);
    } else if n * cfg.maxRequests <= limit {
      forall calls, start | ClockedEverywhere(calls) ensures AllowedOver(cfg, calls, n, key, start) <= limit {
        StoresAdd(cfg, calls, n, key, start);
      }
    } else {
      var calls := Bursts(key, n, cfg.maxRequests);
      BurstsNumbered(key, n, cfg.maxRequests);
      NumberedClocked(calls, key);
      forall i: nat | i < n ensures AllowedFrom(cfg, CallsAt(calls, i), key, 0) == cfg.maxRequests { StoreFull(cfg, key, n, i); }
      StoresFull(cfg, calls, n, key);
      assert AllowedOver(cfg, calls, n, key, 0) > limit;
    }
  }

  /** So the configured limit holds exactly when all calls share one store, or nothing is admitted
      at all. */
  lemma SharedStoreNeeded(cfg: Config, n: nat, key: string)
    requires n > 0
    ensures Bounded(cfg, n, key, cfg.maxRequests) <==> cfg.windowMs == 0 || (cfg.failClosed && (n == 1 || cfg.maxRequests == 0))
  {
    BoundOverStores(cfg, n, key, cfg.maxRequests);
    if n > 1 && cfg.maxRequests > 0 {
      assert (n - 1) * cfg.maxRequests > 0;
      assert n * cfg.maxRequests == (n - 1) * cfg.maxRequests + cfg.maxRequests;
    }
  }
}
