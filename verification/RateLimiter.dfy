/** lib/redis/rate-limiter.ts: the sliding-window limiter, as the Redis script and as the
    check-then-record path over the in-memory store. */
module RateLimiter {
  import opened Wrappers
  import opened Text
  import opened Seqs
  import opened Store

  datatype Config = Config(maxRequests: nat, windowMs: nat, failClosed: bool)

  datatype RateLimitResult =
    RateLimitResult(allowed: bool, remaining: int, resetTime: int, retryAfter: Option<int>)

  /** `Math.ceil(a / b)` */
  function CeilDiv(a: int, b: int): (r: int)
    requires b > 0
    ensures (r - 1) * b < a <= r * b
  {
    -((-a) / b)
  }

  function TtlSeconds(cfg: Config): (ttl: nat)
    ensures cfg.windowMs + 60000 <= ttl * 1000 < cfg.windowMs + 61000
  {
    CeilDiv(cfg.windowMs, 1000) + 60
  }

  function Unavailable(cfg: Config, now: int): RateLimitResult {
    if cfg.failClosed then RateLimitResult(false, 0, now + 60000, None)
    else RateLimitResult(true, cfg.maxRequests, now + cfg.windowMs, None)
  }

  // ---- Member names ----

  /** The sorted-set member of a request: its time, a colon, a unique id. */
  function MemberName(now: nat, uuid: string): string {
    PrintInt(now) + ":" + uuid
  }

  /** The time read back from a member; 0 stands for the NaN of a member that has none. */
  function Stamp(name: string): int {
    match ParseInt(Split(name, ':')[0])
    case Some(t) => t
    case None => 0
  }

  lemma StampOfMember(now: nat, uuid: string)
    ensures Split(MemberName(now, uuid), ':')[0] == PrintInt(now)
    ensures Stamp(MemberName(now, uuid)) == now
  {
    assert MemberName(now, uuid) == PrintInt(now) + [':'] + uuid;
    assert ':' !in PrintInt(now);
    SplitHead(PrintInt(now), ':', uuid);
    ParsePrint(now, "");
    assert PrintInt(now) + "" == PrintInt(now);
  }

  lemma MemberNameInjective(now: nat, uuid: string, now': nat, uuid': string)
    requires MemberName(now, uuid) == MemberName(now', uuid')
    ensures now == now' && uuid == uuid'
  {
    StampOfMember(now, uuid);
    StampOfMember(now', uuid');
    var n := |PrintInt(now)| + 1;
    assert MemberName(now, uuid)[n..] == uuid;
    assert MemberName(now', uuid')[n..] == uuid';
  }

  // ---- The Redis script ----

  /** A Redis sorted set: scores by member, and the instant after which the key is gone. */
  datatype ZSet = ZSet(scores: map<string, int>, expiry: int)

  function Visible(z: ZSet, now: int): map<string, int> {
    if z.expiry < now then map[] else z.scores
  }

  function Pruned(scores: map<string, int>, lo: int, hi: int): map<string, int> {
    map m | m in scores && !(lo <= scores[m] <= hi) :: scores[m]
  }

  /** What the pruning of a set leaves. */
  function KeptSet(cfg: Config, z: ZSet, at: int): map<string, int> {
    Pruned(Visible(z, at), 0, at - cfg.windowMs)
  }

  /** What the script leaves under the key, and the count it returns. */
  function Script(z: ZSet, windowStart: int, max: int, now: int, member: string, ttl: nat): (ZSet, nat) {
    var kept := Pruned(Visible(z, now), 0, windowStart);
    if |kept| >= max then (z.(scores := kept), |kept|)
    else (ZSet(kept[member := now], now + ttl * 1000), |kept|)
  }

  function ScriptResult(cfg: Config, count: nat, now: int): RateLimitResult {
    if count >= cfg.maxRequests
    then RateLimitResult(false, 0, now + cfg.windowMs, Some(CeilDiv(cfg.windowMs, 1000)))
    else RateLimitResult(true, cfg.maxRequests - count - 1, now + cfg.windowMs, None)
  }

  /** One call of the atomic limiter. `up` says whether the store answers. */
  datatype Call = Call(key: string, now: nat, uuid: string, up: bool)

  function ZSetOf(zsets: map<string, ZSet>, key: string): ZSet {
    if key in zsets then zsets[key] else ZSet(map[], 0)
  }

  function Admit(cfg: Config, zsets: map<string, ZSet>, c: Call): (map<string, ZSet>, RateLimitResult) {
    if !c.up then (zsets, Unavailable(cfg, c.now))
    else AdmitMember(cfg, zsets, c.key, c.now, MemberName(c.now, c.uuid))
  }

  function AdmitMember(cfg: Config, zsets: map<string, ZSet>, key: string, now: int, member: string)
      : (map<string, ZSet>, RateLimitResult) {
    var (z, count) := Script(ZSetOf(zsets, key), now - cfg.windowMs, cfg.maxRequests, now, member, TtlSeconds(cfg));
    (zsets[key := z], ScriptResult(cfg, count, now))
  }

  class RedisZSets {
    var zsets: map<string, ZSet>

    constructor ()
      ensures zsets == map[]
    {
      zsets := map[];
    }

    /** The script, command by command. */
    method Eval(key: string, windowStart: int, max: int, now: int, member: string, ttl: nat) returns (count: nat)
      modifies this
      ensures (ZSetOf(zsets, key), count)
           == Script(ZSetOf(old(zsets), key), windowStart, max, now, member, ttl)
      ensures zsets == old(zsets)[key := ZSetOf(zsets, key)]
    {
      var z := ZSetOf(zsets, key);
      z := z.(scores := Pruned(Visible(z, now), 0, windowStart));
      count := |z.scores|;
      if count < max {
        z := z.(scores := z.scores[member := now]);
        z := z.(expiry := now + ttl * 1000);
      }
      zsets := zsets[key := z];
    }

    method CheckAndRecord(cfg: Config, c: Call) returns (r: RateLimitResult)
      modifies this
      ensures (zsets, r) == Admit(cfg, old(zsets), c)
    {
      if !c.up { return Unavailable(cfg, c.now); }
      var count := Eval(c.key, c.now - cfg.windowMs, cfg.maxRequests, c.now,
                        MemberName(c.now, c.uuid), TtlSeconds(cfg));
      if count >= cfg.maxRequests {
        return RateLimitResult(false, 0, c.now + cfg.windowMs, Some(CeilDiv(cfg.windowMs, 1000)));
      }
      return RateLimitResult(true, cfg.maxRequests - count - 1, c.now + cfg.windowMs, None);
    }
  }

  // ---- Every window of every run ----

  datatype Admission = Admission(key: string, time: int)

  /** The store, and every admission so far by member. */
  datatype World = World(zsets: map<string, ZSet>, admitted: map<string, Admission>)

  function Step(cfg: Config, w: World, c: Call): World {
    var (zsets, r) := Admit(cfg, w.zsets, c);
    World(zsets, if r.allowed then Recorded(w.admitted, MemberName(c.now, c.uuid), c.key, c.now) else w.admitted)
  }

  function Recorded(admitted: map<string, Admission>, member: string, key: string, now: int): map<string, Admission> {
    admitted[member := Admission(key, now)]
  }

  function Run(cfg: Config, calls: seq<Call>): World {
    if calls == [] then World(map[], map[])
    else Step(cfg, Run(cfg, calls[..|calls| - 1]), calls[|calls| - 1])
  }

  /** The clock never goes back and no request id is used twice. */
  ghost predicate Clocked(calls: seq<Call>) {
    forall i, j :: 0 <= i < j < |calls| ==> calls[i].now <= calls[j].now && calls[i].uuid != calls[j].uuid
  }

  ghost function AdmittedIn(w: World, key: string, lo: int, hi: int): set<string> {
    set m | m in w.admitted && w.admitted[m].key == key && lo <= w.admitted[m].time < hi
  }

  /** Every admission still inside the window ending now is in its key's set, and the set holds
      nothing but admissions, none of which the key expiry can drop early. */
  ghost predicate Faithful(cfg: Config, z: ZSet, key: string, admitted: map<string, Admission>, now: int) {
    && (forall m :: m in z.scores ==>
          m in admitted && admitted[m] == Admission(key, z.scores[m]) && z.scores[m] + cfg.windowMs <= z.expiry)
    && (forall m :: m in admitted && admitted[m].key == key ==>
          && 0 <= admitted[m].time <= now
          && (admitted[m].time > now - cfg.windowMs ==> m in z.scores))
  }

  ghost predicate FaithfulWorld(cfg: Config, w: World, key: string, now: int) {
    Faithful(cfg, ZSetOf(w.zsets, key), key, w.admitted, now)
  }

  /** What the script counts is exactly the admissions of the last window. */
  lemma ScriptCountsWindow(cfg: Config, w: World, key: string, now: int, at: int)
    requires FaithfulWorld(cfg, w, key, now) && now <= at
    ensures Pruned(Visible(ZSetOf(w.zsets, key), at), 0, at - cfg.windowMs).Keys
         == AdmittedIn(w, key, at - cfg.windowMs + 1, at + 1)
  {
    var z := ZSetOf(w.zsets, key);
    var kept := Pruned(Visible(z, at), 0, at - cfg.windowMs);
    forall m | m in AdmittedIn(w, key, at - cfg.windowMs + 1, at + 1) ensures m in kept {
      assert m in z.scores;
    }
  }

  /** Running the script keeps the set faithful to the admissions. */
  lemma ScriptFaithful(cfg: Config, z: ZSet, key: string, admitted: map<string, Admission>, now: int, at: int, member: string)
    requires Faithful(cfg, z, key, admitted, now) && now <= at && 0 <= at && member !in admitted
    ensures var (z', count) := Script(z, at - cfg.windowMs, cfg.maxRequests, at, member, TtlSeconds(cfg));
            Faithful(cfg, z', key, if count >= cfg.maxRequests then admitted else admitted[member := Admission(key, at)], at)
  {
    var (z', count) := Script(z, at - cfg.windowMs, cfg.maxRequests, at, member, TtlSeconds(cfg));
    var admitted' := if count >= cfg.maxRequests then admitted else admitted[member := Admission(key, at)];
    assert member !in z.scores;
    forall m | m in z'.scores
      ensures m in admitted' && admitted'[m] == Admission(key, z'.scores[m]) && z'.scores[m] + cfg.windowMs <= z'.expiry
    {
      assert m != member ==> m in z.scores;
    }
  }

  lemma StepFaithful(cfg: Config, w: World, key: string, now: int, c: Call)
    requires FaithfulWorld(cfg, w, key, now) && now <= c.now
    requires cfg.failClosed || c.up
    requires MemberName(c.now, c.uuid) !in w.admitted
    ensures FaithfulWorld(cfg, Step(cfg, w, c), key, c.now)
  {
    if c.up {
      MemberFaithful(cfg, w, key, now, c.key, c.now, MemberName(c.now, c.uuid));
    }
  }

  lemma MemberFaithful(cfg: Config, w: World, key: string, now: int, into: string, at: int, member: string)
    requires FaithfulWorld(cfg, w, key, now) && now <= at && 0 <= at && member !in w.admitted
    ensures var (zsets, r) := AdmitMember(cfg, w.zsets, into, at, member);
            FaithfulWorld(cfg, World(zsets, if r.allowed then Recorded(w.admitted, member, into, at) else w.admitted), key, at)
  {
    if into == key {
      ScriptFaithful(cfg, ZSetOf(w.zsets, key), key, w.admitted, now, at, member);
    } else {
      OtherKeyFaithful(cfg, ZSetOf(w.zsets, key), key, w.admitted, now, into, at, member);
    }
  }

  lemma OtherKeyFaithful(cfg: Config, z: ZSet, key: string, admitted: map<string, Admission>, now: int,
                         into: string, at: int, member: string)
    requires Faithful(cfg, z, key, admitted, now) && now <= at && member !in admitted && into != key
    ensures Faithful(cfg, z, key, admitted, at) && Faithful(cfg, z, key, Recorded(admitted, member, into, at), at)
  {
  }

  function LastTime(calls: seq<Call>): int {
    if calls == [] then 0 else calls[|calls| - 1].now
  }

  /** Every admission comes from one of the calls. */
  ghost predicate Sourced(w: World, calls: seq<Call>) {
    forall m :: m in w.admitted ==> exists c :: c in calls && m == MemberName(c.now, c.uuid)
  }

  lemma {:induction false} RunSourced(cfg: Config, calls: seq<Call>)
    ensures Sourced(Run(cfg, calls), calls)
  {
    if calls != [] {
      RunSourced(cfg, calls[..|calls| - 1]);
    }
  }

  /** The next call's member is new to the run so far. */
  lemma NextIsFresh(cfg: Config, calls: seq<Call>)
    requires Clocked(calls) && calls != []
    ensures var c := calls[|calls| - 1];
            MemberName(c.now, c.uuid) !in Run(cfg, calls[..|calls| - 1]).admitted
  {
    var front, c := calls[..|calls| - 1], calls[|calls| - 1];
    RunSourced(cfg, front);
    if MemberName(c.now, c.uuid) in Run(cfg, front).admitted {
      var d :| d in front && MemberName(c.now, c.uuid) == MemberName(d.now, d.uuid);
      MemberNameInjective(c.now, c.uuid, d.now, d.uuid);
      assert false;
    }
  }

  lemma {:induction false} RunFaithful(cfg: Config, calls: seq<Call>, key: string)
    requires Clocked(calls) && (cfg.failClosed || forall c | c in calls :: c.up)
    ensures FaithfulWorld(cfg, Run(cfg, calls), key, LastTime(calls))
  {
    if calls != [] {
      var front := calls[..|calls| - 1];
      RunFaithful(cfg, front, key);
      NextIsFresh(cfg, calls);
      StepFaithful(cfg, Run(cfg, front), key, LastTime(front), calls[|calls| - 1]);
    }
  }

  /** One step keeps the bound of one window. */
  lemma StepWindowBound(cfg: Config, w: World, now: int, c: Call, key: string, start: int)
    requires FaithfulWorld(cfg, w, key, now) && now <= c.now && (cfg.failClosed || c.up)
    requires |AdmittedIn(w, key, start, start + cfg.windowMs)| <= cfg.maxRequests
    ensures |AdmittedIn(Step(cfg, w, c), key, start, start + cfg.windowMs)| <= cfg.maxRequests
  {
    if c.up {
      MemberWindowBound(cfg, w, now, c.key, c.now, MemberName(c.now, c.uuid), key, start);
    }
  }

  lemma MemberWindowBound(cfg: Config, w: World, now: int, into: string, at: int, member: string, key: string, start: int)
    requires FaithfulWorld(cfg, w, key, now) && now <= at
    requires |AdmittedIn(w, key, start, start + cfg.windowMs)| <= cfg.maxRequests
    ensures var (zsets, r) := AdmitMember(cfg, w.zsets, into, at, member);
            var w' := World(zsets, if r.allowed then Recorded(w.admitted, member, into, at) else w.admitted);
            |AdmittedIn(w', key, start, start + cfg.windowMs)| <= cfg.maxRequests
  {
    var (zsets, r) := AdmitMember(cfg, w.zsets, into, at, member);
    var w' := World(zsets, if r.allowed then Recorded(w.admitted, member, into, at) else w.admitted);
    if r.allowed && into == key && start <= at < start + cfg.windowMs {
      AdmittedInside(cfg, w, now, at, member, key, start);
    } else {
      var before := AdmittedIn(w, key, start, start + cfg.windowMs);
      assert AdmittedIn(w', key, start, start + cfg.windowMs) <= before;
      SubsetCard(AdmittedIn(w', key, start, start + cfg.windowMs), before);
    }
  }

  /** An admission inside the window was counted against all earlier ones in it. */
  lemma AdmittedInside(cfg: Config, w: World, now: int, at: int, member: string, key: string, start: int)
    requires FaithfulWorld(cfg, w, key, now) && now <= at && start <= at < start + cfg.windowMs
    requires AdmitMember(cfg, w.zsets, key, at, member).1.allowed
    ensures var w' := World(AdmitMember(cfg, w.zsets, key, at, member).0, Recorded(w.admitted, member, key, at));
            |AdmittedIn(w', key, start, start + cfg.windowMs)| <= cfg.maxRequests
  {
    var w' := World(AdmitMember(cfg, w.zsets, key, at, member).0, Recorded(w.admitted, member, key, at));
    var after := AdmittedIn(w', key, start, start + cfg.windowMs);
    var counted := AdmittedIn(w, key, at - cfg.windowMs + 1, at + 1);
    ScriptCountsWindow(cfg, w, key, now, at);
    assert after <= counted + {member};
    SubsetCard(after, counted + {member});
  }

  /** No window of length `windowMs`, wherever it starts, holds more than `maxRequests`
      admissions of one key. */
  lemma {:induction false} WindowBound(cfg: Config, calls: seq<Call>, key: string, start: int)
    requires Clocked(calls) && (cfg.failClosed || forall c | c in calls :: c.up)
    ensures |AdmittedIn(Run(cfg, calls), key, start, start + cfg.windowMs)| <= cfg.maxRequests
  {
    if calls != [] {
      var front := calls[..|calls| - 1];
      WindowBound(cfg, front, key, start);
      RunFaithful(cfg, front, key);
      StepWindowBound(cfg, Run(cfg, front), LastTime(front), calls[|calls| - 1], key, start);
    }
  }

  function OutageCall(key: string, n: nat): Call {
    Call(key, 0, seq(n, _ => 'x'), false)
  }

  /** `n` calls in one millisecond of an outage, with ids of different lengths. */
  function OutageCalls(key: string, n: nat): seq<Call> {
    if n == 0 then [] else OutageCalls(key, n - 1) + [OutageCall(key, n)]
  }

  lemma {:induction false} OutageClocked(key: string, n: nat)
    ensures Clocked(OutageCalls(key, n)) && |OutageCalls(key, n)| == n
    ensures forall i | 0 <= i < n :: OutageCalls(key, n)[i] == OutageCall(key, i + 1)
  {
    if n > 0 {
      OutageClocked(key, n - 1);
      forall i, j | 0 <= i < j < n ensures OutageCalls(key, n)[i].uuid != OutageCalls(key, n)[j].uuid {
        assert |OutageCall(key, i + 1).uuid| < |OutageCall(key, j + 1).uuid|;
      }
    }
  }

  lemma {:induction false} OutageAdmitsAll(cfg: Config, key: string, n: nat)
    requires !cfg.failClosed && cfg.windowMs > 0
    ensures |AdmittedIn(Run(cfg, OutageCalls(key, n)), key, 0, cfg.windowMs)| == n
  {
    if n > 0 {
      var calls, front := OutageCalls(key, n), OutageCalls(key, n - 1);
      var c := OutageCall(key, n);
      OutageClocked(key, n);
      OutageAdmitsAll(cfg, key, n - 1);
      assert calls[..|calls| - 1] == front;
      NextIsFresh(cfg, calls);
      OutageAdmits(cfg, Run(cfg, front), c);
    }
  }

  lemma OutageAdmits(cfg: Config, w: World, c: Call)
    requires !cfg.failClosed && cfg.windowMs > 0 && !c.up && c.now == 0 && MemberName(c.now, c.uuid) !in w.admitted
    ensures |AdmittedIn(Step(cfg, w, c), c.key, 0, cfg.windowMs)| == |AdmittedIn(w, c.key, 0, cfg.windowMs)| + 1
  {
    assert AdmittedIn(Step(cfg, w, c), c.key, 0, cfg.windowMs)
        == AdmittedIn(w, c.key, 0, cfg.windowMs) + {MemberName(c.now, c.uuid)};
  }

  /** How many calls a run allows in the window that starts at `start`. */
  ghost function AllowedFrom(cfg: Config, calls: seq<Call>, key: string, start: int): nat {
    |AdmittedIn(Run(cfg, calls), key, start, start + cfg.windowMs)|
  }

  /** Counting the calls allowed during outages too, the bound holds of every run if and only if
      the limiter fails closed (a window of no length holds nothing). */
  lemma BoundUnderOutages(cfg: Config, key: string)
    ensures cfg.failClosed || cfg.windowMs == 0 <==>
            forall calls, start :: Clocked(calls) ==> AllowedFrom(cfg, calls, key, start) <= cfg.maxRequests
  {
    if cfg.failClosed {
      forall calls, start | Clocked(calls) ensures AllowedFrom(cfg, calls, key, start) <= cfg.maxRequests {
        WindowBound(cfg, calls, key, start);
      }
    } else if cfg.windowMs > 0 {
      OutageClocked(key, cfg.maxRequests + 1);
      OutageAdmitsAll(cfg, key, cfg.maxRequests + 1);
      assert AllowedFrom(cfg, OutageCalls(key, cfg.maxRequests + 1), key, 0) == cfg.maxRequests + 1;
    } else {
      forall calls, start ensures AllowedFrom(cfg, calls, key, start) == 0 {
        assert AdmittedIn(Run(cfg, calls), key, start, start + cfg.windowMs) == {};
      }
    }
  }

  /** A call is admitted exactly when fewer than `maxRequests` admissions of its key are less
      than `windowMs` old; it reports how many are left, and the end of a window that starts now. */
  lemma AdmissionExact(cfg: Config, calls: seq<Call>, next: Call)
    requires Clocked(calls + [next]) && next.up && (cfg.failClosed || forall c | c in calls :: c.up)
    ensures var w := Run(cfg, calls);
            var recent := |AdmittedIn(w, next.key, next.now - cfg.windowMs + 1, next.now + 1)|;
            var r := Admit(cfg, w.zsets, next).1;
            && (r.allowed <==> recent < cfg.maxRequests) && r.remaining == (if r.allowed then cfg.maxRequests - recent - 1 else 0)
            && r.resetTime == next.now + cfg.windowMs && (r.allowed <==> r.retryAfter.None?)
  {
    var all := calls + [next];
    assert all[|calls|] == next && forall i | 0 <= i < |calls| :: calls[i] == all[i];
    RunFaithful(cfg, calls, next.key);
    AdmitCounts(cfg, Run(cfg, calls), LastTime(calls), next);
  }

  lemma AdmitCounts(cfg: Config, w: World, now: int, next: Call)
    requires FaithfulWorld(cfg, w, next.key, now) && now <= next.now && next.up
    ensures Admit(cfg, w.zsets, next).1
         == ScriptResult(cfg, |AdmittedIn(w, next.key, next.now - cfg.windowMs + 1, next.now + 1)|, next.now)
  {
    var kept := Pruned(Visible(ZSetOf(w.zsets, next.key), next.now), 0, next.now - cfg.windowMs);
    assert |kept| == |kept.Keys|;
    ScriptCountsWindow(cfg, w, next.key, now, next.now);
  }

  /** What the atomic limiter answers when it denies: nothing remains, try again a whole window later. A
      call made then, when nothing else has been admitted meanwhile, has the whole limit before it. */
  lemma ScriptDenialExact(cfg: Config, calls: seq<Call>, next: Call, between: seq<Call>, later: Call)
    requires Clocked(calls + [next] + between + [later]) && next.up && later.up && later.key == next.key
    requires cfg.failClosed || forall c | c in calls + [next] + between :: c.up
    requires !Admit(cfg, Run(cfg, calls).zsets, next).1.allowed
    requires AdmittedIn(Run(cfg, calls + [next] + between), next.key, next.now + 1, later.now + 1) == {}
    requires later.now >= Admit(cfg, Run(cfg, calls).zsets, next).1.resetTime
    ensures var r := Admit(cfg, Run(cfg, calls).zsets, next).1;
            && r.remaining == 0 && r.resetTime == next.now + cfg.windowMs
            && r.retryAfter.Some? && cfg.windowMs <= 1000 * r.retryAfter.value < cfg.windowMs + 1000
    ensures var r := Admit(cfg, Run(cfg, calls + [next] + between).zsets, later).1;
            && (r.allowed <==> cfg.maxRequests >= 1)
            && (r.allowed ==> r.remaining == cfg.maxRequests - 1)
  {
    var all := calls + [next] + between;
    AdmissionExact(cfg, all, later);
    assert AdmittedIn(Run(cfg, all), later.key, later.now - cfg.windowMs + 1, later.now + 1)
        <= AdmittedIn(Run(cfg, all), next.key, next.now + 1, later.now + 1);
  }

  /** While the store is down a limiter that fails closed lets nobody in, and sends them away for a minute;
      one that fails open lets everybody in. */
  lemma OutageAnswer(cfg: Config, w: World, c: Call)
    requires !c.up
    ensures var r := Admit(cfg, w.zsets, c).1;
            && Step(cfg, w, c).zsets == w.zsets && (r.allowed <==> !cfg.failClosed) && r.retryAfter.None?
            && (cfg.failClosed ==> r.remaining == 0 && r.resetTime == c.now + 60000)
            && (!cfg.failClosed ==> r.remaining == cfg.maxRequests && r.resetTime == c.now + cfg.windowMs)
  {
  }

  // ---- Check-then-record over the in-memory store ----

  function Kept(cfg: Config, entries: seq<Member>, now: int): seq<Member> {
    OutsideRange(entries, 0, now - cfg.windowMs)
  }

  function CheckResult(cfg: Config, names: seq<string>, now: int): RateLimitResult {
    if |names| >= cfg.maxRequests then
      var reset := (if |names| > 0 then Stamp(names[0]) else now) + cfg.windowMs;
      RateLimitResult(false, 0, reset, Some(CeilDiv(reset - now, 1000)))
    else
      RateLimitResult(true, cfg.maxRequests - |names|, now + cfg.windowMs, None)
  }

  /** `checkRateLimit` on the entries of one key. */
  function Check(cfg: Config, entries: seq<Member>, now: int): (seq<Member>, RateLimitResult) {
    var kept := Kept(cfg, entries, now);
    (kept, CheckResult(cfg, Names(InRange(kept, now - cfg.windowMs, now)), now))
  }

  /** `checkAndRecordRateLimitFallback` at one instant. */
  function CheckThenRecord(cfg: Config, entries: seq<Member>, now: nat, uuid: string): (seq<Member>, RateLimitResult) {
    var (kept, r) := Check(cfg, entries, now);
    if r.allowed then (Upsert(kept, MemberName(now, uuid), now), r.(remaining := r.remaining - 1))
    else (kept, r)
  }

  method CheckRateLimit(store: MemoryStore, cfg: Config, key: string, now: nat) returns (r: RateLimitResult)
    modifies store`zsets
    ensures (EntriesOf(store.zsets, key), r) == Check(cfg, EntriesOf(old(store.zsets), key), now)
    ensures forall k | k != key :: EntriesOf(store.zsets, k) == EntriesOf(old(store.zsets), k)
  {
    var windowStart := now - cfg.windowMs;
    store.ZRemRangeByScore(key, 0, windowStart);
    ghost var kept := EntriesOf(store.zsets, key);
    assert kept == Kept(cfg, EntriesOf(old(store.zsets), key), now);
    var requests := store.ZRangeByScore(key, windowStart, now);
    assert requests == Names(InRange(kept, windowStart, now)) by { ListsRangeUnique(kept, windowStart, now, requests); }
    r := AnswerCheck(cfg, requests, now);
  }

  /** The answer from what was listed. */
  method AnswerCheck(cfg: Config, requests: seq<string>, now: nat) returns (r: RateLimitResult)
    ensures r == CheckResult(cfg, requests, now)
  {
    if |requests| >= cfg.maxRequests {
      var oldest := if |requests| > 0 then Stamp(requests[0]) else now;
      var reset := oldest + cfg.windowMs;
      return RateLimitResult(false, 0, reset, Some(CeilDiv(reset - now, 1000)));
    }
    return RateLimitResult(true, cfg.maxRequests - |requests|, now + cfg.windowMs, None);
  }

  method RecordRequest(store: MemoryStore, cfg: Config, key: string, now: nat, uuid: string)
    modifies store
    ensures store.zsets == old(store.zsets)[key := Upsert(EntriesOf(old(store.zsets), key), MemberName(now, uuid), now)]
    ensures store.plain.Keys == old(store.plain).Keys
    ensures forall k | k != key && k in store.plain :: store.plain[k] == old(store.plain)[k]
  {
    store.ZAdd(key, now, MemberName(now, uuid));
    store.Expire(key, TtlSeconds(cfg), now);
  }

  method CheckAndRecordFallback(store: MemoryStore, cfg: Config, key: string, now: nat, uuid: string)
      returns (r: RateLimitResult)
    modifies store
    ensures (EntriesOf(store.zsets, key), r) == CheckThenRecord(cfg, EntriesOf(old(store.zsets), key), now, uuid)
    ensures forall k | k != key :: EntriesOf(store.zsets, k) == EntriesOf(old(store.zsets), k)
  {
    r := CheckRateLimit(store, cfg, key, now);
    if r.allowed {
      RecordRequest(store, cfg, key, now, uuid);
      r := r.(remaining := r.remaining - 1);
    }
  }

  // ---- The fallback refines the script ----

  datatype Request = Request(now: nat, uuid: string)

  ghost predicate ClockedRequests(reqs: seq<Request>) {
    forall i, j :: 0 <= i < j < |reqs| ==> reqs[i].now <= reqs[j].now && reqs[i].uuid != reqs[j].uuid
  }

  function ScriptStep(cfg: Config, z: ZSet, q: Request): (ZSet, RateLimitResult) {
    var (z', count) := Script(z, q.now - cfg.windowMs, cfg.maxRequests, q.now, MemberName(q.now, q.uuid), TtlSeconds(cfg));
    (z', ScriptResult(cfg, count, q.now))
  }

  function RunScript(cfg: Config, reqs: seq<Request>): (ZSet, seq<RateLimitResult>) {
    if reqs == [] then (ZSet(map[], 0), [])
    else
      var (z, results) := RunScript(cfg, reqs[..|reqs| - 1]);
      var (z', r) := ScriptStep(cfg, z, reqs[|reqs| - 1]);
      (z', results + [r])
  }

  function RunFallback(cfg: Config, start: seq<Member>, reqs: seq<Request>): (seq<Member>, seq<RateLimitResult>) {
    if reqs == [] then (start, [])
    else
      var (entries, results) := RunFallback(cfg, start, reqs[..|reqs| - 1]);
      var q := reqs[|reqs| - 1];
      var (entries', r) := CheckThenRecord(cfg, entries, q.now, q.uuid);
      (entries', results + [r])
  }

  function LastRequest(reqs: seq<Request>): int {
    if reqs == [] then 0 else reqs[|reqs| - 1].now
  }

  /** A list of members as the map it stores. */
  function AsMap(entries: seq<Member>): map<string, int> {
    if entries == [] then map[] else AsMap(entries[1..])[entries[0].name := entries[0].score]
  }

  predicate Distinct(entries: seq<Member>) {
    entries != [] ==> entries[0].name !in AsMap(entries[1..]) && Distinct(entries[1..])
  }

  lemma {:induction false} AsMapCount(entries: seq<Member>)
    requires Distinct(entries)
    ensures |AsMap(entries)| == |entries|
  {
    if entries != [] {
      AsMapCount(entries[1..]);
    }
  }

  lemma {:induction false} AsMapValues(entries: seq<Member>)
    requires Distinct(entries)
    ensures forall e | e in entries :: e.name in AsMap(entries) && AsMap(entries)[e.name] == e.score
  {
    if entries != [] {
      AsMapValues(entries[1..]);
    }
  }

  lemma {:induction false} AsMapAppend(entries: seq<Member>, name: string, score: int)
    requires Distinct(entries) && name !in AsMap(entries)
    ensures Upsert(entries, name, score) == entries + [Member(name, score)]
    ensures Distinct(entries + [Member(name, score)])
    ensures AsMap(entries + [Member(name, score)]) == AsMap(entries)[name := score]
  {
    if entries != [] {
      AsMapAppend(entries[1..], name, score);
      assert (entries + [Member(name, score)])[1..] == entries[1..] + [Member(name, score)];
    }
  }

  lemma {:induction false} AsMapPruned(entries: seq<Member>, lo: int, hi: int)
    requires Distinct(entries)
    ensures AsMap(OutsideRange(entries, lo, hi)) == Pruned(AsMap(entries), lo, hi)
    ensures Distinct(OutsideRange(entries, lo, hi))
  {
    if entries != [] {
      AsMapPruned(entries[1..], lo, hi);
    }
  }

  ghost predicate Within(scores: map<string, int>, lo: int, hi: int) {
    forall m :: m in scores ==> lo <= scores[m] <= hi
  }

  /** Both stores hold the same in-window members with the same scores, and the key expiry cannot
      drop one of them before it leaves the window. */
  ghost predicate Agree(cfg: Config, z: ZSet, entries: seq<Member>, now: int) {
    && Distinct(entries)
    && Within(AsMap(entries), 0, now) && Within(z.scores, 0, now) && Within(z.scores, 0, z.expiry - cfg.windowMs)
    && Pruned(AsMap(entries), 0, now - cfg.windowMs) == Pruned(z.scores, 0, now - cfg.windowMs)
  }

  lemma PrunedTwice(scores: map<string, int>, first: int, second: int)
    requires first <= second
    ensures Pruned(Pruned(scores, 0, first), 0, second) == Pruned(scores, 0, second)
  {
  }

  /** An expired key held nothing the pruning would have kept. */
  lemma ExpiryPrunesNothingNew(cfg: Config, z: ZSet, at: int)
    requires Within(z.scores, 0, z.expiry - cfg.windowMs)
    ensures Pruned(Visible(z, at), 0, at - cfg.windowMs) == Pruned(z.scores, 0, at - cfg.windowMs)
  {
    if z.expiry < at {
      assert Pruned(z.scores, 0, at - cfg.windowMs) == map[];
    }
  }

  lemma SamePrunedLater(a: map<string, int>, b: map<string, int>, first: int, second: int)
    requires first <= second && Pruned(a, 0, first) == Pruned(b, 0, first)
    ensures Pruned(a, 0, second) == Pruned(b, 0, second)
  {
    PrunedTwice(a, first, second);
    PrunedTwice(b, first, second);
  }

  lemma PrunedWithin(scores: map<string, int>, now: int, lo: int, at: int)
    requires Within(scores, 0, now) && now <= at
    ensures Within(Pruned(scores, 0, lo), lo, at)
  {
  }

  /** At one instant the two paths keep the same entries, and the fallback counts all it keeps. */
  lemma {:induction false} SameKept(cfg: Config, z: ZSet, entries: seq<Member>, now: int, at: int)
    requires Agree(cfg, z, entries, now) && now <= at
    ensures var kept, pruned := Kept(cfg, entries, at), Pruned(Visible(z, at), 0, at - cfg.windowMs);
            && Distinct(kept) && AsMap(kept) == pruned && |kept| == |pruned|
            && pruned == Pruned(z.scores, 0, at - cfg.windowMs)
            && InRange(kept, at - cfg.windowMs, at) == kept
  {
    var kept := Kept(cfg, entries, at);
    AsMapPruned(entries, 0, at - cfg.windowMs);
    ExpiryPrunesNothingNew(cfg, z, at);
    SamePrunedLater(AsMap(entries), z.scores, now - cfg.windowMs, at - cfg.windowMs);
    PrunedWithin(AsMap(entries), now, at - cfg.windowMs, at);
    AsMapCount(kept);
    AllInRange(kept, at - cfg.windowMs, at);
  }

  lemma AllInRange(kept: seq<Member>, lo: int, hi: int)
    requires Distinct(kept) && Within(AsMap(kept), lo, hi)
    ensures InRange(kept, lo, hi) == kept
  {
    AsMapValues(kept);
    SelectAll(kept, (m: Member) => lo <= m.score <= hi);
  }

  /** What the fallback does when it counts everything it keeps. */
  lemma {:induction false} FallbackShape(cfg: Config, entries: seq<Member>, at: nat, uuid: string)
    requires var kept := Kept(cfg, entries, at); InRange(kept, at - cfg.windowMs, at) == kept
    ensures var kept := Kept(cfg, entries, at);
            var (entries', r) := CheckThenRecord(cfg, entries, at, uuid);
            && (r.allowed <==> |kept| < cfg.maxRequests)
            && (r.allowed ==> r.remaining == cfg.maxRequests - |kept| - 1)
            && entries' == if r.allowed then Upsert(kept, MemberName(at, uuid), at) else kept
  {
  }

  /** Agreement survives a denial, which only prunes ... */
  lemma {:induction false} AgreeAfterDenial(cfg: Config, z: ZSet, entries: seq<Member>, now: int, at: nat, z': ZSet, entries': seq<Member>)
    requires Agree(cfg, z, entries, now) && now <= at
    requires z' == z.(scores := Pruned(Visible(z, at), 0, at - cfg.windowMs)) && entries' == Kept(cfg, entries, at)
    ensures Agree(cfg, z', entries', at)
  {
    SameKept(cfg, z, entries, now, at);
  }

  /** ... and an admission, which also adds. */
  lemma {:induction false} AgreeAfterAdmission(cfg: Config, z: ZSet, entries: seq<Member>, now: int, at: nat, name: string,
                            z': ZSet, entries': seq<Member>)
    requires Agree(cfg, z, entries, now) && now <= at && name !in z.scores
    requires z' == ZSet(Pruned(Visible(z, at), 0, at - cfg.windowMs)[name := at], at + TtlSeconds(cfg) * 1000)
    requires entries' == Upsert(Kept(cfg, entries, at), name, at)
    ensures Agree(cfg, z', entries', at)
  {
    SameKept(cfg, z, entries, now, at);
    AsMapAppend(Kept(cfg, entries, at), name, at);
  }

  /** Same verdict, and the same `remaining` on admission. */
  predicate SameDecision(s: RateLimitResult, r: RateLimitResult) {
    s.allowed == r.allowed && (r.allowed ==> s.remaining == r.remaining)
  }

  ghost predicate SameDecisions(a: seq<RateLimitResult>, b: seq<RateLimitResult>) {
    |a| == |b| && forall i :: 0 <= i < |a| ==> SameDecision(a[i], b[i])
  }

  lemma {:induction false} ScriptShape(cfg: Config, z: ZSet, q: Request)
    ensures var kept := KeptSet(cfg, z, q.now);
            ScriptStep(cfg, z, q) == (if |kept| < cfg.maxRequests
                                      then ZSet(kept[MemberName(q.now, q.uuid) := q.now], q.now + TtlSeconds(cfg) * 1000)
                                      else z.(scores := kept),
                                      ScriptResult(cfg, |kept|, q.now))
  {
  }

  lemma {:induction false} SameCount(cfg: Config, z: ZSet, entries: seq<Member>, now: int, at: int)
    requires Agree(cfg, z, entries, now) && now <= at
    ensures var kept := Kept(cfg, entries, at);
            |kept| == |Pruned(Visible(z, at), 0, at - cfg.windowMs)| && InRange(kept, at - cfg.windowMs, at) == kept
  {
    SameKept(cfg, z, entries, now, at);
  }

  lemma {:induction false} StepSameDecision(cfg: Config, z: ZSet, entries: seq<Member>, now: int, q: Request)
    requires Agree(cfg, z, entries, now) && now <= q.now
    ensures SameDecision(ScriptStep(cfg, z, q).1, CheckThenRecord(cfg, entries, q.now, q.uuid).1)
  {
    SameCount(cfg, z, entries, now, q.now);
    FallbackShape(cfg, entries, q.now, q.uuid);
    ScriptShape(cfg, z, q);
  }

  /** What each path leaves, in terms of what both keep. */
  ghost predicate LeavesNext(cfg: Config, z: ZSet, entries: seq<Member>, at: nat, name: string, z': ZSet, entries': seq<Member>) {
    var kept, pruned := Kept(cfg, entries, at), KeptSet(cfg, z, at);
    if |kept| < cfg.maxRequests
    then z' == ZSet(pruned[name := at], at + TtlSeconds(cfg) * 1000) && entries' == Upsert(kept, name, at)
    else z' == z.(scores := pruned) && entries' == kept
  }

  lemma {:induction false} StepShape(cfg: Config, z: ZSet, entries: seq<Member>, q: Request)
    requires var kept := Kept(cfg, entries, q.now);
             |kept| == |KeptSet(cfg, z, q.now)| && InRange(kept, q.now - cfg.windowMs, q.now) == kept
    ensures LeavesNext(cfg, z, entries, q.now, MemberName(q.now, q.uuid),
                       ScriptStep(cfg, z, q).0, CheckThenRecord(cfg, entries, q.now, q.uuid).0)
  {
    FallbackShape(cfg, entries, q.now, q.uuid);
    ScriptShape(cfg, z, q);
  }

  lemma {:induction false} AgreeNext(cfg: Config, z: ZSet, entries: seq<Member>, now: int, at: nat, name: string, z': ZSet, entries': seq<Member>)
    requires Agree(cfg, z, entries, now) && now <= at && name !in z.scores
    requires LeavesNext(cfg, z, entries, at, name, z', entries')
    ensures Agree(cfg, z', entries', at)
  {
    if |Kept(cfg, entries, at)| < cfg.maxRequests {
      AgreeAfterAdmission(cfg, z, entries, now, at, name, z', entries');
    } else {
      AgreeAfterDenial(cfg, z, entries, now, at, z', entries');
    }
  }

  lemma {:induction false} StepAgree(cfg: Config, z: ZSet, entries: seq<Member>, now: int, q: Request)
    requires Agree(cfg, z, entries, now) && now <= q.now && MemberName(q.now, q.uuid) !in z.scores
    ensures Agree(cfg, ScriptStep(cfg, z, q).0, CheckThenRecord(cfg, entries, q.now, q.uuid).0, q.now)
  {
    SameCount(cfg, z, entries, now, q.now);
    StepShape(cfg, z, entries, q);
    AgreeNext(cfg, z, entries, now, q.now, MemberName(q.now, q.uuid),
              ScriptStep(cfg, z, q).0, CheckThenRecord(cfg, entries, q.now, q.uuid).0);
  }

  ghost function MembersOf(reqs: seq<Request>): set<string> {
    set q | q in reqs :: MemberName(q.now, q.uuid)
  }

  lemma NextMemberIsNew(reqs: seq<Request>, q: Request)
    requires ClockedRequests(reqs + [q])
    ensures MemberName(q.now, q.uuid) !in MembersOf(reqs)
  {
    forall d | d in reqs ensures MemberName(d.now, d.uuid) != MemberName(q.now, q.uuid) {
      var i :| 0 <= i < |reqs| && reqs[i] == d;
      assert (reqs + [q])[i] == d && (reqs + [q])[|reqs|] == q;
      if MemberName(d.now, d.uuid) == MemberName(q.now, q.uuid) {
        MemberNameInjective(d.now, d.uuid, q.now, q.uuid);
      }
    }
  }

  lemma {:induction false} ScriptMembers(cfg: Config, reqs: seq<Request>)
    ensures RunScript(cfg, reqs).0.scores.Keys <= MembersOf(reqs)
  {
    if reqs != [] {
      ScriptMembers(cfg, reqs[..|reqs| - 1]);
      assert reqs[|reqs| - 1] in reqs;
    }
  }

  lemma ScriptNext(cfg: Config, reqs: seq<Request>, q: Request)
    ensures var (z, results) := RunScript(cfg, reqs);
            var (z', r) := ScriptStep(cfg, z, q);
            RunScript(cfg, reqs + [q]) == (z', results + [r])
  {
    assert (reqs + [q])[..|reqs|] == reqs;
  }

  lemma FallbackNext(cfg: Config, start: seq<Member>, reqs: seq<Request>, q: Request)
    ensures var (entries, results) := RunFallback(cfg, start, reqs);
            var (entries', r) := CheckThenRecord(cfg, entries, q.now, q.uuid);
            RunFallback(cfg, start, reqs + [q]) == (entries', results + [r])
  {
    assert (reqs + [q])[..|reqs|] == reqs;
  }

  lemma SameDecisionsNext(a: seq<RateLimitResult>, b: seq<RateLimitResult>, s: RateLimitResult, r: RateLimitResult)
    requires SameDecisions(a, b) && SameDecision(s, r)
    ensures SameDecisions(a + [s], b + [r])
  {
  }

  /** The next request, from states that agree. */
  lemma NextRefines(cfg: Config, front: seq<Request>, q: Request)
    requires ClockedRequests(front + [q])
    requires Agree(cfg, RunScript(cfg, front).0, RunFallback(cfg, [], front).0, LastRequest(front))
    ensures var z, entries := RunScript(cfg, front).0, RunFallback(cfg, [], front).0;
            && SameDecision(ScriptStep(cfg, z, q).1, CheckThenRecord(cfg, entries, q.now, q.uuid).1)
            && Agree(cfg, ScriptStep(cfg, z, q).0, CheckThenRecord(cfg, entries, q.now, q.uuid).0, q.now)
  {
    var z, entries := RunScript(cfg, front).0, RunFallback(cfg, [], front).0;
    assert LastRequest(front) <= q.now by {
      if front != [] { assert (front + [q])[|front| - 1].now <= (front + [q])[|front|].now; }
    }
    ScriptMembers(cfg, front);
    NextMemberIsNew(front, q);
    StepAgree(cfg, z, entries, LastRequest(front), q);
    StepSameDecision(cfg, z, entries, LastRequest(front), q);
  }

  lemma ClockedFront(reqs: seq<Request>)
    requires reqs != [] && ClockedRequests(reqs)
    ensures ClockedRequests(reqs[..|reqs| - 1])
  {
  }

  /** The two paths, from empty stores: one result per request, the same decisions, the same entries. */
  ghost predicate Refines(cfg: Config, reqs: seq<Request>) {
    var (z, a) := RunScript(cfg, reqs);
    var (entries, b) := RunFallback(cfg, [], reqs);
    |a| == |reqs| && SameDecisions(a, b) && Agree(cfg, z, entries, LastRequest(reqs))
  }

  /** Over any sequence of requests the in-memory path decides as the script does, reports the
      same `remaining` on admission, and keeps the same in-window entries. */
  lemma {:induction false} FallbackRefinesScript(cfg: Config, reqs: seq<Request>)
    requires ClockedRequests(reqs)
    ensures Refines(cfg, reqs)
  {
    if reqs != [] {
      var front, q := reqs[..|reqs| - 1], reqs[|reqs| - 1];
      assert front + [q] == reqs;
      ClockedFront(reqs);
      FallbackRefinesScript(cfg, front);
      NextRefines(cfg, front, q);
      ScriptNext(cfg, front, q);
      FallbackNext(cfg, [], front, q);
      SameDecisionsNext(RunScript(cfg, front).1, RunFallback(cfg, [], front).1,
                        ScriptStep(cfg, RunScript(cfg, front).0, q).1,
                        CheckThenRecord(cfg, RunFallback(cfg, [], front).0, q.now, q.uuid).1);
    }
  }

  // ---- The reset time of a denial is exact ----

  function NotAfter(): (Member, Member) -> bool {
    (a: Member, b: Member) => a.score <= b.score
  }

  /** The entries are in time order, say their own time, and never exceed the limit. */
  ghost predicate InOrder(cfg: Config, entries: seq<Member>, now: int) {
    && Ordered(entries, NotAfter())
    && (forall e :: e in entries ==> 0 <= e.score <= now && Stamp(e.name) == e.score)
    && |Kept(cfg, entries, now)| <= cfg.maxRequests
  }

  lemma {:induction false} RunInOrder(cfg: Config, reqs: seq<Request>)
    requires ClockedRequests(reqs)
    ensures InOrder(cfg, RunFallback(cfg, [], reqs).0, LastRequest(reqs))
  {
    if reqs != [] {
      var front, q := reqs[..|reqs| - 1], reqs[|reqs| - 1];
      assert front + [q] == reqs;
      RunInOrder(cfg, front);
      FallbackRefinesScript(cfg, front);
      ScriptMembers(cfg, front);
      NextMemberIsNew(front, q);
      var z, entries := RunScript(cfg, front).0, RunFallback(cfg, [], front).0;
      SameKept(cfg, z, entries, LastRequest(front), q.now);
      AsMapAppend(Kept(cfg, entries, q.now), MemberName(q.now, q.uuid), q.now);
      StepInOrder(cfg, entries, LastRequest(front), q);
    }
  }

  lemma InOrderAppend(cfg: Config, kept: seq<Member>, at: nat, name: string)
    requires InOrder(cfg, kept, at) && Kept(cfg, kept, at) == kept && |kept| < cfg.maxRequests && Stamp(name) == at
    ensures InOrder(cfg, kept + [Member(name, at)], at)
  {
    var next := kept + [Member(name, at)];
    assert Ordered(next, NotAfter()) by {
      forall i | 0 <= i < |kept| ensures kept[i].score <= at {
        assert kept[i] in kept;
      }
    }
  }

  lemma StepInOrder(cfg: Config, entries: seq<Member>, now: int, q: Request)
    requires InOrder(cfg, entries, now) && now <= q.now
    requires var kept, name := Kept(cfg, entries, q.now), MemberName(q.now, q.uuid);
             Upsert(kept, name, q.now) == kept + [Member(name, q.now)]
    ensures InOrder(cfg, CheckThenRecord(cfg, entries, q.now, q.uuid).0, q.now)
  {
    var kept := Kept(cfg, entries, q.now);
    KeptAgain(cfg, entries, now, q.now);
    FallbackShape(cfg, entries, q.now, q.uuid);
    if |kept| < cfg.maxRequests {
      StampOfMember(q.now, q.uuid);
      InOrderAppend(cfg, kept, q.now, MemberName(q.now, q.uuid));
    }
  }

  /** What one pruning leaves: in order, all of it in the checked range, and the same when pruned again. */
  lemma KeptOnce(cfg: Config, entries: seq<Member>, now: int, at: int)
    requires Ordered(entries, NotAfter()) && now <= at
    requires forall e :: e in entries ==> 0 <= e.score <= now && Stamp(e.name) == e.score
    ensures var kept := Kept(cfg, entries, at);
            && Ordered(kept, NotAfter()) && (forall e :: e in kept ==> 0 <= e.score <= at && Stamp(e.name) == e.score)
            && InRange(kept, at - cfg.windowMs, at) == kept && Kept(cfg, kept, at) == kept
  {
    var kept := Kept(cfg, entries, at);
    SelectOrdered(entries, (m: Member) => m.score < 0 || m.score > at - cfg.windowMs, NotAfter());
    SelectMembers(entries, (m: Member) => m.score < 0 || m.score > at - cfg.windowMs);
    SelectAll(kept, (m: Member) => at - cfg.windowMs <= m.score <= at);
    SelectAll(kept, (m: Member) => m.score < 0 || m.score > at - cfg.windowMs);
  }

  /** Pruning later prunes at least as much. */
  lemma KeptLater(cfg: Config, entries: seq<Member>, now: int, at: int)
    requires now <= at
    ensures Kept(cfg, entries, at) == Kept(cfg, Kept(cfg, entries, now), at)
  {
    SelectTwice(entries, (m: Member) => m.score < 0 || m.score > now - cfg.windowMs,
                (m: Member) => m.score < 0 || m.score > at - cfg.windowMs,
                (m: Member) => m.score < 0 || m.score > at - cfg.windowMs);
  }

  /** Facts about one pruning: order survives, everything kept is in the checked range, and the
      count does not grow as the window moves on. */
  lemma KeptAgain(cfg: Config, entries: seq<Member>, now: int, at: int)
    requires InOrder(cfg, entries, now) && now <= at
    ensures var kept := Kept(cfg, entries, at);
            && InOrder(cfg, kept, at) && |kept| <= cfg.maxRequests
            && InRange(kept, at - cfg.windowMs, at) == kept && Kept(cfg, kept, at) == kept
  {
    KeptOnce(cfg, entries, now, at);
    KeptLater(cfg, entries, now, at);
  }

  /** Entries as a denied check leaves them: pruned, in order, and as many as the limit. */
  ghost predicate Full(cfg: Config, kept: seq<Member>, now: int) {
    && Ordered(kept, NotAfter()) && |kept| == cfg.maxRequests
    && (forall e :: e in kept ==> 0 <= e.score <= now && e.score > now - cfg.windowMs && Stamp(e.name) == e.score)
  }

  function OldestOr(kept: seq<Member>, now: int): int {
    if kept == [] then now else kept[0].score
  }

  /** Before the oldest entry leaves the window nothing is pruned; from then on something is. */
  lemma FullUntilOldestLeaves(cfg: Config, kept: seq<Member>, now: int, at: int)
    requires Full(cfg, kept, now) && now <= at
    ensures at < OldestOr(kept, now) + cfg.windowMs ==>
              Kept(cfg, kept, at) == kept && InRange(kept, at - cfg.windowMs, at) == kept
    ensures at >= OldestOr(kept, now) + cfg.windowMs && kept != [] ==> |Kept(cfg, kept, at)| < |kept|
  {
    if kept != [] && at < kept[0].score + cfg.windowMs {
      forall e | e in kept ensures e.score > at - cfg.windowMs {
        var i :| 0 <= i < |kept| && kept[i] == e;
        assert i > 0 ==> NotAfter()(kept[0], kept[i]);
      }
      SelectAll(kept, (m: Member) => m.score < 0 || m.score > at - cfg.windowMs);
      SelectAll(kept, (m: Member) => at - cfg.windowMs <= m.score <= at);
    } else if kept != [] {
      assert kept[0] in kept;
    }
  }

  lemma DenialLeavesFull(cfg: Config, entries: seq<Member>, before: int, now: nat)
    requires InOrder(cfg, entries, before) && before <= now && !Check(cfg, entries, now).1.allowed
    ensures var (kept, r) := Check(cfg, entries, now);
            && Full(cfg, kept, now) && r.resetTime == OldestOr(kept, now) + cfg.windowMs
            && r.retryAfter == Some(CeilDiv(r.resetTime - now, 1000))
  {
    var kept := Kept(cfg, entries, now);
    KeptAgain(cfg, entries, before, now);
    SelectMembers(entries, (m: Member) => m.score < 0 || m.score > now - cfg.windowMs);
    if kept != [] {
      assert kept[0] in kept;
    }
  }

  lemma {:induction false} DeniedUntilReset(cfg: Config, kept: seq<Member>, now: nat, attempts: seq<Request>)
    requires Full(cfg, kept, now)
    requires forall q | q in attempts :: now <= q.now < OldestOr(kept, now) + cfg.windowMs
    ensures var (entries, results) := RunFallback(cfg, kept, attempts);
            entries == kept && forall r | r in results :: !r.allowed
  {
    if attempts != [] {
      var q := attempts[|attempts| - 1];
      DeniedUntilReset(cfg, kept, now, attempts[..|attempts| - 1]);
      FullUntilOldestLeaves(cfg, kept, now, q.now);
      FallbackShape(cfg, kept, q.now, q.uuid);
    }
  }

  /** After any history of atomic admissions, a denial's reset time is exact: every attempt made
      before it is denied and changes nothing, a check at or after it succeeds if and only if the
      limit admits anything at all, and waiting `retryAfter` seconds reaches it. */
  lemma ResetTimeExact(cfg: Config, history: seq<Request>, now: nat, attempts: seq<Request>, at: nat)
    requires ClockedRequests(history) && LastRequest(history) <= now
    requires var entries := RunFallback(cfg, [], history).0;
             var (kept, r) := Check(cfg, entries, now);
             && !r.allowed
             && (forall q | q in attempts :: now <= q.now < r.resetTime)
             && r.resetTime <= at
    ensures var entries := RunFallback(cfg, [], history).0;
            var (kept, r) := Check(cfg, entries, now);
            var (later, results) := RunFallback(cfg, kept, attempts);
            && (forall d | d in results :: !d.allowed)
            && (Check(cfg, later, at).1.allowed <==> cfg.maxRequests >= 1)
            && r.retryAfter.Some? && r.resetTime <= now + 1000 * r.retryAfter.value < r.resetTime + 1000
  {
    RunInOrder(cfg, history);
    var entries := RunFallback(cfg, [], history).0;
    DenialLeavesFull(cfg, entries, LastRequest(history), now);
    var kept := Check(cfg, entries, now).0;
    DeniedUntilReset(cfg, kept, now, attempts);
    FullUntilOldestLeaves(cfg, kept, now, at);
    CheckCounts(cfg, kept, at);
  }

  /** What a check answers: how many more the limit lets in, or that none is. */
  lemma CheckAnswer(cfg: Config, names: seq<string>, now: int)
    ensures var r := CheckResult(cfg, names, now);
            && (r.allowed <==> |names| < cfg.maxRequests) && r.remaining == (if r.allowed then cfg.maxRequests - |names| else 0)
            && (r.allowed ==> r.resetTime == now + cfg.windowMs) && (r.allowed <==> r.retryAfter.None?)
  {
  }

  lemma CheckCounts(cfg: Config, kept: seq<Member>, at: nat)
    ensures |Kept(cfg, kept, at)| < cfg.maxRequests ==> Check(cfg, kept, at).1.allowed
    ensures cfg.maxRequests == 0 ==> !Check(cfg, kept, at).1.allowed
  {
  }

  // ---- The same on Redis, which lists members by score ----

  /** What ZRANGEBYSCORE answers: the members in the range, each once, by rising score. */
  ghost predicate ListedByScore(scores: map<string, int>, lo: int, hi: int, names: seq<string>) {
    && (forall i :: 0 <= i < |names| ==> names[i] in scores && lo <= scores[names[i]] <= hi)
    && (forall m :: m in scores && lo <= scores[m] <= hi ==> m in names)
    && (forall i, j :: 0 <= i < j < |names| ==> names[i] != names[j] && scores[names[i]] <= scores[names[j]])
  }

  lemma {:induction false} DistinctCount(names: seq<string>)
    requires forall i, j :: 0 <= i < j < |names| ==> names[i] != names[j]
    ensures |set n | n in names| == |names|
  {
    if names == [] {
      assert (set n | n in names) == {};
    } else {
      DistinctCount(names[1..]);
      assert (set n | n in names) == {names[0]} + (set n | n in names[1..]);
    }
  }

  lemma ListedCount(scores: map<string, int>, lo: int, hi: int, names: seq<string>)
    requires ListedByScore(scores, lo, hi, names)
    ensures |names| <= |scores|
    ensures |names| == |scores| <==> Within(scores, lo, hi)
  {
    DistinctCount(names);
    var listed := set n | n in names;
    assert listed <= scores.Keys;
    SubsetCard(listed, scores.Keys);
    if |names| == |scores| {
      assert listed == scores.Keys by { assert |scores.Keys - listed| == 0; }
    }
    if Within(scores, lo, hi) {
      assert listed == scores.Keys;
    }
  }

  function InWindow(cfg: Config, scores: map<string, int>, now: int): nat {
    |Pruned(scores, 0, now - cfg.windowMs)|
  }

  /** Members say their own time, the key outlives them, and no more than the limit are in the window. */
  ghost predicate SoundSet(cfg: Config, z: ZSet, now: int) {
    SoundMembers(cfg, z, now) && InWindow(cfg, z.scores, now) <= cfg.maxRequests
  }

  ghost predicate SoundMembers(cfg: Config, z: ZSet, now: int) {
    forall m :: m in z.scores ==> 0 <= z.scores[m] <= now && z.scores[m] + cfg.windowMs <= z.expiry && Stamp(m) == z.scores[m]
  }

  lemma PrunedCount(scores: map<string, int>, first: int, second: int)
    requires first <= second
    ensures |Pruned(scores, 0, second)| <= |Pruned(scores, 0, first)|
  {
    SubsetCard(Pruned(scores, 0, second).Keys, Pruned(scores, 0, first).Keys);
    assert |Pruned(scores, 0, second)| == |Pruned(scores, 0, second).Keys|;
    assert |Pruned(scores, 0, first)| == |Pruned(scores, 0, first).Keys|;
  }

  lemma WindowShrinks(cfg: Config, scores: map<string, int>, now: int, at: int)
    requires now <= at
    ensures InWindow(cfg, scores, at) <= InWindow(cfg, scores, now)
  {
    PrunedCount(scores, now - cfg.windowMs, at - cfg.windowMs);
  }

  lemma CountLater(cfg: Config, z: ZSet, now: int, at: int)
    requires SoundSet(cfg, z, now) && now <= at
    ensures InWindow(cfg, z.scores, at) <= cfg.maxRequests
  {
    WindowShrinks(cfg, z.scores, now, at);
  }

  /** What is left after pruning at a later instant. */
  lemma PrunedLater(cfg: Config, z: ZSet, now: int, at: int)
    requires SoundSet(cfg, z, now) && now <= at
    ensures KeptSet(cfg, z, at) == Pruned(z.scores, 0, at - cfg.windowMs)
    ensures |KeptSet(cfg, z, at)| <= cfg.maxRequests
    ensures Pruned(KeptSet(cfg, z, at), 0, at - cfg.windowMs) == KeptSet(cfg, z, at)
  {
    CountLater(cfg, z, now, at);
    NothingExpires(cfg, z, now, at);
    PrunedTwice(z.scores, at - cfg.windowMs, at - cfg.windowMs);
  }

  lemma NothingExpires(cfg: Config, z: ZSet, now: int, at: int)
    requires SoundSet(cfg, z, now)
    ensures KeptSet(cfg, z, at) == Pruned(z.scores, 0, at - cfg.windowMs)
  {
    assert Within(z.scores, 0, z.expiry - cfg.windowMs);
    ExpiryPrunesNothingNew(cfg, z, at);
  }

  lemma SoundPruned(cfg: Config, z: ZSet, now: int, at: int, z': ZSet)
    requires SoundSet(cfg, z, now) && now <= at && z' == z.(scores := KeptSet(cfg, z, at))
    ensures SoundSet(cfg, z', at)
  {
    NothingExpires(cfg, z, now, at);
    SubMembers(cfg, z, now, at, z');
    WindowOfKept(cfg, z, now, at);
  }

  lemma WindowOfKept(cfg: Config, z: ZSet, now: int, at: int)
    requires SoundSet(cfg, z, now) && now <= at
    ensures InWindow(cfg, KeptSet(cfg, z, at), at) <= cfg.maxRequests
  {
    PrunedLater(cfg, z, now, at);
    SameWindow(cfg, KeptSet(cfg, z, at), at);
  }

  lemma SameWindow(cfg: Config, kept: map<string, int>, at: int)
    requires Pruned(kept, 0, at - cfg.windowMs) == kept
    ensures InWindow(cfg, kept, at) == |kept|
  {
  }

  lemma SubMembers(cfg: Config, z: ZSet, now: int, at: int, z': ZSet)
    requires SoundMembers(cfg, z, now) && now <= at
    requires z'.scores == Pruned(z.scores, 0, at - cfg.windowMs) && z'.expiry == z.expiry
    ensures SoundMembers(cfg, z', at)
  {
    forall m | m in z'.scores
      ensures 0 <= z'.scores[m] <= at && z'.scores[m] + cfg.windowMs <= z'.expiry && Stamp(m) == z'.scores[m]
    {
      assert m in z.scores && z.scores[m] == z'.scores[m];
    }
  }

  lemma SoundAdded(cfg: Config, kept: map<string, int>, expiry: int, at: nat, name: string, z': ZSet)
    requires z' == ZSet(kept[name := at], at + TtlSeconds(cfg) * 1000)
    requires SoundSet(cfg, ZSet(kept, expiry), at) && |kept| < cfg.maxRequests && Stamp(name) == at && name !in kept
    requires Pruned(kept, 0, at - cfg.windowMs) == kept
    ensures SoundSet(cfg, z', at)
  {
    var next := kept[name := at];
    assert SoundMembers(cfg, z', at);
    CountAtMost(cfg, next, at);
  }

  lemma CountAtMost(cfg: Config, scores: map<string, int>, at: int)
    ensures InWindow(cfg, scores, at) <= |scores|
  {
    var pruned := Pruned(scores, 0, at - cfg.windowMs);
    SubsetCard(pruned.Keys, scores.Keys);
    assert |pruned| == |pruned.Keys| && |scores| == |scores.Keys|;
  }

  lemma {:induction false} ScriptSound(cfg: Config, reqs: seq<Request>)
    requires ClockedRequests(reqs)
    ensures SoundSet(cfg, RunScript(cfg, reqs).0, LastRequest(reqs))
  {
    if reqs != [] {
      var front, q := reqs[..|reqs| - 1], reqs[|reqs| - 1];
      assert front + [q] == reqs;
      ClockedFront(reqs);
      ScriptSound(cfg, front);
      ScriptMembers(cfg, front);
      NextMemberIsNew(front, q);
      ScriptNext(cfg, front, q);
      assert LastRequest(front) <= q.now by {
        if front != [] { assert reqs[|front| - 1].now <= reqs[|front|].now; }
      }
      StepSound(cfg, RunScript(cfg, front).0, LastRequest(front), q);
    }
  }

  lemma AdmissionSound(cfg: Config, z: ZSet, now: int, at: nat, name: string, z': ZSet)
    requires SoundSet(cfg, z, now) && now <= at && name !in z.scores && Stamp(name) == at
    requires |KeptSet(cfg, z, at)| < cfg.maxRequests
    requires z' == ZSet(KeptSet(cfg, z, at)[name := at], at + TtlSeconds(cfg) * 1000)
    ensures SoundSet(cfg, z', at)
  {
    SoundPruned(cfg, z, now, at, z.(scores := KeptSet(cfg, z, at)));
    PrunedLater(cfg, z, now, at);
    assert name !in KeptSet(cfg, z, at);
    SoundAdded(cfg, KeptSet(cfg, z, at), z.expiry, at, name, z');
  }

  lemma StepSound(cfg: Config, z: ZSet, now: int, q: Request)
    requires SoundSet(cfg, z, now) && now <= q.now && MemberName(q.now, q.uuid) !in z.scores
    ensures SoundSet(cfg, ScriptStep(cfg, z, q).0, q.now)
  {
    ScriptShape(cfg, z, q);
    if |KeptSet(cfg, z, q.now)| < cfg.maxRequests {
      StampOfMember(q.now, q.uuid);
      AdmissionSound(cfg, z, now, q.now, MemberName(q.now, q.uuid), ScriptStep(cfg, z, q).0);
    } else {
      SoundPruned(cfg, z, now, q.now, ScriptStep(cfg, z, q).0);
    }
  }

  /** The set as a denied check leaves it: as many members as the limit, none of them out of the window. */
  ghost predicate FullSet(cfg: Config, z: ZSet, now: int) {
    && SoundSet(cfg, z, now) && |z.scores| == cfg.maxRequests && Pruned(z.scores, 0, now - cfg.windowMs) == z.scores
  }

  /** No member is older than the reset time says. */
  ghost predicate OldestLeavesAt(cfg: Config, z: ZSet, reset: int) {
    (forall m :: m in z.scores ==> reset <= z.scores[m] + cfg.windowMs)
    && (|z.scores| > 0 ==> exists m :: m in z.scores && z.scores[m] + cfg.windowMs == reset)
  }

  lemma RedisDenial(cfg: Config, z: ZSet, before: int, now: nat, names: seq<string>)
    requires SoundSet(cfg, z, before) && before <= now
    requires var kept := KeptSet(cfg, z, now);
             ListedByScore(kept, now - cfg.windowMs, now, names) && !CheckResult(cfg, names, now).allowed
    ensures var kept := KeptSet(cfg, z, now);
            && FullSet(cfg, z.(scores := kept), now)
            && OldestLeavesAt(cfg, z.(scores := kept), CheckResult(cfg, names, now).resetTime)
  {
    PrunedLater(cfg, z, before, now);
    SoundPruned(cfg, z, before, now, z.(scores := KeptSet(cfg, z, now)));
    var kept := KeptSet(cfg, z, now);
    ListedCount(kept, now - cfg.windowMs, now, names);
    forall m | m in kept ensures |names| > 0 && kept[names[0]] <= kept[m] {
      assert m in names;
      var i :| 0 <= i < |names| && names[i] == m;
      assert i > 0 ==> kept[names[0]] <= kept[names[i]];
    }
  }

  /** Until the oldest member leaves the window nothing is pruned; from then on something is. */
  lemma FullSetUntil(cfg: Config, z: ZSet, now: int, reset: int, at: int)
    requires FullSet(cfg, z, now) && OldestLeavesAt(cfg, z, reset) && now <= at
    ensures at < reset ==> KeptSet(cfg, z, at) == z.scores && Within(z.scores, at - cfg.windowMs, at)
    ensures at >= reset && cfg.maxRequests > 0 ==> |KeptSet(cfg, z, at)| < cfg.maxRequests
  {
    var kept := KeptSet(cfg, z, at);
    PrunedLater(cfg, z, now, at);
    if at < reset {
      assert kept == z.scores;
    } else if cfg.maxRequests > 0 {
      var m :| m in z.scores && z.scores[m] + cfg.windowMs == reset;
      assert m !in kept && kept.Keys <= z.scores.Keys - {m};
      SubsetCard(kept.Keys, z.scores.Keys - {m});
      assert |kept| == |kept.Keys| && |z.scores| == |z.scores.Keys|;
    }
  }

  /** Attempts at the atomic limiter, from a given set. */
  function Attempts(cfg: Config, z: ZSet, reqs: seq<Request>): (ZSet, seq<RateLimitResult>) {
    if reqs == [] then (z, [])
    else
      var (mid, results) := Attempts(cfg, z, reqs[..|reqs| - 1]);
      var (after, r) := ScriptStep(cfg, mid, reqs[|reqs| - 1]);
      (after, results + [r])
  }

  lemma AttemptDenied(cfg: Config, z: ZSet, now: int, reset: int, q: Request)
    requires FullSet(cfg, z, now) && OldestLeavesAt(cfg, z, reset) && now <= q.now < reset
    ensures ScriptStep(cfg, z, q).0 == z && !ScriptStep(cfg, z, q).1.allowed
  {
    assert KeptSet(cfg, z, q.now) == z.scores by { FullSetUntil(cfg, z, now, reset, q.now); }
    ScriptShape(cfg, z, q);
  }

  lemma {:induction false} AttemptsDenied(cfg: Config, z: ZSet, now: int, reset: int, attempts: seq<Request>)
    requires FullSet(cfg, z, now) && OldestLeavesAt(cfg, z, reset)
    requires forall q | q in attempts :: now <= q.now < reset
    ensures Attempts(cfg, z, attempts).0 == z && forall r | r in Attempts(cfg, z, attempts).1 :: !r.allowed
  {
    if attempts != [] {
      var n := |attempts| - 1;
      AttemptsDenied(cfg, z, now, reset, attempts[..n]);
      AttemptDenied(cfg, z, now, reset, attempts[n]);
    }
  }

  /** On Redis too, after any atomic admissions: every attempt before a denial's reset time is denied and
      changes nothing, and a check is allowed if and only if it comes at the reset time or later and
      the limit admits anything at all; waiting `retryAfter` seconds reaches that time. */
  lemma RedisResetTimeExact(cfg: Config, history: seq<Request>, now: nat, names: seq<string>, attempts: seq<Request>,
                            at: nat, later: seq<string>)
    requires ClockedRequests(history) && LastRequest(history) <= now <= at
    requires var z := RunScript(cfg, history).0;
             var kept := KeptSet(cfg, z, now);
             var r := CheckResult(cfg, names, now);
             && ListedByScore(kept, now - cfg.windowMs, now, names) && !r.allowed
             && (forall q | q in attempts :: now <= q.now < r.resetTime)
             && ListedByScore(KeptSet(cfg, Attempts(cfg, z.(scores := kept), attempts).0, at),
                              at - cfg.windowMs, at, later)
    ensures var z := RunScript(cfg, history).0;
            var kept := KeptSet(cfg, z, now);
            var r := CheckResult(cfg, names, now);
            && (forall d | d in Attempts(cfg, z.(scores := kept), attempts).1 :: !d.allowed)
            && (CheckResult(cfg, later, at).allowed <==> at >= r.resetTime && cfg.maxRequests >= 1)
            && r.retryAfter.Some? && r.resetTime <= now + 1000 * r.retryAfter.value < r.resetTime + 1000
  {
    ScriptSound(cfg, history);
    var z := RunScript(cfg, history).0;
    var full := z.(scores := KeptSet(cfg, z, now));
    var reset := CheckResult(cfg, names, now).resetTime;
    RedisDenial(cfg, z, LastRequest(history), now, names);
    AttemptsDenied(cfg, full, now, reset, attempts);
    CheckAfterDenial(cfg, full, now, reset, at, later);
  }

  lemma CheckAfterDenial(cfg: Config, full: ZSet, now: int, reset: int, at: nat, later: seq<string>)
    requires FullSet(cfg, full, now) && OldestLeavesAt(cfg, full, reset) && now <= at
    requires ListedByScore(KeptSet(cfg, full, at), at - cfg.windowMs, at, later)
    ensures CheckResult(cfg, later, at).allowed <==> at >= reset && cfg.maxRequests >= 1
  {
    FullSetUntil(cfg, full, now, reset, at);
    ListedCount(KeptSet(cfg, full, at), at - cfg.windowMs, at, later);
  }
}
