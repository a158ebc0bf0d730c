/** lib/ens/cache.ts: a least-recently-used cache whose entries also expire. */
module LruCache {
  import opened Wrappers
  import opened Seqs

  datatype Entry<V> = Entry(value: V, expiresAt: int)
  datatype Cell<V> = Cell(key: string, entry: Entry<V>)

  // ---- A Map in insertion order ----

  function Find<V>(cells: seq<Cell<V>>, key: string): Option<Entry<V>> {
    if cells == [] then None
    else if cells[0].key == key then Some(cells[0].entry)
    else Find(cells[1..], key)
  }

  function Without<V>(cells: seq<Cell<V>>, key: string): (r: seq<Cell<V>>)
    ensures |r| <= |cells|
  {
    if cells == [] then []
    else if cells[0].key == key then cells[1..]
    else [cells[0]] + Without(cells[1..], key)
  }

  ghost function Keys<V>(cells: seq<Cell<V>>): set<string> {
    set c | c in cells :: c.key
  }

  ghost predicate Distinct<V>(cells: seq<Cell<V>>) {
    forall i, j :: 0 <= i < j < |cells| ==> cells[i].key != cells[j].key
  }

  predicate Fresh<V>(entry: Option<Entry<V>>, now: int) {
    entry.Some? && now <= entry.value.expiresAt
  }

  /** A hit moves to the end; an expired entry is dropped. */
  function AfterGet<V>(cells: seq<Cell<V>>, key: string, now: int): seq<Cell<V>> {
    var entry := Find(cells, key);
    if entry.None? then cells
    else if Fresh(entry, now) then Without(cells, key) + [Cell(key, entry.value)]
    else Without(cells, key)
  }

  function Answer<V>(cells: seq<Cell<V>>, key: string, now: int): Option<V> {
    var entry := Find(cells, key);
    if Fresh(entry, now) then Some(entry.value.value) else None
  }

  /** A set goes to the end; past `max` the oldest goes. */
  function AfterSet<V>(cells: seq<Cell<V>>, max: nat, key: string, entry: Entry<V>): seq<Cell<V>> {
    var next := Without(cells, key) + [Cell(key, entry)];
    if |next| > max then next[1..] else next
  }

  class LRU<V> {
    var cells: seq<Cell<V>>
    const max: nat
    const ttlMs: int

    constructor (max: nat := 50, ttlMs: int := 5 * 60 * 1000)
      ensures cells == [] && this.max == max && this.ttlMs == ttlMs
    {
      cells := [];
      this.max, this.ttlMs := max, ttlMs;
    }

    method Get(key: string, now: int) returns (r: Option<V>)
      modifies this
      ensures cells == AfterGet(old(cells), key, now) && r == Answer(old(cells), key, now)
    {
      var entry := Find(cells, key);
      if entry.None? { return None; }
      if now > entry.value.expiresAt {
        cells := Without(cells, key);
        return None;
      }
      cells := Without(cells, key);
      cells := cells + [Cell(key, entry.value)];
      return Some(entry.value.value);
    }

    method Set(key: string, value: V, now: int)
      modifies this
      ensures cells == AfterSet(old(cells), max, key, Entry(value, now + ttlMs))
    {
      cells := Without(cells, key);
      cells := cells + [Cell(key, Entry(value, now + ttlMs))];
      if |cells| > max {
        cells := cells[1..];
      }
    }

    method Delete(key: string)
      modifies this
      ensures cells == Without(old(cells), key)
    {
      cells := Without(cells, key);
    }

    method Clear()
      modifies this
      ensures cells == []
    {
      cells := [];
    }
  }

  // ---- Any sequence of operations ----

  datatype Op<V> = Get(key: string, now: int) | Set(key: string, value: V, now: int) | Delete(key: string) | Clear

  function Step<V>(cells: seq<Cell<V>>, max: nat, ttlMs: int, op: Op<V>): seq<Cell<V>> {
    match op
    case Get(key, now) => AfterGet(cells, key, now)
    case Set(key, value, now) => AfterSet(cells, max, key, Entry(value, now + ttlMs))
    case Delete(key) => Without(cells, key)
    case Clear => []
  }

  function Run<V>(max: nat, ttlMs: int, ops: seq<Op<V>>): seq<Cell<V>> {
    if ops == [] then [] else Step(Run(max, ttlMs, ops[..|ops| - 1]), max, ttlMs, ops[|ops| - 1])
  }

  /** What the cache should know of one key: its entry, and the cached keys set or hit since the
      key's own last set or hit. No order is kept. */
  datatype Known<V> = Known(entry: Entry<V>, rivals: set<string>)

  function EntryOf<V>(k: Option<Known<V>>): Option<Entry<V>> {
    if k.Some? then Some(k.value.entry) else None
  }

  /** The reference: a key is known from its set until it is deleted, found expired, or crowded out
      by a set that gives it `max` rivals. */
  ghost function Reference<V>(max: nat, ttlMs: int, ops: seq<Op<V>>, key: string): Option<Known<V>>
    decreases |ops|
  {
    if ops == [] then None
    else
      var before := ops[..|ops| - 1];
      var known := Reference(max, ttlMs, before, key);
      match ops[|ops| - 1]
      case Clear => None
      case Delete(other) => if other == key then None else Gone(known, other)
      case Set(other, value, now) =>
        if other == key then (if max == 0 then None else Some(Known(Entry(value, now + ttlMs), {})))
        else if known.Some? && |known.value.rivals + {other}| >= max then None
        else Joined(known, other)
      case Get(other, now) =>
        if other == key then (if Fresh(EntryOf(known), now) then Some(known.value.(rivals := {})) else None)
        else if Fresh(EntryOf(Reference(max, ttlMs, before, other)), now) then Joined(known, other)
        else Gone(known, other)
  }

  function Joined<V>(known: Option<Known<V>>, other: string): Option<Known<V>> {
    if known.None? then None else Some(known.value.(rivals := known.value.rivals + {other}))
  }

  function Gone<V>(known: Option<Known<V>>, other: string): Option<Known<V>> {
    if known.None? then None else Some(known.value.(rivals := known.value.rivals - {other}))
  }

  /** The keys behind a key, in insertion order. */
  ghost function Behind<V>(cells: seq<Cell<V>>, key: string): set<string> {
    if cells == [] then {}
    else if cells[0].key == key then Keys(cells[1..])
    else Behind(cells[1..], key)
  }

  ghost predicate Agrees<V>(cells: seq<Cell<V>>, key: string, known: Option<Known<V>>) {
    Find(cells, key) == EntryOf(known) && (known.Some? ==> Behind(cells, key) == known.value.rivals)
  }

  lemma {:induction false} FindInKeys<V>(cells: seq<Cell<V>>, key: string)
    ensures Find(cells, key).Some? <==> key in Keys(cells)
  {
    if cells != [] {
      FindInKeys(cells[1..], key);
      assert cells == [cells[0]] + cells[1..];
    }
  }

  lemma {:induction false} WithoutKeys<V>(cells: seq<Cell<V>>, key: string)
    requires Distinct(cells)
    ensures Distinct(Without(cells, key)) && Keys(Without(cells, key)) == Keys(cells) - {key}
    ensures |Without(cells, key)| == |cells| - if key in Keys(cells) then 1 else 0
  {
    if cells != [] {
      assert cells == [cells[0]] + cells[1..];
      assert Keys(cells) == {cells[0].key} + Keys(cells[1..]);
      if cells[0].key != key {
        var rest := Without(cells[1..], key);
        WithoutKeys(cells[1..], key);
        assert Keys([cells[0]] + rest) == {cells[0].key} + Keys(rest);
        forall j | 0 <= j < |rest| ensures rest[j].key != cells[0].key {
          assert rest[j].key in Keys(rest);
        }
      }
    }
  }

  /** Removing a key leaves what is known of the others, less that key. */
  lemma {:induction false} WithoutEffect<V>(cells: seq<Cell<V>>, key: string, other: string)
    requires Distinct(cells) && other != key
    ensures Find(Without(cells, key), other) == Find(cells, other)
    ensures Find(cells, other).Some? ==> Behind(Without(cells, key), other) == Behind(cells, other) - {key}
  {
    if cells != [] {
      if cells[0].key == key {
        BehindOnly(cells[1..], key, other);
      } else {
        WithoutEffect(cells[1..], key, other);
        assert ([cells[0]] + Without(cells[1..], key))[1..] == Without(cells[1..], key);
        WithoutKeys(cells[1..], key);
      }
    }
  }

  lemma {:induction false} BehindOnly<V>(cells: seq<Cell<V>>, key: string, other: string)
    requires forall c | c in cells :: c.key != key
    ensures key !in Behind(cells, other)
  {
    if cells != [] && cells[0].key != other {
      BehindOnly(cells[1..], key, other);
    }
  }

  lemma {:induction false} AppendEffect<V>(cells: seq<Cell<V>>, last: Cell<V>, other: string)
    requires last.key !in Keys(cells)
    ensures Find(cells + [last], other) == if other == last.key then Some(last.entry) else Find(cells, other)
    ensures Find(cells, other).Some? ==> Behind(cells + [last], other) == Behind(cells, other) + {last.key}
    ensures Behind(cells + [last], last.key) == {}
  {
    var next := cells + [last];
    if cells != [] {
      assert next[1..] == cells[1..] + [last];
      assert cells[0].key in Keys(cells);
      AppendEffect(cells[1..], last, other);
      assert Keys(next[1..]) == Keys(cells[1..]) + {last.key};
    }
  }

  lemma {:induction false} KeysCount<V>(cells: seq<Cell<V>>)
    requires Distinct(cells)
    ensures |Keys(cells)| == |cells|
  {
    if cells != [] {
      KeysCount(cells[1..]);
      assert cells == [cells[0]] + cells[1..];
      assert Keys(cells) == {cells[0].key} + Keys(cells[1..]);
    }
  }

  /** Only the oldest key has all the others behind it. */
  lemma {:induction false} BehindCount<V>(cells: seq<Cell<V>>, key: string)
    requires Distinct(cells) && key in Keys(cells)
    ensures |Behind(cells, key)| < |cells|
    ensures |Behind(cells, key)| == |cells| - 1 <==> cells[0].key == key
  {
    assert cells == [cells[0]] + cells[1..];
    if cells[0].key == key {
      KeysCount(cells[1..]);
    } else {
      BehindCount(cells[1..], key);
    }
  }

  lemma AfterGetAgrees<V>(cells: seq<Cell<V>>, key: string, now: int, k: string, known: Option<Known<V>>)
    requires Distinct(cells) && Agrees(cells, k, known)
    ensures Distinct(AfterGet(cells, key, now)) && |AfterGet(cells, key, now)| <= |cells|
    ensures Agrees(AfterGet(cells, key, now), k,
                   if key == k then (if Fresh(Find(cells, key), now) then Some(known.value.(rivals := {})) else None)
                   else if Fresh(Find(cells, key), now) then Joined(known, key) else Gone(known, key))
  {
    FindInKeys(cells, key);
    FindInKeys(cells, k);
    WithoutKeys(cells, key);
    FindInKeys(Without(cells, key), key);
    if key != k { WithoutEffect(cells, key, k); }
    if Find(cells, key).Some? {
      var rest := Without(cells, key);
      AppendEffect(rest, Cell(key, Find(cells, key).value), k);
      AppendDistinct(rest, Cell(key, Find(cells, key).value));
      if known.Some? && key != k {
        assert known.value.rivals - {key} + {key} == known.value.rivals + {key};
      }
    } else if known.Some? {
      BehindOnly(cells, key, k);
      assert known.value.rivals - {key} == known.value.rivals;
    }
  }

  lemma AppendDistinct<V>(cells: seq<Cell<V>>, last: Cell<V>)
    requires Distinct(cells) && last.key !in Keys(cells)
    ensures Distinct(cells + [last])
  {
    forall i | 0 <= i < |cells| ensures cells[i].key != last.key {
      assert cells[i].key in Keys(cells);
    }
  }

  /** The eviction takes exactly the key with `max` others behind it. */
  lemma EvictAgrees<V>(next: seq<Cell<V>>, max: nat, k: string)
    requires Distinct(next) && |next| == max + 1
    ensures Distinct(next[1..])
    ensures var gone := k !in Keys(next) || |Behind(next, k)| >= max;
            && Find(next[1..], k) == (if gone then None else Find(next, k))
            && (!gone ==> Behind(next[1..], k) == Behind(next, k))
  {
    assert next == [next[0]] + next[1..];
    FindInKeys(next, k);
    FindInKeys(next[1..], k);
    if k in Keys(next) {
      BehindCount(next, k);
    }
  }

  lemma AfterSetAgrees<V>(cells: seq<Cell<V>>, max: nat, key: string, entry: Entry<V>, k: string, known: Option<Known<V>>)
    requires Distinct(cells) && |cells| <= max && Agrees(cells, k, known)
    ensures Distinct(AfterSet(cells, max, key, entry)) && |AfterSet(cells, max, key, entry)| <= max
    ensures Agrees(AfterSet(cells, max, key, entry), k,
                   if key == k then (if max == 0 then None else Some(Known(entry, {})))
                   else if known.Some? && |known.value.rivals + {key}| >= max then None
                   else Joined(known, key))
  {
    var rest := Without(cells, key);
    var next := rest + [Cell(key, entry)];
    FindInKeys(cells, k);
    WithoutKeys(cells, key);
    if key != k { WithoutEffect(cells, key, k); }
    AppendDistinct(rest, Cell(key, entry));
    AppendEffect(rest, Cell(key, entry), k);
    FindInKeys(next, k);
    if known.Some? && key != k {
      assert known.value.rivals - {key} + {key} == known.value.rivals + {key};
    }
    if |next| > max {
      EvictAgrees(next, max, k);
    } else if k in Keys(next) {
      BehindCount(next, k);
    }
  }

  /** After any operations the cache holds at most `max` entries, and knows of every key exactly
      what the reference says. */
  lemma {:induction false} CacheRefinesReference<V>(max: nat, ttlMs: int, ops: seq<Op<V>>, k: string)
    ensures Distinct(Run(max, ttlMs, ops)) && |Run(max, ttlMs, ops)| <= max
    ensures Agrees(Run(max, ttlMs, ops), k, Reference(max, ttlMs, ops, k))
    decreases |ops|
  {
    if ops != [] {
      var front, op := ops[..|ops| - 1], ops[|ops| - 1];
      var cells := Run(max, ttlMs, front);
      CacheRefinesReference(max, ttlMs, front, k);
      match op
      case Clear =>
      case Delete(key) =>
        WithoutKeys(cells, key);
        FindInKeys(Without(cells, key), key);
        if key != k { WithoutEffect(cells, key, k); }
      case Set(key, value, now) =>
        AfterSetAgrees(cells, max, key, Entry(value, now + ttlMs), k, Reference(max, ttlMs, front, k));
      case Get(key, now) =>
        CacheRefinesReference(max, ttlMs, front, key);
        AfterGetAgrees(cells, key, now, k, Reference(max, ttlMs, front, k));
    }
  }

  // ---- What a caller sees ----

  /** Op `i` set the key to this value at this time, and nothing since replaced or removed it. */
  ghost predicate LastSet<V>(ops: seq<Op<V>>, i: nat, key: string, value: V, at: int) {
    && i < |ops| && ops[i] == Set(key, value, at)
    && forall j :: i < j < |ops| ==> ops[j] != Clear && ops[j] != Delete(key) && !(ops[j].Set? && ops[j].key == key)
  }

  lemma {:induction false} KnownIsLastSet<V>(max: nat, ttlMs: int, ops: seq<Op<V>>, k: string) returns (i: nat, at: int)
    requires Reference(max, ttlMs, ops, k).Some?
    ensures var entry := Reference(max, ttlMs, ops, k).value.entry;
            LastSet(ops, i, k, entry.value, at) && entry.expiresAt == at + ttlMs
    decreases |ops|
  {
    var n := |ops| - 1;
    if ops[n].Set? && ops[n].key == k {
      i, at := n, ops[n].now;
    } else {
      i, at := KnownIsLastSet(max, ttlMs, ops[..n], k);
      assert ops[..n][i] == ops[i];
      forall j | i < j < |ops|
        ensures ops[j] != Clear && ops[j] != Delete(k) && !(ops[j].Set? && ops[j].key == k)
      {
        assert j < n ==> ops[..n][j] == ops[j];
      }
    }
  }

  /** A hit returns the value last set for the key, within its time to live, with no delete or clear
      in between. */
  lemma HitIsLastSet<V>(max: nat, ttlMs: int, ops: seq<Op<V>>, k: string, now: int) returns (i: nat, at: int)
    requires Answer(Run(max, ttlMs, ops), k, now).Some?
    ensures LastSet(ops, i, k, Answer(Run(max, ttlMs, ops), k, now).value, at) && now <= at + ttlMs
  {
    CacheRefinesReference(max, ttlMs, ops, k);
    i, at := KnownIsLastSet(max, ttlMs, ops, k);
  }

  /** Op `j` sets the key or hits it. */
  ghost predicate Touches<V>(max: nat, ttlMs: int, ops: seq<Op<V>>, j: nat)
    requires j < |ops|
  {
    ops[j].Set? || (ops[j].Get? && Answer(Run(max, ttlMs, ops[..j]), ops[j].key, ops[j].now).Some?)
  }

  /** The keys other than `k` set or hit from op `from` on. */
  ghost function OthersSince<V>(max: nat, ttlMs: int, ops: seq<Op<V>>, k: string, from: nat): set<string> {
    set j | from <= j < |ops| && Touches(max, ttlMs, ops, j) && ops[j].key != k :: ops[j].key
  }

  ghost predicate NotAfter<V>(ops: seq<Op<V>>, now: int) {
    forall j :: 0 <= j < |ops| && (ops[j].Get? || ops[j].Set?) ==> ops[j].now <= now
  }

  lemma OthersGrow<V>(max: nat, ttlMs: int, ops: seq<Op<V>>, k: string, from: nat)
    requires ops != [] && from < |ops|
    ensures OthersSince(max, ttlMs, ops[..|ops| - 1], k, from) <= OthersSince(max, ttlMs, ops, k, from)
    ensures Touches(max, ttlMs, ops, |ops| - 1) && ops[|ops| - 1].key != k ==>
              ops[|ops| - 1].key in OthersSince(max, ttlMs, ops, k, from)
  {
    var n := |ops| - 1;
    forall x | x in OthersSince(max, ttlMs, ops[..n], k, from) ensures x in OthersSince(max, ttlMs, ops, k, from) {
      var j :| from <= j < n && Touches(max, ttlMs, ops[..n], j) && ops[..n][j].key != k && ops[..n][j].key == x;
      assert ops[..n][..j] == ops[..j] && ops[..n][j] == ops[j];
      assert Touches(max, ttlMs, ops, j);
    }
  }

  lemma LastSetUnique<V>(ops: seq<Op<V>>, k: string, i: nat, value: V, at: int, i': nat, value': V, at': int)
    requires LastSet(ops, i, k, value, at) && LastSet(ops, i', k, value', at')
    ensures value == value' && at == at'
  {
    assert !(i < i') && !(i' < i);
  }

  /** A touch at op `c`, and fewer than `max` other keys set or hit since: still known. */
  lemma {:induction false} StaysKnown<V>(max: nat, ttlMs: int, ops: seq<Op<V>>, k: string, i: nat, value: V, at: int, c: nat)
    requires LastSet(ops, i, k, value, at) && i <= c < |ops| && NotAfter(ops, at + ttlMs)
    requires c == i || (ops[c].Get? && ops[c].key == k && Touches(max, ttlMs, ops, c))
    requires |OthersSince(max, ttlMs, ops, k, c + 1)| < max
    ensures var known := Reference(max, ttlMs, ops, k);
            && known.Some? && known.value.entry == Entry(value, at + ttlMs)
            && known.value.rivals <= OthersSince(max, ttlMs, ops, k, c + 1)
    decreases |ops|
  {
    var n := |ops| - 1;
    var front, op := ops[..n], ops[n];
    if c == n {
      if c > i {
        CacheRefinesReference(max, ttlMs, front, k);
        var i', at' := KnownIsLastSet(max, ttlMs, ops, k);
        LastSetUnique(ops, k, i, value, at, i', Reference(max, ttlMs, ops, k).value.entry.value, at');
      }
    } else {
      OthersGrow(max, ttlMs, ops, k, c + 1);
      SubsetCard(OthersSince(max, ttlMs, front, k, c + 1), OthersSince(max, ttlMs, ops, k, c + 1));
      assert front[..c] == ops[..c];
      StaysKnown(max, ttlMs, front, k, i, value, at, c);
      StepStaysKnown(max, ttlMs, ops, k, OthersSince(max, ttlMs, ops, k, c + 1));
    }
  }

  lemma StepStaysKnown<V>(max: nat, ttlMs: int, ops: seq<Op<V>>, k: string, others: set<string>)
    requires ops != [] && |others| < max
    requires var n, op := |ops| - 1, ops[|ops| - 1];
             && (Touches(max, ttlMs, ops, n) && op.key != k ==> op.key in others)
             && !op.Clear? && op != Delete(k) && !(op.Set? && op.key == k)
    requires var known := Reference(max, ttlMs, ops[..|ops| - 1], k);
             && known.Some? && known.value.rivals <= others
             && (ops[|ops| - 1].Get? ==> ops[|ops| - 1].now <= known.value.entry.expiresAt)
    ensures var before, known := Reference(max, ttlMs, ops[..|ops| - 1], k), Reference(max, ttlMs, ops, k);
            known.Some? && known.value.entry == before.value.entry && known.value.rivals <= others
  {
    var front, op := ops[..|ops| - 1], ops[|ops| - 1];
    var before := Reference(max, ttlMs, front, k);
    if op.Set? {
      SubsetCard(before.value.rivals + {op.key}, others);
    } else if op.Get? {
      CacheRefinesReference(max, ttlMs, front, op.key);
    }
  }

  /** Retention: with fewer than `max` other keys set or hit since the key's own last set or hit, and
      no delete or clear, a read returns the value until it expires, and nothing after. */
  lemma Retention<V>(max: nat, ttlMs: int, ops: seq<Op<V>>, k: string, i: nat, value: V, at: int, c: nat, now: int)
    requires LastSet(ops, i, k, value, at) && i <= c < |ops| && NotAfter(ops, now)
    requires c == i || (ops[c].Get? && ops[c].key == k && Touches(max, ttlMs, ops, c))
    requires |OthersSince(max, ttlMs, ops, k, c + 1)| < max
    ensures Answer(Run(max, ttlMs, ops), k, now) == if now <= at + ttlMs then Some(value) else None
  {
    if now <= at + ttlMs {
      StaysKnown(max, ttlMs, ops, k, i, value, at, c);
      CacheRefinesReference(max, ttlMs, ops, k);
    } else if Answer(Run(max, ttlMs, ops), k, now).Some? {
      var i', at' := HitIsLastSet(max, ttlMs, ops, k, now);
      LastSetUnique(ops, k, i, value, at, i', Answer(Run(max, ttlMs, ops), k, now).value, at');
      assert false;
    }
  }
}
