/** lib/redis/client.ts: the key/value and sorted-set store behind `CacheInterface`.
    Plain keys and sorted sets are kept apart here; the source keeps both in one Map, with the
    sorted sets under a `zset:` prefix. Times are milliseconds, time-to-live values seconds. */
module Store {
  import opened Wrappers
  import opened Seqs

  datatype Item = Item(text: string, expiry: Option<int>)
  datatype Member = Member(name: string, score: int)

  type Plain = map<string, Item>

  /** An entry is visible up to and including its expiry instant; a zero expiry counts as none. */
  predicate Live(item: Item, now: int) {
    item.expiry.None? || item.expiry.value == 0 || now <= item.expiry.value
  }

  function Lookup(plain: Plain, key: string, now: int): Option<string> {
    if key in plain && Live(plain[key], now) then Some(plain[key].text) else None
  }

  /** Reading deletes an entry that has expired. */
  function Swept(plain: Plain, key: string, now: int): Plain {
    if key in plain && !Live(plain[key], now) then plain - {key} else plain
  }

  function Put(plain: Plain, key: string, text: string, ttl: nat, now: int): Plain {
    plain[key := Item(text, if ttl != 0 then Some(now + ttl * 1000) else None)]
  }

  function PutIfAbsent(plain: Plain, key: string, text: string, ttl: nat, now: int): (Plain, bool) {
    if key in plain && Live(plain[key], now) then (plain, false)
    else (plain[key := Item(text, Some(now + ttl * 1000))], true)
  }

  /** A stored text is read back through its last millisecond of life, and not after. */
  lemma PutThenLookup(plain: Plain, key: string, text: string, ttl: nat, now: int, later: int)
    requires 0 < now <= later
    ensures Lookup(Put(plain, key, text, ttl, now), key, later)
         == if ttl == 0 || later <= now + ttl * 1000 then Some(text) else None
  {
    if ttl > 0 {
      assert now + ttl * 1000 > 0;
    }
  }

  /** Sweeping an expired entry is invisible to every later reader of every key. */
  lemma SweepIsInvisible(plain: Plain, key: string, now: int, other: string, later: int)
    requires now <= later
    ensures Lookup(Swept(plain, key, now), other, later) == Lookup(plain, other, later)
  {
    if key in plain && !Live(plain[key], now) && other == key {
      assert !Live(plain[key], later);
    }
  }

  // ---- Sorted sets: a Map from member to score, kept in insertion order ----

  /** `Map.set`: an existing member keeps its position. */
  function Upsert(entries: seq<Member>, name: string, score: int): seq<Member> {
    if entries == [] then [Member(name, score)]
    else if entries[0].name == name then [Member(name, score)] + entries[1..]
    else [entries[0]] + Upsert(entries[1..], name, score)
  }

  function InRange(entries: seq<Member>, lo: int, hi: int): seq<Member> {
    Select(entries, (m: Member) => lo <= m.score <= hi)
  }

  function OutsideRange(entries: seq<Member>, lo: int, hi: int): seq<Member> {
    Select(entries, (m: Member) => m.score < lo || m.score > hi)
  }

  /** `kept` are the members with a score below or above the range, in the order of the set. */
  ghost predicate KeepsOutside(entries: seq<Member>, lo: int, hi: int, kept: seq<Member>) {
    exists at :: Picks(entries, Beyond(lo, hi), at) && TakenAt(entries, at, kept)
  }

  function Beyond(lo: int, hi: int): Member -> bool {
    (m: Member) => !(lo <= m.score <= hi)
  }

  /** What is left when a range is removed is exactly that. */
  lemma OutsideRangeExactly(entries: seq<Member>, lo: int, hi: int, kept: seq<Member>)
    ensures KeepsOutside(entries, lo, hi, kept) <==> kept == OutsideRange(entries, lo, hi)
  {
    SelectAgree(entries, (m: Member) => m.score < lo || m.score > hi, Beyond(lo, hi));
    var at := SelectPicks(entries, Beyond(lo, hi));
    if KeepsOutside(entries, lo, hi, kept) {
      var at' :| Picks(entries, Beyond(lo, hi), at') && TakenAt(entries, at', kept);
      PicksUnique(entries, Beyond(lo, hi), at');
      assert kept == Select(entries, Beyond(lo, hi));
    }
  }

  /** A member that is there keeps its place and gets the score, a new one goes to the end. */
  lemma {:induction false} UpsertExactly(entries: seq<Member>, name: string, score: int, i: nat)
    requires i <= |entries| && (i < |entries| ==> entries[i].name == name) && forall j :: 0 <= j < i ==> entries[j].name != name
    ensures Upsert(entries, name, score)
         == if i < |entries| then entries[i := Member(name, score)] else entries + [Member(name, score)]
  {
    if i > 0 {
      UpsertExactly(entries[1..], name, score, i - 1);
      assert entries == [entries[0]] + entries[1..];
    }
  }

  predicate NamesAt(entries: seq<Member>, at: seq<int>, names: seq<string>) {
    |names| == |at| && forall k | 0 <= k < |at| :: 0 <= at[k] < |entries| && names[k] == entries[at[k]].name
  }

  /** The names of exactly the members with a score in the range, in the order of the set. */
  ghost predicate ListsRange(entries: seq<Member>, lo: int, hi: int, names: seq<string>) {
    exists at :: Picks(entries, (m: Member) => lo <= m.score <= hi, at) && NamesAt(entries, at, names)
  }

  /** There is one such list. */
  lemma ListsRangeUnique(entries: seq<Member>, lo: int, hi: int, names: seq<string>)
    requires ListsRange(entries, lo, hi, names)
    ensures names == Names(InRange(entries, lo, hi))
  {
    var at :| Picks(entries, (m: Member) => lo <= m.score <= hi, at) && NamesAt(entries, at, names);
    PicksUnique(entries, (m: Member) => lo <= m.score <= hi, at);
  }

  function EntriesOf(zsets: map<string, seq<Member>>, key: string): seq<Member> {
    if key in zsets then zsets[key] else []
  }

  /** The in-memory implementation of `CacheInterface`. */
  class MemoryStore {
    var plain: Plain
    var zsets: map<string, seq<Member>>

    constructor ()
      ensures plain == map[] && zsets == map[]
    {
      plain, zsets := map[], map[];
    }

    method Get(key: string, now: int) returns (r: Option<string>)
      modifies this`plain
      ensures r == Lookup(old(plain), key, now)
      ensures plain == Swept(old(plain), key, now)
    {
      if key !in plain { return None; }
      if plain[key].expiry.Some? && plain[key].expiry.value != 0 && plain[key].expiry.value < now {
        plain := plain - {key};
        return None;
      }
      return Some(plain[key].text);
    }

    method Set(key: string, text: string, ttl: nat, now: int)
      modifies this`plain
      ensures plain == Put(old(plain), key, text, ttl, now)
    {
      var expiry := if ttl != 0 then Some(now + ttl * 1000) else None;
      plain := plain[key := Item(text, expiry)];
    }

    method SetNX(key: string, text: string, ttl: nat, now: int) returns (done: bool)
      modifies this`plain
      ensures (plain, done) == PutIfAbsent(old(plain), key, text, ttl, now)
    {
      if key in plain && Live(plain[key], now) { return false; }
      plain := plain[key := Item(text, Some(now + ttl * 1000))];
      return true;
    }

    method Del(key: string)
      modifies this`plain
      ensures plain == old(plain) - {key}
    {
      plain := plain - {key};
    }

    /** Acts on plain keys only: a sorted set kept by this store never expires. */
    method Expire(key: string, ttl: nat, now: int)
      modifies this`plain
      ensures plain == if key in old(plain)
                       then old(plain)[key := Item(old(plain)[key].text, Some(now + ttl * 1000))] else old(plain)
    {
      if key in plain {
        plain := plain[key := Item(plain[key].text, Some(now + ttl * 1000))];
      }
    }

    method ZAdd(key: string, score: int, name: string)
      modifies this`zsets
      ensures zsets == old(zsets)[key := Upsert(EntriesOf(old(zsets), key), name, score)]
    {
      zsets := zsets[key := Upsert(EntriesOf(zsets, key), name, score)];
    }

    method ZRangeByScore(key: string, lo: int, hi: int) returns (names: seq<string>)
      ensures ListsRange(EntriesOf(zsets, key), lo, hi, names)
    {
      if key !in zsets {
        names := [];
        assert Picks(EntriesOf(zsets, key), (m: Member) => lo <= m.score <= hi, []) && NamesAt(EntriesOf(zsets, key), [], names);
        return;
      }
      ghost var at := SelectPicks(zsets[key], (m: Member) => lo <= m.score <= hi);
      names := Names(InRange(zsets[key], lo, hi));
      assert NamesAt(zsets[key], at, names);
    }

    method ZRemRangeByScore(key: string, lo: int, hi: int)
      modifies this`zsets
      ensures EntriesOf(zsets, key) == OutsideRange(EntriesOf(old(zsets), key), lo, hi)
      ensures forall k | k != key :: k in zsets <==> k in old(zsets)
      ensures forall k | k != key && k in zsets :: zsets[k] == old(zsets)[k]
    {
      if key !in zsets { return; }
      zsets := zsets[key := OutsideRange(zsets[key], lo, hi)];
    }
  }

  function Names(entries: seq<Member>): (names: seq<string>)
    ensures |names| == |entries|
    ensures forall i | 0 <= i < |names| :: names[i] == entries[i].name
  {
    seq(|entries|, i requires 0 <= i < |entries| => entries[i].name)
  }
}
