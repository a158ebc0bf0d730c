/** sentinel/types.ts: a bounded history of timestamped samples. */
module SignalHistory {
  import opened Seqs

  datatype Sample = Sample(value: real, timestamp: int)

  /** `append`: push, then keep the last `maxEntries`. A limit of 0 never trims, because
      `slice(-0)` is the whole array. */
  function Appended(entries: seq<Sample>, maxEntries: nat, value: real, timestamp: int): seq<Sample> {
    Trimmed(entries + [Sample(value, timestamp)], maxEntries)
  }

  function Trimmed(entries: seq<Sample>, maxEntries: nat): seq<Sample> {
    if maxEntries == 0 || |entries| <= maxEntries then entries else entries[|entries| - maxEntries..]
  }

  function InRange(since: int, until: int): Sample -> bool {
    (e: Sample) => e.timestamp >= since && e.timestamp <= until
  }

  function ValuesInRange(entries: seq<Sample>, since: int, until: int): seq<Sample> {
    Select(entries, InRange(since, until))
  }

  class SignalHistory {
    var entries: seq<Sample>
    const maxEntries: nat

    constructor (maxEntries: nat := 120)
      ensures entries == [] && this.maxEntries == maxEntries
    {
      entries := [];
      this.maxEntries := maxEntries;
    }

    method Append(value: real, timestamp: int)
      modifies this
      ensures entries == Appended(old(entries), maxEntries, value, timestamp)
    {
      entries := entries + [Sample(value, timestamp)];
      if |entries| > maxEntries {
        entries := if maxEntries == 0 then entries else entries[|entries| - maxEntries..];
      }
    }

    /** Exactly the samples within the closed range, in the order they were appended. */
    method ReadRange(since: int, until: int) returns (r: seq<Sample>)
      ensures exists at :: Picks(entries, InRange(since, until), at) && TakenAt(entries, at, r)
    {
      r := Select(entries, InRange(since, until));
      ghost var at := SelectPicks(entries, InRange(since, until));
    }
  }

  /** The history after appending a whole log, sample by sample. */
  function AppendAll(log: seq<Sample>, maxEntries: nat): seq<Sample> {
    if log == [] then []
    else
      var last := log[|log| - 1];
      Appended(AppendAll(log[..|log| - 1], maxEntries), maxEntries, last.value, last.timestamp)
  }

  lemma TrimmedNext(front: seq<Sample>, maxEntries: nat, last: Sample)
    ensures Trimmed(Trimmed(front, maxEntries) + [last], maxEntries) == Trimmed(front + [last], maxEntries)
  {
    var all := front + [last];
    if maxEntries != 0 && |front| > maxEntries {
      var cut := |front| - maxEntries;
      assert front[cut..] + [last] == all[cut..];
      assert all[cut..][1..] == all[cut + 1..];
    }
  }

  /** What is kept of a log is its own trimming, however many appends were trimmed on the way. */
  lemma {:induction false} AppendAllIsTrimmed(log: seq<Sample>, maxEntries: nat)
    ensures AppendAll(log, maxEntries) == Trimmed(log, maxEntries)
  {
    if log != [] {
      AppendAllIsTrimmed(log[..|log| - 1], maxEntries);
      TrimmedNext(log[..|log| - 1], maxEntries, log[|log| - 1]);
      assert log[..|log| - 1] + [log[|log| - 1]] == log;
    }
  }

  /** Samples at least `spacing` apart, none later than `now`. */
  ghost predicate Spaced(log: seq<Sample>, spacing: nat, now: int) {
    && (forall i :: 0 <= i < |log| - 1 ==> log[i].timestamp + spacing <= log[i + 1].timestamp)
    && (log != [] ==> log[|log| - 1].timestamp <= now)
  }

  lemma {:induction false} SpacedApart(log: seq<Sample>, spacing: nat, now: int, i: nat)
    requires Spaced(log, spacing, now) && i < |log|
    ensures log[i].timestamp + (|log| - 1 - i) * spacing <= log[|log| - 1].timestamp
    decreases |log| - i
  {
    if i < |log| - 1 {
      SpacedApart(log, spacing, now, i + 1);
      assert (|log| - 1 - i) * spacing == (|log| - 1 - (i + 1)) * spacing + spacing;
    }
  }

  lemma ScaleMonotone(a: int, b: int, c: nat)
    requires a <= b
    ensures a * c <= b * c
  {
    assert b * c - a * c == (b - a) * c;
  }

  /** A sample with `maxEntries` later ones is older than the window. */
  lemma CutSampleIsOld(log: seq<Sample>, maxEntries: nat, spacing: nat, window: nat, now: int, i: nat)
    requires Spaced(log, spacing, now) && window < maxEntries * spacing
    requires i + maxEntries < |log|
    ensures log[i].timestamp < now - window
  {
    SpacedApart(log, spacing, now, i);
    ScaleMonotone(maxEntries, |log| - 1 - i, spacing);
  }

  lemma CutIsInvisible(log: seq<Sample>, cut: nat, since: int, until: int)
    requires cut <= |log| && forall i | 0 <= i < cut :: log[i].timestamp < since
    ensures ValuesInRange(log[cut..], since, until) == ValuesInRange(log, since, until)
  {
    SelectNone(log[..cut], InRange(since, until));
    SelectAppend(log[..cut], log[cut..], InRange(since, until));
    assert log[..cut] + log[cut..] == log;
  }

  /** Trimming cannot be seen through a window shorter than the limit times the spacing. */
  lemma TrimInvisible(log: seq<Sample>, maxEntries: nat, spacing: nat, window: nat, now: int)
    requires Spaced(log, spacing, now)
    requires maxEntries == 0 || window < maxEntries * spacing
    ensures ValuesInRange(AppendAll(log, maxEntries), now - window, now) == ValuesInRange(log, now - window, now)
  {
    AppendAllIsTrimmed(log, maxEntries);
    if maxEntries != 0 && |log| > maxEntries {
      forall i | 0 <= i < |log| - maxEntries ensures log[i].timestamp < now - window {
        CutSampleIsOld(log, maxEntries, spacing, window, now, i);
      }
      CutIsInvisible(log, |log| - maxEntries, now - window, now);
    }
  }

  /** Samples at times 0, spacing, 2 * spacing, ... */
  function Regular(count: nat, spacing: nat): (log: seq<Sample>)
    ensures |log| == count
    ensures forall i | 0 <= i < count :: log[i].timestamp == i * spacing
  {
    seq(count, i => Sample(0.0, i * spacing))
  }

  lemma RegularIsSpaced(count: nat, spacing: nat)
    ensures Spaced(Regular(count + 1, spacing), spacing, count * spacing)
    ensures forall e | e in Regular(count + 1, spacing) :: 0 <= e.timestamp <= count * spacing
  {
    var log := Regular(count + 1, spacing);
    forall i | 0 <= i < |log| - 1 ensures log[i].timestamp + spacing <= log[i + 1].timestamp {
      assert (i + 1) * spacing == i * spacing + spacing;
    }
    forall e | e in log ensures 0 <= e.timestamp <= count * spacing {
      var i :| 0 <= i < |log| && log[i] == e;
      ScaleMonotone(0, i, spacing);
      ScaleMonotone(i, count, spacing);
    }
  }

  /** One sample too many, all of them still in the window: the trimming shows. */
  lemma TrimShows(maxEntries: nat, spacing: nat, window: nat)
    requires maxEntries != 0 && window >= maxEntries * spacing
    ensures var log, now := Regular(maxEntries + 1, spacing), maxEntries * spacing;
            && Spaced(log, spacing, now)
            && ValuesInRange(AppendAll(log, maxEntries), now - window, now) != ValuesInRange(log, now - window, now)
  {
    var log, now := Regular(maxEntries + 1, spacing), maxEntries * spacing;
    RegularIsSpaced(maxEntries, spacing);
    AppendAllIsTrimmed(log, maxEntries);
    SelectAll(log, InRange(now - window, now));
    assert |ValuesInRange(AppendAll(log, maxEntries), now - window, now)| <= maxEntries;
  }

  ghost predicate NeverShows(maxEntries: nat, spacing: nat, window: nat) {
    forall log, now :: Spaced(log, spacing, now) ==>
      ValuesInRange(AppendAll(log, maxEntries), now - window, now) == ValuesInRange(log, now - window, now)
  }

  /** The bound is exact: no log of samples `spacing` apart ever shows the trimming if and only if
      the window is shorter than the limit times the spacing (or the history is unbounded). */
  lemma TrimInvisibleExactly(maxEntries: nat, spacing: nat, window: nat)
    ensures NeverShows(maxEntries, spacing, window) <==> maxEntries == 0 || window < maxEntries * spacing
  {
    if maxEntries == 0 || window < maxEntries * spacing {
      forall log, now | Spaced(log, spacing, now)
        ensures ValuesInRange(AppendAll(log, maxEntries), now - window, now) == ValuesInRange(log, now - window, now)
      {
        TrimInvisible(log, maxEntries, spacing, window, now);
      }
    } else {
      TrimShows(maxEntries, spacing, window);
      assert Spaced(Regular(maxEntries + 1, spacing), spacing, maxEntries * spacing);
    }
  }

  /** With the worker's numbers (a poll every 30 s, 120 samples, a 30 minute window) nothing the
      rules compare is ever trimmed. */
  lemma DefaultHistorySuffices(log: seq<Sample>, now: int)
    requires Spaced(log, 30000, now)
    ensures ValuesInRange(AppendAll(log, 120), now - 1800000, now) == ValuesInRange(log, now - 1800000, now)
    ensures ValuesInRange(AppendAll(log, 120), now - 900000, now) == ValuesInRange(log, now - 900000, now)
  {
    TrimInvisible(log, 120, 30000, 1800000, now);
    TrimInvisible(log, 120, 30000, 900000, now);
  }
}
