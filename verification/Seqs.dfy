/** `Array.prototype.filter` and the laws about it that several modules use. */
module Seqs {

  function Select<T(!new)>(s: seq<T>, p: T -> bool): (r: seq<T>)
    ensures |r| <= |s|
  {
    if s == [] then []
    else if p(s[0]) then [s[0]] + Select(s[1..], p)
    else Select(s[1..], p)
  }

  /** The filter keeps exactly the elements that pass. */
  lemma {:induction false} SelectMembers<T(!new)>(s: seq<T>, p: T -> bool)
    ensures forall x :: x in Select(s, p) <==> x in s && p(x)
  {
    if s != [] {
      SelectMembers(s[1..], p);
    }
  }

  lemma {:induction false} SelectAppend<T(!new)>(a: seq<T>, b: seq<T>, p: T -> bool)
    ensures Select(a + b, p) == Select(a, p) + Select(b, p)
  {
    if a == [] {
      assert a + b == b;
    } else {
      assert (a + b)[1..] == a[1..] + b;
      SelectAppend(a[1..], b, p);
    }
  }

  lemma {:induction false} SelectAll<T(!new)>(s: seq<T>, p: T -> bool)
    requires forall x | x in s :: p(x)
    ensures Select(s, p) == s
  {
    if s != [] {
      SelectAll(s[1..], p);
    }
  }

  lemma {:induction false} SelectNone<T(!new)>(s: seq<T>, p: T -> bool)
    requires forall x | x in s :: !p(x)
    ensures Select(s, p) == []
  {
    if s != [] {
      SelectNone(s[1..], p);
    }
  }

  lemma {:induction false} SelectAgree<T(!new)>(s: seq<T>, p: T -> bool, q: T -> bool)
    requires forall x | x in s :: p(x) <==> q(x)
    ensures Select(s, p) == Select(s, q)
  {
    if s != [] {
      SelectAgree(s[1..], p, q);
    }
  }

  /** Two filters in a row are one filter when they agree with it element by element. */
  lemma {:induction false} SelectTwice<T(!new)>(s: seq<T>, p: T -> bool, q: T -> bool, both: T -> bool)
    requires forall x | x in s :: both(x) <==> p(x) && q(x)
    ensures Select(Select(s, p), q) == Select(s, both)
  {
    if s != [] {
      SelectTwice(s[1..], p, q, both);
    }
  }

  /** `at` lists the positions of the elements that pass: all of them, each once, in order. */
  ghost predicate Picks<T(!new)>(s: seq<T>, p: T -> bool, at: seq<int>) {
    && (forall i :: i in at <==> 0 <= i < |s| && p(s[i]))
    && (forall j, k :: 0 <= j < k < |at| ==> at[j] < at[k])
  }

  /** The elements at some positions, in the order of the positions. */
  ghost predicate TakenAt<T(!new)>(s: seq<T>, at: seq<int>, r: seq<T>) {
    |r| == |at| && forall k :: 0 <= k < |at| ==> 0 <= at[k] < |s| && r[k] == s[at[k]]
  }

  lemma SelectLast<T(!new)>(s: seq<T>, p: T -> bool)
    requires s != []
    ensures var n := |s| - 1; Select(s, p) == Select(s[..n], p) + (if p(s[n]) then [s[n]] else [])
  {
    var n := |s| - 1;
    SelectAppend(s[..n], [s[n]], p);
    assert s[..n] + [s[n]] == s;
  }

  lemma PicksLast<T(!new)>(s: seq<T>, p: T -> bool, at: seq<int>)
    requires s != [] && Picks(s[..|s| - 1], p, at)
    ensures Picks(s, p, if p(s[|s| - 1]) then at + [|s| - 1] else at)
  {
    var n := |s| - 1;
    var next := if p(s[n]) then at + [n] else at;
    forall k | 0 <= k < |at| ensures at[k] < n { assert at[k] in at; }
    forall i ensures i in next <==> 0 <= i < |s| && p(s[i]) {
      assert i in at <==> 0 <= i < n && p(s[..n][i]);
    }
  }

  /** The filter returns the elements at those positions, in that order ... */
  lemma {:induction false} SelectPicks<T(!new)>(s: seq<T>, p: T -> bool) returns (at: seq<int>)
    ensures Picks(s, p, at) && TakenAt(s, at, Select(s, p))
    decreases |s|
  {
    if s == [] {
      at := [];
    } else {
      var n := |s| - 1;
      var front := SelectPicks(s[..n], p);
      PicksLast(s, p, front);
      TakenNext(s, p, front);
      at := if p(s[n]) then front + [n] else front;
    }
  }

  lemma PicksFront<T(!new)>(s: seq<T>, p: T -> bool, at: seq<int>)
    requires s != [] && Picks(s, p, at)
    ensures var n := |s| - 1;
            if p(s[n]) then at != [] && at[|at| - 1] == n && Picks(s[..n], p, at[..|at| - 1]) else Picks(s[..n], p, at)
  {
    var n := |s| - 1;
    forall k | 0 <= k < |at| ensures at[k] <= n { assert at[k] in at; }
    if p(s[n]) {
      assert n in at;
      var k :| 0 <= k < |at| && at[k] == n;
      assert at[|at| - 1] <= at[k];
      assert k == |at| - 1;
      var front := at[..k];
      forall i ensures i in front <==> 0 <= i < n && p(s[..n][i]) {
        if 0 <= i < n && p(s[i]) {
          assert i in at;
          var j :| 0 <= j < |at| && at[j] == i;
          assert front[j] == i;
        }
        if i in front {
          var j :| 0 <= j < k && front[j] == i;
          assert at[j] in at && at[j] < at[k];
        }
      }
    }
  }

  /** ... and no other list of positions will do. */
  lemma {:induction false} PicksUnique<T(!new)>(s: seq<T>, p: T -> bool, at: seq<int>)
    requires Picks(s, p, at)
    ensures TakenAt(s, at, Select(s, p))
    decreases |s|
  {
    if s == [] {
      NothingPicked(s, p, at);
    } else {
      var n := |s| - 1;
      var front := if p(s[n]) then at[..|at| - 1] else at;
      PicksFront(s, p, at);
      PicksUnique(s[..n], p, front);
      TakenNext(s, p, front);
      assert p(s[n]) ==> at == front + [n];
    }
  }

  lemma NothingPicked<T(!new)>(s: seq<T>, p: T -> bool, at: seq<int>)
    requires Picks(s, p, at)
    ensures s == [] ==> at == []
  {
    assert at != [] ==> at[0] in at;
  }

  lemma TakenNext<T(!new)>(s: seq<T>, p: T -> bool, front: seq<int>)
    requires s != [] && TakenAt(s[..|s| - 1], front, Select(s[..|s| - 1], p))
    ensures TakenAt(s, if p(s[|s| - 1]) then front + [|s| - 1] else front, Select(s, p))
  {
    SelectLast(s, p);
    TakenLast(s, |s| - 1, front, Select(s[..|s| - 1], p));
  }

  lemma TakenLast<T(!new)>(s: seq<T>, n: nat, at: seq<int>, r: seq<T>)
    requires n < |s| && TakenAt(s[..n], at, r)
    ensures TakenAt(s, at, r) && TakenAt(s, at + [n], r + [s[n]])
  {
  }

  /** `before` holds of every two elements in their order of appearance. */
  ghost predicate Ordered<T(!new)>(s: seq<T>, before: (T, T) -> bool) {
    forall i, j :: 0 <= i < j < |s| ==> before(s[i], s[j])
  }

  lemma {:induction false} SelectOrdered<T(!new)>(s: seq<T>, p: T -> bool, before: (T, T) -> bool)
    requires Ordered(s, before)
    ensures Ordered(Select(s, p), before)
  {
    if s != [] {
      var r, rest := Select(s, p), Select(s[1..], p);
      assert Ordered(s[1..], before);
      SelectOrdered(s[1..], p, before);
      SelectMembers(s[1..], p);
      if p(s[0]) {
        forall i, j | 0 <= i < j < |r| ensures before(r[i], r[j]) {
          assert r[j] == rest[j - 1] && rest[j - 1] in s[1..];
          var k :| 0 <= k < |s| - 1 && s[1..][k] == rest[j - 1];
          assert s[k + 1] == r[j];
          if i > 0 {
            assert r[i] == rest[i - 1];
            assert before(rest[i - 1], rest[j - 1]);
          }
        }
      }
    }
  }

  lemma SubsetCard<T>(a: set<T>, b: set<T>)
    requires a <= b
    ensures |a| <= |b|
  {
    assert b == a + (b - a);
  }
}
