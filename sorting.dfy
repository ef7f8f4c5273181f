/** Python's `max` and stable `sorted(..., reverse=True)`, over positions
    of a list whose elements are weighed by `keys`. */
module Sorting {

  /** Position `i` comes before position `j` in a stable descending order:
      a heavier key first, and equal keys in their original order. */
  predicate Precedes(keys: seq<real>, i: nat, j: nat)
    requires i < |keys| && j < |keys|
  {
    keys[i] > keys[j] || (keys[i] == keys[j] && i < j)
  }

  predicate InRange(keys: seq<real>, xs: seq<nat>) {
    forall k :: 0 <= k < |xs| ==> xs[k] < |keys|
  }

  /** `xs` lists positions in stable descending order. */
  predicate Ordered(keys: seq<real>, xs: seq<nat>)
    requires InRange(keys, xs)
  {
    forall a, b :: 0 <= a < b < |xs| ==> Precedes(keys, xs[a], xs[b])
  }

  predicate Increasing(xs: seq<nat>) {
    forall a, b :: 0 <= a < b < |xs| ==> xs[a] < xs[b]
  }

  /** Insert `x`, which comes earlier in the input than every element of
      `ys`, in front of the first element it does not weigh less than. */
  function Insert(keys: seq<real>, x: nat, ys: seq<nat>): (r: seq<nat>)
    requires x < |keys| && InRange(keys, ys)
    ensures multiset(r) == multiset(ys) + multiset{x}
    ensures InRange(keys, r)
    decreases |ys|
  {
    if ys == [] || keys[x] >= keys[ys[0]] then [x] + ys
    else
      var r := [ys[0]] + Insert(keys, x, ys[1..]);
      assert ys == [ys[0]] + ys[1..];
      assert forall k :: 0 <= k < |r| ==> r[k] in multiset(r);
      r
  }

  /** Insertion sort of the positions `xs`. */
  function SortDesc(keys: seq<real>, xs: seq<nat>): (r: seq<nat>)
    requires InRange(keys, xs)
    ensures multiset(r) == multiset(xs)
    ensures InRange(keys, r)
    decreases |xs|
  {
    if xs == [] then []
    else
      assert xs == [xs[0]] + xs[1..];
      Insert(keys, xs[0], SortDesc(keys, xs[1..]))
  }

  lemma {:induction false} InsertOrdered(keys: seq<real>, x: nat, ys: seq<nat>)
    requires x < |keys| && InRange(keys, ys) && Ordered(keys, ys)
    requires forall k :: 0 <= k < |ys| ==> x < ys[k]
    ensures Ordered(keys, Insert(keys, x, ys))
    decreases |ys|
  {
    if ys == [] || keys[x] >= keys[ys[0]] {
      forall b | 0 <= b < |ys| ensures Precedes(keys, x, ys[b]) {
        if b > 0 {
          assert Precedes(keys, ys[0], ys[b]);
        }
      }
      ConsOrdered(keys, x, ys);
    } else {
      var tail := Insert(keys, x, ys[1..]);
      InsertOrdered(keys, x, ys[1..]);
      forall b | 0 <= b < |tail| ensures Precedes(keys, ys[0], tail[b]) {
        assert tail[b] in multiset(ys[1..]) + multiset{x};
        if tail[b] != x {
          assert tail[b] in ys[1..];
          var c :| 0 <= c < |ys[1..]| && ys[1..][c] == tail[b];
          assert Precedes(keys, ys[0], ys[c + 1]);
        }
      }
      ConsOrdered(keys, ys[0], tail);
    }
  }

  /** A position that comes before every element of an ordered arrangement
      can go in front of it. */
  lemma ConsOrdered(keys: seq<real>, y: nat, tail: seq<nat>)
    requires y < |keys| && InRange(keys, tail) && Ordered(keys, tail)
    requires forall b :: 0 <= b < |tail| ==> Precedes(keys, y, tail[b])
    ensures InRange(keys, [y] + tail) && Ordered(keys, [y] + tail)
  {
    var r := [y] + tail;
    forall a, b | 0 <= a < b < |r| ensures Precedes(keys, r[a], r[b]) {
      if a == 0 {
        assert r[b] == tail[b - 1];
      } else {
        assert r[a] == tail[a - 1] && r[b] == tail[b - 1];
      }
    }
  }

  /** Sorting increasing positions gives the stable descending order. */
  lemma {:induction false} SortOrdered(keys: seq<real>, xs: seq<nat>)
    requires InRange(keys, xs) && Increasing(xs)
    ensures Ordered(keys, SortDesc(keys, xs))
    decreases |xs|
  {
    if xs != [] {
      SortOrdered(keys, xs[1..]);
      var rest := SortDesc(keys, xs[1..]);
      forall k | 0 <= k < |rest| ensures xs[0] < rest[k] {
        assert rest[k] in multiset(xs[1..]);
        var c :| 0 <= c < |xs[1..]| && xs[1..][c] == rest[k];
        assert xs[0] < xs[c + 1];
      }
      InsertOrdered(keys, xs[0], rest);
    }
  }

  /** The stable descending order is unique: two ordered arrangements of
      the same positions are equal. */
  lemma {:induction false} OrderedUnique(keys: seq<real>, xs: seq<nat>, ys: seq<nat>)
    requires InRange(keys, xs) && InRange(keys, ys)
    requires Ordered(keys, xs) && Ordered(keys, ys) && multiset(xs) == multiset(ys)
    ensures xs == ys
    decreases |xs|
  {
    assert |xs| == |multiset(xs)| == |ys|;
    if xs != [] {
      HeadsAgree(keys, xs, ys);
      TailsAgree(xs, ys);
      assert Ordered(keys, xs[1..]) by {
        forall a, b | 0 <= a < b < |xs| - 1 ensures Precedes(keys, xs[1..][a], xs[1..][b]) {
          assert xs[1..][a] == xs[a + 1] && xs[1..][b] == xs[b + 1];
        }
      }
      assert Ordered(keys, ys[1..]) by {
        forall a, b | 0 <= a < b < |ys| - 1 ensures Precedes(keys, ys[1..][a], ys[1..][b]) {
          assert ys[1..][a] == ys[a + 1] && ys[1..][b] == ys[b + 1];
        }
      }
      OrderedUnique(keys, xs[1..], ys[1..]);
      assert xs == [xs[0]] + xs[1..] && ys == [ys[0]] + ys[1..];
    }
  }

  lemma HeadsAgree(keys: seq<real>, xs: seq<nat>, ys: seq<nat>)
    requires InRange(keys, xs) && InRange(keys, ys) && xs != [] && ys != []
    requires Ordered(keys, xs) && Ordered(keys, ys) && multiset(xs) == multiset(ys)
    ensures xs[0] == ys[0]
  {
    HeadFirst(keys, xs, ys[0]);
    HeadFirst(keys, ys, xs[0]);
  }

  /** The head of an ordered arrangement comes before each other element. */
  lemma HeadFirst(keys: seq<real>, xs: seq<nat>, y: nat)
    requires InRange(keys, xs) && Ordered(keys, xs) && y in multiset(xs)
    ensures y == xs[0] || Precedes(keys, xs[0], y)
  {
    if y != xs[0] {
      var j :| 0 <= j < |xs| && xs[j] == y;
      assert Precedes(keys, xs[0], xs[j]);
    }
  }

  lemma TailsAgree(xs: seq<nat>, ys: seq<nat>)
    requires xs != [] && ys != [] && xs[0] == ys[0] && multiset(xs) == multiset(ys)
    ensures multiset(xs[1..]) == multiset(ys[1..])
  {
    assert xs == [xs[0]] + xs[1..] && ys == [ys[0]] + ys[1..];
    assert multiset(xs[1..]) == multiset(xs) - multiset{xs[0]};
    assert multiset(ys[1..]) == multiset(ys) - multiset{ys[0]};
  }

  /** `max`: the first position whose key no other key exceeds, scanning
      from `i` with the best so far at `m`. */
  function MaxFrom(keys: seq<real>, i: nat, m: nat): (r: nat)
    requires m < i <= |keys|
    requires forall k :: 0 <= k < i ==> keys[k] <= keys[m]
    requires forall k :: 0 <= k < m ==> keys[k] < keys[m]
    ensures r < |keys|
    ensures forall k :: 0 <= k < |keys| ==> keys[k] <= keys[r]
    ensures forall k :: 0 <= k < r ==> keys[k] < keys[r]
    decreases |keys| - i
  {
    if i == |keys| then m
    else MaxFrom(keys, i + 1, if keys[i] > keys[m] then i else m)
  }

  /** Python's `max` keeps the first of several maximal elements. */
  function FirstMax(keys: seq<real>): (r: nat)
    requires |keys| > 0
    ensures r < |keys|
    ensures forall k :: 0 <= k < |keys| ==> keys[k] <= keys[r]
    ensures forall k :: 0 <= k < r ==> keys[k] < keys[r]
  {
    MaxFrom(keys, 1, 0)
  }

  /** The positions `0..n` of a list of length `n`. */
  function Positions(n: nat): (xs: seq<nat>)
    ensures |xs| == n && forall k :: 0 <= k < n ==> xs[k] == k
    ensures Increasing(xs)
  {
    seq(n, k requires 0 <= k < n => k)
  }
}
