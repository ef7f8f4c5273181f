/** The Python exceptions the parsers can raise, the outcome of a call that
    may raise one, and Python's insertion-ordered `dict`. */
module Py {
  import opened Text

  datatype Exc =
    | KeyError | IndexError | ValueError | TypeError | AttributeError
    | NameError | UnboundLocalError | AssertionError

  /** A call either returns a value or raises. */
  datatype Outcome<+T> = Return(value: T) | Throw(exc: Exc)

  /** A `dict`: its entries in insertion order, keys distinct. */
  type Dict<K, V> = seq<(K, V)>

  predicate DistinctKeys<K(==), V>(d: Dict<K, V>) {
    forall i, j :: 0 <= i < j < |d| ==> d[i].0 != d[j].0
  }

  function Keys<K(==), V>(d: Dict<K, V>): (ks: seq<K>)
    ensures |ks| == |d| && forall i :: 0 <= i < |d| ==> ks[i] == d[i].0
    decreases |d|
  {
    if d == [] then [] else [d[0].0] + Keys(d[1..])
  }

  /** `d.get(k)`. */
  function Get<K(==), V>(d: Dict<K, V>, k: K): (r: Option<V>)
    ensures r.None? <==> forall i :: 0 <= i < |d| ==> d[i].0 != k
    ensures r.Some? ==> exists i :: 0 <= i < |d| && d[i] == (k, r.value)
    decreases |d|
  {
    if d == [] then None
    else if d[0].0 == k then Some(d[0].1)
    else
      var r := Get(d[1..], k);
      assert r.Some? ==> exists i :: 0 <= i < |d[1..]| && d[1..][i] == (k, r.value);
      r
  }

  /** `d[k] = v`: an existing key keeps its place, a new one goes last. */
  function Put<K(==), V>(d: Dict<K, V>, k: K, v: V): (r: Dict<K, V>)
    ensures |r| == |d| || |r| == |d| + 1
    decreases |d|
  {
    if d == [] then [(k, v)]
    else if d[0].0 == k then [(k, v)] + d[1..]
    else [d[0]] + Put(d[1..], k, v)
  }

  /** After `d[k] = v`, `d[k]` is `v` and every other key keeps its value. */
  lemma {:induction false} PutGet<K, V>(d: Dict<K, V>, k: K, v: V, k2: K)
    ensures Get(Put(d, k, v), k2) == if k2 == k then Some(v) else Get(d, k2)
    decreases |d|
  {
    if d != [] && d[0].0 != k {
      PutGet(d[1..], k, v, k2);
      assert Put(d, k, v)[1..] == Put(d[1..], k, v);
    }
  }

  /** Storing keeps the key order of first insertion and appends a new key. */
  lemma {:induction false} PutKeys<K, V>(d: Dict<K, V>, k: K, v: V)
    ensures Keys(Put(d, k, v)) == if k in Keys(d) then Keys(d) else Keys(d) + [k]
    decreases |d|
  {
    if d != [] {
      var r := Put(d, k, v);
      if d[0].0 != k {
        PutKeys(d[1..], k, v);
        assert r[1..] == Put(d[1..], k, v);
        assert k in Keys(d) <==> k in Keys(d[1..]);
      } else {
        assert r[1..] == d[1..];
      }
    }
  }

  /** Storing keeps the keys distinct. */
  lemma PutDistinct<K, V>(d: Dict<K, V>, k: K, v: V)
    requires DistinctKeys(d)
    ensures DistinctKeys(Put(d, k, v))
  {
    PutKeys(d, k, v);
    var r := Put(d, k, v);
    assert Keys(r) == if k in Keys(d) then Keys(d) else Keys(d) + [k];
    forall i, j | 0 <= i < j < |r| ensures r[i].0 != r[j].0 {
      assert r[i].0 == Keys(r)[i] && r[j].0 == Keys(r)[j];
      if k !in Keys(d) && j == |d| {
        assert Keys(d)[i] == d[i].0;
      } else {
        assert Keys(r)[i] == d[i].0 && Keys(r)[j] == d[j].0;
      }
    }
  }

  /** What a loop that has already produced `done` ends with, once the
      rest of its input gives `rest`: the first exception wins. */
  function Prefixed<T>(done: seq<T>, rest: Outcome<seq<T>>): (r: Outcome<seq<T>>)
    ensures rest.Throw? ==> r == Throw(rest.exc)
    ensures rest.Return? ==> r.Return? && |r.value| == |done| + |rest.value| && r.value[..|done|] == done && r.value[|done|..] == rest.value
  {
    match rest
    case Throw(e) => Throw(e)
    case Return(xs) => Return(done + xs)
  }

  lemma PrefixedNothing<T>(r: Outcome<seq<T>>)
    ensures Prefixed([], r) == r
  {
    if r.Return? {
      assert [] + r.value == r.value;
    }
  }

  lemma PrefixedStep<T>(done: seq<T>, x: T, rest: Outcome<seq<T>>)
    ensures Prefixed(done, Prefixed([x], rest)) == Prefixed(done + [x], rest)
  {
    if rest.Return? {
      assert done + ([x] + rest.value) == done + [x] + rest.value;
    }
  }

  /** A loop that turns each element of `xs` into a value with `f`; the
      first exception ends it. */
  function Traverse<A, B>(xs: seq<A>, f: A -> Outcome<B>): (r: Outcome<seq<B>>)
    ensures r.Return? ==> |r.value| == |xs|
    ensures r.Return? ==> forall k :: 0 <= k < |xs| ==> f(xs[k]) == Return(r.value[k])
    decreases |xs|
  {
    if xs == [] then Return([])
    else match f(xs[0])
      case Throw(e) => Throw(e)
      case Return(x) => Prefixed([x], Traverse(xs[1..], f))
  }

  /** The loop raises exactly when one of the elements does. */
  lemma {:induction false} TraverseFails<A, B>(xs: seq<A>, f: A -> Outcome<B>)
    ensures Traverse(xs, f).Throw? <==> exists k :: 0 <= k < |xs| && f(xs[k]).Throw?
    decreases |xs|
  {
    if xs != [] {
      TraverseFails(xs[1..], f);
      if f(xs[0]).Return? {
        if exists k :: 0 <= k < |xs| && f(xs[k]).Throw? {
          var k :| 0 <= k < |xs| && f(xs[k]).Throw?;
          assert xs[1..][k - 1] == xs[k];
        }
        if Traverse(xs[1..], f).Throw? {
          var k :| 0 <= k < |xs[1..]| && f(xs[1..][k]).Throw?;
          assert xs[1..][k] == xs[k + 1];
        }
      }
    }
  }

  /** The exception the loop raises is that of the first element that raises. */
  lemma {:induction false} TraverseFirstError<A, B>(xs: seq<A>, f: A -> Outcome<B>)
    requires Traverse(xs, f).Throw?
    ensures exists k :: 0 <= k < |xs| && f(xs[k]) == Throw(Traverse(xs, f).exc) &&
                        (forall j :: 0 <= j < k ==> f(xs[j]).Return?)
    decreases |xs|
  {
    var e := Traverse(xs, f).exc;
    if f(xs[0]).Return? {
      var tail := xs[1..];
      assert Traverse(tail, f) == Throw(e);
      TraverseFirstError(tail, f);
      var k :| 0 <= k < |tail| && f(tail[k]) == Throw(e) && forall j :: 0 <= j < k ==> f(tail[j]).Return?;
      assert forall j :: 0 <= j < |tail| ==> tail[j] == xs[j + 1];
      assert f(xs[k + 1]) == Throw(e);
    }
  }

  /** `month, day = (int(x) for x in date.split("-"))`. */
  function DateParts(date: string): (r: Outcome<(int, int)>)
    ensures r.Throw? ==> r.exc == ValueError
    ensures r.Return? <==> |Split(date, '-')| == 2 && ParseInt(Split(date, '-')[0]).Some? && ParseInt(Split(date, '-')[1]).Some?
  {
    var parts := Split(date, '-');
    if |parts| != 2 then Throw(ValueError)
    else match (ParseInt(parts[0]), ParseInt(parts[1]))
      case (Some(m), Some(d)) => Return((m, d))
      case _ => Throw(ValueError)
  }
}
