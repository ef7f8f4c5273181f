/** `Version1960.resolve`: competing objects for one day are merged. For
    martyrologies the longest entry absorbs the others' lines; for feasts
    the call fails; any other kind resolves to nothing. */
module Version1960 {
  import M = Martyrology
  import C = Calendar
  import Sorting

  /** An object handed to `resolve`. */
  datatype Entry = MartyrologyEntry(m: M.Martyrology) | FeastEntry(f: C.Ranked) | OtherEntry(typeName: string)

  datatype Kind = MartyrologyKind | FeastKind | OtherKind(name: string)

  function KindOf(e: Entry): Kind {
    match e
    case MartyrologyEntry(_) => MartyrologyKind
    case FeastEntry(_) => FeastKind
    case OtherEntry(t) => OtherKind(t)
  }

  /** `isinstance(x, type(y))` for every earlier `x` and later `y`. */
  predicate SameKind(objs: seq<Entry>) {
    forall i, j :: 0 <= i < j < |objs| ==> KindOf(objs[i]) == KindOf(objs[j])
  }

  datatype ResolveError = CalendarError | IndexError | KeyError | NameError

  datatype Resolution = Merged(base: M.Martyrology) | NoResult | Failed(error: ResolveError)

  predicate AllMartyrologies(objs: seq<Entry>) {
    forall k :: 0 <= k < |objs| ==> objs[k].MartyrologyEntry?
  }

  /** No martyrology object is passed twice. */
  predicate DistinctObjects(objs: seq<Entry>) {
    forall i, j :: 0 <= i < j < |objs| && objs[i].MartyrologyEntry? && objs[j].MartyrologyEntry? ==> objs[i].m != objs[j].m
  }

  function Objects(objs: seq<Entry>): set<M.Martyrology> {
    set k | 0 <= k < |objs| && objs[k].MartyrologyEntry? :: objs[k].m
  }

  /** The lines of each martyrology. */
  function PartsOf(objs: seq<Entry>): (ps: seq<seq<M.Line>>)
    requires AllMartyrologies(objs)
    reads Objects(objs)
    ensures |ps| == |objs| && forall k :: 0 <= k < |objs| ==> ps[k] == objs[k].m.parts
  {
    seq(|objs|, k requires 0 <= k < |objs| reads Objects(objs) => objs[k].m.parts)
  }

  /** The length of each entry, as sort keys. */
  function Lengths(ps: seq<seq<M.Line>>): (keys: seq<real>)
    ensures |keys| == |ps| && forall k :: 0 <= k < |ps| ==> keys[k] == M.TotalLength(ps[k]) as real
  {
    seq(|ps|, k requires 0 <= k < |ps| => M.TotalLength(ps[k]) as real)
  }

  /** `max(objs)`: the first entry of greatest length. */
  function BaseIndex(ps: seq<seq<M.Line>>): (b: nat)
    requires |ps| > 0
    ensures b < |ps|
    ensures forall k :: 0 <= k < |ps| ==> M.TotalLength(ps[k]) <= M.TotalLength(ps[b])
    ensures forall k :: 0 <= k < b ==> M.TotalLength(ps[k]) < M.TotalLength(ps[b])
  {
    Sorting.FirstMax(Lengths(ps))
  }

  /** The positions `0..n` without `b`, in order: the list after `objs.remove(base)`. */
  function Others(n: nat, b: nat): (xs: seq<nat>)
    requires b < n
    ensures |xs| == n - 1
    ensures forall k :: 0 <= k < |xs| ==> xs[k] == if k < b then k else k + 1
    ensures Sorting.Increasing(xs)
  {
    seq(n - 1, k requires 0 <= k < n - 1 => if k < b then k else k + 1)
  }

  /** `sorted(objs, reverse=True)`: the remaining entries, longest first,
      equal lengths in their original order. */
  function VisitOrder(ps: seq<seq<M.Line>>): (order: seq<nat>)
    requires |ps| > 0
    ensures Sorting.InRange(Lengths(ps), order)
  {
    Sorting.SortDesc(Lengths(ps), Others(|ps|, BaseIndex(ps)))
  }

  /** The base's lines after visiting `order`: each visited entry's lines
      are put in front of what the base holds. */
  function PrependAll(ps: seq<seq<M.Line>>, order: seq<nat>, base: seq<M.Line>): seq<M.Line>
    requires forall k :: 0 <= k < |order| ==> order[k] < |ps|
    decreases |order|
  {
    if order == [] then base
    else ps[order[|order| - 1]] + PrependAll(ps, order[..|order| - 1], base)
  }

  /** The base's lines once `resolve` is done. */
  function MergedParts(ps: seq<seq<M.Line>>): seq<M.Line>
    requires |ps| > 0
  {
    PrependAll(ps, VisitOrder(ps), ps[BaseIndex(ps)])
  }

  /** The feast branch: comparing ranks raises KeyError as soon as an
      unknown rank is weighed, and otherwise line 43 raises NameError. A
      single feast is never compared. */
  function FeastFailure(objs: seq<Entry>): ResolveError
    requires forall k :: 0 <= k < |objs| ==> objs[k].FeastEntry?
  {
    if |objs| >= 2 && exists k :: 0 <= k < |objs| && C.RankValue(objs[k].f).Throw? then KeyError
    else NameError
  }

  method Resolve(objs: seq<Entry>) returns (r: Resolution)
    requires DistinctObjects(objs)
    modifies Objects(objs)
    ensures !SameKind(objs) ==> r == Failed(CalendarError)
    ensures SameKind(objs) && objs == [] ==> r == Failed(IndexError)
    ensures SameKind(objs) && objs != [] && objs[0].OtherEntry? ==> r == NoResult
    ensures SameKind(objs) && objs != [] && objs[0].FeastEntry? ==>
      (forall k :: 0 <= k < |objs| ==> objs[k].FeastEntry?) && r == Failed(FeastFailure(objs))
    ensures SameKind(objs) && objs != [] && objs[0].MartyrologyEntry? ==>
      AllMartyrologies(objs) &&
      var ps := old(PartsOf(objs));
      var b := BaseIndex(ps);
      r == Merged(objs[b].m) && objs[b].m.parts == MergedParts(ps) &&
      forall k :: 0 <= k < |objs| && k != b ==> objs[k].m.parts == ps[k]
    ensures !(SameKind(objs) && objs != [] && objs[0].MartyrologyEntry?) ==>
      forall o :: o in Objects(objs) ==> o.parts == old(o.parts)
  {
    if !SameKind(objs) {
      return Failed(CalendarError);
    }
    if objs == [] {
      return Failed(IndexError);
    }
    assert forall k :: 0 <= k < |objs| ==> KindOf(objs[k]) == KindOf(objs[0]);
    match objs[0]
    case OtherEntry(_) =>
      return NoResult;
    case FeastEntry(_) =>
      return Failed(FeastFailure(objs));
    case MartyrologyEntry(_) =>
      var ms := Martyrologies(objs);
      assert Parts(ms) == PartsOf(objs);
      var base := Merge(ms);
      r := Merged(base);
  }

  /** The martyrology objects of `objs`, in order. */
  function Martyrologies(objs: seq<Entry>): (ms: seq<M.Martyrology>)
    requires AllMartyrologies(objs)
    ensures |ms| == |objs| && forall k :: 0 <= k < |objs| ==> ms[k] == objs[k].m
  {
    seq(|objs|, k requires 0 <= k < |objs| && objs[k].MartyrologyEntry? => objs[k].m)
  }

  /** The lines held by each of `ms`. */
  function Parts(ms: seq<M.Martyrology>): (ps: seq<seq<M.Line>>)
    reads ms
    ensures |ps| == |ms| && forall k :: 0 <= k < |ms| ==> ps[k] == ms[k].parts
  {
    seq(|ms|, k requires 0 <= k < |ms| reads ms => ms[k].parts)
  }

  /** The martyrology branch: the longest entry is the base, and every
      other entry, longest first, puts its lines in front of the base's. */
  method Merge(ms: seq<M.Martyrology>) returns (base: M.Martyrology)
    requires ms != []
    requires forall i, j :: 0 <= i < j < |ms| ==> ms[i] != ms[j]
    modifies ms
    ensures var ps := old(Parts(ms));
      var b := BaseIndex(ps);
      base == ms[b] && base.parts == MergedParts(ps) &&
      forall k :: 0 <= k < |ms| && k != b ==> ms[k].parts == ps[k]
  {
    var ps := Parts(ms);
    var b := BaseIndex(ps);
    base := ms[b];
    var order := VisitOrder(ps);
    OrderSkipsBase(ps, order);
    assert forall k :: 0 <= k < |ms| && k != b ==> ms[k] != base;
    PrependEach(ms, b, order);
  }

  /** The loop of the martyrology branch: each visited entry's lines are
      put in front of the base's; only the base changes. */
  method PrependEach(ms: seq<M.Martyrology>, b: nat, order: seq<nat>)
    requires b < |ms|
    requires forall k :: 0 <= k < |order| ==> order[k] < |ms| && order[k] != b
    requires forall k :: 0 <= k < |ms| && k != b ==> ms[k] != ms[b]
    modifies ms[b]
    ensures ms[b].parts == PrependAll(old(Parts(ms)), order, old(ms[b].parts))
  {
    var ps := Parts(ms);
    var base := ms[b];
    var i := 0;
    while i < |order|
      invariant 0 <= i <= |order|
      invariant base.parts == PrependAll(ps, order[..i], ps[b])
    {
      var o := ms[order[i]];
      assert o.parts == ps[order[i]];
      assert order[..i + 1][..i] == order[..i];
      base.parts := o.parts + base.parts;
      i := i + 1;
    }
    assert order[..|order|] == order;
  }

  /** The visited positions are the positions other than the base's, each once. */
  lemma OrderSkipsBase(ps: seq<seq<M.Line>>, order: seq<nat>)
    requires |ps| > 0 && order == VisitOrder(ps)
    ensures multiset(order) == multiset(Others(|ps|, BaseIndex(ps)))
    ensures forall k :: 0 <= k < |order| ==> order[k] < |ps| && order[k] != BaseIndex(ps)
  {
    var rest := Others(|ps|, BaseIndex(ps));
    forall k | 0 <= k < |order| ensures order[k] < |ps| && order[k] != BaseIndex(ps) {
      assert order[k] in multiset(rest);
    }
  }

  /** The visiting order is what a stable descending sort gives: longest
      first, ties in their original order, every other entry once. */
  lemma VisitOrderSorted(ps: seq<seq<M.Line>>)
    requires |ps| > 0
    ensures Sorting.Ordered(Lengths(ps), VisitOrder(ps))
    ensures multiset(VisitOrder(ps)) == multiset(Others(|ps|, BaseIndex(ps)))
  {
    Sorting.SortOrdered(Lengths(ps), Others(|ps|, BaseIndex(ps)));
  }

  /** The first visited entry ends up directly in front of the base. */
  lemma {:induction false} PrependAllFront(ps: seq<seq<M.Line>>, order: seq<nat>, base: seq<M.Line>)
    requires order != [] && forall k :: 0 <= k < |order| ==> order[k] < |ps|
    ensures PrependAll(ps, order, base) == PrependAll(ps, order[1..], ps[order[0]] + base)
    decreases |order|
  {
    if |order| > 1 {
      var init := order[..|order| - 1];
      PrependAllFront(ps, init, base);
      assert init[1..] == order[1..][..|order[1..]| - 1];
    }
  }

  /** Whatever is visited, the base's own lines stay at the end. */
  lemma {:induction false} PrependAllEndsWith(ps: seq<seq<M.Line>>, order: seq<nat>, base: seq<M.Line>)
    requires forall k :: 0 <= k < |order| ==> order[k] < |ps|
    ensures var r := PrependAll(ps, order, base); |r| >= |base| && r[|r| - |base|..] == base
    decreases |order|
  {
    if order != [] {
      PrependAllEndsWith(ps, order[..|order| - 1], base);
    }
  }

  /** The first visited entry is the longest of the others, and the first
      of them when several are equally long. */
  lemma LongestVisitedFirst(ps: seq<seq<M.Line>>)
    requires |ps| >= 2
    ensures var order := VisitOrder(ps); var b := BaseIndex(ps);
      order != [] && order[0] < |ps| && order[0] != b &&
      (forall k :: 0 <= k < |ps| && k != b ==> M.TotalLength(ps[k]) <= M.TotalLength(ps[order[0]])) &&
      (forall k :: 0 <= k < order[0] && k != b ==> M.TotalLength(ps[k]) < M.TotalLength(ps[order[0]]))
  {
    var order := VisitOrder(ps);
    var b := BaseIndex(ps);
    var keys := Lengths(ps);
    var rest := Others(|ps|, b);
    OrderSkipsBase(ps, order);
    assert rest[0] in multiset(order);
    VisitOrderSorted(ps);
    forall k | 0 <= k < |ps| && k != b
      ensures M.TotalLength(ps[k]) <= M.TotalLength(ps[order[0]])
      ensures k < order[0] ==> M.TotalLength(ps[k]) < M.TotalLength(ps[order[0]])
    {
      var j := if k < b then k else k - 1;
      assert rest[j] == k;
      Sorting.HeadFirst(keys, order, k);
    }
  }

  /** After a merge the base ends with its own lines, preceded by the
      lines of the first visited entry. */
  lemma MergedShape(ps: seq<seq<M.Line>>)
    requires |ps| > 0
    ensures var r := MergedParts(ps); var base := ps[BaseIndex(ps)];
      |r| >= |base| && r[|r| - |base|..] == base
    ensures |ps| >= 2 ==>
      var order := VisitOrder(ps);
      order != [] && order[0] < |ps| &&
      var r := MergedParts(ps); var tail := ps[order[0]] + ps[BaseIndex(ps)];
      |r| >= |tail| && r[|r| - |tail|..] == tail
  {
    var order := VisitOrder(ps);
    var b := BaseIndex(ps);
    OrderSkipsBase(ps, order);
    PrependAllEndsWith(ps, order, ps[b]);
    if |ps| >= 2 {
      assert Others(|ps|, b)[0] in multiset(order);
      PrependAllFront(ps, order, ps[b]);
      PrependAllEndsWith(ps, order[1..], ps[order[0]] + ps[b]);
    }
  }

  /** The length of entry `x`, or 0 past the end. */
  function LengthAt(ps: seq<seq<M.Line>>, x: nat): nat {
    if x < |ps| then M.TotalLength(ps[x]) else 0
  }

  /** The total length of the entries at the positions `xs`. */
  function SumLengths(ps: seq<seq<M.Line>>, xs: seq<nat>): nat
    decreases |xs|
  {
    if xs == [] then 0 else SumLengths(ps, xs[..|xs| - 1]) + LengthAt(ps, xs[|xs| - 1])
  }

  lemma {:induction false} SumLengthsAppend(ps: seq<seq<M.Line>>, xs: seq<nat>, ys: seq<nat>)
    ensures SumLengths(ps, xs + ys) == SumLengths(ps, xs) + SumLengths(ps, ys)
    decreases |ys|
  {
    if ys == [] {
      assert xs + ys == xs;
    } else {
      var init := ys[..|ys| - 1];
      SumLengthsAppend(ps, xs, init);
      assert (xs + ys)[..|xs + ys| - 1] == xs + init;
    }
  }

  /** The total does not depend on the order of the positions. */
  lemma {:induction false} SumLengthsPermutation(ps: seq<seq<M.Line>>, xs: seq<nat>, ys: seq<nat>)
    requires multiset(xs) == multiset(ys)
    ensures SumLengths(ps, xs) == SumLengths(ps, ys)
    decreases |xs|
  {
    if xs != [] {
      var x := xs[|xs| - 1];
      var init := xs[..|xs| - 1];
      assert xs == init + [x];
      assert x in multiset(ys);
      var j :| 0 <= j < |ys| && ys[j] == x;
      RemoveAt(ys, j);
      assert multiset(xs) == multiset(init) + multiset{x};
      SumLengthsPermutation(ps, init, ys[..j] + ys[j + 1..]);
      SumLengthsAround(ps, ys, j);
    }
  }

  /** Taking one position out of the middle takes out its length. */
  lemma SumLengthsAround(ps: seq<seq<M.Line>>, ys: seq<nat>, j: nat)
    requires j < |ys|
    ensures SumLengths(ps, ys) == SumLengths(ps, ys[..j] + ys[j + 1..]) + LengthAt(ps, ys[j])
  {
    var left, right := ys[..j], ys[j + 1..];
    assert ys == left + [ys[j]] + right;
    SumLengthsAppend(ps, left, right);
    SumLengthsAppend(ps, left + [ys[j]], right);
    SumLengthsAppend(ps, left, [ys[j]]);
    assert SumLengths(ps, [ys[j]]) == LengthAt(ps, ys[j]);
  }

  lemma RemoveAt(ys: seq<nat>, j: nat)
    requires j < |ys|
    ensures multiset(ys[..j] + ys[j + 1..]) == multiset(ys) - multiset{ys[j]}
  {
    assert ys == ys[..j] + [ys[j]] + ys[j + 1..];
  }

  lemma {:induction false} PrependAllLength(ps: seq<seq<M.Line>>, order: seq<nat>, base: seq<M.Line>)
    requires forall k :: 0 <= k < |order| ==> order[k] < |ps|
    ensures M.TotalLength(PrependAll(ps, order, base)) == SumLengths(ps, order) + M.TotalLength(base)
    decreases |order|
  {
    if order != [] {
      var init := order[..|order| - 1];
      PrependAllLength(ps, init, base);
      M.TotalLengthAppend(ps[order[|order| - 1]], PrependAll(ps, init, base));
    }
  }

  /** Leaving out position `b` leaves out exactly the length of entry `b`. */
  lemma OthersSum(ps: seq<seq<M.Line>>, b: nat)
    requires b < |ps|
    ensures SumLengths(ps, Others(|ps|, b)) + M.TotalLength(ps[b]) == SumLengths(ps, Sorting.Positions(|ps|))
  {
    var all := Sorting.Positions(|ps|);
    assert Others(|ps|, b) == all[..b] + all[b + 1..];
    SumLengthsAround(ps, all, b);
  }

  /** No text is lost or duplicated: the merged martyrology is exactly as
      long as all the entries together. */
  lemma MergedLength(ps: seq<seq<M.Line>>)
    requires |ps| > 0
    ensures M.TotalLength(MergedParts(ps)) == SumLengths(ps, Sorting.Positions(|ps|))
  {
    var b := BaseIndex(ps);
    var order := VisitOrder(ps);
    OrderSkipsBase(ps, order);
    PrependAllLength(ps, order, ps[b]);
    SumLengthsPermutation(ps, order, Others(|ps|, b));
    OthersSum(ps, b);
  }
}
