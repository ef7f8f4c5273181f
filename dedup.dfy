/** `dedup(things)`: parsed objects gathered by kind, with exact repeats
    dropped and objects that differ only in their `versions` merged into
    the first one kept. */
module Dedup {
  import opened Text
  import opened Py

  /** The `versions` attribute of an object: absent from its schema,
      `None`, or a list of version names. */
  datatype Versions = NoField | NoneValue | Listed(names: seq<string>)

  /** A parsed object: its type's name, the values of its other fields,
      and its versions. */
  datatype Obj = Obj(typeName: string, fields: seq<string>, versions: Versions)

  /** An element of `things`: an object, or a list of objects. */
  datatype Thing = Single(obj: Obj) | Many(objs: seq<Obj>)

  /** `english_names`: the kind each type is filed under. */
  const EnglishNames: Dict<string, string> :=
    [("MartyrologyCreate", "Martyrologies"), ("PrayerCreate", "Prayers"), ("AntiphonCreate", "Antiphons")]

  /** `{v: [] for _, v in english_names.items()}`. */
  const NoneKept: Dict<string, seq<Obj>> := [("Martyrologies", []), ("Prayers", []), ("Antiphons", [])]

  /** `==` on pydantic models compares their fields' values, not their types. */
  predicate Same(a: Obj, b: Obj) {
    a.fields == b.fields && a.versions == b.versions
  }

  /** `obj in objs`. */
  predicate Holds(objs: seq<Obj>, obj: Obj) {
    exists k :: 0 <= k < |objs| && Same(objs[k], obj)
  }

  /** The working state: `deduped`, `unversioned` (the remembered objects
      with their versions set to `None`, by outer index), `indexes` (where
      each of them is kept) and the variable `unversion`, which keeps its
      last value from one object to the next. */
  datatype State = State(deduped: Dict<string, seq<Obj>>, unversioned: Dict<int, Obj>,
                         indexes: Dict<int, nat>, unversion: Option<Obj>)

  const Init: State := State(NoneKept, [], [], None)

  /** `list(set(names))`, each name once; the order is this model's choice. */
  function Unique(names: seq<string>): (r: seq<string>)
    ensures forall x :: x in r <==> x in names
    ensures forall i, j :: 0 <= i < j < |r| ==> r[i] != r[j]
    decreases |names|
  {
    if names == [] then []
    else
      var r := Unique(names[..|names| - 1]);
      var last := names[|names| - 1];
      assert forall x :: x in names <==> x in names[..|names| - 1] || x == last;
      if last in r then r else r + [last]
  }

  /** The place of the first remembered object from `k` on that equals `u`. */
  function FirstSame(items: Dict<int, Obj>, u: Obj, k: nat): (r: Option<nat>)
    ensures r.Some? ==> k <= r.value < |items| && Same(items[r.value].1, u)
    ensures r.Some? ==> forall m :: k <= m < r.value ==> !Same(items[m].1, u)
    ensures r.None? ==> forall m :: k <= m < |items| ==> !Same(items[m].1, u)
    decreases |items| - k
  {
    if k >= |items| then None
    else if Same(items[k].1, u) then Some(k)
    else FirstSame(items, u, k + 1)
  }

  /** The `if not appended` branch: keep `obj`, and remember `unversion`
      and where `obj` went under the outer index. */
  function Append(st: State, index: int, obj: Obj, kind: string, kept: seq<Obj>): Outcome<State> {
    match st.unversion
    case None => Throw(UnboundLocalError)
    case Some(u) =>
      Return(State(Put(st.deduped, kind, kept + [obj]), Put(st.unversioned, index, u),
                   Put<int, nat>(st.indexes, index, |kept|), st.unversion))
  }

  /** `held` with `list(set(obj.versions + held.versions))` as its
      versions: every version of either, each once. */
  function Joined(held: Obj, obj: Obj): (r: Obj)
    requires held.versions.Listed? && obj.versions.Listed?
    ensures r.typeName == held.typeName && r.fields == held.fields && r.versions.Listed?
    ensures forall x :: x in r.versions.names <==> x in obj.versions.names || x in held.versions.names
    ensures forall i, j :: 0 <= i < j < |r.versions.names| ==> r.versions.names[i] != r.versions.names[j]
  {
    held.(versions := Listed(Unique(obj.versions.names + held.versions.names)))
  }

  /** The versions of `obj` joined to those of the object kept at
      `indexes[i]`. */
  function Merge(st: State, obj: Obj, kind: string, kept: seq<Obj>, i: int): Outcome<State> {
    match Get<int, nat>(st.indexes, i)
    case None => Throw(KeyError)
    case Some(j) =>
      if j >= |kept| then Throw(IndexError)
      else if kept[j].versions.NoField? then Throw(AttributeError)
      else if !obj.versions.Listed? || !kept[j].versions.Listed? then Throw(TypeError)
      else Return(st.(deduped := Put(st.deduped, kind, kept[j := Joined(kept[j], obj)])))
  }

  /** One pass of the inner loop, for `obj` from `things[index]`. */
  function Step(st: State, index: int, obj: Obj): Outcome<State> {
    match Get(EnglishNames, obj.typeName)
    case None => Throw(KeyError)
    case Some(kind) =>
      match Get(st.deduped, kind)
      case None => Throw(KeyError)
      case Some(kept) =>
        if Holds(kept, obj) then Return(st)
        else if obj.versions.NoField? then Append(st, index, obj, kind, kept)
        else
          var u := obj.(versions := NoneValue);
          match FirstSame(st.unversioned, u, 0)
          case None => Append(st.(unversion := Some(u)), index, obj, kind, kept)
          case Some(k) => Merge(st.(unversion := Some(u)), obj, kind, kept, st.unversioned[k].0)
  }

  /** The objects of one element of `things`. */
  function Objs(thing: Thing): seq<Obj> {
    match thing
    case Single(obj) => [obj]
    case Many(objs) => objs
  }

  /** The objects of `things[index]`, each with the outer index. */
  function Tagged(index: nat, objs: seq<Obj>): (r: seq<(nat, Obj)>)
    ensures |r| == |objs| && forall k :: 0 <= k < |objs| ==> r[k] == (index, objs[k])
  {
    seq(|objs|, k requires 0 <= k < |objs| => (index, objs[k]))
  }

  /** Every object from `things[from]` on, lists flattened one level. */
  function Flatten(things: seq<Thing>, from: nat): seq<(nat, Obj)>
    decreases |things| - from
  {
    if from >= |things| then [] else Tagged(from, Objs(things[from])) + Flatten(things, from + 1)
  }

  /** The loops over the flattened objects; the first exception ends them. */
  function Run(st: State, objs: seq<(nat, Obj)>): Outcome<State>
    decreases |objs|
  {
    if objs == [] then Return(st)
    else match Step(st, objs[0].0, objs[0].1)
      case Throw(e) => Throw(e)
      case Return(st') => Run(st', objs[1..])
  }

  /** `{k: v for k, v in deduped.items() if v}`. */
  function NonEmpty(d: Dict<string, seq<Obj>>): (r: Dict<string, seq<Obj>>)
    ensures forall k :: 0 <= k < |r| ==> r[k].1 != [] && r[k] in d
    ensures forall k :: 0 <= k < |d| && d[k].1 != [] ==> d[k] in r
    decreases |d|
  {
    if d == [] then []
    else if d[0].1 == [] then NonEmpty(d[1..])
    else [d[0]] + NonEmpty(d[1..])
  }

  /** What `dedup(things)` returns or raises. */
  function DedupOf(things: seq<Thing>): Outcome<Dict<string, seq<Obj>>> {
    match Run(Init, Flatten(things, 0))
    case Throw(e) => Throw(e)
    case Return(st) => Return(NonEmpty(st.deduped))
  }

  // The imperative code.

  /** `for i, x in unversioned.items(): if x == unversion: … break`: the key
      of the first remembered object equal to `u`. */
  method FindUnversioned(unversioned: Dict<int, Obj>, u: Obj) returns (found: Option<int>)
    ensures found == (match FirstSame(unversioned, u, 0)
                      case Some(k) => Some(unversioned[k].0)
                      case None => None)
  {
    found := None;
    var k := 0;
    while k < |unversioned|
      invariant 0 <= k <= |unversioned|
      invariant FirstSame(unversioned, u, 0) == FirstSame(unversioned, u, k)
      decreases |unversioned| - k
    {
      var (i, x) := unversioned[k];
      if Same(x, u) {
        found := Some(i);
        return;
      }
      k := k + 1;
    }
  }

  /** The body of the inner loop. */
  method StepObj(deduped: Dict<string, seq<Obj>>, unversioned: Dict<int, Obj>, indexes: Dict<int, nat>,
                 unversion: Option<Obj>, index: nat, obj: Obj) returns (r: Outcome<State>)
    ensures r == Step(State(deduped, unversioned, indexes, unversion), index, obj)
  {
    var appended := false;
    var kind := Get(EnglishNames, obj.typeName);
    if kind.None? {
      return Throw(KeyError);
    }
    var kept := Get(deduped, kind.value);
    if kept.None? {
      return Throw(KeyError);
    }
    if Holds(kept.value, obj) {
      return Return(State(deduped, unversioned, indexes, unversion));
    }
    var store, last := deduped, unversion;
    if !obj.versions.NoField? {
      last := Some(obj.(versions := NoneValue));
      var i := FindUnversioned(unversioned, last.value);
      if i.Some? {
        var j := Get<int, nat>(indexes, i.value);
        if j.None? {
          return Throw(KeyError);
        }
        if j.value >= |kept.value| {
          return Throw(IndexError);
        }
        var entry := kept.value[j.value];
        if entry.versions.NoField? {
          return Throw(AttributeError);
        }
        if !obj.versions.Listed? || !entry.versions.Listed? {
          return Throw(TypeError);
        }
        store := Put(store, kind.value, kept.value[j.value := Joined(entry, obj)]);
        appended := true;
      }
    }
    if !appended {
      if last.None? {
        return Throw(UnboundLocalError);
      }
      return Return(State(Put(store, kind.value, kept.value + [obj]), Put(unversioned, index, last.value),
                          Put<int, nat>(indexes, index, |kept.value|), last));
    }
    return Return(State(store, unversioned, indexes, last));
  }

  /** How a run over two stretches of objects splits. */
  lemma {:induction false} RunAppend(st: State, a: seq<(nat, Obj)>, b: seq<(nat, Obj)>)
    ensures Run(st, a + b) == match Run(st, a) case Throw(e) => Throw(e) case Return(s) => Run(s, b)
    decreases |a|
  {
    if a != [] {
      assert (a + b)[0] == a[0] && (a + b)[1..] == a[1..] + b;
      match Step(st, a[0].0, a[0].1)
      case Throw(e) =>
        assert Run(st, a) == Throw(e) && Run(st, a + b) == Throw(e);
      case Return(s) =>
        RunAppend(s, a[1..], b);
        assert Run(st, a) == Run(s, a[1..]) && Run(st, a + b) == Run(s, a[1..] + b);
    } else {
      assert a + b == b;
    }
  }

  /** The inner loop, one object at a time. */
  method ObjLoop(st0: State, index: nat, objs: seq<Obj>) returns (r: Outcome<State>)
    ensures r == Run(st0, Tagged(index, objs))
  {
    var deduped, unversioned, indexes, unversion := st0.deduped, st0.unversioned, st0.indexes, st0.unversion;
    var tagged := Tagged(index, objs);
    for k := 0 to |objs|
      invariant Run(st0, tagged) == Run(State(deduped, unversioned, indexes, unversion), tagged[k..])
    {
      var next := StepObj(deduped, unversioned, indexes, unversion, index, objs[k]);
      assert tagged[k..][0] == (index, objs[k]) && tagged[k..][1..] == tagged[k + 1..];
      if next.Throw? {
        return Throw(next.exc);
      }
      deduped, unversioned, indexes, unversion := next.value.deduped, next.value.unversioned, next.value.indexes, next.value.unversion;
    }
    assert tagged[|objs|..] == [];
    return Return(State(deduped, unversioned, indexes, unversion));
  }

  /** One pass of the outer loop, as the run over all objects sees it. */
  lemma OuterStep(things: seq<Thing>, index: nat, st: State, next: Outcome<State>)
    requires index < |things| && next == Run(st, Tagged(index, Objs(things[index])))
    ensures next.Throw? ==> Run(st, Flatten(things, index)) == Throw(next.exc)
    ensures next.Return? ==> Run(st, Flatten(things, index)) == Run(next.value, Flatten(things, index + 1))
  {
    RunAppend(st, Tagged(index, Objs(things[index])), Flatten(things, index + 1));
  }

  /** `dedup(things)`. */
  method Dedup(things: seq<Thing>) returns (r: Outcome<Dict<string, seq<Obj>>>)
    ensures r == DedupOf(things)
  {
    var st := Init;
    for index := 0 to |things|
      invariant Run(Init, Flatten(things, 0)) == Run(st, Flatten(things, index))
    {
      var thing := things[index];
      if thing.Single? {
        thing := Many([thing.obj]);
      }
      assert thing.objs == Objs(things[index]);
      var next := ObjLoop(st, index, thing.objs);
      OuterStep(things, index, st, next);
      if next.Throw? {
        return Throw(next.exc);
      }
      st := next.value;
    }
    assert Flatten(things, |things|) == [];
    return Return(NonEmpty(st.deduped));
  }

  // What `dedup` promises.

  /** The result keeps no empty kind, and every kind with objects. */
  lemma NoEmptyKinds(things: seq<Thing>)
    requires DedupOf(things).Return?
    ensures forall k :: 0 <= k < |DedupOf(things).value| ==> DedupOf(things).value[k].1 != []
    ensures var d := Run(Init, Flatten(things, 0)).value.deduped;
      forall k :: 0 <= k < |d| && d[k].1 != [] ==> d[k] in DedupOf(things).value
  {
  }

  /** The kinds are filed under fixed names. */
  predicate KindsFixed(st: State, kinds: seq<string>) {
    Keys(st.deduped) == kinds
  }

  /** Every remembered object has a place in `indexes`, and only those. */
  ghost predicate Remembered(st: State) {
    forall i :: i in Keys(st.unversioned) <==> i in Keys(st.indexes)
  }

  ghost predicate Good(st: State, kinds: seq<string>) {
    KindsFixed(st, kinds) && Remembered(st)
  }

  /** A type `english_names` knows has its kind among the initial ones. */
  lemma KindKnown(typeName: string, kind: string)
    requires Get(EnglishNames, typeName) == Some(kind)
    ensures kind in Keys(NoneKept) && Get(NoneKept, kind) == Some([])
  {
    assert Keys(NoneKept) == ["Martyrologies", "Prayers", "Antiphons"];
  }

  lemma GetIn<K, V>(d: Dict<K, V>, k: K)
    requires k in Keys(d)
    ensures Get(d, k).Some?
  {
    var i :| 0 <= i < |d| && Keys(d)[i] == k;
  }

  /** Keeping an object keeps the kinds and the remembered places in step. */
  lemma AppendGood(st: State, kinds: seq<string>, index: int, obj: Obj, kind: string, kept: seq<Obj>)
    requires Good(st, kinds) && kind in kinds
    ensures Append(st, index, obj, kind, kept).Return? ==> Good(Append(st, index, obj, kind, kept).value, kinds)
  {
    PutKeys(st.deduped, kind, kept + [obj]);
    if st.unversion.Some? {
      PutKeys(st.unversioned, index, st.unversion.value);
    }
    PutKeys<int, nat>(st.indexes, index, |kept|);
  }

  /** Joining versions finds the remembered place and keeps the kinds. */
  lemma MergeGood(st: State, kinds: seq<string>, obj: Obj, kind: string, kept: seq<Obj>, i: int)
    requires Good(st, kinds) && kind in kinds && i in Keys(st.unversioned)
    ensures Merge(st, obj, kind, kept, i) != Throw(KeyError)
    ensures Merge(st, obj, kind, kept, i).Return? ==> Good(Merge(st, obj, kind, kept, i).value, kinds)
  {
    GetIn<int, nat>(st.indexes, i);
    var j := Get<int, nat>(st.indexes, i).value;
    if j < |kept| && kept[j].versions.Listed? && obj.versions.Listed? {
      PutKeys(st.deduped, kind, kept[j := Joined(kept[j], obj)]);
    }
  }

  /** A step on a known type raises no `KeyError` and keeps the kinds and
      the remembered places in step. */
  lemma StepGood(st: State, kinds: seq<string>, index: int, obj: Obj)
    requires Good(st, kinds) && Get(EnglishNames, obj.typeName).Some?
    requires forall kind :: kind in Keys(NoneKept) ==> kind in kinds
    ensures Step(st, index, obj) != Throw(KeyError)
    ensures Step(st, index, obj).Return? ==> Good(Step(st, index, obj).value, kinds)
  {
    var kind := Get(EnglishNames, obj.typeName).value;
    KindKnown(obj.typeName, kind);
    GetIn(st.deduped, kind);
    var kept := Get(st.deduped, kind).value;
    var u := obj.(versions := NoneValue);
    if Holds(kept, obj) {
    } else if obj.versions.NoField? {
      AppendGood(st, kinds, index, obj, kind, kept);
    } else {
      match FirstSame(st.unversioned, u, 0)
      case None =>
        AppendGood(st.(unversion := Some(u)), kinds, index, obj, kind, kept);
      case Some(k) =>
        assert st.unversioned[k].0 == Keys(st.unversioned)[k];
        MergeGood(st.(unversion := Some(u)), kinds, obj, kind, kept, st.unversioned[k].0);
    }
  }

  /** `english_names[type(obj).__name__]` is the only source of `KeyError`:
      a run over objects of known types never raises it. */
  lemma {:induction false} RunGood(st: State, kinds: seq<string>, objs: seq<(nat, Obj)>)
    requires Good(st, kinds) && forall kind :: kind in Keys(NoneKept) ==> kind in kinds
    requires forall k :: 0 <= k < |objs| ==> Get(EnglishNames, objs[k].1.typeName).Some?
    ensures Run(st, objs) != Throw(KeyError)
    ensures Run(st, objs).Return? ==> Good(Run(st, objs).value, kinds)
    decreases |objs|
  {
    if objs != [] {
      StepGood(st, kinds, objs[0].0, objs[0].1);
      match Step(st, objs[0].0, objs[0].1)
      case Throw(e) =>
      case Return(s) =>
        assert forall k :: 0 <= k < |objs[1..]| ==> objs[1..][k] == objs[k + 1];
        RunGood(s, kinds, objs[1..]);
    }
  }

  /** With objects of known types only, `dedup` raises no `KeyError`. */
  lemma KnownTypes(things: seq<Thing>)
    requires forall k :: 0 <= k < |Flatten(things, 0)| ==> Get(EnglishNames, Flatten(things, 0)[k].1.typeName).Some?
    ensures DedupOf(things) != Throw(KeyError)
  {
    RunGood(Init, Keys(NoneKept), Flatten(things, 0));
  }

  /** Once a run has reached an object of a type `english_names` does not
      know, `dedup` raises `KeyError`. */
  lemma UnknownType(things: seq<Thing>, j: nat)
    requires j < |Flatten(things, 0)| && Run(Init, Flatten(things, 0)[..j]).Return?
    requires Get(EnglishNames, Flatten(things, 0)[j].1.typeName).None?
    ensures DedupOf(things) == Throw(KeyError)
  {
    RunUnknown(Init, Flatten(things, 0), j);
  }

  /** A run that reaches an object of a type `english_names` does not know raises `KeyError`. */
  lemma RunUnknown(st0: State, objs: seq<(nat, Obj)>, j: nat)
    requires j < |objs| && Run(st0, objs[..j]).Return?
    requires Get(EnglishNames, objs[j].1.typeName).None?
    ensures Run(st0, objs) == Throw(KeyError)
  {
    var st := Run(st0, objs[..j]).value;
    assert Run(st0, objs) == Run(st, objs[j..]) by {
      assert objs == objs[..j] + objs[j..];
      RunAppend(st0, objs[..j], objs[j..]);
    }
    assert objs[j..][0] == objs[j];
    assert Step(st, objs[j].0, objs[j].1) == Throw(KeyError);
  }

  /** A kept object is remembered, with its place, under its outer index:
      a later new object of the same element of `things` replaces it. */
  lemma AppendRemembers(st: State, index: int, obj: Obj, kind: string, kept: seq<Obj>, i: int)
    requires Append(st, index, obj, kind, kept).Return?
    ensures var s := Append(st, index, obj, kind, kept).value;
      Get(s.deduped, kind) == Some(kept + [obj]) &&
      Get(s.unversioned, index) == st.unversion &&
      Get<int, nat>(s.indexes, index) == Some(|kept|) &&
      (i != index ==> Get(s.unversioned, i) == Get(st.unversioned, i) && Get<int, nat>(s.indexes, i) == Get<int, nat>(st.indexes, i))
  {
    PutGet(st.deduped, kind, kept + [obj], kind);
    PutGet(st.unversioned, index, st.unversion.value, index);
    PutGet(st.unversioned, index, st.unversion.value, i);
    PutGet<int, nat>(st.indexes, index, |kept|, index);
    PutGet<int, nat>(st.indexes, index, |kept|, i);
  }

  /** An object equal to one already kept for its kind is skipped. */
  lemma Skipped(st: State, index: int, obj: Obj, kind: string)
    requires Get(EnglishNames, obj.typeName) == Some(kind)
    requires Get(st.deduped, kind).Some? && Holds(Get(st.deduped, kind).value, obj)
    ensures Step(st, index, obj) == Return(st)
  {
  }

  /** A kept object is held: the same object again is skipped. */
  lemma KeptHeld(st: State, index: int, index': int, obj: Obj, kind: string, kept: seq<Obj>)
    requires Get(EnglishNames, obj.typeName) == Some(kind)
    requires Append(st, index, obj, kind, kept).Return?
    ensures Step(Append(st, index, obj, kind, kept).value, index', obj) == Append(st, index, obj, kind, kept)
  {
    PutGet(st.deduped, kind, kept + [obj], kind);
    assert Same((kept + [obj])[|kept|], obj);
  }

  /** A run of one object, and of that object again when the second
      step changes nothing. */
  lemma RunAgain(st: State, s: State, a: nat, b: nat, obj: Obj)
    requires Step(st, a, obj) == Return(s) && Step(s, b, obj) == Return(s)
    ensures Run(st, [(a, obj)]) == Return(s) && Run(st, [(a, obj), (b, obj)]) == Return(s)
  {
    assert [(a, obj)][1..] == [];
    assert [(a, obj), (b, obj)][1..] == [(b, obj)];
    assert [(b, obj)][1..] == [];
  }

  /** The same object twice gives what it gives once. */
  lemma Repeated(obj: Obj, kind: string)
    requires Get(EnglishNames, obj.typeName) == Some(kind)
    ensures DedupOf([Single(obj), Single(obj)]) == DedupOf([Single(obj)])
  {
    assert Flatten([Single(obj)], 0) == [(0, obj)] by {
      assert Flatten([Single(obj)], 1) == [];
    }
    assert Flatten([Single(obj), Single(obj)], 0) == [(0, obj), (1, obj)] by {
      assert Flatten([Single(obj), Single(obj)], 2) == [];
    }
    assert Get(Init.deduped, kind) == Some([]) by {
      KindKnown(obj.typeName, kind);
    }
    RunTwice(Init, 0, 1, obj, kind);
  }

  /** Before anything is kept or remembered, an object run twice gives what
      it gives once. */
  lemma RunTwice(st: State, a: nat, b: nat, obj: Obj, kind: string)
    requires Get(EnglishNames, obj.typeName) == Some(kind) && Get(st.deduped, kind) == Some([]) && st.unversioned == []
    ensures Run(st, [(a, obj), (b, obj)]) == Run(st, [(a, obj)])
  {
    assert !Holds([], obj);
    if obj.versions.NoField? && st.unversion.None? {
      Unassigned(st, [(a, obj), (b, obj)], kind);
      Unassigned(st, [(a, obj)], kind);
    } else {
      var st' := if obj.versions.NoField? then st else st.(unversion := Some(obj.(versions := NoneValue)));
      assert obj.versions.NoField? || FirstSame(st.unversioned, obj.(versions := NoneValue), 0).None?;
      assert Step(st, a, obj) == Append(st', a, obj, kind, []);
      KeptHeld(st', a, b, obj, kind, []);
      RunAgain(st, Append(st', a, obj, kind, []).value, a, b, obj);
    }
  }

  /** A first object whose type has no `versions` field leaves
      `unversion` unassigned when it is kept. */
  lemma FirstWithoutVersions(obj: Obj, rest: seq<Thing>, kind: string)
    requires Get(EnglishNames, obj.typeName) == Some(kind) && obj.versions.NoField?
    ensures DedupOf([Single(obj)] + rest) == Throw(UnboundLocalError)
  {
    var things := [Single(obj)] + rest;
    var objs := Flatten(things, 0);
    assert objs != [] && objs[0] == (0, obj) by {
      assert things[0] == Single(obj);
      assert objs == Tagged(0, [obj]) + Flatten(things, 1);
    }
    assert Get(Init.deduped, kind) == Some([]) by {
      KindKnown(obj.typeName, kind);
    }
    Unassigned(Init, objs, kind);
  }

  /** An object with no `versions` field, new to its kind, raises
      `UnboundLocalError` while `unversion` is unassigned. */
  lemma Unassigned(st: State, objs: seq<(nat, Obj)>, kind: string)
    requires objs != [] && st.unversion.None? && objs[0].1.versions.NoField?
    requires Get(EnglishNames, objs[0].1.typeName) == Some(kind) && Get(st.deduped, kind) == Some([])
    ensures Run(st, objs) == Throw(UnboundLocalError)
  {
    assert !Holds([], objs[0].1);
    assert Step(st, objs[0].0, objs[0].1) == Throw(UnboundLocalError);
  }

  /** A kind filled from the initial, empty ones is the only kind left. */
  lemma OnlyKind(kind: string, objs: seq<Obj>)
    requires kind in Keys(NoneKept) && objs != []
    ensures NonEmpty(Put(NoneKept, kind, objs)) == [(kind, objs)]
  {
    var d := Put(NoneKept, kind, objs);
    assert NonEmpty([("Antiphons", objs)]) == [("Antiphons", objs)];
    assert NonEmpty([("Antiphons", [])]) == [];
    if kind == "Martyrologies" {
      assert d == [(kind, objs), ("Prayers", []), ("Antiphons", [])];
      assert NonEmpty(d[1..]) == [];
    } else if kind == "Prayers" {
      assert d == [("Martyrologies", []), (kind, objs), ("Antiphons", [])];
      assert NonEmpty(d[1..]) == [(kind, objs)];
    } else {
      assert d == [("Martyrologies", []), ("Prayers", []), (kind, objs)];
      assert NonEmpty(d[1..]) == [(kind, objs)];
    }
  }

  /** Writing a key twice keeps the second value. */
  lemma {:induction false} PutPut<K, V>(d: Dict<K, V>, k: K, v: V, w: V)
    ensures Put(Put(d, k, v), k, w) == Put(d, k, w)
    decreases |d|
  {
    if d != [] && d[0].0 != k {
      PutPut(d[1..], k, v, w);
      assert Put(d, k, v)[1..] == Put(d[1..], k, v);
    }
  }

  /** The first object with versions is kept, as the only one of its kind. */
  lemma FirstKept(obj: Obj, kind: string, index: nat)
    requires Get(EnglishNames, obj.typeName) == Some(kind) && obj.versions.Listed?
    ensures Step(Init, index, obj) ==
      Return(State(Put(NoneKept, kind, [obj]), [(index, obj.(versions := NoneValue))], [(index, 0)], Some(obj.(versions := NoneValue))))
  {
    KindKnown(obj.typeName, kind);
    var u := obj.(versions := NoneValue);
    assert !Holds([], obj);
    assert FirstSame(Init.unversioned, u, 0).None?;
    assert Step(Init, index, obj) == Append(Init.(unversion := Some(u)), index, obj, kind, []);
    assert Put(Init.unversioned, index, u) == [(index, u)];
    assert Put<int, nat>(Init.indexes, index, 0) == [(index, 0)];
    assert [] + [obj] == [obj];
  }

  /** An object that differs from the first only in its versions adds them
      to that kept object. */
  lemma SecondJoined(a: Obj, b: Obj, kind: string, ia: nat, ib: nat)
    requires Get(EnglishNames, a.typeName) == Some(kind) && b.typeName == a.typeName && b.fields == a.fields
    requires a.versions.Listed? && b.versions.Listed? && a.versions != b.versions
    ensures var st := Step(Init, ia, a).value;
      Step(st, ib, b) == Return(st.(deduped := Put(NoneKept, kind, [Joined(a, b)]), unversion := Some(b.(versions := NoneValue))))
  {
    FirstKept(a, kind, ia);
    var st := Step(Init, ia, a).value;
    PutGet(NoneKept, kind, [a], kind);
    assert !Same(a, b);
    assert !Holds([a], b);
    assert Same(st.unversioned[0].1, b.(versions := NoneValue));
    assert FirstSame(st.unversioned, b.(versions := NoneValue), 0) == Some(0);
    PutPut(NoneKept, kind, [a], [a][0 := Joined(a, b)]);
    assert [a][0 := Joined(a, b)] == [Joined(a, b)];
  }

  /** A run of two objects, step by step. */
  lemma RunTwo(st: State, x: (nat, Obj), y: (nat, Obj), s1: State, s2: State)
    requires Step(st, x.0, x.1) == Return(s1) && Step(s1, y.0, y.1) == Return(s2)
    ensures Run(st, [x, y]) == Return(s2)
  {
    assert [x, y][1..] == [y] && [y][1..] == [];
    assert Run(s1, [y]) == Run(s2, []);
  }

  /** Two single things, flattened. */
  lemma FlattenTwo(a: Obj, b: Obj)
    ensures Flatten([Single(a), Single(b)], 0) == [(0, a), (1, b)]
  {
    assert Flatten([Single(a), Single(b)], 2) == [];
    assert Flatten([Single(a), Single(b)], 1) == [(1, b)];
  }

  /** Two objects that differ only in their versions are kept as one, with
      the versions of both. */
  lemma VersionsJoined(a: Obj, b: Obj, kind: string)
    requires Get(EnglishNames, a.typeName) == Some(kind) && b.typeName == a.typeName && b.fields == a.fields
    requires a.versions.Listed? && b.versions.Listed? && a.versions != b.versions
    ensures DedupOf([Single(a), Single(b)]) == Return([(kind, [Joined(a, b)])])
  {
    KindKnown(a.typeName, kind);
    FlattenTwo(a, b);
    FirstKept(a, kind, 0);
    SecondJoined(a, b, kind, 0, 1);
    var s1 := Step(Init, 0, a).value;
    RunTwo(Init, (0, a), (1, b), s1, Step(s1, 1, b).value);
    OnlyKind(kind, [Joined(a, b)]);
  }

  /** An object whose fields no kept or remembered object has is kept. */
  lemma NewKept(st: State, c: Obj, kind: string, kept: seq<Obj>, index: nat)
    requires Get(EnglishNames, c.typeName) == Some(kind) && Get(st.deduped, kind) == Some(kept) && c.versions.Listed?
    requires forall k :: 0 <= k < |kept| ==> kept[k].fields != c.fields
    requires forall k :: 0 <= k < |st.unversioned| ==> st.unversioned[k].1.fields != c.fields
    ensures Step(st, index, c) == Append(st.(unversion := Some(c.(versions := NoneValue))), index, c, kind, kept)
  {
    assert FirstSame(st.unversioned, c.(versions := NoneValue), 0).None?;
  }

  /** A run of three objects, step by step. */
  lemma RunThree(st: State, x: (nat, Obj), y: (nat, Obj), z: (nat, Obj), s1: State, s2: State, s3: State)
    requires Step(st, x.0, x.1) == Return(s1) && Step(s1, y.0, y.1) == Return(s2) && Step(s2, z.0, z.1) == Return(s3)
    ensures Run(st, [x, y, z]) == Return(s3)
  {
    assert [x, y, z][1..] == [y, z];
    RunTwo(s1, y, z, s2, s3);
  }

  /** Three things, flat or with the last two in a list, flattened. */
  lemma FlattenThree(a: Obj, b: Obj, c: Obj)
    ensures Flatten([Single(a), Single(b), Single(c)], 0) == [(0, a), (1, b), (2, c)]
    ensures Flatten([Single(a), Many([b, c])], 0) == [(0, a), (1, b), (1, c)]
  {
    assert Flatten([Single(a), Single(b), Single(c)], 3) == [];
    assert Flatten([Single(a), Single(b), Single(c)], 2) == [(2, c)];
    assert Flatten([Single(a), Single(b), Single(c)], 1) == [(1, b), (2, c)];
    assert Flatten([Single(a), Many([b, c])], 2) == [];
    assert Flatten([Single(a), Many([b, c])], 1) == [(1, b), (1, c)];
  }

  /** After two objects joined, a third with other fields is kept beside
      them, whatever its outer index. */
  lemma ThirdStep(s2: State, a: Obj, b: Obj, c: Obj, kind: string, ic: nat)
    requires a.versions.Listed? && b.versions.Listed?
    requires s2.deduped == Put(NoneKept, kind, [Joined(a, b)]) && s2.unversioned == [(0, a.(versions := NoneValue))]
    requires Get(EnglishNames, c.typeName) == Some(kind) && c.fields != a.fields && c.versions.Listed?
    ensures Step(s2, ic, c).Return? && NonEmpty(Step(s2, ic, c).value.deduped) == [(kind, [Joined(a, b), c])]
  {
    KindKnown(c.typeName, kind);
    PutGet(NoneKept, kind, [Joined(a, b)], kind);
    PutPut(NoneKept, kind, [Joined(a, b)], [Joined(a, b)] + [c]);
    OnlyKind(kind, [Joined(a, b), c]);
    assert [Joined(a, b)] + [c] == [Joined(a, b), c];
    NewKept(s2, c, kind, [Joined(a, b)], ic);
  }

  /** Three objects, the first two differing only in their versions. */
  lemma ThirdKept(a: Obj, b: Obj, c: Obj, kind: string)
    requires Get(EnglishNames, a.typeName) == Some(kind) && b.typeName == a.typeName && b.fields == a.fields
    requires a.versions.Listed? && b.versions.Listed? && a.versions != b.versions
    requires Get(EnglishNames, c.typeName) == Some(kind) && c.fields != a.fields && c.versions.Listed?
    ensures DedupOf([Single(a), Single(b), Single(c)]) == Return([(kind, [Joined(a, b), c])])
  {
    FlattenThree(a, b, c);
    FirstKept(a, kind, 0);
    SecondJoined(a, b, kind, 0, 1);
    var s1 := Step(Init, 0, a).value;
    var s2 := Step(s1, 1, b).value;
    ThirdStep(s2, a, b, c, kind, 2);
    RunThree(Init, (0, a), (1, b), (2, c), s1, s2, Step(s2, 2, c).value);
  }

  /** The same, with the last two objects in one list. */
  lemma ThirdInList(a: Obj, b: Obj, c: Obj, kind: string)
    requires Get(EnglishNames, a.typeName) == Some(kind) && b.typeName == a.typeName && b.fields == a.fields
    requires a.versions.Listed? && b.versions.Listed? && a.versions != b.versions
    requires Get(EnglishNames, c.typeName) == Some(kind) && c.fields != a.fields && c.versions.Listed?
    ensures DedupOf([Single(a), Many([b, c])]) == Return([(kind, [Joined(a, b), c])])
  {
    FlattenThree(a, b, c);
    FirstKept(a, kind, 0);
    SecondJoined(a, b, kind, 0, 1);
    var s1 := Step(Init, 0, a).value;
    var s2 := Step(s1, 1, b).value;
    ThirdStep(s2, a, b, c, kind, 1);
    RunThree(Init, (0, a), (1, b), (1, c), s1, s2, Step(s2, 1, c).value);
  }
}
