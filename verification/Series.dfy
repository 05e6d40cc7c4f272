/** A main ring with one small ring per key, as the repository keeps for processes (keyed by PID)
    and for disks (keyed by device): the index must agree with the scan it speeds up
    (internal/infrastructure/storage/memory.go). */
module Series {
  import opened Basics
  import opened TimeRanges
  import opened Rings

  datatype Keyed<K, V> = Keyed(key: K, value: V)

  const INDEX_CAPACITY: nat := 1000

  /** `log` is every sample ever saved. */
  datatype Store<K, V> = Store(
    main: Ring<Keyed<K, V>>,
    index: map<K, Ring<Keyed<K, V>>>,
    log: seq<Stamped<Keyed<K, V>>>)
  {
    ghost predicate Valid() {
      && main.Valid() && IsSuffix(main.contents, log)
      && forall k :: k in index ==>
           && index[k].Valid() && index[k].contents != []
           && IsSuffix(index[k].contents, OfKey(log, k))
    }

    /** What a query by key finds before the range is applied. */
    function Indexed(k: K): seq<Stamped<Keyed<K, V>>> {
      if k in index then index[k].contents else []
    }
  }

  datatype Op<K, V> =
    | Save(key: K, value: V, time: int)
    | DeleteOld(before: int)
    | Close

  function OfKey<K(==), V>(s: seq<Stamped<Keyed<K, V>>>, k: K): (r: seq<Stamped<Keyed<K, V>>>)
    ensures forall i :: 0 <= i < |r| ==> r[i] in s && r[i].item.key == k
  {
    if s == [] then [] else (if s[0].item.key == k then [s[0]] else []) + OfKey(s[1..], k)
  }

  lemma {:induction false} OfKeyConcat<K, V>(a: seq<Stamped<Keyed<K, V>>>, b: seq<Stamped<Keyed<K, V>>>, k: K)
    ensures OfKey(a + b, k) == OfKey(a, k) + OfKey(b, k)
  {
    if a == [] {
      assert a + b == b;
    } else {
      assert (a + b)[1..] == a[1..] + b;
      OfKeyConcat(a[1..], b, k);
    }
  }

  lemma OfKeySnoc<K, V>(a: seq<Stamped<Keyed<K, V>>>, x: Stamped<Keyed<K, V>>, k: K)
    ensures OfKey(a + [x], k) == OfKey(a, k) + if x.item.key == k then [x] else []
  {
    OfKeyConcat(a, [x], k);
    assert [x][1..] == [];
  }

  lemma OfKeySuffix<K, V>(a: seq<Stamped<Keyed<K, V>>>, b: seq<Stamped<Keyed<K, V>>>, k: K)
    requires IsSuffix(a, b)
    ensures IsSuffix(OfKey(a, k), OfKey(b, k))
  {
    SuffixSplit(a, b);
    OfKeyConcat(b[..|b| - |a|], a, k);
  }

  lemma OfKeyInRangeOne<K, V>(x: Stamped<Keyed<K, V>>, k: K, range: TimeRange)
    ensures OfKey(if range.Contains(x.time) then [x] else [], k) == InRange(if x.item.key == k then [x] else [], range)
  {
    assert [x][1..] == [];
  }

  lemma {:induction false} OfKeyInRange<K, V>(s: seq<Stamped<Keyed<K, V>>>, k: K, range: TimeRange)
    ensures OfKey(InRange(s, range), k) == InRange(OfKey(s, k), range)
  {
    if s != [] {
      var head := if s[0].item.key == k then [s[0]] else [];
      var kept := if range.Contains(s[0].time) then [s[0]] else [];
      assert OfKey(s, k) == head + OfKey(s[1..], k);
      assert InRange(s, range) == kept + InRange(s[1..], range);
      hide OfKey, InRange;
      OfKeyInRange(s[1..], k, range);
      OfKeyInRangeOne(s[0], k, range);
      InRangeConcat(head, OfKey(s[1..], k), range);
      OfKeyConcat(kept, InRange(s[1..], range), k);
    }
  }

  lemma {:induction false} OfKeyNotOlder<K, V>(s: seq<Stamped<Keyed<K, V>>>, k: K, cutoff: int)
    ensures OfKey(NotOlder(s, cutoff), k) == NotOlder(OfKey(s, k), cutoff)
  {
    if s != [] {
      OfKeyNotOlder(s[1..], k, cutoff);
      var kept := if s[0].time >= cutoff then [s[0]] else [];
      OfKeyConcat(kept, NotOlder(s[1..], cutoff), k);
      var head := if s[0].item.key == k then [s[0]] else [];
      NotOlderConcat(head, OfKey(s[1..], k), cutoff);
      assert [s[0]][1..] == [];
    }
  }

  lemma {:induction false} OfKeySorted<K, V>(s: seq<Stamped<Keyed<K, V>>>, k: K)
    requires Sorted(s)
    ensures Sorted(OfKey(s, k))
  {
    if s != [] {
      OfKeySorted(s[1..], k);
      var rest := OfKey(s[1..], k);
      forall i | 0 <= i < |rest| ensures s[0].time <= rest[i].time {
        assert rest[i] in s[1..];
      }
    }
  }

  lemma SuffixSorted<T>(a: seq<Stamped<T>>, b: seq<Stamped<T>>)
    requires IsSuffix(a, b) && Sorted(b)
    ensures Sorted(a)
  {
    forall i, j | 0 <= i < j < |a| ensures a[i].time <= a[j].time {
      assert a[i] == b[|b| - |a| + i] && a[j] == b[|b| - |a| + j];
    }
  }

  // ---- Steps ----

  function RingFor<K, V>(s: Store<K, V>, k: K): Ring<Keyed<K, V>> {
    if k in s.index then s.index[k] else Fresh(INDEX_CAPACITY)
  }

  function SaveStep<K, V>(s: Store<K, V>, k: K, v: V, t: int): Store<K, V> {
    var push := Push(Keyed(k, v), t);
    Store(Step(s.main, push), s.index[k := Step(RingFor(s, k), push)], s.log + [Stamped(Keyed(k, v), t)])
  }

  /** Evict from the rings of the given keys, and drop those left empty. */
  function EvictAll<K, V>(index: map<K, Ring<Keyed<K, V>>>, keys: set<K>, before: int): map<K, Ring<Keyed<K, V>>> {
    map k | k in index && (k in keys ==> Step(index[k], Evict(before)).contents != [])
      :: if k in keys then Step(index[k], Evict(before)) else index[k]
  }

  lemma EvictNone<K, V>(index: map<K, Ring<Keyed<K, V>>>, before: int)
    ensures EvictAll(index, {}, before) == index
  {
  }

  lemma EvictAllNext<K, V>(index: map<K, Ring<Keyed<K, V>>>, keys: set<K>, k: K, before: int)
    requires k in index && k !in keys
    ensures var e := Step(index[k], Evict(before));
      && k in EvictAll(index, keys, before) && EvictAll(index, keys, before)[k] == index[k]
      && EvictAll(index, keys + {k}, before)
         == if e.contents == [] then EvictAll(index, keys, before) - {k} else EvictAll(index, keys, before)[k := e]
  {
  }

  function DeleteStep<K, V>(s: Store<K, V>, before: int): Store<K, V> {
    Store(Step(s.main, Evict(before)), EvictAll(s.index, s.index.Keys, before), s.log)
  }

  function CloseStep<K, V>(s: Store<K, V>): Store<K, V> {
    Store(Step(s.main, Clear), map[], s.log)
  }

  function StoreStep<K, V>(s: Store<K, V>, op: Op<K, V>): Store<K, V> {
    match op
    case Save(k, v, t) => SaveStep(s, k, v, t)
    case DeleteOld(before) => DeleteStep(s, before)
    case Close => CloseStep(s)
  }

  function StoreRun<K, V>(s: Store<K, V>, ops: seq<Op<K, V>>): Store<K, V>
    decreases |ops|
  {
    if ops == [] then s else StoreRun(StoreStep(s, ops[0]), ops[1..])
  }

  function Empty<K, V>(capacity: int): Store<K, V> {
    Store(Fresh(capacity), map[], [])
  }

  lemma PushSuffix<T>(r: Ring<T>, x: T, t: int, log: seq<Stamped<T>>)
    requires r.Valid() && IsSuffix(r.contents, log)
    ensures Step(r, Push(x, t)).contents != []
    ensures IsSuffix(Step(r, Push(x, t)).contents, log + [Stamped(x, t)])
  {
    var y := Stamped(x, t);
    AppendKeepsSuffix(r.contents, y, log);
    DroppingKeepsSuffix(r.contents + [y], 1, log + [y]);
  }

  lemma SaveKeepsRing<K, V>(s: Store<K, V>, k: K, v: V, t: int)
    requires s.Valid()
    ensures var r := Step(RingFor(s, k), Push(Keyed(k, v), t));
      r.Valid() && r.contents != [] && IsSuffix(r.contents, OfKey(s.log, k) + [Stamped(Keyed(k, v), t)])
  {
    var r := RingFor(s, k);
    assert r.Valid() && IsSuffix(r.contents, OfKey(s.log, k));
    hide Step, IsSuffix, Ring.Valid, Store.Valid;
    StepKeepsValid(r, Push(Keyed(k, v), t));
    PushSuffix(r, Keyed(k, v), t, OfKey(s.log, k));
  }

  lemma {:induction false} SaveKeepsValid<K, V>(s: Store<K, V>, k: K, v: V, t: int)
    requires s.Valid()
    ensures SaveStep(s, k, v, t).Valid()
  {
    var n := SaveStep(s, k, v, t);
    var x := Stamped(Keyed(k, v), t);
    StepKeepsValid(s.main, Push(x.item, t));
    PushSuffix(s.main, x.item, t, s.log);
    SaveKeepsRing(s, k, v, t);
    hide Step, IsSuffix, Ring.Valid;
    forall j | j in n.index
      ensures n.index[j].Valid() && n.index[j].contents != [] && IsSuffix(n.index[j].contents, OfKey(n.log, j))
    {
      OfKeySnoc(s.log, x, j);
      if j != k {
        assert OfKey(s.log, j) + [] == OfKey(s.log, j);
      }
    }
  }

  lemma {:induction false} DeleteKeepsValid<K, V>(s: Store<K, V>, before: int)
    requires s.Valid()
    ensures DeleteStep(s, before).Valid()
  {
    var n := DeleteStep(s, before);
    StepKeepsValid(s.main, Evict(before));
    DroppingKeepsSuffix(s.main.contents, OldPrefix(s.main.contents, before), s.log);
    forall j | j in n.index
      ensures n.index[j].Valid() && n.index[j].contents != [] && IsSuffix(n.index[j].contents, OfKey(n.log, j))
    {
      StepKeepsValid(s.index[j], Evict(before));
      DroppingKeepsSuffix(s.index[j].contents, OldPrefix(s.index[j].contents, before), OfKey(s.log, j));
    }
  }

  lemma {:induction false} StoreStepKeepsValid<K, V>(s: Store<K, V>, op: Op<K, V>)
    requires s.Valid()
    ensures StoreStep(s, op).Valid()
  {
    match op
    case Save(k, v, t) => SaveKeepsValid(s, k, v, t);
    case DeleteOld(before) => DeleteKeepsValid(s, before);
    case Close => StepKeepsValid(s.main, Clear);
  }

  lemma {:induction false} StoreRunKeepsValid<K, V>(s: Store<K, V>, ops: seq<Op<K, V>>)
    requires s.Valid()
    ensures StoreRun(s, ops).Valid()
    decreases |ops|
  {
    if ops != [] {
      StoreStepKeepsValid(s, ops[0]);
      StoreRunKeepsValid(StoreStep(s, ops[0]), ops[1..]);
    }
  }

  /** In every reachable state, whatever the order of timestamps: for each key the index ring and
      the main ring restricted to the key are both suffixes of that key's save history, so one is
      a suffix of the other, and so are the samples of any range in them; and no index entry is
      an empty ring. */
  lemma IndexAndScanNest<K, V>(capacity: int, ops: seq<Op<K, V>>, k: K, range: TimeRange)
    ensures var s := StoreRun(Empty(capacity), ops);
      var indexed, scanned := s.Indexed(k), OfKey(s.main.contents, k);
      && IsSuffix(indexed, OfKey(s.log, k))
      && IsSuffix(scanned, OfKey(s.log, k))
      && (IsSuffix(indexed, scanned) || IsSuffix(scanned, indexed))
      && (|| IsSuffix(InRange(indexed, range), OfKey(InRange(s.main.contents, range), k))
          || IsSuffix(OfKey(InRange(s.main.contents, range), k), InRange(indexed, range)))
      && (k in s.index ==> indexed != [])
  {
    StoreRunKeepsValid(Empty(capacity), ops);
    var s := StoreRun(Empty(capacity), ops);
    var indexed, scanned := s.Indexed(k), OfKey(s.main.contents, k);
    OfKeySuffix(s.main.contents, s.log, k);
    SuffixesNest(indexed, scanned, OfKey(s.log, k));
    OfKeyInRange(s.main.contents, k, range);
    if IsSuffix(indexed, scanned) {
      InRangeOfSuffix(indexed, scanned, range);
    } else {
      InRangeOfSuffix(scanned, indexed, range);
    }
  }

  /** Whether a ring answers every well-formed range exactly. */
  predicate Searchable<T>(s: seq<Stamped<T>>) {
    |s| < LINEAR_LIMIT || Sorted(s)
  }

  /** In every reachable state in which the two rings of a key are below the search limit or sorted:
      of the answers by index and by scan to one well-formed range, one is a suffix of the other. */
  lemma {:induction false} AnswersNest<K, V>(capacity: int, ops: seq<Op<K, V>>, k: K, start: int, end: int)
    requires start <= end
    requires var s := StoreRun(Empty(capacity), ops); Searchable(s.main.contents) && Searchable(s.Indexed(k))
    ensures var s := StoreRun(Empty(capacity), ops);
      var indexed, scanned := QueryAnswer(s.Indexed(k), start, end), QueryAnswer(s.main.contents, start, end);
      && indexed.Items? && scanned.Items?
      && (|| IsSuffix(indexed.items, OfKey(scanned.items, k))
          || IsSuffix(OfKey(scanned.items, k), indexed.items))
  {
    var s := StoreRun(Empty(capacity), ops);
    QueryAnswerExact(s.main.contents, start, end);
    QueryAnswerExact(s.Indexed(k), start, end);
    IndexAndScanNest(capacity, ops, k, TimeRange(start, end));
  }

  // ---- What is retained ----

  /** The capacities of all rings, in every reachable state. */
  ghost predicate Sized<K, V>(s: Store<K, V>, capacity: nat) {
    s.main.capacity == capacity && forall k :: k in s.index ==> s.index[k].capacity == 1000
  }

  lemma {:induction false} StepKeepsSized<K, V>(s: Store<K, V>, op: Op<K, V>, capacity: nat)
    requires s.Valid() && Sized(s, capacity)
    ensures Sized(StoreStep(s, op), capacity)
  {
    hide Step, IsSuffix, Ring.Valid;
    match op
    case Save(k, v, t) =>
      StepCountsLosses(s.main, Push(Keyed(k, v), t));
      StepCountsLosses(RingFor(s, k), Push(Keyed(k, v), t));
    case DeleteOld(before) =>
      StepCountsLosses(s.main, Evict(before));
      forall k | k in s.index ensures Step(s.index[k], Evict(before)).capacity == 1000 {
        StepCountsLosses(s.index[k], Evict(before));
      }
    case Close => StepCountsLosses(s.main, Clear);
  }

  lemma {:induction false} RunKeepsSized<K, V>(s: Store<K, V>, ops: seq<Op<K, V>>, capacity: nat)
    requires s.Valid() && Sized(s, capacity)
    ensures StoreRun(s, ops).Valid() && Sized(StoreRun(s, ops), capacity)
    decreases |ops|
  {
    hide StoreStep, Sized, Store.Valid;
    if ops != [] {
      StoreStepKeepsValid(s, ops[0]);
      StepKeepsSized(s, ops[0], capacity);
      RunKeepsSized(StoreStep(s, ops[0]), ops[1..], capacity);
    }
  }

  /** The newest part of a list: all of it, or as much as there is room for. */
  predicate NewestOf<T(==)>(kept: seq<T>, all: seq<T>, room: nat) {
    IsSuffix(kept, all) && |kept| == if |all| < room then |all| else room
  }

  lemma PushIsNewest<T>(r: Ring<T>, x: T, t: int)
    requires r.Valid()
    ensures NewestOf(Step(r, Push(x, t)).contents, r.contents + [Stamped(x, t)], r.capacity)
  {
    PushStep(r, x, t);
    DroppingKeepsSuffix(r.contents + [Stamped(x, t)], 1, r.contents + [Stamped(x, t)]);
  }

  /** A save in any valid state: the main ring keeps the newest of what it held and the sample, as does
      the ring of the key, which is created when there is none; the other keys are untouched. */
  lemma {:induction false} SaveRetains<K, V>(s: Store<K, V>, capacity: nat, k: K, v: V, t: int, j: K)
    requires s.Valid() && Sized(s, capacity)
    ensures var n, x := StoreStep(s, Save(k, v, t)), Stamped(Keyed(k, v), t);
      && NewestOf(n.main.contents, s.main.contents + [x], capacity)
      && NewestOf(n.Indexed(k), s.Indexed(k) + [x], 1000)
      && (j != k ==> n.Indexed(j) == s.Indexed(j))
  {
    var x, r := Keyed(k, v), RingFor(s, k);
    assert r.Valid() && r.capacity == 1000 && r.contents == s.Indexed(k);
    hide Step, NewestOf, Ring.Valid, Store.Valid, Sized;
    PushIsNewest(s.main, x, t);
    PushIsNewest(r, x, t);
    assert StoreStep(s, Save(k, v, t)).Indexed(k) == Step(r, Push(x, t)).contents;
  }

  lemma NewestSnoc<T>(kept: seq<T>, more: seq<T>, all: seq<T>, x: T, room: nat)
    requires NewestOf(kept, all, room) && NewestOf(more, kept + [x], room) && room > 0
    ensures NewestOf(more, all + [x], room)
  {
    var n := |all + [x]|;
    assert (kept + [x])[|kept| + 1 - |more|..] == (all + [x])[n - |more|..];
  }

  /** Over every run of saves alone, with any timestamps: the main ring holds the newest saves, as many
      as it has room for, and the query by key reads the newest thousand of the key's saves. */
  lemma {:induction false} SavesAreRetained<K, V>(capacity: int, ops: seq<Op<K, V>>, k: K)
    requires forall i :: 0 <= i < |ops| ==> ops[i].Save?
    ensures var s, room := StoreRun(Empty(capacity), ops), if capacity <= 0 then 1000 else capacity;
      && NewestOf(s.main.contents, Saved(ops), room)
      && NewestOf(s.Indexed(k), OfKey(Saved(ops), k), 1000)
  {
    var room: nat := if capacity <= 0 then 1000 else capacity;
    RetainedFrom(Empty(capacity), [], ops, room, k);
    assert [] + Saved(ops) == Saved(ops);
  }

  lemma {:induction false} RetainedFrom<K, V>(
      s: Store<K, V>, before: seq<Stamped<Keyed<K, V>>>, ops: seq<Op<K, V>>, room: nat, k: K)
    requires s.Valid() && Sized(s, room) && room > 0 && forall i :: 0 <= i < |ops| ==> ops[i].Save?
    requires NewestOf(s.main.contents, before, room) && NewestOf(s.Indexed(k), OfKey(before, k), 1000)
    ensures var n := StoreRun(s, ops);
      && NewestOf(n.main.contents, before + Saved(ops), room)
      && NewestOf(n.Indexed(k), OfKey(before + Saved(ops), k), 1000)
    decreases |ops|
  {
    hide NewestOf, StoreStep, Store.Indexed, Store.Valid, Sized, OfKey, Saved;
    SavedCons(ops);
    if ops == [] {
      assert before + Saved(ops) == before;
    } else {
      var op := ops[0];
      var x := Stamped(Keyed(op.key, op.value), op.time);
      StoreStepKeepsValid(s, op);
      StepKeepsSized(s, op, room);
      RetainedOnce(s, before, room, op.key, op.value, op.time, k);
      RetainedFrom(StoreStep(s, op), before + [x], ops[1..], room, k);
      assert before + Saved(ops) == (before + [x]) + Saved(ops[1..]);
    }
  }

  lemma SavedCons<K, V>(ops: seq<Op<K, V>>)
    ensures ops == [] ==> Saved(ops) == []
    ensures ops != [] && ops[0].Save? ==>
              Saved(ops) == [Stamped(Keyed(ops[0].key, ops[0].value), ops[0].time)] + Saved(ops[1..])
  {
  }

  lemma {:induction false} RetainedOnce<K, V>(
      s: Store<K, V>, before: seq<Stamped<Keyed<K, V>>>, room: nat, j: K, v: V, t: int, k: K)
    requires s.Valid() && Sized(s, room) && room > 0
    requires NewestOf(s.main.contents, before, room) && NewestOf(s.Indexed(k), OfKey(before, k), 1000)
    ensures var n, x := StoreStep(s, Save(j, v, t)), Stamped(Keyed(j, v), t);
      && NewestOf(n.main.contents, before + [x], room)
      && NewestOf(n.Indexed(k), OfKey(before + [x], k), 1000)
  {
    hide NewestOf, StoreStep, Store.Indexed, Store.Valid, Sized, OfKey;
    var n, x := StoreStep(s, Save(j, v, t)), Stamped(Keyed(j, v), t);
    SaveRetains(s, room, j, v, t, k);
    NewestSnoc(s.main.contents, n.main.contents, before, x, room);
    OfKeySnoc(before, x, k);
    if j == k {
      NewestSnoc(s.Indexed(k), n.Indexed(k), OfKey(before, k), x, 1000);
    } else {
      assert OfKey(before, k) + [] == OfKey(before, k);
    }
  }

  // ---- Saves in time order ----

  /** With saves in time order: a key without an index entry has no sample left in the main ring,
      and a key whose samples were never overwritten is held alike by both rings. */
  ghost predicate Agrees<K(!new), V>(s: Store<K, V>) {
    && s.Valid() && Sorted(s.log)
    && (forall k :: k !in s.index ==> OfKey(s.main.contents, k) == [])
    && (forall k :: s.main.overwritten == 0 && (k in s.index ==> s.index[k].overwritten == 0) ==>
          s.Indexed(k) == OfKey(s.main.contents, k))
  }

  lemma {:induction false} PushOfKey<K, V>(r: Ring<Keyed<K, V>>, x: Keyed<K, V>, t: int, k: K)
    requires r.Valid()
    ensures var grown := OfKey(r.contents, k) + if x.key == k then [Stamped(x, t)] else [];
      && IsSuffix(OfKey(Step(r, Push(x, t)).contents, k), grown)
      && (Step(r, Push(x, t)).overwritten == 0 ==> OfKey(Step(r, Push(x, t)).contents, k) == grown)
  {
    var y := Stamped(x, t);
    OfKeySnoc(r.contents, y, k);
    if |r.contents| == r.capacity {
      DroppingKeepsSuffix(r.contents + [y], 1, r.contents + [y]);
      OfKeySuffix((r.contents + [y])[1..], r.contents + [y], k);
    }
  }

  lemma SaveKeepsAgreement<K(!new), V>(s: Store<K, V>, k: K, v: V, t: int)
    requires Agrees(s)
    requires Sorted(s.log + [Stamped(Keyed(k, v), t)])
    ensures Agrees(SaveStep(s, k, v, t))
  {
    var n := SaveStep(s, k, v, t);
    SaveKeepsValid(s, k, v, t);
    forall j ensures j !in n.index ==> OfKey(n.main.contents, j) == [] {
      PushOfKey(s.main, Keyed(k, v), t, j);
    }
    forall j | n.main.overwritten == 0 && (j in n.index ==> n.index[j].overwritten == 0)
      ensures n.Indexed(j) == OfKey(n.main.contents, j)
    {
      PushOfKey(s.main, Keyed(k, v), t, j);
      assert s.Indexed(j) == OfKey(s.main.contents, j);
    }
  }

  /** Eviction commutes with restriction to a key, when the samples are in time order. */
  lemma {:induction false} EvictMainOfKey<K, V>(s: Store<K, V>, before: int, k: K)
    requires s.Valid() && Sorted(s.log)
    ensures Step(s.main, Evict(before)).contents == NotOlder(s.main.contents, before)
    ensures OfKey(Step(s.main, Evict(before)).contents, k) == NotOlder(OfKey(s.main.contents, k), before)
  {
    SuffixSorted(s.main.contents, s.log);
    EvictionIsExact(s.main.contents, before);
    OfKeyNotOlder(s.main.contents, k, before);
  }

  lemma {:induction false} EvictIndexOfKey<K, V>(s: Store<K, V>, before: int, k: K)
    requires s.Valid() && Sorted(s.log)
    ensures k in s.index ==> Step(s.index[k], Evict(before)).contents == NotOlder(s.index[k].contents, before)
    ensures DeleteStep(s, before).Indexed(k) == NotOlder(s.Indexed(k), before)
    ensures k in DeleteStep(s, before).index <==> NotOlder(s.Indexed(k), before) != []
  {
    if k in s.index {
      OfKeySorted(s.log, k);
      SuffixSorted(s.index[k].contents, OfKey(s.log, k));
      EvictionIsExact(s.index[k].contents, before);
    }
  }

  lemma {:induction false} NotOlderNone<T>(s: seq<Stamped<T>>, cutoff: int)
    requires forall i :: 0 <= i < |s| ==> s[i].time < cutoff
    ensures NotOlder(s, cutoff) == []
  {
    if s != [] {
      NotOlderNone(s[1..], cutoff);
    }
  }

  /** If the newest sample of a key is too old then all of them are. */
  lemma AllOld<T>(r: seq<Stamped<T>>, other: seq<Stamped<T>>, log: seq<Stamped<T>>, before: int)
    requires Sorted(log) && IsSuffix(r, log) && IsSuffix(other, log)
    requires r != [] && NotOlder(r, before) == []
    ensures NotOlder(other, before) == []
  {
    assert r[|r| - 1] in r && r[|r| - 1] == log[|log| - 1];
    assert r[|r| - 1].time < before;
    forall i | 0 <= i < |other| ensures other[i].time < before {
      assert other[i] == log[|log| - |other| + i];
    }
    NotOlderNone(other, before);
  }

  lemma {:induction false} DeleteKeepsAgreement<K(!new), V>(s: Store<K, V>, before: int)
    requires Agrees(s)
    ensures Agrees(DeleteStep(s, before))
  {
    var n := DeleteStep(s, before);
    DeleteKeepsValid(s, before);
    forall k ensures k !in n.index ==> OfKey(n.main.contents, k) == [] {
      EvictMainOfKey(s, before, k);
      EvictIndexOfKey(s, before, k);
      if k in s.index && k !in n.index {
        OfKeySuffix(s.main.contents, s.log, k);
        OfKeySorted(s.log, k);
        AllOld(s.index[k].contents, OfKey(s.main.contents, k), OfKey(s.log, k), before);
      }
    }
    forall k | n.main.overwritten == 0 && (k in n.index ==> n.index[k].overwritten == 0)
      ensures n.Indexed(k) == OfKey(n.main.contents, k)
    {
      EvictMainOfKey(s, before, k);
      EvictIndexOfKey(s, before, k);
    }
  }

  lemma CloseKeepsAgreement<K(!new), V>(s: Store<K, V>)
    requires Agrees(s)
    ensures Agrees(CloseStep(s))
  {
    StepKeepsValid(s.main, Clear);
  }

  function Saved<K, V>(ops: seq<Op<K, V>>): seq<Stamped<Keyed<K, V>>> {
    if ops == [] then []
    else (if ops[0].Save? then [Stamped(Keyed(ops[0].key, ops[0].value), ops[0].time)] else []) + Saved(ops[1..])
  }

  lemma {:induction false} RunKeepsAgreement<K(!new), V>(s: Store<K, V>, ops: seq<Op<K, V>>)
    requires Agrees(s) && Sorted(s.log + Saved(ops))
    ensures Agrees(StoreRun(s, ops))
    ensures StoreRun(s, ops).log == s.log + Saved(ops)
    decreases |ops|
  {
    if ops == [] {
      assert s.log + Saved(ops) == s.log;
    } else {
      var next := StoreStep(s, ops[0]);
      assert next.log + Saved(ops[1..]) == s.log + Saved(ops);
      match ops[0] {
        case Save(k, v, t) =>
          assert Sorted(next.log) by {
            forall i, j | 0 <= i < j < |next.log| ensures next.log[i].time <= next.log[j].time {
              assert next.log[i] == (s.log + Saved(ops))[i] && next.log[j] == (s.log + Saved(ops))[j];
            }
          }
          SaveKeepsAgreement(s, k, v, t);
        case DeleteOld(before) => DeleteKeepsAgreement(s, before);
        case Close => CloseKeepsAgreement(s);
      }
      RunKeepsAgreement(next, ops[1..]);
    }
  }

  lemma ReachableAgrees<K(!new), V>(capacity: int, ops: seq<Op<K, V>>)
    requires Sorted(Saved(ops))
    ensures Agrees(StoreRun(Empty(capacity), ops))
  {
    assert Empty<K, V>(capacity).log + Saved(ops) == Saved(ops);
    RunKeepsAgreement(Empty(capacity), ops);
  }

  /** With saves in time order, over any run of saves, retention passes (which may delete and later
      re-create index entries) and closes: as long as neither ring has overwritten a sample, the
      answer by index is the answer by scan restricted to the key. */
  lemma {:induction false} IndexEqualsScan<K(!new), V>(capacity: int, ops: seq<Op<K, V>>, k: K, start: int, end: int)
    requires Sorted(Saved(ops)) && start <= end
    ensures var s := StoreRun(Empty(capacity), ops);
      s.main.overwritten == 0 && (k in s.index ==> s.index[k].overwritten == 0) ==>
        var scanned := QueryAnswer(s.main.contents, start, end);
        scanned.Items? && QueryAnswer(s.Indexed(k), start, end) == Items(OfKey(scanned.items, k))
  {
    ReachableAgrees(capacity, ops);
    var s := StoreRun(Empty(capacity), ops);
    if s.main.overwritten == 0 && (k in s.index ==> s.index[k].overwritten == 0) {
      SuffixSorted(s.main.contents, s.log);
      QueryAnswerExact(s.main.contents, start, end);
      OfKeySorted(s.main.contents, k);
      assert s.Indexed(k) == OfKey(s.main.contents, k);
      QueryAnswerExact(s.Indexed(k), start, end);
      OfKeyInRange(s.main.contents, k, TimeRange(start, end));
    }
  }

  lemma LatestOfSuffix<T>(r: seq<Stamped<T>>, log: seq<Stamped<T>>)
    requires IsSuffix(r, log) && r != []
    ensures LatestAnswer(r, 1) == Items([log[|log| - 1]])
  {
  }

  lemma SavedNext<K, V>(s: Store<K, V>, op: Op<K, V>, rest: seq<Op<K, V>>)
    ensures s.log + Saved([op] + rest) == StoreStep(s, op).log + Saved(rest)
  {
    assert ([op] + rest)[1..] == rest;
    hide Step, EvictAll;
  }

  lemma {:induction false} LogIsSaved<K, V>(s: Store<K, V>, ops: seq<Op<K, V>>)
    ensures StoreRun(s, ops).log == s.log + Saved(ops)
    decreases |ops|
  {
    if ops == [] {
      assert s.log + Saved(ops) == s.log;
    } else {
      assert ops == [ops[0]] + ops[1..];
      SavedNext(s, ops[0], ops[1..]);
      hide Saved, StoreStep;
      LogIsSaved(StoreStep(s, ops[0]), ops[1..]);
    }
  }

  /** Over every run, whatever the timestamps: the latest-sample query answers with nothing or with the
      last sample ever saved for the key. */
  lemma {:induction false} LatestIsNoneOrLastSaved<K, V>(capacity: int, ops: seq<Op<K, V>>, k: K)
    ensures var latest, saved := LatestAnswer(StoreRun(Empty(capacity), ops).Indexed(k), 1), OfKey(Saved(ops), k);
      latest == Items([]) || (saved != [] && latest == Items([saved[|saved| - 1]]))
  {
    StoreRunKeepsValid(Empty(capacity), ops);
    LogIsSaved(Empty(capacity), ops);
    assert Empty<K, V>(capacity).log + Saved(ops) == Saved(ops);
    var s := StoreRun(Empty(capacity), ops);
    if k in s.index {
      LatestOfSuffix(s.index[k].contents, OfKey(s.log, k));
    }
  }

  /** With saves in time order: while the main ring still holds a sample of a key, the latest-sample
      query for that key answers with the last sample ever saved for it. */
  lemma {:induction false} LatestIsLastSaved<K(!new), V>(capacity: int, ops: seq<Op<K, V>>, k: K)
    requires Sorted(Saved(ops))
    requires OfKey(StoreRun(Empty(capacity), ops).main.contents, k) != []
    ensures var s := StoreRun(Empty(capacity), ops);
      var saved := OfKey(s.log, k);
      saved != [] && LatestAnswer(s.Indexed(k), 1) == Items([saved[|saved| - 1]])
  {
    ReachableAgrees(capacity, ops);
    var s := StoreRun(Empty(capacity), ops);
    assert k in s.index;
    LatestOfSuffix(s.index[k].contents, OfKey(s.log, k));
  }

  /** With saves in time order, a retention pass keeps exactly the samples not older than the
      cutoff, in the main ring and in every index ring, and drops the entries left empty. */
  lemma {:induction false} DeletionIsExact<K(!new), V>(capacity: int, ops: seq<Op<K, V>>, before: int, k: K)
    requires Sorted(Saved(ops))
    ensures var s := StoreRun(Empty(capacity), ops);
      var n := StoreStep(s, DeleteOld(before));
      && n.main.contents == NotOlder(s.main.contents, before)
      && n.Indexed(k) == NotOlder(s.Indexed(k), before)
      && (k in n.index <==> NotOlder(s.Indexed(k), before) != [])
  {
    ReachableAgrees(capacity, ops);
    var s := StoreRun(Empty(capacity), ops);
    EvictMainOfKey(s, before, k);
    EvictIndexOfKey(s, before, k);
  }
}
