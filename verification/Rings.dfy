/** The bounded time series that a ring buffer stands for: what each operation does to it,
    what every run keeps, and what a range query means
    (internal/infrastructure/storage/ringbuffer.go). */
module Rings {
  import opened Basics
  import opened TimeRanges

  datatype Stamped<T> = Stamped(item: T, time: int)

  datatype RingOp<T> =
    | Push(item: T, time: int)
    | Pop
    | Evict(cutoff: int)
    | Clear
    | Resize(newCapacity: int)

  /** The retained samples, everything ever pushed, and where the lost samples went. */
  datatype Ring<T> = Ring(
    capacity: nat,
    contents: seq<Stamped<T>>,
    history: seq<Stamped<T>>,
    overwritten: nat,
    popped: nat,
    evicted: nat,
    cleared: nat,
    dropped: nat)
  {
    ghost predicate Valid() {
      && 0 < capacity
      && |contents| <= capacity
      && IsSuffix(contents, history)
      && |history| == overwritten + popped + evicted + cleared + dropped + |contents|
    }
  }

  const DEFAULT_CAPACITY: nat := 1000

  function Fresh<T>(capacity: int): (r: Ring<T>)
    ensures r.Valid() && r.contents == []
  {
    Ring(if capacity <= 0 then DEFAULT_CAPACITY else capacity, [], [], 0, 0, 0, 0, 0)
  }

  /** How many samples at the front are older than the cutoff. */
  function OldPrefix<T>(s: seq<Stamped<T>>, cutoff: int): (n: nat)
    ensures n <= |s|
    ensures forall i :: 0 <= i < n ==> s[i].time < cutoff
    ensures n < |s| ==> s[n].time >= cutoff
  {
    if s == [] || !(s[0].time < cutoff) then 0 else 1 + OldPrefix(s[1..], cutoff)
  }

  function LastN<T>(s: seq<T>, n: nat): seq<T> {
    if n <= |s| then s[|s| - n..] else s
  }

  function Step<T>(r: Ring<T>, op: RingOp<T>): Ring<T> {
    match op
    case Push(item, time) =>
      var x := Stamped(item, time);
      if |r.contents| < r.capacity then
        r.(contents := r.contents + [x], history := r.history + [x])
      else
        r.(contents := LastN(r.contents + [x], |r.contents|), history := r.history + [x],
           overwritten := r.overwritten + 1)
    case Pop =>
      if r.contents == [] then r else r.(contents := r.contents[1..], popped := r.popped + 1)
    case Evict(cutoff) =>
      var n := OldPrefix(r.contents, cutoff);
      r.(contents := r.contents[n..], evicted := r.evicted + n)
    case Clear =>
      r.(contents := [], cleared := r.cleared + |r.contents|)
    case Resize(newCapacity) =>
      if newCapacity <= 0 || newCapacity == r.capacity then r
      else
        var kept := LastN(r.contents, newCapacity);
        r.(capacity := newCapacity, contents := kept, dropped := r.dropped + |r.contents| - |kept|)
  }

  function Run<T>(r: Ring<T>, ops: seq<RingOp<T>>): Ring<T>
    decreases |ops|
  {
    if ops == [] then r else Run(Step(r, ops[0]), ops[1..])
  }

  function Pushed<T>(op: RingOp<T>): seq<Stamped<T>> {
    if op.Push? then [Stamped(op.item, op.time)] else []
  }

  function Pushes<T>(ops: seq<RingOp<T>>): seq<Stamped<T>> {
    if ops == [] then [] else Pushed(ops[0]) + Pushes(ops[1..])
  }

  lemma DroppingKeepsSuffix<T>(a: seq<T>, n: nat, b: seq<T>)
    requires IsSuffix(a, b) && n <= |a|
    ensures IsSuffix(a[n..], b)
  {
    assert a[n..] == b[|b| - |a| + n..];
  }

  lemma AppendKeepsSuffix<T>(a: seq<T>, x: T, b: seq<T>)
    requires IsSuffix(a, b)
    ensures IsSuffix(a + [x], b + [x])
  {
    assert (b + [x])[|b| - |a|..] == b[|b| - |a|..] + [x];
  }

  lemma StepKeepsValid<T>(r: Ring<T>, op: RingOp<T>)
    requires r.Valid()
    ensures Step(r, op).Valid()
    ensures Step(r, op).history == r.history + Pushed(op)
  {
    hide IsSuffix, OldPrefix;
    match op
    case Push(item, time) =>
      var x := Stamped(item, time);
      AppendKeepsSuffix(r.contents, x, r.history);
      DroppingKeepsSuffix(r.contents + [x], 1, r.history + [x]);
    case Pop =>
      if r.contents != [] {
        DroppingKeepsSuffix(r.contents, 1, r.history);
      }
    case Evict(cutoff) =>
      DroppingKeepsSuffix(r.contents, OldPrefix(r.contents, cutoff), r.history);
    case Clear =>
      DroppingKeepsSuffix(r.contents, |r.contents|, r.history);
    case Resize(newCapacity) =>
      if 0 < newCapacity < |r.contents| {
        DroppingKeepsSuffix(r.contents, |r.contents| - newCapacity, r.history);
      }
  }

  function Min(a: int, b: int): int {
    if a < b then a else b
  }

  /** How much each operation leaves. As the ring is always the newest part of its history, this
      says exactly which samples are left. */
  lemma StepKeepsHowMany<T>(r: Ring<T>, op: RingOp<T>)
    requires r.Valid()
    ensures |Step(r, op).contents| ==
            match op
            case Push(_, _) => Min(|r.contents| + 1, r.capacity)
            case Pop => if r.contents == [] then 0 else |r.contents| - 1
            case Evict(cutoff) => |r.contents| - OldPrefix(r.contents, cutoff)
            case Clear => 0
            case Resize(n) => if n <= 0 then |r.contents| else Min(|r.contents|, n)
    ensures Step(r, op).contents == LastN(Step(r, op).history, |Step(r, op).contents|)
  {
    StepKeepsValid(r, op);
  }

  /** Each operation adds to its own kind of loss, and only Resize changes the capacity. */
  lemma StepCountsLosses<T>(r: Ring<T>, op: RingOp<T>)
    requires r.Valid()
    ensures var n := Step(r, op);
      && n.overwritten - r.overwritten == (if op.Push? && |r.contents| == r.capacity then 1 else 0)
      && n.popped - r.popped == (if op.Pop? && r.contents != [] then 1 else 0)
      && (!op.Evict? ==> n.evicted == r.evicted)
      && n.cleared - r.cleared == (if op.Clear? then |r.contents| else 0)
      && n.dropped - r.dropped ==
         (if op.Resize? && 0 < op.newCapacity < |r.contents| then |r.contents| - op.newCapacity else 0)
      && n.capacity == if op.Resize? && op.newCapacity > 0 then op.newCapacity else r.capacity
  {
    hide IsSuffix, OldPrefix;
  }

  lemma PushStep<T>(r: Ring<T>, item: T, time: int)
    requires r.Valid()
    ensures var n, grown := Step(r, Push(item, time)), r.contents + [Stamped(item, time)];
      && n.Valid() && n.capacity == r.capacity && |n.history| == |r.history| + 1
      && n.contents == if |r.contents| < r.capacity then grown else LastN(grown, |r.contents|)
  {
    StepKeepsValid(r, Push(item, time));
  }

  lemma EvictStep<T>(r: Ring<T>, cutoff: int)
    requires r.Valid()
    ensures var n := Step(r, Evict(cutoff));
      && n.Valid() && n.capacity == r.capacity && n.history == r.history
      && n.contents == r.contents[OldPrefix(r.contents, cutoff)..]
  {
    StepKeepsValid(r, Evict(cutoff));
  }

  lemma ResizeStep<T>(r: Ring<T>, newCapacity: int)
    requires r.Valid()
    ensures var n := Step(r, Resize(newCapacity));
      && n.Valid() && n.history == r.history
      && if newCapacity <= 0 || newCapacity == r.capacity then n == r
         else n.capacity == newCapacity && n.contents == LastN(r.contents, newCapacity) && |n.contents| <= newCapacity
  {
    StepKeepsValid(r, Resize(newCapacity));
  }

  lemma LastNFrom<T>(s: seq<T>, n: nat, from: nat)
    requires from == if |s| > n then |s| - n else 0
    ensures s[from..] == LastN(s, n)
  {
  }

  /** Over every run: the ring holds a contiguous suffix of what was pushed, never more than its
      capacity, and every push is either still held or counted under exactly one kind of loss. */
  lemma {:induction false} RunKeepsValid<T>(r: Ring<T>, ops: seq<RingOp<T>>)
    requires r.Valid()
    ensures Run(r, ops).Valid()
    ensures Run(r, ops).history == r.history + Pushes(ops)
    decreases |ops|
  {
    if ops == [] {
      assert r.history + Pushes(ops) == r.history;
    } else {
      hide Step, Ring.Valid;
      StepKeepsValid(r, ops[0]);
      RunKeepsValid(Step(r, ops[0]), ops[1..]);
      assert (r.history + Pushed(ops[0])) + Pushes(ops[1..]) == r.history + (Pushed(ops[0]) + Pushes(ops[1..]));
    }
  }

  lemma {:induction false} PushKeepsNewest<T>(r: Ring<T>, op: RingOp<T>)
    requires r.Valid() && r.contents == LastN(r.history, r.capacity) && op.Push?
    ensures var next := Step(r, op);
      && next.Valid() && next.capacity == r.capacity && next.history == r.history + Pushed(op)
      && next.contents == LastN(next.history, next.capacity)
  {
    StepKeepsValid(r, op);
  }

  /** With no removal in between, a ring is exactly the newest `capacity` samples pushed. */
  lemma {:induction false} PushOnlyKeepsNewest<T>(r: Ring<T>, ops: seq<RingOp<T>>)
    requires r.Valid() && r.contents == LastN(r.history, r.capacity)
    requires forall i :: 0 <= i < |ops| ==> ops[i].Push?
    ensures Run(r, ops).contents == LastN(r.history + Pushes(ops), r.capacity)
    decreases |ops|
  {
    if ops == [] {
      assert r.history + Pushes(ops) == r.history;
    } else {
      hide Step, LastN;
      PushKeepsNewest(r, ops[0]);
      PushOnlyKeepsNewest(Step(r, ops[0]), ops[1..]);
      assert (r.history + Pushed(ops[0])) + Pushes(ops[1..]) == r.history + (Pushed(ops[0]) + Pushes(ops[1..]));
    }
  }

  // ---- Range queries ----

  predicate Sorted<T>(s: seq<Stamped<T>>) {
    forall i, j :: 0 <= i < j < |s| ==> s[i].time <= s[j].time
  }

  /** The meaning of a range query: the samples that lie in the range, in order. */
  function InRange<T>(s: seq<Stamped<T>>, range: TimeRange): (r: seq<Stamped<T>>)
    ensures forall x :: x in r ==> x in s && range.Contains(x.time)
    ensures forall x :: x in s && range.Contains(x.time) ==> x in r
    ensures |r| <= |s|
  {
    if s == [] then [] else
      var rest := InRange(s[1..], range);
      assert forall x :: x in s ==> x == s[0] || x in s[1..];
      if range.Contains(s[0].time) then [s[0]] + rest else rest
  }

  lemma {:induction false} InRangeConcat<T>(a: seq<Stamped<T>>, b: seq<Stamped<T>>, range: TimeRange)
    ensures InRange(a + b, range) == InRange(a, range) + InRange(b, range)
  {
    if a == [] {
      assert a + b == b;
    } else {
      assert (a + b)[1..] == a[1..] + b;
      InRangeConcat(a[1..], b, range);
    }
  }

  lemma InRangeNext<T>(s: seq<Stamped<T>>, range: TimeRange, i: nat)
    requires i < |s|
    ensures InRange(s[..i + 1], range)
         == InRange(s[..i], range) + if range.Contains(s[i].time) then [s[i]] else []
  {
    assert s[..i + 1] == s[..i] + [s[i]];
    InRangeConcat(s[..i], [s[i]], range);
    assert [s[i]][1..] == [];
  }

  lemma SliceSplit<T>(s: seq<T>, last: nat)
    requires 0 < last <= |s|
    ensures s[0..last] == [s[0]] + s[1..][0..last - 1]
  {
  }

  lemma {:induction false} InRangeIsSlice<T>(s: seq<Stamped<T>>, range: TimeRange, first: nat, last: nat)
    requires first <= last <= |s|
    requires forall i :: 0 <= i < |s| ==> (range.Contains(s[i].time) <==> first <= i < last)
    ensures InRange(s, range) == s[first..last]
  {
    if s != [] {
      if 0 < first {
        InRangeIsSlice(s[1..], range, first - 1, last - 1);
        assert s[1..][first - 1..last - 1] == s[first..last];
      } else if 0 < last {
        InRangeIsSlice(s[1..], range, 0, last - 1);
        SliceSplit(s, last);
      } else {
        InRangeIsSlice(s[1..], range, 0, 0);
      }
    }
  }

  /** A query answered on a suffix is a suffix of the query answered on the whole. */
  lemma InRangeOfSuffix<T>(a: seq<Stamped<T>>, b: seq<Stamped<T>>, range: TimeRange)
    requires IsSuffix(a, b)
    ensures IsSuffix(InRange(a, range), InRange(b, range))
  {
    SuffixSplit(a, b);
    InRangeConcat(b[..|b| - |a|], a, range);
  }

  /** The two tests handed to the binary search. */
  datatype Bound = NotBefore(at: int) | After(at: int) {
    predicate Holds(t: int) {
      match this
      case NotBefore(at) => !(t < at)
      case After(at) => t > at
    }
  }

  /** Go's sort.Search. On any input it stops at a place where the test changes from false to
      true; only on sorted input is that the first place. */
  function Search<T>(s: seq<Stamped<T>>, b: Bound, lo: nat, hi: nat): (r: nat)
    requires lo <= hi <= |s|
    ensures lo <= r <= hi
    ensures lo < r ==> !b.Holds(s[r - 1].time)
    ensures r < hi ==> b.Holds(s[r].time)
    decreases hi - lo
  {
    if lo == hi then lo else
      var mid := (lo + hi) / 2;
      if b.Holds(s[mid].time) then Search(s, b, lo, mid) else Search(s, b, mid + 1, hi)
  }

  /** What a query does: it answers, or the slice allocation panics on a negative size. */
  datatype Answer<+T> = Items(items: seq<T>) | Panics

  function BinaryAnswer<T>(s: seq<Stamped<T>>, start: int, end: int): Answer<Stamped<T>> {
    var first := Search(s, NotBefore(start), 0, |s|);
    if first >= |s| then Items([]) else
      var last := Search(s, After(end), 0, |s|);
      if last < first then Panics else Items(s[first..last])
  }

  const LINEAR_LIMIT: nat := 100

  function QueryAnswer<T>(s: seq<Stamped<T>>, start: int, end: int): Answer<Stamped<T>> {
    if |s| < LINEAR_LIMIT then Items(InRange(s, TimeRange(start, end))) else BinaryAnswer(s, start, end)
  }

  lemma SortedSearchCuts<T>(s: seq<Stamped<T>>, b: Bound, r: nat)
    requires Sorted(s) && r == Search(s, b, 0, |s|)
    ensures forall i :: 0 <= i < |s| ==> (b.Holds(s[i].time) <==> r <= i)
  {
    forall i | 0 <= i < |s| ensures b.Holds(s[i].time) <==> r <= i {
      if i < r {
        assert !b.Holds(s[r - 1].time) && s[i].time <= s[r - 1].time;
      } else {
        assert b.Holds(s[r].time) && s[r].time <= s[i].time;
      }
    }
  }

  predicate HasSince<T>(s: seq<Stamped<T>>, start: int) {
    exists i :: 0 <= i < |s| && s[i].time >= start
  }

  predicate HasBetween<T>(s: seq<Stamped<T>>, end: int, start: int) {
    exists i :: 0 <= i < |s| && end < s[i].time < start
  }

  /** On sorted samples the binary path answers with exactly the samples of the range, for every
      start and end, except that it panics when the range is inverted across a stored sample and
      a sample at or after its start exists. */
  lemma {:induction false} SortedBinaryAnswer<T>(s: seq<Stamped<T>>, start: int, end: int)
    requires Sorted(s)
    ensures BinaryAnswer(s, start, end) ==
            if HasSince(s, start) && HasBetween(s, end, start) then Panics
            else Items(InRange(s, TimeRange(start, end)))
  {
    var first := Search(s, NotBefore(start), 0, |s|);
    var last := Search(s, After(end), 0, |s|);
    SortedSearchCuts(s, NotBefore(start), first);
    SortedSearchCuts(s, After(end), last);
    if first >= |s| {
      InRangeIsSlice(s, TimeRange(start, end), 0, 0);
    } else if last < first {
      assert NotBefore(start).Holds(s[first].time) && end < s[last].time < start;
    } else {
      InRangeIsSlice(s, TimeRange(start, end), first, last);
    }
  }

  /** A filter that keeps a tail of the sequence keeps exactly the positions of that tail. */
  lemma {:induction false} InRangeEqualsTail<T>(s: seq<Stamped<T>>, range: TimeRange, k: nat, i: nat)
    requires k <= |s| && InRange(s, range) == s[k..]
    requires k <= i < |s|
    ensures range.Contains(s[i].time)
  {
    assert s[i] == s[k..][i - k];
    assert s[i] in InRange(s, range);
  }

  lemma {:induction false} InRangeLengthBound<T>(s: seq<Stamped<T>>, range: TimeRange, k: nat, i: nat)
    requires k <= |s| && |InRange(s, range)| == |s| - k
    requires forall j :: k <= j < |s| ==> range.Contains(s[j].time)
    requires i < k
    ensures !range.Contains(s[i].time)
  {
    assert s == s[..k] + s[k..];
    InRangeConcat(s[..k], s[k..], range);
    InRangeIsSlice(s[k..], range, 0, |s| - k);
    assert s[i] in s[..k];
  }

  function Latest<T>(s: seq<Stamped<T>>, floor: int): (m: int)
    ensures m >= floor
    ensures forall i :: 0 <= i < |s| ==> s[i].time <= m
  {
    if s == [] then floor else
      var m := Latest(s[1..], floor);
      assert forall i :: 1 <= i < |s| ==> s[i].time == s[1..][i - 1].time;
      if s[0].time > m then s[0].time else m
  }

  ghost predicate Exact<T>(s: seq<Stamped<T>>, start: int, end: int) {
    BinaryAnswer(s, start, end) == Items(InRange(s, TimeRange(start, end)))
  }

  lemma AfterLatest<T>(s: seq<Stamped<T>>, end: int)
    requires forall i :: 0 <= i < |s| ==> s[i].time <= end
    ensures Search(s, After(end), 0, |s|) == |s|
  {
  }

  /** Where the answer to [time of sample i, latest time] starts. */
  lemma {:induction false} TailAnswered<T>(s: seq<Stamped<T>>, i: nat) returns (first: nat)
    requires i < |s| && Exact(s, s[i].time, Latest(s, s[i].time))
    ensures first <= |s| && InRange(s, TimeRange(s[i].time, Latest(s, s[i].time))) == s[first..]
  {
    assert s[i] in InRange(s, TimeRange(s[i].time, Latest(s, s[i].time)));
    first := Search(s, NotBefore(s[i].time), 0, |s|);
    AfterLatest(s, Latest(s, s[i].time));
    assert s[first..|s|] == s[first..];
  }

  lemma {:induction false} ExactImpliesOrdered<T>(s: seq<Stamped<T>>, i: nat, j: nat)
    requires i < j < |s| && Exact(s, s[i].time, Latest(s, s[i].time))
    ensures s[i].time <= s[j].time
  {
    var range := TimeRange(s[i].time, Latest(s, s[i].time));
    var first := TailAnswered(s, i);
    forall k | first <= k < |s| ensures range.Contains(s[k].time) {
      InRangeEqualsTail(s, range, first, k);
    }
    if i < first {
      InRangeLengthBound(s, range, first, i);
    }
    InRangeEqualsTail(s, range, first, j);
  }

  /** The binary path is right about every well-formed range exactly when the samples are sorted. */
  lemma BinaryAnswerExactIffSorted<T>(s: seq<Stamped<T>>)
    ensures Sorted(s) <==> forall start, end :: start <= end ==> Exact(s, start, end)
  {
    if Sorted(s) {
      forall start, end | start <= end ensures Exact(s, start, end) {
        SortedBinaryAnswer(s, start, end);
      }
    } else if forall start, end :: start <= end ==> Exact(s, start, end) {
      forall i, j | 0 <= i < j < |s| ensures s[i].time <= s[j].time {
        assert Exact(s, s[i].time, Latest(s, s[i].time));
        ExactImpliesOrdered(s, i, j);
      }
    }
  }

  /** Below the limit, or on sorted samples, a well-formed query is answered exactly. */
  lemma {:induction false} QueryAnswerExact<T>(s: seq<Stamped<T>>, start: int, end: int)
    requires start <= end && (|s| < LINEAR_LIMIT || Sorted(s))
    ensures QueryAnswer(s, start, end) == Items(InRange(s, TimeRange(start, end)))
  {
    if |s| >= LINEAR_LIMIT {
      BinaryAnswerExactIffSorted(s);
      assert Exact(s, start, end);
    }
  }

  /** The query the repository makes is right about every well-formed range exactly when the ring is
      below the limit or sorted. */
  lemma QueryAnswerExactIff<T>(s: seq<Stamped<T>>)
    ensures (|s| < 100 || Sorted(s)) <==>
            forall start, end :: start <= end ==> QueryAnswer(s, start, end) == Items(InRange(s, TimeRange(start, end)))
  {
    if |s| < LINEAR_LIMIT || Sorted(s) {
      forall start, end | start <= end ensures QueryAnswer(s, start, end) == Items(InRange(s, TimeRange(start, end))) {
        QueryAnswerExact(s, start, end);
      }
    } else {
      BinaryAnswerExactIffSorted(s);
      var start, end :| start <= end && !Exact(s, start, end);
      assert QueryAnswer(s, start, end) == BinaryAnswer(s, start, end);
    }
  }

  // ---- Two inputs on which a query fails ----

  lemma {:induction false} PushesAt<T>(ops: seq<RingOp<T>>)
    requires forall i :: 0 <= i < |ops| ==> ops[i].Push?
    ensures |Pushes(ops)| == |ops|
    ensures forall i :: 0 <= i < |ops| ==> Pushes(ops)[i] == Stamped(ops[i].item, ops[i].time)
  {
    if ops != [] {
      PushesAt(ops[1..]);
    }
  }

  /** Pushing as many samples as the ring holds, the i-th at the i-th time. */
  function Filled(times: nat -> int): (s: seq<Stamped<int>>)
    ensures |s| == 100 && forall i :: 0 <= i < 100 ==> s[i] == Stamped(i, times(i))
  {
    var ops := seq<RingOp<int>>(LINEAR_LIMIT, i requires 0 <= i < LINEAR_LIMIT => Push(i, times(i)));
    PushOnlyKeepsNewest(Fresh<int>(LINEAR_LIMIT), ops);
    PushesAt(ops);
    assert [] + Pushes(ops) == Pushes(ops);
    Run(Fresh(LINEAR_LIMIT), ops).contents
  }

  /** A hundred samples of which only the first, pushed out of order, lies in the range: the query
      finds nothing. */
  lemma OutOfOrderIsMissed()
    ensures var s := Filled(i => if i == 0 then 5 else 0);
      s[0] in InRange(s, TimeRange(5, 5)) && QueryAnswer(s, 5, 5) == Items([])
  {
    var s := Filled(i => if i == 0 then 5 else 0);
    hide Filled, InRange;
    assert s[0].time == 5 && forall i :: 1 <= i < |s| ==> s[i].time == 0;
    OnlyFirstIsMissed(s, 5);
  }

  lemma OnlyFirstIsMissed<T>(s: seq<Stamped<T>>, at: int)
    requires |s| >= LINEAR_LIMIT && s[0].time == at && forall i :: 1 <= i < |s| ==> s[i].time < at
    ensures s[0] in InRange(s, TimeRange(at, at)) && QueryAnswer(s, at, at) == Items([])
  {
    var mid := |s| / 2;
    assert Search(s, NotBefore(at), 0, |s|) == Search(s, NotBefore(at), mid + 1, |s|);
  }

  /** A hundred samples in order, one a second, and a range from the sixtieth second back to the
      fortieth: the query panics. */
  lemma InvertedRangePanics()
    ensures var s := Filled(i => i); Sorted(s) && QueryAnswer(s, 60, 40) == Panics
  {
    var s := Filled(i => i);
    assert s[50].time == 50 && s[70].time == 70;
    assert HasSince(s, 60) && HasBetween(s, 40, 60) && Sorted(s);
    hide Filled, InRange, HasSince, HasBetween, Search;
    SortedBinaryAnswer(s, 60, 40);
  }

  /** The newest n samples; a negative n panics unless there is nothing to return. */
  function LatestAnswer<T>(s: seq<Stamped<T>>, n: int): Answer<Stamped<T>> {
    if s == [] then Items([]) else if n < 0 then Panics else Items(LastN(s, n))
  }

  // ---- Eviction ----

  function NotOlder<T>(s: seq<Stamped<T>>, cutoff: int): (r: seq<Stamped<T>>)
    ensures forall x :: x in r ==> x in s && x.time >= cutoff
    ensures forall x :: x in s && x.time >= cutoff ==> x in r
  {
    if s == [] then [] else
      assert forall x :: x in s ==> x == s[0] || x in s[1..];
      (if s[0].time >= cutoff then [s[0]] else []) + NotOlder(s[1..], cutoff)
  }

  lemma {:induction false} NotOlderConcat<T>(a: seq<Stamped<T>>, b: seq<Stamped<T>>, cutoff: int)
    ensures NotOlder(a + b, cutoff) == NotOlder(a, cutoff) + NotOlder(b, cutoff)
  {
    if a == [] {
      assert a + b == b;
    } else {
      assert (a + b)[1..] == a[1..] + b;
      NotOlderConcat(a[1..], b, cutoff);
    }
  }

  lemma {:induction false} NotOlderAll<T>(s: seq<Stamped<T>>, cutoff: int)
    requires forall i :: 0 <= i < |s| ==> s[i].time >= cutoff
    ensures NotOlder(s, cutoff) == s
  {
    if s != [] {
      NotOlderAll(s[1..], cutoff);
    }
  }

  /** On sorted samples, dropping the old prefix keeps exactly the samples not older than the cutoff. */
  lemma {:induction false} EvictionIsExact<T>(s: seq<Stamped<T>>, cutoff: int)
    requires Sorted(s)
    ensures s[OldPrefix(s, cutoff)..] == NotOlder(s, cutoff)
  {
    if s != [] {
      if s[0].time < cutoff {
        EvictionIsExact(s[1..], cutoff);
      } else {
        NotOlderAll(s, cutoff);
      }
    }
  }

  /** Dropping the old prefix leaves exactly the samples not older than the cutoff. */
  predicate EvictsExactly<T(==)>(s: seq<Stamped<T>>, cutoff: int) {
    s[OldPrefix(s, cutoff)..] == NotOlder(s, cutoff)
  }

  lemma {:induction false} ExactEvictionOrders<T>(s: seq<Stamped<T>>, i: nat, j: nat)
    requires i < j < |s| && EvictsExactly(s, s[i].time)
    ensures s[i].time <= s[j].time
  {
    hide OldPrefix, NotOlder;
    var cutoff := s[i].time;
    var left := NotOlder(s, cutoff);
    var n := OldPrefix(s, cutoff);
    assert n <= i && left == s[n..];
    assert left[j - n] == s[j] && left[j - n] in left;
  }

  /** Eviction is exact for every cutoff if and only if the samples are sorted. */
  lemma EvictionExactIff<T>(s: seq<Stamped<T>>)
    ensures Sorted(s) <==> forall cutoff :: EvictsExactly(s, cutoff)
  {
    if Sorted(s) {
      forall cutoff ensures EvictsExactly(s, cutoff) {
        EvictionIsExact(s, cutoff);
      }
    } else if forall cutoff :: EvictsExactly(s, cutoff) {
      hide EvictsExactly;
      forall i, j | 0 <= i < j < |s| ensures s[i].time <= s[j].time {
        ExactEvictionOrders(s, i, j);
      }
    }
  }
}
