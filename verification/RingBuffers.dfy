/** The circular buffer itself: two arrays written in place, a head, a tail and a size
    (internal/infrastructure/storage/ringbuffer.go). */
module RingBuffers {
  import opened Basics
  import opened TimeRanges
  import opened Rings

  /** The array slot of the i-th oldest element. */
  function Slot(tail: nat, i: nat, capacity: nat): (k: nat)
    requires tail < capacity && i <= capacity
    ensures k < capacity
  {
    if tail + i < capacity then tail + i else tail + i - capacity
  }

  lemma {:induction false} MulAtLeast(k: int, c: int)
    requires k >= 1 && c > 0
    ensures k * c >= c
    decreases k
  {
    if k > 1 {
      MulAtLeast(k - 1, c);
      assert k * c == (k - 1) * c + c;
    }
  }

  lemma MulAtMost(k: int, c: int)
    requires k <= -1 && c > 0
    ensures k * c <= -c
  {
    MulAtLeast(-k, c);
    assert (-k) * c == -(k * c);
  }

  lemma {:induction false} RemainderIsUnique(x: int, c: int, q: int, r: int)
    requires c > 0 && x == q * c + r && 0 <= r < c
    ensures x % c == r
  {
    var d := x / c - q;
    assert d * c == r - x % c;
    if d >= 1 {
      MulAtLeast(d, c);
    } else if d <= -1 {
      MulAtMost(d, c);
    }
  }

  /** An index wrapped at the end of the arrays; none needs wrapping twice. */
  function Wrapped(index: nat, capacity: nat): (k: nat)
    requires index < capacity + capacity
    ensures k == if index < capacity then index else index - capacity
  {
    var q := if index < capacity then 0 else 1;
    RemainderIsUnique(index, capacity, q, if q == 0 then index else index - capacity);
    index % capacity
  }

  lemma SlotsDiffer(tail: nat, i: nat, j: nat, capacity: nat)
    requires tail < capacity && i < j < capacity
    ensures Slot(tail, i, capacity) != Slot(tail, j, capacity)
  {
  }

  lemma SlotNext(tail: nat, i: nat, capacity: nat)
    requires tail < capacity && i < capacity
    ensures Slot(tail, i + 1, capacity) == Slot(Slot(tail, 1, capacity), i, capacity)
    ensures Slot(tail, i + 1, capacity) == Slot(Slot(tail, i, capacity), 1, capacity)
  {
  }

  lemma SlotCompose(tail: nat, from: nat, i: nat, capacity: nat)
    requires tail < capacity && from + i <= capacity
    ensures Slot(Slot(tail, from, capacity), i, capacity) == Slot(tail, from + i, capacity)
  {
  }

  /** The samples a wrapped pair of arrays holds, oldest first. */
  function Window<T>(buffer: seq<T>, times: seq<int>, tail: nat, size: nat): (w: seq<Stamped<T>>)
    requires |buffer| == |times| && tail < |buffer| && size <= |buffer|
    ensures |w| == size
    ensures forall i :: 0 <= i < size ==>
              w[i] == Stamped(buffer[Slot(tail, i, |buffer|)], times[Slot(tail, i, |buffer|)])
  {
    seq(size, i requires 0 <= i < size => Stamped(buffer[Slot(tail, i, |buffer|)], times[Slot(tail, i, |buffer|)]))
  }

  /** Writing at the head of a buffer with room appends. */
  lemma WriteAppends<T>(buffer: seq<T>, times: seq<int>, tail: nat, size: nat, x: T, t: int)
    requires |buffer| == |times| && tail < |buffer| && size < |buffer|
    ensures var head := Slot(tail, size, |buffer|);
      Window(buffer[head := x], times[head := t], tail, size + 1)
      == Window(buffer, times, tail, size) + [Stamped(x, t)]
  {
    var head := Slot(tail, size, |buffer|);
    var w := Window(buffer[head := x], times[head := t], tail, size + 1);
    forall i | 0 <= i < size ensures w[i] == Window(buffer, times, tail, size)[i] {
      SlotsDiffer(tail, i, size, |buffer|);
    }
  }

  /** Writing at the head of a full buffer and moving the tail drops the oldest and appends. */
  lemma WriteRotates<T>(buffer: seq<T>, times: seq<int>, tail: nat, x: T, t: int)
    requires |buffer| == |times| && tail < |buffer|
    ensures Window(buffer[tail := x], times[tail := t], Slot(tail, 1, |buffer|), |buffer|)
      == Window(buffer, times, tail, |buffer|)[1..] + [Stamped(x, t)]
  {
    var w := Window(buffer[tail := x], times[tail := t], Slot(tail, 1, |buffer|), |buffer|);
    forall i | 0 <= i < |buffer|
      ensures w[i] == (Window(buffer, times, tail, |buffer|)[1..] + [Stamped(x, t)])[i]
    {
      SlotNext(tail, i, |buffer|);
      if i + 1 < |buffer| {
        SlotsDiffer(tail, 0, i + 1, |buffer|);
      }
    }
  }

  /** Moving the tail forward drops the oldest. */
  lemma AdvanceDrops<T>(buffer: seq<T>, times: seq<int>, tail: nat, size: nat)
    requires |buffer| == |times| && tail < |buffer| && 0 < size <= |buffer|
    ensures Window(buffer, times, Slot(tail, 1, |buffer|), size - 1) == Window(buffer, times, tail, size)[1..]
  {
    var w := Window(buffer, times, Slot(tail, 1, |buffer|), size - 1);
    forall i | 0 <= i < size - 1 ensures w[i] == Window(buffer, times, tail, size)[1..][i] {
      SlotNext(tail, i, |buffer|);
    }
  }

  /** What one push does to the wrapped arrays, whether or not they are full. */
  lemma PushWindow<T>(buffer: seq<T>, times: seq<int>, tail: nat, size: nat, x: T, t: int)
    requires |buffer| == |times| && tail < |buffer| && size <= |buffer|
    ensures var head := Slot(tail, size, |buffer|);
      var grown := Window(buffer, times, tail, size) + [Stamped(x, t)];
      if size < |buffer| then Window(buffer[head := x], times[head := t], tail, size + 1) == grown
      else Window(buffer[head := x], times[head := t], Slot(tail, 1, |buffer|), size) == LastN(grown, size)
  {
    if size < |buffer| {
      WriteAppends(buffer, times, tail, size, x, t);
    } else {
      WriteRotates(buffer, times, tail, x, t);
      var w := Window(buffer, times, tail, size);
      assert (w + [Stamped(x, t)])[1..] == w[1..] + [Stamped(x, t)];
    }
  }

  class RingBuffer<T(0)> {
    var buffer: array<T>
    var timestamps: array<int>
    var capacity: nat
    var head: nat
    var tail: nat
    var size: nat
    var totalWrites: int
    var totalReads: int
    ghost var model: Ring<T>

    ghost function Footprint(): set<object>
      reads this
    {
      {this, buffer, timestamps}
    }

    /** The index arithmetic of the layout. */
    ghost predicate WellLaidOut()
      reads this
    {
      && buffer as object != timestamps as object
      && 0 < capacity == buffer.Length == timestamps.Length
      && tail < capacity && size <= capacity
      && head == Slot(tail, size, capacity)
    }

    ghost predicate Valid()
      reads this, buffer, timestamps
    {
      && WellLaidOut()
      && model.Valid() && model.capacity == capacity
      && model.contents == Window(buffer[..], timestamps[..], tail, size)
      && totalWrites == |model.history|
    }

    /** The head is where the tail and the size put it. */
    lemma HeadIsModulo()
      requires Valid()
      ensures head == (tail + size) % capacity
    {
      assert Wrapped(tail + size, capacity) == Slot(tail, size, capacity);
    }

    constructor (requested: int)
      ensures Valid() && fresh(Footprint())
      ensures model == Fresh(requested) && totalReads == 0
      ensures model.contents == [] && capacity == if requested <= 0 then 1000 else requested
    {
      var n := if requested <= 0 then DEFAULT_CAPACITY else requested;
      buffer := new T[n];
      timestamps := new int[n];
      capacity, head, tail, size := n, 0, 0, 0;
      totalWrites, totalReads := 0, 0;
      model := Fresh(requested);
    }

    method PushWithTime(item: T, timestamp: int)
      requires Valid()
      modifies Footprint()
      ensures Valid() && Footprint() == old(Footprint())
      ensures model == Step(old(model), Push(item, timestamp))
      ensures totalReads == old(totalReads)
    {
      hide Wrapped, Step, Ring.Valid, LastN, Window;
      PushStep(model, item, timestamp);
      PushWindow(buffer[..], timestamps[..], tail, size, item, timestamp);
      WriteAtHead(item, timestamp);
      if size < capacity {
        size := size + 1;
      } else {
        tail := Wrapped(tail + 1, capacity);
      }
      totalWrites := totalWrites + 1;
      model := Step(model, Push(item, timestamp));
    }

    /** The three lines that PushWithTime and Resize share. */
    method WriteAtHead(item: T, timestamp: int)
      requires WellLaidOut()
      modifies this`head, buffer, timestamps
      ensures buffer[..] == old(buffer[..])[old(head) := item]
      ensures timestamps[..] == old(timestamps[..])[old(head) := timestamp]
      ensures size < capacity ==> head == Slot(tail, size + 1, capacity)
      ensures size == capacity ==> head == Slot(Slot(tail, 1, capacity), size, capacity)
    {
      hide Wrapped;
      buffer[head] := item;
      timestamps[head] := timestamp;
      head := Wrapped(head + 1, capacity);
    }

    method Pop() returns (oldest: Option<Stamped<T>>)
      requires Valid()
      modifies this
      ensures Valid() && Footprint() == old(Footprint())
      ensures model == Step(old(model), RingOp.Pop)
      ensures oldest == if old(model).contents == [] then None else Some(old(model).contents[0])
      ensures totalReads == old(totalReads) + if oldest.Some? then 1 else 0
    {
      if size == 0 {
        return None;
      }
      oldest := Some(Stamped(buffer[tail], timestamps[tail]));
      StepKeepsValid(model, RingOp.Pop);
      model := Step(model, RingOp.Pop);
      DropOldest();
      totalReads := totalReads + 1;
    }

    /** The two lines that Pop and EvictOlderThan share: the caller has already moved the model. */
    method DropOldest()
      requires WellLaidOut() && 0 < size
      modifies this`tail, this`size
      ensures WellLaidOut() && size == old(size) - 1
      ensures Window(buffer[..], timestamps[..], tail, size)
           == old(Window(buffer[..], timestamps[..], tail, size))[1..]
    {
      hide Wrapped;
      AdvanceDrops(buffer[..], timestamps[..], tail, size);
      SlotNext(tail, size - 1, capacity);
      tail := Wrapped(tail + 1, capacity);
      size := size - 1;
    }

    method Peek() returns (oldest: Option<Stamped<T>>)
      requires Valid()
      ensures oldest == if model.contents == [] then None else Some(model.contents[0])
    {
      if size == 0 {
        return None;
      }
      oldest := Some(Stamped(buffer[tail], timestamps[tail]));
    }

    method GetAll() returns (items: seq<Stamped<T>>)
      requires Valid()
      modifies this`totalReads
      ensures Valid()
      ensures items == model.contents
      ensures totalReads == old(totalReads) + |items|
    {
      items := CopyOut(0, size);
      totalReads := totalReads + size;
    }

    /** The copying loops: the elements from the from-th to the one before the to-th oldest. */
    method CopyOut(from: nat, to: nat) returns (items: seq<Stamped<T>>)
      requires Valid() && from <= to <= size
      ensures items == model.contents[from..to]
    {
      hide Wrapped;
      items := [];
      for i := from to to
        invariant items == model.contents[from..i]
      {
        var idx := Wrapped(tail + i, capacity);
        items := items + [Stamped(buffer[idx], timestamps[idx])];
      }
    }

    method GetByTimeRange(start: int, end: int) returns (answer: Answer<Stamped<T>>)
      requires Valid()
      modifies this`totalReads
      ensures Valid()
      ensures answer == QueryAnswer(model.contents, start, end)
      ensures totalReads == old(totalReads) + if answer.Items? then |answer.items| else 0
    {
      if size < LINEAR_LIMIT {
        var items := GetByTimeRangeLinear(start, end);
        return Items(items);
      }
      answer := GetByTimeRangeBinary(start, end);
    }

    /** The branch of GetByTimeRange for a large buffer. */
    method GetByTimeRangeBinary(start: int, end: int) returns (answer: Answer<Stamped<T>>)
      requires Valid()
      modifies this`totalReads
      ensures Valid()
      ensures answer == BinaryAnswer(model.contents, start, end)
      ensures totalReads == old(totalReads) + if answer.Items? then |answer.items| else 0
    {
      hide Ring.Valid, Window, Bound.Holds;
      var ordered := CopyOut(0, size);
      assert ordered == model.contents;
      var startIdx := Search(ordered, NotBefore(start), 0, size);
      if startIdx >= size {
        return Items([]);
      }
      var endIdx := Search(ordered, After(end), 0, size);
      if endIdx < startIdx {
        return Panics;
      }
      var items := CopyOut(startIdx, endIdx);
      totalReads := totalReads + |items|;
      answer := Items(items);
    }

    method GetByTimeRangeLinear(start: int, end: int) returns (items: seq<Stamped<T>>)
      requires Valid()
      modifies this`totalReads
      ensures Valid()
      ensures items == InRange(model.contents, TimeRange(start, end))
      ensures totalReads == old(totalReads) + |items|
    {
      hide Wrapped, Ring.Valid, InRange;
      items := [];
      for i := 0 to size
        modifies this`totalReads
        invariant items == InRange(model.contents[..i], TimeRange(start, end))
        invariant totalReads == old(totalReads) + |items|
      {
        var idx := Wrapped(tail + i, capacity);
        var ts := timestamps[idx];
        InRangeNext(model.contents, TimeRange(start, end), i);
        if (ts == start || ts > start) && (ts == end || ts < end) {
          items := items + [Stamped(buffer[idx], ts)];
          totalReads := totalReads + 1;
        }
      }
      assert model.contents[..size] == model.contents;
    }

    method GetLatest(n: int) returns (answer: Answer<Stamped<T>>)
      requires Valid()
      modifies this`totalReads
      ensures Valid()
      ensures answer == LatestAnswer(model.contents, n)
      ensures answer.Panics? <==> n < 0 && model.contents != []
      ensures answer.Items? ==> IsSuffix(answer.items, model.contents)
      ensures n >= 0 ==> |answer.items| == if n < |model.contents| then n else |model.contents|
      ensures totalReads == old(totalReads) + if answer.Items? then |answer.items| else 0
    {
      if size == 0 {
        return Items([]);
      }
      var count := if n > size then size else n;
      if count < 0 {
        return Panics;
      }
      var items := CopyFrom(size - count, count);
      totalReads := totalReads + count;
      answer := Items(items);
    }

    /** The copying loop of GetLatest, which wraps its starting index first. */
    method CopyFrom(from: nat, count: nat) returns (items: seq<Stamped<T>>)
      requires Valid() && from + count == size
      ensures items == LastN(model.contents, count)
    {
      hide Wrapped;
      var startIdx := Wrapped(tail + from, capacity);
      items := [];
      for i := 0 to count
        invariant items == model.contents[from..from + i]
      {
        SlotCompose(tail, from, i, capacity);
        var idx := Wrapped(startIdx + i, capacity);
        items := items + [Stamped(buffer[idx], timestamps[idx])];
      }
      assert model.contents[from..size] == model.contents[from..];
    }

    method Size() returns (n: nat)
      requires Valid()
      ensures n == |model.contents|
    {
      n := size;
    }

    method Clear()
      requires Valid()
      modifies this
      ensures Valid() && Footprint() == old(Footprint())
      ensures model == Step(old(model), RingOp.Clear)
      ensures totalReads == old(totalReads)
    {
      StepKeepsValid(model, RingOp.Clear);
      model := Step(model, RingOp.Clear);
      head, tail, size := 0, 0, 0;
    }

    method EvictOlderThan(cutoff: int) returns (evicted: nat)
      requires Valid()
      modifies this
      ensures Valid() && Footprint() == old(Footprint())
      ensures model == Step(old(model), Evict(cutoff))
      ensures evicted == OldPrefix(old(model).contents, cutoff)
      ensures totalReads == old(totalReads)
    {
      hide Step, Ring.Valid, Window, OldPrefix, Slot;
      EvictStep(model, cutoff);
      evicted := DropOlder(cutoff);
      model := Step(model, Evict(cutoff));
    }

    /** The loop of EvictOlderThan. */
    method DropOlder(cutoff: int) returns (evicted: nat)
      requires WellLaidOut()
      modifies this`tail, this`size
      ensures WellLaidOut()
      ensures var all := old(Window(buffer[..], timestamps[..], tail, size));
        evicted == OldPrefix(all, cutoff) && Window(buffer[..], timestamps[..], tail, size) == all[evicted..]
    {
      ghost var all := Window(buffer[..], timestamps[..], tail, size);
      evicted := 0;
      while size > 0
        invariant WellLaidOut()
        invariant evicted <= |all| && size == |all| - evicted
        invariant Window(buffer[..], timestamps[..], tail, size) == all[evicted..]
        invariant OldPrefix(all, cutoff) == evicted + OldPrefix(all[evicted..], cutoff)
        decreases size
      {
        assert Window(buffer[..], timestamps[..], tail, size)[0] == all[evicted];
        if timestamps[tail] < cutoff {
          assert all[evicted..][1..] == all[evicted + 1..];
          DropOldest();
          evicted := evicted + 1;
        } else {
          break;
        }
      }
    }

    method Resize(newCapacity: int)
      requires Valid()
      modifies Footprint()
      ensures Valid() && fresh(Footprint() - old(Footprint()))
      ensures model == Step(old(model), RingOp.Resize(newCapacity))
      ensures totalReads == old(totalReads)
    {
      hide Step, Ring.Valid, LastN, Window;
      ResizeStep(model, newCapacity);
      if newCapacity <= 0 || newCapacity == capacity {
        return;
      }
      var items := CopyOut(0, size);
      assert items == model.contents;
      Reallocate(newCapacity);
      var start := if |items| > newCapacity then |items| - newCapacity else 0;
      LastNFrom(items, newCapacity, start);
      Refill(items[start..]);
      model := Step(model, RingOp.Resize(newCapacity));
    }

    method Reallocate(newCapacity: nat)
      requires 0 < newCapacity
      modifies this`buffer, this`timestamps, this`capacity, this`head, this`tail, this`size
      ensures fresh(buffer) && fresh(timestamps) && capacity == newCapacity
      ensures WellLaidOut() && tail == 0 && size == 0
    {
      buffer := new T[newCapacity];
      timestamps := new int[newCapacity];
      capacity := newCapacity;
      head, tail, size := 0, 0, 0;
    }

    /** The re-adding loop of Resize, into arrays that are still empty. */
    method Refill(items: seq<Stamped<T>>)
      requires WellLaidOut() && tail == 0 && size == 0 && |items| <= capacity
      modifies this`head, this`size, buffer, timestamps
      ensures WellLaidOut() && size == |items|
      ensures Window(buffer[..], timestamps[..], tail, size) == items
    {
      for i := 0 to |items|
        invariant WellLaidOut() && size == i
        invariant Window(buffer[..], timestamps[..], tail, size) == items[..i]
      {
        PushWindow(buffer[..], timestamps[..], tail, size, items[i].item, items[i].time);
        WriteAtHead(items[i].item, items[i].time);
        size := size + 1;
      }
    }
  }
}
