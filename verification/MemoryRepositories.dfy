/** The keyed half of the in-memory repository: a main ring buffer and a map from keys to small
    ring buffers, all updated in place. The process half (by PID) and the disk half (by device)
    are the same code (internal/infrastructure/storage/memory.go). */
module MemoryRepositories {
  import opened Basics
  import opened Rings
  import opened RingBuffers
  import opened Series

  class IndexedSeries<K(0,==), V(0)> {
    const main: RingBuffer<Keyed<K, V>>
    var index: map<K, RingBuffer<Keyed<K, V>>>
    var totalWrites: int
    var totalReads: int
    ghost var store: Store<K, V>
    ghost var Repr: set<object>

    ghost predicate Owns(ring: RingBuffer<Keyed<K, V>>)
      reads this`Repr, ring
    {
      ring in Repr && ring.Footprint() <= Repr
    }

    /** Every ring is owned, and no two rings share an object. */
    ghost predicate Separated()
      reads this`index, this`Repr, Repr
    {
      && this !in Repr && main in Repr && Owns(main)
      && (forall k :: k in index ==> index[k] in Repr && Owns(index[k]) && index[k].Footprint() !! main.Footprint())
      && (forall j, k :: j in index && k in index && j != k ==> index[j].Footprint() !! index[k].Footprint())
    }

    ghost predicate RingsValid()
      reads this`index, this`Repr, Repr
      ensures RingsValid() ==> Separated() && this !in Repr
    {
      Separated() && main.Valid() && forall k :: k in index ==> index[k].Valid()
    }

    ghost function Models(): map<K, Ring<Keyed<K, V>>>
      reads this`index, this`Repr, Repr
      requires Separated()
      ensures Models().Keys == index.Keys
    {
      map k | k in index :: index[k].model
    }

    /** `store` is what the rings hold. */
    ghost predicate Valid()
      reads this, Repr
    {
      RingsValid() && store.Valid() && store.main == main.model && store.index == Models()
    }

    constructor (capacity: int)
      ensures Valid() && fresh(Repr)
      ensures store == Empty(capacity)
    {
      hide RingBuffer.Valid, Step;
      var ring := new RingBuffer<Keyed<K, V>>(capacity);
      main := ring;
      index := map[];
      totalWrites, totalReads := 0, 0;
      store := Empty(capacity);
      Repr := ring.Footprint();
    }

    // One ring at a time: what each call on a ring does to the whole family.

    method PushMain(item: Keyed<K, V>, time: int)
      requires RingsValid()
      modifies Repr
      ensures RingsValid() && Models() == old(Models())
      ensures main.model == Step(old(main.model), Push(item, time))
    {
      hide RingBuffer.Valid, Step;
      main.PushWithTime(item, time);
    }

    method PushAt(key: K, item: Keyed<K, V>, time: int)
      requires RingsValid() && key in index
      modifies Repr
      ensures RingsValid() && main.model == old(main.model)
      ensures Models() == old(Models())[key := Step(old(Models())[key], Push(item, time))]
    {
      hide RingBuffer.Valid, Step;
      index[key].PushWithTime(item, time);
    }

    /** A ring of its own objects joins the index. */
    method Adopt(key: K, ring: RingBuffer<Keyed<K, V>>)
      requires RingsValid() && key !in index
      requires ring.Valid() && ring.Footprint() !! Repr && this !in ring.Footprint()
      modifies this`index, this`Repr
      ensures RingsValid() && Repr == old(Repr) + ring.Footprint()
      ensures key in index && Models() == old(Models())[key := ring.model]
    {
      hide RingBuffer.Valid;
      index := index[key := ring];
      Repr := Repr + ring.Footprint();
    }

    method EnsureRing(key: K)
      requires RingsValid()
      modifies this`index, this`Repr
      ensures RingsValid() && fresh(Repr - old(Repr)) && old(Repr) <= Repr
      ensures key in index
      ensures Models() == old(Models())[key := if key in old(index) then old(Models())[key] else Fresh(INDEX_CAPACITY)]
    {
      hide RingBuffer.Valid, Separated, RingsValid, Models;
      if key !in index {
        var ring := new RingBuffer<Keyed<K, V>>(INDEX_CAPACITY);
        Adopt(key, ring);
      }
    }

    method QueryAt(key: K, start: int, end: int) returns (answer: Answer<Stamped<Keyed<K, V>>>)
      requires RingsValid() && key in index
      modifies Repr
      ensures RingsValid() && main.model == old(main.model) && Models() == old(Models())
      ensures answer == QueryAnswer(Models()[key].contents, start, end)
    {
      hide RingBuffer.Valid, Step;
      answer := index[key].GetByTimeRange(start, end);
    }

    method LatestAt(key: K) returns (answer: Answer<Stamped<Keyed<K, V>>>)
      requires RingsValid() && key in index
      modifies Repr
      ensures RingsValid() && main.model == old(main.model) && Models() == old(Models())
      ensures answer == LatestAnswer(Models()[key].contents, 1)
    {
      hide RingBuffer.Valid, Step;
      answer := index[key].GetLatest(1);
    }

    method QueryMain(start: int, end: int) returns (answer: Answer<Stamped<Keyed<K, V>>>)
      requires RingsValid()
      modifies Repr
      ensures RingsValid() && main.model == old(main.model) && Models() == old(Models())
      ensures answer == QueryAnswer(main.model.contents, start, end)
    {
      hide RingBuffer.Valid, Step;
      answer := main.GetByTimeRange(start, end);
    }

    method EvictMain(before: int)
      requires RingsValid()
      modifies Repr
      ensures RingsValid() && Models() == old(Models())
      ensures main.model == Step(old(main.model), Evict(before))
    {
      hide RingBuffer.Valid, Step;
      var evicted := main.EvictOlderThan(before);
    }

    method EvictAt(key: K, before: int) returns (left: nat)
      requires RingsValid() && key in index
      modifies Repr
      ensures RingsValid() && main.model == old(main.model)
      ensures Models() == old(Models())[key := Step(old(Models())[key], Evict(before))]
      ensures left == |Models()[key].contents|
    {
      hide RingBuffer.Valid, Step;
      var evicted := index[key].EvictOlderThan(before);
      left := index[key].Size();
    }

    method Forget(key: K)
      requires RingsValid()
      modifies this`index
      ensures RingsValid() && Models() == old(Models()) - {key}
    {
      hide RingBuffer.Valid, Step;
      index := index - {key};
    }

    method PushBoth(item: Keyed<K, V>, time: int)
      requires RingsValid()
      modifies this`index, this`Repr, Repr
      ensures RingsValid() && fresh(Repr - old(Repr))
      ensures main.model == Step(old(main.model), Push(item, time))
      ensures var ring := if item.key in old(Models()) then old(Models())[item.key] else Fresh(INDEX_CAPACITY);
        Models() == old(Models())[item.key := Step(ring, Push(item, time))]
    {
      hide RingBuffer.Valid, Separated, RingsValid, Models, Step;
      PushMain(item, time);
      EnsureRing(item.key);
      PushAt(item.key, item, time);
    }

    // The operations.

    /** SaveProcessMetrics and SaveDiskIO: a nil sample is refused, anything else goes to the main
        ring and to the ring of its key, which is created on first use. */
    method Save(sample: Option<Stamped<Keyed<K, V>>>) returns (ok: bool)
      requires Valid()
      modifies this, Repr
      ensures Valid() && fresh(Repr - old(Repr))
      ensures ok == sample.Some?
      ensures store ==
              if ok then SaveStep(old(store), sample.value.item.key, sample.value.item.value, sample.value.time)
              else old(store)
      ensures totalWrites == old(totalWrites) + if ok then 1 else 0
    {
      hide RingBuffer.Valid, Separated, RingsValid, Models, Step, Store.Valid;
      if sample == None {
        return false;
      }
      var Stamped(item, time) := sample.value;
      PushBoth(item, time);
      totalWrites := totalWrites + 1;
      SaveKeepsValid(store, item.key, item.value, time);
      store := SaveStep(store, item.key, item.value, time);
      ok := true;
    }

    /** QueryProcessMetrics and QueryDiskIO up to the remaining filter: a query by key reads the
        index only, any other query reads the main ring. */
    method Query(key: Option<K>, start: int, end: int) returns (answer: Answer<Stamped<Keyed<K, V>>>)
      requires Valid()
      modifies this, Repr
      ensures Valid() && Repr == old(Repr) && store == old(store)
      ensures answer == QueryAnswer(if key == None then store.main.contents else store.Indexed(key.value), start, end)
      ensures totalReads == old(totalReads) + if answer.Items? then |answer.items| else 0
    {
      hide RingBuffer.Valid, Separated, RingsValid, Models, Step, Store.Valid;
      answer := Items([]);
      if key != None {
        if key.value in index {
          answer := QueryAt(key.value, start, end);
        }
      } else {
        answer := QueryMain(start, end);
      }
      if answer.Items? {
        totalReads := totalReads + |answer.items|;
      }
    }

    /** GetLatestProcessMetrics. */
    method GetLatest(key: K) returns (latest: Option<Keyed<K, V>>)
      requires Valid()
      modifies this, Repr
      ensures Valid() && Repr == old(Repr) && store == old(store)
      ensures latest == var kept := store.Indexed(key); if kept == [] then None else Some(kept[|kept| - 1].item)
      ensures totalReads == old(totalReads) + if latest.Some? then 1 else 0
    {
      hide RingBuffer.Valid, Separated, RingsValid, Models, Step, Store.Valid;
      if key !in index {
        return None;
      }
      var answer := LatestAt(key);
      if answer.items == [] {
        return None;
      }
      totalReads := totalReads + 1;
      latest := Some(answer.items[0].item);
    }

    /** DeleteOldMetrics: old samples leave every ring, and keys whose ring is left empty leave the
        index. The map is walked in no particular order. */
    method DeleteOld(before: int)
      requires Valid()
      modifies this, Repr
      ensures Valid() && Repr == old(Repr)
      ensures store == DeleteStep(old(store), before)
    {
      hide RingBuffer.Valid, Separated, RingsValid, Models, Step, Store.Valid;
      DeleteKeepsValid(store, before);
      EvictMain(before);
      EvictIndex(before);
      store := DeleteStep(store, before);
    }

    method EvictIndex(before: int)
      requires RingsValid()
      modifies this`index, Repr
      ensures RingsValid() && main.model == old(main.model)
      ensures Models() == EvictAll(old(Models()), old(Models()).Keys, before)
    {
      hide RingBuffer.Valid, Separated, RingsValid, Models, Step, EvictAll, Store.Valid;
      ghost var was := Models();
      var pending := index.Keys;
      EvictNone(was, before);
      assert was.Keys - pending == {};
      while pending != {}
        invariant RingsValid() && main.model == old(main.model)
        invariant pending <= was.Keys && pending <= index.Keys
        invariant Models() == EvictAll(was, was.Keys - pending, before)
        decreases pending
      {
        var k :| k in pending;
        EvictAllNext(was, was.Keys - pending, k, before);
        assert was.Keys - (pending - {k}) == was.Keys - pending + {k};
        pending := pending - {k};
        var left := EvictAt(k, before);
        if left == 0 {
          Forget(k);
        }
      }
      assert was.Keys - {} == was.Keys;
    }

    /** Close: the main ring is emptied and the index forgotten. */
    method Close()
      requires Valid()
      modifies this, Repr
      ensures Valid() && Repr == old(Repr)
      ensures store == CloseStep(old(store))
      ensures store.main.contents == [] && store.index == map[] && store.main.capacity == old(store).main.capacity
    {
      StoreStepKeepsValid(store, Op.Close);
      main.Clear();
      index := map[];
      store := CloseStep(store);
    }
  }
}
