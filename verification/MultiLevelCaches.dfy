/** The two-level cache as it runs: two LRU objects and counters updated in place, with an eviction
    callback from the first into the second (internal/infrastructure/optimization/cache.go). Each
    call reads the clock once. */
module MultiLevelCaches {
  import opened Basics
  import opened Lrus
  import opened Caches

  class MultiLevelCache<V> {
    const cfg: Config
    const l1Cache: Lru<Entry<V>>
    const l2Cache: Lru<Entry<V>>
    var stats: Stats

    ghost predicate Valid()
      reads this, l1Cache, l2Cache
    {
      && l1Cache != l2Cache && l1Cache.Valid() && l2Cache.Valid()
      && l1Cache.size == cfg.size1 && l2Cache.size == cfg.size2
    }

    ghost function View(): Cache<V>
      reads this, l1Cache, l2Cache
      requires Valid()
    {
      Cache(l1Cache.Slots(), l2Cache.Slots(), stats)
    }

    constructor (cfg: Config)
      requires 0 < cfg.size1 && 0 < cfg.size2
      ensures Valid() && fresh(l1Cache) && fresh(l2Cache)
      ensures View() == Empty() && this.cfg == cfg
    {
      this.cfg := cfg;
      l2Cache := new Lru(cfg.size2);
      l1Cache := new Lru(cfg.size1);
      stats := Stats(0, 0, 0, 0, 0, 0, 0);
    }

    /** NewMultiLevelCache: the LRU library refuses a size that is not positive. */
    static method New(size1: int, size2: int, l1TTL: int, notifies: bool) returns (cache: Option<MultiLevelCache<V>>)
      ensures cache.Some? <==> size1 > 0 && size2 > 0
      ensures cache.Some? ==> fresh(cache.value) && cache.value.Valid() && cache.value.View() == Empty()
                              && cache.value.cfg == Config(size1, size2, l1TTL, notifies)
    {
      if size2 <= 0 || size1 <= 0 {
        return None;
      }
      var c := new MultiLevelCache(Config(size1, size2, l1TTL, notifies));
      cache := Some(c);
    }

    lemma ViewIsWellFormed()
      requires Valid()
      ensures WellFormed(View(), cfg)
    {
    }

    /** The eviction callback. */
    method OnEvict(out: Slot<Entry<V>>, now: int)
      requires Valid()
      modifies this`stats, l2Cache
      ensures Valid() && View() == Spill(old(View()), cfg, out, now)
    {
      if !out.value.Expired(now) {
        var pushed := l2Cache.Add(out.key, out.value);
        stats := stats.(evictions := stats.evictions + 1);
      }
    }

    method AddToL1(key: string, entry: Entry<V>, now: int)
      requires Valid()
      modifies this`stats, l1Cache, l2Cache
      ensures Valid() && View() == AddL1(old(View()), cfg, key, entry, now)
    {
      hide Added, Spill;
      var out := l1Cache.Add(key, entry);
      if out.Some? {
        OnEvict(out.value, now);
      }
    }

    method RemoveFromL1(key: string, now: int)
      requires Valid()
      modifies this`stats, l1Cache, l2Cache
      ensures Valid() && View() == RemoveL1(old(View()), cfg, key, now)
    {
      hide Spill;
      WithoutAbsentView(key);
      var out := l1Cache.Remove(key);
      if out.Some? && cfg.notifies {
        OnEvict(Slot(key, out.value), now);
      }
    }

    lemma WithoutAbsentView(key: string)
      requires Valid()
      ensures Lookup(l1Cache.Slots(), key) == None ==> Without(l1Cache.Slots(), key) == l1Cache.Slots()
      ensures Lookup(l2Cache.Slots(), key) == None ==> Without(l2Cache.Slots(), key) == l2Cache.Slots()
    {
      if Lookup(l1Cache.Slots(), key) == None {
        WithoutAbsent(l1Cache.Slots(), key);
      }
      if Lookup(l2Cache.Slots(), key) == None {
        WithoutAbsent(l2Cache.Slots(), key);
      }
    }

    method Get(key: string, now: int) returns (value: Option<V>)
      requires Valid()
      modifies this, l1Cache, l2Cache
      ensures Valid() && (View(), value) == Caches.Get(old(View()), cfg, key, now)
    {
      hide GetL2, RemoveL1, Put, Lookup, Lru.Valid, Lru.Slots, Entry.Expired, Touched;
      var found := PeekL1(key, now);
      if found.Some? {
        return found;
      }
      stats := stats.(l1Misses := stats.l1Misses + 1);
      value := LookInL2(key, now);
    }

    /** The first-level half of Get: a valid entry is a hit, an expired one is removed. */
    method PeekL1(key: string, now: int) returns (value: Option<V>)
      requires Valid()
      modifies this`stats, l1Cache, l2Cache
      ensures Valid()
      ensures var e := Lookup(old(View()).l1, key);
        if e.None? then value == None && View() == old(View())
        else if e.value.Expired(now) then value == None && View() == RemoveL1(old(View()), cfg, key, now)
        else value == Some(e.value.value)
             && View() == old(View()).(l1 := Put(old(View()).l1, key, Touched(e.value, now)),
                                       stats := old(stats).(l1Hits := old(stats).l1Hits + 1))
    {
      ghost var was := View();
      TouchTwice(was.l1, key);
      var entry := l1Cache.Get(key);
      if entry == None {
        return None;
      }
      if entry.value.Expired(now) {
        hide Spill;
        RemoveFromL1(key, now);
        return None;
      }
      stats := stats.(l1Hits := stats.l1Hits + 1);
      l1Cache.Overwrite(key, Touched(entry.value, now));
      PutTwice(was.l1, key, Touched(entry.value, now));
      value := Some(entry.value.value);
    }

    /** The second-level half of Get. */
    method LookInL2(key: string, now: int) returns (value: Option<V>)
      requires Valid()
      modifies this`stats, l1Cache, l2Cache
      ensures Valid() && (View(), value) == GetL2(old(View()), cfg, key, now)
    {
      hide AddL1, Put, Recent, Without, Lookup, Lru.Valid, Lru.Slots, Entry.Expired;
      ghost var was := View();
      TouchTwice(was.l2, key);
      var entry := l2Cache.Get(key);
      if entry == None {
        stats := stats.(l2Misses := stats.l2Misses + 1);
        return None;
      }
      if entry.value.Expired(now) {
        var gone := l2Cache.Remove(key);
        stats := stats.(l2Misses := stats.l2Misses + 1);
        return None;
      }
      stats := stats.(l2Hits := stats.l2Hits + 1);
      var touched := Touched(entry.value, now);
      l2Cache.Overwrite(key, touched);
      PutTwice(was.l2, key, touched);
      assert View() == was.(l2 := Put(was.l2, key, touched), stats := was.stats.(l2Hits := was.stats.l2Hits + 1));
      if touched.hitCount > PROMOTION_HITS {
        AddToL1(key, Entry(touched.value, now + cfg.l1TTL, touched.accessTime, touched.hitCount), now);
      }
      value := Some(entry.value.value);
    }

    method SetWithTTL(key: string, value: V, ttl: int, now: int)
      requires Valid()
      modifies this, l1Cache, l2Cache
      ensures Valid() && View() == Caches.SetWithTTL(old(View()), cfg, key, value, ttl, now)
    {
      hide AddL1;
      AddToL1(key, Entry(value, now + ttl, now, 0), now);
      stats := stats.(sets := stats.sets + 1);
    }

    method Set(key: string, value: V, now: int)
      requires Valid()
      modifies this, l1Cache, l2Cache
      ensures Valid() && View() == Caches.SetWithTTL(old(View()), cfg, key, value, cfg.l1TTL, now)
    {
      SetWithTTL(key, value, cfg.l1TTL, now);
    }

    method Delete(key: string, now: int)
      requires Valid()
      modifies this, l1Cache, l2Cache
      ensures Valid() && View() == Caches.Delete(old(View()), cfg, key, now)
      ensures Lookup(View().l1, key) == None && Lookup(View().l2, key) == None
    {
      hide RemoveL1;
      ViewIsWellFormed();
      DeleteRemoves(View(), cfg, key, now);
      RemoveFromL1(key, now);
      var gone := l2Cache.Remove(key);
      stats := stats.(deletes := stats.deletes + 1);
    }

    /** Clear: what the purge of the first level reports may still land in the second, which is
        purged afterwards. */
    method Clear(now: int)
      requires Valid()
      modifies this, l1Cache, l2Cache
      ensures Valid() && View() == Caches.Clear(old(View()), cfg, old(View()).l1, now)
      ensures View().l1 == [] && View().l2 == []
    {
      var out := l1Cache.Purge();
      ghost var was := View();
      if cfg.notifies {
        for i := 0 to |out|
          invariant Valid() && l1Cache.Slots() == []
          invariant SpillAll(was, cfg, out, now) == SpillAll(View(), cfg, out[i..], now)
        {
          hide Spill;
          assert out[i..][1..] == out[i + 1..];
          OnEvict(out[i], now);
        }
      }
      var dropped := l2Cache.Purge();
    }

    /** cleanup: every key is touched with Get, expired ones are removed; the survivors end up in
        the order in which they started. */
    method CleanUp(now: int)
      requires Valid()
      modifies this, l1Cache, l2Cache
      ensures Valid() && View() == Cleanup(old(View()), now)
      ensures KeepsAlive(old(View()).l1, View().l1, now) && KeepsAlive(old(View()).l2, View().l2, now)
    {
      CleanupKeepsAlive(View(), now);
      hide KeepsAlive;
      CleanL1(now);
      CleanL2(now);
    }

    method CleanL1(now: int)
      requires Valid()
      modifies this`stats, l1Cache, l2Cache
      ensures Valid() && View() == old(View()).(l1 := Live(old(View()).l1, now))
    {
      var keys := l1Cache.Keys();
      ghost var was := l1Cache.Slots();
      for i := 0 to |keys|
        invariant Valid() && l2Cache.Slots() == old(View()).l2 && stats == old(stats)
        invariant l1Cache.Slots() == was[i..] + Live(was[..i], now)
      {
        CleanRound(was, now, i);
        CleanKeyL1(keys[i], now);
      }
      assert was[|keys|..] == [] && was[..|keys|] == was;
      assert [] + Live(was, now) == Live(was, now);
    }

    /** One round: touch, and remove if expired; nothing expired spills. */
    method CleanKeyL1(key: string, now: int)
      requires Valid()
      modifies this`stats, l1Cache, l2Cache
      ensures Valid() && l2Cache.Slots() == old(l2Cache.Slots()) && stats == old(stats)
      ensures l1Cache.Slots() == CleanOne(old(l1Cache.Slots()), key, now)
    {
      RecentEffect(l1Cache.Slots(), key, key);
      var entry := l1Cache.Get(key);
      if entry.Some? && entry.value.Expired(now) {
        RemoveFromL1(key, now);
      }
    }

    method CleanL2(now: int)
      requires Valid()
      modifies l2Cache
      ensures Valid() && View() == old(View()).(l2 := Live(old(View()).l2, now))
    {
      var keys := l2Cache.Keys();
      ghost var was := l2Cache.Slots();
      for i := 0 to |keys|
        invariant Valid() && l2Cache.Slots() == was[i..] + Live(was[..i], now)
      {
        CleanRound(was, now, i);
        CleanKeyL2(keys[i], now);
      }
      assert was[|keys|..] == [] && was[..|keys|] == was;
      assert [] + Live(was, now) == Live(was, now);
    }

    method CleanKeyL2(key: string, now: int)
      requires Valid()
      modifies l2Cache
      ensures Valid() && l2Cache.Slots() == CleanOne(old(l2Cache.Slots()), key, now)
    {
      RecentEffect(l2Cache.Slots(), key, key);
      var entry := l2Cache.Get(key);
      if entry.Some? && entry.value.Expired(now) {
        var gone := l2Cache.Remove(key);
      }
    }
  }

  function CleanOne<V>(s: seq<Slot<Entry<V>>>, key: string, now: int): seq<Slot<Entry<V>>> {
    var e := Lookup(s, key);
    if e.Some? && e.value.Expired(now) then Without(Recent(s, key), key) else Recent(s, key)
  }

  /** Touching an entry and then removing or overwriting it is the same without the touch. */
  lemma TouchTwice<V>(s: seq<Slot<Entry<V>>>, key: string)
    requires Distinct(s)
    ensures Without(Recent(s, key), key) == Without(s, key)
    ensures Lookup(Recent(s, key), key) == Lookup(s, key)
    ensures Lookup(s, key) == None ==> Recent(s, key) == s
    ensures Lookup(s, key).Some? ==> Recent(s, key) != [] && Recent(s, key)[|Recent(s, key)| - 1].key == key
  {
    RecentEffect(s, key, key);
    if Has(s, key) {
      WithoutDistinct(s, key);
      WithoutNewest(Without(s, key), Slot(key, Lookup(s, key).value));
    }
  }

  lemma PutTwice<V>(s: seq<Slot<Entry<V>>>, key: string, e: Entry<V>)
    requires Distinct(s)
    ensures Put(Recent(s, key), key, e) == Put(s, key, e)
  {
    TouchTwice(s, key);
  }

  lemma {:induction false} LiveConcat<V>(a: seq<Slot<Entry<V>>>, b: seq<Slot<Entry<V>>>, now: int)
    ensures Live(a + b, now) == Live(a, now) + Live(b, now)
  {
    if a == [] {
      assert a + b == b;
    } else {
      assert (a + b)[1..] == a[1..] + b;
      LiveConcat(a[1..], b, now);
    }
  }

  /** One round of the cleanup loop moves its window over the original list by one. */
  lemma CleanRound<V>(was: seq<Slot<Entry<V>>>, now: int, i: nat)
    requires Distinct(was) && i < |was|
    ensures var s := was[i..] + Live(was[..i], now);
      && Distinct(s)
      && CleanOne(s, was[i].key, now) == was[i + 1..] + Live(was[..i + 1], now)
  {
    var x, done := was[i], Live(was[..i], now);
    var s := was[i..] + done;
    WindowDistinct(was, now, i);
    assert s[0] == x && s[1..] == was[i + 1..] + done;
    RecentOldest(s);
    FirstIsUnique(s);
    assert was[..i + 1] == was[..i] + [x];
    LiveConcat(was[..i], [x], now);
    assert [x][1..] == [];
    if x.value.Expired(now) {
      WithoutNewest(s[1..], x);
      assert Live([x], now) == [];
      assert done + [] == done;
    } else {
      assert Live([x], now) == [x];
      assert s[1..] + [x] == was[i + 1..] + (done + [x]);
    }
  }

  lemma WindowDistinct<V>(was: seq<Slot<Entry<V>>>, now: int, i: nat)
    requires Distinct(was) && i < |was|
    ensures Distinct(was[i..] + Live(was[..i], now))
  {
    LiveDistinct(was[..i], now);
    var done := Live(was[..i], now);
    forall m | 0 <= m < |done| ensures exists n :: 0 <= n < i && was[n] == done[m] {
      LiveMembers(was[..i], now, done[m]);
      var n :| 0 <= n < |was[..i]| && was[..i][n] == done[m];
      assert was[n] == done[m];
    }
  }
}
