/** The two-level cache on values: a small level whose evictions spill into a larger one, entries
    with expiry times, and promotion of often-used entries
    (internal/infrastructure/optimization/cache.go). */
module Caches {
  import opened Basics
  import opened Lrus

  datatype Entry<V> = Entry(value: V, expiresAt: int, accessTime: int, hitCount: nat) {
    predicate Expired(now: int) {
      now > expiresAt
    }
  }

  datatype Stats = Stats(
    l1Hits: nat, l1Misses: nat, l2Hits: nat, l2Misses: nat, evictions: nat, sets: nat, deletes: nat)

  /** `notifies`: whether the LRU library also reports explicit removals to the eviction callback. */
  datatype Config = Config(size1: nat, size2: nat, l1TTL: int, notifies: bool)

  datatype Cache<V> = Cache(l1: seq<Slot<Entry<V>>>, l2: seq<Slot<Entry<V>>>, stats: Stats)

  function Empty<V>(): Cache<V> {
    Cache([], [], Stats(0, 0, 0, 0, 0, 0, 0))
  }

  /** The eviction callback: a slot leaving the first level moves to the second unless expired. */
  function Spill<V>(c: Cache<V>, cfg: Config, out: Slot<Entry<V>>, now: int): Cache<V> {
    if out.value.Expired(now) then c
    else c.(l2 := Added(c.l2, cfg.size2, out.key, out.value).0, stats := c.stats.(evictions := c.stats.evictions + 1))
  }

  function AddL1<V>(c: Cache<V>, cfg: Config, k: string, e: Entry<V>, now: int): Cache<V> {
    var (l1, out) := Added(c.l1, cfg.size1, k, e);
    if out.Some? then Spill(c.(l1 := l1), cfg, out.value, now) else c.(l1 := l1)
  }

  function RemoveL1<V>(c: Cache<V>, cfg: Config, k: string, now: int): Cache<V> {
    match Lookup(c.l1, k)
    case None => c
    case Some(e) =>
      var n := c.(l1 := Without(c.l1, k));
      if cfg.notifies then Spill(n, cfg, Slot(k, e), now) else n
  }

  function Touched<V>(e: Entry<V>, now: int): Entry<V> {
    e.(hitCount := e.hitCount + 1, accessTime := now)
  }

  /** promoteToL1 */
  function Promote<V>(c: Cache<V>, cfg: Config, k: string, e: Entry<V>, now: int): Cache<V> {
    AddL1(c, cfg, k, Entry(e.value, now + cfg.l1TTL, e.accessTime, e.hitCount), now)
  }

  const PROMOTION_HITS: nat := 3

  /** The second half of Get. */
  function GetL2<V>(c: Cache<V>, cfg: Config, k: string, now: int): (Cache<V>, Option<V>) {
    match Lookup(c.l2, k)
    case None => (c.(stats := c.stats.(l2Misses := c.stats.l2Misses + 1)), None)
    case Some(e) =>
      if e.Expired(now) then
        (c.(l2 := Without(c.l2, k), stats := c.stats.(l2Misses := c.stats.l2Misses + 1)), None)
      else
        var t := Touched(e, now);
        var n := c.(l2 := Put(c.l2, k, t), stats := c.stats.(l2Hits := c.stats.l2Hits + 1));
        (if t.hitCount > PROMOTION_HITS then Promote(n, cfg, k, t, now) else n, Some(e.value))
  }

  function Missed<V>(c: Cache<V>): Cache<V> {
    c.(stats := c.stats.(l1Misses := c.stats.l1Misses + 1))
  }

  function Get<V>(c: Cache<V>, cfg: Config, k: string, now: int): (Cache<V>, Option<V>) {
    match Lookup(c.l1, k)
    case None => GetL2(Missed(c), cfg, k, now)
    case Some(e) =>
      if e.Expired(now) then GetL2(Missed(RemoveL1(c, cfg, k, now)), cfg, k, now)
      else (c.(l1 := Put(c.l1, k, Touched(e, now)), stats := c.stats.(l1Hits := c.stats.l1Hits + 1)), Some(e.value))
  }

  function SetWithTTL<V>(c: Cache<V>, cfg: Config, k: string, v: V, ttl: int, now: int): Cache<V> {
    var n := AddL1(c, cfg, k, Entry(v, now + ttl, now, 0), now);
    n.(stats := n.stats.(sets := n.stats.sets + 1))
  }

  function Delete<V>(c: Cache<V>, cfg: Config, k: string, now: int): Cache<V> {
    var n := RemoveL1(c, cfg, k, now);
    n.(l2 := Without(n.l2, k), stats := n.stats.(deletes := n.stats.deletes + 1))
  }

  /** The callback on every slot that a purge of the first level reports, in the library's order. */
  function SpillAll<V>(c: Cache<V>, cfg: Config, out: seq<Slot<Entry<V>>>, now: int): Cache<V>
    decreases |out|
  {
    if out == [] then c else SpillAll(Spill(c, cfg, out[0], now), cfg, out[1..], now)
  }

  function Clear<V>(c: Cache<V>, cfg: Config, order: seq<Slot<Entry<V>>>, now: int): Cache<V> {
    var n := c.(l1 := []);
    (if cfg.notifies then SpillAll(n, cfg, order, now) else n).(l2 := [])
  }

  function Live<V>(s: seq<Slot<Entry<V>>>, now: int): seq<Slot<Entry<V>>> {
    if s == [] then [] else (if s[0].value.Expired(now) then [] else [s[0]]) + Live(s[1..], now)
  }

  function Cleanup<V>(c: Cache<V>, now: int): Cache<V> {
    c.(l1 := Live(c.l1, now), l2 := Live(c.l2, now))
  }

  // ---- Capacity, distinctness and counting ----

  predicate WellFormed<V>(c: Cache<V>, cfg: Config) {
    && 0 < cfg.size1 && 0 < cfg.size2
    && Distinct(c.l1) && |c.l1| <= cfg.size1
    && Distinct(c.l2) && |c.l2| <= cfg.size2
  }

  /** Every Get is a hit or a miss of the first level, every miss a hit or a miss of the second. */
  predicate Counted(s: Stats, gets: nat) {
    s.l1Hits + s.l1Misses == gets && s.l1Misses == s.l2Hits + s.l2Misses
  }

  /** The answer of a level to one key, before and after some slot was added to it. */
  lemma SpillEffect<V>(c: Cache<V>, cfg: Config, out: Slot<Entry<V>>, now: int, j: string)
    requires WellFormed(c, cfg)
    ensures var n := Spill(c, cfg, out, now);
      && WellFormed(n, cfg) && n.l1 == c.l1
      && (out.value.Expired(now) ==> n == c)
      && n.stats == c.stats.(evictions := c.stats.evictions + if now > out.value.expiresAt then 0 else 1)
      && (!out.value.Expired(now) && j == out.key ==> Lookup(n.l2, j) == Some(out.value))
      && (j != out.key ==> Lookup(n.l2, j) == Lookup(c.l2, j) || Lookup(n.l2, j) == None)
  {
    AddedEffect(c.l2, cfg.size2, out.key, out.value);
  }

  /** Adding to the first level: the key gets the entry; any other key keeps its first-level entry,
      or lost it to the second level, or lost it because it had expired; its second-level entry is
      kept, dropped, or replaced by the one that moved down. */
  lemma AddL1Effect<V>(c: Cache<V>, cfg: Config, k: string, e: Entry<V>, now: int, j: string)
    requires WellFormed(c, cfg)
    ensures var n := AddL1(c, cfg, k, e, now);
      var a, b, a', b' := Lookup(c.l1, j), Lookup(c.l2, j), Lookup(n.l1, j), Lookup(n.l2, j);
      && WellFormed(n, cfg) && n.stats == c.stats.(evictions := n.stats.evictions)
      && (j == k ==> a' == Some(e) && (b' == b || b' == None))
      && (j != k ==> (a' == a && (b' == b || b' == None)) || MovedDown(a, b, a', b', now))
  {
    AddedEffect(c.l1, cfg.size1, k, e);
    var (l1, out) := Added(c.l1, cfg.size1, k, e);
    if out.Some? {
      assert Lookup(c.l1, out.value.key) == Some(out.value.value) by {
        assert c.l1[0] == out.value;
      }
      SpillEffect(c.(l1 := l1), cfg, out.value, now, j);
    }
  }

  predicate MovedDown<V(==)>(
      a: Option<Entry<V>>, b: Option<Entry<V>>, a': Option<Entry<V>>, b': Option<Entry<V>>, now: int) {
    a.Some? && a' == None && if a.value.Expired(now) then b' == b else b' == a
  }

  lemma RemoveL1Effect<V>(c: Cache<V>, cfg: Config, k: string, now: int, j: string)
    requires WellFormed(c, cfg)
    ensures var n := RemoveL1(c, cfg, k, now);
      var a, b, a', b' := Lookup(c.l1, j), Lookup(c.l2, j), Lookup(n.l1, j), Lookup(n.l2, j);
      && WellFormed(n, cfg) && n.stats == c.stats.(evictions := n.stats.evictions)
      && a' == (if j == k then None else a)
      && (j != k ==> b' == b || b' == None)
      && (Lookup(c.l1, k).Some? && Lookup(c.l1, k).value.Expired(now) ==> b' == b)
  {
    LookupWithout(c.l1, k, j);
    WithoutDistinct(c.l1, k);
    if Lookup(c.l1, k).Some? {
      SpillEffect(c.(l1 := Without(c.l1, k)), cfg, Slot(k, Lookup(c.l1, k).value), now, j);
    }
  }

  lemma PutEffect<V>(s: seq<Slot<Entry<V>>>, k: string, e: Entry<V>, j: string)
    requires Distinct(s)
    ensures Distinct(Put(s, k, e)) && (Has(s, k) ==> |Put(s, k, e)| == |s|)
    ensures Lookup(Put(s, k, e), j) == if j == k then Some(e) else Lookup(s, j)
  {
    PutDistinct(s, k, e);
    LookupPut(s, k, e, j);
  }

  lemma {:induction false} LiveMembers<V>(s: seq<Slot<Entry<V>>>, now: int, x: Slot<Entry<V>>)
    ensures x in Live(s, now) <==> x in s && !x.value.Expired(now)
  {
    if s != [] {
      LiveMembers(s[1..], now, x);
      assert s == [s[0]] + s[1..];
    }
  }

  lemma {:induction false} LiveDistinct<V>(s: seq<Slot<Entry<V>>>, now: int)
    requires Distinct(s)
    ensures Distinct(Live(s, now)) && |Live(s, now)| <= |s|
  {
    if s != [] {
      var t := s[1..];
      LiveDistinct(t, now);
      forall i | 0 <= i < |Live(t, now)| ensures Live(t, now)[i].key != s[0].key {
        LiveMembers(t, now, Live(t, now)[i]);
        var m :| 0 <= m < |t| && t[m] == Live(t, now)[i];
        assert s[m + 1] == t[m];
      }
    }
  }

  lemma {:induction false} LookupLive<V>(s: seq<Slot<Entry<V>>>, now: int, j: string)
    requires Distinct(s)
    ensures Lookup(Live(s, now), j) ==
            if Lookup(s, j).Some? && Lookup(s, j).value.Expired(now) then None else Lookup(s, j)
  {
    if s != [] {
      LookupLive(s[1..], now, j);
      FirstIsUnique(s);
      if s[0].value.Expired(now) {
        assert [] + Live(s[1..], now) == Live(s[1..], now);
      } else {
        assert ([s[0]] + Live(s[1..], now))[1..] == Live(s[1..], now);
      }
    }
  }

  lemma LiveEffect<V>(s: seq<Slot<Entry<V>>>, now: int, j: string)
    requires Distinct(s)
    ensures Distinct(Live(s, now)) && |Live(s, now)| <= |s|
    ensures Lookup(Live(s, now), j) ==
            if Lookup(s, j).Some? && Lookup(s, j).value.Expired(now) then None else Lookup(s, j)
  {
    LiveDistinct(s, now);
    LookupLive(s, now, j);
  }

  /** A second-level hit before any promotion. */
  function Served<V>(c: Cache<V>, k: string, e: Entry<V>, now: int): Cache<V> {
    c.(l2 := Put(c.l2, k, Touched(e, now)), stats := c.stats.(l2Hits := c.stats.l2Hits + 1))
  }

  /** What a hit in the second level does to the two copies of a key. */
  lemma HitL2Effect<V>(c: Cache<V>, cfg: Config, k: string, e: Entry<V>, now: int, j: string)
    requires WellFormed(c, cfg) && Lookup(c.l1, k) == None && Lookup(c.l2, k) == Some(e) && !e.Expired(now)
    ensures var n := GetL2(c, cfg, k, now).0;
      var a, b, a', b' := Lookup(c.l1, j), Lookup(c.l2, j), Lookup(n.l1, j), Lookup(n.l2, j);
      && WellFormed(n, cfg)
      && (j == k ==> && (a'.Some? ==> a'.value.value == e.value && a'.value.expiresAt == now + cfg.l1TTL)
                     && (b'.Some? ==> b'.value.value == e.value && b'.value.expiresAt == e.expiresAt))
      && (j != k ==> (a' == a && (b' == b || b' == None)) || MovedDown(a, b, a', b', now))
      && n.stats == Served(c, k, e, now).stats.(evictions := n.stats.evictions)
  {
    var t := Touched(e, now);
    var promoted := Entry(t.value, now + cfg.l1TTL, t.accessTime, t.hitCount);
    var served := Served(c, k, e, now);
    ServedEffect(c, cfg, k, e, now, j);
    AddL1Effect(served, cfg, k, promoted, now, j);
    assert GetL2(c, cfg, k, now).0 ==
           if t.hitCount > PROMOTION_HITS then AddL1(served, cfg, k, promoted, now) else served;
    hide GetL2, AddL1, Lookup, WellFormed;
  }

  lemma ServedEffect<V>(c: Cache<V>, cfg: Config, k: string, e: Entry<V>, now: int, j: string)
    requires WellFormed(c, cfg) && Lookup(c.l2, k) == Some(e)
    ensures var n := Served(c, k, e, now);
      WellFormed(n, cfg) && n.l1 == c.l1 && Lookup(n.l2, j) == if j == k then Some(Touched(e, now)) else Lookup(c.l2, j)
  {
    PutEffect(c.l2, k, Touched(e, now), j);
  }

  lemma MissL2Effect<V>(c: Cache<V>, cfg: Config, k: string, now: int, j: string)
    requires WellFormed(c, cfg) && (Lookup(c.l2, k).Some? ==> Lookup(c.l2, k).value.Expired(now))
    ensures var n := GetL2(c, cfg, k, now).0;
      && WellFormed(n, cfg) && n.l1 == c.l1
      && Lookup(n.l2, j) == (if j == k then None else Lookup(c.l2, j))
      && n.stats == c.stats.(l2Misses := c.stats.l2Misses + 1)
  {
    LookupWithout(c.l2, k, j);
    WithoutDistinct(c.l2, k);
  }

  lemma GetL2Shape<V>(c: Cache<V>, cfg: Config, k: string, now: int)
    requires WellFormed(c, cfg) && Lookup(c.l1, k) == None
    ensures var n := GetL2(c, cfg, k, now).0;
      && WellFormed(n, cfg)
      && n.stats.l1Hits == c.stats.l1Hits && n.stats.l1Misses == c.stats.l1Misses
      && n.stats.l2Hits + n.stats.l2Misses == c.stats.l2Hits + c.stats.l2Misses + 1
      && n.stats.sets == c.stats.sets && n.stats.deletes == c.stats.deletes
  {
    var b := Lookup(c.l2, k);
    if b.Some? && !b.value.Expired(now) {
      HitL2Effect(c, cfg, k, b.value, now, k);
    } else {
      MissL2Effect(c, cfg, k, now, k);
    }
  }

  /** A second-level hit, also one behind an expired first-level entry (which leaves), brings the key
      into the first level exactly when it is more than the third hit of the entry; the value is
      answered either way. */
  lemma PromotedIffFrequent<V>(c: Cache<V>, cfg: Config, k: string, e: Entry<V>, now: int)
    requires WellFormed(c, cfg) && Lookup(c.l2, k) == Some(e) && !e.Expired(now)
    requires Lookup(c.l1, k).Some? ==> Lookup(c.l1, k).value.Expired(now)
    ensures var (n, r) := Get(c, cfg, k, now);
      && r == Some(e.value)
      && (e.hitCount < 3 ==> n.l1 == Without(c.l1, k) && n.l2 != [] && n.l2[|n.l2| - 1].key == k
                             && Lookup(n.l2, k) == Some(Entry(e.value, e.expiresAt, now, e.hitCount + 1)))
      && (e.hitCount >= 3 ==>
            Lookup(n.l1, k) == Some(Entry(e.value, now + cfg.l1TTL, now, e.hitCount + 1)))
  {
    RemoveL1Effect(c, cfg, k, now, k);
    hide AddL1, Put, GetL2;
    if Lookup(c.l1, k) == None {
      WithoutAbsent(c.l1, k);
      HitPromotes(Missed(c), cfg, k, e, now);
    } else {
      HitPromotes(Missed(RemoveL1(c, cfg, k, now)), cfg, k, e, now);
    }
  }

  lemma HitPromotes<V>(c: Cache<V>, cfg: Config, k: string, e: Entry<V>, now: int)
    requires WellFormed(c, cfg) && Lookup(c.l1, k) == None && Lookup(c.l2, k) == Some(e) && !e.Expired(now)
    ensures var (n, r) := GetL2(c, cfg, k, now);
      && r == Some(e.value)
      && (e.hitCount < 3 ==> n.l1 == c.l1 && n.l2 != [] && n.l2[|n.l2| - 1].key == k
                             && Lookup(n.l2, k) == Some(Entry(e.value, e.expiresAt, now, e.hitCount + 1)))
      && (e.hitCount >= 3 ==>
            Lookup(n.l1, k) == Some(Entry(e.value, now + cfg.l1TTL, now, e.hitCount + 1)))
  {
    var t, served := Touched(e, now), Served(c, k, e, now);
    ServedEffect(c, cfg, k, e, now, k);
    if e.hitCount < 3 {
      assert GetL2(c, cfg, k, now) == (served, Some(e.value));
      assert served.l2[|served.l2| - 1].key == k;
    } else {
      var promoted := Entry(t.value, now + cfg.l1TTL, t.accessTime, t.hitCount);
      AddL1Effect(served, cfg, k, promoted, now, k);
      assert GetL2(c, cfg, k, now) == (AddL1(served, cfg, k, promoted, now), Some(e.value));
    }
    hide AddL1, GetL2, Put, Lookup, WellFormed;
  }

  /** After Delete the key is in neither level, whether or not removal is reported to the callback. */
  lemma DeleteRemoves<V>(c: Cache<V>, cfg: Config, k: string, now: int)
    requires WellFormed(c, cfg)
    ensures var n := Delete(c, cfg, k, now);
      WellFormed(n, cfg) && Lookup(n.l1, k) == None && Lookup(n.l2, k) == None
  {
    RemoveL1Effect(c, cfg, k, now, k);
    var n := RemoveL1(c, cfg, k, now);
    LookupWithout(n.l2, k, k);
    WithoutDistinct(n.l2, k);
  }

  /** Delete spares another key's second-level copy unless the removed entry, reported to the
      callback and still valid, takes the last place and pushes out exactly that copy. */
  lemma DeleteSparesOthersIff<V>(c: Cache<V>, cfg: Config, k: string, now: int, j: string)
    requires WellFormed(c, cfg) && j != k
    ensures var n := Delete(c, cfg, k, now);
      && Lookup(n.l1, j) == Lookup(c.l1, j)
      && (Lookup(n.l2, j) == Lookup(c.l2, j) <==>
            !(&& cfg.notifies && Lookup(c.l1, k).Some? && !Lookup(c.l1, k).value.Expired(now)
              && !Has(c.l2, k) && |c.l2| == cfg.size2 && c.l2[0].key == j))
  {
    LookupWithout(c.l1, k, j);
    var n := RemoveL1(c, cfg, k, now);
    LookupWithout(n.l2, k, j);
    if Lookup(c.l1, k).Some? && cfg.notifies && !Lookup(c.l1, k).value.Expired(now) {
      AddedDropsOldestIff(c.l2, cfg.size2, k, Lookup(c.l1, k).value, j);
    }
  }

  lemma AddedDropsOldestIff<V>(s: seq<Slot<V>>, size: nat, k: string, v: V, j: string)
    requires Distinct(s) && |s| <= size && 0 < size && j != k
    ensures Lookup(Added(s, size, k, v).0, j) == Lookup(s, j) <==> !(!Has(s, k) && |s| == size && s[0].key == j)
  {
    LookupPut(s, k, v, j);
    PutDistinct(s, k, v);
    if !Has(s, k) && |s| == size {
      WithoutAbsent(s, k);
      LookupDropFirst(Put(s, k, v), j);
    }
  }

  // ---- Runs ----

  datatype Op<V> =
    | GetOp(key: string, at: int)
    | SetOp(key: string, value: V, ttl: int, at: int)
    | DeleteOp(key: string, at: int)
    | ClearOp(order: seq<Slot<Entry<V>>>, at: int)
    | CleanupOp(at: int)

  function Step<V>(c: Cache<V>, cfg: Config, op: Op<V>): Cache<V> {
    match op
    case GetOp(k, at) => Get(c, cfg, k, at).0
    case SetOp(k, v, ttl, at) => SetWithTTL(c, cfg, k, v, ttl, at)
    case DeleteOp(k, at) => Delete(c, cfg, k, at)
    case ClearOp(order, at) => Clear(c, cfg, order, at)
    case CleanupOp(at) => Cleanup(c, at)
  }

  function Run<V>(c: Cache<V>, cfg: Config, ops: seq<Op<V>>): Cache<V>
    decreases |ops|
  {
    if ops == [] then c else Run(Step(c, cfg, ops[0]), cfg, ops[1..])
  }

  function Gets<V>(ops: seq<Op<V>>): nat {
    if ops == [] then 0 else (if ops[0].GetOp? then 1 else 0) + Gets(ops[1..])
  }

  function Sets<V>(ops: seq<Op<V>>): nat {
    if ops == [] then 0 else (if ops[0].SetOp? then 1 else 0) + Sets(ops[1..])
  }

  function Deletes<V>(ops: seq<Op<V>>): nat {
    if ops == [] then 0 else (if ops[0].DeleteOp? then 1 else 0) + Deletes(ops[1..])
  }

  /** The readings of the clock that the operations take, none before `from` or after `to`. */
  predicate InTimeOrder<V>(ops: seq<Op<V>>, from: int, to: int) {
    && from <= to
    && (forall i :: 0 <= i < |ops| ==> from <= ops[i].at <= to)
    && forall i, j :: 0 <= i < j < |ops| ==> ops[i].at <= ops[j].at
  }

  lemma GetShape<V>(c: Cache<V>, cfg: Config, k: string, now: int)
    requires WellFormed(c, cfg)
    ensures var n := Get(c, cfg, k, now).0;
      && WellFormed(n, cfg)
      && (forall g: nat :: Counted(c.stats, g) ==> Counted(n.stats, g + 1))
      && n.stats.sets == c.stats.sets && n.stats.deletes == c.stats.deletes
  {
    hide GetL2, RemoveL1;
    match Lookup(c.l1, k)
    case None => GetL2Shape(Missed(c), cfg, k, now);
    case Some(e) =>
      if e.Expired(now) {
        RemoveL1Effect(c, cfg, k, now, k);
        GetL2Shape(Missed(RemoveL1(c, cfg, k, now)), cfg, k, now);
      } else {
        PutEffect(c.l1, k, Touched(e, now), k);
      }
  }

  lemma {:induction false} SpillAllShape<V>(c: Cache<V>, cfg: Config, out: seq<Slot<Entry<V>>>, now: int)
    requires WellFormed(c, cfg)
    ensures var n := SpillAll(c, cfg, out, now);
      WellFormed(n, cfg) && n.l1 == c.l1 && n.stats == c.stats.(evictions := n.stats.evictions)
    decreases |out|
  {
    if out != [] {
      SpillEffect(c, cfg, out[0], now, "");
      SpillAllShape(Spill(c, cfg, out[0], now), cfg, out[1..], now);
    }
  }

  lemma StepShape<V>(c: Cache<V>, cfg: Config, op: Op<V>)
    requires WellFormed(c, cfg)
    ensures WellFormed(Step(c, cfg, op), cfg)
    ensures forall gets: nat :: Counted(c.stats, gets) ==>
              Counted(Step(c, cfg, op).stats, gets + if op.GetOp? then 1 else 0)
    ensures Step(c, cfg, op).stats.sets == c.stats.sets + if op.SetOp? then 1 else 0
    ensures Step(c, cfg, op).stats.deletes == c.stats.deletes + if op.DeleteOp? then 1 else 0
  {
    hide Get, SetWithTTL, Delete, Clear, Cleanup;
    match op
    case GetOp(k, at) => GetShape(c, cfg, k, at);
    case SetOp(k, v, ttl, at) => SetShape(c, cfg, k, v, ttl, at);
    case DeleteOp(k, at) => DeleteShape(c, cfg, k, at);
    case ClearOp(order, at) => ClearShape(c, cfg, order, at);
    case CleanupOp(at) => CleanupShape(c, cfg, at);
  }

  lemma SetShape<V>(c: Cache<V>, cfg: Config, k: string, v: V, ttl: int, now: int)
    requires WellFormed(c, cfg)
    ensures var n := SetWithTTL(c, cfg, k, v, ttl, now);
      WellFormed(n, cfg) && n.stats == c.stats.(evictions := n.stats.evictions, sets := c.stats.sets + 1)
  {
    AddL1Effect(c, cfg, k, Entry(v, now + ttl, now, 0), now, k);
    hide AddL1;
  }

  lemma DeleteShape<V>(c: Cache<V>, cfg: Config, k: string, now: int)
    requires WellFormed(c, cfg)
    ensures var n := Delete(c, cfg, k, now);
      WellFormed(n, cfg) && n.stats == c.stats.(evictions := n.stats.evictions, deletes := c.stats.deletes + 1)
  {
    DeleteRemoves(c, cfg, k, now);
    RemoveL1Effect(c, cfg, k, now, k);
    hide RemoveL1, WellFormed;
  }

  lemma ClearShape<V>(c: Cache<V>, cfg: Config, order: seq<Slot<Entry<V>>>, now: int)
    requires WellFormed(c, cfg)
    ensures var n := Clear(c, cfg, order, now);
      WellFormed(n, cfg) && n.stats == c.stats.(evictions := n.stats.evictions)
  {
    SpillAllShape(c.(l1 := []), cfg, order, now);
    hide SpillAll;
  }

  lemma CleanupShape<V>(c: Cache<V>, cfg: Config, now: int)
    requires WellFormed(c, cfg)
    ensures WellFormed(Cleanup(c, now), cfg) && Cleanup(c, now).stats == c.stats
  {
    LiveEffect(c.l1, now, "");
    LiveEffect(c.l2, now, "");
  }

  /** Over every run both levels keep their capacities and no key twice, and the counters add up:
      one first-level hit or miss a Get, one second-level hit or miss a first-level miss. */
  lemma {:induction false} RunShape<V>(c: Cache<V>, cfg: Config, ops: seq<Op<V>>, gets: nat)
    requires WellFormed(c, cfg) && Counted(c.stats, gets)
    ensures WellFormed(Run(c, cfg, ops), cfg) && Counted(Run(c, cfg, ops).stats, gets + Gets(ops))
    ensures Run(c, cfg, ops).stats.sets == c.stats.sets + Sets(ops)
    ensures Run(c, cfg, ops).stats.deletes == c.stats.deletes + Deletes(ops)
    decreases |ops|
  {
    hide Step;
    if ops != [] {
      StepShape(c, cfg, ops[0]);
      RunShape(Step(c, cfg, ops[0]), cfg, ops[1..], gets + if ops[0].GetOp? then 1 else 0);
    }
  }

  /** Every slot alive at a purge counts as an eviction when the purge is reported; no other counter moves. */
  lemma {:induction false} SpillAllCounts<V>(c: Cache<V>, cfg: Config, out: seq<Slot<Entry<V>>>, now: int)
    requires WellFormed(c, cfg)
    ensures var n := SpillAll(c, cfg, out, now);
      n.stats == c.stats.(evictions := c.stats.evictions + |Live(out, now)|)
    decreases |out|
  {
    if out != [] {
      SpillEffect(c, cfg, out[0], now, "");
      hide Spill, WellFormed;
      SpillAllCounts(Spill(c, cfg, out[0], now), cfg, out[1..], now);
    }
  }

  lemma ClearCounts<V>(c: Cache<V>, cfg: Config, order: seq<Slot<Entry<V>>>, now: int)
    requires WellFormed(c, cfg)
    ensures Clear(c, cfg, order, now).stats
         == c.stats.(evictions := c.stats.evictions + if cfg.notifies then |Live(order, now)| else 0)
  {
    SpillAllCounts(c.(l1 := []), cfg, order, now);
  }

  lemma ClearEmpties<V>(c: Cache<V>, cfg: Config, order: seq<Slot<Entry<V>>>, now: int)
    requires WellFormed(c, cfg)
    ensures Clear(c, cfg, order, now).l1 == [] && Clear(c, cfg, order, now).l2 == []
  {
    SpillAllShape(c.(l1 := []), cfg, order, now);
  }

  // ---- What a Get answers, counts and promotes ----

  /** A copy is alive up to and including the instant at which it expires. */
  predicate Alive<V>(e: Option<Entry<V>>, now: int) {
    e.Some? && now <= e.value.expiresAt
  }

  /** The whole visible effect of a Get: the answer is that of the first level if it is alive there, else
      that of the second if it is alive there, else nothing; each case counts once. */
  lemma GetAnswers<V>(c: Cache<V>, cfg: Config, k: string, now: int)
    requires WellFormed(c, cfg)
    ensures var (n, r) := Get(c, cfg, k, now);
      var a, b := Lookup(c.l1, k), Lookup(c.l2, k);
      && r == (if Alive(a, now) then Some(a.value.value) else if Alive(b, now) then Some(b.value.value) else None)
      && n.stats.l1Hits - c.stats.l1Hits == (if Alive(a, now) then 1 else 0)
      && n.stats.l1Misses - c.stats.l1Misses == (if Alive(a, now) then 0 else 1)
      && n.stats.l2Hits - c.stats.l2Hits == (if !Alive(a, now) && Alive(b, now) then 1 else 0)
      && n.stats.l2Misses - c.stats.l2Misses == (if !Alive(a, now) && !Alive(b, now) then 1 else 0)
      && n.stats.sets == c.stats.sets && n.stats.deletes == c.stats.deletes
      && (r == None ==> Lookup(n.l1, k) == None && Lookup(n.l2, k) == None)
  {
    hide GetL2, RemoveL1, Lookup, Put;
    RemoveL1Effect(c, cfg, k, now, k);
    match Lookup(c.l1, k)
    case None => GetL2Answers(Missed(c), cfg, k, now);
    case Some(e) =>
      if e.Expired(now) {
        GetL2Answers(Missed(RemoveL1(c, cfg, k, now)), cfg, k, now);
      }
  }

  lemma GetL2Answers<V>(c: Cache<V>, cfg: Config, k: string, now: int)
    requires WellFormed(c, cfg) && Lookup(c.l1, k) == None
    ensures var (n, r) := GetL2(c, cfg, k, now);
      var b := Lookup(c.l2, k);
      && r == (if Alive(b, now) then Some(b.value.value) else None)
      && n.stats == c.stats.(
           l2Hits := c.stats.l2Hits + (if Alive(b, now) then 1 else 0),
           l2Misses := c.stats.l2Misses + (if Alive(b, now) then 0 else 1),
           evictions := n.stats.evictions)
      && (r == None ==> Lookup(n.l1, k) == None && Lookup(n.l2, k) == None)
  {
    var b := Lookup(c.l2, k);
    assert GetL2(c, cfg, k, now).1 == if b.Some? && !b.value.Expired(now) then Some(b.value.value) else None;
    hide GetL2, Lookup, WellFormed;
    if b.Some? && !b.value.Expired(now) {
      HitL2Effect(c, cfg, k, b.value, now, k);
    } else {
      MissL2Effect(c, cfg, k, now, k);
    }
  }

  /** A hit in the first level counts one more hit of the entry, makes it the most recent, and touches
      nothing else. */
  lemma FirstLevelHit<V>(c: Cache<V>, cfg: Config, k: string, e: Entry<V>, now: int, j: string)
    requires WellFormed(c, cfg) && Lookup(c.l1, k) == Some(e) && now <= e.expiresAt
    ensures var n := Get(c, cfg, k, now).0;
      && Lookup(n.l1, k) == Some(Entry(e.value, e.expiresAt, now, e.hitCount + 1))
      && n.l1 != [] && n.l1[|n.l1| - 1].key == k
      && (j != k ==> Lookup(n.l1, j) == Lookup(c.l1, j))
      && n.l2 == c.l2
  {
    LookupPut(c.l1, k, Touched(e, now), j);
    LookupPut(c.l1, k, Touched(e, now), k);
  }

  function GetsOf<V>(k: string, times: seq<int>): (ops: seq<Op<V>>)
    ensures |ops| == |times| && forall i :: 0 <= i < |ops| ==> ops[i] == GetOp(k, times[i])
  {
    seq(|times|, i requires 0 <= i < |times| => GetOp(k, times[i]))
  }

  /** An entry that moved down uncounted: after each of three Gets it stays in the second level with one
      hit more, and the fourth Get brings it back into the first, for the first level's time to live. */
  lemma {:induction false} FourthHitPromotes<V>(c: Cache<V>, cfg: Config, k: string, e: Entry<V>, times: seq<int>)
    requires WellFormed(c, cfg) && Lookup(c.l1, k) == None && Lookup(c.l2, k) == Some(e) && e.hitCount == 0
    requires |times| == 4 && forall i :: 0 <= i < 4 ==> times[i] <= e.expiresAt
    ensures var three := Run(c, cfg, GetsOf(k, times[..3]));
      Lookup(three.l1, k) == None && Lookup(three.l2, k) == Some(Entry(e.value, e.expiresAt, times[2], 3))
    ensures var four := Run(c, cfg, GetsOf(k, times));
      Lookup(four.l1, k) == Some(Entry(e.value, times[3] + cfg.l1TTL, times[3], 4))
  {
    hide Get, Lookup, WellFormed, GetsOf;
    HitsBelowPromotion(c, cfg, k, e, times[..3]);
    var three := Run(c, cfg, GetsOf(k, times[..3]));
    PromotedIffFrequent(three, cfg, k, Entry(e.value, e.expiresAt, times[2], 3), times[3]);
    assert GetsOf<V>(k, times) == GetsOf(k, times[..3]) + [GetOp(k, times[3])];
    RunSnoc(c, cfg, GetsOf(k, times[..3]), GetOp(k, times[3]));
  }

  lemma {:induction false} RunSnoc<V>(c: Cache<V>, cfg: Config, ops: seq<Op<V>>, op: Op<V>)
    ensures Run(c, cfg, ops + [op]) == Step(Run(c, cfg, ops), cfg, op)
    decreases |ops|
  {
    hide Step;
    if ops == [] {
      assert [] + [op] == [op] && [op][1..] == [];
    } else {
      assert (ops + [op])[1..] == ops[1..] + [op];
      RunSnoc(Step(c, cfg, ops[0]), cfg, ops[1..], op);
    }
  }

  lemma {:induction false} HitsBelowPromotion<V>(c: Cache<V>, cfg: Config, k: string, e: Entry<V>, times: seq<int>)
    requires WellFormed(c, cfg) && Lookup(c.l1, k) == None && Lookup(c.l2, k) == Some(e)
    requires e.hitCount + |times| <= 3 && forall i :: 0 <= i < |times| ==> times[i] <= e.expiresAt
    ensures var n := Run(c, cfg, GetsOf(k, times));
      && WellFormed(n, cfg) && Lookup(n.l1, k) == None
      && (times == [] ==> Lookup(n.l2, k) == Some(e))
      && (times != [] ==>
            var last := Entry(e.value, e.expiresAt, times[|times| - 1], e.hitCount + |times|);
            Lookup(n.l2, k) == Some(last))
    decreases |times|
  {
    hide Get, Step, GetsOf, WellFormed, Lookup, Without;
    if times != [] {
      var n := Get(c, cfg, k, times[0]).0;
      var next := Entry(e.value, e.expiresAt, times[0], e.hitCount + 1);
      PromotedIffFrequent(c, cfg, k, e, times[0]);
      GetShape(c, cfg, k, times[0]);
      LookupWithout(c.l1, k, k);
      StepIsGet(c, cfg, k, times[0]);
      assert GetsOf<V>(k, times)[1..] == GetsOf(k, times[1..]);
      HitsBelowPromotion(n, cfg, k, next, times[1..]);
    }
  }

  lemma StepIsGet<V>(c: Cache<V>, cfg: Config, k: string, now: int)
    ensures Step(c, cfg, GetOp(k, now)) == Get(c, cfg, k, now).0
  {
  }

  // ---- What cleanup leaves ----

  /** One slot stands before another. */
  ghost predicate StandsBefore<V>(s: seq<Slot<V>>, x: Slot<V>, y: Slot<V>) {
    exists i, j :: 0 <= i < j < |s| && s[i] == x && s[j] == y
  }

  /** From `before` to `after` exactly the slots alive at that time are left, in their old order. */
  ghost predicate KeepsAlive<V>(before: seq<Slot<Entry<V>>>, after: seq<Slot<Entry<V>>>, now: int) {
    && (forall i :: 0 <= i < |after| ==> after[i] in before && now <= after[i].value.expiresAt)
    && (forall i :: 0 <= i < |before| && now <= before[i].value.expiresAt ==> before[i] in after)
    && (forall i, j :: 0 <= i < j < |after| ==> StandsBefore(before, after[i], after[j]))
  }

  lemma StandsInTail<V>(s: seq<Slot<V>>, x: Slot<V>, y: Slot<V>)
    requires s != [] && (StandsBefore(s[1..], x, y) || (x == s[0] && y in s[1..]))
    ensures StandsBefore(s, x, y)
  {
    var t := s[1..];
    if StandsBefore(t, x, y) {
      var i, j :| 0 <= i < j < |t| && t[i] == x && t[j] == y;
      assert s[i + 1] == x && s[j + 1] == y;
    } else {
      var j :| 0 <= j < |t| && t[j] == y;
      assert s[0] == x && s[j + 1] == y;
    }
  }

  lemma {:induction false} LiveKeepsOrder<V>(s: seq<Slot<Entry<V>>>, now: int, x: Slot<Entry<V>>, y: Slot<Entry<V>>)
    requires StandsBefore(Live(s, now), x, y)
    ensures StandsBefore(s, x, y)
  {
    var r, t := Live(s, now), s[1..];
    var i, j :| 0 <= i < j < |r| && r[i] == x && r[j] == y;
    var q := Live(t, now);
    assert r == (if s[0].value.Expired(now) then [] else [s[0]]) + q;
    var d := |r| - |q|;
    assert j >= d && q[j - d] == y;
    LiveMembers(t, now, y);
    hide Live;
    if i >= d {
      assert q[i - d] == x;
      assert StandsBefore(q, x, y);
      LiveKeepsOrder(t, now, x, y);
    }
    StandsInTail(s, x, y);
  }

  lemma LiveKeepsAlive<V>(s: seq<Slot<Entry<V>>>, now: int)
    ensures KeepsAlive(s, Live(s, now), now)
  {
    var r := Live(s, now);
    forall i | 0 <= i < |r| ensures r[i] in s && now <= r[i].value.expiresAt {
      LiveMembers(s, now, r[i]);
    }
    forall i | 0 <= i < |s| && now <= s[i].value.expiresAt ensures s[i] in r {
      LiveMembers(s, now, s[i]);
    }
    hide Live;
    forall i, j | 0 <= i < j < |r| ensures StandsBefore(s, r[i], r[j]) {
      LiveKeepsOrder(s, now, r[i], r[j]);
    }
  }

  /** Cleanup leaves, in both levels, exactly the entries alive, in their old order, and no counter moves. */
  lemma CleanupKeepsAlive<V>(c: Cache<V>, now: int)
    ensures var n := Cleanup(c, now);
      KeepsAlive(c.l1, n.l1, now) && KeepsAlive(c.l2, n.l2, now) && n.stats == c.stats
  {
    LiveKeepsAlive(c.l1, now);
    LiveKeepsAlive(c.l2, now);
  }

  // ---- A cache with room for all its keys ----

  predicate KeysIn<V>(s: seq<Slot<Entry<V>>>, keys: set<string>) {
    forall i :: 0 <= i < |s| ==> s[i].key in keys
  }

  lemma {:induction false} KeysFit<V>(s: seq<Slot<Entry<V>>>, keys: set<string>)
    requires Distinct(s) && KeysIn(s, keys)
    ensures |s| <= |keys|
    decreases |s|
  {
    if s != [] {
      FirstIsUnique(s);
      assert forall i :: 0 <= i < |s| - 1 ==> s[1..][i] == s[i + 1];
      KeysFit(s[1..], keys - {s[0].key});
    }
  }

  /** Only keys from a set that fits into the first level, and nothing in the second. */
  predicate Roomy<V>(c: Cache<V>, cfg: Config, keys: set<string>) {
    WellFormed(c, cfg) && KeysIn(c.l1, keys) && c.l2 == [] && |keys| <= cfg.size1
  }

  lemma RoomyAdd<V>(c: Cache<V>, cfg: Config, keys: set<string>, k: string, e: Entry<V>, now: int, j: string)
    requires Roomy(c, cfg, keys) && k in keys
    ensures Roomy(AddL1(c, cfg, k, e, now), cfg, keys)
    ensures Lookup(AddL1(c, cfg, k, e, now).l1, j) == if j == k then Some(e) else Lookup(c.l1, j)
  {
    AddL1Effect(c, cfg, k, e, now, j);
    LookupPut(c.l1, k, e, j);
    PutDistinct(c.l1, k, e);
    var p := Put(c.l1, k, e);
    forall i | 0 <= i < |p| ensures p[i].key in keys {
      assert i < |Without(c.l1, k)| ==> p[i] == Without(c.l1, k)[i];
      if i < |Without(c.l1, k)| {
        WithoutMembers(c.l1, k, p[i]);
      }
    }
    KeysFit(p, keys);
    hide Put, Lookup;
  }

  lemma RoomyWithout<V>(c: Cache<V>, cfg: Config, keys: set<string>, k: string)
    requires Roomy(c, cfg, keys)
    ensures KeysIn(Without(c.l1, k), keys) && Without(c.l2, k) == []
  {
    var w := Without(c.l1, k);
    forall i | 0 <= i < |w| ensures w[i].key in keys {
      WithoutMembers(c.l1, k, w[i]);
    }
  }

  lemma {:induction false} RoomyStep<V>(c: Cache<V>, cfg: Config, keys: set<string>, op: Op<V>)
    requires Roomy(c, cfg, keys) && (op.SetOp? ==> op.key in keys)
    ensures Roomy(Step(c, cfg, op), cfg, keys)
  {
    StepShape(c, cfg, op);
    match op
    case GetOp(k, at) => RoomyGet(c, cfg, keys, k, at);
    case SetOp(k, v, ttl, at) => RoomyAdd(c, cfg, keys, k, Entry(v, at + ttl, at, 0), at, k);
    case DeleteOp(k, at) =>
      RoomyWithout(c, cfg, keys, k);
      DeleteFromRoomy(c, cfg, k, at);
      hide Delete, Without, WellFormed, Lookup;
    case ClearOp(order, at) => ClearEmpties(c, cfg, order, at);
    case CleanupOp(at) =>
      forall i | 0 <= i < |Live(c.l1, at)| ensures Live(c.l1, at)[i].key in keys {
        LiveMembers(c.l1, at, Live(c.l1, at)[i]);
      }
  }

  lemma DeleteFromRoomy<V>(c: Cache<V>, cfg: Config, k: string, now: int)
    requires WellFormed(c, cfg) && c.l2 == []
    ensures Delete(c, cfg, k, now).l2 == [] && Delete(c, cfg, k, now).l1 == Without(c.l1, k)
  {
    if Lookup(c.l1, k) == None {
      WithoutAbsent(c.l1, k);
    } else {
      var e := Lookup(c.l1, k).value;
      assert Put([], k, e) == [Slot(k, e)];
      assert Without([Slot(k, e)], k) == [] by {
        assert [Slot(k, e)][1..] == [];
      }
    }
  }

  lemma RoomyGet<V>(c: Cache<V>, cfg: Config, keys: set<string>, k: string, now: int)
    requires Roomy(c, cfg, keys)
    ensures KeysIn(Get(c, cfg, k, now).0.l1, keys) && Get(c, cfg, k, now).0.l2 == []
  {
    RoomyWithout(c, cfg, keys, k);
    if Lookup(c.l1, k).Some? {
      var e := Touched(Lookup(c.l1, k).value, now);
      var i :| 0 <= i < |c.l1| && c.l1[i].key == k;
      assert forall m :: 0 <= m < |Without(c.l1, k)| ==> Put(c.l1, k, e)[m] == Without(c.l1, k)[m];
    }
  }

  /** What was last set for a key and when that expires, forgotten by Delete and Clear. */
  function SetAfter<V>(was: Option<(V, int)>, op: Op<V>, k: string): Option<(V, int)> {
    match op
    case SetOp(j, v, ttl, at) => if j == k then Some((v, at + ttl)) else was
    case DeleteOp(j, _) => if j == k then None else was
    case ClearOp(_, _) => None
    case _ => was
  }

  function LastSet<V>(was: Option<(V, int)>, ops: seq<Op<V>>, k: string): Option<(V, int)>
    decreases |ops|
  {
    if ops == [] then was else LastSet(SetAfter(was, ops[0], k), ops[1..], k)
  }

  /** The first level holds what was last set for the key as long as that is alive. */
  predicate Remembers<V(==)>(c: Cache<V>, k: string, given: Option<(V, int)>, now: int) {
    given.Some? && now <= given.value.1 ==>
      var e := Lookup(c.l1, k);
      e.Some? && e.value.value == given.value.0 && e.value.expiresAt == given.value.1
  }

  /** One operation other than on the key itself keeps its first-level copy while it is alive. */
  lemma {:induction false} RoomyStepKeeps<V>(c: Cache<V>, cfg: Config, keys: set<string>, op: Op<V>, k: string)
    requires Roomy(c, cfg, keys) && (op.SetOp? ==> op.key in keys && op.key != k)
    requires !op.ClearOp? && (op.DeleteOp? ==> op.key != k)
    ensures var a, a' := Lookup(c.l1, k), Lookup(Step(c, cfg, op).l1, k);
      Alive(a, op.at) ==> a'.Some? && a'.value.value == a.value.value && a'.value.expiresAt == a.value.expiresAt
  {
    hide Get, AddL1, Delete, Live, Without;
    match op
    case GetOp(j, at) => RoomyGetKeeps(c, cfg, j, k, at);
    case SetOp(j, v, ttl, at) => RoomyAdd(c, cfg, keys, j, Entry(v, at + ttl, at, 0), at, k);
    case DeleteOp(j, at) =>
      DeleteFromRoomy(c, cfg, j, at);
      LookupWithout(c.l1, j, k);
    case CleanupOp(at) => LookupLive(c.l1, at, k);
  }

  lemma RoomySet<V>(c: Cache<V>, cfg: Config, keys: set<string>, op: Op<V>, k: string)
    requires Roomy(c, cfg, keys) && op.SetOp? && op.key == k && k in keys
    ensures Lookup(Step(c, cfg, op).l1, k) == Some(Entry(op.value, op.at + op.ttl, op.at, 0))
  {
    RoomyAdd(c, cfg, keys, k, Entry(op.value, op.at + op.ttl, op.at, 0), op.at, k);
    hide AddL1, Lookup, Roomy;
  }

  lemma {:induction false} RoomyStepRemembers<V>(
      c: Cache<V>, cfg: Config, keys: set<string>, op: Op<V>, k: string, was: Option<(V, int)>, now: int)
    requires Roomy(c, cfg, keys) && (op.SetOp? ==> op.key in keys)
    requires Remembers(c, k, was, now) && now <= op.at
    ensures Remembers(Step(c, cfg, op), k, SetAfter(was, op, k), op.at)
  {
    hide Step, Roomy, Lookup;
    if op.SetOp? && op.key == k {
      RoomySet(c, cfg, keys, op, k);
    } else if !op.ClearOp? && !(op.DeleteOp? && op.key == k) {
      RoomyStepKeeps(c, cfg, keys, op, k);
    }
  }

  lemma RoomyGetKeeps<V>(c: Cache<V>, cfg: Config, j: string, k: string, now: int)
    requires WellFormed(c, cfg) && c.l2 == []
    ensures var a, a' := Lookup(c.l1, k), Lookup(Get(c, cfg, j, now).0.l1, k);
      Alive(a, now) ==> a'.Some? && a'.value.value == a.value.value && a'.value.expiresAt == a.value.expiresAt
  {
    RemoveL1Effect(c, cfg, j, now, k);
    RemoveL1Effect(c, cfg, j, now, j);
    assert Lookup(c.l2, j) == None;
    match Lookup(c.l1, j)
    case None =>
    case Some(e) =>
      if e.Expired(now) {
        hide RemoveL1;
        assert Lookup(RemoveL1(c, cfg, j, now).l2, j) == None;
      } else {
        LookupPut(c.l1, j, Touched(e, now), k);
      }
  }

  lemma {:induction false} RoomyRunRemembers<V>(
      c: Cache<V>, cfg: Config, keys: set<string>, ops: seq<Op<V>>, k: string,
      was: Option<(V, int)>, now: int, later: int)
    requires Roomy(c, cfg, keys) && Remembers(c, k, was, now) && InTimeOrder(ops, now, later)
    requires forall i :: 0 <= i < |ops| && ops[i].SetOp? ==> ops[i].key in keys
    ensures Roomy(Run(c, cfg, ops), cfg, keys) && Remembers(Run(c, cfg, ops), k, LastSet(was, ops, k), later)
    decreases |ops|
  {
    if ops != [] {
      var op := ops[0];
      RoomyStep(c, cfg, keys, op);
      RoomyStepRemembers(c, cfg, keys, op, k, was, now);
      hide Step, Roomy, Remembers, SetAfter;
      RoomyRunRemembers(Step(c, cfg, op), cfg, keys, ops[1..], k, SetAfter(was, op, k), op.at, later);
    }
  }

  /** With room in the first level for every key that is ever set, and a clock that never goes back, a Get
      finds what was last set for its key as long as that is alive. */
  lemma {:induction false} RoomyCacheFinds<V>(
      cfg: Config, keys: set<string>, ops: seq<Op<V>>, k: string, from: int, now: int)
    requires 0 < cfg.size1 && 0 < cfg.size2 && |keys| <= cfg.size1 && InTimeOrder(ops, from, now)
    requires forall i :: 0 <= i < |ops| && ops[i].SetOp? ==> ops[i].key in keys
    ensures var last := LastSet(None, ops, k);
      last.Some? && now <= last.value.1 ==> Get(Run(Empty(), cfg, ops), cfg, k, now).1 == Some(last.value.0)
  {
    RoomyRunRemembers(Empty(), cfg, keys, ops, k, None, from, now);
    GetAnswers(Run(Empty(), cfg, ops), cfg, k, now);
    hide Run, Get, Lookup;
  }

  // ---- Freshness of one key ----

  /** The two copies of one key against the value last set for it: the first level is never out of
      date; the second may be, but then the first holds a copy that lasts at least as long, or the
      old copy has already expired. */
  predicate Fresh<V(==)>(a: Option<Entry<V>>, b: Option<Entry<V>>, truth: Option<V>, now: int) {
    && (a.Some? ==> truth == Some(a.value.value))
    && (b.Some? ==>
          && truth.Some?
          && (|| truth == Some(b.value.value)
              || (a.Some? && b.value.expiresAt <= a.value.expiresAt)
              || b.value.Expired(now)))
  }

  predicate FreshAt<V(==)>(c: Cache<V>, k: string, truth: Option<V>, now: int) {
    Fresh(Lookup(c.l1, k), Lookup(c.l2, k), truth, now)
  }

  lemma TimePasses<V>(c: Cache<V>, k: string, truth: Option<V>, now: int, later: int)
    requires FreshAt(c, k, truth, now) && now <= later
    ensures FreshAt(c, k, truth, later)
  {
  }

  lemma GetL2StaysFresh<V>(c: Cache<V>, cfg: Config, k: string, j: string, truth: Option<V>, now: int)
    requires WellFormed(c, cfg) && Lookup(c.l1, k) == None && FreshAt(c, j, truth, now)
    ensures FreshAt(GetL2(c, cfg, k, now).0, j, truth, now)
    ensures j == k ==> GetL2(c, cfg, k, now).1 in {None, truth}
  {
    var b := Lookup(c.l2, k);
    assert GetL2(c, cfg, k, now).1 == if b.Some? && !b.value.Expired(now) then Some(b.value.value) else None;
    hide GetL2;
    if b.Some? && !b.value.Expired(now) {
      HitL2Effect(c, cfg, k, b.value, now, j);
    } else {
      MissL2Effect(c, cfg, k, now, j);
    }
  }

  lemma RemoveExpiredStaysFresh<V>(c: Cache<V>, cfg: Config, k: string, j: string, truth: Option<V>, now: int)
    requires WellFormed(c, cfg) && FreshAt(c, j, truth, now)
    requires Lookup(c.l1, k).Some? && Lookup(c.l1, k).value.Expired(now)
    ensures var n := RemoveL1(c, cfg, k, now);
      WellFormed(n, cfg) && FreshAt(n, j, truth, now) && Lookup(n.l1, k) == None
  {
    RemoveL1Effect(c, cfg, k, now, k);
    RemoveL1Effect(c, cfg, k, now, j);
    hide RemoveL1;
  }

  /** For any key, a Get of any key keeps it fresh; a Get of that key answers with nothing or with the
      value last set for it. */
  lemma GetStaysFresh<V>(c: Cache<V>, cfg: Config, k: string, j: string, truth: Option<V>, now: int)
    requires WellFormed(c, cfg) && FreshAt(c, j, truth, now)
    ensures FreshAt(Get(c, cfg, k, now).0, j, truth, now)
    ensures j == k ==> Get(c, cfg, k, now).1 in {None, truth}
  {
    hide GetL2, RemoveL1;
    match Lookup(c.l1, k)
    case None => GetL2StaysFresh(Missed(c), cfg, k, j, truth, now);
    case Some(e) =>
      if e.Expired(now) {
        RemoveExpiredStaysFresh(c, cfg, k, j, truth, now);
        GetL2StaysFresh(Missed(RemoveL1(c, cfg, k, now)), cfg, k, j, truth, now);
      } else {
        PutEffect(c.l1, k, Touched(e, now), j);
      }
  }

  /** The entry that a Set of a new key moves down takes the place of the key's own old copy. */
  predicate SetPushesOut<V>(c: Cache<V>, cfg: Config, k: string, now: int) {
    && !Has(c.l1, k) && |c.l1| == cfg.size1 > 0 && !c.l1[0].value.Expired(now)
    && !Has(c.l2, c.l1[0].key) && |c.l2| == cfg.size2 > 0 && c.l2[0].key == k
  }

  /** Seen before a Set: the second level holds an older copy of the key, with another value, that
      outlasts the entry to be set and is not pushed out by setting it. */
  predicate SetLeavesStale<V(==)>(c: Cache<V>, cfg: Config, k: string, v: V, ttl: int, now: int) {
    var b := Lookup(c.l2, k);
    && b.Some? && b.value.value != v && b.value.expiresAt > now + ttl && !b.value.Expired(now)
    && !SetPushesOut(c, cfg, k, now)
  }

  /** What a Set does to the two copies of its key. */
  lemma SetEffect<V>(c: Cache<V>, cfg: Config, k: string, v: V, ttl: int, now: int)
    requires WellFormed(c, cfg)
    ensures var n := SetWithTTL(c, cfg, k, v, ttl, now);
      && Lookup(n.l1, k) == Some(Entry(v, now + ttl, now, 0))
      && Lookup(n.l2, k) == if SetPushesOut(c, cfg, k, now) then None else Lookup(c.l2, k)
  {
    var e := Entry(v, now + ttl, now, 0);
    AddL1Effect(c, cfg, k, e, now, k);
    AddedEffect(c.l1, cfg.size1, k, e);
    AddedSpillsIff(c.l1, cfg.size1, k, e);
    var (l1, out) := Added(c.l1, cfg.size1, k, e);
    hide Added, Put, Without;
    if out.Some? && !out.value.value.Expired(now) {
      AddedDropsOldestIff(c.l2, cfg.size2, out.value.key, out.value.value, k);
      OldestLookup(c.l2);
    }
  }

  lemma OldestLookup<V>(s: seq<Slot<V>>)
    ensures s != [] ==> Lookup(s, s[0].key) == Some(s[0].value)
  {
  }

  lemma AddedSpillsIff<V>(s: seq<Slot<V>>, size: nat, k: string, v: V)
    requires Distinct(s) && |s| <= size && 0 < size
    ensures Added(s, size, k, v).1 == if !Has(s, k) && |s| == size then Some(s[0]) else None
  {
    PutDistinct(s, k, v);
    if !Has(s, k) {
      WithoutAbsent(s, k);
    }
  }

  lemma SetStaysFresh<V>(c: Cache<V>, cfg: Config, k: string, v: V, ttl: int, j: string, truth: Option<V>, now: int)
    requires WellFormed(c, cfg) && FreshAt(c, j, truth, now)
    requires j == k ==> !SetLeavesStale(c, cfg, k, v, ttl, now)
    ensures FreshAt(SetWithTTL(c, cfg, k, v, ttl, now), j, if j == k then Some(v) else truth, now)
  {
    if j == k {
      SetEffect(c, cfg, k, v, ttl, now);
      hide SetWithTTL, Lookup, SetPushesOut;
    } else {
      AddL1Effect(c, cfg, k, Entry(v, now + ttl, now, 0), now, j);
      hide AddL1;
    }
  }

  lemma DeleteStaysFresh<V>(c: Cache<V>, cfg: Config, k: string, j: string, truth: Option<V>, now: int)
    requires WellFormed(c, cfg) && FreshAt(c, j, truth, now)
    ensures FreshAt(Delete(c, cfg, k, now), j, if j == k then None else truth, now)
  {
    DeleteRemoves(c, cfg, k, now);
    RemoveL1Effect(c, cfg, k, now, j);
    LookupWithout(RemoveL1(c, cfg, k, now).l2, k, j);
    hide RemoveL1;
  }

  lemma CleanupStaysFresh<V>(c: Cache<V>, cfg: Config, j: string, truth: Option<V>, now: int)
    requires WellFormed(c, cfg) && FreshAt(c, j, truth, now)
    ensures FreshAt(Cleanup(c, now), j, truth, now)
  {
    LiveEffect(c.l1, now, j);
    LiveEffect(c.l2, now, j);
  }

  /** The value last set for a key since it was last deleted or the cache cleared. */
  function TruthAfter<V>(truth: Option<V>, op: Op<V>, k: string): Option<V> {
    match op
    case SetOp(j, v, _, _) => if j == k then Some(v) else truth
    case DeleteOp(j, _) => if j == k then None else truth
    case ClearOp(_, _) => None
    case _ => truth
  }

  function TruthOf<V>(truth: Option<V>, ops: seq<Op<V>>, k: string): Option<V>
    decreases |ops|
  {
    if ops == [] then truth else TruthOf(TruthAfter(truth, ops[0], k), ops[1..], k)
  }

  predicate SafeStep<V(==)>(c: Cache<V>, cfg: Config, op: Op<V>, k: string) {
    op.SetOp? && op.key == k ==> !SetLeavesStale(c, cfg, k, op.value, op.ttl, op.at)
  }

  /** No Set of the key in the run leaves a stale copy behind. */
  ghost predicate SafeSets<V>(c: Cache<V>, cfg: Config, ops: seq<Op<V>>, k: string)
    decreases |ops|
  {
    ops == [] || (SafeStep(c, cfg, ops[0], k) && SafeSets(Step(c, cfg, ops[0]), cfg, ops[1..], k))
  }

  lemma StepStaysFresh<V>(c: Cache<V>, cfg: Config, op: Op<V>, k: string, truth: Option<V>, now: int)
    requires WellFormed(c, cfg) && FreshAt(c, k, truth, now) && now <= op.at && SafeStep(c, cfg, op, k)
    ensures FreshAt(Step(c, cfg, op), k, TruthAfter(truth, op, k), op.at)
  {
    TimePasses(c, k, truth, now, op.at);
    hide Get, SetWithTTL, Delete, Clear, Cleanup, SetLeavesStale, Fresh, WellFormed;
    match op
    case GetOp(j, at) => GetStaysFresh(c, cfg, j, k, truth, at);
    case SetOp(j, v, ttl, at) => SetStaysFresh(c, cfg, j, v, ttl, k, truth, at);
    case DeleteOp(j, at) => DeleteStaysFresh(c, cfg, j, k, truth, at);
    case ClearOp(order, at) =>
      ClearEmpties(c, cfg, order, at);
      EmptyIsFresh(Clear(c, cfg, order, at), k, at);
    case CleanupOp(at) => CleanupStaysFresh(c, cfg, k, truth, at);
  }

  lemma EmptyIsFresh<V>(c: Cache<V>, k: string, now: int)
    requires c.l1 == [] && c.l2 == []
    ensures FreshAt(c, k, None, now)
  {
  }

  lemma {:induction false} RunStaysFresh<V>(
      c: Cache<V>, cfg: Config, ops: seq<Op<V>>, k: string, truth: Option<V>, now: int, later: int)
    requires WellFormed(c, cfg) && FreshAt(c, k, truth, now)
    requires InTimeOrder(ops, now, later) && SafeSets(c, cfg, ops, k)
    ensures WellFormed(Run(c, cfg, ops), cfg) && FreshAt(Run(c, cfg, ops), k, TruthOf(truth, ops, k), later)
    decreases |ops|
  {
    hide Step, WellFormed, FreshAt, SafeStep, TruthAfter;
    if ops == [] {
      TimePasses(c, k, truth, now, later);
    } else {
      StepShape(c, cfg, ops[0]);
      StepStaysFresh(c, cfg, ops[0], k, truth, now);
      RunStaysFresh(Step(c, cfg, ops[0]), cfg, ops[1..], k, TruthAfter(truth, ops[0], k), ops[0].at, later);
    }
  }

  // ---- When a Set can be followed by a stale Get ----

  /** In any cache, whatever it holds already: after a Set, every later Get of the key, over all runs
      of Gets, Deletes, Clears, cleanups and safe Sets of any keys, finds nothing or the value last
      set, if and only if no older copy with another value was there to outlast the new entry. */
  lemma {:induction false} SetIsSafeIff<V>(c: Cache<V>, cfg: Config, k: string, v: V, ttl: int, now: int)
    requires WellFormed(c, cfg)
    ensures var n := SetWithTTL(c, cfg, k, v, ttl, now);
      (forall ops, t :: InTimeOrder(ops, now, t) && SafeSets(n, cfg, ops, k) ==>
         Get(Run(n, cfg, ops), cfg, k, t).1 in {None, TruthOf(Some(v), ops, k)})
      <==> !SetLeavesStale(c, cfg, k, v, ttl, now)
  {
    var n := SetWithTTL(c, cfg, k, v, ttl, now);
    SetShape(c, cfg, k, v, ttl, now);
    SetEffect(c, cfg, k, v, ttl, now);
    hide SetWithTTL, WellFormed, SetPushesOut;
    if SetLeavesStale(c, cfg, k, v, ttl, now) {
      var ops, t := [], if ttl < 0 then now else now + ttl + 1;
      assert InTimeOrder<V>(ops, now, t) && SafeSets(n, cfg, ops, k) && Run(n, cfg, ops) == n;
      GetAfter(n, cfg, k, Entry(v, now + ttl, now, 0), t);
      assert Get(Run(n, cfg, ops), cfg, k, t).1 !in {None, TruthOf(Some(v), ops, k)};
    } else {
      assert FreshAt(n, k, Some(v), now);
      forall ops, t | InTimeOrder(ops, now, t) && SafeSets(n, cfg, ops, k)
        ensures Get(Run(n, cfg, ops), cfg, k, t).1 in {None, TruthOf(Some(v), ops, k)}
      {
        RunStaysFresh(n, cfg, ops, k, Some(v), now, t);
        GetStaysFresh(Run(n, cfg, ops), cfg, k, k, TruthOf(Some(v), ops, k), t);
      }
    }
  }

  function LateAnswer<V>(c: Cache<V>, v: V, expiresAt: int, k: string, t: int): Option<V> {
    var b := Lookup(c.l2, k);
    if t <= expiresAt then Some(v)
    else if b.Some? && !b.value.Expired(t) then Some(b.value.value)
    else None
  }

  lemma GetAfter<V>(c: Cache<V>, cfg: Config, k: string, e: Entry<V>, t: int)
    requires WellFormed(c, cfg) && Lookup(c.l1, k) == Some(e)
    ensures Get(c, cfg, k, t).1 == LateAnswer(c, e.value, e.expiresAt, k, t)
  {
    if e.Expired(t) {
      RemoveL1Effect(c, cfg, k, t, k);
      hide RemoveL1;
    }
  }

  // ---- One fixed time to live per key ----

  predicate Within<V>(e: Option<Entry<V>>, limit: int) {
    e.Some? ==> e.value.expiresAt <= limit
  }

  /** No entry of a key lasts beyond the limit. */
  predicate Bounded<V>(c: Cache<V>, k: string, limit: int) {
    Within(Lookup(c.l1, k), limit) && Within(Lookup(c.l2, k), limit)
  }

  lemma GetStaysBounded<V>(c: Cache<V>, cfg: Config, k: string, now: int, j: string, limit: int)
    requires WellFormed(c, cfg) && Bounded(c, j, limit) && now + cfg.l1TTL <= limit
    ensures Bounded(Get(c, cfg, k, now).0, j, limit)
  {
    match Lookup(c.l1, k)
    case None => GetL2StaysBounded(Missed(c), cfg, k, now, j, limit);
    case Some(e) =>
      if e.Expired(now) {
        RemoveL1Effect(c, cfg, k, now, j);
        RemoveL1Effect(c, cfg, k, now, k);
        hide RemoveL1, GetL2;
        GetL2StaysBounded(Missed(RemoveL1(c, cfg, k, now)), cfg, k, now, j, limit);
      } else {
        PutEffect(c.l1, k, Touched(e, now), j);
      }
  }

  lemma GetL2StaysBounded<V>(c: Cache<V>, cfg: Config, k: string, now: int, j: string, limit: int)
    requires WellFormed(c, cfg) && Lookup(c.l1, k) == None && now + cfg.l1TTL <= limit && Bounded(c, j, limit)
    ensures Bounded(GetL2(c, cfg, k, now).0, j, limit)
  {
    hide GetL2;
    var b := Lookup(c.l2, k);
    if b.Some? && !b.value.Expired(now) {
      HitL2Effect(c, cfg, k, b.value, now, j);
    } else {
      MissL2Effect(c, cfg, k, now, j);
    }
  }

  lemma SetStaysBounded<V>(c: Cache<V>, cfg: Config, k: string, v: V, ttl: int, now: int, j: string, limit: int)
    requires WellFormed(c, cfg) && (j == k ==> now + ttl <= limit) && Bounded(c, j, limit)
    ensures Bounded(SetWithTTL(c, cfg, k, v, ttl, now), j, limit)
  {
    AddL1Effect(c, cfg, k, Entry(v, now + ttl, now, 0), now, j);
    hide AddL1;
  }

  lemma DeleteStaysBounded<V>(c: Cache<V>, cfg: Config, k: string, now: int, j: string, limit: int)
    requires WellFormed(c, cfg) && Bounded(c, j, limit)
    ensures Bounded(Delete(c, cfg, k, now), j, limit)
  {
    RemoveL1Effect(c, cfg, k, now, j);
    LookupWithout(RemoveL1(c, cfg, k, now).l2, k, j);
    hide RemoveL1;
  }

  lemma StepStaysBounded<V>(c: Cache<V>, cfg: Config, op: Op<V>, k: string, ttl: int)
    requires WellFormed(c, cfg) && Bounded(c, k, op.at + ttl) && ttl >= cfg.l1TTL
    requires op.SetOp? && op.key == k ==> op.ttl == ttl
    ensures Bounded(Step(c, cfg, op), k, op.at + ttl)
  {
    hide Get, SetWithTTL, Delete, Clear, Live;
    match op
    case GetOp(j, at) => GetStaysBounded(c, cfg, j, at, k, at + ttl);
    case SetOp(j, v, t, at) => SetStaysBounded(c, cfg, j, v, t, at, k, at + ttl);
    case DeleteOp(j, at) => DeleteStaysBounded(c, cfg, j, at, k, at + ttl);
    case ClearOp(order, at) => ClearEmpties(c, cfg, order, at);
    case CleanupOp(at) =>
      LiveEffect(c.l1, at, k);
      LiveEffect(c.l2, at, k);
  }

  /** With one fixed time to live for a key, at least that of the first level, none of its Sets leaves
      a stale copy behind: no copy lasts longer than a new one. */
  lemma {:induction false} FixedTTLIsSafe<V>(
      c: Cache<V>, cfg: Config, ops: seq<Op<V>>, k: string, ttl: int, now: int, later: int)
    requires WellFormed(c, cfg) && Bounded(c, k, now + ttl) && InTimeOrder(ops, now, later) && ttl >= cfg.l1TTL
    requires forall i :: 0 <= i < |ops| && ops[i].SetOp? && ops[i].key == k ==> ops[i].ttl == ttl
    ensures SafeSets(c, cfg, ops, k)
    decreases |ops|
  {
    if ops != [] {
      var op := ops[0];
      assert SafeStep(c, cfg, op, k);
      hide Step, WellFormed;
      StepShape(c, cfg, op);
      StepStaysBounded(c, cfg, op, k, ttl);
      FixedTTLIsSafe(Step(c, cfg, op), cfg, ops[1..], k, ttl, op.at, later);
    }
  }

  /** With a clock that never goes back and one fixed time to live for a key, at least that of the
      first level: over any run of operations on any keys, a Get of it finds nothing or the value
      last set for it since it was last deleted or the cache cleared. */
  lemma {:induction false} GetIsFresh<V>(cfg: Config, ops: seq<Op<V>>, k: string, ttl: int, from: int, now: int)
    requires 0 < cfg.size1 && 0 < cfg.size2 && ttl >= cfg.l1TTL && InTimeOrder(ops, from, now)
    requires forall i :: 0 <= i < |ops| && ops[i].SetOp? && ops[i].key == k ==> ops[i].ttl == ttl
    ensures Get(Run(Empty(), cfg, ops), cfg, k, now).1 in {None, TruthOf(None, ops, k)}
  {
    EmptyIsFresh(Empty<V>(), k, from);
    FixedTTLIsSafe(Empty(), cfg, ops, k, ttl, from, now);
    RunStaysFresh(Empty(), cfg, ops, k, None, from, now);
    GetStaysFresh(Run(Empty(), cfg, ops), cfg, k, k, TruthOf(None, ops, k), now);
  }

  /** A shorter time to live the second time is enough for a stale answer: the first value comes
      back after it was replaced. */
  lemma {:induction false} StaleReadHappens()
    ensures var cfg := Config(1, 2, 10, false);
      var ops := [SetOp("k", 1, 100, 0), SetOp("j", 2, 100, 0), SetOp("k", 3, 1, 0)];
      && TruthOf(None, ops, "k") == Some(3)
      && Get(Run(Empty(), cfg, ops), cfg, "k", 50).1 == Some(1)
  {
    var cfg := Config(1, 2, 10, false);
    var k1, j2, k3 := Slot("k", Entry(1, 100, 0, 0)), Slot("j", Entry(2, 100, 0, 0)), Slot("k", Entry(3, 1, 0, 0));
    var ops := [SetOp("k", 1, 100, 0), SetOp("j", 2, 100, 0), SetOp("k", 3, 1, 0)];
    assert ops[1..] == [ops[1], ops[2]] && ops[1..][1..] == [ops[2]] && ops[1..][1..][1..] == [];
    var c1 := Step(Empty(), cfg, ops[0]);
    assert c1.l1 == [k1] && c1.l2 == [];
    var c2 := Step(c1, cfg, ops[1]);
    assert Put([k1], "j", j2.value) == [k1, j2] by {
      WithoutAbsent([k1], "j");
    }
    assert c2.l1 == [j2] && c2.l2 == [k1];
    var c3 := Step(c2, cfg, ops[2]);
    assert Put([j2], "k", k3.value) == [j2, k3] by {
      WithoutAbsent([j2], "k");
    }
    assert Put([k1], "j", j2.value) == [k1, j2] by {
      WithoutAbsent([k1], "j");
    }
    assert c3.l1 == [k3] && c3.l2 == [k1, j2];
    assert Run(Empty(), cfg, ops) == c3;
  }

  /** Deleting one key makes another vanish: the removed entry is reported, moves down, and pushes the
      only entry of the second level out. */
  lemma {:induction false} DeleteDropsAnother()
    ensures var cfg := Config(1, 1, 10, true);
      var c := Run(Empty(), cfg, [SetOp("j", 1, 100, 0), SetOp("k", 2, 100, 0)]);
      && Lookup(c.l2, "j").Some? && Lookup(c.l2, "j").value.value == 1
      && Lookup(Delete(c, cfg, "k", 0).l2, "j") == None
  {
    var cfg := Config(1, 1, 10, true);
    var j1, k2 := Slot("j", Entry(1, 100, 0, 0)), Slot("k", Entry(2, 100, 0, 0));
    var ops := [SetOp("j", 1, 100, 0), SetOp("k", 2, 100, 0)];
    assert ops[1..] == [ops[1]] && ops[1..][1..] == [];
    var c1 := Step(Empty(), cfg, ops[0]);
    assert c1.l1 == [j1] && c1.l2 == [];
    var c2 := Step(c1, cfg, ops[1]);
    assert Put([j1], "k", k2.value) == [j1, k2] by {
      WithoutAbsent([j1], "k");
    }
    assert c2.l1 == [k2] && c2.l2 == [j1];
    assert Run(Empty(), cfg, ops) == c2;
    DeleteSparesOthersIff(c2, cfg, "k", 0, "j");
  }
}
