/** A least-recently-used cache as hashicorp/golang-lru keeps it: a map for lookup and a recency
    list, here oldest first. The cache of internal/infrastructure/optimization/cache.go holds two. */
module Lrus {
  import opened Basics

  datatype Slot<V> = Slot(key: string, value: V)

  // ---- On values: slots, oldest first, no key twice ----

  predicate Distinct<V>(s: seq<Slot<V>>) {
    forall i, j :: 0 <= i < j < |s| ==> s[i].key != s[j].key
  }

  predicate Has<V>(s: seq<Slot<V>>, k: string) {
    exists i :: 0 <= i < |s| && s[i].key == k
  }

  function Lookup<V>(s: seq<Slot<V>>, k: string): (r: Option<V>)
    ensures r.Some? <==> Has(s, k)
    ensures forall i :: 0 <= i < |s| && s[i].key == k && Distinct(s) ==> r == Some(s[i].value)
  {
    if s == [] then None
    else if s[0].key == k then Some(s[0].value)
    else
      var r := Lookup(s[1..], k);
      assert forall i :: 1 <= i < |s| ==> s[i] == s[1..][i - 1];
      assert Has(s, k) <==> Has(s[1..], k) by {
        if Has(s, k) {
          var i :| 0 <= i < |s| && s[i].key == k;
          assert s[1..][i - 1].key == k;
        }
        if Has(s[1..], k) {
          var i :| 0 <= i < |s[1..]| && s[1..][i].key == k;
          assert s[i + 1].key == k;
        }
      }
      r
  }

  function Without<V>(s: seq<Slot<V>>, k: string): (r: seq<Slot<V>>)
    ensures |r| <= |s|
  {
    if s == [] then []
    else (if s[0].key == k then [] else [s[0]]) + Without(s[1..], k)
  }

  /** Add or replace, and make the key the most recent. */
  function Put<V>(s: seq<Slot<V>>, k: string, v: V): seq<Slot<V>> {
    Without(s, k) + [Slot(k, v)]
  }

  /** What Get does to the order. */
  function Recent<V>(s: seq<Slot<V>>, k: string): seq<Slot<V>> {
    match Lookup(s, k)
    case None => s
    case Some(v) => Put(s, k, v)
  }

  /** Add: the slots afterwards, and the slot pushed out if the capacity is exceeded. */
  function Added<V>(s: seq<Slot<V>>, size: nat, k: string, v: V): (seq<Slot<V>>, Option<Slot<V>>) {
    var n := Put(s, k, v);
    if !Has(s, k) && |n| > size then (n[1..], Some(n[0])) else (n, None)
  }

  lemma {:induction false} WithoutMembers<V>(s: seq<Slot<V>>, k: string, x: Slot<V>)
    ensures x in Without(s, k) <==> x in s && x.key != k
  {
    if s != [] {
      WithoutMembers(s[1..], k, x);
      assert s == [s[0]] + s[1..];
    }
  }

  lemma FirstIsUnique<V>(s: seq<Slot<V>>)
    requires Distinct(s) && s != []
    ensures !Has(s[1..], s[0].key)
  {
    forall i | 0 <= i < |s| - 1 ensures s[1..][i].key != s[0].key {
      assert s[1..][i] == s[i + 1];
    }
  }

  lemma {:induction false} WithoutDistinct<V>(s: seq<Slot<V>>, k: string)
    requires Distinct(s)
    ensures Distinct(Without(s, k)) && !Has(Without(s, k), k)
    ensures |Without(s, k)| == |s| - if Has(s, k) then 1 else 0
  {
    if s != [] {
      var t := s[1..];
      assert Distinct(t);
      WithoutDistinct(t, k);
      forall i | 0 <= i < |Without(t, k)| ensures Without(t, k)[i].key != s[0].key && Without(t, k)[i].key != k {
        var x := Without(t, k)[i];
        WithoutMembers(t, k, x);
        var j :| 0 <= j < |t| && t[j] == x;
        assert s[j + 1] == x;
      }
      HasCons(s, k);
      FirstIsUnique(s);
    }
  }

  lemma HasCons<V>(s: seq<Slot<V>>, k: string)
    requires s != []
    ensures Has(s, k) <==> s[0].key == k || Has(s[1..], k)
  {
    if Has(s, k) {
      var i :| 0 <= i < |s| && s[i].key == k;
      assert i > 0 ==> s[1..][i - 1].key == k;
    }
    if Has(s[1..], k) {
      var i :| 0 <= i < |s[1..]| && s[1..][i].key == k;
      assert s[i + 1].key == k;
    }
  }

  lemma {:induction false} LookupWithout<V>(s: seq<Slot<V>>, k: string, j: string)
    ensures Lookup(Without(s, k), j) == if j == k then None else Lookup(s, j)
  {
    if s != [] {
      LookupWithout(s[1..], k, j);
      if s[0].key != k {
        assert ([s[0]] + Without(s[1..], k))[1..] == Without(s[1..], k);
      } else {
        assert [] + Without(s[1..], k) == Without(s[1..], k);
      }
    }
  }

  lemma {:induction false} LookupAppend<V>(s: seq<Slot<V>>, x: Slot<V>, j: string)
    ensures Lookup(s + [x], j) == if Has(s, j) then Lookup(s, j) else if j == x.key then Some(x.value) else None
  {
    if s == [] {
      assert s + [x] == [x] && [x][1..] == [];
    } else {
      assert (s + [x])[1..] == s[1..] + [x];
      LookupAppend(s[1..], x, j);
      HasCons(s, j);
    }
  }

  /** Put is an update of the lookup. */
  lemma LookupPut<V>(s: seq<Slot<V>>, k: string, v: V, j: string)
    ensures Lookup(Put(s, k, v), j) == if j == k then Some(v) else Lookup(s, j)
  {
    LookupWithout(s, k, j);
    LookupWithout(s, k, k);
    LookupAppend(Without(s, k), Slot(k, v), j);
  }

  lemma LookupDropFirst<V>(s: seq<Slot<V>>, j: string)
    requires Distinct(s) && s != []
    ensures Lookup(s[1..], j) == if j == s[0].key then None else Lookup(s, j)
  {
    FirstIsUnique(s);
  }

  lemma PutDistinct<V>(s: seq<Slot<V>>, k: string, v: V)
    requires Distinct(s)
    ensures Distinct(Put(s, k, v)) && |Put(s, k, v)| == |s| + if Has(s, k) then 0 else 1
  {
    WithoutDistinct(s, k);
  }

  /** Add keeps keys distinct and the capacity; the key gets its value; the pushed-out slot, if any,
      is the oldest, and every other key keeps its value. */
  lemma AddedEffect<V>(s: seq<Slot<V>>, size: nat, k: string, v: V)
    requires Distinct(s) && |s| <= size && 0 < size
    ensures var (n, out) := Added(s, size, k, v);
      && Distinct(n) && |n| <= size
      && Lookup(n, k) == Some(v)
      && (out.Some? ==> s != [] && out.value == s[0] && out.value.key != k && Lookup(n, out.value.key) == None)
      && forall j :: j != k && (out.Some? ==> j != out.value.key) ==> Lookup(n, j) == Lookup(s, j)
  {
    var p := Put(s, k, v);
    PutDistinct(s, k, v);
    forall j ensures Lookup(p, j) == if j == k then Some(v) else Lookup(s, j) {
      LookupPut(s, k, v, j);
    }
    if !Has(s, k) && |p| > size {
      WithoutAbsent(s, k);
      forall j ensures Lookup(p[1..], j) == if j == p[0].key then None else Lookup(p, j) {
        LookupDropFirst(p, j);
      }
      assert p[0] == s[0];
    }
  }

  lemma {:induction false} WithoutAbsent<V>(s: seq<Slot<V>>, k: string)
    requires !Has(s, k)
    ensures Without(s, k) == s
  {
    if s != [] {
      HasCons(s, k);
      assert s[0].key == k ==> Has(s, k);
      WithoutAbsent(s[1..], k);
    }
  }

  lemma RecentEffect<V>(s: seq<Slot<V>>, k: string, j: string)
    requires Distinct(s)
    ensures Distinct(Recent(s, k)) && |Recent(s, k)| == |s|
    ensures Lookup(Recent(s, k), j) == Lookup(s, j)
  {
    if Has(s, k) {
      PutDistinct(s, k, Lookup(s, k).value);
      LookupPut(s, k, Lookup(s, k).value, j);
    }
  }

  /** Touching the oldest slot sends it to the other end. */
  lemma RecentOldest<V>(s: seq<Slot<V>>)
    requires Distinct(s) && s != []
    ensures Recent(s, s[0].key) == s[1..] + [s[0]]
  {
    FirstIsUnique(s);
    WithoutAbsent(s[1..], s[0].key);
    assert [] + Without(s[1..], s[0].key) == s[1..];
  }

  lemma {:induction false} WithoutNewest<V>(s: seq<Slot<V>>, x: Slot<V>)
    requires !Has(s, x.key)
    ensures Without(s + [x], x.key) == s
  {
    if s == [] {
      assert s + [x] == [x] && [x][1..] == [];
    } else {
      HasCons(s, x.key);
      assert s[0].key == x.key ==> Has(s, x.key);
      assert (s + [x])[1..] == s[1..] + [x];
      WithoutNewest(s[1..], x);
    }
  }

  // ---- Least recently used ----

  datatype Use<V> = Touching(key: string) | Storing(key: string, value: V) | Forgetting(key: string)

  function UseStep<V>(s: seq<Slot<V>>, size: nat, u: Use<V>): seq<Slot<V>> {
    match u
    case Touching(k) => Recent(s, k)
    case Storing(k, v) => Added(s, size, k, v).0
    case Forgetting(k) => Without(s, k)
  }

  /** The slots after some uses of an empty cache. */
  function After<V>(size: nat, us: seq<Use<V>>): seq<Slot<V>> {
    if us == [] then [] else UseStep(After(size, us[..|us| - 1]), size, us[|us| - 1])
  }

  /** The position of the last touch or store of a key, -1 if there is none. */
  function LastUse<V>(us: seq<Use<V>>, k: string): (i: int)
    ensures -1 <= i < |us|
    ensures i >= 0 ==> us[i].key == k && !us[i].Forgetting?
    ensures forall j :: i < j < |us| ==> us[j].key == k ==> us[j].Forgetting?
  {
    if us == [] then -1
    else if us[|us| - 1].key == k && !us[|us| - 1].Forgetting? then |us| - 1
    else
      var i := LastUse(us[..|us| - 1], k);
      assert forall j :: 0 <= j < |us| - 1 ==> us[j] == us[..|us| - 1][j];
      i
  }

  /** Oldest use first. */
  ghost predicate ByRecency<V>(s: seq<Slot<V>>, us: seq<Use<V>>) {
    forall i, j :: 0 <= i < j < |s| ==> LastUse(us, s[i].key) < LastUse(us, s[j].key)
  }

  lemma ConsOrder<V>(x: Slot<V>, r: seq<Slot<V>>, us: seq<Use<V>>)
    requires ByRecency(r, us) && forall j :: 0 <= j < |r| ==> LastUse(us, x.key) < LastUse(us, r[j].key)
    ensures ByRecency([x] + r, us)
  {
    hide LastUse;
    assert forall j :: 0 < j < |r| + 1 ==> ([x] + r)[j] == r[j - 1];
  }

  lemma FirstIsOldest<V>(s: seq<Slot<V>>, us: seq<Use<V>>, x: Slot<V>)
    requires s != [] && ByRecency(s, us) && x in s[1..]
    ensures LastUse(us, s[0].key) < LastUse(us, x.key)
  {
    hide LastUse;
    var m :| 0 <= m < |s| - 1 && s[1..][m] == x;
    assert s[m + 1] == x;
  }

  lemma {:induction false} WithoutKeepsOrder<V>(s: seq<Slot<V>>, k: string, us: seq<Use<V>>)
    requires ByRecency(s, us)
    ensures ByRecency(Without(s, k), us)
  {
    if s != [] {
      hide LastUse, ByRecency;
      TailKeepsOrder(s, us);
      WithoutKeepsOrder(s[1..], k, us);
      var r := Without(s[1..], k);
      forall j | 0 <= j < |r| ensures LastUse(us, s[0].key) < LastUse(us, r[j].key) {
        WithoutMembers(s[1..], k, r[j]);
        FirstIsOldest(s, us, r[j]);
      }
      ConsOrder(s[0], r, us);
      assert [] + r == r;
    }
  }

  /** A use of one key leaves the last uses of the others, and is later than all of them. */
  lemma LastUseSnoc<V>(us: seq<Use<V>>, u: Use<V>, j: string)
    ensures LastUse(us + [u], j) == if j == u.key && !u.Forgetting? then |us| else LastUse(us, j)
  {
    assert (us + [u])[..|us|] == us;
  }

  lemma OrderSnoc<V>(s: seq<Slot<V>>, us: seq<Use<V>>, u: Use<V>)
    requires ByRecency(s, us) && (u.Forgetting? || !Has(s, u.key))
    ensures ByRecency(s, us + [u])
  {
    forall i, j | 0 <= i < j < |s| ensures LastUse(us + [u], s[i].key) < LastUse(us + [u], s[j].key) {
      LastUseSnoc(us, u, s[i].key);
      LastUseSnoc(us, u, s[j].key);
    }
  }

  lemma PutIsNewest<V>(s: seq<Slot<V>>, us: seq<Use<V>>, u: Use<V>, v: V)
    requires Distinct(s) && ByRecency(s, us) && !u.Forgetting?
    ensures ByRecency(Put(s, u.key, v), us + [u])
  {
    var r, n := Without(s, u.key), |Without(s, u.key)|;
    WithoutDistinct(s, u.key);
    WithoutKeepsOrder(s, u.key, us);
    OrderSnoc(r, us, u);
    LastUseSnoc(us, u, u.key);
    forall i | 0 <= i < n ensures LastUse(us + [u], r[i].key) < |us| {
      LastUseSnoc(us, u, r[i].key);
      assert r[i].key != u.key;
    }
    hide LastUse, Without;
    var p := Put(s, u.key, v);
    assert p[n].key == u.key && forall i :: 0 <= i < n ==> p[i] == r[i];
  }

  /** After any uses the slots stand in the order of the last use of their keys. */
  lemma {:induction false} SlotsAreByRecency<V>(size: nat, us: seq<Use<V>>)
    requires 0 < size
    ensures ByRecency(After(size, us), us) && Distinct(After(size, us)) && |After(size, us)| <= size
    decreases |us|
  {
    if us != [] {
      var n := |us| - 1;
      var s, u := After(size, us[..n]), us[n];
      assert us == us[..n] + [u];
      SlotsAreByRecency(size, us[..n]);
      UseKeepsRecency(s, size, us[..n], u);
    }
  }

  lemma {:induction false} UseKeepsRecency<V>(s: seq<Slot<V>>, size: nat, us: seq<Use<V>>, u: Use<V>)
    requires 0 < size && ByRecency(s, us) && Distinct(s) && |s| <= size
    ensures var n := UseStep(s, size, u); ByRecency(n, us + [u]) && Distinct(n) && |n| <= size
  {
    hide ByRecency, Put, Without;
    match u
    case Touching(k) =>
      RecentEffect(s, k, k);
      if Has(s, k) {
        PutIsNewest(s, us, u, Lookup(s, k).value);
      } else {
        OrderSnoc(s, us, u);
      }
    case Storing(k, v) =>
      AddedEffect(s, size, k, v);
      PutIsNewest(s, us, u, v);
      TailKeepsOrder(Put(s, k, v), us + [u]);
    case Forgetting(k) =>
      WithoutDistinct(s, k);
      WithoutKeepsOrder(s, k, us);
      OrderSnoc(Without(s, k), us, u);
  }

  lemma TailKeepsOrder<V>(s: seq<Slot<V>>, us: seq<Use<V>>)
    requires ByRecency(s, us)
    ensures s != [] ==> ByRecency(s[1..], us)
  {
    hide LastUse;
    if s != [] {
      assert forall i :: 0 <= i < |s| - 1 ==> s[1..][i] == s[i + 1];
    }
  }

  /** Storing pushes out at most one slot, that of the least recently used key. */
  lemma LeastRecentlyUsedGoes<V>(size: nat, us: seq<Use<V>>, k: string, v: V, j: string)
    requires 0 < size
    ensures var s := After(size, us);
      var (n, out) := Added(s, size, k, v);
      && (out.Some? <==> !Has(s, k) && |s| == size)
      && (out.Some? && Has(n, j) && j != k ==> LastUse(us, out.value.key) < LastUse(us, j))
  {
    var s := After(size, us);
    SlotsAreByRecency(size, us);
    PutDistinct(s, k, v);
    if !Has(s, k) {
      WithoutAbsent(s, k);
    }
    var (n, out) := Added(s, size, k, v);
    if out.Some? && Has(n, j) && j != k {
      var i :| 0 <= i < |n| && n[i].key == j;
      assert n[i] == Put(s, k, v)[i + 1] == s[i + 1];
      assert out.value == s[0];
    }
  }

  // ---- The class: a map and a recency list ----

  predicate Listed<V>(order: seq<string>, items: map<string, V>) {
    forall i :: 0 <= i < |order| ==> order[i] in items
  }

  function SlotsOf<V>(order: seq<string>, items: map<string, V>): (s: seq<Slot<V>>)
    requires Listed(order, items)
    ensures |s| == |order| && forall i :: 0 <= i < |s| ==> s[i] == Slot(order[i], items[order[i]])
  {
    if order == [] then [] else [Slot(order[0], items[order[0]])] + SlotsOf(order[1..], items)
  }

  function WithoutKey(order: seq<string>, k: string): seq<string> {
    if order == [] then [] else (if order[0] == k then [] else [order[0]]) + WithoutKey(order[1..], k)
  }

  lemma {:induction false} SlotsWithout<V>(order: seq<string>, items: map<string, V>, k: string)
    requires Listed(order, items)
    ensures Listed(WithoutKey(order, k), items - {k})
    ensures SlotsOf(WithoutKey(order, k), items - {k}) == Without(SlotsOf(order, items), k)
  {
    if order != [] {
      SlotsWithout(order[1..], items, k);
      if order[0] != k {
        assert ([order[0]] + WithoutKey(order[1..], k))[1..] == WithoutKey(order[1..], k);
      } else {
        assert [] + WithoutKey(order[1..], k) == WithoutKey(order[1..], k);
        assert [] + Without(SlotsOf(order[1..], items), k) == Without(SlotsOf(order[1..], items), k);
      }
    }
  }

  lemma SlotsAppend<V>(order: seq<string>, items: map<string, V>, k: string, v: V)
    requires Listed(order, items) && k !in items
    ensures Listed(order + [k], items[k := v])
    ensures SlotsOf(order + [k], items[k := v]) == SlotsOf(order, items) + [Slot(k, v)]
  {
  }

  lemma SlotsMoved<V>(order: seq<string>, items: map<string, V>, k: string, v: V)
    requires Listed(order, items)
    ensures Listed(WithoutKey(order, k) + [k], items[k := v])
    ensures SlotsOf(WithoutKey(order, k) + [k], items[k := v]) == Put(SlotsOf(order, items), k, v)
  {
    SlotsWithout(order, items, k);
    SlotsAppend(WithoutKey(order, k), items - {k}, k, v);
    assert (items - {k})[k := v] == items[k := v];
  }

  class Lru<V> {
    const size: nat
    var items: map<string, V>
    var order: seq<string>

    ghost predicate Valid()
      reads this
    {
      && 0 < size && |order| <= size
      && Listed(order, items)
      && (forall k :: k in items ==> k in order)
      && Distinct(SlotsOf(order, items))
    }

    ghost function Slots(): seq<Slot<V>>
      reads this
      requires Valid()
      ensures Distinct(Slots()) && |Slots()| <= size
    {
      SlotsOf(order, items)
    }

    constructor (size: nat)
      requires 0 < size
      ensures Valid() && Slots() == [] && this.size == size
    {
      this.size := size;
      items := map[];
      order := [];
    }

    lemma HasIsIn(k: string)
      requires Valid()
      ensures k in items <==> Has(Slots(), k)
      ensures k in items ==> Lookup(Slots(), k) == Some(items[k])
    {
      if k in items {
        var i :| 0 <= i < |order| && order[i] == k;
        assert Slots()[i].key == k;
      }
    }

    method Get(k: string) returns (r: Option<V>)
      requires Valid()
      modifies this
      ensures Valid() && Slots() == Recent(old(Slots()), k)
      ensures r == Lookup(old(Slots()), k)
    {
      HasIsIn(k);
      if k !in items {
        return None;
      }
      r := Some(items[k]);
      MoveToFront(k, items[k]);
    }

    /** Add, or replace in place; the oldest entry goes when the size is exceeded. */
    method Add(k: string, v: V) returns (out: Option<Slot<V>>)
      requires Valid()
      modifies this
      ensures Valid() && (Slots(), out) == Added(old(Slots()), size, k, v)
    {
      HasIsIn(k);
      if k in items {
        MoveToFront(k, v);
        return None;
      }
      PutDistinct(Slots(), k, v);
      WithoutAbsent(Slots(), k);
      SlotsAppend(order, items, k, v);
      items := items[k := v];
      order := order + [k];
      out := None;
      if |order| > size {
        out := Some(Slot(order[0], items[order[0]]));
        DropOldest();
      }
    }

    method DropOldest()
      requires |order| == size + 1 && 0 < size && Listed(order, items) && (forall k :: k in items ==> k in order)
      requires Distinct(SlotsOf(order, items))
      modifies this
      ensures Valid() && Slots() == old(SlotsOf(order, items))[1..]
    {
      SlotsDropFirst(order, items);
      items := items - {order[0]};
      order := order[1..];
    }

    /** The list node moves to the recent end and its value is overwritten. */
    method MoveToFront(k: string, v: V)
      requires Valid() && k in items
      modifies this
      ensures Valid() && Slots() == Put(old(Slots()), k, v)
    {
      PutDistinct(Slots(), k, v);
      HasIsIn(k);
      SlotsMoved(order, items, k, v);
      InWithoutKey(order, k);
      hide SlotsOf, WithoutKey, Put, Has, Distinct;
      order := WithoutKey(order, k) + [k];
      items := items[k := v];
    }

    /** Writing through the entry pointer that the last Get or Add returned. */
    method Overwrite(k: string, v: V)
      requires Valid() && Slots() != [] && Slots()[|Slots()| - 1].key == k
      modifies this
      ensures Valid() && Slots() == Put(old(Slots()), k, v)
    {
      assert Slots()[|order| - 1].key == order[|order| - 1] == k;
      hide SlotsOf, Put, Has, Distinct;
      PutDistinct(Slots(), k, v);
      SlotsOverwriteNewest(order, items, k, v);
      items := items[k := v];
    }

    method Remove(k: string) returns (out: Option<V>)
      requires Valid()
      modifies this
      ensures Valid() && Slots() == Without(old(Slots()), k)
      ensures out == Lookup(old(Slots()), k)
    {
      HasIsIn(k);
      if k !in items {
        WithoutAbsent(Slots(), k);
        return None;
      }
      out := Some(items[k]);
      WithoutDistinct(Slots(), k);
      SlotsWithout(order, items, k);
      InWithoutKey(order, k);
      order := WithoutKey(order, k);
      items := items - {k};
    }

    method Purge() returns (out: seq<Slot<V>>)
      requires Valid()
      modifies this
      ensures Valid() && Slots() == [] && out == old(Slots())
    {
      out := SlotsOf(order, items);
      items := map[];
      order := [];
    }

    /** Keys, oldest first. */
    method Keys() returns (keys: seq<string>)
      requires Valid()
      ensures |keys| == |Slots()| && forall i :: 0 <= i < |keys| ==> keys[i] == Slots()[i].key
    {
      keys := order;
    }
  }

  lemma {:induction false} InWithoutKey(order: seq<string>, k: string)
    ensures forall j :: j in WithoutKey(order, k) <==> j in order && j != k
  {
    if order != [] {
      InWithoutKey(order[1..], k);
      assert order == [order[0]] + order[1..];
    }
  }

  lemma {:induction false} SlotsSnoc<V>(order: seq<string>, items: map<string, V>, k: string)
    requires Listed(order, items) && k in items
    ensures Listed(order + [k], items)
    ensures SlotsOf(order + [k], items) == SlotsOf(order, items) + [Slot(k, items[k])]
  {
  }

  /** The slots do not depend on what the map holds for other keys. */
  lemma SlotsElsewhere<V>(order: seq<string>, items: map<string, V>, k: string, v: V)
    requires Listed(order, items) && k !in order
    ensures Listed(order, items[k := v]) && SlotsOf(order, items[k := v]) == SlotsOf(order, items)
    ensures !Has(SlotsOf(order, items), k)
  {
    assert forall i :: 0 <= i < |order| ==> order[i] != k;
    hide SlotsOf;
  }

  lemma SlotsOverwriteNewest<V>(order: seq<string>, items: map<string, V>, k: string, v: V)
    requires Listed(order, items) && Distinct(SlotsOf(order, items)) && order != [] && order[|order| - 1] == k
    ensures Listed(order, items[k := v])
    ensures SlotsOf(order, items[k := v]) == Put(SlotsOf(order, items), k, v)
  {
    var older := order[..|order| - 1];
    assert order == older + [k];
    NewestIsNew(order, items);
    hide SlotsOf, Has, Distinct, Lookup;
    SlotsSnoc(older, items, k);
    SlotsElsewhere(older, items, k, v);
    SlotsSnoc(older, items[k := v], k);
    WithoutNewest(SlotsOf(older, items), Slot(k, items[k]));
  }

  lemma NewestIsNew<V>(order: seq<string>, items: map<string, V>)
    requires order != [] && Listed(order, items) && Distinct(SlotsOf(order, items))
    ensures var n := |order| - 1; order[n] !in order[..n]
  {
    var s, n := SlotsOf(order, items), |order| - 1;
    forall i | 0 <= i < n ensures order[i] != order[n] {
      assert s[i].key == order[i] && s[n].key == order[n];
    }
  }

  lemma SlotsDropFirst<V>(order: seq<string>, items: map<string, V>)
    requires order != [] && Listed(order, items) && Distinct(SlotsOf(order, items))
    ensures Listed(order[1..], items - {order[0]})
    ensures SlotsOf(order[1..], items - {order[0]}) == SlotsOf(order, items)[1..]
    ensures Distinct(SlotsOf(order, items)[1..])
    ensures forall k :: k in order && k != order[0] ==> k in order[1..]
  {
    var s, rest := SlotsOf(order, items), order[1..];
    assert order == [order[0]] + rest;
    forall i | 0 <= i < |rest| ensures rest[i] != order[0] {
      assert s[0].key == order[0] && s[i + 1].key == rest[i];
    }
  }
}
