/** Which entries the cache of src/adapters/cache/lru.rs gives up, told from the calls it has seen. */
module LruTrace {
  import opened Core
  import opened LruCache

  datatype CacheCall<V> = Get(id: U64) | Put(id: U64, value: V) | Invalidate(id: U64)

  function Called<V>(r: Recency<V>, capacity: nat, c: CacheCall<V>): Recency<V> {
    match c
    case Get(id) => r.Touch(id)
    case Put(id, v) => r.Put(capacity, id, v)
    case Invalidate(id) => r.Invalidate(id)
  }

  /** The recency list after some calls on an empty cache. */
  function Ran<V>(capacity: nat, calls: seq<CacheCall<V>>): Recency<V> {
    if calls == [] then Recency([], map[])
    else Called(Ran(capacity, calls[..|calls| - 1]), capacity, calls[|calls| - 1])
  }

  /** A put of the key, or a get that hits. */
  predicate UsesAt<V>(capacity: nat, calls: seq<CacheCall<V>>, id: U64, i: nat)
    requires i < |calls|
  {
    match calls[i]
    case Get(k) => k == id && id in Ran(capacity, calls[..i]).contents
    case Put(k, _) => k == id
    case Invalidate(_) => false
  }

  /** The last call that used the key, or -1. */
  function LastUse<V>(capacity: nat, calls: seq<CacheCall<V>>, id: U64): (i: int)
    ensures -1 <= i < |calls|
    ensures i >= 0 ==> UsesAt(capacity, calls, id, i)
    ensures forall j :: i < j < |calls| ==> !UsesAt(capacity, calls, id, j)
  {
    if calls == [] then -1
    else
      var n := |calls| - 1;
      PrefixUses(capacity, calls, id);
      if UsesAt(capacity, calls, id, n) then n else LastUse(capacity, calls[..n], id)
  }

  lemma PrefixUses<V>(capacity: nat, calls: seq<CacheCall<V>>, id: U64)
    requires calls != []
    ensures forall j :: 0 <= j < |calls| - 1 ==>
              UsesAt(capacity, calls[..|calls| - 1], id, j) == UsesAt(capacity, calls, id, j)
  {
    var init := calls[..|calls| - 1];
    forall j | 0 <= j < |init| ensures UsesAt(capacity, init, id, j) == UsesAt(capacity, calls, id, j) {
      assert init[..j] == calls[..j];
    }
  }

  /** The value of the last put of the key. */
  ghost predicate LastPut<V>(calls: seq<CacheCall<V>>, id: U64, v: V) {
    exists i :: 0 <= i < |calls| && calls[i] == Put(id, v)
                && forall j :: i < j < |calls| && calls[j].Put? ==> calls[j].id != id
  }

  /** The keys come in the order of their last uses. */
  ghost predicate ByUse<V>(capacity: nat, calls: seq<CacheCall<V>>, order: seq<U64>) {
    NoDup(order)
    && forall i, j :: 0 <= i < j < |order| ==> LastUse(capacity, calls, order[i]) < LastUse(capacity, calls, order[j])
  }

  /** Every key but one was last used when it was before. */
  ghost predicate SameUses<V>(capacity: nat, calls: seq<CacheCall<V>>, calls': seq<CacheCall<V>>, id: U64) {
    forall k: U64 :: k != id ==> LastUse(capacity, calls', k) == LastUse(capacity, calls, k)
  }

  lemma ByUseInit<V>(capacity: nat, calls: seq<CacheCall<V>>, order: seq<U64>)
    requires order != [] && ByUse(capacity, calls, order)
    ensures var init, last := order[..|order| - 1], order[|order| - 1];
            && ByUse(capacity, calls, init) && last !in init
            && forall k :: k in init ==> LastUse(capacity, calls, k) < LastUse(capacity, calls, last)
  {
    hide LastUse;
    var n := |order| - 1;
    assert forall i :: 0 <= i < n ==> order[..n][i] == order[i];
  }

  lemma ByUseSnoc<V>(capacity: nat, calls: seq<CacheCall<V>>, order: seq<U64>, last: U64)
    requires ByUse(capacity, calls, order) && last !in order
    requires forall k :: k in order ==> LastUse(capacity, calls, k) < LastUse(capacity, calls, last)
    ensures ByUse(capacity, calls, order + [last])
  {
    hide LastUse;
    assert forall i :: 0 <= i < |order| ==> order[i] in order;
  }

  lemma {:induction false} MinusByUse<V>(capacity: nat, calls: seq<CacheCall<V>>, calls': seq<CacheCall<V>>,
                                         order: seq<U64>, id: U64)
    requires ByUse(capacity, calls, order) && SameUses(capacity, calls, calls', id)
    ensures ByUse(capacity, calls', Minus(order, id)) && forall k :: k in Minus(order, id) <==> k in order && k != id
    ensures |Minus(order, id)| == |order| - if id in order then 1 else 0
    decreases |order|
  {
    hide LastUse;
    if order != [] {
      var init, last := order[..|order| - 1], order[|order| - 1];
      assert order == init + [last];
      ByUseInit(capacity, calls, order);
      MinusByUse(capacity, calls, calls', init, id);
      hide ByUse;
      if last != id {
        ByUseSnoc(capacity, calls', Minus(init, id), last);
      }
    }
  }

  /** The list holds the cached keys, each once, in the order of their last uses. */
  ghost predicate InOrder<V>(capacity: nat, calls: seq<CacheCall<V>>) {
    Holds(capacity, calls, Ran(capacity, calls))
  }

  ghost predicate Holds<V>(capacity: nat, calls: seq<CacheCall<V>>, r: Recency<V>) {
    && (forall k :: k in r.order <==> k in r.contents) && |r.order| <= capacity
    && (forall k :: k in r.contents ==> LastUse(capacity, calls, k) >= 0 && LastPut(calls, k, r.contents[k]))
    && ByUse(capacity, calls, r.order)
  }

  lemma UseNext<V>(capacity: nat, calls: seq<CacheCall<V>>, c: CacheCall<V>, id: U64)
    ensures var all := calls + [c];
            LastUse(capacity, all, id)
            == if (c.Get? && c.id == id && id in Ran(capacity, calls).contents) || (c.Put? && c.id == id) then |calls|
               else LastUse(capacity, calls, id)
  {
    assert (calls + [c])[..|calls|] == calls;
  }

  lemma PutNext<V>(calls: seq<CacheCall<V>>, c: CacheCall<V>, id: U64, v: V)
    ensures LastPut(calls, id, v) && !(c.Put? && c.id == id) ==> LastPut(calls + [c], id, v)
    ensures c == Put(id, v) ==> LastPut(calls + [c], id, v)
  {
    var all := calls + [c];
    if LastPut(calls, id, v) && !(c.Put? && c.id == id) {
      var i :| 0 <= i < |calls| && calls[i] == Put(id, v)
               && forall j :: i < j < |calls| && calls[j].Put? ==> calls[j].id != id;
      assert all[i] == Put(id, v);
    }
    if c == Put(id, v) {
      assert all[|calls|] == c;
    }
  }

  lemma UsesNext<V>(capacity: nat, calls: seq<CacheCall<V>>, c: CacheCall<V>)
    ensures SameUses(capacity, calls, calls + [c], c.id)
    ensures c.Put? || (c.Get? && c.id in Ran(capacity, calls).contents) ==>
              LastUse(capacity, calls + [c], c.id) == |calls|
    ensures forall k: U64, v: V :: LastPut(calls, k, v) && !(c.Put? && c.id == k) ==> LastPut(calls + [c], k, v)
    ensures c.Put? ==> LastPut(calls + [c], c.id, c.value)
  {
    forall k: U64 ensures k != c.id ==> LastUse(capacity, calls + [c], k) == LastUse(capacity, calls, k) {
      UseNext(capacity, calls, c, k);
    }
    UseNext(capacity, calls, c, c.id);
    forall k: U64, v: V | LastPut(calls, k, v) && !(c.Put? && c.id == k) ensures LastPut(calls + [c], k, v) {
      PutNext(calls, c, k, v);
    }
    if c.Put? {
      PutNext(calls, c, c.id, c.value);
    }
  }

  /** A key that is used goes last. */
  lemma MoveToEnd<V>(capacity: nat, calls: seq<CacheCall<V>>, calls': seq<CacheCall<V>>, order: seq<U64>, id: U64)
    requires ByUse(capacity, calls, order) && SameUses(capacity, calls, calls', id)
    requires LastUse(capacity, calls', id) == |calls|
    ensures ByUse(capacity, calls', Minus(order, id) + [id])
    ensures forall k :: k in Minus(order, id) + [id] <==> k in order || k == id
    ensures |Minus(order, id)| == |order| - if id in order then 1 else 0
  {
    hide LastUse, ByUse;
    MinusByUse(capacity, calls, calls', order, id);
    forall k | k in Minus(order, id) ensures LastUse(capacity, calls', k) < |calls| {
      UsedBefore(capacity, calls, k);
    }
    ByUseSnoc(capacity, calls', Minus(order, id), id);
  }

  lemma UsedBefore<V>(capacity: nat, calls: seq<CacheCall<V>>, k: U64)
    ensures LastUse(capacity, calls, k) < |calls|
  {
  }

  lemma RestByUse<V>(capacity: nat, calls: seq<CacheCall<V>>, order: seq<U64>)
    requires order != [] && ByUse(capacity, calls, order)
    ensures ByUse(capacity, calls, order[1..]) && forall k :: k in order[1..] <==> k in order && k != order[0]
  {
    hide LastUse;
    assert order == [order[0]] + order[1..];
  }

  lemma {:induction false} TraceInOrder<V>(capacity: nat, calls: seq<CacheCall<V>>)
    requires capacity > 0
    ensures InOrder(capacity, calls)
    decreases |calls|
  {
    if calls != [] {
      var init, c := calls[..|calls| - 1], calls[|calls| - 1];
      assert calls == init + [c];
      TraceInOrder(capacity, init);
      hide Holds;
      NextInOrder(capacity, init, c);
    }
  }

  lemma NextInOrder<V>(capacity: nat, calls: seq<CacheCall<V>>, c: CacheCall<V>)
    requires capacity > 0 && InOrder(capacity, calls)
    ensures InOrder(capacity, calls + [c])
  {
    RanNext(capacity, calls, c);
    UsesNext(capacity, calls, c);
    hide Ran, LastUse, LastPut, Holds, SameUses;
    var all, r := calls + [c], Ran(capacity, calls);
    match c {
      case Get(id) => GetInOrder(capacity, calls, all, r, id);
      case Put(id, v) => PutInOrder(capacity, calls, all, r, id, v);
      case Invalidate(id) => InvalidateInOrder(capacity, calls, all, r, id);
    }
  }

  lemma StillByUse<V>(capacity: nat, calls: seq<CacheCall<V>>, calls': seq<CacheCall<V>>, order: seq<U64>, id: U64)
    requires ByUse(capacity, calls, order) && SameUses(capacity, calls, calls', id) && id !in order
    ensures ByUse(capacity, calls', order)
  {
    hide LastUse;
    assert forall i :: 0 <= i < |order| ==> order[i] in order;
  }

  lemma GetInOrder<V>(capacity: nat, calls: seq<CacheCall<V>>, calls': seq<CacheCall<V>>, r: Recency<V>, id: U64)
    requires Holds(capacity, calls, r) && SameUses(capacity, calls, calls', id)
    requires id in r.contents ==> LastUse(capacity, calls', id) == |calls|
    requires forall k: U64, v: V :: LastPut(calls, k, v) ==> LastPut(calls', k, v)
    ensures Holds(capacity, calls', r.Touch(id))
  {
    hide LastUse, LastPut, Minus, ByUse;
    if id in r.contents {
      MoveToEnd(capacity, calls, calls', r.order, id);
    } else {
      StillByUse(capacity, calls, calls', r.order, id);
    }
  }

  lemma PutInOrder<V>(capacity: nat, calls: seq<CacheCall<V>>, calls': seq<CacheCall<V>>, r: Recency<V>, id: U64, v: V)
    requires capacity > 0 && Holds(capacity, calls, r) && SameUses(capacity, calls, calls', id)
    requires LastUse(capacity, calls', id) == |calls| && LastPut(calls', id, v)
    requires forall k: U64, w: V :: LastPut(calls, k, w) && k != id ==> LastPut(calls', k, w)
    ensures Holds(capacity, calls', r.Put(capacity, id, v))
  {
    hide LastUse, LastPut, Minus, ByUse;
    if id in r.contents || |r.order| < capacity || r.order == [] {
      MoveToEnd(capacity, calls, calls', r.order, id);
      assert forall k :: k in r.order && k != id ==> LastUse(capacity, calls', k) >= 0;
    } else {
      RestByUse(capacity, calls, r.order);
      MoveToEnd(capacity, calls, calls', r.order[1..], id);
      FullPut(capacity, calls, calls', r, id, v);
    }
  }

  lemma FullPut<V>(capacity: nat, calls: seq<CacheCall<V>>, calls': seq<CacheCall<V>>, r: Recency<V>, id: U64, v: V)
    requires Holds(capacity, calls, r) && SameUses(capacity, calls, calls', id)
    requires id !in r.contents && r.order != [] && |r.order| == capacity
    requires LastUse(capacity, calls', id) == |calls| && LastPut(calls', id, v)
    requires forall k: U64, w: V :: LastPut(calls, k, w) && k != id ==> LastPut(calls', k, w)
    requires forall k :: k in r.order[1..] <==> k in r.order && k != r.order[0]
    requires forall k :: k in Minus(r.order[1..], id) + [id] <==> k in r.order[1..] || k == id
    requires |Minus(r.order[1..], id)| == |r.order| - 1
    requires ByUse(capacity, calls', Minus(r.order[1..], id) + [id])
    ensures Holds(capacity, calls', Recency(Minus(r.order[1..], id) + [id], (r.contents - {r.order[0]})[id := v]))
  {
    hide LastUse, LastPut, Minus, ByUse;
  }

  lemma InvalidateInOrder<V>(capacity: nat, calls: seq<CacheCall<V>>, calls': seq<CacheCall<V>>, r: Recency<V>, id: U64)
    requires Holds(capacity, calls, r) && SameUses(capacity, calls, calls', id)
    requires forall k: U64, w: V :: LastPut(calls, k, w) ==> LastPut(calls', k, w)
    ensures Holds(capacity, calls', r.Invalidate(id))
  {
    hide LastUse, LastPut, Minus, ByUse;
    MinusByUse(capacity, calls, calls', r.order, id);
  }

  lemma RanNext<V>(capacity: nat, calls: seq<CacheCall<V>>, c: CacheCall<V>)
    ensures Ran(capacity, calls + [c]) == Called(Ran(capacity, calls), capacity, c)
  {
    assert (calls + [c])[..|calls|] == calls;
  }

  /** A put of a new key into a full cache gives up the cached key whose last hit or put lies
      furthest back; any other put gives up nothing. */
  lemma EvictsLeastRecent<V>(capacity: nat, calls: seq<CacheCall<V>>, id: U64, v: V) returns (evicted: U64)
    requires capacity > 0
    ensures var before, after := Ran(capacity, calls).contents, Ran(capacity, calls + [Put(id, v)]).contents;
            && |before| <= capacity
            && (id in before || |before| < capacity ==> after == before[id := v])
            && (id !in before && |before| == capacity ==>
                  && evicted in before && after == (before - {evicted})[id := v]
                  && forall k :: k in before && k != evicted ==>
                       LastUse(capacity, calls, evicted) < LastUse(capacity, calls, k))
  {
    TraceInOrder(capacity, calls);
    RanNext(capacity, calls, Put(id, v));
    var r := Ran(capacity, calls);
    hide Ran, LastUse;
    NoDupSize(r.order, r.contents.Keys);
    assert |r.contents| == |r.contents.Keys|;
    evicted := if r.order == [] then 0 else r.order[0];
    forall k | k in r.contents && r.order != [] && k != evicted
      ensures LastUse(capacity, calls, evicted) < LastUse(capacity, calls, k)
    {
      var j :| 0 <= j < |r.order| && r.order[j] == k;
      assert r.order[0] == evicted;
    }
  }

  /** A get answers the value of the last put, if the key is still cached, and keeps what is cached. */
  lemma GetAnswers<V>(capacity: nat, calls: seq<CacheCall<V>>, id: U64)
    requires capacity > 0
    ensures Ran(capacity, calls + [Get(id)]).contents == Ran(capacity, calls).contents
    ensures id in Ran(capacity, calls).contents ==> LastPut(calls, id, Ran(capacity, calls).contents[id])
  {
    TraceInOrder(capacity, calls);
    RanNext(capacity, calls, Get(id));
    hide LastPut, LastUse, Ran;
  }

  /** Any calls on an empty cache, in turn. */
  method Play(cache: LruCache, calls: seq<CacheCall<Node>>) returns (answers: seq<Option<Node>>)
    requires cache.Valid() && cache.nodeList == Recency([], map[])
    requires forall i :: 0 <= i < |calls| && calls[i].Put? ==> calls[i].id == calls[i].value.id
    modifies cache
    ensures cache.Valid() && cache.nodeList == Ran(cache.nodeCapacity, calls) && |answers| == |calls|
    ensures forall i :: 0 <= i < |calls| && calls[i].Get? ==>
              answers[i] == Lookup(Ran(cache.nodeCapacity, calls[..i]).contents, calls[i].id)
  {
    hide LruCache.Valid, Recency.Touch, Recency.Put, Recency.Invalidate;
    answers := [];
    for n := 0 to |calls|
      invariant cache.Valid() && cache.nodeList == Ran(cache.nodeCapacity, calls[..n]) && |answers| == n
      invariant forall i :: 0 <= i < n && calls[i].Get? ==>
                  answers[i] == Lookup(Ran(cache.nodeCapacity, calls[..i]).contents, calls[i].id)
    {
      RanNext(cache.nodeCapacity, calls[..n], calls[n]);
      assert calls[..n + 1] == calls[..n] + [calls[n]];
      var r := None;
      match calls[n] {
        case Get(id) => r := cache.GetNode(id);
        case Put(_, node) => cache.PutNode(node);
        case Invalidate(id) => cache.InvalidateNode(id);
      }
      answers := answers + [r];
    }
    assert calls[..|calls|] == calls;
  }
}
