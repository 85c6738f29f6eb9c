/** Shortest paths, src/algorithms/dijkstra.rs, over any arithmetic that behaves like rounded
    addition of non-negative floats: monotone, never decreasing, with an infinity; it need not
    be associative. */
module Dijkstra {
  import opened Core
  import opened Engine
  import opened Walks

  datatype Arithmetic = Arithmetic(
    zero: F64, infinity: F64, plus: (F64, F64) -> F64, lessEq: (F64, F64) -> bool,
    distances: F64 -> bool, weights: F64 -> bool)
  {
    function Add(a: F64, w: F64): F64 { plus(a, w) }

    predicate Le(a: F64, b: F64) { lessEq(a, b) }

    predicate Lt(a: F64, b: F64) { Le(a, b) && a != b }

    predicate IsDistance(a: F64) { distances(a) }

    predicate IsWeight(w: F64) { weights(w) }

    /** What holds of non-negative IEEE 754 numbers, with -0.0 a weight but not a distance. */
    ghost predicate Laws() {
      && IsDistance(zero) && IsDistance(infinity) && zero != infinity
      && (forall a :: IsDistance(a) ==> Le(zero, a) && Le(a, infinity))
      && (forall a, b :: IsDistance(a) && IsDistance(b) ==> Le(a, b) || Le(b, a))
      && (forall a, b :: IsDistance(a) && IsDistance(b) && Le(a, b) && Le(b, a) ==> a == b)
      && (forall a, b, c :: IsDistance(a) && IsDistance(b) && IsDistance(c) && Le(a, b) && Le(b, c) ==> Le(a, c))
      && (forall a, w :: IsDistance(a) && IsWeight(w) ==> IsDistance(Add(a, w)) && Le(a, Add(a, w)))
      && (forall a, b, w :: IsDistance(a) && IsDistance(b) && IsWeight(w) && Le(a, b) ==> Le(Add(a, w), Add(b, w)))
    }

    lemma Order(a: F64, b: F64)
      requires Laws() && IsDistance(a) && IsDistance(b)
      ensures IsDistance(zero) && IsDistance(infinity)
      ensures Le(zero, a) && Le(a, infinity) && Le(a, a)
      ensures Le(a, b) || Le(b, a)
      ensures Le(a, b) && Le(b, a) ==> a == b
    {
    }

    lemma Trans(a: F64, b: F64, c: F64)
      requires Laws() && IsDistance(a) && IsDistance(b) && IsDistance(c) && Le(a, b) && Le(b, c)
      ensures Le(a, c)
    {
    }

    lemma Sum(a: F64, b: F64, w: F64)
      requires Laws() && IsDistance(a) && IsDistance(b) && IsWeight(w) && Le(a, b)
      ensures IsDistance(Add(a, w)) && Le(a, Add(a, w)) && IsDistance(Add(b, w)) && Le(Add(a, w), Add(b, w))
    {
    }

    /** The cost of a walk: additions from the left, as the search performs them. */
    function Cost(steps: seq<Neighbor>): F64 {
      if steps == [] then zero else Add(Cost(steps[..|steps| - 1]), steps[|steps| - 1].weight)
    }

    ghost predicate WeightsOk(out: Lists) {
      forall u, n :: n in NeighborsIn(out, u) ==> IsWeight(n.weight)
    }
  }

  /** Numbers with values, and a rounding of sums to them: exact on the numbers themselves and
      monotone, which may overflow to infinity. */
  datatype Rounding = Rounding(
    value: F64 -> real, round: real -> F64, zero: F64, infinity: F64, distances: F64 -> bool, weights: F64 -> bool)
  {
    predicate Below(a: F64, b: F64) {
      b == infinity || (a != infinity && value(a) <= value(b))
    }

    function Plus(a: F64, w: F64): F64 {
      if a == infinity || w == infinity then infinity else round(value(a) + value(w))
    }

    ghost predicate Valid() {
      && distances(zero) && distances(infinity) && zero != infinity && value(zero) == 0.0
      && (forall a :: distances(a) && a != infinity ==> value(a) >= 0.0 && round(value(a)) == a)
      && (forall w :: weights(w) && w != infinity ==> value(w) >= 0.0)
      && (forall x: real :: x >= 0.0 ==> distances(round(x)))
      && (forall x: real, y: real :: 0.0 <= x <= y ==> Below(round(x), round(y)))
    }

    function Addition(): Arithmetic {
      Arithmetic(zero, infinity, (a: F64, w: F64) => Plus(a, w), (a: F64, b: F64) => Below(a, b), distances, weights)
    }

    lemma PlusGrows(a: F64, b: F64, w: F64)
      requires Valid() && distances(a) && distances(b) && weights(w) && Below(a, b)
      ensures distances(Plus(a, w)) && Below(a, Plus(a, w)) && Below(Plus(a, w), Plus(b, w))
    {
      if a != infinity && w != infinity {
        assert round(value(a)) == a;
        assert Below(round(value(a)), round(value(a) + value(w)));
      }
    }
  }

  /** Any correctly rounded addition of non-negative numbers meets the laws. */
  lemma RoundedLaws(r: Rounding)
    requires r.Valid()
    ensures r.Addition().Laws()
  {
    hide Rounding.Plus;
    forall a: F64, b: F64, w: F64 | r.distances(a) && r.distances(b) && r.weights(w) && r.Below(a, b)
      ensures r.distances(r.Plus(a, w)) && r.Below(a, r.Plus(a, w)) && r.Below(r.Plus(a, w), r.Plus(b, w))
    {
      r.PlusGrows(a, b, w);
    }
  }

  function Whole(n: F64): real {
    n as real
  }

  function Down(x: real): F64 {
    if 0.0 <= x < MAX_U64 as real then x.Floor else MAX_U64
  }

  lemma DownKeepsOrder(x: real, y: real)
    requires 0.0 <= x <= y
    ensures Down(x) <= Down(y)
  {
  }

  lemma DownKeepsWhole(n: F64)
    ensures Down(Whole(n)) == n
  {
  }

  /** Whole numbers, rounding down and overflowing at the greatest one, are an instance. */
  lemma WholeRounds()
    ensures Rounding(Whole, Down, 0, MAX_U64, (a: F64) => true, (w: F64) => true).Valid()
  {
    forall x: real, y: real | 0.0 <= x <= y ensures Down(x) <= Down(y) {
      DownKeepsOrder(x, y);
    }
    forall n: F64 ensures Down(Whole(n)) == n {
      DownKeepsWhole(n);
    }
    hide Down;
  }

  datatype HeapEntry = HeapEntry(distance: F64, nodeId: NodeId)

  predicate EntryLe(ar: Arithmetic, x: HeapEntry, y: HeapEntry) {
    ar.Lt(x.distance, y.distance) || (x.distance == y.distance && x.nodeId <= y.nodeId)
  }

  /** The maps and the heap of the search; `found` and `done` record, for the proof, the walk
      behind each distance and the nodes already expanded. */
  datatype Search = Search(
    dist: map<NodeId, F64>, pred: map<NodeId, NodeId>, heap: multiset<HeapEntry>,
    ghost found: map<NodeId, seq<Neighbor>>, ghost done: set<NodeId>)

  /** Distances are the costs of real walks, chained through expanded predecessors. */
  ghost predicate Grounded(ar: Arithmetic, out: Lists, start: NodeId, s: Search) {
    && s.found.Keys == s.dist.Keys && s.done <= s.dist.Keys
    && start in s.dist && s.found[start] == []
    && (forall v :: v in s.dist ==>
          && IsWalk(out, start, s.found[v]) && End(start, s.found[v]) == v
          && s.dist[v] == ar.Cost(s.found[v]) && ar.IsDistance(s.dist[v]) && s.dist[v] != ar.infinity)
    && (forall v :: v in s.dist && v != start ==> ChainedTo(s, v))
  }

  ghost predicate ChainedTo(s: Search, v: NodeId)
    requires s.found.Keys == s.dist.Keys && s.done <= s.dist.Keys && v in s.dist
  {
    && v in s.pred && s.pred[v] in s.done
    && s.found[v] != [] && s.found[v][..|s.found[v]| - 1] == s.found[s.pred[v]]
  }

  /** The heap holds one current entry for each node still to expand, and otherwise stale ones. */
  ghost predicate HeapOk(ar: Arithmetic, s: Search) {
    && (forall v :: v in s.dist ==> s.heap[HeapEntry(s.dist[v], v)] == if v in s.done then 0 else 1)
    && (forall e :: e in s.heap ==>
          ar.IsDistance(e.distance) && e.nodeId in s.dist && ar.Le(s.dist[e.nodeId], e.distance))
  }

  ghost predicate Relaxed(ar: Arithmetic, s: Search, u: NodeId, n: Neighbor)
    requires u in s.dist
  {
    var d := ar.Add(s.dist[u], n.weight);
    d == ar.infinity || (n.nodeId in s.dist && ar.Le(s.dist[n.nodeId], d))
  }

  /** The edges of the expanded nodes, but `except`, are relaxed. */
  ghost predicate DoneRelaxed(ar: Arithmetic, out: Lists, s: Search, except: set<NodeId>)
    requires s.done <= s.dist.Keys
  {
    forall u, n :: u in s.done && u !in except && n in NeighborsIn(out, u) ==> Relaxed(ar, s, u, n)
  }

  /** `d` separates the expanded nodes from the heap. */
  ghost predicate Frontier(ar: Arithmetic, s: Search, d: F64)
    requires s.done <= s.dist.Keys
  {
    && ar.IsDistance(d)
    && (forall u :: u in s.done ==> ar.Le(s.dist[u], d))
    && (forall e :: e in s.heap ==> ar.Le(d, e.distance))
  }

  ghost predicate Invariant(ar: Arithmetic, out: Lists, start: NodeId, s: Search, d: F64, except: set<NodeId>) {
    && Grounded(ar, out, start, s) && HeapOk(ar, s)
    && DoneRelaxed(ar, out, s, except) && Frontier(ar, s, d)
  }

  function Initial(ar: Arithmetic, start: NodeId): Search {
    Search(map[start := ar.zero], map[], multiset{HeapEntry(ar.zero, start)}, map[start := []], {})
  }

  lemma InitialOk(ar: Arithmetic, out: Lists, start: NodeId)
    requires ar.Laws()
    ensures Invariant(ar, out, start, Initial(ar, start), ar.zero, {})
  {
  }

  ghost predicate IsMin(ar: Arithmetic, heap: multiset<HeapEntry>, e: HeapEntry) {
    e in heap && forall x :: x in heap ==> EntryLe(ar, e, x)
  }

  lemma EntryOrder(ar: Arithmetic, x: HeapEntry, y: HeapEntry, z: HeapEntry)
    requires ar.Laws() && ar.IsDistance(x.distance) && ar.IsDistance(y.distance) && ar.IsDistance(z.distance)
    ensures EntryLe(ar, x, x) && (EntryLe(ar, x, y) || EntryLe(ar, y, x))
    ensures EntryLe(ar, x, y) && EntryLe(ar, y, z) ==> EntryLe(ar, x, z)
    ensures EntryLe(ar, x, y) ==> ar.Le(x.distance, y.distance)
  {
  }

  /** `BinaryHeap::pop` under the reversed order has a unique answer. */
  lemma {:induction false} MinExists(ar: Arithmetic, heap: multiset<HeapEntry>)
    requires ar.Laws() && heap != multiset{} && forall e :: e in heap ==> ar.IsDistance(e.distance)
    ensures exists e :: IsMin(ar, heap, e)
    decreases |heap|
  {
    hide Arithmetic.Laws, EntryLe;
    var e :| e in heap;
    EntryOrder(ar, e, e, e);
    var rest := heap - multiset{e};
    assert heap == multiset{e} + rest;
    if rest == multiset{} {
      assert IsMin(ar, heap, e);
    } else {
      MinExists(ar, rest);
      var m :| IsMin(ar, rest, m);
      LeastOfTwo(ar, rest, e, m);
      assert IsMin(ar, heap, if EntryLe(ar, e, m) then e else m);
    }
  }

  lemma LeastOfTwo(ar: Arithmetic, rest: multiset<HeapEntry>, e: HeapEntry, m: HeapEntry)
    requires ar.Laws() && IsMin(ar, rest, m) && ar.IsDistance(e.distance)
    requires forall x :: x in rest ==> ar.IsDistance(x.distance)
    ensures IsMin(ar, multiset{e} + rest, if EntryLe(ar, e, m) then e else m)
  {
    hide Arithmetic.Laws, EntryLe;
    EntryOrder(ar, e, m, m);
    EntryOrder(ar, e, e, e);
    EntryOrder(ar, m, m, m);
    forall x | x in rest ensures EntryLe(ar, if EntryLe(ar, e, m) then e else m, x) {
      EntryOrder(ar, if EntryLe(ar, e, m) then e else m, m, x);
    }
  }

  function Pop(s: Search, e: HeapEntry): Search {
    s.(heap := s.heap - multiset{e})
  }

  lemma GroundedKept(ar: Arithmetic, out: Lists, start: NodeId, s: Search, heap: multiset<HeapEntry>, done: set<NodeId>)
    requires Grounded(ar, out, start, s) && s.done <= done <= s.dist.Keys
    ensures Grounded(ar, out, start, s.(heap := heap, done := done))
  {
    hide Arithmetic.Laws, IsWalk, End, Arithmetic.Cost;
    forall v | v in s.dist && v != start ensures ChainedTo(s.(heap := heap, done := done), v) {
      assert ChainedTo(s, v);
    }
  }

  lemma FrontierMoves(ar: Arithmetic, out: Lists, start: NodeId, s: Search, d: F64, e: HeapEntry)
    requires ar.Laws() && Grounded(ar, out, start, s) && HeapOk(ar, s) && Frontier(ar, s, d) && IsMin(ar, s.heap, e)
    ensures Frontier(ar, Pop(s, e), e.distance)
  {
    hide Arithmetic.Laws, IsWalk, End, Arithmetic.Cost, ChainedTo, EntryLe;
    forall u | u in s.done ensures ar.Le(s.dist[u], e.distance) {
      ar.Trans(s.dist[u], d, e.distance);
    }
    forall x | x in Pop(s, e).heap ensures ar.Le(e.distance, x.distance) {
      assert x in s.heap;
      EntryOrder(ar, e, x, x);
    }
  }

  /** Popping a stale entry keeps the invariant. */
  lemma PopStale(ar: Arithmetic, out: Lists, start: NodeId, s: Search, d: F64, e: HeapEntry)
    requires ar.Laws() && Invariant(ar, out, start, s, d, {}) && IsMin(ar, s.heap, e)
    requires s.dist[e.nodeId] != e.distance
    ensures Invariant(ar, out, start, Pop(s, e), e.distance, {})
  {
    hide Arithmetic.Laws, IsMin, Frontier, IsWalk, End, Arithmetic.Cost, ChainedTo;
    GroundedKept(ar, out, start, s, s.heap - multiset{e}, s.done);
    FrontierMoves(ar, out, start, s, d, e);
    forall u, n | u in s.done && n in NeighborsIn(out, u) ensures Relaxed(ar, Pop(s, e), u, n) {
      assert Relaxed(ar, s, u, n);
    }
  }

  function Settle(s: Search, e: HeapEntry): Search {
    s.(heap := s.heap - multiset{e}, done := s.done + {e.nodeId})
  }

  /** Popping a current entry starts the expansion of its node, which was not expanded before. */
  lemma PopCurrent(ar: Arithmetic, out: Lists, start: NodeId, s: Search, d: F64, e: HeapEntry)
    requires ar.Laws() && Invariant(ar, out, start, s, d, {}) && IsMin(ar, s.heap, e)
    requires s.dist[e.nodeId] == e.distance
    ensures e.nodeId !in s.done
    ensures Invariant(ar, out, start, Settle(s, e), e.distance, {e.nodeId})
  {
    hide Arithmetic.Laws, HeapOk, Frontier, IsMin, NeighborsIn, IsWalk, End, Arithmetic.Cost, ChainedTo;
    SettleHeap(ar, out, start, s, d, e);
    GroundedKept(ar, out, start, s, s.heap - multiset{e}, s.done + {e.nodeId});
    FrontierMoves(ar, out, start, s, d, e);
    SettleFrontier(ar, out, start, s, e);
    forall u, n | u in s.done && n in NeighborsIn(out, u) ensures Relaxed(ar, Settle(s, e), u, n) {
      assert Relaxed(ar, s, u, n);
    }
  }

  lemma SettleHeap(ar: Arithmetic, out: Lists, start: NodeId, s: Search, d: F64, e: HeapEntry)
    requires Grounded(ar, out, start, s) && HeapOk(ar, s) && IsMin(ar, s.heap, e) && s.dist[e.nodeId] == e.distance
    ensures e.nodeId in s.dist && e.nodeId !in s.done && HeapOk(ar, Settle(s, e))
  {
    hide Arithmetic.Laws, IsWalk, End, Arithmetic.Cost, ChainedTo, EntryLe;
    assert s.heap[e] == 1;
  }

  lemma SettleFrontier(ar: Arithmetic, out: Lists, start: NodeId, s: Search, e: HeapEntry)
    requires ar.Laws() && s.done <= s.dist.Keys && e.nodeId in s.dist && s.dist[e.nodeId] == e.distance
    requires Frontier(ar, Pop(s, e), e.distance)
    ensures Frontier(ar, Settle(s, e), e.distance)
  {
    ar.Order(e.distance, e.distance);
  }

  function Improve(s: Search, u: NodeId, n: Neighbor, d: F64): Search
    requires u in s.found
  {
    Search(s.dist[n.nodeId := d], s.pred[n.nodeId := u], s.heap + multiset{HeapEntry(d, n.nodeId)},
           s.found[n.nodeId := s.found[u] + [n]], s.done)
  }

  ghost predicate Improves(ar: Arithmetic, out: Lists, start: NodeId, s: Search, u: NodeId, n: Neighbor) {
    && ar.WeightsOk(out) && n in NeighborsIn(out, u)
    && Grounded(ar, out, start, s) && u in s.done
    && ar.Lt(ar.Add(s.dist[u], n.weight), if n.nodeId in s.dist then s.dist[n.nodeId] else ar.infinity)
  }

  lemma NewDistance(ar: Arithmetic, out: Lists, start: NodeId, s: Search, u: NodeId, n: Neighbor)
    requires ar.Laws() && Improves(ar, out, start, s, u, n)
    ensures var d := ar.Add(s.dist[u], n.weight);
            && ar.IsDistance(d) && d != ar.infinity && ar.Le(s.dist[u], d) && n.nodeId != start
            && (n.nodeId in s.dist ==>
                  ar.IsDistance(s.dist[n.nodeId]) && ar.Le(d, s.dist[n.nodeId]) && d != s.dist[n.nodeId])
  {
    hide Arithmetic.Laws, IsWalk, End, ChainedTo, NeighborsIn;
    ar.Sum(s.dist[u], s.dist[u], n.weight) by { ar.Order(s.dist[u], s.dist[u]); }
    var d := ar.Add(s.dist[u], n.weight);
    ar.Order(d, d);
    if n.nodeId in s.dist {
      ar.Order(d, s.dist[n.nodeId]);
      ar.Order(s.dist[n.nodeId], ar.infinity);
    }
    ar.Order(d, ar.zero);
    assert s.dist[start] == ar.zero;
  }

  lemma ImproveGrounded(ar: Arithmetic, out: Lists, start: NodeId, s: Search, u: NodeId, n: Neighbor)
    requires ar.Laws() && Improves(ar, out, start, s, u, n) && n.nodeId !in s.done
    ensures Grounded(ar, out, start, Improve(s, u, n, ar.Add(s.dist[u], n.weight)))
  {
    hide Arithmetic.Laws, IsWalk, End, NeighborsIn, ChainedTo, Arithmetic.Cost;
    NewDistance(ar, out, start, s, u, n);
    ExtendWalk(out, start, s.found[u], n);
    CostSnoc(ar, s.found[u], n);
    var s' := Improve(s, u, n, ar.Add(s.dist[u], n.weight));
    forall v | v in s'.dist && v != start ensures ChainedTo(s', v) {
      ImproveChain(ar, out, start, s, u, n, v);
    }
  }

  lemma CostSnoc(ar: Arithmetic, steps: seq<Neighbor>, n: Neighbor)
    ensures ar.Cost(steps + [n]) == ar.Add(ar.Cost(steps), n.weight)
  {
    assert (steps + [n])[..|steps|] == steps;
  }

  lemma ImproveChain(ar: Arithmetic, out: Lists, start: NodeId, s: Search, u: NodeId, n: Neighbor, v: NodeId)
    requires Grounded(ar, out, start, s) && u in s.done && n.nodeId !in s.done
    requires v == n.nodeId || (v in s.dist && v != start)
    ensures ChainedTo(Improve(s, u, n, ar.Add(s.dist[u], n.weight)), v)
  {
    hide Arithmetic.Laws, IsWalk, End, NeighborsIn, Arithmetic.Cost;
    if v == n.nodeId {
      var walk := s.found[u] + [n];
      assert walk[..|walk| - 1] == s.found[u];
    } else {
      assert ChainedTo(s, v);
    }
  }

  lemma ImproveHeap(ar: Arithmetic, out: Lists, start: NodeId, s: Search, u: NodeId, n: Neighbor)
    requires ar.Laws() && Improves(ar, out, start, s, u, n) && n.nodeId !in s.done
    requires HeapOk(ar, s)
    ensures HeapOk(ar, Improve(s, u, n, ar.Add(s.dist[u], n.weight)))
  {
    hide Arithmetic.Laws, IsWalk, End, NeighborsIn, ChainedTo, Arithmetic.Cost;
    NewDistance(ar, out, start, s, u, n);
    var d := ar.Add(s.dist[u], n.weight);
    var s' := Improve(s, u, n, d);
    ar.Order(d, d);
    if HeapEntry(d, n.nodeId) in s.heap {
      ar.Order(d, s.dist[n.nodeId]);
    }
    forall e | e in s'.heap
      ensures ar.IsDistance(e.distance) && e.nodeId in s'.dist && ar.Le(s'.dist[e.nodeId], e.distance)
    {
      if e.nodeId == n.nodeId && e in s.heap {
        ar.Trans(d, s.dist[n.nodeId], e.distance);
      }
    }
  }

  lemma ImproveFrontier(ar: Arithmetic, out: Lists, start: NodeId, s: Search, u: NodeId, n: Neighbor)
    requires ar.Laws() && Improves(ar, out, start, s, u, n) && Frontier(ar, s, s.dist[u])
    ensures n.nodeId !in s.done
    ensures Frontier(ar, Improve(s, u, n, ar.Add(s.dist[u], n.weight)), s.dist[u])
  {
    hide Arithmetic.Laws, IsWalk, End, NeighborsIn, ChainedTo, Arithmetic.Cost;
    NewDistance(ar, out, start, s, u, n);
    if n.nodeId in s.done {
      var d := ar.Add(s.dist[u], n.weight);
      ar.Trans(s.dist[n.nodeId], s.dist[u], d);
      ar.Order(d, s.dist[n.nodeId]);
    }
  }

  /** Relaxed edges stay relaxed when a distance shrinks. */
  lemma StaysRelaxed(ar: Arithmetic, out: Lists, start: NodeId, s: Search, u: NodeId, n: Neighbor, x: NodeId,
                     m: Neighbor)
    requires ar.Laws() && Improves(ar, out, start, s, u, n) && n.nodeId !in s.done
    requires x in s.done && m in NeighborsIn(out, x) && Relaxed(ar, s, x, m)
    ensures Relaxed(ar, Improve(s, u, n, ar.Add(s.dist[u], n.weight)), x, m)
  {
    hide Arithmetic.Laws, IsWalk, End, NeighborsIn, ChainedTo, Arithmetic.Cost;
    if m.nodeId == n.nodeId && m.nodeId in s.dist {
      NewDistance(ar, out, start, s, u, n);
      ar.Order(s.dist[x], s.dist[x]);
      ar.Sum(s.dist[x], s.dist[x], m.weight);
      var relaxed := ar.Add(s.dist[x], m.weight);
      if relaxed != ar.infinity {
        ar.Trans(ar.Add(s.dist[u], n.weight), s.dist[n.nodeId], relaxed);
      }
    }
  }

  /** A strict improvement never touches an expanded node and keeps the invariant. */
  lemma ImproveOk(ar: Arithmetic, out: Lists, start: NodeId, s: Search, u: NodeId, n: Neighbor)
    requires ar.Laws() && Improves(ar, out, start, s, u, n)
    requires Invariant(ar, out, start, s, s.dist[u], {u})
    ensures n.nodeId !in s.done
    ensures Invariant(ar, out, start, Improve(s, u, n, ar.Add(s.dist[u], n.weight)), s.dist[u], {u})
    ensures Relaxed(ar, Improve(s, u, n, ar.Add(s.dist[u], n.weight)), u, n)
  {
    hide Arithmetic.Laws, IsWalk, End, NeighborsIn, ChainedTo, Arithmetic.Cost, HeapOk, Frontier, Relaxed;
    var d := ar.Add(s.dist[u], n.weight);
    var s' := Improve(s, u, n, d);
    ImproveFrontier(ar, out, start, s, u, n);
    ImproveGrounded(ar, out, start, s, u, n);
    ImproveHeap(ar, out, start, s, u, n);
    forall x, m | x in s'.done && x !in {u} && m in NeighborsIn(out, x) ensures Relaxed(ar, s', x, m) {
      assert Relaxed(ar, s, x, m);
      StaysRelaxed(ar, out, start, s, u, n, x, m);
    }
    NewRelaxed(ar, out, start, s, u, n);
  }

  lemma NewRelaxed(ar: Arithmetic, out: Lists, start: NodeId, s: Search, u: NodeId, n: Neighbor)
    requires ar.Laws() && Improves(ar, out, start, s, u, n) && n.nodeId !in s.done
    ensures Relaxed(ar, Improve(s, u, n, ar.Add(s.dist[u], n.weight)), u, n)
  {
    hide Arithmetic.Laws, IsWalk, End, NeighborsIn, ChainedTo, Arithmetic.Cost;
    NewDistance(ar, out, start, s, u, n);
    var d := ar.Add(s.dist[u], n.weight);
    ar.Order(d, d);
  }

  /** An edge that brings no improvement is relaxed already. */
  lemma AlreadyRelaxed(ar: Arithmetic, out: Lists, start: NodeId, s: Search, u: NodeId, n: Neighbor)
    requires ar.Laws() && ar.WeightsOk(out) && Grounded(ar, out, start, s) && u in s.done && n in NeighborsIn(out, u)
    requires !Improves(ar, out, start, s, u, n)
    ensures Relaxed(ar, s, u, n)
  {
    hide Arithmetic.Laws, IsWalk, End, NeighborsIn, ChainedTo, Arithmetic.Cost;
    ar.Order(s.dist[u], s.dist[u]);
    ar.Sum(s.dist[u], s.dist[u], n.weight);
    var d := ar.Add(s.dist[u], n.weight);
    ar.Order(d, if n.nodeId in s.dist then s.dist[n.nodeId] else d);
  }

  // ---- Optimality ----

  /** No walk undercuts the expanded nodes or, when it ends elsewhere, the frontier. */
  lemma {:induction false} LowerBound(ar: Arithmetic, out: Lists, start: NodeId, s: Search, d: F64,
                                      steps: seq<Neighbor>)
    requires ar.Laws() && ar.WeightsOk(out) && Invariant(ar, out, start, s, d, {})
    requires IsWalk(out, start, steps)
    ensures ar.IsDistance(ar.Cost(steps))
    ensures (End(start, steps) in s.done && ar.Le(s.dist[End(start, steps)], ar.Cost(steps)))
         || ar.Le(d, ar.Cost(steps))
    decreases |steps|
  {
    if steps == [] {
      if start !in s.done {
        assert HeapEntry(s.dist[start], start) in s.heap;
      }
    } else {
      var init, n := steps[..|steps| - 1], steps[|steps| - 1];
      LowerBound(ar, out, start, s, d, init);
      var u := End(start, init);
      if u in s.done && ar.Le(s.dist[u], ar.Cost(init)) {
        StepBound(ar, out, start, s, d, u, n, ar.Cost(init));
      }
    }
  }

  lemma StepBound(ar: Arithmetic, out: Lists, start: NodeId, s: Search, d: F64, u: NodeId, n: Neighbor, cost: F64)
    requires ar.Laws() && ar.WeightsOk(out) && Invariant(ar, out, start, s, d, {})
    requires u in s.done && n in NeighborsIn(out, u) && ar.IsDistance(cost) && ar.Le(s.dist[u], cost)
    ensures (n.nodeId in s.done && ar.Le(s.dist[n.nodeId], ar.Add(cost, n.weight))) || ar.Le(d, ar.Add(cost, n.weight))
  {
    assert Relaxed(ar, s, u, n);
    var v, relaxed, total := n.nodeId, ar.Add(s.dist[u], n.weight), ar.Add(cost, n.weight);
    assert ar.Le(relaxed, total);
    if relaxed != ar.infinity && v !in s.done {
      assert HeapEntry(s.dist[v], v) in s.heap;
      assert ar.Le(d, s.dist[v]);
    }
  }

  // ---- The result ----

  /** A real start-to-goal walk through `path` of this cost, which is finite and minimal. */
  ghost predicate IsShortest(ar: Arithmetic, out: Lists, start: NodeId, goal: NodeId, path: seq<NodeId>, total: F64) {
    && total != ar.infinity
    && (exists steps :: IsWalk(out, start, steps) && End(start, steps) == goal
                        && Stops(start, steps) == path && ar.Cost(steps) == total)
    && (forall steps :: IsWalk(out, start, steps) && End(start, steps) == goal ==> ar.Le(total, ar.Cost(steps)))
  }

  /** Every walk to the goal, if there is one, costs as much as infinity. */
  ghost predicate OutOfReach(ar: Arithmetic, out: Lists, start: NodeId, goal: NodeId) {
    forall steps :: IsWalk(out, start, steps) && End(start, steps) == goal ==> ar.Cost(steps) == ar.infinity
  }

  lemma GoalCurrent(ar: Arithmetic, out: Lists, start: NodeId, goal: NodeId, s: Search, d: F64, e: HeapEntry)
    requires ar.Laws() && Invariant(ar, out, start, s, d, {})
    requires IsMin(ar, s.heap, e) && e.nodeId == goal && goal !in s.done
    ensures goal in s.dist && e.distance == s.dist[goal] && Frontier(ar, s, e.distance)
    ensures s.dist[goal] != ar.infinity && IsWalk(out, start, s.found[goal]) && End(start, s.found[goal]) == goal
    ensures ar.Cost(s.found[goal]) == s.dist[goal]
  {
    hide IsWalk, End, Arithmetic.Cost, ChainedTo, NeighborsIn;
    assert HeapEntry(s.dist[goal], goal) in s.heap;
  }

  lemma GoalPopped(ar: Arithmetic, out: Lists, start: NodeId, goal: NodeId, s: Search, d: F64, e: HeapEntry)
    requires ar.Laws() && ar.WeightsOk(out) && Invariant(ar, out, start, s, d, {})
    requires IsMin(ar, s.heap, e) && e.nodeId == goal && goal !in s.done
    ensures goal in s.dist
    ensures IsShortest(ar, out, start, goal, Stops(start, s.found[goal]), s.dist[goal])
  {
    hide Arithmetic.Laws, HeapOk, Frontier, IsMin, NeighborsIn, Arithmetic.Cost, ChainedTo, Stops, DoneRelaxed;
    GoalCurrent(ar, out, start, goal, s, d, e);
    forall steps | IsWalk(out, start, steps) && End(start, steps) == goal
      ensures ar.Le(s.dist[goal], ar.Cost(steps))
    {
      LowerBound(ar, out, start, s, e.distance, steps);
    }
  }

  lemma HeapDrained(ar: Arithmetic, out: Lists, start: NodeId, goal: NodeId, s: Search, d: F64)
    requires ar.Laws() && ar.WeightsOk(out) && Invariant(ar, out, start, s, d, {})
    requires s.heap == multiset{} && goal !in s.done
    ensures OutOfReach(ar, out, start, goal)
  {
    assert Frontier(ar, s, ar.infinity);
    forall steps | IsWalk(out, start, steps) && End(start, steps) == goal
      ensures ar.Cost(steps) == ar.infinity
    {
      LowerBound(ar, out, start, s, ar.infinity, steps);
    }
  }

  /** One predecessor step shortens the walk behind the node by its last stop. */
  lemma Unchain(ar: Arithmetic, out: Lists, start: NodeId, s: Search, v: NodeId)
    requires Grounded(ar, out, start, s) && v in s.dist
    ensures v == start ==> Stops(start, s.found[v]) == [v]
    ensures v != start ==>
      && v in s.pred && s.pred[v] in s.dist && |s.found[s.pred[v]]| < |s.found[v]|
      && Stops(start, s.found[v]) == Stops(start, s.found[s.pred[v]]) + [v]
  {
    hide Arithmetic.Cost, IsWalk;
    if v != start {
      assert ChainedTo(s, v);
    }
  }

  /** Walking the predecessors back from the goal reaches the start and never loops. */
  method ReconstructPath(ar: Arithmetic, ghost out: Lists, pred: map<NodeId, NodeId>, start: NodeId, goal: NodeId,
                         ghost s: Search)
    returns (path: seq<NodeId>)
    requires Grounded(ar, out, start, s) && pred == s.pred && goal in s.dist
    ensures path == Stops(start, s.found[goal])
  {
    hide Stops, ChainedTo, Arithmetic.Cost, IsWalk, End;
    path := [];
    var current := goal;
    while true
      invariant current in s.dist
      invariant Stops(start, s.found[goal]) == Stops(start, s.found[current]) + Reverse(path)
      decreases |s.found[current]|
    {
      Unchain(ar, out, start, s, current);
      ReverseSnoc(path, current);
      path := path + [current];
      if current == start {
        break;
      }
      if current in pred {
        current := pred[current];
      } else {
        break;
      }
    }
    path := Reverse(path);
  }

  method PopMin(ar: Arithmetic, heap: multiset<HeapEntry>) returns (e: HeapEntry)
    requires ar.Laws() && heap != multiset{} && forall x :: x in heap ==> ar.IsDistance(x.distance)
    ensures IsMin(ar, heap, e)
  {
    hide Arithmetic.Laws, EntryLe;
    MinExists(ar, heap);
    e :| e in heap && forall x :: x in heap ==> EntryLe(ar, e, x);
  }

  /** What the loop needs to know of an entry in the heap. */
  lemma EntryFacts(ar: Arithmetic, out: Lists, start: NodeId, s: Search, d: F64)
    requires ar.Laws() && Invariant(ar, out, start, s, d, {})
    ensures Grounded(ar, out, start, s)
    ensures forall e :: e in s.heap ==> ar.IsDistance(e.distance) && e.nodeId in s.dist
    ensures forall e :: e in s.heap ==> (ar.Lt(s.dist[e.nodeId], e.distance) <==> s.dist[e.nodeId] != e.distance)
  {
  }

  /** The state of the inner loop: the first `i` edges of `u` are relaxed. */
  ghost predicate Expanding(ar: Arithmetic, out: Lists, start: NodeId, s: Search, u: NodeId, i: nat) {
    && u in s.done && u in s.dist && i <= |NeighborsIn(out, u)|
    && Invariant(ar, out, start, s, s.dist[u], {u})
    && forall j :: 0 <= j < i ==> Relaxed(ar, s, u, NeighborsIn(out, u)[j])
  }

  lemma ExpandEdge(ar: Arithmetic, out: Lists, start: NodeId, s: Search, u: NodeId, i: nat) returns (s': Search)
    requires ar.Laws() && ar.WeightsOk(out) && Expanding(ar, out, start, s, u, i) && i < |NeighborsIn(out, u)|
    ensures var n := NeighborsIn(out, u)[i];
            var d := ar.Add(s.dist[u], n.weight);
            && u in s.found
            && s' == (if ar.Lt(d, if n.nodeId in s.dist then s.dist[n.nodeId] else ar.infinity)
                      then Improve(s, u, n, d) else s)
            && (s' != s ==> n.nodeId !in s.done)
    ensures Expanding(ar, out, start, s', u, i + 1) && s'.dist[u] == s.dist[u]
  {
    hide Arithmetic.Laws, IsWalk, End, ChainedTo, Arithmetic.Cost, HeapOk, Frontier, Relaxed, DoneRelaxed;
    var n := NeighborsIn(out, u)[i];
    if Improves(ar, out, start, s, u, n) {
      ImproveOk(ar, out, start, s, u, n);
      s' := Improve(s, u, n, ar.Add(s.dist[u], n.weight));
      forall j | 0 <= j < i ensures Relaxed(ar, s', u, NeighborsIn(out, u)[j]) {
        StaysRelaxed(ar, out, start, s, u, n, u, NeighborsIn(out, u)[j]);
      }
    } else {
      AlreadyRelaxed(ar, out, start, s, u, n);
      s' := s;
    }
  }

  lemma Expanded(ar: Arithmetic, out: Lists, start: NodeId, s: Search, u: NodeId)
    requires Expanding(ar, out, start, s, u, |NeighborsIn(out, u)|)
    ensures Invariant(ar, out, start, s, s.dist[u], {})
  {
    hide Grounded, HeapOk, Frontier, Relaxed;
    assert s.done <= s.dist.Keys by { DoneKnown(ar, out, start, s); }
    forall x, n | x in s.done && n in NeighborsIn(out, x) ensures Relaxed(ar, s, x, n) {
      if x == u {
        var j :| 0 <= j < |NeighborsIn(out, u)| && NeighborsIn(out, u)[j] == n;
      }
    }
  }

  lemma DoneKnown(ar: Arithmetic, out: Lists, start: NodeId, s: Search)
    requires Grounded(ar, out, start, s)
    ensures s.done <= s.dist.Keys
  {
  }

  lemma ShortestInReach(ar: Arithmetic, out: Lists, start: NodeId, goal: NodeId, path: seq<NodeId>, total: F64)
    requires IsShortest(ar, out, start, goal, path, total)
    ensures !OutOfReach(ar, out, start, goal)
  {
  }

  method FindShortestPath(engine: AdjacencyListEngine, ar: Arithmetic, start: NodeId, goal: NodeId)
    returns (r: Option<(seq<NodeId>, F64)>)
    requires engine.Valid() && ar.Laws() && ar.WeightsOk(engine.outgoing)
    ensures r.None? <==> !engine.ContainsNode(start) || !engine.ContainsNode(goal)
                         || OutOfReach(ar, engine.outgoing, start, goal)
    ensures r.Some? ==> IsShortest(ar, engine.outgoing, start, goal, r.value.0, r.value.1)
  {
    hide Represents, Universe, Arithmetic.Laws, Arithmetic.WeightsOk, Arithmetic.Add, Arithmetic.Lt, Invariant,
         Expanding, IsShortest, OutOfReach, IsMin, Grounded;
    if !engine.ContainsNode(start) || !engine.ContainsNode(goal) {
      return None;
    }
    ghost var out := engine.outgoing;
    ghost var all := Universe(out) + {start};
    var distance: map<NodeId, F64> := map[start := ar.zero];
    var predecessor: map<NodeId, NodeId> := map[];
    var heap := multiset{HeapEntry(ar.zero, start)};
    ghost var s := Initial(ar, start);
    ghost var d := ar.zero;
    InitialOk(ar, out, start);
    while heap != multiset{}
      invariant Invariant(ar, out, start, s, d, {})
      invariant s.dist == distance && s.pred == predecessor && s.heap == heap
      invariant goal !in s.done && distance.Keys <= all
      decreases |all - s.done|, |heap|
    {
      EntryFacts(ar, out, start, s, d);
      var top := PopMin(ar, heap);
      assert top in heap by { MinInHeap(ar, heap, top); }
      heap := heap - multiset{top};
      var current, currentDist := top.nodeId, top.distance;
      if current == goal {
        GoalPopped(ar, out, start, goal, s, d, top);
        ShortestInReach(ar, out, start, goal, Stops(start, s.found[goal]), s.dist[goal]);
        var path := ReconstructPath(ar, out, predecessor, start, goal, s);
        return Some((path, distance[goal]));
      }
      if ar.Lt(distance[current], currentDist) {
        PopStale(ar, out, start, s, d, top);
        s, d := Pop(s, top), currentDist;
        continue;
      }
      PopCurrent(ar, out, start, s, d, top);
      Shrinks(all, s.done, current);
      s, d := Settle(s, top), currentDist;
      ghost var done := s.done;
      BeginExpanding(ar, out, start, s, current);
      var neighbors := engine.NeighborsOutgoing(current);
      for i := 0 to |neighbors|
        invariant current in s.dist && s.dist[current] == currentDist && Expanding(ar, out, start, s, current, i)
        invariant s.dist == distance && s.pred == predecessor && s.heap == heap
        invariant s.done == done && distance.Keys <= all
      {
        var n := neighbors[i];
        var newDist := ar.Add(currentDist, n.weight);
        InUniverse(out, current, n);
        s := ExpandEdge(ar, out, start, s, current, i);
        if ar.Lt(newDist, if n.nodeId in distance then distance[n.nodeId] else ar.infinity) {
          distance := distance[n.nodeId := newDist];
          predecessor := predecessor[n.nodeId := current];
          heap := heap + multiset{HeapEntry(newDist, n.nodeId)};
        }
      }
      Expanded(ar, out, start, s, current);
    }
    HeapDrained(ar, out, start, goal, s, d);
    return None;
  }

  lemma MinInHeap(ar: Arithmetic, heap: multiset<HeapEntry>, e: HeapEntry)
    requires IsMin(ar, heap, e)
    ensures e in heap
  {
  }

  lemma BeginExpanding(ar: Arithmetic, out: Lists, start: NodeId, s: Search, u: NodeId)
    requires u in s.done && u in s.dist && Invariant(ar, out, start, s, s.dist[u], {u})
    ensures Expanding(ar, out, start, s, u, 0)
  {
  }

  lemma Shrinks(all: set<NodeId>, done: set<NodeId>, v: NodeId)
    requires v in all && v !in done
    ensures |all - (done + {v})| < |all - done|
  {
    assert all - done == (all - (done + {v})) + {v};
  }
}
