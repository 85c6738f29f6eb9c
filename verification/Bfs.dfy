/** Breadth-first traversal, src/algorithms/bfs.rs. */
module Bfs {
  import opened Core
  import opened Engine
  import opened Walks

  /** For every node met so far, the walk that met it. */
  type Found = map<NodeId, seq<Neighbor>>

  ghost predicate FoundByWalks(out: Lists, start: NodeId, found: Found) {
    && start in found && found[start] == []
    && forall v :: v in found ==> IsWalk(out, start, found[v]) && End(start, found[v]) == v
  }

  /** The first `k` neighbours of `u` have been met, no later than one step after `u`. */
  ghost predicate Expanded(found: Found, u: NodeId, l: seq<Neighbor>, k: nat)
    requires u in found && k <= |l|
  {
    forall i :: 0 <= i < k ==> l[i].nodeId in found && |found[l[i].nodeId]| <= |found[u]| + 1
  }

  /** The nodes in the order they were met: never going back in distance. */
  ghost predicate ByDistance(found: Found, s: seq<NodeId>)
    requires forall v :: v in s ==> v in found
  {
    forall i, j :: 0 <= i < j < |s| ==> |found[s[i]]| <= |found[s[j]]|
  }

  ghost predicate Within(found: Found, s: seq<NodeId>, d: nat)
    requires forall v :: v in s ==> v in found
  {
    forall v :: v in s ==> |found[v]| <= d
  }

  /** When everything met is expanded, no walk beats the recorded one. */
  lemma {:induction false} NoShorterWalk(out: Lists, start: NodeId, found: Found, steps: seq<Neighbor>)
    requires start in found && found[start] == []
    requires forall u :: u in found ==> Expanded(found, u, NeighborsIn(out, u), |NeighborsIn(out, u)|)
    requires IsWalk(out, start, steps)
    ensures End(start, steps) in found && |found[End(start, steps)]| <= |steps|
    decreases |steps|
  {
    if steps != [] {
      var init := steps[..|steps| - 1];
      NoShorterWalk(out, start, found, init);
      hide IsWalk;
      var u := End(start, init);
      var i :| 0 <= i < |NeighborsIn(out, u)| && NeighborsIn(out, u)[i] == steps[|steps| - 1];
      assert Expanded(found, u, NeighborsIn(out, u), |NeighborsIn(out, u)|);
    }
  }

  /** `order` lists exactly the reachable nodes, each once, with their true hop distances, which
      never decrease. */
  ghost predicate IsLevelOrder(out: Lists, start: NodeId, order: seq<NodeId>, hops: seq<nat>) {
    && |hops| == |order| && NoDup(order)
    && (forall v :: v in order <==> Reachable(out, start, v))
    && (forall i :: 0 <= i < |order| ==> IsHopDistance(out, start, order[i], hops[i]))
    && (forall i, j :: 0 <= i < j < |order| ==> hops[i] <= hops[j])
  }

  function Hops(found: Found, order: seq<NodeId>): (hops: seq<nat>)
    requires forall v :: v in order ==> v in found
    ensures |hops| == |order|
  {
    seq(|order|, i requires 0 <= i < |order| => |found[order[i]]|)
  }

  ghost predicate AllExpanded(out: Lists, found: Found, done: seq<NodeId>)
    requires forall v :: v in done ==> v in found
  {
    forall u :: u in done ==> Expanded(found, u, NeighborsIn(out, u), |NeighborsIn(out, u)|)
  }

  lemma Finished(out: Lists, start: NodeId, found: Found, order: seq<NodeId>)
    requires FoundByWalks(out, start, found) && NoDup(order)
    requires forall v :: v in found <==> v in order
    requires ByDistance(found, order) && AllExpanded(out, found, order)
    ensures IsLevelOrder(out, start, order, Hops(found, order))
  {
    hide IsWalk, End, IsHopDistance, Expanded, NeighborsIn;
    forall v | v in order
      ensures Reachable(out, start, v) && IsHopDistance(out, start, v, |found[v]|)
    {
      FoundIsShortest(out, start, found, v);
    }
    forall v | Reachable(out, start, v) ensures v in order {
      var steps :| IsWalk(out, start, steps) && End(start, steps) == v;
      NoShorterWalk(out, start, found, steps);
    }
  }

  lemma FoundIsShortest(out: Lists, start: NodeId, found: Found, v: NodeId)
    requires FoundByWalks(out, start, found) && v in found
    requires forall u :: u in found ==> Expanded(found, u, NeighborsIn(out, u), |NeighborsIn(out, u)|)
    ensures Reachable(out, start, v) && IsHopDistance(out, start, v, |found[v]|)
  {
    hide Expanded, IsWalk, End;
    forall steps | IsWalk(out, start, steps) && End(start, steps) == v ensures |found[v]| <= |steps| {
      NoShorterWalk(out, start, found, steps);
    }
  }

  /** The state of the outer loop. */
  ghost predicate Searching(out: Lists, start: NodeId, found: Found, order: seq<NodeId>, queue: seq<NodeId>) {
    && FoundByWalks(out, start, found)
    && NoDup(order + queue) && (forall v :: v in found <==> v in order + queue)
    && ByDistance(found, order + queue)
    && (queue != [] ==> Within(found, order + queue, |found[queue[0]]| + 1))
    && AllExpanded(out, found, order)
  }

  /** The state of the inner loop: the last node visited has its first `i` neighbours expanded. */
  ghost predicate Expanding(out: Lists, start: NodeId, found: Found, order: seq<NodeId>, queue: seq<NodeId>, i: nat) {
    && order != [] && var current := order[|order| - 1];
    && FoundByWalks(out, start, found)
    && NoDup(order + queue) && (forall v :: v in found <==> v in order + queue)
    && ByDistance(found, order + queue)
    && Within(found, order + queue, |found[current]| + 1)
    && AllExpanded(out, found, order[..|order| - 1])
    && i <= |NeighborsIn(out, current)| && Expanded(found, current, NeighborsIn(out, current), i)
  }

  lemma Dequeue(out: Lists, start: NodeId, found: Found, order: seq<NodeId>, queue: seq<NodeId>)
    requires Searching(out, start, found, order, queue) && queue != []
    ensures Expanding(out, start, found, order + [queue[0]], queue[1..], 0)
  {
    hide IsWalk, End, FoundByWalks, NeighborsIn;
    var met := order + queue;
    assert met == order + [queue[0]] + queue[1..] && met[|order|] == queue[0];
    assert (order + [queue[0]])[..|order|] == order;
  }

  lemma SkipKnown(out: Lists, start: NodeId, found: Found, order: seq<NodeId>, queue: seq<NodeId>, i: nat)
    requires Expanding(out, start, found, order, queue, i)
    requires var l := NeighborsIn(out, order[|order| - 1]); i < |l| && l[i].nodeId in found
    ensures Expanding(out, start, found, order, queue, i + 1)
  {
  }

  lemma Enqueue(out: Lists, start: NodeId, found: Found, order: seq<NodeId>, queue: seq<NodeId>, i: nat)
    returns (found': Found)
    requires Expanding(out, start, found, order, queue, i)
    requires var l := NeighborsIn(out, order[|order| - 1]); i < |l| && l[i].nodeId !in found
    ensures var n := NeighborsIn(out, order[|order| - 1])[i].nodeId;
            found'.Keys == found.Keys + {n} && Expanding(out, start, found', order, queue + [n], i + 1)
  {
    hide IsWalk, End, NeighborsIn, AllExpanded;
    var current := order[|order| - 1];
    var step := NeighborsIn(out, current)[i];
    var n, walk := step.nodeId, found[current] + [step];
    assert current in order + queue;
    ExtendWalk(out, start, found[current], step);
    found' := found[n := walk];
    assert order + (queue + [n]) == order + queue + [n];
    PushBack(found, order + queue, current, n, walk);
    StaysExpanded(out, found, order[..|order| - 1], n, walk);
  }

  lemma PushBack(found: Found, s: seq<NodeId>, current: NodeId, n: NodeId, walk: seq<Neighbor>)
    requires NoDup(s) && n !in found && current in s && forall v :: v in found <==> v in s
    requires ByDistance(found, s) && Within(found, s, |found[current]| + 1)
    requires |walk| == |found[current]| + 1
    ensures NoDup(s + [n]) && forall v :: v in found[n := walk] <==> v in s + [n]
    ensures ByDistance(found[n := walk], s + [n]) && Within(found[n := walk], s + [n], |found[current]| + 1)
  {
    assert forall i :: 0 <= i < |s| ==> s[i] in s;
  }

  lemma StaysExpanded(out: Lists, found: Found, done: seq<NodeId>, n: NodeId, walk: seq<Neighbor>)
    requires forall v :: v in done ==> v in found
    requires n !in found && AllExpanded(out, found, done)
    ensures AllExpanded(out, found[n := walk], done)
  {
    forall u | u in done ensures Expanded(found[n := walk], u, NeighborsIn(out, u), |NeighborsIn(out, u)|) {
      assert Expanded(found, u, NeighborsIn(out, u), |NeighborsIn(out, u)|);
    }
  }

  lemma Settle(out: Lists, start: NodeId, found: Found, order: seq<NodeId>, queue: seq<NodeId>)
    requires order != [] && Expanding(out, start, found, order, queue, |NeighborsIn(out, order[|order| - 1])|)
    ensures Searching(out, start, found, order, queue)
  {
    hide IsWalk, End, NeighborsIn, Expanded, FoundByWalks;
    var s := order + queue;
    assert forall v :: v in order ==> v in s;
    assert order == order[..|order| - 1] + [order[|order| - 1]];
    if queue != [] {
      assert s[|order|] == queue[0];
      assert s[|order| - 1] == order[|order| - 1];
    }
  }

  lemma {:induction false} NoDupInSet(s: seq<NodeId>, all: set<NodeId>)
    requires NoDup(s) && forall v :: v in s ==> v in all
    ensures |s| <= |all|
    decreases |s|
  {
    if s != [] {
      var init, last := s[..|s| - 1], s[|s| - 1];
      assert last in s && forall i :: 0 <= i < |init| ==> init[i] in s;
      NoDupInSet(init, all - {last});
    }
  }

  lemma Progress(out: Lists, start: NodeId, found: Found, order: seq<NodeId>, queue: seq<NodeId>, all: set<NodeId>)
    requires Searching(out, start, found, order, queue) && found.Keys <= all && queue != []
    ensures |order| < |all|
  {
    NoDupInSet(order + queue, all);
  }

  // ---- The order inside a level ----

  /** Level by level from the start, and in each level as the lists of the nodes before lead there. */
  ghost predicate IsBreadthFirst(out: Lists, start: NodeId, order: seq<NodeId>, hops: seq<nat>) {
    IsLevelOrder(out, start, order, hops) && order != [] && order[0] == start && InTurn(out, order)
  }

  predicate Sooner(p: nat, k: nat, p': nat, k': nat) {
    p < p' || (p == p' && k < k')
  }

  ghost predicate MetAt(out: Lists, order: seq<NodeId>, q: nat, l: nat, v: NodeId) {
    && q < |order| && l < |NeighborsIn(out, order[q])|
    && NeighborsIn(out, order[q])[l].nodeId == v
  }

  /** Reading the lists of the nodes in their order, one meets `v` before entry `k` of the node at `p`. */
  ghost predicate MetBefore(out: Lists, order: seq<NodeId>, p: nat, k: nat, v: NodeId) {
    exists q: nat, l: nat :: Sooner(q, l, p, k) && MetAt(out, order, q, l, v)
  }

  /** At some point of this reading one has met `u` and not yet `v`. */
  ghost predicate MetFirst(out: Lists, order: seq<NodeId>, u: NodeId, v: NodeId) {
    exists p: nat, k: nat :: p < |order| && MetBefore(out, order, p, k, u) && !MetBefore(out, order, p, k, v)
  }

  /** Nodes after the start come in the order in which the lists first meet them. */
  ghost predicate InTurn(out: Lists, order: seq<NodeId>) {
    forall i, j :: 0 < i < j < |order| ==> MetFirst(out, order, order[i], order[j])
  }

  /** Met before entry `k` of the node at `p` are the nodes after the start, and perhaps the start. */
  ghost predicate SoFar(out: Lists, met: seq<NodeId>, p: nat, k: nat) {
    && (forall v :: MetBefore(out, met, p, k, v) ==> v in met)
    && (forall i :: 0 < i < |met| ==> MetBefore(out, met, p, k, met[i]))
  }

  lemma MetNext(out: Lists, met: seq<NodeId>, p: nat, k: nat, v: NodeId)
    requires p < |met| && k < |NeighborsIn(out, met[p])|
    ensures MetBefore(out, met, p, k + 1, v) <==>
            MetBefore(out, met, p, k, v) || v == NeighborsIn(out, met[p])[k].nodeId
  {
    hide NeighborsIn;
    if v == NeighborsIn(out, met[p])[k].nodeId {
      assert Sooner(p, k, p, k + 1) && MetAt(out, met, p, k, v);
    }
    if q: nat, l: nat :| Sooner(q, l, p, k) && MetAt(out, met, q, l, v) {
      assert Sooner(q, l, p, k + 1);
    }
    if q: nat, l: nat :| Sooner(q, l, p, k + 1) && MetAt(out, met, q, l, v) {
      assert Sooner(q, l, p, k) || (q == p && l == k);
    }
  }

  lemma MetAll(out: Lists, met: seq<NodeId>, p: nat, v: NodeId)
    requires p < |met|
    ensures MetBefore(out, met, p + 1, 0, v) <==> MetBefore(out, met, p, |NeighborsIn(out, met[p])|, v)
  {
    hide NeighborsIn;
    var n := |NeighborsIn(out, met[p])|;
    if q: nat, l: nat :| Sooner(q, l, p, n) && MetAt(out, met, q, l, v) {
      assert Sooner(q, l, p + 1, 0);
    }
    if q: nat, l: nat :| Sooner(q, l, p + 1, 0) && MetAt(out, met, q, l, v) {
      assert Sooner(q, l, p, n);
    }
  }

  lemma MetGrows(out: Lists, met: seq<NodeId>, n: NodeId, p: nat, k: nat, v: NodeId)
    requires p < |met|
    ensures MetBefore(out, met + [n], p, k, v) <==> MetBefore(out, met, p, k, v)
  {
    hide NeighborsIn;
    if q: nat, l: nat :| Sooner(q, l, p, k) && MetAt(out, met, q, l, v) {
      assert MetAt(out, met + [n], q, l, v);
    }
    if q: nat, l: nat :| Sooner(q, l, p, k) && MetAt(out, met + [n], q, l, v) {
      assert MetAt(out, met, q, l, v);
    }
  }

  lemma TurnGrows(out: Lists, met: seq<NodeId>, n: NodeId, p: nat, k: nat)
    requires p < |met| && n !in met && SoFar(out, met, p, k) && InTurn(out, met)
    ensures InTurn(out, met + [n])
  {
    hide MetBefore;
    var met' := met + [n];
    forall i, j | 0 < i < j < |met'| ensures MetFirst(out, met', met'[i], met'[j]) {
      if j < |met| {
        var q: nat, l: nat :|
          q < |met| && MetBefore(out, met, q, l, met[i]) && !MetBefore(out, met, q, l, met[j]);
        MetGrows(out, met, n, q, l, met[i]);
        MetGrows(out, met, n, q, l, met[j]);
        assert MetBefore(out, met', q, l, met'[i]);
      } else {
        MetGrows(out, met, n, p, k, met[i]);
        MetGrows(out, met, n, p, k, n);
        assert MetBefore(out, met', p, k, met'[i]);
      }
    }
  }

  /** The state of both loops: entry `k` of the node at `p` is the next to look at. */
  ghost predicate Turning(out: Lists, start: NodeId, order: seq<NodeId>, queue: seq<NodeId>, p: nat, k: nat) {
    var met := order + queue;
    met != [] && met[0] == start && InTurn(out, met) && SoFar(out, met, p, k)
  }

  lemma TurnPop(out: Lists, start: NodeId, order: seq<NodeId>, queue: seq<NodeId>)
    requires queue != [] && Turning(out, start, order, queue, |order|, 0)
    ensures Turning(out, start, order + [queue[0]], queue[1..], |order|, 0)
  {
    hide InTurn, SoFar;
    assert order + queue == order + [queue[0]] + queue[1..];
  }

  /** The next entry is passed, and what it leads to goes last if it is new. */
  lemma TurnNext(out: Lists, start: NodeId, order: seq<NodeId>, queue: seq<NodeId>, i: nat)
    requires order != [] && i < |NeighborsIn(out, order[|order| - 1])|
    requires Turning(out, start, order, queue, |order| - 1, i)
    ensures var n := NeighborsIn(out, order[|order| - 1])[i].nodeId;
            var queue' := if n in order + queue then queue else queue + [n];
            Turning(out, start, order, queue', |order| - 1, i + 1)
  {
    hide InTurn, MetBefore, NeighborsIn;
    var met, p := order + queue, |order| - 1;
    var n := NeighborsIn(out, order[p])[i].nodeId;
    assert met[p] == order[p];
    var met' := if n in met then met else met + [n];
    assert n !in met ==> met' == order + (queue + [n]);
    forall v ensures MetBefore(out, met', p, i + 1, v) <==> MetBefore(out, met, p, i, v) || v == n {
      MetNext(out, met, p, i, v);
      MetGrows(out, met, n, p, i + 1, v);
    }
    if n !in met {
      TurnGrows(out, met, n, p, i);
    }
  }

  lemma TurnSettle(out: Lists, start: NodeId, order: seq<NodeId>, queue: seq<NodeId>)
    requires order != [] && Turning(out, start, order, queue, |order| - 1, |NeighborsIn(out, order[|order| - 1])|)
    ensures Turning(out, start, order, queue, |order|, 0)
  {
    hide InTurn, MetBefore, NeighborsIn;
    var met := order + queue;
    assert met[|order| - 1] == order[|order| - 1];
    forall v ensures MetBefore(out, met, |order|, 0, v)
                <==> MetBefore(out, met, |order| - 1, |NeighborsIn(out, met[|order| - 1])|, v)
    {
      MetAll(out, met, |order| - 1, v);
    }
  }

  lemma TurnOver(out: Lists, start: NodeId, order: seq<NodeId>)
    requires Turning(out, start, order, [], |order|, 0)
    ensures order != [] && order[0] == start && InTurn(out, order)
  {
    hide InTurn, SoFar;
    assert order + [] == order;
  }

  /** The reachable nodes in level order, in each level as the lists of the level before meet them;
      nothing when the start is not in the graph. */
  method Traverse(engine: AdjacencyListEngine, start: NodeId) returns (order: seq<NodeId>, ghost hops: seq<nat>)
    requires engine.Valid()
    ensures !engine.ContainsNode(start) ==> order == []
    ensures engine.ContainsNode(start) ==> IsBreadthFirst(engine.outgoing, start, order, hops)
  {
    hide Represents, Universe, Searching, Expanding, IsLevelOrder, InTurn, Turning, Exact;
    order, hops := [], [];
    if !engine.ContainsNode(start) {
      return;
    }
    ghost var out := engine.outgoing;
    ghost var all := Universe(out) + {start};
    var visited := {start};
    var queue := [start];
    ghost var found: Found := map[start := []];
    Begin(out, start);
    while queue != []
      invariant Searching(out, start, found, order, queue)
      invariant Turning(out, start, order, queue, |order|, 0)
      invariant found.Keys == visited && visited <= all
      decreases |all| - |order|
    {
      var current := queue[0];
      Dequeue(out, start, found, order, queue);
      Progress(out, start, found, order, queue, all);
      TurnPop(out, start, order, queue);
      queue := queue[1..];
      order := order + [current];
      var neighbors := engine.NeighborsOutgoing(current);
      for i := 0 to |neighbors|
        invariant Expanding(out, start, found, order, queue, i)
        invariant Turning(out, start, order, queue, |order| - 1, i)
        invariant found.Keys == visited && visited <= all
      {
        var n := neighbors[i].nodeId;
        TurnMet(out, start, found, order, queue, i);
        if n !in visited {
          InUniverse(out, current, neighbors[i]);
          found := Enqueue(out, start, found, order, queue, i);
          visited := visited + {n};
          queue := queue + [n];
        } else {
          SkipKnown(out, start, found, order, queue, i);
        }
      }
      TurnSettle(out, start, order, queue);
      Settle(out, start, found, order, queue);
    }
    FoundOrder(out, start, found, order);
    TurnOver(out, start, order);
    hops := Hops(found, order);
    Drained(out, start, found, order);
  }

  lemma TurnMet(out: Lists, start: NodeId, found: Found, order: seq<NodeId>, queue: seq<NodeId>, i: nat)
    requires Expanding(out, start, found, order, queue, i) && i < |NeighborsIn(out, order[|order| - 1])|
    requires Turning(out, start, order, queue, |order| - 1, i)
    ensures var n := NeighborsIn(out, order[|order| - 1])[i].nodeId;
            && (n in found ==> Turning(out, start, order, queue, |order| - 1, i + 1))
            && (n !in found ==> Turning(out, start, order, queue + [n], |order| - 1, i + 1))
  {
    hide Turning, FoundByWalks, ByDistance, Within, AllExpanded, Expanded, NeighborsIn;
    TurnNext(out, start, order, queue, i);
  }

  lemma Begin(out: Lists, start: NodeId)
    ensures Searching(out, start, map[start := []], [], [start])
    ensures Turning(out, start, [], [start], 0, 0)
  {
  }

  lemma FoundOrder(out: Lists, start: NodeId, found: Found, order: seq<NodeId>)
    requires Searching(out, start, found, order, [])
    ensures forall v :: v in order ==> v in found
  {
    assert order + [] == order;
  }

  lemma Drained(out: Lists, start: NodeId, found: Found, order: seq<NodeId>)
    requires Searching(out, start, found, order, []) && forall v :: v in order ==> v in found
    ensures IsLevelOrder(out, start, order, Hops(found, order))
  {
    assert order + [] == order;
    Finished(out, start, found, order);
  }
}
