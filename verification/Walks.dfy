/** Walks through the outgoing adjacency lists, the reference the graph algorithms are proved against. */
module Walks {
  import opened Core
  import opened Engine

  /** The node a walk ends at. */
  function End(start: NodeId, steps: seq<Neighbor>): NodeId {
    if steps == [] then start else steps[|steps| - 1].nodeId
  }

  /** Each step is an entry of the outgoing list of the node before it. */
  ghost predicate IsWalk(out: Lists, start: NodeId, steps: seq<Neighbor>) {
    steps == [] ||
    var init := steps[..|steps| - 1];
    IsWalk(out, start, init) && steps[|steps| - 1] in NeighborsIn(out, End(start, init))
  }

  ghost predicate Reachable(out: Lists, start: NodeId, v: NodeId) {
    exists steps :: IsWalk(out, start, steps) && End(start, steps) == v
  }

  /** `d` is the least number of steps from `start` to `v`. */
  ghost predicate IsHopDistance(out: Lists, start: NodeId, v: NodeId, d: nat) {
    && (exists steps :: IsWalk(out, start, steps) && End(start, steps) == v && |steps| == d)
    && (forall steps :: IsWalk(out, start, steps) && End(start, steps) == v ==> d <= |steps|)
  }

  /** The nodes a walk passes, both ends included. */
  function Stops(start: NodeId, steps: seq<Neighbor>): (s: seq<NodeId>)
    ensures |s| == |steps| + 1
  {
    if steps == [] then [start] else Stops(start, steps[..|steps| - 1]) + [steps[|steps| - 1].nodeId]
  }

  lemma ExtendWalk(out: Lists, start: NodeId, steps: seq<Neighbor>, next: Neighbor)
    requires IsWalk(out, start, steps) && next in NeighborsIn(out, End(start, steps))
    ensures IsWalk(out, start, steps + [next]) && End(start, steps + [next]) == next.nodeId
  {
    assert (steps + [next])[..|steps|] == steps;
  }

  /** A set with the start in it and closed under steps holds every reachable node. */
  lemma {:induction false} ClosedHoldsWalk(out: Lists, s: set<NodeId>, start: NodeId, steps: seq<Neighbor>)
    requires start in s && forall u, n :: u in s && n in NeighborsIn(out, u) ==> n.nodeId in s
    requires IsWalk(out, start, steps)
    ensures End(start, steps) in s
    decreases |steps|
  {
    if steps != [] {
      ClosedHoldsWalk(out, s, start, steps[..|steps| - 1]);
    }
  }

  /** Every node named in the lists: the searches never leave it. */
  ghost function Universe(out: Lists): set<NodeId> {
    out.Keys + set u, i | u in out && 0 <= i < |out[u]| :: out[u][i].nodeId
  }

  lemma InUniverse(out: Lists, u: NodeId, n: Neighbor)
    requires n in NeighborsIn(out, u)
    ensures n.nodeId in Universe(out)
  {
    var i :| 0 <= i < |out[u]| && out[u][i] == n;
  }

  function Reverse(s: seq<NodeId>): (r: seq<NodeId>)
    ensures |r| == |s| && forall v :: v in r <==> v in s
  {
    if s == [] then []
    else
      assert s == s[..|s| - 1] + [s[|s| - 1]];
      [s[|s| - 1]] + Reverse(s[..|s| - 1])
  }

  lemma ReverseSnoc(s: seq<NodeId>, v: NodeId)
    ensures Reverse(s + [v]) == [v] + Reverse(s)
  {
    assert (s + [v])[..|s|] == s;
  }
}
