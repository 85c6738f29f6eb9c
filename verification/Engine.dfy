/** The in-memory adjacency lists of src/adapters/engine/adjacency_list.rs. */
module Engine {
  import opened Core

  /** One side of an edge, as neighbour queries return it. */
  datatype Neighbor = Neighbor(nodeId: NodeId, edgeId: EdgeId, weight: F64)

  /** What an edge is to the engine. */
  datatype Link = Link(source: NodeId, target: NodeId, weight: F64)

  type Lists = map<NodeId, seq<Neighbor>>

  function NeighborsIn(lists: Lists, n: NodeId): seq<Neighbor> {
    if n in lists then lists[n] else []
  }

  /** `neighbors.retain(|n| n.edge_id != edge)` */
  function Retain(l: seq<Neighbor>, edge: EdgeId): seq<Neighbor> {
    if l == [] then []
    else
      var last := l[|l| - 1];
      Retain(l[..|l| - 1], edge) + if last.edgeId != edge then [last] else []
  }

  /** Which end of its edges a list belongs to. */
  datatype Side = Outgoing | Incoming

  /** The edge an entry in the list of `n` stands for. */
  function LinkOf(n: NodeId, x: Neighbor, side: Side): Link {
    if side.Outgoing? then Link(n, x.nodeId, x.weight) else Link(x.nodeId, n, x.weight)
  }

  function Owner(link: Link, side: Side): NodeId {
    if side.Outgoing? then link.source else link.target
  }

  function EntryOf(e: EdgeId, link: Link, side: Side): Neighbor {
    Neighbor(if side.Outgoing? then link.target else link.source, e, link.weight)
  }

  ghost predicate DistinctEdges(l: seq<Neighbor>) {
    forall i, j :: 0 <= i < j < |l| ==> l[i].edgeId != l[j].edgeId
  }

  /** `l` has one entry for each edge at this side of `n`, and no other. */
  ghost predicate Exact(l: seq<Neighbor>, edges: map<EdgeId, Link>, n: NodeId, side: Side) {
    && DistinctEdges(l)
    && (forall x :: x in l <==> x.edgeId in edges && edges[x.edgeId] == LinkOf(n, x, side))
  }

  ghost predicate ExactLists(lists: Lists, edges: map<EdgeId, Link>, side: Side) {
    forall n :: n in lists ==> Exact(lists[n], edges, n, side)
  }

  lemma ExactNew(lists: Lists, edges: map<EdgeId, Link>, n: NodeId, side: Side)
    requires ExactLists(lists, edges, side) && forall e :: e in edges ==> Owner(edges[e], side) != n
    ensures ExactLists(lists[n := []], edges, side)
  {
  }

  /** The entry goes into the list of its owner, a new one if the owner has none. */
  lemma ExactAdd(lists: Lists, edges: map<EdgeId, Link>, e: EdgeId, link: Link, side: Side)
    requires ExactLists(lists, edges, side) && e !in edges
    requires Owner(link, side) !in lists ==> forall f :: f in edges ==> Owner(edges[f], side) != Owner(link, side)
    ensures var n := Owner(link, side);
            ExactLists(lists[n := NeighborsIn(lists, n) + [EntryOf(e, link, side)]], edges[e := link], side)
  {
    var o := Owner(link, side);
    var lists' := lists[o := NeighborsIn(lists, o) + [EntryOf(e, link, side)]];
    forall n | n in lists' ensures Exact(lists'[n], edges[e := link], n, side) {
      if n in lists {
        assert Exact(lists[n], edges, n, side);
        assert forall i :: 0 <= i < |lists[n]| ==> lists[n][i] in lists[n];
      }
    }
  }

  lemma {:induction false} RetainContent(l: seq<Neighbor>, edge: EdgeId)
    ensures forall x :: x in Retain(l, edge) <==> x in l && x.edgeId != edge
    ensures DistinctEdges(l) ==> DistinctEdges(Retain(l, edge))
    decreases |l|
  {
    if l != [] {
      var init, last := l[..|l| - 1], l[|l| - 1];
      RetainContent(init, edge);
      assert l == init + [last];
      if DistinctEdges(l) {
        LastIsDistinct(init, Retain(init, edge), last);
      }
    }
  }

  ghost predicate Before(l: seq<Neighbor>, x: Neighbor, y: Neighbor) {
    exists i, j :: 0 <= i < j < |l| && l[i] == x && l[j] == y
  }

  /** What is left stands in the order it stood in. */
  ghost predicate KeepsOrder(after: Lists, before: Lists) {
    forall n, x, y :: Before(NeighborsIn(after, n), x, y) ==> Before(NeighborsIn(before, n), x, y)
  }

  lemma {:induction false} RetainOrder(l: seq<Neighbor>, edge: EdgeId, x: Neighbor, y: Neighbor)
    requires Before(Retain(l, edge), x, y)
    ensures Before(l, x, y)
    decreases |l|
  {
    var r := Retain(l, edge);
    var i, j :| 0 <= i < j < |r| && r[i] == x && r[j] == y;
    var init := l[..|l| - 1];
    var kept := Retain(init, edge);
    RetainContent(init, edge);
    assert kept[i] == x;
    if j < |kept| {
      assert Before(kept, x, y);
      RetainOrder(init, edge, x, y);
      var a, b :| 0 <= a < b < |init| && init[a] == x && init[b] == y;
      assert l[a] == x && l[b] == y;
    } else {
      assert x in kept;
      var a :| 0 <= a < |init| && init[a] == x;
      assert l[a] == x && l[|l| - 1] == y;
    }
  }

  lemma RetainKeepsOrder(lists: Lists, n: NodeId, edge: EdgeId)
    ensures n in lists ==> KeepsOrder(lists[n := Retain(lists[n], edge)], lists)
  {
    hide Before, Retain;
    if n in lists {
      forall x, y | Before(Retain(lists[n], edge), x, y) ensures Before(lists[n], x, y) {
        RetainOrder(lists[n], edge, x, y);
      }
    }
  }

  lemma OrderKeptOn(last: Lists, middle: Lists, first: Lists)
    requires KeepsOrder(last, middle) && KeepsOrder(middle, first)
    ensures KeepsOrder(last, first)
  {
  }

  lemma SameOrder(lists: Lists)
    ensures KeepsOrder(lists, lists)
  {
  }

  lemma DropKeepsOrder(lists: Lists, n: NodeId)
    ensures KeepsOrder(lists - {n}, lists)
  {
    hide Before;
    forall m, x, y | Before(NeighborsIn(lists - {n}, m), x, y) ensures Before(NeighborsIn(lists, m), x, y) {
      if m == n {
        NoneBefore(x, y);
      }
    }
  }

  lemma NoneBefore(x: Neighbor, y: Neighbor)
    ensures !Before([], x, y)
  {
  }

  lemma LastIsDistinct(init: seq<Neighbor>, kept: seq<Neighbor>, last: Neighbor)
    requires DistinctEdges(init + [last]) && DistinctEdges(kept) && forall x :: x in kept ==> x in init
    ensures DistinctEdges(init) && DistinctEdges(kept + [last]) && kept + [] == kept
  {
    var l := init + [last];
    assert forall i :: 0 <= i < |init| ==> l[i] == init[i];
    assert l[|init|] == last;
    forall x | x in kept ensures x.edgeId != last.edgeId {
      var i :| 0 <= i < |init| && init[i] == x;
      assert l[i].edgeId != l[|init|].edgeId;
    }
    assert forall i :: 0 <= i < |kept| ==> kept[i] in kept;
  }

  lemma ExactRemove(lists: Lists, edges: map<EdgeId, Link>, e: EdgeId, side: Side)
    requires ExactLists(lists, edges, side) && e in edges && Owner(edges[e], side) in lists
    ensures var n := Owner(edges[e], side);
            ExactLists(lists[n := Retain(lists[n], e)], edges - {e}, side)
  {
    var o := Owner(edges[e], side);
    RetainContent(lists[o], e);
    forall n | n in lists ensures Exact(if n == o then Retain(lists[o], e) else lists[n], edges - {e}, n, side) {
      assert Exact(lists[n], edges, n, side);
    }
  }

  /** The three maps of the engine. */
  datatype Adjacency = Adjacency(outgoing: Lists, incoming: Lists, endpoints: map<EdgeId, (NodeId, NodeId)>)

  ghost predicate EndsIn(edges: map<EdgeId, Link>, nodes: set<NodeId>) {
    forall e :: e in edges ==> edges[e].source in nodes && edges[e].target in nodes
  }

  /** The maps represent this graph: both directions mirror it, one entry per edge. */
  ghost predicate Represents(a: Adjacency, nodes: set<NodeId>, edges: map<EdgeId, Link>) {
    && a.outgoing.Keys == nodes && a.incoming.Keys == nodes
    && EndsIn(edges, nodes)
    && a.endpoints.Keys == edges.Keys
    && (forall e :: e in edges ==> a.endpoints[e] == (edges[e].source, edges[e].target))
    && ExactLists(a.outgoing, edges, Outgoing)
    && ExactLists(a.incoming, edges, Incoming)
  }

  function WithNode(a: Adjacency, id: NodeId): Adjacency {
    a.(outgoing := if id in a.outgoing then a.outgoing else a.outgoing[id := []],
       incoming := if id in a.incoming then a.incoming else a.incoming[id := []])
  }

  /** The edge enters the list of its source on one side and of its target on the other. */
  function WithEdge(a: Adjacency, id: EdgeId, link: Link): Adjacency {
    var Link(s, t, w) := link;
    Adjacency(a.outgoing[s := NeighborsIn(a.outgoing, s) + [Neighbor(t, id, w)]],
              a.incoming[t := NeighborsIn(a.incoming, t) + [Neighbor(s, id, w)]],
              a.endpoints[id := (s, t)])
  }

  function WithoutEdge(a: Adjacency, id: EdgeId): Adjacency {
    if id !in a.endpoints then a
    else
      var (s, t) := a.endpoints[id];
      Adjacency(if s in a.outgoing then a.outgoing[s := Retain(a.outgoing[s], id)] else a.outgoing,
                if t in a.incoming then a.incoming[t := Retain(a.incoming[t], id)] else a.incoming,
                a.endpoints - {id})
  }

  lemma WithNodeRepresents(a: Adjacency, nodes: set<NodeId>, edges: map<EdgeId, Link>, id: NodeId)
    requires Represents(a, nodes, edges)
    ensures Represents(WithNode(a, id), nodes + {id}, edges)
  {
    hide ExactLists;
    if id !in nodes {
      ExactNew(a.outgoing, edges, id, Outgoing);
      ExactNew(a.incoming, edges, id, Incoming);
    } else {
      assert nodes + {id} == nodes;
    }
  }

  function Owners(edges: map<EdgeId, Link>, side: Side): set<NodeId> {
    set e | e in edges :: Owner(edges[e], side)
  }

  /** What is left of `Represents` when edges may end in nodes that were never inserted: each list
      is there for an inserted node or an edge it holds, and the lists hold exactly the edges. */
  ghost predicate Mirrors(a: Adjacency, nodes: set<NodeId>, edges: map<EdgeId, Link>) {
    && a.outgoing.Keys == nodes + Owners(edges, Outgoing) && a.incoming.Keys == nodes + Owners(edges, Incoming)
    && a.endpoints.Keys == edges.Keys
    && (forall e :: e in edges ==> a.endpoints[e] == (edges[e].source, edges[e].target))
    && ExactLists(a.outgoing, edges, Outgoing)
    && ExactLists(a.incoming, edges, Incoming)
  }

  lemma MirrorsRepresents(a: Adjacency, nodes: set<NodeId>, edges: map<EdgeId, Link>)
    ensures Represents(a, nodes, edges) <==> Mirrors(a, nodes, edges) && EndsIn(edges, nodes)
  {
    hide ExactLists;
    if EndsIn(edges, nodes) {
      assert Owners(edges, Outgoing) <= nodes && Owners(edges, Incoming) <= nodes;
    }
  }

  lemma WithEdgeKeys(a: Adjacency, id: EdgeId, link: Link)
    ensures var a' := WithEdge(a, id, link);
            && a'.outgoing.Keys == a.outgoing.Keys + {link.source}
            && a'.incoming.Keys == a.incoming.Keys + {link.target}
            && a'.endpoints == a.endpoints[id := (link.source, link.target)]
  {
  }

  lemma WithEdgeExact(a: Adjacency, nodes: set<NodeId>, edges: map<EdgeId, Link>, id: EdgeId, link: Link)
    requires Mirrors(a, nodes, edges) && id !in edges
    ensures ExactLists(WithEdge(a, id, link).outgoing, edges[id := link], Outgoing)
    ensures ExactLists(WithEdge(a, id, link).incoming, edges[id := link], Incoming)
  {
    hide ExactLists, NeighborsIn;
    assert forall f :: f in edges ==>
      Owner(edges[f], Outgoing) in a.outgoing && Owner(edges[f], Incoming) in a.incoming;
    ExactAdd(a.outgoing, edges, id, link, Outgoing);
    ExactAdd(a.incoming, edges, id, link, Incoming);
  }

  /** Adding an edge, whatever its ends, keeps the lists a mirror exactly when its id is new. */
  lemma WithEdgeMirrors(a: Adjacency, nodes: set<NodeId>, edges: map<EdgeId, Link>, id: EdgeId, link: Link)
    requires Mirrors(a, nodes, edges)
    ensures Mirrors(WithEdge(a, id, link), nodes, edges[id := link]) <==> id !in edges
  {
    hide ExactLists, WithEdge, Owners;
    if id in edges {
      OldEntryStays(a, nodes, edges, id, link, edges[id := link]);
    } else {
      WithEdgeKeys(a, id, link);
      WithEdgeExact(a, nodes, edges, id, link);
      OwnersAdd(edges, id, link, Outgoing);
      OwnersAdd(edges, id, link, Incoming);
    }
  }

  lemma OwnersAdd(edges: map<EdgeId, Link>, id: EdgeId, link: Link, side: Side)
    requires id !in edges
    ensures Owners(edges[id := link], side) == Owners(edges, side) + {Owner(link, side)}
  {
    var edges' := edges[id := link];
    assert edges'[id] == link;
    forall e | e in edges ensures Owner(edges[e], side) in Owners(edges', side) {
      assert edges'[e] == edges[e];
    }
  }

  /** The ends of a new edge are in both maps afterwards. */
  predicate EndsKnown(link: Link, nodes: set<NodeId>) {
    link.source == link.target || (link.source in nodes && link.target in nodes)
  }

  /** Adding an edge keeps the maps a mirror of the graph, its ends among the nodes, exactly when its
      id is new and it is a loop or both ends were nodes before. */
  lemma WithEdgeRepresents(a: Adjacency, nodes: set<NodeId>, edges: map<EdgeId, Link>, id: EdgeId, link: Link)
    requires Represents(a, nodes, edges)
    ensures Represents(WithEdge(a, id, link), nodes + {link.source, link.target}, edges[id := link])
       <==> id !in edges && EndsKnown(link, nodes)
  {
    hide ExactLists, WithEdge;
    var a', edges' := WithEdge(a, id, link), edges[id := link];
    MirrorsRepresents(a, nodes, edges);
    WithEdgeKeys(a, id, link);
    if id in edges {
      OldEntryStays(a, nodes, edges, id, link, edges');
    } else {
      WithEdgeExact(a, nodes, edges, id, link);
      assert a.outgoing.Keys == nodes && a.incoming.Keys == nodes;
      assert EndsKnown(link, nodes) <==> nodes + {link.source} == nodes + {link.target};
    }
  }

  /** Otherwise they represent no graph at all. */
  lemma BrokenForGood(a: Adjacency, nodes: set<NodeId>, edges: map<EdgeId, Link>, id: EdgeId, link: Link,
                      nodes': set<NodeId>, edges': map<EdgeId, Link>)
    requires Represents(a, nodes, edges) && Represents(WithEdge(a, id, link), nodes', edges')
    ensures id !in edges && EndsKnown(link, nodes)
  {
    hide ExactLists;
    if id in edges {
      MirrorsRepresents(a, nodes, edges);
      OldEntryStays(a, nodes, edges, id, link, edges');
    }
    assert a.outgoing.Keys + {link.source} == a.incoming.Keys + {link.target};
  }

  lemma OldEntryStays(a: Adjacency, nodes: set<NodeId>, edges: map<EdgeId, Link>, id: EdgeId, link: Link,
                      edges': map<EdgeId, Link>)
    requires Mirrors(a, nodes, edges) && id in edges
    requires id in edges' && edges'[id].source == link.source
    ensures !ExactLists(WithEdge(a, id, link).outgoing, edges', Outgoing)
  {
    var s := edges[id].source;
    assert Owner(edges[id], Outgoing) in a.outgoing;
    StaleEntry(a.outgoing[s], edges, s, id, link, edges');
    assert !Exact(WithEdge(a, id, link).outgoing[s], edges', s, Outgoing);
  }

  lemma StaleEntry(l: seq<Neighbor>, edges: map<EdgeId, Link>, s: NodeId, id: EdgeId, link: Link,
                   edges': map<EdgeId, Link>)
    requires Exact(l, edges, s, Outgoing) && id in edges && edges[id].source == s
    requires id in edges' && edges'[id].source == link.source
    ensures !Exact(if link.source == s then l + [EntryOf(id, link, Outgoing)] else l, edges', s, Outgoing)
  {
    assert EntryOf(id, edges[id], Outgoing) in l;
    var i :| 0 <= i < |l| && l[i].edgeId == id;
    if link.source == s {
      var l' := l + [EntryOf(id, link, Outgoing)];
      assert l'[i].edgeId == l'[|l|].edgeId;
    } else {
      assert l[i] in l;
    }
  }

  lemma WithoutEdgeRepresents(a: Adjacency, nodes: set<NodeId>, edges: map<EdgeId, Link>, id: EdgeId)
    requires Represents(a, nodes, edges)
    ensures Represents(WithoutEdge(a, id), nodes, edges - {id})
  {
    hide ExactLists, Retain;
    if id in edges {
      ExactRemove(a.outgoing, edges, id, Outgoing);
      ExactRemove(a.incoming, edges, id, Incoming);
    } else {
      assert edges - {id} == edges;
    }
  }

  lemma WithoutNodeRepresents(a: Adjacency, nodes: set<NodeId>, edges: map<EdgeId, Link>, id: NodeId)
    requires Represents(a, nodes, edges)
    requires forall e :: e in edges ==> edges[e].source != id && edges[e].target != id
    ensures Represents(a.(outgoing := a.outgoing - {id}, incoming := a.incoming - {id}), nodes - {id}, edges)
  {
  }

  lemma RepresentsKeys(a: Adjacency, nodes: set<NodeId>, edges: map<EdgeId, Link>)
    requires Represents(a, nodes, edges)
    ensures a.outgoing.Keys == nodes && a.incoming.Keys == nodes && a.endpoints.Keys == edges.Keys
    ensures forall e :: e in edges ==> a.endpoints[e] == (edges[e].source, edges[e].target)
  {
  }

  /** An edge that touches the node. */
  predicate Touches(link: Link, id: NodeId) {
    link.source == id || link.target == id
  }

  function WithoutTouching(edges: map<EdgeId, Link>, id: NodeId): map<EdgeId, Link> {
    edges - (set e | e in edges && Touches(edges[e], id))
  }

  /** The members of a set in some order. */
  method Enumerate(members: set<U64>) returns (ids: seq<U64>)
    ensures ListsOnce(ids, members)
  {
    ids := [];
    var left := members;
    while left != {}
      invariant left <= members && ListsOnce(ids, members - left)
      decreases |left|
    {
      var id: U64 :| id in left;
      NoDupConcat(ids, [id]);
      ids := ids + [id];
      left := left - {id};
    }
    assert members - {} == members;
  }

  class AdjacencyListEngine {
    var outgoing: Lists
    var incoming: Lists
    var edgeEndpoints: map<EdgeId, (NodeId, NodeId)>

    /** The graph the three maps represent. */
    ghost var nodes: set<NodeId>
    ghost var edges: map<EdgeId, Link>

    ghost function Maps(): Adjacency
      reads this
    {
      Adjacency(outgoing, incoming, edgeEndpoints)
    }

    ghost predicate Valid()
      reads this
    {
      Represents(Maps(), nodes, edges)
    }

    constructor ()
      ensures Valid() && nodes == {} && edges == map[]
    {
      outgoing, incoming, edgeEndpoints := map[], map[], map[];
      nodes, edges := {}, map[];
    }

    method InsertNode(id: NodeId)
      requires Valid()
      modifies this
      ensures Valid() && nodes == old(nodes) + {id} && edges == old(edges)
      ensures forall n :: NeighborsIn(outgoing, n) == old(NeighborsIn(outgoing, n))
      ensures forall n :: NeighborsIn(incoming, n) == old(NeighborsIn(incoming, n))
    {
      hide Represents;
      WithNodeRepresents(Maps(), nodes, edges, id);
      if id !in outgoing { outgoing := outgoing[id := []]; }
      if id !in incoming { incoming := incoming[id := []]; }
      nodes := nodes + {id};
      assert Maps() == WithNode(old(Maps()), id);
    }

    /** The source gets a list on one side only, the target on the other; the entry goes last. */
    method InsertEdge(id: EdgeId, source: NodeId, target: NodeId, weight: F64)
      modifies this
      ensures outgoing == old(outgoing)[source := old(NeighborsIn(outgoing, source)) + [Neighbor(target, id, weight)]]
      ensures incoming == old(incoming)[target := old(NeighborsIn(incoming, target)) + [Neighbor(source, id, weight)]]
      ensures edgeEndpoints == old(edgeEndpoints)[id := (source, target)]
      ensures Maps() == WithEdge(old(Maps()), id, Link(source, target, weight))
      ensures nodes == old(nodes) + {source, target} && edges == old(edges)[id := Link(source, target, weight)]
      ensures old(Valid()) ==>
        (Valid() <==> id !in old(edges) && (source == target || (source in old(nodes) && target in old(nodes))))
    {
      hide Represents, NeighborsIn;
      ghost var link := Link(source, target, weight);
      if Valid() {
        WithEdgeRepresents(Maps(), nodes, edges, id, link);
      }
      edgeEndpoints := edgeEndpoints[id := (source, target)];
      outgoing := outgoing[source := NeighborsIn(outgoing, source) + [Neighbor(target, id, weight)]];
      incoming := incoming[target := NeighborsIn(incoming, target) + [Neighbor(source, id, weight)]];
      nodes := nodes + {source, target};
      edges := edges[id := link];
    }

    method RemoveEdge(id: EdgeId)
      requires Valid()
      modifies this
      ensures Valid() && nodes == old(nodes) && edges == old(edges) - {id}
      ensures KeepsOrder(outgoing, old(outgoing)) && KeepsOrder(incoming, old(incoming))
    {
      hide Represents, Retain, Before;
      WithoutEdgeRepresents(Maps(), nodes, edges, id);
      edges := edges - {id};
      if id !in edgeEndpoints {
        return;
      }
      var (source, target) := edgeEndpoints[id];
      edgeEndpoints := edgeEndpoints - {id};
      RetainKeepsOrder(outgoing, source, id);
      RetainKeepsOrder(incoming, target, id);
      if source in outgoing {
        outgoing := outgoing[source := Retain(outgoing[source], id)];
      }
      if target in incoming {
        incoming := incoming[target := Retain(incoming[target], id)];
      }
      assert Maps() == WithoutEdge(old(Maps()), id);
    }

    /** Removes precisely the node and the edges that touch it. */
    method RemoveNode(id: NodeId)
      requires Valid()
      modifies this
      ensures Valid() && nodes == old(nodes) - {id}
      ensures edges == WithoutTouching(old(edges), id)
      ensures KeepsOrder(outgoing, old(outgoing)) && KeepsOrder(incoming, old(incoming))
    {
      hide Represents, KeepsOrder;
      RepresentsKeys(Maps(), nodes, edges);
      SameOrder(outgoing);
      SameOrder(incoming);
      var left := set e | e in edgeEndpoints && (edgeEndpoints[e].0 == id || edgeEndpoints[e].1 == id);
      ghost var incident, before := left, edges;
      assert incident == set e | e in before && Touches(before[e], id);
      while left != {}
        invariant Valid() && nodes == old(nodes) && left <= incident
        invariant edges == before - (incident - left)
        invariant KeepsOrder(outgoing, old(outgoing)) && KeepsOrder(incoming, old(incoming))
        decreases |left|
      {
        var e: EdgeId :| e in left;
        ghost var maps := Maps();
        RemoveEdge(e);
        OrderKeptOn(outgoing, maps.outgoing, old(outgoing));
        OrderKeptOn(incoming, maps.incoming, old(incoming));
        left := left - {e};
        assert before - (incident - left) == before - (incident - (left + {e})) - {e};
      }
      assert incident - left == incident;
      WithoutNodeRepresents(Maps(), nodes, edges, id);
      DropKeepsOrder(outgoing, id);
      DropKeepsOrder(incoming, id);
      OrderKeptOn(outgoing - {id}, outgoing, old(outgoing));
      OrderKeptOn(incoming - {id}, incoming, old(incoming));
      ghost var maps := Maps().(outgoing := outgoing - {id}, incoming := incoming - {id});
      outgoing := outgoing - {id};
      incoming := incoming - {id};
      nodes := nodes - {id};
      assert Maps() == maps;
    }

    /** Exactly the edges that leave `source`, each once. */
    method NeighborsOutgoing(source: NodeId) returns (l: seq<Neighbor>)
      requires Valid()
      ensures Exact(l, edges, source, Outgoing) && l == NeighborsIn(outgoing, source)
    {
      l := NeighborsIn(outgoing, source);
    }

    /** Exactly the edges that enter `target`, each once. */
    method NeighborsIncoming(target: NodeId) returns (l: seq<Neighbor>)
      requires Valid()
      ensures Exact(l, edges, target, Incoming)
    {
      l := NeighborsIn(incoming, target);
    }

    method AllNodeIds() returns (ids: seq<NodeId>)
      requires Valid()
      ensures ListsOnce(ids, nodes)
    {
      ids := Enumerate(outgoing.Keys);
    }

    method AllEdgeIds() returns (ids: seq<EdgeId>)
      requires Valid()
      ensures ListsOnce(ids, edges.Keys)
    {
      ids := Enumerate(edgeEndpoints.Keys);
    }

    method NodeCount() returns (n: nat)
      requires Valid()
      ensures n == |nodes|
    {
      n := |outgoing|;
      assert |outgoing| == |outgoing.Keys|;
    }

    method EdgeCount() returns (n: nat)
      requires Valid()
      ensures n == |edges|
    {
      n := |edgeEndpoints|;
      assert |edgeEndpoints| == |edgeEndpoints.Keys| && |edges| == |edges.Keys|;
    }

    predicate ContainsNode(id: NodeId)
      requires Valid()
      reads this
      ensures ContainsNode(id) <==> id in nodes
    {
      id in outgoing
    }
  }
}
