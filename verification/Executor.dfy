/** Running a plan against the database, src/query/executor.rs. */
module Executor {
  import opened Core
  import opened QueryAst
  import opened Conditions
  import opened GraphOps
  import opened Engine
  import opened Walks
  import opened Database
  import opened Planner
  import Memory
  import LabelIndex
  import PropertyIndex
  import Bfs
  import Dfs
  import Dijkstra

  datatype QueryResult =
    | Nodes(nodes: seq<Node>)
    | Edges(edges: seq<Edge>)
    | Traversal(ids: seq<NodeId>)
    | Path(path: seq<NodeId>, totalWeight: F64)
    | SingleNode(node: Option<Node>)
    | SingleEdge(edge: Option<Edge>)
    | Count(n: nat)
    | Empty

  /** The neighbour lists a search follows hold exactly the live edges. */
  ghost predicate FollowsEdges(out: Lists, g: Graph) {
    forall u: NodeId, n: Neighbor :: n in NeighborsIn(out, u) <==>
      Lookup(g.edges, n.edgeId).Some? && var e := g.edges[n.edgeId];
      e.source == u && e.target == n.nodeId && e.weight == n.weight
  }

  ghost function EdgeMatches(fm: FloatModel, g: Graph, filter: EdgeFilter): set<EdgeId> {
    set id | id in g.edges && filter.Matches(fm, g.edges[id])
  }

  /** `r` answers the command on the graph; searches follow `out`. */
  ghost predicate IsAnswer(r: QueryResult, command: QueryCommand, fm: FloatModel, ar: Dijkstra.Arithmetic,
                           g: Graph, out: Lists) {
    match command
    case MatchNodes(filter) => r.Nodes? && AreNodes(r.nodes, g, Matches(fm, g.nodes, filter))
    case MatchEdges(filter) => r.Edges? && AreEdges(r.edges, g, EdgeMatches(fm, g, filter))
    case GetNode(id) => r == SingleNode(Lookup(g.nodes, id))
    case GetEdge(id) => r == SingleEdge(Lookup(g.edges, id))
    case Traverse(Bfs, start) =>
      && r.Traversal?
      && if start in g.nodes then exists hops :: Bfs.IsBreadthFirst(out, start, r.ids, hops) else r.ids == []
    case Traverse(Dfs, start) => r == Traversal(if start in g.nodes then Dfs.DepthFirst(out, start) else [])
    case ShortestPath(from, goal) =>
      if from in g.nodes && goal in g.nodes && !Dijkstra.OutOfReach(ar, out, from, goal) then
        r.Path? && Dijkstra.IsShortest(ar, out, from, goal, r.path, r.totalWeight)
      else r == Empty
    case CountNodes => r == Count(|g.nodes|)
    case CountEdges => r == Count(|g.edges|)
  }

  /** The search for shortest paths needs weights its arithmetic is sound for. */
  ghost predicate Searchable(command: QueryCommand, ar: Dijkstra.Arithmetic, g: Graph) {
    command.ShortestPath? ==> ar.Laws() && forall e :: e in g.edges ==> ar.IsWeight(g.edges[e].weight)
  }

  /** A node match asks nothing on which index and scan part. */
  ghost predicate Agreeable(command: QueryCommand, fm: FloatModel, g: Graph, stats: Stats) {
    command.MatchNodes? ==> PlanAgrees(fm, g.nodes, PlanMatchNodes(fm, command.nodeFilter, stats))
  }

  /** The nodes a plan finds, each once. */
  method ScanNodes(db: Database, plan: Plan) returns (ns: seq<Node>)
    requires db.Valid() && db.Durable() && db.propertyIndex.fm.OrderLaws()
    requires plan.PropertyIndexScan? || plan.LabelIndexScan? || plan.FullNodeScan?
    modifies db.cache
    ensures db.Valid() && AreNodes(ns, db.graph, Finds(db.propertyIndex.fm, db.graph.nodes, plan))
  {
    hide Database.Valid, Database.Durable, Database.Layers, AreNodes, PropertyIndex.Matching, FloatModel.OrderLaws;
    var fm := db.propertyIndex.fm;
    var candidates;
    ghost var ids;
    var filter;
    match plan {
      case PropertyIndexScan(field, op, value, remaining) =>
        candidates := db.NodesByProperty(field, op, value);
        ids, filter := PropertyIndex.Matching(fm, db.graph.nodes, field, op, value), remaining;
      case LabelIndexScan(_, remaining) =>
        candidates := db.NodesByLabel(ScanLabel(remaining));
        ids, filter := LabelIndex.WithLabel(db.graph.nodes, ScanLabel(remaining)), remaining;
      case FullNodeScan(nodeFilter) =>
        candidates := db.AllNodes();
        ids, filter := db.graph.nodes.Keys, nodeFilter;
    }
    var keep := (n: Node) => filter.Matches(fm, n);
    ns := Filter(keep, candidates);
    FilterNodes(candidates, db.graph, ids, keep);
    assert KeptNodes(db.graph, ids, keep) == Finds(fm, db.graph.nodes, plan);
  }

  method ScanEdges(db: Database, filter: EdgeFilter) returns (es: seq<Edge>)
    requires db.Valid() && db.Durable()
    modifies db.cache
    ensures db.Valid() && AreEdges(es, db.graph, EdgeMatches(db.propertyIndex.fm, db.graph, filter))
  {
    hide Database.Valid, Database.Durable, Database.Layers, AreEdges;
    var fm := db.propertyIndex.fm;
    var all := db.AllEdges();
    var keep := (e: Edge) => filter.Matches(fm, e);
    es := Filter(keep, all);
    FilterEdges(all, db.graph, db.graph.edges.Keys, keep);
    assert KeptEdges(db.graph, db.graph.edges.Keys, keep) == EdgeMatches(fm, db.graph, filter);
  }

  lemma SearchFacts(db: Database)
    requires db.Valid()
    ensures db.engine.Valid() && db.engine.nodes == db.graph.nodes.Keys
    ensures db.engine.edges.Keys == db.graph.edges.Keys
    ensures FollowsEdges(db.engine.outgoing, db.graph)
    ensures |db.engine.nodes| == |db.graph.nodes| && |db.engine.edges| == |db.graph.edges|
  {
    GraphOf(db.Layers(), db.propertyIndex.fm, db.graph);
    hide Database.Valid, Memory.Coherent;
    ListsFollow(db.engine.Maps(), db.engine.nodes, db.engine.edges, db.graph);
    assert |db.engine.edges| == |db.engine.edges.Keys| && |db.graph.edges| == |db.graph.edges.Keys|;
    assert |db.graph.nodes| == |db.graph.nodes.Keys|;
  }

  lemma WeightsFollow(out: Lists, g: Graph, ar: Dijkstra.Arithmetic)
    requires FollowsEdges(out, g) && forall e :: e in g.edges ==> ar.IsWeight(g.edges[e].weight)
    ensures ar.WeightsOk(out)
  {
  }

  lemma ListsFollow(a: Adjacency, nodes: set<NodeId>, links: map<EdgeId, Link>, g: Graph)
    requires Represents(a, nodes, links) && AreLinks(links, g)
    ensures FollowsEdges(a.outgoing, g)
  {
    hide NeighborsIn;
    forall u: NodeId, n: Neighbor
      ensures n in NeighborsIn(a.outgoing, u) <==> n.edgeId in links && links[n.edgeId] == Link(u, n.nodeId, n.weight)
    {
      ListFollows(a, nodes, links, u, n);
    }
    hide Represents;
  }

  lemma ListFollows(a: Adjacency, nodes: set<NodeId>, links: map<EdgeId, Link>, u: NodeId, n: Neighbor)
    requires Represents(a, nodes, links)
    ensures n in NeighborsIn(a.outgoing, u) <==> n.edgeId in links && links[n.edgeId] == Link(u, n.nodeId, n.weight)
  {
    if u in a.outgoing {
      assert Exact(a.outgoing[u], links, u, Outgoing);
    }
  }

  method Walk(db: Database, kind: TraversalKind, start: NodeId) returns (ids: seq<NodeId>)
    requires db.Valid()
    ensures kind.Bfs? && start in db.graph.nodes ==>
              exists hops :: Bfs.IsBreadthFirst(db.engine.outgoing, start, ids, hops)
    ensures kind.Dfs? && start in db.graph.nodes ==> ids == Dfs.DepthFirst(db.engine.outgoing, start)
    ensures start !in db.graph.nodes ==> ids == []
  {
    hide Represents, Bfs.IsBreadthFirst, Dfs.DepthFirst, Memory.Coherent, FollowsEdges, Dijkstra.Arithmetic.WeightsOk;
    GraphOf(db.Layers(), db.propertyIndex.fm, db.graph);
    if kind.Bfs? {
      ghost var hops;
      ids, hops := Bfs.Traverse(db.engine, start);
    } else {
      ids := Dfs.Traverse(db.engine, start);
    }
  }

  method Route(db: Database, ar: Dijkstra.Arithmetic, from: NodeId, goal: NodeId) returns (r: QueryResult)
    requires db.Valid() && ar.Laws() && forall e :: e in db.graph.edges ==> ar.IsWeight(db.graph.edges[e].weight)
    ensures if from in db.graph.nodes && goal in db.graph.nodes
               && !Dijkstra.OutOfReach(ar, db.engine.outgoing, from, goal)
            then r.Path? && Dijkstra.IsShortest(ar, db.engine.outgoing, from, goal, r.path, r.totalWeight)
            else r == Empty
  {
    hide Represents, Dijkstra.OutOfReach, Dijkstra.IsShortest, Dijkstra.Arithmetic.Laws, Dijkstra.Arithmetic.WeightsOk,
         Database.Valid, FollowsEdges;
    SearchFacts(db);
    WeightsFollow(db.engine.outgoing, db.graph, ar);
    var found := Dijkstra.FindShortestPath(db.engine, ar, from, goal);
    r := if found.Some? then Path(found.value.0, found.value.1) else Empty;
  }

  /** One list of nodes cannot be two different sets of live nodes. */
  lemma ListedOnce(ns: seq<Node>, g: Graph, found: set<NodeId>, wanted: set<NodeId>)
    requires Keyed(g) && AreNodes(ns, g, found) && found <= g.nodes.Keys && wanted <= g.nodes.Keys
    ensures AreNodes(ns, g, wanted) <==> found == wanted
  {
    if AreNodes(ns, g, wanted) {
      forall id ensures id in found <==> id in wanted {
        if id in g.nodes {
          assert g.nodes[id] in ns <==> id in found;
          assert g.nodes[id] in ns <==> id in wanted;
        }
      }
    }
  }

  lemma GraphKeyed(db: Database)
    requires db.Valid()
    ensures Keyed(db.graph)
  {
    GraphOf(db.Layers(), db.propertyIndex.fm, db.graph);
  }

  method MatchingNodes(db: Database, filter: NodeFilter, stats: Stats) returns (ns: seq<Node>)
    requires db.Valid() && db.Durable() && db.propertyIndex.fm.Laws()
    modifies db.cache
    ensures db.Valid()
    ensures AreNodes(ns, db.graph, Matches(db.propertyIndex.fm, db.graph.nodes, filter))
       <==> PlanAgrees(db.propertyIndex.fm, db.graph.nodes, PlanMatchNodes(db.propertyIndex.fm, filter, stats))
  {
    hide Database.Valid, Database.Durable, Database.Layers, AreNodes, Keyed, PlanMatchNodes, PlanAgrees,
         FloatModel.OrderLaws, FloatModel.CompareLaws, PropertyIndex.Matching, NodeFilter.Matches;
    var fm := db.propertyIndex.fm;
    var plan := PlanMatchNodes(fm, filter, stats);
    ns := ScanNodes(db, plan);
    GraphKeyed(db);
    PlanKeepsMeaning(fm, db.graph.nodes, filter, stats);
    FindsLive(fm, db.graph.nodes, plan);
    ListedOnce(ns, db.graph, Finds(fm, db.graph.nodes, plan), Matches(fm, db.graph.nodes, filter));
  }

  lemma FindsLive(fm: FloatModel, nodes: map<NodeId, Node>, plan: Plan)
    ensures Finds(fm, nodes, plan) <= nodes.Keys
  {
  }

  lemma EdgesMeet(es: seq<Edge>, g: Graph, fm: FloatModel, filter: EdgeFilter)
    requires fm.Laws() && AreEdges(es, g, EdgeMatches(fm, g, filter))
    ensures NoDup(es) && forall e :: e in es <==> Lookup(g.edges, e.id) == Some(e) && EdgeMeets(fm, filter, e)
  {
    hide FloatModel.Laws, EdgeFilter.Matches, EdgeMeets;
    forall e: Edge ensures filter.Matches(fm, e) <==> EdgeMeets(fm, filter, e) {
      EdgesCompare(fm, filter, e);
    }
  }

  lemma NodesMeet(ns: seq<Node>, g: Graph, fm: FloatModel, filter: NodeFilter)
    requires fm.Laws()
    ensures AreNodes(ns, g, Matches(fm, g.nodes, filter)) ==>
              NoDup(ns) && forall n :: n in ns <==> Lookup(g.nodes, n.id) == Some(n) && NodeMeets(fm, filter, n)
  {
    hide FloatModel.Laws, NodeFilter.Matches, NodeMeets;
    forall n: Node ensures filter.Matches(fm, n) <==> NodeMeets(fm, filter, n) {
      NodesCompare(fm, filter, n);
    }
  }

  /** Planning with any statistics and running the plan answers the command, on the graph and along
      its live edges, exactly when a node match is one index and scan agree on. */
  method Execute(db: Database, command: QueryCommand, stats: Stats, ar: Dijkstra.Arithmetic) returns (r: QueryResult)
    requires db.Valid() && db.Durable() && db.propertyIndex.fm.Laws() && Searchable(command, ar, db.graph)
    modifies db.cache
    ensures db.Valid() && db.Durable()
    ensures FollowsEdges(db.engine.outgoing, db.graph)
    ensures IsAnswer(r, command, db.propertyIndex.fm, ar, db.graph, db.engine.outgoing)
       <==> Agreeable(command, db.propertyIndex.fm, db.graph, stats)
    ensures command.MatchEdges? ==>
      && r.Edges? && NoDup(r.edges)
      && forall e :: e in r.edges <==>
           Lookup(db.graph.edges, e.id) == Some(e) && EdgeMeets(db.propertyIndex.fm, command.edgeFilter, e)
    ensures command.MatchNodes? && Agreeable(command, db.propertyIndex.fm, db.graph, stats) ==>
      && r.Nodes? && NoDup(r.nodes)
      && forall n :: n in r.nodes <==>
           Lookup(db.graph.nodes, n.id) == Some(n) && NodeMeets(db.propertyIndex.fm, command.nodeFilter, n)
  {
    hide Database.Running, Database.Durable, Database.Layers, AreNodes, AreEdges, Finds, Matches, PlanMatchNodes,
         PlanAgrees, Represents, FollowsEdges, Dijkstra.OutOfReach, Dijkstra.IsShortest, Bfs.IsBreadthFirst,
         Dfs.DepthFirst, Dijkstra.Arithmetic.Laws, Dijkstra.Arithmetic.WeightsOk, EdgeMatches, FloatModel.Laws,
         EdgeMeets, NodeMeets;
    SearchFacts(db);
    var plan := MakePlan(db.propertyIndex.fm, command, stats);
    match plan {
      case FullEdgeScan(filter) =>
        var es := ScanEdges(db, filter);
        EdgesMeet(es, db.graph, db.propertyIndex.fm, filter);
        r := Edges(es);
      case NodeLookup(id) =>
        var n := db.GetNode(id);
        r := SingleNode(n);
      case EdgeLookup(id) =>
        var e := db.GetEdge(id);
        r := SingleEdge(e);
      case Traverse(kind, start) =>
        var ids := Walk(db, kind, start);
        r := Traversal(ids);
      case ShortestPath(from, goal) =>
        r := Route(db, ar, from, goal);
      case CountNodes =>
        var n := db.engine.NodeCount();
        r := Count(n);
      case CountEdges =>
        var n := db.engine.EdgeCount();
        r := Count(n);
      case _ =>
        var ns := MatchingNodes(db, command.nodeFilter, stats);
        NodesMeet(ns, db.graph, db.propertyIndex.fm, command.nodeFilter);
        r := Nodes(ns);
    }
  }
}
