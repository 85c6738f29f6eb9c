/** What the database operations of src/database/layered.rs do to the live graph and to the log. */
module GraphOps {
  import opened Core
  import opened WalLog
  import opened Engine
  import Transaction

  /** The engine's view of the edges of the graph. */
  ghost predicate AreLinks(links: map<EdgeId, Link>, g: Graph) {
    && links.Keys == g.edges.Keys
    && forall e :: e in g.edges ==> links[e] == Link(g.edges[e].source, g.edges[e].target, g.edges[e].weight)
  }

  predicate EdgeTouches(e: Edge, id: NodeId) {
    e.source == id || e.target == id
  }

  function EdgesAt(g: Graph, id: NodeId): set<EdgeId> {
    set e | e in g.edges && EdgeTouches(g.edges[e], id)
  }

  /** Deleting a node takes its edges with it. */
  function WithoutNode(g: Graph, id: NodeId): Graph {
    Graph(g.nodes - {id}, g.edges - EdgesAt(g, id))
  }

  // ---- Transactions ----

  /** One staged operation on the live graph; an edge needs both endpoints. */
  function ApplyOp(g: Graph, op: Transaction.StagedOp): Result<Graph, NodeId> {
    match op
    case InsertNode(n) => Ok(g.(nodes := g.nodes[n.id := n]))
    case InsertEdge(e) =>
      if e.source !in g.nodes then Err(e.source)
      else if e.target !in g.nodes then Err(e.target)
      else Ok(g.(edges := g.edges[e.id := e]))
    case DeleteNode(id) => Ok(WithoutNode(g, id))
    case DeleteEdge(id) => Ok(g.(edges := g.edges - {id}))
  }

  /** The operations in order; the first edge without an endpoint stops them. */
  function RunOps(g: Graph, ops: seq<Transaction.StagedOp>): (Graph, Option<NodeId>) {
    if ops == [] then (g, None)
    else
      var (g', failed) := RunOps(g, ops[..|ops| - 1]);
      if failed.Some? then (g', failed)
      else match ApplyOp(g', ops[|ops| - 1])
        case Ok(g'') => (g'', None)
        case Err(n) => (g', Some(n))
  }

  /** A failed prefix decides the outcome. */
  lemma {:induction false} RunOpsStops(g: Graph, ops: seq<Transaction.StagedOp>, k: nat)
    requires k <= |ops| && RunOps(g, ops[..k]).1.Some?
    ensures RunOps(g, ops) == RunOps(g, ops[..k])
    decreases |ops|
  {
    if k < |ops| {
      assert ops[..|ops| - 1][..k] == ops[..k];
      RunOpsStops(g, ops[..|ops| - 1], k);
    } else {
      assert ops[..k] == ops;
    }
  }

  lemma {:induction false} RunOpsConcat(g: Graph, a: seq<Transaction.StagedOp>, b: seq<Transaction.StagedOp>)
    requires RunOps(g, a).1.None?
    ensures RunOps(g, a + b) == RunOps(RunOps(g, a).0, b)
    decreases |b|
  {
    hide ApplyOp;
    if b == [] {
      assert a + b == a;
    } else {
      assert (a + b)[..|a + b| - 1] == a + b[..|b| - 1];
      RunOpsConcat(g, a, b[..|b| - 1]);
    }
  }

  lemma RunOpsNext(g: Graph, ops: seq<Transaction.StagedOp>, k: nat)
    requires k < |ops| && RunOps(g, ops[..k]).1.None?
    ensures RunOps(g, ops[..k + 1])
         == match ApplyOp(RunOps(g, ops[..k]).0, ops[k])
            case Ok(g') => (g', None)
            case Err(n) => (RunOps(g, ops[..k]).0, Some(n))
  {
    assert ops[..k + 1][..k] == ops[..k];
  }

  /** The operations go through up to an edge without an endpoint; the source is looked at first. */
  ghost predicate StopsAt(g: Graph, ops: seq<Transaction.StagedOp>, k: nat, missing: NodeId) {
    && k < |ops| && RunOps(g, ops[..k]).1.None? && ops[k].InsertEdge?
    && var live := RunOps(g, ops[..k]).0.nodes;
       if ops[k].edge.source !in live then missing == ops[k].edge.source
       else missing == ops[k].edge.target && missing !in live
  }

  lemma {:induction false} RunOpsFails(g: Graph, ops: seq<Transaction.StagedOp>, missing: NodeId)
    ensures RunOps(g, ops).1 == Some(missing) <==> exists k: nat :: StopsAt(g, ops, k, missing)
    decreases |ops|
  {
    if ops != [] {
      var n := |ops| - 1;
      RunOpsFails(g, ops[..n], missing);
      if k: nat :| StopsAt(g, ops[..n], k, missing) {
        assert ops[..n][..k] == ops[..k];
        assert StopsAt(g, ops, k, missing);
      }
      if k: nat :| StopsAt(g, ops, k, missing) {
        if k < n {
          assert ops[..n][..k] == ops[..k];
          assert StopsAt(g, ops[..n], k, missing);
        }
      } else if RunOps(g, ops).1 == Some(missing) {
        assert StopsAt(g, ops, n, missing);
      }
    }
  }

  // ---- The records an operation writes ----

  lemma {:induction false} SequentialConcat(g: Graph, a: seq<Record>, b: seq<Record>)
    requires AllData(a) && AllData(b)
    ensures AllData(a + b) && Sequential(g, a + b) == Sequential(Sequential(g, a), b)
    decreases |b|
  {
    if b == [] {
      assert a + b == a;
    } else {
      var b' := b[..|b| - 1];
      assert (a + b)[..|a + b| - 1] == a + b';
      SequentialConcat(g, a, b');
    }
  }

  ghost predicate EdgeDeletes(rs: seq<Record>) {
    forall i :: 0 <= i < |rs| ==> rs[i].DeleteEdge?
  }

  function DeletedEdges(rs: seq<Record>): set<EdgeId> {
    set i | 0 <= i < |rs| && rs[i].DeleteEdge? :: rs[i].edgeId
  }

  lemma {:induction false} SequentialEdgeDeletes(g: Graph, rs: seq<Record>)
    requires EdgeDeletes(rs)
    ensures AllData(rs) && Sequential(g, rs) == g.(edges := g.edges - DeletedEdges(rs))
    decreases |rs|
  {
    if rs == [] {
      assert g.edges - DeletedEdges([]) == g.edges;
    } else {
      var n := |rs| - 1;
      SequentialEdgeDeletes(g, rs[..n]);
      assert DeletedEdges(rs) == DeletedEdges(rs[..n]) + {rs[n].edgeId};
    }
  }

  /** Tombstones for all edges of the node, then one for the node. */
  ghost predicate IsCascade(g: Graph, tombstones: seq<Record>, id: NodeId) {
    && EdgeDeletes(tombstones)
    && (forall i :: 0 <= i < |tombstones| ==>
          tombstones[i].edgeId in g.edges && EdgeTouches(g.edges[tombstones[i].edgeId], id))
    && (forall e :: e in g.edges && EdgeTouches(g.edges[e], id) ==> e in DeletedEdges(tombstones))
  }

  lemma CascadeDeletes(g: Graph, tombstones: seq<Record>, id: NodeId)
    requires IsCascade(g, tombstones, id)
    ensures DeletedEdges(tombstones) == EdgesAt(g, id)
  {
  }

  lemma CascadeEffect(g: Graph, tombstones: seq<Record>, id: NodeId)
    requires IsCascade(g, tombstones, id)
    ensures AllData(tombstones + [DeleteNode(id)])
    ensures Sequential(g, tombstones + [DeleteNode(id)]) == WithoutNode(g, id)
  {
    SequentialEdgeDeletes(g, tombstones);
    SequentialConcat(g, tombstones, [DeleteNode(id)]);
    assert [DeleteNode(id)][..0] == [];
    CascadeDeletes(g, tombstones, id);
  }

  // ---- No dangling edge at any record boundary ----

  ghost predicate NeverDangles(log: seq<Record>) {
    forall k :: 0 <= k <= |log| ==> NoDangling(Loaded(log[..k]))
  }

  /** The log replays to this graph, takes appends at face value, and never dangles. */
  ghost predicate Faithful(log: seq<Record>, g: Graph) {
    Closed(log) && Loaded(log) == g && NeverDangles(log)
  }

  lemma NeverDanglesAppend(log: seq<Record>, r: Record)
    requires NeverDangles(log) && NoDangling(Loaded(log + [r]))
    ensures NeverDangles(log + [r])
  {
    forall k | 0 <= k <= |log| + 1 ensures NoDangling(Loaded((log + [r])[..k])) {
      if k <= |log| {
        assert (log + [r])[..k] == log[..k];
      } else {
        assert (log + [r])[..k] == log + [r];
      }
    }
  }

  /** Records appended outside a bracket take effect one by one. */
  lemma AppendClosed(log: seq<Record>, rs: seq<Record>)
    requires Closed(log) && AllData(rs)
    ensures Replay(log + rs) == LogState(Sequential(Loaded(log), rs), None)
  {
    RunConcat(INITIAL, log, rs);
    RunData(Replay(log), rs);
  }

  lemma {:induction false} NeverDanglesCascade(log: seq<Record>, tombstones: seq<Record>)
    requires NeverDangles(log) && Closed(log) && EdgeDeletes(tombstones)
    ensures NeverDangles(log + tombstones)
    decreases |tombstones|
  {
    if tombstones == [] {
      assert log + [] == log;
    } else {
      var n := |tombstones| - 1;
      var init, last := tombstones[..n], tombstones[n];
      assert log + tombstones == (log + init) + [last] && tombstones == init + [last];
      NeverDanglesCascade(log, init);
      SequentialEdgeDeletes(Loaded(log), tombstones);
      AppendClosed(log, tombstones);
      assert NoDangling(Loaded(log)) by { assert log[..|log|] == log; }
      NeverDanglesAppend(log + init, last);
    }
  }

  /** Inside a bracket the log keeps loading the graph it held before. */
  lemma {:induction false} NeverDanglesBracket(log: seq<Record>, t: U64, rs: seq<Record>)
    requires NeverDangles(log) && AllData(rs)
    ensures NeverDangles(log + [BeginTxn(t)] + rs)
    ensures Replay(log + [BeginTxn(t)] + rs) == LogState(Loaded(log), Some(Buffered(EmptyBuffer(t), rs)))
    decreases |rs|
  {
    assert NoDangling(Loaded(log)) by { assert log[..|log|] == log; }
    ReplayAppend(log, BeginTxn(t));
    if rs == [] {
      assert log + [BeginTxn(t)] + [] == log + [BeginTxn(t)];
      NeverDanglesAppend(log, BeginTxn(t));
    } else {
      var n := |rs| - 1;
      NeverDanglesBracket(log, t, rs[..n]);
      var before := log + [BeginTxn(t)] + rs[..n];
      assert log + [BeginTxn(t)] + rs == before + [rs[n]] && rs == rs[..n] + [rs[n]];
      ReplayAppend(before, rs[n]);
      NeverDanglesAppend(before, rs[n]);
    }
  }

  /** Node upserts come first, so a compacted log cut anywhere has no dangling edge. */
  lemma NeverDanglesCompact(compact: seq<Record>, log: seq<Record>)
    requires IsCompaction(compact, log) && NoDangling(Loaded(log))
    ensures NeverDangles(compact)
  {
    hide Run, Enumerates, NoDangling;
    var g := Loaded(log);
    RunKeyed(INITIAL, log);
    var ns, es :|
      && Enumerates(ns, g.nodes) && Enumerates(es, g.edges)
      && compact == NodeRecords(ns) + EdgeRecords(es);
    forall k | 0 <= k <= |compact| ensures NoDangling(Loaded(compact[..k])) {
      var i := if k <= |ns| then k else |ns|;
      assert compact[..k] == NodeRecords(ns[..i]) + EdgeRecords(es[..k - i]);
      UpsertsNeverDangle(g, ns, es, i, k - i);
    }
  }

  lemma UpsertsNeverDangle(g: Graph, ns: seq<(NodeId, Node)>, es: seq<(EdgeId, Edge)>, i: nat, j: nat)
    requires Keyed(g) && NoDangling(g) && Enumerates(ns, g.nodes) && Enumerates(es, g.edges)
    requires i <= |ns| && j <= |es| && (j > 0 ==> i == |ns|)
    ensures NoDangling(Loaded(NodeRecords(ns[..i]) + EdgeRecords(es[..j])))
  {
    hide Run, PutAll, Enumerates, NodeRecords, EdgeRecords;
    KeyedPrefix(ns, g.nodes, i);
    KeyedPrefix(es, g.edges, j);
    LoadedUpserts(ns[..i], es[..j]);
    PutAllContent(map[], es[..j]);
    if j > 0 {
      assert ns[..i] == ns;
      PutAllRebuilds(ns, g.nodes);
    } else {
      assert es[..j] == [];
    }
  }

  lemma KeyedPrefix<V>(ps: seq<(U64, V)>, m: map<U64, V>, i: nat)
    requires Enumerates(ps, m) && i <= |ps|
    ensures forall p :: p in ps[..i] ==> p.0 in m && m[p.0] == p.1
  {
    assert forall p :: p in ps[..i] ==> p in ps;
  }

  lemma LoadedUpserts(ns: seq<(NodeId, Node)>, es: seq<(EdgeId, Edge)>)
    requires (forall p :: p in ns ==> p.1.id == p.0) && (forall p :: p in es ==> p.1.id == p.0)
    ensures Replay(NodeRecords(ns) + EdgeRecords(es)) == LogState(Graph(PutAll(map[], ns), PutAll(map[], es)), None)
  {
    AppendClosed([], NodeRecords(ns));
    assert [] + NodeRecords(ns) == NodeRecords(ns);
    SequentialNodes(EMPTY_GRAPH, ns);
    AppendClosed(NodeRecords(ns), EdgeRecords(es));
    SequentialEdges(Graph(PutAll(map[], ns), map[]), es);
  }
}
