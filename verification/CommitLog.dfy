/** The bracket a commit writes, and what its replay makes of it:
    src/database/layered.rs and src/adapters/storage/binary_file.rs together. */
module CommitLog {
  import opened Core
  import opened WalLog
  import opened GraphOps
  import Transaction

  type Ops = seq<Transaction.StagedOp>

  ghost predicate InsertsNode(ops: Ops, id: NodeId) {
    exists i :: 0 <= i < |ops| && ops[i].InsertNode? && ops[i].node.id == id
  }

  ghost predicate InsertsEdge(ops: Ops, id: EdgeId) {
    exists i :: 0 <= i < |ops| && ops[i].InsertEdge? && ops[i].edge.id == id
  }

  /** Staged ids are new to the graph, pairwise distinct and leave room for the counters. */
  ghost predicate FreshInserts(ops: Ops, g: Graph) {
    && Transaction.InsertsDistinct(ops)
    && (forall i :: 0 <= i < |ops| && ops[i].InsertNode? ==> ops[i].node.id !in g.nodes && ops[i].node.id < MAX_U64)
    && (forall i :: 0 <= i < |ops| && ops[i].InsertEdge? ==> ops[i].edge.id !in g.edges && ops[i].edge.id < MAX_U64)
  }

  /** No node is deleted after having been inserted by the same transaction. */
  ghost predicate KeepsOwnNodes(ops: Ops) {
    forall i, j :: 0 <= i < j < |ops| && ops[i].InsertNode? && ops[j].DeleteNode? ==> ops[i].node.id != ops[j].nodeId
  }

  predicate IsDelete(op: Transaction.StagedOp) {
    op.DeleteNode? || op.DeleteEdge?
  }

  /** How many writes the operations count towards the next compaction. */
  function Deletions(ops: Ops): nat {
    if ops == [] then 0
    else Deletions(ops[..|ops| - 1]) + if IsDelete(ops[|ops| - 1]) then 1 else 0
  }

  lemma {:induction false} DeletionsGrow(ops: Ops, k: nat)
    requires k <= |ops|
    ensures Deletions(ops[..k]) <= Deletions(ops)
    decreases |ops|
  {
    if k < |ops| {
      assert ops[..|ops| - 1][..k] == ops[..k];
      DeletionsGrow(ops[..|ops| - 1], k);
    } else {
      assert ops[..k] == ops;
    }
  }

  lemma NextDeletions(ops: Ops, k: nat)
    requires k < |ops|
    ensures Deletions(ops[..k + 1]) == Deletions(ops[..k]) + if IsDelete(ops[k]) then 1 else 0
    ensures Deletions(ops[..k + 1]) <= Deletions(ops)
  {
    assert ops[..k + 1][..k] == ops[..k];
    DeletionsGrow(ops, k + 1);
  }

  /** The records one operation writes on the graph `g`. */
  ghost predicate WrittenBy(rs: seq<Record>, g: Graph, op: Transaction.StagedOp) {
    match op
    case InsertNode(n) => rs == [UpsertNode(n)]
    case InsertEdge(e) => rs == [UpsertEdge(e)]
    case DeleteEdge(id) => rs == [Record.DeleteEdge(id)]
    case DeleteNode(id) =>
      rs != [] && IsCascade(g, rs[..|rs| - 1], id) && rs[|rs| - 1] == Record.DeleteNode(id)
  }

  /** The staged deletes are among the records, and no other node delete is. */
  ghost predicate DeletesTraced(rs: seq<Record>, ops: Ops) {
    && (forall id: NodeId :: Record.DeleteNode(id) in rs <==> Transaction.DeleteNode(id) in ops)
    && (forall id: EdgeId :: Transaction.DeleteEdge(id) in ops ==> Record.DeleteEdge(id) in rs)
  }

  ghost predicate UpsertsTraced(rs: seq<Record>, ops: Ops) {
    forall n: Node :: UpsertNode(n) in rs ==> InsertsNode(ops, n.id)
  }

  /** An edge deleted along with a node is gone for good. */
  ghost predicate CascadesGone(rs: seq<Record>, g0: Graph, ops: Ops, g: Graph) {
    forall id: EdgeId :: Record.DeleteEdge(id) in rs && Transaction.DeleteEdge(id) !in ops ==>
      id !in g.edges && (id in g0.edges || InsertsEdge(ops, id))
  }

  /** The bracket so far: `rs` are the records of the operations `ops` on `g0`, which led to `g`. */
  ghost predicate Tracks(rs: seq<Record>, g0: Graph, ops: Ops, g: Graph) {
    && AllData(rs) && g == Sequential(g0, rs)
    && DeletesTraced(rs, ops) && UpsertsTraced(rs, ops) && CascadesGone(rs, g0, ops, g)
    && LiveOnlyFrom(g, g0, ops)
  }

  /** Everything live was live before or inserted since. */
  ghost predicate LiveOnlyFrom(g: Graph, g0: Graph, ops: Ops) {
    && (forall id :: id in g.nodes ==> id in g0.nodes || InsertsNode(ops, id))
    && (forall id :: id in g.edges ==> id in g0.edges || InsertsEdge(ops, id))
  }

  lemma NothingDone(g: Graph)
    ensures Tracks([], g, [], g) && LiveOnlyFrom(g, g, [])
    ensures RunOps(g, []) == (g, None) && Deletions([]) == 0 && ResultOf([]) == CommitResult([], [], [], [])
  {
  }

  lemma InsertedSoFar(ops: Ops, op: Transaction.StagedOp)
    ensures forall id: NodeId :: InsertsNode(ops + [op], id) <==>
            InsertsNode(ops, id) || (op.InsertNode? && op.node.id == id)
    ensures forall id: EdgeId :: InsertsEdge(ops + [op], id) <==>
            InsertsEdge(ops, id) || (op.InsertEdge? && op.edge.id == id)
  {
    var all := ops + [op];
    forall id: NodeId ensures InsertsNode(all, id) <==> InsertsNode(ops, id) || (op.InsertNode? && op.node.id == id) {
      if InsertsNode(ops, id) {
        var i :| 0 <= i < |ops| && ops[i].InsertNode? && ops[i].node.id == id;
        assert all[i] == ops[i];
      }
      assert all[|ops|] == op;
    }
    forall id: EdgeId ensures InsertsEdge(all, id) <==> InsertsEdge(ops, id) || (op.InsertEdge? && op.edge.id == id) {
      if InsertsEdge(ops, id) {
        var i :| 0 <= i < |ops| && ops[i].InsertEdge? && ops[i].edge.id == id;
        assert all[i] == ops[i];
      }
      assert all[|ops|] == op;
    }
  }

  /** The records of one operation take the graph where the operation does. */
  lemma WrittenEffect(rs: seq<Record>, g: Graph, op: Transaction.StagedOp)
    requires WrittenBy(rs, g, op) && ApplyOp(g, op).Ok?
    ensures AllData(rs) && Sequential(g, rs) == ApplyOp(g, op).value
  {
    if op.DeleteNode? {
      CascadeEffect(g, rs[..|rs| - 1], op.nodeId);
      assert rs == rs[..|rs| - 1] + [Record.DeleteNode(op.nodeId)];
    } else {
      assert rs[..0] == [];
    }
  }

  /** Which deletes and upserts one operation writes. */
  lemma WrittenFacts(rs: seq<Record>, g: Graph, op: Transaction.StagedOp)
    requires WrittenBy(rs, g, op) && ApplyOp(g, op).Ok?
    ensures forall id: NodeId :: Record.DeleteNode(id) in rs <==> op == Transaction.DeleteNode(id)
    ensures forall n: Node :: UpsertNode(n) in rs ==> op == Transaction.InsertNode(n)
    ensures forall id: EdgeId :: op == Transaction.DeleteEdge(id) ==> Record.DeleteEdge(id) in rs
    ensures forall id: EdgeId :: Record.DeleteEdge(id) in rs && op != Transaction.DeleteEdge(id) ==>
              id in g.edges && id !in ApplyOp(g, op).value.edges
    ensures forall id: EdgeId :: id in ApplyOp(g, op).value.edges && id !in g.edges ==>
            op.InsertEdge? && op.edge.id == id
  {
    if op.DeleteNode? {
      var ts := rs[..|rs| - 1];
      assert rs == ts + [Record.DeleteNode(op.nodeId)];
      forall id: EdgeId | Record.DeleteEdge(id) in rs ensures id in g.edges && id !in WithoutNode(g, op.nodeId).edges {
        var i :| 0 <= i < |ts| && ts[i] == Record.DeleteEdge(id);
      }
    }
  }

  /** An edge insert of a transaction never brings back an edge it saw before. */
  lemma TracksNext(rs: seq<Record>, g0: Graph, ops: Ops, g: Graph, op: Transaction.StagedOp, more: seq<Record>)
    requires Tracks(rs, g0, ops, g) && WrittenBy(more, g, op) && ApplyOp(g, op).Ok?
    requires op.InsertEdge? ==> op.edge.id !in g0.edges && !InsertsEdge(ops, op.edge.id)
    ensures Tracks(rs + more, g0, ops + [op], ApplyOp(g, op).value)
  {
    hide Sequential, WrittenBy, ApplyOp, DeletesTraced, UpsertsTraced, CascadesGone, LiveOnlyFrom;
    WrittenEffect(more, g, op);
    SequentialConcat(g0, rs, more);
    LiveOnlyNext(g, g0, ops, op);
    UpsertsNext(rs, ops, g, op, more);
    CascadesNext(rs, g0, ops, g, op, more);
  }

  lemma UpsertsNext(rs: seq<Record>, ops: Ops, g: Graph, op: Transaction.StagedOp, more: seq<Record>)
    requires DeletesTraced(rs, ops) && UpsertsTraced(rs, ops) && WrittenBy(more, g, op) && ApplyOp(g, op).Ok?
    ensures DeletesTraced(rs + more, ops + [op]) && UpsertsTraced(rs + more, ops + [op])
  {
    WrittenFacts(more, g, op);
    InsertedSoFar(ops, op);
    hide WrittenBy, ApplyOp, InsertsNode, InsertsEdge;
  }

  lemma CascadesNext(rs: seq<Record>, g0: Graph, ops: Ops, g: Graph, op: Transaction.StagedOp, more: seq<Record>)
    requires CascadesGone(rs, g0, ops, g) && LiveOnlyFrom(g, g0, ops) && WrittenBy(more, g, op) && ApplyOp(g, op).Ok?
    requires op.InsertEdge? ==> op.edge.id !in g0.edges && !InsertsEdge(ops, op.edge.id)
    ensures CascadesGone(rs + more, g0, ops + [op], ApplyOp(g, op).value)
  {
    WrittenFacts(more, g, op);
    InsertedSoFar(ops, op);
    hide WrittenBy, ApplyOp, InsertsNode, InsertsEdge;
    var g', all := ApplyOp(g, op).value, ops + [op];
    forall id: EdgeId | Record.DeleteEdge(id) in rs + more && Transaction.DeleteEdge(id) !in all
      ensures id !in g'.edges && (id in g0.edges || InsertsEdge(all, id))
    {
      assert op in all && forall o :: o in ops ==> o in all;
      if Record.DeleteEdge(id) in rs {
        assert id !in g.edges;
      }
    }
  }

  /** A record no upsert of the bracket touched is still the one from before it. */
  lemma {:induction false} UntouchedNode(g: Graph, rs: seq<Record>, id: NodeId)
    requires AllData(rs) && forall n: Node :: UpsertNode(n) in rs ==> n.id != id
    ensures id in Sequential(g, rs).nodes ==> id in g.nodes && Sequential(g, rs).nodes[id] == g.nodes[id]
    decreases |rs|
  {
    if rs != [] {
      var rest := rs[..|rs| - 1];
      assert rs == rest + [rs[|rs| - 1]];
      UntouchedNode(g, rest, id);
    }
  }

  /** No staged delete names a record that is live in the end. */
  ghost predicate DeletesStick(ops: Ops, g: Graph) {
    && (forall id: NodeId :: Transaction.DeleteNode(id) in ops ==> id !in g.nodes)
    && (forall id: EdgeId :: Transaction.DeleteEdge(id) in ops ==> id !in g.edges)
  }

  lemma ChangesDrop(rs: seq<Record>, id: U64)
    ensures Drop(id) in NodeChanges(rs) <==> Record.DeleteNode(id) in rs
    ensures Drop(id) in EdgeChanges(rs) <==> Record.DeleteEdge(id) in rs
  {
    if Record.DeleteNode(id) in rs {
      var i :| 0 <= i < |rs| && rs[i] == Record.DeleteNode(id);
      assert NodeChanges(rs)[i] == Drop(id);
    }
    if Record.DeleteEdge(id) in rs {
      var i :| 0 <= i < |rs| && rs[i] == Record.DeleteEdge(id);
      assert EdgeChanges(rs)[i] == Drop(id);
    }
  }

  function DroppedNodes(ops: Ops): set<NodeId> {
    set i | 0 <= i < |ops| && ops[i].DeleteNode? :: ops[i].nodeId
  }

  function DroppedEdges(ops: Ops): set<EdgeId> {
    set i | 0 <= i < |ops| && ops[i].DeleteEdge? :: ops[i].edgeId
  }

  /** The graph without every record a staged delete names. */
  function Kept(ops: Ops, g: Graph): Graph {
    Graph(g.nodes - DroppedNodes(ops), g.edges - DroppedEdges(ops))
  }

  lemma Dropped(ops: Ops)
    ensures forall id: NodeId :: id in DroppedNodes(ops) <==> Transaction.DeleteNode(id) in ops
    ensures forall id: EdgeId :: id in DroppedEdges(ops) <==> Transaction.DeleteEdge(id) in ops
  {
  }

  /** At one id, a COMMIT puts the deletes last. */
  lemma GroupedDropsLast<V>(m: map<U64, V>, cs: seq<Change<V>>, id: U64)
    ensures Lookup(RemoveAll(PutAll(m, Puts(cs)), WalLog.Drops(cs)), id)
         == if Drop(id) in cs then None else After(Lookup(m, id), cs, id)
  {
    DropsContent(cs, id);
    if Drop(id) !in cs {
      PutsAfter(m, cs, id);
    }
  }

  /** A committed bracket leaves the running graph without every record a staged delete names, were
      it inserted after the delete or not. */
  lemma GroupedKeeps(g0: Graph, t: U64, rs: seq<Record>, ops: Ops, g: Graph)
    requires Tracks(rs, g0, ops, g)
    ensures ApplyGrouped(g0, Buffered(EmptyBuffer(t), rs)) == Kept(ops, g)
  {
    hide InsertsNode, InsertsEdge, DroppedNodes, DroppedEdges;
    BufferedChanges(t, rs);
    Dropped(ops);
    var grouped := ApplyGrouped(g0, Buffered(EmptyBuffer(t), rs));
    forall id: U64
      ensures Lookup(grouped.nodes, id) == Lookup(Kept(ops, g).nodes, id)
      ensures Lookup(grouped.edges, id) == Lookup(Kept(ops, g).edges, id)
    {
      GroupedDropsLast(g0.nodes, NodeChanges(rs), id);
      GroupedDropsLast(g0.edges, EdgeChanges(rs), id);
      SequentialAfter(g0, rs, id);
      ChangesDrop(rs, id);
    }
    SameMaps(grouped.nodes, Kept(ops, g).nodes);
    SameMaps(grouped.edges, Kept(ops, g).edges);
  }

  lemma KeptIsWhole(ops: Ops, g: Graph)
    ensures Kept(ops, g) == g <==> DeletesStick(ops, g)
  {
    Dropped(ops);
    if DeletesStick(ops, g) {
      assert Kept(ops, g).nodes == g.nodes && Kept(ops, g).edges == g.edges;
    } else if id: NodeId :| Transaction.DeleteNode(id) in ops && id in g.nodes {
      assert id !in Kept(ops, g).nodes;
    } else {
      var id: EdgeId :| Transaction.DeleteEdge(id) in ops && id in g.edges;
      assert id !in Kept(ops, g).edges;
    }
  }

  /** Replaying a committed bracket gives the running graph without every record a staged delete
      names: all of it exactly when every delete stuck. */
  lemma CommitReplays(base: seq<Record>, t: U64, rs: seq<Record>, ops: Ops, g: Graph)
    requires Closed(base) && Tracks(rs, Loaded(base), ops, g)
    ensures var log := base + [BeginTxn(t)] + rs + [CommitTxn(t)];
            Closed(log) && Loaded(log) == Kept(ops, g) && (Loaded(log) == g <==> DeletesStick(ops, g))
  {
    hide Tracks, ApplyGrouped, DeletesStick, Kept;
    var g0 := Loaded(base);
    RunConcat(INITIAL, base, [BeginTxn(t)] + rs + [CommitTxn(t)]);
    assert base + ([BeginTxn(t)] + rs + [CommitTxn(t)]) == base + [BeginTxn(t)] + rs + [CommitTxn(t)];
    TracksData(rs, g0, ops, g);
    BracketRuns(g0, t, rs, CommitTxn(t));
    GroupedKeeps(g0, t, rs, ops, g);
    KeptIsWhole(ops, g);
  }

  /** No edge that a commit keeps ends in a node it takes away. */
  ghost predicate EndsKept(ops: Ops, g: Graph) {
    forall e :: e in g.edges && Transaction.DeleteEdge(e) !in ops ==>
      Transaction.DeleteNode(g.edges[e].source) !in ops && Transaction.DeleteNode(g.edges[e].target) !in ops
  }

  lemma KeptDangles(ops: Ops, g: Graph)
    requires NoDangling(g)
    ensures NoDangling(Kept(ops, g)) <==> EndsKept(ops, g)
  {
    hide DroppedNodes, DroppedEdges;
    Dropped(ops);
    var kept := Kept(ops, g);
    forall e | e in kept.edges && EndsKept(ops, g)
      ensures kept.edges[e].source in kept.nodes && kept.edges[e].target in kept.nodes
    {
    }
    forall e | e in g.edges && Transaction.DeleteEdge(e) !in ops && NoDangling(kept)
      ensures Transaction.DeleteNode(g.edges[e].source) !in ops && Transaction.DeleteNode(g.edges[e].target) !in ops
    {
      assert e in kept.edges;
    }
  }

  /** A bracket given up after an error replays to the graph before it. */
  lemma AbortReplays(base: seq<Record>, t: U64, rs: seq<Record>)
    requires Closed(base) && AllData(rs)
    ensures var log := base + [BeginTxn(t)] + rs + [RollbackTxn(t)];
            Closed(log) && Loaded(log) == Loaded(base)
  {
    RunConcat(INITIAL, base, [BeginTxn(t)] + rs + [RollbackTxn(t)]);
    assert base + ([BeginTxn(t)] + rs + [RollbackTxn(t)]) == base + [BeginTxn(t)] + rs + [RollbackTxn(t)];
    BracketRuns(Loaded(base), t, rs, RollbackTxn(t));
  }

  /** No insert uses an id that an earlier operation deletes. */
  ghost predicate NoReuse(ops: Ops) {
    && (forall i, j :: 0 <= i < j < |ops| && ops[i].DeleteNode? && ops[j].InsertNode? ==>
          ops[i].nodeId != ops[j].node.id)
    && (forall i, j :: 0 <= i < j < |ops| && ops[i].DeleteEdge? && ops[j].InsertEdge? ==>
          ops[i].edgeId != ops[j].edge.id)
  }

  /** Deleting the id the generator hands out next, and then inserting, loses the insert. */
  lemma ReuseIsLost(n: Node)
    requires n.id < MAX_U64
    ensures var ops := [Transaction.DeleteNode(n.id), Transaction.InsertNode(n)];
            FreshInserts(ops, EMPTY_GRAPH) && KeepsOwnNodes(ops)
            && RunOps(EMPTY_GRAPH, ops).1.None? && !DeletesStick(ops, RunOps(EMPTY_GRAPH, ops).0)
  {
    var ops := [Transaction.DeleteNode(n.id), Transaction.InsertNode(n)];
    assert ops[..1][..0] == [];
    RunOpsNext(EMPTY_GRAPH, ops, 0);
    RunOpsNext(EMPTY_GRAPH, ops, 1);
    assert ops[..2] == ops && ops[0] in ops;
  }

  /** The log after a commit is a faithful, never-dangling log of the running graph exactly when
      every staged delete stuck, and it dangles somewhere exactly when an edge it keeps ends in a
      node it takes away. */
  lemma CommitDurable(base: seq<Record>, t: U64, rs: seq<Record>, g0: Graph, ops: Ops, g: Graph)
    requires Faithful(base, g0) && Tracks(rs, g0, ops, g) && NoDangling(g)
    ensures var log := base + [BeginTxn(t)] + rs + [CommitTxn(t)];
            && Loaded(log) == Kept(ops, g)
            && (Faithful(log, g) <==> DeletesStick(ops, g))
            && (NoDangling(Loaded(log)) <==> EndsKept(ops, g))
            && (NeverDangles(log) <==> EndsKept(ops, g))
  {
    hide Replay, NeverDangles, Tracks, DeletesStick, Kept, EndsKept, NoDangling;
    var log := base + [BeginTxn(t)] + rs + [CommitTxn(t)];
    CommitReplays(base, t, rs, ops, g);
    KeptDangles(ops, g);
    TracksData(rs, g0, ops, g);
    NeverDanglesBracket(base, t, rs);
    if NoDangling(Loaded(log)) {
      NeverDanglesAppend(base + [BeginTxn(t)] + rs, CommitTxn(t));
    } else {
      DanglesWhole(log);
    }
  }

  lemma DanglesWhole(log: seq<Record>)
    requires !NoDangling(Loaded(log))
    ensures !NeverDangles(log)
  {
    assert log[..|log|] == log;
  }

  /** Deleting a node that is not there, then inserting it with an edge from it to itself: the
      commit succeeds, and the log loads the edge without the node. */
  lemma CommitDangles(t: U64, n: Node, e: Edge)
    requires n.id < MAX_U64 && e.id < MAX_U64 && e.source == e.target == n.id
    ensures var ops := [Transaction.DeleteNode(n.id), Transaction.InsertNode(n), Transaction.InsertEdge(e)];
            FreshInserts(ops, EMPTY_GRAPH) && KeepsOwnNodes(ops)
            && RunOps(EMPTY_GRAPH, ops) == (Graph(map[n.id := n], map[e.id := e]), None)
    ensures var rs := [Record.DeleteNode(n.id), UpsertNode(n), UpsertEdge(e)];
            Loaded([BeginTxn(t)] + rs + [CommitTxn(t)]) == Graph(map[], map[e.id := e])
  {
    var ops := [Transaction.DeleteNode(n.id), Transaction.InsertNode(n), Transaction.InsertEdge(e)];
    var rs := [Record.DeleteNode(n.id), UpsertNode(n), UpsertEdge(e)];
    var g := Graph(map[n.id := n], map[e.id := e]);
    hide Run, RunOps, Tracks, Kept, NoDangling, FreshInserts, KeepsOwnNodes;
    DanglingOps(n, e);
    DanglingTracks(n, e);
    CommitReplays([], t, rs, ops, g);
    assert [] + [BeginTxn(t)] + rs + [CommitTxn(t)] == [BeginTxn(t)] + rs + [CommitTxn(t)];
    DanglingKept(n, e);
  }

  lemma DanglingKept(n: Node, e: Edge)
    requires e.source == e.target == n.id
    ensures Kept([Transaction.DeleteNode(n.id), Transaction.InsertNode(n), Transaction.InsertEdge(e)],
                 Graph(map[n.id := n], map[e.id := e])) == Graph(map[], map[e.id := e])
  {
    var ops := [Transaction.DeleteNode(n.id), Transaction.InsertNode(n), Transaction.InsertEdge(e)];
    var kept := Kept(ops, Graph(map[n.id := n], map[e.id := e]));
    assert ops[0].DeleteNode?;
    assert kept.nodes == map[] && kept.edges == map[e.id := e];
  }

  lemma DanglingOps(n: Node, e: Edge)
    requires n.id < MAX_U64 && e.id < MAX_U64 && e.source == e.target == n.id
    ensures var ops := [Transaction.DeleteNode(n.id), Transaction.InsertNode(n), Transaction.InsertEdge(e)];
            && FreshInserts(ops, EMPTY_GRAPH) && KeepsOwnNodes(ops)
            && RunOps(EMPTY_GRAPH, ops[..1]) == (EMPTY_GRAPH, None)
            && RunOps(EMPTY_GRAPH, ops[..2]) == (Graph(map[n.id := n], map[]), None)
            && RunOps(EMPTY_GRAPH, ops) == (Graph(map[n.id := n], map[e.id := e]), None)
  {
    var ops := [Transaction.DeleteNode(n.id), Transaction.InsertNode(n), Transaction.InsertEdge(e)];
    assert ops[..0] == [] && ops[..3] == ops;
    assert WithoutNode(EMPTY_GRAPH, n.id) == EMPTY_GRAPH;
    RunOpsNext(EMPTY_GRAPH, ops, 0);
    RunOpsNext(EMPTY_GRAPH, ops, 1);
    RunOpsNext(EMPTY_GRAPH, ops, 2);
  }

  lemma DanglingTracks(n: Node, e: Edge)
    requires e.source == e.target == n.id
    ensures Tracks([Record.DeleteNode(n.id), UpsertNode(n), UpsertEdge(e)], EMPTY_GRAPH,
                   [Transaction.DeleteNode(n.id), Transaction.InsertNode(n), Transaction.InsertEdge(e)],
                   Graph(map[n.id := n], map[e.id := e]))
  {
    hide Tracks;
    NothingDone(EMPTY_GRAPH);
    assert WithoutNode(EMPTY_GRAPH, n.id) == EMPTY_GRAPH;
    var o1, o2, o3 := Transaction.DeleteNode(n.id), Transaction.InsertNode(n), Transaction.InsertEdge(e);
    var r1, r2, r3 := Record.DeleteNode(n.id), UpsertNode(n), UpsertEdge(e);
    TracksNext([], EMPTY_GRAPH, [], EMPTY_GRAPH, o1, [r1]);
    assert [] + [r1] == [r1] && [] + [o1] == [o1];
    TracksNext([r1], EMPTY_GRAPH, [o1], EMPTY_GRAPH, o2, [r2]);
    assert [r1] + [r2] == [r1, r2] && [o1] + [o2] == [o1, o2];
    TracksNext([r1, r2], EMPTY_GRAPH, [o1, o2], Graph(map[n.id := n], map[]), o3, [r3]);
    assert [r1, r2] + [r3] == [r1, r2, r3] && [o1, o2] + [o3] == [o1, o2, o3];
  }

  lemma TracksData(rs: seq<Record>, g0: Graph, ops: Ops, g: Graph)
    requires Tracks(rs, g0, ops, g)
    ensures AllData(rs)
  {
  }

  lemma AbortDurable(base: seq<Record>, t: U64, rs: seq<Record>, g0: Graph)
    requires Faithful(base, g0) && AllData(rs)
    ensures Faithful(base + [BeginTxn(t)] + rs + [RollbackTxn(t)], g0)
  {
    hide Replay;
    AbortReplays(base, t, rs);
    NeverDanglesBracket(base, t, rs);
    assert NoDangling(Loaded(base)) by { assert base[..|base|] == base; }
    NeverDanglesAppend(base + [BeginTxn(t)] + rs, RollbackTxn(t));
  }

  /** Cut before the record that ends it, a bracket has no effect. */
  ghost predicate EffectAtEnd(log: seq<Record>, base: seq<Record>, g0: Graph) {
    base < log && forall k :: |base| <= k < |log| ==> Loaded(log[..k]) == g0
  }

  lemma BracketAtEnd(base: seq<Record>, t: U64, rs: seq<Record>, last: Record, g0: Graph)
    requires Faithful(base, g0) && AllData(rs)
    ensures EffectAtEnd(base + [BeginTxn(t)] + rs + [last], base, g0)
  {
    hide Replay;
    var log := base + [BeginTxn(t)] + rs + [last];
    forall k | |base| <= k < |log| ensures Loaded(log[..k]) == g0 {
      if k == |base| {
        assert log[..k] == base;
      } else {
        var some := rs[..k - |base| - 1];
        assert log[..k] == base + [BeginTxn(t)] + some;
        NeverDanglesBracket(base, t, some);
      }
    }
  }

  /** Inside the bracket storage still serves the records from before it, so a node the bracket
      did not write can be read. */
  lemma ReadsThrough(base: seq<Record>, t: U64, rs: seq<Record>, ops: Ops, g: Graph, id: NodeId)
    requires NeverDangles(base) && Tracks(rs, Loaded(base), ops, g) && !InsertsNode(ops, id) && id in g.nodes
    ensures Lookup(Loaded(base + [BeginTxn(t)] + rs).nodes, id) == Some(g.nodes[id])
  {
    NeverDanglesBracket(base, t, rs);
    UntouchedNode(Loaded(base), rs, id);
  }

  /** A node inserted inside the bracket is not in storage yet. */
  lemma OwnInsertUnread(base: seq<Record>, t: U64, rs: seq<Record>, id: NodeId)
    requires NeverDangles(base) && AllData(rs) && id !in Loaded(base).nodes
    ensures Lookup(Loaded(base + [BeginTxn(t)] + rs).nodes, id) == None
  {
    NeverDanglesBracket(base, t, rs);
  }

  /** The staged ids stay new while the operations are carried out. */
  lemma StillFresh(g0: Graph, ops: Ops, k: nat, g: Graph)
    requires FreshInserts(ops, g0) && k < |ops|
    requires LiveOnlyFrom(g, g0, ops[..k])
    ensures ops[k].InsertNode? ==> ops[k].node.id !in g.nodes && ops[k].node.id < MAX_U64
    ensures ops[k].InsertEdge? ==> ops[k].edge.id !in g.edges && ops[k].edge.id < MAX_U64
    ensures ops[k].InsertEdge? ==> ops[k].edge.id !in g0.edges && !InsertsEdge(ops[..k], ops[k].edge.id)
  {
  }

  lemma LiveOnlyNext(g: Graph, g0: Graph, ops: Ops, op: Transaction.StagedOp)
    requires LiveOnlyFrom(g, g0, ops) && ApplyOp(g, op).Ok?
    ensures LiveOnlyFrom(ApplyOp(g, op).value, g0, ops + [op])
  {
    hide InsertsNode, InsertsEdge;
    InsertedSoFar(ops, op);
  }

  lemma OwnNodesKept(ops: Ops, k: nat)
    requires KeepsOwnNodes(ops) && k < |ops| && ops[k].DeleteNode?
    ensures !InsertsNode(ops[..k], ops[k].nodeId)
  {
  }

  // ---- What a commit reports ----

  datatype CommitResult = CommitResult(
    insertedNodeIds: seq<NodeId>, insertedEdgeIds: seq<EdgeId>,
    deletedNodeIds: seq<NodeId>, deletedEdgeIds: seq<EdgeId>)
  {
    function Add(op: Transaction.StagedOp): CommitResult {
      match op
      case InsertNode(n) => this.(insertedNodeIds := insertedNodeIds + [n.id])
      case InsertEdge(e) => this.(insertedEdgeIds := insertedEdgeIds + [e.id])
      case DeleteNode(id) => this.(deletedNodeIds := deletedNodeIds + [id])
      case DeleteEdge(id) => this.(deletedEdgeIds := deletedEdgeIds + [id])
    }
  }

  function ResultOf(ops: Ops): CommitResult {
    if ops == [] then CommitResult([], [], [], [])
    else ResultOf(ops[..|ops| - 1]).Add(ops[|ops| - 1])
  }

  /** How many of the operations pass. */
  function CountOf(kind: Transaction.StagedOp -> bool, ops: Ops): nat {
    if ops == [] then 0
    else CountOf(kind, ops[..|ops| - 1]) + if kind(ops[|ops| - 1]) then 1 else 0
  }

  /** `ids` has one entry for each operation that passes, in their order. */
  ghost predicate ListsIds(ids: seq<U64>, ops: Ops, kind: Transaction.StagedOp -> bool,
                           names: (Transaction.StagedOp, U64) -> bool) {
    && |ids| == CountOf(kind, ops)
    && forall k :: 0 <= k < |ops| && kind(ops[k]) ==>
         CountOf(kind, ops[..k]) < |ids| && names(ops[k], ids[CountOf(kind, ops[..k])])
  }

  predicate InsertsANode(op: Transaction.StagedOp) {
    op.InsertNode?
  }

  predicate InsertsAnEdge(op: Transaction.StagedOp) {
    op.InsertEdge?
  }

  predicate DeletesANode(op: Transaction.StagedOp) {
    op.DeleteNode?
  }

  predicate DeletesAnEdge(op: Transaction.StagedOp) {
    op.DeleteEdge?
  }

  predicate NamesNode(op: Transaction.StagedOp, id: U64) {
    op.InsertNode? && op.node.id == id
  }

  predicate NamesEdge(op: Transaction.StagedOp, id: U64) {
    op.InsertEdge? && op.edge.id == id
  }

  predicate NamesDeletedNode(op: Transaction.StagedOp, id: U64) {
    op == Transaction.DeleteNode(id)
  }

  predicate NamesDeletedEdge(op: Transaction.StagedOp, id: U64) {
    op == Transaction.DeleteEdge(id)
  }

  /** The answer names every operation once, in the list of its kind and in staging order. */
  ghost predicate Reports(r: CommitResult, ops: Ops) {
    && ListsIds(r.insertedNodeIds, ops, InsertsANode, NamesNode)
    && ListsIds(r.insertedEdgeIds, ops, InsertsAnEdge, NamesEdge)
    && ListsIds(r.deletedNodeIds, ops, DeletesANode, NamesDeletedNode)
    && ListsIds(r.deletedEdgeIds, ops, DeletesAnEdge, NamesDeletedEdge)
  }

  lemma ListsNext(ids: seq<U64>, ops: Ops, kind: Transaction.StagedOp -> bool,
                  names: (Transaction.StagedOp, U64) -> bool, op: Transaction.StagedOp, id: U64)
    requires ListsIds(ids, ops, kind, names)
    ensures kind(op) && names(op, id) ==> ListsIds(ids + [id], ops + [op], kind, names)
    ensures !kind(op) ==> ListsIds(ids, ops + [op], kind, names)
  {
    var all := ops + [op];
    assert all[..|ops|] == ops;
    assert forall k :: 0 <= k < |ops| ==> all[..k] == ops[..k] && all[k] == ops[k];
  }

  lemma {:induction false} ResultReports(ops: Ops)
    ensures Reports(ResultOf(ops), ops)
    decreases |ops|
  {
    if ops != [] {
      var init, op := ops[..|ops| - 1], ops[|ops| - 1];
      assert ops == init + [op];
      ResultReports(init);
      hide ListsIds;
      var r := ResultOf(init);
      var id := match op
        case InsertNode(n) => n.id
        case InsertEdge(e) => e.id
        case DeleteNode(i) => i
        case DeleteEdge(i) => i;
      ListsNext(r.insertedNodeIds, init, InsertsANode, NamesNode, op, id);
      ListsNext(r.insertedEdgeIds, init, InsertsAnEdge, NamesEdge, op, id);
      ListsNext(r.deletedNodeIds, init, DeletesANode, NamesDeletedNode, op, id);
      ListsNext(r.deletedEdgeIds, init, DeletesAnEdge, NamesDeletedEdge, op, id);
    }
  }
}
