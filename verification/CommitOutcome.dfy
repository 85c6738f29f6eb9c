/** Which staged operations a commit loses, told from the operations alone:
    src/database/layered.rs and src/adapters/storage/binary_file.rs together. */
module CommitOutcome {
  import opened Core
  import opened GraphOps
  import opened CommitLog
  import Transaction

  /** The operation takes the edge away, itself or with one of its ends. */
  predicate Removes(op: Transaction.StagedOp, e: Edge) {
    || op == Transaction.DeleteEdge(e.id)
    || op == Transaction.DeleteNode(e.source) || op == Transaction.DeleteNode(e.target)
  }

  /** A run of operations is a run of all but the last, and the last. */
  lemma LastStep(g: Graph, ops: Ops)
    requires ops != [] && RunOps(g, ops).1.None?
    ensures var init := ops[..|ops| - 1];
            RunOps(g, init).1.None? && ApplyOp(RunOps(g, init).0, ops[|ops| - 1]) == Ok(RunOps(g, ops).0)
  {
  }

  lemma InitDistinct(ops: Ops)
    requires ops != [] && Transaction.InsertsDistinct(ops)
    ensures Transaction.InsertsDistinct(ops[..|ops| - 1])
  {
  }

  lemma {:induction false} PrefixRuns(g: Graph, ops: Ops, k: nat)
    requires RunOps(g, ops).1.None? && k <= |ops|
    ensures RunOps(g, ops[..k]).1.None?
    decreases |ops|
  {
    if k < |ops| {
      LastStep(g, ops);
      assert ops[..|ops| - 1][..k] == ops[..k];
      PrefixRuns(g, ops[..|ops| - 1], k);
    } else {
      assert ops[..k] == ops;
    }
  }

  ghost predicate NoLaterDelete(ops: Ops, j: nat, id: NodeId) {
    forall k :: j < k < |ops| ==> ops[k] != Transaction.DeleteNode(id)
  }

  ghost predicate NoLaterRemoval(ops: Ops, j: nat, e: Edge) {
    forall k :: j < k < |ops| ==> !Removes(ops[k], e)
  }

  /** An inserted node is live in the end exactly when it is not deleted later. */
  lemma {:induction false} NodeAfter(g: Graph, ops: Ops, j: nat)
    requires RunOps(g, ops).1.None? && Transaction.InsertsDistinct(ops) && j < |ops| && ops[j].InsertNode?
    ensures ops[j].node.id in RunOps(g, ops).0.nodes <==> NoLaterDelete(ops, j, ops[j].node.id)
    decreases |ops|
  {
    LastStep(g, ops);
    var n := |ops| - 1;
    if j < n {
      InitDistinct(ops);
      NodeAfter(g, ops[..n], j);
      hide RunOps;
      assert NoLaterDelete(ops, j, ops[j].node.id) <==>
        NoLaterDelete(ops[..n], j, ops[j].node.id) && ops[n] != Transaction.DeleteNode(ops[j].node.id);
    }
  }

  /** An inserted edge is live in the end exactly when no later operation takes it away. */
  lemma {:induction false} EdgeAfter(g: Graph, ops: Ops, j: nat)
    requires RunOps(g, ops).1.None? && Transaction.InsertsDistinct(ops) && j < |ops| && ops[j].InsertEdge?
    ensures var e, end := ops[j].edge, RunOps(g, ops).0;
            && (e.id in end.edges <==> NoLaterRemoval(ops, j, e))
            && (e.id in end.edges ==> end.edges[e.id] == e)
    decreases |ops|
  {
    LastStep(g, ops);
    var n := |ops| - 1;
    if j < n {
      InitDistinct(ops);
      EdgeAfter(g, ops[..n], j);
      hide RunOps;
      assert NoLaterRemoval(ops, j, ops[j].edge) <==>
        NoLaterRemoval(ops[..n], j, ops[j].edge) && !Removes(ops[n], ops[j].edge);
    }
  }

  /** A deleted id that no later operation inserts is not live in the end. */
  lemma {:induction false} DeletedAfter(g: Graph, ops: Ops, i: nat)
    requires RunOps(g, ops).1.None? && i < |ops|
    ensures ops[i].DeleteNode? &&
            (forall j :: i < j < |ops| && ops[j].InsertNode? ==> ops[j].node.id != ops[i].nodeId) ==>
              ops[i].nodeId !in RunOps(g, ops).0.nodes
    ensures ops[i].DeleteEdge? &&
            (forall j :: i < j < |ops| && ops[j].InsertEdge? ==> ops[j].edge.id != ops[i].edgeId) ==>
              ops[i].edgeId !in RunOps(g, ops).0.edges
    decreases |ops|
  {
    LastStep(g, ops);
    var n := |ops| - 1;
    if i < n {
      DeletedAfter(g, ops[..n], i);
    }
  }

  /** A node that is inserted and not deleted later, or was there and is never touched. */
  ghost predicate NodeStands(g: Graph, ops: Ops, n: Node) {
    || (exists j :: 0 <= j < |ops| && ops[j] == Transaction.InsertNode(n) && NoLaterDelete(ops, j, n.id))
    || (Lookup(g.nodes, n.id) == Some(n) && !InsertsNode(ops, n.id) && Transaction.DeleteNode(n.id) !in ops)
  }

  ghost predicate EdgeStands(g: Graph, ops: Ops, e: Edge) {
    || (exists j :: 0 <= j < |ops| && ops[j] == Transaction.InsertEdge(e) && NoLaterRemoval(ops, j, e))
    || (Lookup(g.edges, e.id) == Some(e) && !InsertsEdge(ops, e.id)
        && forall k :: 0 <= k < |ops| ==> !Removes(ops[k], e))
  }

  lemma NodeStandsNext(g: Graph, ops: Ops, op: Transaction.StagedOp, n: Node)
    requires Transaction.InsertsDistinct(ops + [op])
    ensures NodeStands(g, ops + [op], n) <==>
      match op
      case InsertNode(m) => if m.id == n.id then m == n else NodeStands(g, ops, n)
      case DeleteNode(id) => id != n.id && NodeStands(g, ops, n)
      case _ => NodeStands(g, ops, n)
  {
    InsertedSoFar(ops, op);
    var all := ops + [op];
    assert all[|ops|] == op && forall k :: 0 <= k < |ops| ==> all[k] == ops[k];
    hide InsertsNode, InsertsEdge;
    forall j | 0 <= j < |ops|
      ensures NoLaterDelete(all, j, n.id) <==> NoLaterDelete(ops, j, n.id) && op != Transaction.DeleteNode(n.id)
    {
    }
    if op.InsertNode? && op.node.id == n.id {
      assert forall j :: 0 <= j < |ops| ==> all[j] != Transaction.InsertNode(n);
      assert NoLaterDelete(all, |ops|, n.id);
    }
  }

  /** The nodes at the end of a run, told from the operations. */
  lemma {:induction false} NodesExactly(g: Graph, ops: Ops, n: Node)
    requires RunOps(g, ops).1.None? && Transaction.InsertsDistinct(ops)
    ensures Lookup(RunOps(g, ops).0.nodes, n.id) == Some(n) <==> NodeStands(g, ops, n)
    decreases |ops|
  {
    if ops != [] {
      LastStep(g, ops);
      InitDistinct(ops);
      var init, op := ops[..|ops| - 1], ops[|ops| - 1];
      assert ops == init + [op];
      NodesExactly(g, init, n);
      NodeStandsNext(g, init, op, n);
    }
  }

  lemma EdgeStandsNext(g: Graph, ops: Ops, op: Transaction.StagedOp, e: Edge)
    requires Transaction.InsertsDistinct(ops + [op])
    ensures EdgeStands(g, ops + [op], e) <==>
      if op.InsertEdge? && op.edge.id == e.id then op.edge == e else EdgeStands(g, ops, e) && !Removes(op, e)
  {
    InsertedSoFar(ops, op);
    var all := ops + [op];
    assert all[|ops|] == op && forall k :: 0 <= k < |ops| ==> all[k] == ops[k];
    hide InsertsNode, InsertsEdge;
    forall j | 0 <= j < |ops| ensures NoLaterRemoval(all, j, e) <==> NoLaterRemoval(ops, j, e) && !Removes(op, e) {
    }
    if op.InsertEdge? && op.edge.id == e.id {
      assert forall j :: 0 <= j < |ops| ==> all[j] != Transaction.InsertEdge(e);
      assert NoLaterRemoval(all, |ops|, e);
    }
  }

  /** The edges at the end of a run. */
  lemma {:induction false} EdgesExactly(g: Graph, ops: Ops, e: Edge)
    requires RunOps(g, ops).1.None? && Transaction.InsertsDistinct(ops)
    ensures Lookup(RunOps(g, ops).0.edges, e.id) == Some(e) <==> EdgeStands(g, ops, e)
    decreases |ops|
  {
    if ops != [] {
      LastStep(g, ops);
      InitDistinct(ops);
      var init, op := ops[..|ops| - 1], ops[|ops| - 1];
      assert ops == init + [op];
      EdgesExactly(g, init, e);
      EdgeStandsNext(g, init, op, e);
    }
  }

  // ---- A commit ----

  /** An operation deletes an id, and a later one inserts it for good. */
  ghost predicate RevivesNode(ops: Ops, i: int, j: int) {
    && 0 <= i < j < |ops| && ops[i].DeleteNode? && ops[j].InsertNode? && ops[i].nodeId == ops[j].node.id
    && NoLaterDelete(ops, j, ops[j].node.id)
  }

  ghost predicate RevivesEdge(ops: Ops, i: int, j: int) {
    && 0 <= i < j < |ops| && ops[i].DeleteEdge? && ops[j].InsertEdge? && ops[i].edgeId == ops[j].edge.id
    && NoLaterRemoval(ops, j, ops[j].edge)
  }

  ghost predicate LosesInsert(ops: Ops) {
    (exists i, j :: RevivesNode(ops, i, j)) || (exists i, j :: RevivesEdge(ops, i, j))
  }

  /** When all operations go through, the staged deletes stick exactly when no insert of an id an
      earlier operation deletes is left standing. */
  lemma DeletesStickExactly(g: Graph, ops: Ops)
    requires RunOps(g, ops).1.None? && Transaction.InsertsDistinct(ops)
    ensures DeletesStick(ops, RunOps(g, ops).0) <==> !LosesInsert(ops)
  {
    hide RunOps;
    var end := RunOps(g, ops).0;
    forall i, j | RevivesNode(ops, i, j) ensures !DeletesStick(ops, end) {
      NodeAfter(g, ops, j);
      assert Transaction.DeleteNode(ops[i].nodeId) in ops;
    }
    forall i, j | RevivesEdge(ops, i, j) ensures !DeletesStick(ops, end) {
      EdgeAfter(g, ops, j);
      assert Transaction.DeleteEdge(ops[i].edgeId) in ops;
    }
    if !LosesInsert(ops) {
      forall id: NodeId | Transaction.DeleteNode(id) in ops ensures id !in end.nodes {
        NodeSticks(g, ops, id);
      }
      forall id: EdgeId | Transaction.DeleteEdge(id) in ops ensures id !in end.edges {
        EdgeSticks(g, ops, id);
      }
    }
  }

  /** Without reuse of a deleted id nothing is lost. */
  lemma NoReuseKeeps(ops: Ops)
    requires NoReuse(ops)
    ensures !LosesInsert(ops)
  {
    forall i, j ensures !RevivesNode(ops, i, j) && !RevivesEdge(ops, i, j) {
    }
  }

  lemma NodeSticks(g: Graph, ops: Ops, id: NodeId)
    requires RunOps(g, ops).1.None? && Transaction.InsertsDistinct(ops) && !LosesInsert(ops)
    requires Transaction.DeleteNode(id) in ops
    ensures id !in RunOps(g, ops).0.nodes
  {
    hide RunOps;
    var i :| 0 <= i < |ops| && ops[i] == Transaction.DeleteNode(id);
    if j :| i < j < |ops| && ops[j].InsertNode? && ops[j].node.id == id {
      assert !RevivesNode(ops, i, j);
      NodeAfter(g, ops, j);
    } else {
      DeletedAfter(g, ops, i);
    }
  }

  lemma EdgeSticks(g: Graph, ops: Ops, id: EdgeId)
    requires RunOps(g, ops).1.None? && Transaction.InsertsDistinct(ops) && !LosesInsert(ops)
    requires Transaction.DeleteEdge(id) in ops
    ensures id !in RunOps(g, ops).0.edges
  {
    hide RunOps;
    var i :| 0 <= i < |ops| && ops[i] == Transaction.DeleteEdge(id);
    if j :| i < j < |ops| && ops[j].InsertEdge? && ops[j].edge.id == id {
      assert !RevivesEdge(ops, i, j);
      EdgeAfter(g, ops, j);
    } else {
      DeletedAfter(g, ops, i);
    }
  }

  /** An operation deletes a node, and a later one inserts an edge at it for good. */
  ghost predicate LosesEnd(ops: Ops, i: int, j: int) {
    && 0 <= i < j < |ops| && ops[i].DeleteNode? && ops[j].InsertEdge? && Removes(ops[i], ops[j].edge)
    && NoLaterRemoval(ops, j, ops[j].edge) && Transaction.DeleteEdge(ops[j].edge.id) !in ops
  }

  ghost predicate LeavesDangling(ops: Ops) {
    exists i, j :: LosesEnd(ops, i, j)
  }

  /** An edge from before that is live in the end kept its ends throughout. */
  lemma {:induction false} OldEdgeAfter(g: Graph, ops: Ops, id: EdgeId)
    requires RunOps(g, ops).1.None? && !InsertsEdge(ops, id) && id in RunOps(g, ops).0.edges
    ensures id in g.edges && RunOps(g, ops).0.edges[id] == g.edges[id]
    ensures forall k :: 0 <= k < |ops| && ops[k].DeleteNode? ==> !EdgeTouches(g.edges[id], ops[k].nodeId)
    decreases |ops|
  {
    if ops != [] {
      var n := |ops| - 1;
      LastStep(g, ops);
      assert ops == ops[..n] + [ops[n]];
      InsertedSoFar(ops[..n], ops[n]);
      hide RunOps, InsertsEdge;
      OldEdgeAfter(g, ops[..n], id);
    }
  }

  /** When all operations go through, no edge the commit keeps loses an end exactly when no edge is
      left standing at a node that an earlier operation deletes. */
  lemma EndsKeptExactly(g: Graph, ops: Ops)
    requires RunOps(g, ops).1.None? && Transaction.InsertsDistinct(ops)
    ensures EndsKept(ops, RunOps(g, ops).0) <==> !LeavesDangling(ops)
  {
    hide RunOps, LosesEnd;
    var end := RunOps(g, ops).0;
    forall i, j | LosesEnd(ops, i, j) ensures !EndsKept(ops, end) {
      EndLost(g, ops, i, j);
    }
    if !LeavesDangling(ops) {
      forall e | e in end.edges && Transaction.DeleteEdge(e) !in ops
        ensures Transaction.DeleteNode(end.edges[e].source) !in ops
        ensures Transaction.DeleteNode(end.edges[e].target) !in ops
      {
        EndStays(g, ops, e, end.edges[e].source);
        EndStays(g, ops, e, end.edges[e].target);
      }
    }
  }

  lemma EndLost(g: Graph, ops: Ops, i: int, j: int)
    requires RunOps(g, ops).1.None? && Transaction.InsertsDistinct(ops) && LosesEnd(ops, i, j)
    ensures !EndsKept(ops, RunOps(g, ops).0)
  {
    hide RunOps;
    EdgeAfter(g, ops, j);
    assert ops[i] in ops;
  }

  lemma EndStays(g: Graph, ops: Ops, e: EdgeId, x: NodeId)
    requires RunOps(g, ops).1.None? && Transaction.InsertsDistinct(ops) && !LeavesDangling(ops)
    requires e in RunOps(g, ops).0.edges && Transaction.DeleteEdge(e) !in ops
    requires EdgeTouches(RunOps(g, ops).0.edges[e], x)
    ensures Transaction.DeleteNode(x) !in ops
  {
    hide RunOps;
    if i :| 0 <= i < |ops| && ops[i] == Transaction.DeleteNode(x) {
      if j :| 0 <= j < |ops| && ops[j].InsertEdge? && ops[j].edge.id == e {
        EdgeAfter(g, ops, j);
        assert Removes(ops[i], ops[j].edge);
        assert LosesEnd(ops, i, j);
      } else {
        OldEdgeAfter(g, ops, e);
      }
    }
  }

  // ---- A commit that fails ----

  /** The operations leave the graph as it was: they delete nothing that is live to begin with, and
      take away again whatever they insert. */
  ghost predicate NoTrace(g: Graph, ops: Ops) {
    && (forall i :: 0 <= i < |ops| && ops[i].DeleteNode? ==> ops[i].nodeId !in g.nodes)
    && (forall i :: 0 <= i < |ops| && ops[i].DeleteEdge? ==> ops[i].edgeId !in g.edges)
    && (forall i :: 0 <= i < |ops| && ops[i].InsertNode? ==> !NoLaterDelete(ops, i, ops[i].node.id))
    && (forall i :: 0 <= i < |ops| && ops[i].InsertEdge? ==> !NoLaterRemoval(ops, i, ops[i].edge))
  }

  /** Everything live is still there. */
  ghost predicate StillThere(g: Graph, end: Graph) {
    && (forall n :: n in g.nodes ==> n in end.nodes && end.nodes[n] == g.nodes[n])
    && (forall e :: e in g.edges ==> e in end.edges && end.edges[e] == g.edges[e])
  }

  lemma StillThereNext(g: Graph, end: Graph, op: Transaction.StagedOp)
    requires StillThere(g, end) && NoDangling(g) && ApplyOp(end, op).Ok?
    requires (op.InsertNode? ==> op.node.id !in g.nodes) && (op.InsertEdge? ==> op.edge.id !in g.edges)
    requires (op.DeleteNode? ==> op.nodeId !in g.nodes) && (op.DeleteEdge? ==> op.edgeId !in g.edges)
    ensures StillThere(g, ApplyOp(end, op).value)
  {
  }

  /** With nothing live deleted, the graph only gains what is inserted. */
  lemma {:induction false} OnlyInsertsNew(g: Graph, ops: Ops)
    requires RunOps(g, ops).1.None? && NoDangling(g) && FreshInserts(ops, g)
    requires forall i :: 0 <= i < |ops| && ops[i].DeleteNode? ==> ops[i].nodeId !in g.nodes
    requires forall i :: 0 <= i < |ops| && ops[i].DeleteEdge? ==> ops[i].edgeId !in g.edges
    ensures StillThere(g, RunOps(g, ops).0) && LiveOnlyFrom(RunOps(g, ops).0, g, ops)
    decreases |ops|
  {
    if ops != [] {
      LastStep(g, ops);
      var n := |ops| - 1;
      OnlyInsertsNew(g, ops[..n]);
      assert ops == ops[..n] + [ops[n]];
      hide RunOps, StillThere, LiveOnlyFrom, ApplyOp;
      StillThereNext(g, RunOps(g, ops[..n]).0, ops[n]);
      LiveOnlyNext(RunOps(g, ops[..n]).0, g, ops[..n], ops[n]);
    } else {
      NothingDone(g);
    }
  }

  /** The operations that went through before a failure leave the graph as it was exactly when they
      have no trace. */
  lemma FailureLeavesNoTrace(g: Graph, ops: Ops)
    requires RunOps(g, ops).1.None? && NoDangling(g) && FreshInserts(ops, g)
    ensures RunOps(g, ops).0 == g <==> NoTrace(g, ops)
  {
    hide RunOps;
    if NoTrace(g, ops) {
      TraceGone(g, ops);
    } else if RunOps(g, ops).0 == g {
      TraceShows(g, ops);
    }
  }

  lemma TraceGone(g: Graph, ops: Ops)
    requires RunOps(g, ops).1.None? && NoDangling(g) && FreshInserts(ops, g) && NoTrace(g, ops)
    ensures RunOps(g, ops).0 == g
  {
    hide RunOps, NoLaterDelete, NoLaterRemoval;
    var end := RunOps(g, ops).0;
    OnlyInsertsNew(g, ops);
    forall n | n in end.nodes ensures n in g.nodes {
      if n !in g.nodes {
        var i :| 0 <= i < |ops| && ops[i].InsertNode? && ops[i].node.id == n;
        NodeAfter(g, ops, i);
      }
    }
    forall e | e in end.edges ensures e in g.edges {
      if e !in g.edges {
        var i :| 0 <= i < |ops| && ops[i].InsertEdge? && ops[i].edge.id == e;
        EdgeAfter(g, ops, i);
      }
    }
    assert end.nodes == g.nodes && end.edges == g.edges;
  }

  lemma TraceShows(g: Graph, ops: Ops)
    requires RunOps(g, ops).1.None? && FreshInserts(ops, g) && RunOps(g, ops).0 == g
    ensures NoTrace(g, ops)
  {
    hide RunOps, NoLaterDelete, NoLaterRemoval;
    forall i | 0 <= i < |ops| && ops[i].InsertNode? ensures !NoLaterDelete(ops, i, ops[i].node.id) {
      NodeAfter(g, ops, i);
    }
    forall i | 0 <= i < |ops| && ops[i].DeleteNode? ensures ops[i].nodeId !in g.nodes {
      DeletedAfter(g, ops, i);
    }
    forall i | 0 <= i < |ops| && ops[i].DeleteEdge? ensures ops[i].edgeId !in g.edges {
      DeletedAfter(g, ops, i);
    }
    forall i | 0 <= i < |ops| && ops[i].InsertEdge? ensures !NoLaterRemoval(ops, i, ops[i].edge) {
      EdgeAfter(g, ops, i);
    }
  }

  /** A failed commit leaves the graph as it was exactly when the operations before the failing one
      have no trace. */
  lemma FailedCommit(g: Graph, ops: Ops, k: nat)
    requires k < |ops| && RunOps(g, ops[..k]).1.None? && RunOps(g, ops[..k + 1]).1.Some?
    requires NoDangling(g) && FreshInserts(ops, g)
    ensures RunOps(g, ops) == (RunOps(g, ops[..k]).0, RunOps(g, ops[..k + 1]).1)
    ensures RunOps(g, ops).0 == g <==> NoTrace(g, ops[..k])
  {
    RunOpsNext(g, ops, k);
    RunOpsStops(g, ops, k + 1);
    hide RunOps;
    FailureLeavesNoTrace(g, ops[..k]);
  }

  /** A node, and an edge from a node that is not there: the commit fails, the node stays. */
  lemma FailureLeavesNode(n: Node, e: Edge)
    requires n.id < MAX_U64 && e.id < MAX_U64 && e.source != n.id
    ensures var ops := [Transaction.InsertNode(n), Transaction.InsertEdge(e)];
            FreshInserts(ops, EMPTY_GRAPH) && KeepsOwnNodes(ops)
            && RunOps(EMPTY_GRAPH, ops) == (Graph(map[n.id := n], map[]), Some(e.source))
  {
    var ops := [Transaction.InsertNode(n), Transaction.InsertEdge(e)];
    assert ops[..0] == [] && ops[..2] == ops;
    RunOpsNext(EMPTY_GRAPH, ops, 0);
    RunOpsNext(EMPTY_GRAPH, ops, 1);
  }
}
