/** Whole runs of the database API, src/database/layered.rs, explained by the live graph alone. */
module Runs {
  import opened Core
  import opened GraphOps
  import opened CommitLog
  import opened CommitOutcome
  import opened CommitRun
  import opened CommitTrace
  import opened WalLog
  import opened Database
  import Codec
  import FileBacked
  import Memory
  import Transaction

  /** What a client stages, before ids are given out. */
  datatype Staging =
    | AddNode(lbl: string, props: Properties)
    | AddEdge(source: NodeId, target: NodeId, lbl: string, weight: F64, props: Properties)
    | DropNode(nodeId: NodeId)
    | DropEdge(edgeId: EdgeId)

  datatype Call =
    | InsertNode(lbl: string, props: Properties)
    | InsertEdge(source: NodeId, target: NodeId, lbl: string, weight: F64, props: Properties)
    | DeleteNode(nodeId: NodeId)
    | DeleteEdge(edgeId: EdgeId)
    | GetNode(nodeId: NodeId)
    | GetEdge(edgeId: EdgeId)
    | Compact
    | Commit(script: seq<Staging>)
    | Rollback(script: seq<Staging>)

  datatype Answer =
    | NewId(id: U64)
    | NoSuchNode(nodeId: NodeId)
    | FoundNode(node: Option<Node>)
    | FoundEdge(edge: Option<Edge>)
    | Done
    | Outcome(ops: Ops, result: Result<CommitResult, NodeId>)

  /** The operation is the staged one with some id for what it inserts. */
  ghost predicate Stages(op: Transaction.StagedOp, s: Staging) {
    match s
    case AddNode(l, p) => op.InsertNode? && op.node.lbl == l && op.node.properties == p
    case AddEdge(a, b, l, w, p) =>
      op.InsertEdge? && op.edge == Edge(op.edge.id, a, b, l, w, p)
    case DropNode(id) => op == Transaction.DeleteNode(id)
    case DropEdge(id) => op == Transaction.DeleteEdge(id)
  }

  ghost predicate StagesAll(ops: Ops, script: seq<Staging>) {
    |ops| == |script| && forall i :: 0 <= i < |ops| ==> Stages(ops[i], script[i])
  }

  /** What one call does to the graph and answers, with no cache, log, index or counter in sight. */
  ghost predicate Explained(g: Graph, c: Call, a: Answer, g': Graph) {
    match c
    case InsertNode(l, p) =>
      a.NewId? && a.id !in g.nodes && g' == g.(nodes := g.nodes[a.id := Node(a.id, l, p)])
    case InsertEdge(s, t, l, w, p) =>
      if s !in g.nodes then a == NoSuchNode(s) && g' == g
      else if t !in g.nodes then a == NoSuchNode(t) && g' == g
      else a.NewId? && a.id !in g.edges && g' == g.(edges := g.edges[a.id := Edge(a.id, s, t, l, w, p)])
    case DeleteNode(id) => a == Done && g' == WithoutNode(g, id)
    case DeleteEdge(id) => a == Done && g' == g.(edges := g.edges - {id})
    case GetNode(id) => a == FoundNode(Lookup(g.nodes, id)) && g' == g
    case GetEdge(id) => a == FoundEdge(Lookup(g.edges, id)) && g' == g
    case Compact => a == Done && g' == g
    case Commit(script) =>
      && a.Outcome? && StagesAll(a.ops, script) && FreshInserts(a.ops, g) && g' == RunOps(g, a.ops).0
      && a.result == (match RunOps(g, a.ops).1 case None => Ok(ResultOf(a.ops)) case Some(n) => Err(n))
    case Rollback(_) => a == Done && g' == g
  }

  /** The graphs a run goes through, one more than its calls. */
  ghost predicate IsHistory(gs: seq<Graph>, calls: seq<Call>, answers: seq<Answer>) {
    && |gs| == |answers| + 1 && |answers| <= |calls|
    && forall i :: 0 <= i < |answers| ==> Explained(gs[i], calls[i], answers[i], gs[i + 1])
  }

  lemma HistoryGrows(gs: seq<Graph>, calls: seq<Call>, answers: seq<Answer>, a: Answer, g': Graph)
    requires IsHistory(gs, calls, answers) && |answers| < |calls|
    requires Explained(gs[|gs| - 1], calls[|answers|], a, g')
    ensures IsHistory(gs + [g'], calls, answers + [a])
  {
    hide Explained;
  }

  /** Ids left for that many inserts of each kind. */
  predicate HasIds(db: Database, n: nat)
    reads db.idGenerator
  {
    db.idGenerator.nextNode + n <= MAX_U64 && db.idGenerator.nextEdge + n <= MAX_U64
  }

  /** How many edges the script adds. */
  function EdgeAdds(script: seq<Staging>): nat {
    if script == [] then 0
    else EdgeAdds(script[..|script| - 1]) + if script[|script| - 1].AddEdge? then 1 else 0
  }

  lemma {:induction false} EdgeAddsGrow(script: seq<Staging>, i: nat, j: nat)
    requires i <= j <= |script|
    ensures EdgeAdds(script[..i]) <= EdgeAdds(script[..j])
    decreases j
  {
    if i < j {
      assert script[..j][..j - 1] == script[..j - 1];
      EdgeAddsGrow(script, i, j - 1);
    }
  }

  /** The edges take the next ids in turn. */
  ghost predicate EdgeIds(ops: Ops, script: seq<Staging>, next: nat) {
    && |ops| <= |script|
    && forall i :: 0 <= i < |ops| && ops[i].InsertEdge? ==> ops[i].edge.id == next + EdgeAdds(script[..i])
  }

  lemma NothingStaged(next: nat, script: seq<Staging>)
    ensures StagesAll([], script[..0]) && EdgeIds([], script, next) && EdgeAdds(script[..0]) == 0
  {
  }

  lemma StagedNext(ops: Ops, op: Transaction.StagedOp, script: seq<Staging>, i: nat, next: nat)
    requires i < |script| && StagesAll(ops, script[..i]) && EdgeIds(ops, script, next) && Stages(op, script[i])
    requires op.InsertEdge? ==> op.edge.id == next + EdgeAdds(script[..i])
    ensures StagesAll(ops + [op], script[..i + 1]) && EdgeIds(ops + [op], script, next)
    ensures EdgeAdds(script[..i + 1]) == EdgeAdds(script[..i]) + if script[i].AddEdge? then 1 else 0
  {
    assert script[..i + 1][..i] == script[..i];
  }

  method Stage(db: Database, txnId: U64, script: seq<Staging>) returns (txn: Transaction.Transaction)
    requires db.Valid() && HasIds(db, |script|)
    ensures fresh(txn) && fresh(txn.idGen) && txn.Valid()
    ensures StagesAll(txn.operations, script) && FreshInserts(txn.operations, db.graph)
    ensures EdgeIds(txn.operations, script, txn.baseEdge)
    ensures txn.baseNode == db.idGenerator.nextNode && txn.baseEdge == db.idGenerator.nextEdge
  {
    hide Database.Valid, Database.Layers, FreshInserts, Transaction.StagedWithin, StagesAll, EdgeIds, EdgeAdds;
    NothingStaged(db.idGenerator.nextEdge, script);
    txn := db.BeginTransaction(txnId);
    for i := 0 to |script|
      invariant fresh(txn) && fresh(txn.idGen) && txn.Valid() && StagesAll(txn.operations, script[..i])
      invariant txn.baseNode == db.idGenerator.nextNode && txn.baseEdge == db.idGenerator.nextEdge
      invariant txn.idGen.nextNode <= txn.baseNode + i && txn.idGen.nextEdge <= txn.baseEdge + i
      invariant EdgeIds(txn.operations, script, txn.baseEdge)
      invariant txn.idGen.nextEdge == txn.baseEdge + EdgeAdds(script[..i])
    {
      ghost var ops := txn.operations;
      match script[i] {
        case AddNode(l, p) =>
          var _ := txn.StageInsertNode(l, p);
        case AddEdge(a, b, l, w, p) =>
          var _ := txn.StageInsertEdge(a, b, l, w, p);
        case DropNode(id) => txn.StageDelete(Transaction.DeleteNode(id));
        case DropEdge(id) => txn.StageDelete(Transaction.DeleteEdge(id));
      }
      StagedNext(ops, txn.operations[|ops|], script, i, txn.baseEdge);
    }
    assert script[..|script|] == script;
    FreshNow(db, txn);
  }

  lemma FreshNow(db: Database, txn: Transaction.Transaction)
    requires db.Valid() && txn.Valid()
    requires txn.baseNode == db.idGenerator.nextNode && txn.baseEdge == db.idGenerator.nextEdge
    ensures FreshInserts(txn.operations, db.graph)
  {
    hide Memory.Usable, FreshInserts, Transaction.StagedWithin;
    StagedFresh(db.Layers(), db.propertyIndex.fm, db.graph, txn.operations, txn.idGen.nextNode, txn.idGen.nextEdge);
  }

  /** How many ids of a kind a call can take. */
  function Takes(c: Call): nat {
    match c
    case InsertNode(_, _) => 1
    case InsertEdge(_, _, _, _, _) => 1
    case Commit(script) => |script|
    case Rollback(script) => |script|
    case _ => 0
  }

  /** How many records the script deletes. */
  function Drops(script: seq<Staging>): nat {
    if script == [] then 0
    else
      var last := script[|script| - 1];
      Drops(script[..|script| - 1]) + if last.DropNode? || last.DropEdge? then 1 else 0
  }

  /** The script deletes only nodes from before it, and only edges whose id it knows by then. */
  predicate DropsGiven(script: seq<Staging>, nextNode: nat, nextEdge: nat) {
    && (forall i :: 0 <= i < |script| && script[i].DropNode? ==> script[i].nodeId < nextNode)
    && (forall i :: 0 <= i < |script| && script[i].DropEdge? ==>
          script[i].edgeId < nextEdge + EdgeAdds(script[..i]))
  }

  /** What a caller can check before a commit, for a log with markers: only given ids are deleted,
      and no compaction falls due in the bracket. */
  predicate MayCommit(db: Database, script: seq<Staging>)
    reads db, db.idGenerator
  {
    db.storage.markers ==>
      && DropsGiven(script, db.idGenerator.nextNode, db.idGenerator.nextEdge)
      && (db.autoCompactAfterWrites.Some? ==>
            db.writesSinceCompact + Drops(script) < db.autoCompactAfterWrites.value)
  }

  /** Operations staged from such a script delete no node they insert, and insert no id an earlier
      one of them deletes. */
  lemma ScriptOps(ops: Ops, script: seq<Staging>, n0: nat, n1: nat, e0: nat, e1: nat)
    requires StagesAll(ops, script) && Transaction.StagedWithin(ops, n0, n1, e0, e1) && DropsGiven(script, n0, e0)
    requires EdgeIds(ops, script, e0)
    ensures KeepsOwnNodes(ops) && NoReuse(ops) && Deletions(ops) == Drops(script)
  {
    assert forall i :: 0 <= i < |ops| ==> Stages(ops[i], script[i]);
    forall i, j | 0 <= i < j < |ops| && ops[i].DeleteEdge? && ops[j].InsertEdge?
      ensures ops[i].edgeId != ops[j].edge.id
    {
      EdgeAddsGrow(script, i, j);
    }
    SameDrops(ops, script);
  }

  lemma {:induction false} SameDrops(ops: Ops, script: seq<Staging>)
    requires StagesAll(ops, script)
    ensures Deletions(ops) == Drops(script)
    decreases |ops|
  {
    if ops != [] {
      var n := |ops| - 1;
      assert Stages(ops[n], script[n]);
      SameDrops(ops[..n], script[..n]);
    }
  }

  /** A commit that was given up. */
  predicate GaveUp(a: Answer) {
    a.Outcome? && a.result.Err?
  }

  /** A commit after which a log with markers, or an index, may be out of step: it was given up, it
      deletes a node or loses an insert of its own, or a compaction fell due on the way. */
  ghost predicate Risky(a: Answer, writes: nat, settings: Settings) {
    a.Outcome? &&
    (a.result.Err? || !KeepsOwnNodes(a.ops) || LosesInsert(a.ops) || !NeverDue(writes, a.ops, settings))
  }

  // ---- What fits the file format ----

  ghost predicate StagingFits(s: Staging) {
    match s
    case AddNode(l, p) => Codec.Fits(UpsertNode(Node(0, l, p)))
    case AddEdge(a, b, l, w, p) => Codec.Fits(UpsertEdge(Edge(0, a, b, l, w, p)))
    case _ => true
  }

  /** The texts of what the call inserts fit the length fields of the binary log. */
  ghost predicate CallFits(c: Call) {
    match c
    case InsertNode(l, p) => StagingFits(AddNode(l, p))
    case InsertEdge(a, b, l, w, p) => StagingFits(AddEdge(a, b, l, w, p))
    case Commit(script) => forall i :: 0 <= i < |script| ==> StagingFits(script[i])
    case _ => true
  }

  ghost predicate KeepsFit(c: Call, log': seq<Record>, log: seq<Record>) {
    FileBacked.FitsLog(log) && CallFits(c) ==> FileBacked.FitsLog(log')
  }

  lemma StagedFits(ops: Ops, script: seq<Staging>)
    requires StagesAll(ops, script) && forall i :: 0 <= i < |script| ==> StagingFits(script[i])
    ensures forall op :: op in ops ==> FileBacked.OpFits(op)
  {
    forall op | op in ops ensures FileBacked.OpFits(op) {
      var i :| 0 <= i < |ops| && ops[i] == op;
      assert Stages(ops[i], script[i]) && StagingFits(script[i]);
    }
  }

  lemma CommitFits(c: Call, ops: Ops, log': seq<Record>, log: seq<Record>)
    requires c.Commit? && StagesAll(ops, c.script) && Grown(log', log, ops)
    ensures KeepsFit(c, log', log)
  {
    hide StagingFits, Grown;
    if FileBacked.FitsLog(log) && CallFits(c) {
      StagedFits(ops, c.script);
      FileBacked.GrownFits(log', log, ops);
    }
  }

  lemma InsertFits(c: Call, op: Transaction.StagedOp, log': seq<Record>, log: seq<Record>)
    requires Grown(log', log, [op]) && (CallFits(c) ==> FileBacked.OpFits(op))
    ensures KeepsFit(c, log', log)
  {
    hide Grown, CallFits, FileBacked.OpFits;
    if FileBacked.FitsLog(log) && CallFits(c) {
      FileBacked.GrownFits(log', log, [op]);
    }
  }

  // ---- Calls ----

  method CommitScript(db: Database, txnId: U64, c: Call) returns (a: Answer)
    requires db.Valid() && db.Durable() && HasIds(db, Takes(c)) && c.Commit?
    modifies db, db.engine, db.cache, db.storage, db.labelIndex, db.propertyIndex, db.idGenerator
    ensures db.Running() && Explained(old(db.graph), c, a, db.graph)
    ensures (db.Valid() && db.Durable()) || (db.storage.markers && Risky(a, old(db.writesSinceCompact), db.Limits()))
    ensures db.storage.markers && GaveUp(a) && NeverDue(old(db.writesSinceCompact), a.ops, db.Limits()) ==>
      Faithful(db.storage.log, old(db.graph))
    ensures db.storage.markers && old(MayCommit(db, c.script)) ==>
      && KeepsOwnNodes(a.ops) && !LosesInsert(a.ops)
      && NeverDue(old(db.writesSinceCompact), a.ops, db.Limits())
    ensures KeepsFit(c, db.storage.log, old(db.storage.log))
  {
    hide Database.Running, Database.Durable, Database.Layers, FreshInserts, StagesAll, EdgeIds, RunOps, ResultOf,
         Loaded, KeepsFit, Grown, CommitRun.Commit, LogIs, NeverDue, FirstDue, EffectAtEnd, LostWithoutTrace,
         Database.Shows, KeepsOwnNodes, NoReuse, DropsGiven, LosesInsert, LeavesDangling, Kept, Faithful,
         NoDangling, NeverDangles;
    var txn := Stage(db, txnId, c.script);
    if db.storage.markers && MayCommit(db, c.script) {
      StagedScript(db, txn, c.script);
      NoReuseKeeps(txn.operations);
    }
    var r, _ := db.CommitTransaction(txn);
    a := Outcome(txn.operations, r);
    CommitFits(c, txn.operations, db.storage.log, old(db.storage.log));
  }

  lemma StagedScript(db: Database, txn: Transaction.Transaction, script: seq<Staging>)
    requires txn.Valid() && StagesAll(txn.operations, script) && EdgeIds(txn.operations, script, txn.baseEdge)
    requires db.storage.markers && MayCommit(db, script)
    requires txn.baseNode == db.idGenerator.nextNode && txn.baseEdge == db.idGenerator.nextEdge
    ensures KeepsOwnNodes(txn.operations) && NoReuse(txn.operations)
    ensures NeverDue(db.writesSinceCompact, txn.operations, db.Limits())
  {
    hide KeepsOwnNodes, NoReuse, DropsGiven, StagesAll, EdgeIds, Transaction.StagedWithin;
    ScriptOps(txn.operations, script, txn.baseNode, txn.idGen.nextNode, txn.baseEdge, txn.idGen.nextEdge);
    RoomIsNeverDue(db.writesSinceCompact, txn.operations, db.Limits());
  }

  method RollbackScript(db: Database, txnId: U64, c: Call) returns (a: Answer)
    requires db.Valid() && db.Durable() && HasIds(db, Takes(c)) && c.Rollback?
    modifies db.idGenerator
    ensures db.Valid() && db.Durable() && Explained(db.graph, c, a, db.graph)
  {
    hide Database.Running, Database.Durable, Database.Layers, FreshInserts, StagesAll, EdgeIds;
    var txn := Stage(db, txnId, c.script);
    db.RollbackTransaction(txn);
    a := Done;
  }

  method Insert(db: Database, c: Call) returns (a: Answer)
    requires db.Valid() && db.Durable() && HasIds(db, Takes(c)) && (c.InsertNode? || c.InsertEdge?)
    modifies db, db.engine, db.cache, db.storage, db.labelIndex, db.propertyIndex, db.idGenerator
    ensures db.Valid() && db.Durable() && Explained(old(db.graph), c, a, db.graph)
    ensures KeepsFit(c, db.storage.log, old(db.storage.log))
  {
    hide Database.Valid, Database.Durable, Database.Layers, Grown, KeepsFit;
    match c {
      case InsertNode(l, p) =>
        var id := db.InsertNode(l, p);
        a := NewId(id);
        InsertFits(c, Transaction.InsertNode(Node(id, l, p)), db.storage.log, old(db.storage.log));
      case InsertEdge(s, t, l, w, p) =>
        var r := db.InsertEdge(s, t, l, w, p);
        if r.Ok? {
          InsertFits(c, Transaction.InsertEdge(Edge(r.value, s, t, l, w, p)), db.storage.log, old(db.storage.log));
          a := NewId(r.value);
        } else {
          SameFits(c, db.storage.log);
          a := NoSuchNode(r.error);
        }
    }
  }

  method Delete(db: Database, c: Call) returns (a: Answer)
    requires db.Valid() && db.Durable() && (c.DeleteNode? || c.DeleteEdge?)
    modifies db, db.engine, db.cache, db.storage, db.labelIndex, db.propertyIndex, db.idGenerator
    ensures db.Valid() && db.Durable() && Explained(old(db.graph), c, a, db.graph)
    ensures KeepsFit(c, db.storage.log, old(db.storage.log))
  {
    hide Database.Running, Database.Durable, Database.Layers, Database.Counted, Database.Misses, WithoutNode, IsCascade,
         Grown, KeepsFit, Faithful;
    a := Done;
    match c {
      case DeleteNode(id) =>
        DurableReads(db, id);
        ghost var tombstones := db.DeleteNode(id);
        ghost var rs := tombstones + [Record.DeleteNode(id)];
        assert old(db.storage.log) + rs == old(db.storage.log) + tombstones + [Record.DeleteNode(id)];
        CascadeWritten(old(db.graph), tombstones, id);
        db.CountedGrows(old(db.storage.log), rs, old(db.CompactionDue()), old(db.graph), Transaction.DeleteNode(id));
        InsertFits(c, Transaction.DeleteNode(id), db.storage.log, old(db.storage.log));
      case DeleteEdge(id) =>
        db.DeleteEdge(id);
        db.CountedGrows(old(db.storage.log), [Record.DeleteEdge(id)], old(db.CompactionDue()), old(db.graph),
                        Transaction.DeleteEdge(id));
        InsertFits(c, Transaction.DeleteEdge(id), db.storage.log, old(db.storage.log));
    }
  }

  lemma CascadeWritten(g: Graph, tombstones: seq<Record>, id: NodeId)
    requires IsCascade(g, tombstones, id)
    ensures WrittenBy(tombstones + [Record.DeleteNode(id)], g, Transaction.DeleteNode(id))
  {
    var rs := tombstones + [Record.DeleteNode(id)];
    assert rs[..|rs| - 1] == tombstones;
  }

  lemma SameFits(c: Call, log: seq<Record>)
    ensures KeepsFit(c, log, log)
  {
  }

  lemma CompactFits(c: Call, log': seq<Record>, log: seq<Record>)
    requires IsCompaction(log', log)
    ensures KeepsFit(c, log', log)
  {
    hide IsCompaction;
    CompactionGrows(log', log);
    if FileBacked.FitsLog(log) {
      FileBacked.GrownFits(log', log, []);
    }
  }

  method Perform(db: Database, txnId: U64, c: Call) returns (a: Answer)
    requires db.Valid() && db.Durable() && HasIds(db, Takes(c))
    modifies db, db.engine, db.cache, db.storage, db.labelIndex, db.propertyIndex, db.idGenerator
    ensures db.Running() && Explained(old(db.graph), c, a, db.graph)
    ensures (db.Valid() && db.Durable()) || (db.storage.markers && Risky(a, old(db.writesSinceCompact), db.Limits()))
    ensures db.storage.markers && GaveUp(a) && NeverDue(old(db.writesSinceCompact), a.ops, db.Limits()) ==>
      Faithful(db.storage.log, old(db.graph))
    ensures !c.Commit? || (db.storage.markers ==> !GaveUp(a) && old(MayCommit(db, c.script))) ==>
      db.Valid() && db.Durable()
    ensures KeepsFit(c, db.storage.log, old(db.storage.log))
  {
    hide Database.Running, Database.Durable, Database.Layers, FreshInserts, StagesAll, RunOps, ResultOf, IsCascade,
         IsCompaction, Faithful, MayCommit, KeepsFit, WithoutNode, NeverDangles, NoDangling, NeverDue, LosesInsert,
         KeepsOwnNodes;
    SameFits(c, db.storage.log);
    match c {
      case GetNode(id) =>
        var n := db.GetNode(id);
        a := FoundNode(n);
      case GetEdge(id) =>
        var e := db.GetEdge(id);
        a := FoundEdge(e);
      case Compact =>
        db.Compact();
        CompactFits(c, db.storage.log, old(db.storage.log));
        a := Done;
      case Commit(_) => a := CommitScript(db, txnId, c);
      case Rollback(_) => a := RollbackScript(db, txnId, c);
      case DeleteNode(_) => a := Delete(db, c);
      case DeleteEdge(_) => a := Delete(db, c);
      case _ => a := Insert(db, c);
    }
  }

  lemma DurableReads(db: Database, id: NodeId)
    requires db.Valid() && db.Durable()
    ensures db.ServesIndexed(id) && !db.Misses(id)
  {
  }

  /** The last of the answers is to a commit that a log with markers may not keep up with. */
  ghost predicate RiskyLast(markers: bool, answers: seq<Answer>, writes: nat, settings: Settings) {
    markers && answers != [] && Risky(answers[|answers| - 1], writes, settings)
  }

  /** Every run of calls keeps all layers in step with one graph and answers as that graph alone
      explains, whatever the capacities of the cache and the compaction threshold, with markers or
      without. It goes on until the calls end, the ids run out or, with markers, after a commit that is
      given up or that the caller could not vouch for (`stopped`). The database is valid and the log up
      to date unless the last call was a risky commit; `writes` is the write counter before it. After a
      commit given up with no compaction on the way, the log stands for the graph from before it. */
  method Run(db: Database, txnIds: seq<U64>, calls: seq<Call>)
    returns (answers: seq<Answer>, stopped: bool, ghost gs: seq<Graph>, ghost writes: nat)
    requires db.Valid() && db.Durable() && |txnIds| == |calls|
    modifies db, db.engine, db.cache, db.storage, db.labelIndex, db.propertyIndex, db.idGenerator
    ensures db.Running()
    ensures IsHistory(gs, calls, answers) && gs[0] == old(db.graph) && gs[|gs| - 1] == db.graph
    ensures (db.Valid() && db.Durable()) || RiskyLast(db.storage.markers, answers, writes, db.Limits())
    ensures stopped ==> db.storage.markers && answers != [] && calls[|answers| - 1].Commit?
    ensures stopped && GaveUp(answers[|answers| - 1])
            && NeverDue(writes, answers[|answers| - 1].ops, db.Limits()) ==>
      Faithful(db.storage.log, gs[|gs| - 2])
    ensures |answers| < |calls| && !stopped ==> !HasIds(db, Takes(calls[|answers|]))
    ensures FileBacked.FitsLog(old(db.storage.log)) && (forall c :: c in calls ==> CallFits(c)) ==>
      FileBacked.FitsLog(db.storage.log)
  {
    hide Database.Running, Database.Durable, Explained, HasIds, MayCommit, Risky, NeverDue, Faithful, CallFits,
         FileBacked.FitsLog;
    answers, gs, stopped, writes := [], [db.graph], false, 0;
    while |answers| < |calls| && !stopped && HasIds(db, Takes(calls[|answers|]))
      invariant db.Running()
      invariant !stopped ==> db.Valid() && db.Durable()
      invariant IsHistory(gs, calls, answers) && gs[0] == old(db.graph) && gs[|gs| - 1] == db.graph
      invariant (db.Valid() && db.Durable()) || RiskyLast(db.storage.markers, answers, writes, db.Limits())
      invariant stopped ==> db.storage.markers && answers != [] && calls[|answers| - 1].Commit?
      invariant stopped && GaveUp(answers[|answers| - 1])
                && NeverDue(writes, answers[|answers| - 1].ops, db.Limits()) ==>
        Faithful(db.storage.log, gs[|gs| - 2])
      invariant FileBacked.FitsLog(old(db.storage.log)) && (forall c :: c in calls ==> CallFits(c)) ==>
        FileBacked.FitsLog(db.storage.log)
      decreases |calls| - |answers|
    {
      var c := calls[|answers|];
      var safe := !c.Commit? || MayCommit(db, c.script);
      writes := db.writesSinceCompact;
      var a := Perform(db, txnIds[|answers|], c);
      HistoryGrows(gs, calls, answers, a, db.graph);
      answers := answers + [a];
      gs := gs + [db.graph];
      stopped := c.Commit? && db.storage.markers && (GaveUp(a) || !safe);
    }
  }
}
