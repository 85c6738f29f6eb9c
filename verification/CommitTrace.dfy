/** How the log follows a commit, record by record: src/database/layered.rs and
    src/adapters/storage/binary_file.rs together. */
module CommitTrace {
  import opened Core
  import opened WalLog
  import opened GraphOps
  import opened CommitLog
  import opened CommitOutcome
  import opened CommitRun
  import Transaction

  /** The log loads what the session says it does. While the bracket is open, its records `rs` are
      those of the operations so far on `g0`, which the log `base` before it loads. */
  ghost predicate Follows(log: seq<Record>, s: Session, base: seq<Record>, t: U64, rs: seq<Record>, g0: Graph,
                          ops: Ops) {
    && Loaded(log) == s.logged && (NeverDangles(log) <==> s.clean)
    && if s.bracket then log == base + [BeginTxn(t)] + rs && Tracks(rs, g0, ops, s.live) else Closed(log)
  }

  /** The log `log'` after a write that left `log`, compacted if that was due. */
  ghost predicate AfterWrite(log': seq<Record>, log: seq<Record>, due: bool) {
    if due then IsCompaction(log', log) else log' == log
  }

  /** A compaction never dangles exactly when what it holds does not. */
  lemma CompactedLog(compact: seq<Record>, log: seq<Record>)
    requires IsCompaction(compact, log)
    ensures Replay(compact) == LogState(Loaded(log), None)
    ensures NeverDangles(compact) <==> NoDangling(Loaded(log))
  {
    hide Run, IsCompaction, NeverDangles, NoDangling;
    CompactionReplays(compact, log);
    if NoDangling(Loaded(log)) {
      NeverDanglesCompact(compact, log);
    } else {
      DanglesWhole(compact);
    }
  }

  // ---- Outside a bracket ----

  lemma WrittenLogs(rs: seq<Record>, logged: Graph, live: Graph, op: Transaction.StagedOp)
    requires WrittenBy(rs, live, op)
    ensures AllData(rs) && Sequential(logged, rs) == LogOp(logged, live, op)
  {
    if op.DeleteNode? {
      var n := |rs| - 1;
      CascadeDeletes(live, rs[..n], op.nodeId);
      hide IsCascade, DeletedEdges, EdgesAt;
      SequentialEdgeDeletes(logged, rs[..n]);
      assert rs == rs[..n] + [rs[n]];
    } else {
      assert rs[..0] == [];
    }
  }

  lemma PrefixNeverDangles(log: seq<Record>, rs: seq<Record>)
    requires NeverDangles(log + rs)
    ensures NeverDangles(log) && NoDangling(Loaded(log)) && NoDangling(Loaded(log + rs))
  {
    forall k | 0 <= k <= |log| ensures NoDangling(Loaded(log[..k])) {
      assert (log + rs)[..k] == log[..k];
    }
    assert log[..|log|] == log && (log + rs)[..|log + rs|] == log + rs;
  }

  lemma EdgeDeletesFirst(rs: seq<Record>, live: Graph, op: Transaction.StagedOp)
    requires WrittenBy(rs, live, op)
    ensures rs != [] && EdgeDeletes(rs[..|rs| - 1])
  {
  }

  lemma StaysClean(log: seq<Record>, rs: seq<Record>, live: Graph, op: Transaction.StagedOp)
    requires Closed(log) && WrittenBy(rs, live, op) && NeverDangles(log) && NoDangling(Loaded(log + rs))
    ensures NeverDangles(log + rs)
  {
    hide Run, NeverDangles, NoDangling, WrittenBy, EdgeDeletes;
    EdgeDeletesFirst(rs, live, op);
    var n := |rs| - 1;
    var init, last := rs[..n], rs[n];
    NeverDanglesCascade(log, init);
    assert (log + init) + [last] == log + rs;
    NeverDanglesAppend(log + init, last);
  }

  lemma OperationLogged(log: seq<Record>, rs: seq<Record>, live: Graph, op: Transaction.StagedOp)
    requires Closed(log) && WrittenBy(rs, live, op)
    ensures Replay(log + rs) == LogState(LogOp(Loaded(log), live, op), None)
    ensures NeverDangles(log + rs) <==> NeverDangles(log) && NoDangling(LogOp(Loaded(log), live, op))
  {
    hide Run, NeverDangles, NoDangling, WrittenBy, LogOp;
    WrittenLogs(rs, Loaded(log), live, op);
    AppendClosed(log, rs);
    if NeverDangles(log + rs) {
      PrefixNeverDangles(log, rs);
    } else if NeverDangles(log) && NoDangling(Loaded(log + rs)) {
      StaysClean(log, rs, live, op);
    }
  }

  // ---- Steps ----

  lemma BracketLoads(base: seq<Record>, t: U64, rs: seq<Record>, g0: Graph)
    requires Faithful(base, g0) && AllData(rs)
    ensures Loaded(base + [BeginTxn(t)] + rs) == g0 && NeverDangles(base + [BeginTxn(t)] + rs)
  {
    NeverDanglesBracket(base, t, rs);
  }

  lemma FollowsBegin(base: seq<Record>, t: U64, g0: Graph, markers: bool, writes: nat, cached: Recent)
    requires Faithful(base, g0)
    ensures Follows(if markers then base + [BeginTxn(t)] else base, Begun(g0, markers, writes, cached),
                    base, t, [], g0, [])
  {
    hide Run, NeverDangles;
    NothingDone(g0);
    BracketLoads(base, t, [], g0);
    assert base + [BeginTxn(t)] + [] == base + [BeginTxn(t)];
  }

  lemma FollowsNext(log: seq<Record>, log': seq<Record>, s: Session, base: seq<Record>, t: U64, rs: seq<Record>,
                    g0: Graph, ops: Ops, op: Transaction.StagedOp, more: seq<Record>, settings: Settings)
    requires Faithful(base, g0) && Follows(log, s, base, t, rs, g0, ops)
    requires ApplyOp(s.live, op).Ok? && WrittenBy(more, s.live, op)
    requires op.InsertEdge? ==> op.edge.id !in g0.edges && !InsertsEdge(ops, op.edge.id)
    requires AfterWrite(log', log + more, Due(s, op, settings))
    ensures Follows(log', Carry(s, op, settings), base, t, rs + more, g0, ops + [op])
  {
    hide Run, NeverDangles, NoDangling, Tracks, WrittenBy, ApplyOp, LogOp, Due, CachedAfter, IndexedAfter, InsertsEdge,
         IsCompaction;
    if Due(s, op, settings) {
      CompactedLog(log', log + more);
    }
    if s.bracket {
      TracksNext(rs, g0, ops, s.live, op, more);
      TracksData(rs, g0, ops, s.live);
      TracksData(rs + more, g0, ops + [op], ApplyOp(s.live, op).value);
      BracketLoads(base, t, rs, g0);
      BracketLoads(base, t, rs + more, g0);
      assert base + [BeginTxn(t)] + rs + more == base + [BeginTxn(t)] + (rs + more);
    } else {
      OperationLogged(log, more, s.live, op);
    }
  }

  /** What the record that ends the bracket, if markers are written, makes of the log. */
  lemma FollowsEnd(log: seq<Record>, log': seq<Record>, s: Session, base: seq<Record>, t: U64, rs: seq<Record>,
                   g0: Graph, ops: Ops, committed: bool)
    requires Faithful(base, g0) && Follows(log, s, base, t, rs, g0, ops) && NoDangling(s.live)
    requires log' == log + [if committed then CommitTxn(t) else RollbackTxn(t)] || (!s.bracket && log' == log)
    ensures var logged := if s.bracket && committed then Kept(ops, s.live) else s.logged;
            Replay(log') == LogState(logged, None) && (NeverDangles(log') <==> s.clean && NoDangling(logged))
    ensures s.clean ==> NoDangling(s.logged)
  {
    hide NeverDangles, NoDangling, Tracks, Kept;
    CleanLoads(log);
    if s.bracket {
      hide Run;
      TracksData(rs, g0, ops, s.live);
      BracketLoads(base, t, rs, g0);
      if committed {
        CommitReplays(base, t, rs, ops, s.live);
        CommitDurable(base, t, rs, g0, ops, s.live);
        KeptDangles(ops, s.live);
      } else {
        AbortDurable(base, t, rs, g0);
        FaithfulClean(log', g0);
      }
    } else if log' != log {
      ReplayAppend(log, log'[|log|]);
      MarkerOutside(log, log'[|log|]);
    }
  }

  lemma FaithfulClean(log: seq<Record>, g: Graph)
    requires Faithful(log, g)
    ensures NeverDangles(log) && NoDangling(g)
  {
    CleanLoads(log);
  }

  lemma CleanLoads(log: seq<Record>)
    ensures NeverDangles(log) ==> NoDangling(Loaded(log))
  {
    assert log[..|log|] == log;
  }

  lemma MarkerOutside(log: seq<Record>, r: Record)
    requires Closed(log) && (r.CommitTxn? || r.RollbackTxn?)
    ensures NeverDangles(log + [r]) <==> NeverDangles(log) && NoDangling(Loaded(log))
  {
    ReplayAppend(log, r);
    if NeverDangles(log) {
      CleanLoads(log);
      NeverDanglesAppend(log, r);
    } else if NeverDangles(log + [r]) {
      PrefixNeverDangles(log, [r]);
    }
  }

  // ---- What a log holds ----

  /** The record inserts what one of the operations does. */
  predicate InsertedBy(r: Record, ops: Ops) {
    (r.UpsertNode? && Transaction.InsertNode(r.node) in ops) || (r.UpsertEdge? && Transaction.InsertEdge(r.edge) in ops)
  }

  /** Every upsert in the new log was in the old one or is that of an operation. */
  ghost predicate Grown(log': seq<Record>, log: seq<Record>, ops: Ops) {
    forall r :: r in log' && (r.UpsertNode? || r.UpsertEdge?) ==> r in log || InsertedBy(r, ops)
  }

  lemma GrownNext(log'': seq<Record>, log': seq<Record>, log: seq<Record>, ops: Ops, op: Transaction.StagedOp)
    requires Grown(log', log, ops) && Grown(log'', log', [op])
    ensures Grown(log'', log, ops + [op])
  {
    forall r | r in log'' && (r.UpsertNode? || r.UpsertEdge?) ensures r in log || InsertedBy(r, ops + [op]) {
      assert r in log' || InsertedBy(r, [op]);
    }
  }

  lemma GrownByMore(log': seq<Record>, log: seq<Record>, ops: Ops, k: nat)
    requires k <= |ops| && Grown(log', log, ops[..k])
    ensures Grown(log', log, ops)
  {
    forall r | r in log' && (r.UpsertNode? || r.UpsertEdge?) ensures r in log || InsertedBy(r, ops) {
      assert r in log || InsertedBy(r, ops[..k]);
    }
  }

  lemma CompactionGrows(compact: seq<Record>, log: seq<Record>)
    requires IsCompaction(compact, log)
    ensures Grown(compact, log, [])
  {
    hide IsCompaction, Run;
    CompactionContent(compact, log);
    LiveFromLog(log);
  }

  /** A counted write that appends the records of one operation. */
  lemma WrittenGrows(log': seq<Record>, log: seq<Record>, rs: seq<Record>, due: bool, g: Graph,
                     op: Transaction.StagedOp)
    requires AfterWrite(log', log + rs, due) && WrittenBy(rs, g, op)
    ensures Grown(log', log, [op])
  {
    hide IsCompaction;
    WrittenUpserts(rs, g, op);
    if due {
      CompactionGrows(log', log + rs);
    }
  }

  lemma WrittenUpserts(rs: seq<Record>, g: Graph, op: Transaction.StagedOp)
    requires WrittenBy(rs, g, op)
    ensures forall r :: r in rs && (r.UpsertNode? || r.UpsertEdge?) ==> InsertedBy(r, [op])
  {
    if op.DeleteNode? {
      assert rs == rs[..|rs| - 1] + [rs[|rs| - 1]];
    } else if op.InsertNode? || op.InsertEdge? {
      assert op in [op];
    }
  }

  /** A marker at the end, and after it perhaps a compaction. */
  lemma MarkerGrows(log'': seq<Record>, log': seq<Record>, log: seq<Record>, base: seq<Record>, ops: Ops, due: bool)
    requires Grown(log, base, ops) && AfterWrite(log'', log', due)
    requires log' == log || (log' != [] && log' == log + [log'[|log'| - 1]] && !log'[|log'| - 1].Data?())
    ensures Grown(log'', base, ops)
  {
    hide IsCompaction, InsertedBy;
    assert Grown(log', base, ops);
    if due {
      CompactionGrows(log'', log');
      forall r | r in log'' && (r.UpsertNode? || r.UpsertEdge?) ensures r in base || InsertedBy(r, ops) {
        assert r in log' || InsertedBy(r, []);
        assert !InsertedBy(r, []) by { NotByNone(r); }
      }
    }
  }

  lemma NothingGrown(log: seq<Record>, r: Record)
    ensures Grown(log, log, []) && (!r.Data?() ==> Grown(log + [r], log, []))
  {
  }

  lemma NotByNone(r: Record)
    ensures !InsertedBy(r, [])
  {
  }

  // ---- Ids ----

  /** Indexed and logged nodes were there before or inserted since, and agree where both hold one. */
  ghost predicate Known(s: Session, g0: Graph, ops: Ops) {
    && (forall id :: id in s.indexed ==> id in g0.nodes || InsertsNode(ops, id))
    && (forall id :: id in s.logged.nodes ==> id in g0.nodes || InsertsNode(ops, id))
    && (forall id :: id in s.indexed && id in s.logged.nodes ==> s.indexed[id] == s.logged.nodes[id])
  }

  lemma KnownAtFirst(g: Graph, markers: bool, writes: nat, cached: Recent)
    ensures Known(Begun(g, markers, writes, cached), g, [])
  {
  }

  lemma KnownNext(s: Session, g0: Graph, ops: Ops, op: Transaction.StagedOp, settings: Settings)
    requires Known(s, g0, ops) && ApplyOp(s.live, op).Ok?
    requires op.InsertNode? ==> op.node.id !in g0.nodes && !InsertsNode(ops, op.node.id)
    ensures Known(Carry(s, op, settings), g0, ops + [op])
  {
    InsertedSoFar(ops, op);
    hide InsertsNode, InsertsEdge, NoDangling;
  }

  // ---- The end ----

  /** The log, closed, stands as the session says. */
  ghost predicate LogIs(log: seq<Record>, t: Session) {
    Replay(log) == LogState(t.logged, None) && (NeverDangles(log) <==> t.clean)
  }

  lemma EndsCommitted(log: seq<Record>, log': seq<Record>, s: Session, ops: Ops, settings: Settings, due: bool)
    requires var logged := if s.bracket then Kept(ops, s.live) else s.logged;
             Replay(log) == LogState(logged, None) && (NeverDangles(log) <==> s.clean && NoDangling(logged))
    requires AfterWrite(log', log, due)
    requires due <==>
      settings.autoCompactAfterWrites.Some? && s.writes + 1 >= settings.autoCompactAfterWrites.value
    ensures LogIs(log', Settle(s, ops, true, settings))
  {
    hide Run, NeverDangles, NoDangling, Kept, IsCompaction;
    if due {
      CompactedLog(log', log);
    }
  }

  lemma EndsFailed(log: seq<Record>, s: Session, ops: Ops, settings: Settings)
    requires Replay(log) == LogState(s.logged, None) && (NeverDangles(log) <==> s.clean && NoDangling(s.logged))
    requires s.clean ==> NoDangling(s.logged)
    ensures LogIs(log, Settle(s, ops, false, settings))
  {
    hide Run, NeverDangles, NoDangling;
  }

  /** Without markers no bracket is ever open. */
  lemma {:induction false} BracketNeeds(s: Session, ops: Ops, settings: Settings)
    ensures Carried(s, ops, settings).bracket ==> s.bracket
    decreases |ops|
  {
    if ops != [] {
      BracketNeeds(s, ops[..|ops| - 1], settings);
    }
  }

  lemma BracketWritten(log: seq<Record>, s0: Session, s: Session, base: seq<Record>, t: U64, rs: seq<Record>, g0: Graph,
                       done: Ops, ops: Ops, settings: Settings, last: Record)
    requires s0.bracket && NeverDue(s0.writes, ops, settings) && s == Carried(s0, ops, settings)
    requires Faithful(base, g0) && Follows(log, s, base, t, rs, g0, done)
    ensures EffectAtEnd(log + [last], base, g0)
  {
    hide Faithful, Tracks, EffectAtEnd;
    BracketStays(s0, ops, settings);
    TracksData(rs, g0, done, s.live);
    BracketAtEnd(base, t, rs, last, g0);
  }

  lemma LogIsFaithful(log: seq<Record>, t: Session, g: Graph)
    requires LogIs(log, t)
    ensures Loaded(log) == t.logged && (Faithful(log, g) <==> t.logged == g && t.clean)
  {
  }

  /** With no compaction on the way: which commits leave the log behind, and which leave a dangling
      edge in it. */
  lemma MarkedCommit(log: seq<Record>, g: Graph, writes: nat, cached: Recent, ops: Ops, settings: Settings)
    requires LogIs(log, Commit(Begun(g, true, writes, cached), ops, settings)) && NeverDue(writes, ops, settings)
    requires RunOps(g, ops).1.None? && FreshInserts(ops, g) && NoDangling(RunOps(g, ops).0)
    ensures var end := RunOps(g, ops).0;
            && Loaded(log) == Kept(ops, end)
            && (Faithful(log, end) <==> !LosesInsert(ops))
            && (NeverDangles(log) <==> !LeavesDangling(ops))
            && (NoDangling(Loaded(log)) <==> !LeavesDangling(ops))
  {
    hide Run, RunOps, NeverDangles, NoDangling, Kept, LosesInsert, LeavesDangling, EndsKept, DeletesStick;
    var t, end := Commit(Begun(g, true, writes, cached), ops, settings), RunOps(g, ops).0;
    CommitKeeps(g, writes, cached, ops, settings);
    LogIsFaithful(log, t, end);
    KeptIsWhole(ops, end);
    KeptDangles(ops, end);
    DeletesStickExactly(g, ops);
    EndsKeptExactly(g, ops);
  }

  lemma MarkedFailure(log: seq<Record>, g: Graph, writes: nat, cached: Recent, ops: Ops, settings: Settings)
    requires LogIs(log, Commit(Begun(g, true, writes, cached), ops, settings)) && NeverDue(writes, ops, settings)
    requires RunOps(g, ops).1.Some?
    ensures Faithful(log, g)
  {
    hide Run, RunOps, NeverDangles, NoDangling;
    FailedCommitKeeps(g, writes, cached, ops, settings);
    LogIsFaithful(log, Commit(Begun(g, true, writes, cached), ops, settings), g);
  }

  lemma IndexesFollow(g: Graph, markers: bool, writes: nat, cached: Recent, ops: Ops, settings: Settings)
    requires KeepsOwnNodes(ops)
    ensures var t := Commit(Begun(g, markers, writes, cached), ops, settings);
            t.indexed == t.live.nodes
  {
    NoReadMisses(Begun(g, markers, writes, cached), ops, settings);
  }
}
