/** What a commit does to the log, the node cache and the indexes, compactions that fall due inside
    its bracket included: src/database/layered.rs and src/adapters/storage/binary_file.rs together. */
module CommitRun {
  import opened Core
  import opened WalLog
  import opened GraphOps
  import opened CommitLog
  import opened CommitOutcome
  import opened Memory
  import LruCache
  import Transaction

  type Recent = LruCache.Recency<Node>

  const NOTHING_CACHED: Recent := LruCache.Recency([], map[])

  datatype Settings = Settings(autoCompactAfterWrites: Option<nat>, nodeCapacity: nat)

  /** The running database beside its log: the live graph, what the log loads and whether it never
      dangles, whether the bracket is still open, the writes counted since the last compaction, the
      cached nodes and the nodes the indexes list. */
  datatype Session = Session(
    live: Graph, logged: Graph, clean: bool, bracket: bool, writes: nat, cached: Recent, indexed: map<NodeId, Node>)

  /** A read that finds the node puts it at the end of the recency list. */
  function AfterRead(cached: Recent, capacity: nat, id: NodeId, stored: Option<Node>): Recent {
    if id in cached.contents then cached.Touch(id)
    else if stored.Some? then cached.Put(capacity, id, stored.value)
    else cached
  }

  predicate Finds(s: Session, id: NodeId) {
    id in s.cached.contents || id in s.logged.nodes
  }

  /** What the records of an operation do to the graph a log loads, outside a bracket. The edges of
      a deleted node are those of the live graph. */
  function LogOp(logged: Graph, live: Graph, op: Transaction.StagedOp): Graph {
    match op
    case InsertNode(n) => logged.(nodes := logged.nodes[n.id := n])
    case InsertEdge(e) => logged.(edges := logged.edges[e.id := e])
    case DeleteEdge(id) => logged.(edges := logged.edges - {id})
    case DeleteNode(id) =>
      Graph(logged.nodes - {id}, logged.edges - EdgesAt(live, id))
  }

  predicate Due(s: Session, op: Transaction.StagedOp, settings: Settings) {
    var limit := settings.autoCompactAfterWrites;
    IsDelete(op) && limit.Some? && s.writes + 1 >= limit.value
  }

  function CachedAfter(s: Session, op: Transaction.StagedOp, capacity: nat): Recent {
    match op
    case InsertNode(n) => s.cached.Put(capacity, n.id, n)
    case DeleteNode(id) => AfterRead(s.cached, capacity, id, Lookup(s.logged.nodes, id)).Invalidate(id)
    case _ => s.cached
  }

  /** The indexes let go of a deleted node only when the read before the deletion finds it. */
  function IndexedAfter(s: Session, op: Transaction.StagedOp): map<NodeId, Node> {
    match op
    case InsertNode(n) => s.indexed[n.id := n]
    case DeleteNode(id) => if Finds(s, id) then s.indexed - {id} else s.indexed
    case _ => s.indexed
  }

  /** Carrying out one operation. A compaction that falls due writes what the log loads, and with it
      the bracket is gone: later records are written outside any. */
  ghost function Carry(s: Session, op: Transaction.StagedOp, settings: Settings): Session
    requires ApplyOp(s.live, op).Ok?
  {
    var live := ApplyOp(s.live, op).value;
    var logged := if s.bracket then s.logged else LogOp(s.logged, s.live, op);
    if Due(s, op, settings) then
      Session(live, logged, NoDangling(logged), false, 0, NOTHING_CACHED, IndexedAfter(s, op))
    else
      Session(live, logged, s.clean && (s.bracket || NoDangling(logged)), s.bracket,
              s.writes + (if IsDelete(op) then 1 else 0), CachedAfter(s, op, settings.nodeCapacity),
              IndexedAfter(s, op))
  }

  lemma CarryLive(s: Session, op: Transaction.StagedOp, settings: Settings)
    requires ApplyOp(s.live, op).Ok?
    ensures Carry(s, op, settings).live == ApplyOp(s.live, op).value
  {
  }

  /** The operations in order, up to the first edge without an endpoint. */
  ghost function Carried(s: Session, ops: Ops, settings: Settings): (r: Session)
    ensures r.live == RunOps(s.live, ops).0
  {
    if ops == [] then s
    else
      var s' := Carried(s, ops[..|ops| - 1], settings);
      if RunOps(s.live, ops).1.Some? then s' else Carry(s', ops[|ops| - 1], settings)
  }

  /** The last record of the bracket, and after a COMMIT the write it counts as. */
  ghost function Settle(s: Session, ops: Ops, committed: bool, settings: Settings): Session {
    if !committed then s.(bracket := false)
    else
      var limit := settings.autoCompactAfterWrites;
      var logged := if s.bracket then Kept(ops, s.live) else s.logged;
      if limit.Some? && s.writes + 1 >= limit.value then
        Session(s.live, logged, NoDangling(logged), false, 0, NOTHING_CACHED, s.indexed)
      else
        Session(s.live, logged, s.clean && NoDangling(logged), false, s.writes + 1, s.cached, s.indexed)
  }

  /** A database whose log is up to date, as a commit begins. */
  function Begun(g: Graph, markers: bool, writes: nat, cached: Recent): Session {
    Session(g, g, true, markers, writes, cached, g.nodes)
  }

  ghost function Commit(s: Session, ops: Ops, settings: Settings): Session {
    Settle(Carried(s, ops, settings), ops, RunOps(s.live, ops).1.None?, settings)
  }

  lemma CarriedNext(s: Session, ops: Ops, k: nat, settings: Settings)
    requires k < |ops| && RunOps(s.live, ops[..k + 1]).1.None?
    ensures RunOps(s.live, ops[..k]).1.None? && ApplyOp(RunOps(s.live, ops[..k]).0, ops[k]).Ok?
    ensures Carried(s, ops[..k + 1], settings) == Carry(Carried(s, ops[..k], settings), ops[k], settings)
  {
    assert ops[..k + 1][..k] == ops[..k];
  }

  /** A failed prefix decides the outcome. */
  lemma {:induction false} CarriedStops(s: Session, ops: Ops, k: nat, settings: Settings)
    requires k < |ops| && RunOps(s.live, ops[..k]).1.None? && RunOps(s.live, ops[..k + 1]).1.Some?
    ensures Carried(s, ops, settings) == Carried(s, ops[..k], settings)
    decreases |ops|
  {
    RunOpsStops(s.live, ops, k + 1);
    if k + 1 < |ops| {
      var init := ops[..|ops| - 1];
      assert init[..k] == ops[..k] && init[..k + 1] == ops[..k + 1];
      CarriedStops(s, init, k, settings);
    } else {
      assert ops[..k + 1] == ops;
    }
  }

  // ---- The log without markers ----

  lemma ApplyKeepsEnds(g: Graph, op: Transaction.StagedOp)
    requires NoDangling(g) && ApplyOp(g, op).Ok?
    ensures NoDangling(ApplyOp(g, op).value) && LogOp(g, g, op) == ApplyOp(g, op).value
  {
  }

  /** Outside a bracket a log that is up to date stays so. */
  lemma {:induction false} StaysUpToDate(s: Session, ops: Ops, settings: Settings)
    requires !s.bracket && s.logged == s.live && s.clean && NoDangling(s.live)
    ensures var r := Carried(s, ops, settings);
            && !r.bracket && r.logged == r.live && r.clean && NoDangling(r.live)
            && (s.indexed == s.live.nodes ==> r.indexed == r.live.nodes)
    decreases |ops|
  {
    if ops != [] {
      StaysUpToDate(s, ops[..|ops| - 1], settings);
      if RunOps(s.live, ops).1.None? {
        LastStep(s.live, ops);
        var before, op := Carried(s, ops[..|ops| - 1], settings), ops[|ops| - 1];
        ApplyKeepsEnds(before.live, op);
        if before.indexed == before.live.nodes {
          hide Carried, RunOps, NoDangling;
          ReadStep(before, op, settings);
        }
      }
    }
  }

  // ---- Reads ----

  /** When no operation deletes a node the transaction inserted, no read misses. */
  lemma {:induction false} NoReadMisses(s: Session, ops: Ops, settings: Settings)
    requires s.indexed == s.live.nodes && s.live.nodes.Keys <= s.logged.nodes.Keys && KeepsOwnNodes(ops)
    ensures var r := Carried(s, ops, settings);
            && r.indexed == r.live.nodes
            && forall id :: id in r.live.nodes ==> id in r.logged.nodes || InsertsNode(ops, id)
    decreases |ops|
  {
    if ops != [] {
      var n := |ops| - 1;
      var op := ops[n];
      assert ops == ops[..n] + [op];
      NoReadMisses(s, ops[..n], settings);
      InsertedSoFar(ops[..n], op);
      if RunOps(s.live, ops).1.None? {
        LastStep(s.live, ops);
        if op.DeleteNode? {
          OwnNodesKept(ops, n);
        }
        hide Carried, RunOps, InsertsNode, InsertsEdge, NoDangling;
        ReadStep(Carried(s, ops[..n], settings), op, settings);
      }
    }
  }

  lemma ReadStep(s: Session, op: Transaction.StagedOp, settings: Settings)
    requires ApplyOp(s.live, op).Ok? && s.indexed == s.live.nodes
    requires op.DeleteNode? && op.nodeId in s.live.nodes ==> op.nodeId in s.logged.nodes
    ensures var r := Carry(s, op, settings);
            && r.indexed == r.live.nodes
            && forall id :: id in r.live.nodes ==>
                 || (op.InsertNode? && op.node.id == id)
                 || (id in s.live.nodes && (id in s.logged.nodes ==> id in r.logged.nodes))
  {
    if op.DeleteNode? && op.nodeId !in s.live.nodes {
      assert s.indexed - {op.nodeId} == s.indexed == s.live.nodes == s.live.nodes - {op.nodeId};
    }
  }

  /** The operation deletes a live node that a read does not find. */
  ghost predicate MissAt(s: Session, ops: Ops, settings: Settings, k: nat)
    requires k < |ops|
  {
    && ops[k].DeleteNode? && RunOps(s.live, ops[..k]).1.None?
    && ops[k].nodeId in Carried(s, ops[..k], settings).live.nodes
    && !Finds(Carried(s, ops[..k], settings), ops[k].nodeId)
  }

  ghost predicate NeverMisses(s: Session, ops: Ops, settings: Settings) {
    forall k :: 0 <= k < |ops| ==> !MissAt(s, ops, settings, k)
  }

  lemma NeverMissesInit(s: Session, ops: Ops, settings: Settings)
    requires ops != []
    ensures var init := ops[..|ops| - 1];
            NeverMisses(s, ops, settings)
            <==> NeverMisses(s, init, settings) && !MissAt(s, ops, settings, |ops| - 1)
  {
    hide RunOps, Carried, Finds;
    var init := ops[..|ops| - 1];
    forall k | 0 <= k < |init| ensures MissAt(s, init, settings, k) <==> MissAt(s, ops, settings, k) {
      assert init[..k] == ops[..k];
    }
    hide MissAt;
    if NeverMisses(s, init, settings) && !MissAt(s, ops, settings, |ops| - 1) {
      forall k | 0 <= k < |ops| ensures !MissAt(s, ops, settings, k) {
        if k < |init| {
          assert !MissAt(s, init, settings, k);
        }
      }
    }
  }

  /** Indexed nodes that are not live can be found nowhere and come back no more. */
  ghost predicate Buried(s: Session, g0: Graph, ops: Ops) {
    && s.cached.contents.Keys <= s.live.nodes.Keys && s.live.nodes.Keys <= s.indexed.Keys
    && (forall id :: id in s.live.nodes ==> s.live.nodes[id] == s.indexed[id])
    && (forall id :: id in s.indexed ==> id in g0.nodes || InsertsNode(ops, id))
    && (forall id :: id in s.indexed && id !in s.live.nodes ==> !Finds(s, id))
  }

  lemma CacheKeys(s: Session, op: Transaction.StagedOp, settings: Settings)
    requires ApplyOp(s.live, op).Ok?
    ensures var r := Carry(s, op, settings);
            && r.cached.contents.Keys <= s.cached.contents.Keys + (if op.InsertNode? then {op.node.id} else {})
            && (op.DeleteNode? ==> op.nodeId !in r.cached.contents)
            && r.logged.nodes.Keys <= s.logged.nodes.Keys + if op.InsertNode? then {op.node.id} else {}
  {
    hide NoDangling;
  }

  lemma CarryNodes(s: Session, op: Transaction.StagedOp, settings: Settings)
    requires ApplyOp(s.live, op).Ok?
    ensures var r := Carry(s, op, settings);
            match op
            case InsertNode(n) =>
              r.live.nodes == s.live.nodes[n.id := n] && r.indexed == s.indexed[n.id := n]
            case DeleteNode(id) =>
              r.live.nodes == s.live.nodes - {id} && r.indexed == if Finds(s, id) then s.indexed - {id} else s.indexed
            case _ => r.live.nodes == s.live.nodes && r.indexed == s.indexed
  {
    hide NoDangling, CachedAfter, LogOp, Finds;
  }

  lemma BuriedInsert(s: Session, r: Session, g0: Graph, ops: Ops, ops': Ops, n: Node)
    requires Buried(s, g0, ops) && n.id !in g0.nodes && !InsertsNode(ops, n.id)
    requires forall id: NodeId :: InsertsNode(ops', id) <==> InsertsNode(ops, id) || id == n.id
    requires r.live.nodes == s.live.nodes[n.id := n] && r.indexed == s.indexed[n.id := n]
    requires r.cached.contents.Keys <= s.cached.contents.Keys + {n.id}
    requires r.logged.nodes.Keys <= s.logged.nodes.Keys + {n.id}
    ensures Buried(r, g0, ops')
  {
    hide InsertsNode;
  }

  lemma BuriedDelete(s: Session, r: Session, g0: Graph, ops: Ops, ops': Ops, id: NodeId)
    requires Buried(s, g0, ops) && forall id: NodeId :: InsertsNode(ops', id) <==> InsertsNode(ops, id)
    requires r.live.nodes == s.live.nodes - {id}
    requires r.indexed == if Finds(s, id) then s.indexed - {id} else s.indexed
    requires r.cached.contents.Keys <= s.cached.contents.Keys - {id}
    requires r.logged.nodes.Keys <= s.logged.nodes.Keys
    ensures Buried(r, g0, ops')
  {
    hide InsertsNode;
  }

  lemma BuriedSame(s: Session, r: Session, g0: Graph, ops: Ops, ops': Ops)
    requires Buried(s, g0, ops) && forall id: NodeId :: InsertsNode(ops', id) <==> InsertsNode(ops, id)
    requires r.live.nodes == s.live.nodes && r.indexed == s.indexed
    requires r.cached.contents.Keys <= s.cached.contents.Keys && r.logged.nodes.Keys <= s.logged.nodes.Keys
    ensures Buried(r, g0, ops')
  {
    hide InsertsNode;
  }

  lemma BuriedNext(s: Session, g0: Graph, ops: Ops, op: Transaction.StagedOp, settings: Settings)
    requires Buried(s, g0, ops) && ApplyOp(s.live, op).Ok?
    requires op.InsertNode? ==> op.node.id !in g0.nodes && !InsertsNode(ops, op.node.id)
    ensures Buried(Carry(s, op, settings), g0, ops + [op])
  {
    InsertedSoFar(ops, op);
    CacheKeys(s, op, settings);
    CarryNodes(s, op, settings);
    hide InsertsNode, InsertsEdge, Carry, ApplyOp, Buried;
    var r := Carry(s, op, settings);
    match op {
      case InsertNode(n) => BuriedInsert(s, r, g0, ops, ops + [op], n);
      case DeleteNode(id) => BuriedDelete(s, r, g0, ops, ops + [op], id);
      case _ => BuriedSame(s, r, g0, ops, ops + [op]);
    }
  }

  lemma GhostsNext(s: Session, g0: Graph, ops: Ops, op: Transaction.StagedOp, settings: Settings)
    requires Buried(s, g0, ops) && ApplyOp(s.live, op).Ok?
    requires op.InsertNode? ==> op.node.id !in g0.nodes && !InsertsNode(ops, op.node.id)
    ensures var r := Carry(s, op, settings);
            r.indexed == r.live.nodes <==>
            s.indexed == s.live.nodes && !(op.DeleteNode? && op.nodeId in s.live.nodes && !Finds(s, op.nodeId))
  {
    CarryNodes(s, op, settings);
    hide InsertsNode, Carry, ApplyOp;
    var r := Carry(s, op, settings);
    if id :| id in s.indexed && id !in s.live.nodes {
      assert id in r.indexed && id !in r.live.nodes;
    } else {
      assert s.indexed.Keys == s.live.nodes.Keys;
      assert s.indexed == s.live.nodes;
    }
  }

  /** The indexes list exactly the live nodes in the end just when no read missed. */
  lemma {:induction false} IndexesExactly(s: Session, ops: Ops, settings: Settings)
    requires s.indexed == s.live.nodes && s.cached.contents.Keys <= s.live.nodes.Keys && FreshInserts(ops, s.live)
    ensures var r := Carried(s, ops, settings);
            Buried(r, s.live, ops) && (r.indexed == r.live.nodes <==> NeverMisses(s, ops, settings))
    decreases |ops|
  {
    if ops != [] {
      var n := |ops| - 1;
      assert ops == ops[..n] + [ops[n]];
      NeverMissesInit(s, ops, settings);
      IndexesExactly(s, ops[..n], settings);
      var before := Carried(s, ops[..n], settings);
      hide Buried, NeverMisses, FreshInserts;
      FreshAt(ops, n, s.live);
      if RunOps(s.live, ops).1.None? {
        LastStep(s.live, ops);
        BuriedNext(before, s.live, ops[..n], ops[n], settings);
        GhostsNext(before, s.live, ops[..n], ops[n], settings);
      } else {
        BuriedMore(before, s.live, ops[..n], ops[n]);
        FailsNoMiss(s, ops, settings);
      }
    }
  }

  lemma FreshAt(ops: Ops, k: nat, g: Graph)
    requires k < |ops| && FreshInserts(ops, g)
    ensures ops[k].InsertNode? ==> ops[k].node.id !in g.nodes && !InsertsNode(ops[..k], ops[k].node.id)
  {
  }

  lemma BuriedMore(s: Session, g0: Graph, ops: Ops, op: Transaction.StagedOp)
    requires Buried(s, g0, ops)
    ensures Buried(s, g0, ops + [op])
  {
    InsertedSoFar(ops, op);
  }

  lemma FailsNoMiss(s: Session, ops: Ops, settings: Settings)
    requires ops != [] && RunOps(s.live, ops).1.Some?
    ensures !MissAt(s, ops, settings, |ops| - 1)
  {
  }

  // ---- Compactions that fall due ----

  /** The operation is a delete that the write counter, at `writes` before the commit, compacts on. */
  predicate DueAt(writes: nat, ops: Ops, settings: Settings, k: nat)
    requires k < |ops|
  {
    var limit := settings.autoCompactAfterWrites;
    IsDelete(ops[k]) && limit.Some? && writes + Deletions(ops[..k + 1]) >= limit.value
  }

  predicate NeverDue(writes: nat, ops: Ops, settings: Settings) {
    forall k :: 0 <= k < |ops| ==> !DueAt(writes, ops, settings, k)
  }

  lemma RoomIsNeverDue(writes: nat, ops: Ops, settings: Settings)
    requires settings.autoCompactAfterWrites.Some? ==> writes + Deletions(ops) < settings.autoCompactAfterWrites.value
    ensures NeverDue(writes, ops, settings)
  {
    forall k | 0 <= k < |ops| ensures !DueAt(writes, ops, settings, k) {
      NextDeletions(ops, k);
    }
  }

  lemma NeverDueInit(writes: nat, ops: Ops, settings: Settings)
    requires ops != [] && NeverDue(writes, ops, settings)
    ensures NeverDue(writes, ops[..|ops| - 1], settings) && !DueAt(writes, ops, settings, |ops| - 1)
    ensures Deletions(ops) == Deletions(ops[..|ops| - 1]) + if IsDelete(ops[|ops| - 1]) then 1 else 0
    ensures Deletions(ops[..|ops|]) == Deletions(ops)
  {
    var init := ops[..|ops| - 1];
    forall k | 0 <= k < |init| ensures !DueAt(writes, init, settings, k) {
      assert init[..k + 1] == ops[..k + 1];
      assert !DueAt(writes, ops, settings, k);
    }
    assert ops[..|ops|] == ops;
  }

  /** Until then the bracket stays open and the log loads what it did. */
  lemma {:induction false} BracketStays(s: Session, ops: Ops, settings: Settings)
    requires s.bracket && NeverDue(s.writes, ops, settings)
    ensures var r := Carried(s, ops, settings);
            && r.bracket && r.logged == s.logged && r.clean == s.clean
            && (RunOps(s.live, ops).1.None? ==> r.writes == s.writes + Deletions(ops))
    decreases |ops|
  {
    if ops != [] {
      NeverDueInit(s.writes, ops, settings);
      BracketStays(s, ops[..|ops| - 1], settings);
      if RunOps(s.live, ops).1.None? {
        LastStep(s.live, ops);
      }
    }
  }

  /** The first delete that compacts takes the bracket with it. */
  lemma BracketLost(s: Session, ops: Ops, k: nat, settings: Settings)
    requires s.bracket && k < |ops| && NeverDue(s.writes, ops[..k], settings) && DueAt(s.writes, ops, settings, k)
    requires RunOps(s.live, ops[..k + 1]).1.None?
    ensures var r := Carried(s, ops[..k + 1], settings);
            !r.bracket && r.logged == s.logged && r.live == RunOps(s.live, ops[..k + 1]).0
  {
    CarriedNext(s, ops, k, settings);
    BracketStays(s, ops[..k], settings);
    NextDeletions(ops, k);
  }

  lemma {:induction false} CarriedConcat(s: Session, a: Ops, b: Ops, settings: Settings)
    requires RunOps(s.live, a).1.None?
    ensures Carried(s, a + b, settings) == Carried(Carried(s, a, settings), b, settings)
    decreases |b|
  {
    hide Carry, RunOps;
    RunOpsConcat(s.live, a, b);
    if b == [] {
      assert a + b == a;
    } else {
      assert (a + b)[..|a + b| - 1] == a + b[..|b| - 1];
      CarriedConcat(s, a, b[..|b| - 1], settings);
    }
  }

  /** How what a log loads and what is live, apart at first, are apart later: dropping an id sets
      both right, nothing else brings back what only the log holds. */
  ghost predicate ApartIn<V>(logged: map<U64, V>, live: map<U64, V>, logged0: map<U64, V>, live0: map<U64, V>,
                             dropped: set<U64>) {
    && (forall id :: id in logged && id !in live <==> id in logged0 && id !in live0 && id !in dropped)
    && (forall id :: id in live ==> (id !in logged <==> id in live0 && id !in logged0))
    && (forall id :: id in live && id in logged ==> live[id] == logged[id])
  }

  ghost predicate Apart(logged: Graph, live: Graph, logged0: Graph, live0: Graph, later: Ops) {
    && ApartIn(logged.nodes, live.nodes, logged0.nodes, live0.nodes, DroppedNodes(later))
    && ApartIn(logged.edges, live.edges, logged0.edges, live0.edges, DroppedEdges(later))
  }

  lemma ApartPut<V>(logged: map<U64, V>, live: map<U64, V>, logged0: map<U64, V>, live0: map<U64, V>,
                    dropped: set<U64>, id: U64, v: V)
    requires ApartIn(logged, live, logged0, live0, dropped) && id !in logged0 && id !in live0
    ensures ApartIn(logged[id := v], live[id := v], logged0, live0, dropped)
  {
  }

  lemma ApartDrop<V>(logged: map<U64, V>, live: map<U64, V>, logged0: map<U64, V>, live0: map<U64, V>,
                     dropped: set<U64>, id: U64)
    requires ApartIn(logged, live, logged0, live0, dropped)
    ensures ApartIn(logged - {id}, live - {id}, logged0, live0, dropped + {id})
  {
  }

  lemma ApartWithout<V>(logged: map<U64, V>, live: map<U64, V>, logged0: map<U64, V>, live0: map<U64, V>,
                        dropped: set<U64>, ids: set<U64>)
    requires ApartIn(logged, live, logged0, live0, dropped) && ids <= live.Keys
    ensures ApartIn(logged - ids, live - ids, logged0, live0, dropped)
  {
  }

  lemma DroppedNext(ops: Ops, op: Transaction.StagedOp)
    ensures DroppedNodes(ops + [op]) == DroppedNodes(ops) + if op.DeleteNode? then {op.nodeId} else {}
    ensures DroppedEdges(ops + [op]) == DroppedEdges(ops) + if op.DeleteEdge? then {op.edgeId} else {}
  {
    hide DroppedNodes, DroppedEdges;
    Dropped(ops);
    Dropped(ops + [op]);
  }

  ghost predicate InsertsNew(ops: Ops, a: Graph, b: Graph) {
    && (forall i :: 0 <= i < |ops| && ops[i].InsertNode? ==>
          ops[i].node.id !in a.nodes && ops[i].node.id !in b.nodes)
    && (forall i :: 0 <= i < |ops| && ops[i].InsertEdge? ==>
          ops[i].edge.id !in a.edges && ops[i].edge.id !in b.edges)
  }

  lemma ApartNext(logged: Graph, live: Graph, logged0: Graph, live0: Graph, later: Ops, op: Transaction.StagedOp)
    requires Apart(logged, live, logged0, live0, later) && ApplyOp(live, op).Ok? && InsertsNew([op], logged0, live0)
    ensures Apart(LogOp(logged, live, op), ApplyOp(live, op).value, logged0, live0, later + [op])
  {
    DroppedNext(later, op);
    hide ApartIn, DroppedNodes, DroppedEdges;
    assert [op][0] == op;
    var nodes, edges := DroppedNodes(later), DroppedEdges(later);
    assert nodes + {} == nodes && edges + {} == edges;
    match op {
      case InsertNode(n) => ApartPut(logged.nodes, live.nodes, logged0.nodes, live0.nodes, nodes, n.id, n);
      case InsertEdge(e) => ApartPut(logged.edges, live.edges, logged0.edges, live0.edges, edges, e.id, e);
      case DeleteEdge(id) => ApartDrop(logged.edges, live.edges, logged0.edges, live0.edges, edges, id);
      case DeleteNode(id) =>
        ApartDrop(logged.nodes, live.nodes, logged0.nodes, live0.nodes, nodes, id);
        ApartWithout(logged.edges, live.edges, logged0.edges, live0.edges, edges, EdgesAt(live, id));
    }
  }

  lemma {:induction false} StaysApart(s: Session, later: Ops, settings: Settings)
    requires !s.bracket && RunOps(s.live, later).1.None? && InsertsNew(later, s.logged, s.live)
    requires Apart(s.logged, s.live, s.logged, s.live, [])
    ensures var r := Carried(s, later, settings);
            !r.bracket && Apart(r.logged, r.live, s.logged, s.live, later)
    decreases |later|
  {
    if later != [] {
      var n := |later| - 1;
      LastStep(s.live, later);
      assert later == later[..n] + [later[n]];
      StaysApart(s, later[..n], settings);
      var r := Carried(s, later[..n], settings);
      hide Apart, RunOps;
      ApartNext(r.logged, r.live, s.logged, s.live, later[..n], later[n]);
    }
  }

  /** What the operations up to the compaction did to `g` shows no more in the end: what they took
      away is deleted again later, and what they added is not live. */
  ghost predicate LostWithoutTrace(g: Graph, mid: Graph, later: Ops, end: Graph) {
    && (forall id :: id in g.nodes && id !in mid.nodes ==> id in DroppedNodes(later))
    && (forall id :: id in mid.nodes && id !in g.nodes ==> id !in end.nodes)
    && (forall id :: id in g.edges && id !in mid.edges ==> id in DroppedEdges(later))
    && (forall id :: id in mid.edges && id !in g.edges ==> id !in end.edges)
  }

  lemma ApartOrEqualIn<V>(logged: map<U64, V>, live: map<U64, V>, logged0: map<U64, V>, live0: map<U64, V>,
                          dropped: set<U64>)
    requires ApartIn(logged, live, logged0, live0, dropped)
    ensures logged == live <==>
      && (forall id :: id in logged0 && id !in live0 ==> id in dropped)
      && (forall id :: id in live0 && id !in logged0 ==> id !in live)
  {
    if logged.Keys == live.Keys {
      assert logged == live;
    }
  }

  lemma ApartOrEqual(logged: Graph, live: Graph, logged0: Graph, live0: Graph, later: Ops)
    requires Apart(logged, live, logged0, live0, later)
    ensures logged == live <==> LostWithoutTrace(logged0, live0, later, live)
  {
    hide ApartIn, DroppedNodes, DroppedEdges;
    ApartOrEqualIn(logged.nodes, live.nodes, logged0.nodes, live0.nodes, DroppedNodes(later));
    ApartOrEqualIn(logged.edges, live.edges, logged0.edges, live0.edges, DroppedEdges(later));
  }

  // ---- What a successful commit leaves in a log with markers ----

  /** The first delete that compacts, if any. */
  function FirstDue(writes: nat, ops: Ops, settings: Settings): (k: Option<nat>)
    ensures k.None? <==> NeverDue(writes, ops, settings)
    ensures k.Some? ==>
      k.value < |ops| && DueAt(writes, ops, settings, k.value) && NeverDue(writes, ops[..k.value], settings)
  {
    if ops == [] then None
    else
      var n := |ops| - 1;
      DueInit(writes, ops, settings);
      var k := FirstDue(writes, ops[..n], settings);
      if k.Some? then (assert ops[..n][..k.value] == ops[..k.value]; k)
      else if DueAt(writes, ops, settings, n) then Some(n)
      else None
  }

  lemma DueInit(writes: nat, ops: Ops, settings: Settings)
    requires ops != []
    ensures var init := ops[..|ops| - 1];
            && (forall k :: 0 <= k < |init| ==>
                  (DueAt(writes, init, settings, k) <==> DueAt(writes, ops, settings, k)))
            && (NeverDue(writes, ops, settings) <==>
                  NeverDue(writes, init, settings) && !DueAt(writes, ops, settings, |ops| - 1))
  {
    var init := ops[..|ops| - 1];
    forall k | 0 <= k < |init| ensures DueAt(writes, init, settings, k) <==> DueAt(writes, ops, settings, k) {
      assert init[..k + 1] == ops[..k + 1];
    }
    hide DueAt;
    if NeverDue(writes, init, settings) && !DueAt(writes, ops, settings, |ops| - 1) {
      forall k | 0 <= k < |ops| ensures !DueAt(writes, ops, settings, k) {
        if k < |init| {
          assert !DueAt(writes, init, settings, k);
        }
      }
    }
  }

  /** The operations on the graph a log loads, one by one outside a bracket, beside the live graph. */
  function LogOps(logged: Graph, live: Graph, ops: Ops): Graph {
    if ops == [] then logged
    else LogOp(LogOps(logged, live, ops[..|ops| - 1]), RunOps(live, ops[..|ops| - 1]).0, ops[|ops| - 1])
  }

  lemma {:induction false} LogsLater(s: Session, ops: Ops, settings: Settings)
    requires !s.bracket && RunOps(s.live, ops).1.None?
    ensures !Carried(s, ops, settings).bracket
    ensures Carried(s, ops, settings).logged == LogOps(s.logged, s.live, ops)
    decreases |ops|
  {
    if ops != [] {
      LastStep(s.live, ops);
      LogsLater(s, ops[..|ops| - 1], settings);
    }
  }

  /** With no compaction on the way, a log with markers ends at the live graph without what the
      staged deletes name. */
  lemma CommitKeeps(g: Graph, writes: nat, cached: Recent, ops: Ops, settings: Settings)
    requires RunOps(g, ops).1.None? && NeverDue(writes, ops, settings)
    ensures var t := Commit(Begun(g, true, writes, cached), ops, settings);
            t.live == RunOps(g, ops).0 && t.logged == Kept(ops, t.live) && (t.clean <==> NoDangling(t.logged))
  {
    BracketStays(Begun(g, true, writes, cached), ops, settings);
  }

  /** After a compaction on the way it ends at the graph from before with only the operations after
      that compaction. */
  lemma CommitLogsLater(g: Graph, writes: nat, cached: Recent, ops: Ops, settings: Settings, k: nat)
    requires RunOps(g, ops).1.None? && FirstDue(writes, ops, settings) == Some(k) && FreshInserts(ops, g)
    ensures var t, mid := Commit(Begun(g, true, writes, cached), ops, settings), RunOps(g, ops[..k + 1]).0;
            && t.live == RunOps(g, ops).0 && t.logged == LogOps(g, mid, ops[k + 1..])
            && Apart(t.logged, t.live, g, mid, ops[k + 1..])
  {
    hide Carried, Apart, RunOps, LogOps, FreshInserts, LiveOnlyFrom, InsertsNew, DueAt, FirstDue, NeverDue, Kept,
         NoDangling;
    var s := Begun(g, true, writes, cached);
    var head, later := ops[..k + 1], ops[k + 1..];
    assert head + later == ops;
    PrefixRuns(g, ops, k + 1);
    BracketLost(s, ops, k, settings);
    RunOpsConcat(g, head, later);
    CarriedConcat(s, head, later, settings);
    var s' := Carried(s, head, settings);
    LiveFrom(g, head);
    LaterIsNew(ops, k + 1, g, s'.live);
    HeadIsNew(ops, k + 1, g);
    AlikeAtFirst(g, head);
    StaysApart(s', later, settings);
    LogsLater(s', later, settings);
  }

  lemma {:induction false} LiveFrom(g: Graph, ops: Ops)
    requires RunOps(g, ops).1.None?
    ensures LiveOnlyFrom(RunOps(g, ops).0, g, ops)
    decreases |ops|
  {
    if ops != [] {
      LastStep(g, ops);
      LiveFrom(g, ops[..|ops| - 1]);
      assert ops == ops[..|ops| - 1] + [ops[|ops| - 1]];
      LiveOnlyNext(RunOps(g, ops[..|ops| - 1]).0, g, ops[..|ops| - 1], ops[|ops| - 1]);
    }
  }

  lemma HeadIsNew(ops: Ops, k: nat, g: Graph)
    requires k <= |ops| && FreshInserts(ops, g)
    ensures InsertsNew(ops[..k], g, g)
  {
  }

  lemma LaterIsNew(ops: Ops, k: nat, g: Graph, mid: Graph)
    requires k <= |ops| && FreshInserts(ops, g) && LiveOnlyFrom(mid, g, ops[..k])
    ensures InsertsNew(ops[k..], g, mid)
  {
    var later := ops[k..];
    forall i | 0 <= i < |later| && later[i].InsertNode?
      ensures later[i].node.id !in g.nodes && later[i].node.id !in mid.nodes
    {
      assert later[i] == ops[k + i];
    }
    forall i | 0 <= i < |later| && later[i].InsertEdge?
      ensures later[i].edge.id !in g.edges && later[i].edge.id !in mid.edges
    {
      assert later[i] == ops[k + i];
    }
  }

  /** Operations that insert new ids leave every record that stays as it was. */
  lemma {:induction false} SameRecords(g: Graph, ops: Ops)
    requires RunOps(g, ops).1.None? && InsertsNew(ops, g, g)
    ensures var end := RunOps(g, ops).0;
            && (forall id :: id in g.nodes && id in end.nodes ==> end.nodes[id] == g.nodes[id])
            && (forall id :: id in g.edges && id in end.edges ==> end.edges[id] == g.edges[id])
    decreases |ops|
  {
    if ops != [] {
      LastStep(g, ops);
      SameRecords(g, ops[..|ops| - 1]);
    }
  }

  lemma AlikeAtFirst(g: Graph, ops: Ops)
    requires RunOps(g, ops).1.None? && InsertsNew(ops, g, g)
    ensures Apart(g, RunOps(g, ops).0, g, RunOps(g, ops).0, [])
  {
    SameRecords(g, ops);
  }

  /** A successful commit leaves a log with markers at the live graph exactly when, with no
      compaction on the way, no insert is lost to an earlier delete, and otherwise when the operations
      up to the first compaction show no more in the end. */
  lemma CommitUpToDate(g: Graph, writes: nat, cached: Recent, ops: Ops, settings: Settings)
    requires RunOps(g, ops).1.None? && FreshInserts(ops, g)
    ensures var t := Commit(Begun(g, true, writes, cached), ops, settings);
            t.logged == t.live <==>
              match FirstDue(writes, ops, settings)
              case None => !LosesInsert(ops)
              case Some(k) => LostWithoutTrace(g, RunOps(g, ops[..k + 1]).0, ops[k + 1..], t.live)
  {
    var t := Commit(Begun(g, true, writes, cached), ops, settings);
    match FirstDue(writes, ops, settings)
    case None =>
      CommitKeeps(g, writes, cached, ops, settings);
      KeptIsWhole(ops, t.live);
      DeletesStickExactly(g, ops);
    case Some(k) =>
      CommitLogsLater(g, writes, cached, ops, settings, k);
      ApartOrEqual(t.logged, t.live, g, RunOps(g, ops[..k + 1]).0, ops[k + 1..]);
  }

  /** A failed one leaves such a log at the graph from before, unless a compaction came on the way. */
  lemma FailedCommitKeeps(g: Graph, writes: nat, cached: Recent, ops: Ops, settings: Settings)
    requires RunOps(g, ops).1.Some? && NeverDue(writes, ops, settings)
    ensures var t := Commit(Begun(g, true, writes, cached), ops, settings);
            t.live == RunOps(g, ops).0 && t.logged == g && t.clean
  {
    BracketStays(Begun(g, true, writes, cached), ops, settings);
  }

  /** Without markers the log keeps up, whether the commit succeeds or not. */
  lemma CommitUnmarked(g: Graph, writes: nat, cached: Recent, ops: Ops, settings: Settings)
    requires NoDangling(g)
    ensures var t := Commit(Begun(g, false, writes, cached), ops, settings);
            t.live == RunOps(g, ops).0 && t.logged == t.live && t.clean && t.indexed == t.live.nodes
  {
    StaysUpToDate(Begun(g, false, writes, cached), ops, settings);
  }

  // ---- Inputs that show it ----

  /** A node insert and a delete that makes a compaction fall due: the commit succeeds, and the log
      loads the graph from before. */
  lemma CompactionDropsBracket(g: Graph, n: Node, e: EdgeId, writes: nat, cached: Recent, settings: Settings)
    requires n.id !in g.nodes && n.id < MAX_U64 && e in g.edges
    requires settings.autoCompactAfterWrites.Some? && writes + 1 >= settings.autoCompactAfterWrites.value
    ensures var ops := [Transaction.InsertNode(n), Transaction.DeleteEdge(e)];
            var t := Commit(Begun(g, true, writes, cached), ops, settings);
            && FreshInserts(ops, g) && KeepsOwnNodes(ops) && RunOps(g, ops).1.None?
            && n.id in t.live.nodes && e !in t.live.edges && t.logged == g
  {
    var ops := [Transaction.InsertNode(n), Transaction.DeleteEdge(e)];
    assert ops[..0] == [] && ops[..2] == ops && ops[..2][..1] == ops[..1];
    RunOpsNext(g, ops, 0);
    RunOpsNext(g, ops, 1);
    NextDeletions(ops, 1);
    assert DueAt(writes, ops, settings, 1);
    forall k | 0 <= k < |ops[..1]| ensures !DueAt(writes, ops[..1], settings, k) {
    }
    assert FirstDue(writes, ops, settings) == Some(1) by {
      var k := FirstDue(writes, ops, settings);
      assert k.Some?;
    }
    CommitLogsLater(g, writes, cached, ops, settings, 1);
    assert ops[2..] == [];
  }

  /** With room for one entry a put leaves only its own. */
  lemma OnlyOne<V>(r: LruCache.Recency<V>, id: U64, v: V)
    requires
      || r == LruCache.Recency([], map[])
      || (exists k: U64, w: V :: k != id && r == LruCache.Recency([k], map[k := w]))
    ensures r.Put(1, id, v) == LruCache.Recency([id], map[id := v])
  {
  }

  /** With room for one node in the cache, a node inserted and deleted after another insert stays in
      the indexes. */
  lemma EvictedNodeStaysIndexed(a: Node, b: Node, writes: nat, settings: Settings)
    requires a.id != b.id && a.id < MAX_U64 && b.id < MAX_U64
    requires settings == Settings(None, 1)
    ensures var ops := [Transaction.InsertNode(a), Transaction.InsertNode(b), Transaction.DeleteNode(a.id)];
            var t := Commit(Begun(EMPTY_GRAPH, true, writes, NOTHING_CACHED), ops, settings);
            FreshInserts(ops, EMPTY_GRAPH) && a.id in t.indexed && a.id !in t.live.nodes
  {
    var ops := [Transaction.InsertNode(a), Transaction.InsertNode(b), Transaction.DeleteNode(a.id)];
    var s := Begun(EMPTY_GRAPH, true, writes, NOTHING_CACHED);
    EvictionOps(a, b);
    hide RunOps, Carry, Carried, ApplyOp, FreshInserts;
    assert ops[..0] == [] && ops[..3] == ops;
    CarriedNext(s, ops, 0, settings);
    CarriedNext(s, ops, 1, settings);
    CarriedNext(s, ops, 2, settings);
    CarriedNone(s, settings);
    EvictionRun(s, a, b, settings);
  }

  lemma CarriedNone(s: Session, settings: Settings)
    ensures Carried(s, [], settings) == s
  {
  }

  lemma EvictionOps(a: Node, b: Node)
    requires a.id != b.id && a.id < MAX_U64 && b.id < MAX_U64
    ensures var ops := [Transaction.InsertNode(a), Transaction.InsertNode(b), Transaction.DeleteNode(a.id)];
            && FreshInserts(ops, EMPTY_GRAPH) && RunOps(EMPTY_GRAPH, ops[..1]).1.None?
            && RunOps(EMPTY_GRAPH, ops[..2]).1.None? && RunOps(EMPTY_GRAPH, ops).1.None?
            && a.id !in RunOps(EMPTY_GRAPH, ops).0.nodes
  {
    var ops := [Transaction.InsertNode(a), Transaction.InsertNode(b), Transaction.DeleteNode(a.id)];
    assert ops[..0] == [] && ops[..3] == ops;
    RunOpsNext(EMPTY_GRAPH, ops, 0);
    RunOpsNext(EMPTY_GRAPH, ops, 1);
    RunOpsNext(EMPTY_GRAPH, ops, 2);
  }

  lemma EvictionRun(s: Session, a: Node, b: Node, settings: Settings)
    requires a.id != b.id && settings == Settings(None, 1) && s.cached == NOTHING_CACHED && s.logged == EMPTY_GRAPH
    requires s.bracket
    ensures var s1 := Carry(s, Transaction.InsertNode(a), settings);
            var s2 := Carry(s1, Transaction.InsertNode(b), settings);
            a.id in Carry(s2, Transaction.DeleteNode(a.id), settings).indexed
  {
    hide NoDangling;
    OnlyOne(s.cached, a.id, a);
    var s1 := Carry(s, Transaction.InsertNode(a), settings);
    OnlyOne(s1.cached, b.id, b);
  }
}
