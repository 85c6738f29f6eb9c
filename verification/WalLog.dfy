/** The write-ahead log at record level: the replay state machine of
    src/adapters/storage/binary_file.rs, with BEGIN/COMMIT/ROLLBACK brackets and compaction.
    A log without markers is the log of src/adapters/storage/json_file.rs. */
module WalLog {
  import opened Core

  datatype Record =
    | UpsertNode(node: Node)
    | UpsertEdge(edge: Edge)
    | DeleteNode(nodeId: NodeId)
    | DeleteEdge(edgeId: EdgeId)
    | BeginTxn(txn: U64)
    | CommitTxn(txn: U64)
    | RollbackTxn(txn: U64)
  {
    /** A data record, as opposed to a transaction marker. */
    predicate Data?() {
      UpsertNode? || UpsertEdge? || DeleteNode? || DeleteEdge?
    }
  }

  /** The records of an open bracket, grouped by kind as the replay loop collects them. */
  datatype Buffer = Buffer(
    txn: U64, nodeUpserts: seq<(NodeId, Node)>, edgeUpserts: seq<(EdgeId, Edge)>,
    nodeDeletes: seq<NodeId>, edgeDeletes: seq<EdgeId>)

  datatype LogState = LogState(graph: Graph, open: Option<Buffer>)

  const INITIAL := LogState(EMPTY_GRAPH, None)

  function EmptyBuffer(txn: U64): Buffer {
    Buffer(txn, [], [], [], [])
  }

  /** A data record takes effect at once. */
  function Apply(g: Graph, r: Record): Graph
    requires r.Data?()
  {
    match r
    case UpsertNode(n) => g.(nodes := g.nodes[n.id := n])
    case UpsertEdge(e) => g.(edges := g.edges[e.id := e])
    case DeleteNode(id) => g.(nodes := g.nodes - {id})
    case DeleteEdge(id) => g.(edges := g.edges - {id})
  }

  /** A data record waits for its COMMIT. */
  function Push(b: Buffer, r: Record): Buffer
    requires r.Data?()
  {
    match r
    case UpsertNode(n) => b.(nodeUpserts := b.nodeUpserts + [(n.id, n)])
    case UpsertEdge(e) => b.(edgeUpserts := b.edgeUpserts + [(e.id, e)])
    case DeleteNode(id) => b.(nodeDeletes := b.nodeDeletes + [id])
    case DeleteEdge(id) => b.(edgeDeletes := b.edgeDeletes + [id])
  }

  function PutAll<V>(m: map<U64, V>, ps: seq<(U64, V)>): map<U64, V> {
    if ps == [] then m
    else PutAll(m, ps[..|ps| - 1])[ps[|ps| - 1].0 := ps[|ps| - 1].1]
  }

  function SetOf<T>(s: seq<T>): set<T> {
    set x | x in s
  }

  function RemoveAll<V>(m: map<U64, V>, ids: seq<U64>): map<U64, V> {
    m - SetOf(ids)
  }

  /** COMMIT: node upserts, edge upserts, node deletes, edge deletes, in that order. */
  function ApplyGrouped(g: Graph, b: Buffer): Graph {
    Graph(RemoveAll(PutAll(g.nodes, b.nodeUpserts), b.nodeDeletes),
          RemoveAll(PutAll(g.edges, b.edgeUpserts), b.edgeDeletes))
  }

  function Step(st: LogState, r: Record): LogState {
    match r
    case BeginTxn(t) => st.(open := Some(EmptyBuffer(t)))
    case CommitTxn(t) =>
      (match st.open
       case None => st
       case Some(b) => LogState(if b.txn == t then ApplyGrouped(st.graph, b) else st.graph, None))
    case RollbackTxn(_) => st.(open := None)
    case _ =>
      match st.open
      case None => st.(graph := Apply(st.graph, r))
      case Some(b) => st.(open := Some(Push(b, r)))
  }

  function Run(st: LogState, log: seq<Record>): LogState {
    if log == [] then st
    else Step(Run(st, log[..|log| - 1]), log[|log| - 1])
  }

  function Replay(log: seq<Record>): LogState {
    Run(INITIAL, log)
  }

  /** What a storage adapter loads from this log; an unterminated bracket is dropped. */
  function Loaded(log: seq<Record>): Graph {
    Replay(log).graph
  }

  predicate Closed(log: seq<Record>) {
    Replay(log).open.None?
  }

  // ---- Runs ----

  lemma {:induction false} RunConcat(st: LogState, a: seq<Record>, b: seq<Record>)
    ensures Run(st, a + b) == Run(Run(st, a), b)
    decreases |b|
  {
    if b == [] {
      assert a + b == a;
    } else {
      var b' := b[..|b| - 1];
      assert (a + b)[..|a + b| - 1] == a + b';
      RunConcat(st, a, b');
    }
  }

  lemma RunCons(st: LogState, r: Record, rest: seq<Record>)
    ensures Run(st, [r] + rest) == Run(Step(st, r), rest)
  {
    RunConcat(st, [r], rest);
    assert [r][..0] == [];
    assert Run(st, [r]) == Step(Run(st, []), r);
  }

  lemma ReplayAppend(log: seq<Record>, r: Record)
    ensures Replay(log + [r]) == Step(Replay(log), r)
  {
    assert (log + [r])[..|log|] == log;
  }

  ghost predicate AllData(rs: seq<Record>) {
    forall i :: 0 <= i < |rs| ==> rs[i].Data?()
  }

  /** The records one after the other, with no bracket. */
  function Sequential(g: Graph, rs: seq<Record>): Graph
    requires AllData(rs)
  {
    if rs == [] then g
    else Apply(Sequential(g, rs[..|rs| - 1]), rs[|rs| - 1])
  }

  function Buffered(b: Buffer, rs: seq<Record>): Buffer
    requires AllData(rs)
  {
    if rs == [] then b
    else Push(Buffered(b, rs[..|rs| - 1]), rs[|rs| - 1])
  }

  lemma {:induction false} RunData(st: LogState, rs: seq<Record>)
    requires AllData(rs)
    ensures Run(st, rs) ==
            match st.open
            case None => LogState(Sequential(st.graph, rs), None)
            case Some(b) => LogState(st.graph, Some(Buffered(b, rs)))
    decreases |rs|
  {
    if rs != [] {
      RunData(st, rs[..|rs| - 1]);
    }
  }

  lemma {:induction false} BufferedKeepsTxn(b: Buffer, rs: seq<Record>)
    requires AllData(rs)
    ensures Buffered(b, rs).txn == b.txn
    decreases |rs|
  {
    if rs != [] {
      BufferedKeepsTxn(b, rs[..|rs| - 1]);
    }
  }

  // ---- Brackets ----

  /** What the writer puts into the log as one piece: a single record, or a whole bracket. */
  datatype Unit =
    | Single(rec: Record)
    | Committed(txn: U64, recs: seq<Record>)
    | RolledBack(txn: U64, recs: seq<Record>)
  {
    ghost predicate Valid() {
      match this
      case Single(r) => r.Data?()
      case Committed(_, rs) => AllData(rs)
      case RolledBack(_, rs) => AllData(rs)
    }

    function Records(): seq<Record> {
      match this
      case Single(r) => [r]
      case Committed(t, rs) => [BeginTxn(t)] + rs + [CommitTxn(t)]
      case RolledBack(t, rs) => [BeginTxn(t)] + rs + [RollbackTxn(t)]
    }

    /** The effect the writer intends: all of a committed bracket, nothing of a rolled-back one. */
    function Effect(g: Graph): Graph
      requires Valid()
    {
      match this
      case Single(r) => Apply(g, r)
      case Committed(t, rs) => ApplyGrouped(g, Buffered(EmptyBuffer(t), rs))
      case RolledBack(_, _) => g
    }
  }

  ghost predicate ValidUnits(us: seq<Unit>) {
    forall i :: 0 <= i < |us| ==> us[i].Valid()
  }

  function Flatten(us: seq<Unit>): seq<Record> {
    if us == [] then [] else us[0].Records() + Flatten(us[1..])
  }

  function Effects(g: Graph, us: seq<Unit>): Graph
    requires ValidUnits(us)
    decreases |us|
  {
    if us == [] then g else Effects(us[0].Effect(g), us[1..])
  }

  /** How many of the units lie whole within the first `cut` records. */
  function WholeUnits(us: seq<Unit>, cut: nat): (n: nat)
    ensures n <= |us|
  {
    if us == [] || cut < |us[0].Records()| then 0
    else WholeUnits(us[1..], cut - |us[0].Records()|) + 1
  }

  lemma {:induction false} WholeUnitsFit(us: seq<Unit>, cut: nat)
    ensures |Flatten(us[..WholeUnits(us, cut)])| <= cut
    ensures WholeUnits(us, cut) < |us| ==> cut < |Flatten(us[..WholeUnits(us, cut) + 1])|
    decreases |us|
  {
    if us == [] {
    } else if cut < |us[0].Records()| {
      assert us[..1][1..] == [];
    } else {
      var n := WholeUnits(us[1..], cut - |us[0].Records()|);
      WholeUnitsFit(us[1..], cut - |us[0].Records()|);
      assert us[..n + 1][1..] == us[1..][..n];
      if n + 1 < |us| {
        assert us[..n + 2][1..] == us[1..][..n + 1];
      }
    }
  }

  lemma UnitRuns(g: Graph, u: Unit)
    requires u.Valid()
    ensures Run(LogState(g, None), u.Records()) == LogState(u.Effect(g), None)
  {
    match u
    case Single(r) =>
      RunData(LogState(g, None), [r]);
    case Committed(t, rs) => BracketRuns(g, t, rs, CommitTxn(t));
    case RolledBack(t, rs) => BracketRuns(g, t, rs, RollbackTxn(t));
  }

  lemma BracketRuns(g: Graph, t: U64, rs: seq<Record>, last: Record)
    requires AllData(rs)
    ensures Run(LogState(g, None), [BeginTxn(t)] + rs + [last])
         == Step(LogState(g, Some(Buffered(EmptyBuffer(t), rs))), last)
    ensures Buffered(EmptyBuffer(t), rs).txn == t
  {
    RunBracketPrefix(g, t, rs);
    assert ([BeginTxn(t)] + rs + [last])[..|rs| + 1] == [BeginTxn(t)] + rs;
    BufferedKeepsTxn(EmptyBuffer(t), rs);
  }

  lemma RunBracketPrefix(g: Graph, t: U64, rs: seq<Record>)
    requires AllData(rs)
    ensures Run(LogState(g, None), [BeginTxn(t)] + rs) == LogState(g, Some(Buffered(EmptyBuffer(t), rs)))
  {
    RunCons(LogState(g, None), BeginTxn(t), rs);
    RunData(LogState(g, Some(EmptyBuffer(t))), rs);
  }

  /** A unit cut short has no effect. */
  lemma CutUnit(g: Graph, u: Unit, cut: nat)
    requires u.Valid() && cut < |u.Records()|
    ensures Run(LogState(g, None), u.Records()[..cut]).graph == g
  {
    if cut > 0 {
      var rs := u.recs[..cut - 1];
      assert u.Records()[..cut] == [BeginTxn(u.txn)] + rs;
      RunBracketPrefix(g, u.txn, rs);
    }
  }

  /** All or nothing: cut at any record boundary, a well-bracketed log replays to the effect
      of the units that lie whole before the cut. */
  lemma {:induction false} AllOrNothing(g: Graph, us: seq<Unit>, cut: nat)
    requires ValidUnits(us) && cut <= |Flatten(us)|
    ensures Run(LogState(g, None), Flatten(us)[..cut]).graph == Effects(g, us[..WholeUnits(us, cut)])
    decreases |us|
  {
    if us != [] {
      if cut < |us[0].Records()| {
        assert Flatten(us)[..cut] == us[0].Records()[..cut];
        CutUnit(g, us[0], cut);
      } else {
        var cut' := cut - |us[0].Records()|;
        PeelUnit(g, us, cut);
        AllOrNothing(us[0].Effect(g), us[1..], cut');
        EffectsCons(g, us, WholeUnits(us[1..], cut'));
      }
    }
  }

  lemma PeelUnit(g: Graph, us: seq<Unit>, cut: nat)
    requires us != [] && us[0].Valid() && |us[0].Records()| <= cut <= |Flatten(us)|
    ensures Run(LogState(g, None), Flatten(us)[..cut])
         == Run(LogState(us[0].Effect(g), None), Flatten(us[1..])[..cut - |us[0].Records()|])
  {
    hide Step, Run, Unit.Records, Unit.Effect, Unit.Valid;
    var first := us[0].Records();
    var rest := Flatten(us[1..])[..cut - |first|];
    assert Flatten(us)[..cut] == first + rest;
    RunConcat(LogState(g, None), first, rest);
    UnitRuns(g, us[0]);
  }

  lemma EffectsCons(g: Graph, us: seq<Unit>, n: nat)
    requires ValidUnits(us) && n < |us|
    ensures Effects(us[0].Effect(g), us[1..][..n]) == Effects(g, us[..n + 1])
  {
    assert us[..n + 1][1..] == us[1..][..n];
  }

  /** The whole log replays to the effect of every unit and leaves no bracket open. */
  lemma {:induction false} WholeLog(g: Graph, us: seq<Unit>)
    requires ValidUnits(us)
    ensures Run(LogState(g, None), Flatten(us)) == LogState(Effects(g, us), None)
    decreases |us|
  {
    if us != [] {
      UnitRuns(g, us[0]);
      RunConcat(LogState(g, None), us[0].Records(), Flatten(us[1..]));
      WholeLog(us[0].Effect(g), us[1..]);
    }
  }

  /** Two logs that no later append can tell apart. */
  ghost predicate Indistinguishable(a: seq<Record>, b: seq<Record>) {
    forall more: seq<Record> :: Loaded(a + more) == Loaded(b + more)
  }

  lemma SameStateIndistinguishable(a: seq<Record>, b: seq<Record>)
    requires Replay(a) == Replay(b)
    ensures Indistinguishable(a, b)
  {
    forall more: seq<Record> ensures Loaded(a + more) == Loaded(b + more) {
      RunConcat(INITIAL, a, more);
      RunConcat(INITIAL, b, more);
    }
  }

  /** With a bracket open some later record tells the log apart from a closed one with the same content. */
  lemma OpenBracketShows(a: seq<Record>, b: seq<Record>)
    requires Loaded(a) == Loaded(b)
    requires Closed(a) && !Closed(b)
    ensures !Indistinguishable(a, b)
  {
    var g := Loaded(a);
    var n := Node(0, if 0 in g.nodes then g.nodes[0].lbl + "'" else "", map[]);
    var r := UpsertNode(n);
    ReplayAppend(a, r);
    ReplayAppend(b, r);
    assert Loaded(a + [r]).nodes[0] == n;
    assert Loaded(b + [r]) == g;
  }

  /** BEGIN .. ROLLBACK can be cut out of a log, whatever follows, exactly when it was not begun
      inside another bracket (whose buffer the inner BEGIN would have dropped). */
  lemma RolledBackBracketVanishes(log: seq<Record>, t: U64, rs: seq<Record>, t': U64)
    requires AllData(rs)
    ensures Indistinguishable(log + ([BeginTxn(t)] + rs + [RollbackTxn(t')]), log) <==> Closed(log)
  {
    var st := Replay(log);
    var bracket := [BeginTxn(t)] + rs + [RollbackTxn(t')];
    RunConcat(INITIAL, log, bracket);
    BracketRuns(st.graph, t, rs, RollbackTxn(t'));
    RunCons(st, BeginTxn(t), rs + [RollbackTxn(t')]);
    RunCons(LogState(st.graph, None), BeginTxn(t), rs + [RollbackTxn(t')]);
    assert bracket == [BeginTxn(t)] + (rs + [RollbackTxn(t')]);
    assert Replay(log + bracket) == LogState(st.graph, None);
    if Closed(log) {
      SameStateIndistinguishable(log + bracket, log);
    } else {
      OpenBracketShows(log + bracket, log);
    }
  }

  // ---- Compaction ----

  function NodeRecords(ps: seq<(NodeId, Node)>): seq<Record> {
    seq(|ps|, i requires 0 <= i < |ps| => UpsertNode(ps[i].1))
  }

  function EdgeRecords(ps: seq<(EdgeId, Edge)>): seq<Record> {
    seq(|ps|, i requires 0 <= i < |ps| => UpsertEdge(ps[i].1))
  }

  /** `compact` holds one upsert for every live record of `log`, nodes before edges, in some order. */
  ghost predicate IsCompaction(compact: seq<Record>, log: seq<Record>) {
    exists ns, es ::
      && Enumerates(ns, Loaded(log).nodes)
      && Enumerates(es, Loaded(log).edges)
      && compact == NodeRecords(ns) + EdgeRecords(es)
  }

  lemma {:induction false} SequentialNodes(g: Graph, ns: seq<(NodeId, Node)>)
    requires forall p :: p in ns ==> p.1.id == p.0
    ensures Sequential(g, NodeRecords(ns)) == g.(nodes := PutAll(g.nodes, ns))
    decreases |ns|
  {
    if ns != [] {
      assert NodeRecords(ns)[..|ns| - 1] == NodeRecords(ns[..|ns| - 1]);
      SequentialNodes(g, ns[..|ns| - 1]);
    }
  }

  lemma {:induction false} SequentialEdges(g: Graph, es: seq<(EdgeId, Edge)>)
    requires forall p :: p in es ==> p.1.id == p.0
    ensures Sequential(g, EdgeRecords(es)) == g.(edges := PutAll(g.edges, es))
    decreases |es|
  {
    if es != [] {
      assert EdgeRecords(es)[..|es| - 1] == EdgeRecords(es[..|es| - 1]);
      SequentialEdges(g, es[..|es| - 1]);
    }
  }

  lemma {:induction false} PutAllContent<V>(m: map<U64, V>, ps: seq<(U64, V)>)
    ensures forall p :: p in ps ==> p.0 in PutAll(m, ps)
    ensures forall k :: k in PutAll(m, ps) ==>
              (k, PutAll(m, ps)[k]) in ps || (k in m && PutAll(m, ps)[k] == m[k])
    ensures m.Keys <= PutAll(m, ps).Keys
    decreases |ps|
  {
    if ps != [] {
      PutAllContent(m, ps[..|ps| - 1]);
      assert ps == ps[..|ps| - 1] + [ps[|ps| - 1]];
    }
  }

  lemma PutAllRebuilds<V>(ps: seq<(U64, V)>, m: map<U64, V>)
    requires Enumerates(ps, m)
    ensures PutAll(map[], ps) == m
  {
    PutAllContent(map[], ps);
  }

  /** The buffered upserts are stored under their own ids. */
  ghost predicate BufferKeyed(b: Buffer) {
    && (forall p :: p in b.nodeUpserts ==> p.1.id == p.0)
    && (forall p :: p in b.edgeUpserts ==> p.1.id == p.0)
  }

  ghost predicate StateKeyed(st: LogState) {
    Keyed(st.graph) && (st.open.Some? ==> BufferKeyed(st.open.value))
  }

  lemma StepKeyed(st: LogState, r: Record)
    requires StateKeyed(st)
    ensures StateKeyed(Step(st, r))
  {
    if r.CommitTxn? && st.open.Some? {
      PutAllContent(st.graph.nodes, st.open.value.nodeUpserts);
      PutAllContent(st.graph.edges, st.open.value.edgeUpserts);
    }
  }

  lemma {:induction false} RunKeyed(st: LogState, log: seq<Record>)
    requires StateKeyed(st)
    ensures StateKeyed(Run(st, log))
    decreases |log|
  {
    if log != [] {
      RunKeyed(st, log[..|log| - 1]);
      StepKeyed(Run(st, log[..|log| - 1]), log[|log| - 1]);
    }
  }

  ghost predicate BufferFrom(b: Buffer, log: seq<Record>) {
    && (forall p :: p in b.nodeUpserts ==> UpsertNode(p.1) in log)
    && (forall p :: p in b.edgeUpserts ==> UpsertEdge(p.1) in log)
  }

  ghost predicate GraphFrom(g: Graph, log: seq<Record>) {
    && (forall n :: n in g.nodes ==> UpsertNode(g.nodes[n]) in log)
    && (forall e :: e in g.edges ==> UpsertEdge(g.edges[e]) in log)
  }

  ghost predicate StateFrom(st: LogState, log: seq<Record>) {
    GraphFrom(st.graph, log) && (st.open.Some? ==> BufferFrom(st.open.value, log))
  }

  lemma StepFrom(st: LogState, log: seq<Record>, r: Record)
    requires StateFrom(st, log)
    ensures StateFrom(Step(st, r), log + [r])
  {
    assert forall x :: x in log ==> x in log + [r];
    assert r in log + [r];
    if r.CommitTxn? && st.open.Some? {
      PutAllContent(st.graph.nodes, st.open.value.nodeUpserts);
      PutAllContent(st.graph.edges, st.open.value.edgeUpserts);
    }
  }

  /** Whatever a log replays to was written to it. */
  lemma {:induction false} LiveFromLog(log: seq<Record>)
    ensures StateFrom(Replay(log), log)
    decreases |log|
  {
    if log != [] {
      hide Step, StateFrom;
      var log', r := log[..|log| - 1], log[|log| - 1];
      LiveFromLog(log');
      StepFrom(Replay(log'), log', r);
      assert log == log' + [r];
    }
  }

  /** Replaying a compacted log gives the same live content, with no bracket open. */
  lemma CompactionReplays(compact: seq<Record>, log: seq<Record>)
    requires IsCompaction(compact, log)
    ensures Replay(compact) == LogState(Loaded(log), None)
  {
    var g := Loaded(log);
    var ns, es :|
      && Enumerates(ns, g.nodes) && Enumerates(es, g.edges)
      && compact == NodeRecords(ns) + EdgeRecords(es);
    RunKeyed(INITIAL, log);
    RunConcat(INITIAL, NodeRecords(ns), EdgeRecords(es));
    RunData(INITIAL, NodeRecords(ns));
    SequentialNodes(EMPTY_GRAPH, ns);
    PutAllRebuilds(ns, g.nodes);
    RunData(LogState(Graph(g.nodes, map[]), None), EdgeRecords(es));
    SequentialEdges(Graph(g.nodes, map[]), es);
    PutAllRebuilds(es, g.edges);
  }

  /** Compaction is invisible to every later append exactly when no bracket is open. */
  lemma CompactionInvisible(compact: seq<Record>, log: seq<Record>)
    requires IsCompaction(compact, log)
    ensures Indistinguishable(compact, log) <==> Closed(log)
  {
    CompactionReplays(compact, log);
    if Closed(log) {
      SameStateIndistinguishable(compact, log);
    } else {
      OpenBracketShows(compact, log);
    }
  }

  /** Compacting twice changes nothing further: the second compaction holds the same records. */
  lemma CompactionIdempotent(compact: seq<Record>, log: seq<Record>, again: seq<Record>)
    requires IsCompaction(compact, log)
    ensures IsCompaction(compact, compact)
    ensures IsCompaction(again, compact) ==> multiset(again) == multiset(compact)
  {
    CompactionReplays(compact, log);
    if IsCompaction(again, compact) {
      CompactionContent(again, log);
      CompactionContent(compact, log);
      SameElements(again, compact);
    }
  }

  /** The records a compaction of this graph holds. */
  ghost predicate IsLive(r: Record, g: Graph) {
    match r
    case UpsertNode(n) => n.id in g.nodes && g.nodes[n.id] == n
    case UpsertEdge(e) => e.id in g.edges && g.edges[e.id] == e
    case _ => false
  }

  lemma CompactionContent(a: seq<Record>, log: seq<Record>)
    requires IsCompaction(a, log)
    ensures NoDup(a)
    ensures forall r :: r in a <==> IsLive(r, Loaded(log))
  {
    var g := Loaded(log);
    RunKeyed(INITIAL, log);
    var ns, es :|
      && Enumerates(ns, g.nodes) && Enumerates(es, g.edges)
      && a == NodeRecords(ns) + EdgeRecords(es);
    NodeRecordsContent(ns, g);
    EdgeRecordsContent(es, g);
  }

  lemma NodeRecordsContent(ns: seq<(NodeId, Node)>, g: Graph)
    requires Keyed(g) && Enumerates(ns, g.nodes)
    ensures NoDup(NodeRecords(ns))
    ensures forall r :: r in NodeRecords(ns) <==> r.UpsertNode? && IsLive(r, g)
  {
    assert forall i :: 0 <= i < |ns| ==> ns[i] in ns;
    forall r: Record | r.UpsertNode? && IsLive(r, g) ensures r in NodeRecords(ns) {
      var i :| 0 <= i < |ns| && ns[i] == (r.node.id, r.node);
      assert NodeRecords(ns)[i] == r;
    }
  }

  lemma EdgeRecordsContent(es: seq<(EdgeId, Edge)>, g: Graph)
    requires Keyed(g) && Enumerates(es, g.edges)
    ensures NoDup(EdgeRecords(es))
    ensures forall r :: r in EdgeRecords(es) <==> r.UpsertEdge? && IsLive(r, g)
  {
    assert forall i :: 0 <= i < |es| ==> es[i] in es;
    forall r: Record | r.UpsertEdge? && IsLive(r, g) ensures r in EdgeRecords(es) {
      var i :| 0 <= i < |es| && es[i] == (r.edge.id, r.edge);
      assert EdgeRecords(es)[i] == r;
    }
  }

  // ---- Grouped application against record-by-record application ----

  /** What one record does to the node map, or to the edge map. */
  datatype Change<+V> = Put(id: U64, value: V) | Drop(id: U64) | Skip

  function NodeChange(r: Record): Change<Node> {
    match r
    case UpsertNode(n) => Put(n.id, n)
    case DeleteNode(id) => Drop(id)
    case _ => Skip
  }

  function EdgeChange(r: Record): Change<Edge> {
    match r
    case UpsertEdge(e) => Put(e.id, e)
    case DeleteEdge(id) => Drop(id)
    case _ => Skip
  }

  function NodeChanges(rs: seq<Record>): seq<Change<Node>> {
    seq(|rs|, i requires 0 <= i < |rs| => NodeChange(rs[i]))
  }

  function EdgeChanges(rs: seq<Record>): seq<Change<Edge>> {
    seq(|rs|, i requires 0 <= i < |rs| => EdgeChange(rs[i]))
  }

  /** The value under `id` after the changes, one by one. */
  function After<V>(v: Option<V>, cs: seq<Change<V>>, id: U64): Option<V> {
    if cs == [] then v
    else match cs[|cs| - 1]
      case Put(i, value) => if i == id then Some(value) else After(v, cs[..|cs| - 1], id)
      case Drop(i) => if i == id then None else After(v, cs[..|cs| - 1], id)
      case Skip => After(v, cs[..|cs| - 1], id)
  }

  /** The last change about this id puts a value although an earlier one drops it. */
  ghost predicate Revives<V>(cs: seq<Change<V>>, id: U64) {
    exists d, u :: 0 <= d < u < |cs| && cs[d] == Drop(id) && LastIsPut(cs, id, u)
  }

  ghost predicate LastIsPut<V>(cs: seq<Change<V>>, id: U64, u: nat) {
    && u < |cs| && cs[u].Put? && cs[u].id == id
    && forall k :: u < k < |cs| ==> cs[k].Skip? || cs[k].id != id
  }

  /** No id ends the bracket upserted after having been deleted in it. */
  ghost predicate NoRevival(rs: seq<Record>) {
    && (forall id: U64 :: !Revives(NodeChanges(rs), id))
    && (forall id: U64 :: !Revives(EdgeChanges(rs), id))
  }

  lemma {:induction false} SequentialAfter(g: Graph, rs: seq<Record>, id: U64)
    requires AllData(rs)
    ensures Lookup(Sequential(g, rs).nodes, id) == After(Lookup(g.nodes, id), NodeChanges(rs), id)
    ensures Lookup(Sequential(g, rs).edges, id) == After(Lookup(g.edges, id), EdgeChanges(rs), id)
    decreases |rs|
  {
    if rs != [] {
      SequentialAfter(g, rs[..|rs| - 1], id);
      assert NodeChanges(rs)[..|rs| - 1] == NodeChanges(rs[..|rs| - 1]);
      assert EdgeChanges(rs)[..|rs| - 1] == EdgeChanges(rs[..|rs| - 1]);
    }
  }

  function Puts<V>(cs: seq<Change<V>>): seq<(U64, V)> {
    if cs == [] then []
    else Puts(cs[..|cs| - 1]) + match cs[|cs| - 1] case Put(i, v) => [(i, v)] case _ => []
  }

  function Drops<V>(cs: seq<Change<V>>): seq<U64> {
    if cs == [] then []
    else Drops(cs[..|cs| - 1]) + match cs[|cs| - 1] case Drop(i) => [i] case _ => []
  }

  lemma {:induction false} BufferedChanges(t: U64, rs: seq<Record>)
    requires AllData(rs)
    ensures Buffered(EmptyBuffer(t), rs) ==
            Buffer(t, Puts(NodeChanges(rs)), Puts(EdgeChanges(rs)), Drops(NodeChanges(rs)), Drops(EdgeChanges(rs)))
    decreases |rs|
  {
    if rs != [] {
      BufferedChanges(t, rs[..|rs| - 1]);
      assert NodeChanges(rs)[..|rs| - 1] == NodeChanges(rs[..|rs| - 1]);
      assert EdgeChanges(rs)[..|rs| - 1] == EdgeChanges(rs[..|rs| - 1]);
    }
  }

  lemma {:induction false} DropsContent<V>(cs: seq<Change<V>>, id: U64)
    ensures id in Drops(cs) <==> Drop(id) in cs
    decreases |cs|
  {
    if cs != [] {
      DropsContent(cs[..|cs| - 1], id);
      assert cs == cs[..|cs| - 1] + [cs[|cs| - 1]];
    }
  }

  lemma {:induction false} PutsAfter<V>(m: map<U64, V>, cs: seq<Change<V>>, id: U64)
    requires Drop(id) !in cs
    ensures Lookup(PutAll(m, Puts(cs)), id) == After(Lookup(m, id), cs, id)
    decreases |cs|
  {
    if cs != [] {
      assert cs == cs[..|cs| - 1] + [cs[|cs| - 1]];
      PutsAfter(m, cs[..|cs| - 1], id);
      if cs[|cs| - 1].Put? {
        assert Puts(cs)[..|Puts(cs)| - 1] == Puts(cs[..|cs| - 1]);
      } else {
        assert Puts(cs) == Puts(cs[..|cs| - 1]);
      }
    }
  }

  /** One by one, a dropped id ends up present exactly when it was revived. */
  lemma {:induction false} AfterDrop<V>(v: Option<V>, cs: seq<Change<V>>, id: U64)
    requires Drop(id) in cs
    ensures After(v, cs, id).Some? <==> Revives(cs, id)
    decreases |cs|
  {
    var n := |cs| - 1;
    var rest := cs[..n];
    assert cs == rest + [cs[n]];
    if cs[n].Put? && cs[n].id == id {
      assert LastIsPut(cs, id, n);
      var d :| 0 <= d < |cs| && cs[d] == Drop(id);
      assert d < n;
    } else if cs[n] == Drop(id) {
      assert forall u: nat :: LastIsPut(cs, id, u) ==> u == n;
    } else {
      AfterDrop(v, rest, id);
      if Revives(rest, id) {
        var d, u :| 0 <= d < u < |rest| && rest[d] == Drop(id) && LastIsPut(rest, id, u);
        assert cs[d] == Drop(id) && LastIsPut(cs, id, u);
      }
      if Revives(cs, id) {
        var d, u :| 0 <= d < u < |cs| && cs[d] == Drop(id) && LastIsPut(cs, id, u);
        assert rest[d] == Drop(id) && LastIsPut(rest, id, u);
      }
    }
  }

  /** At one id, grouping agrees with one-by-one exactly when the id is not revived. */
  lemma GroupedAt<V>(m: map<U64, V>, cs: seq<Change<V>>, id: U64)
    ensures Lookup(RemoveAll(PutAll(m, Puts(cs)), Drops(cs)), id) == After(Lookup(m, id), cs, id)
       <==> !Revives(cs, id)
  {
    DropsContent(cs, id);
    if Drop(id) in cs {
      AfterDrop(Lookup(m, id), cs, id);
    } else {
      PutsAfter(m, cs, id);
    }
  }

  lemma SameMaps<V>(a: map<U64, V>, b: map<U64, V>)
    requires forall id: U64 :: Lookup(a, id) == Lookup(b, id)
    ensures a == b
  {
    forall id: U64 ensures id in a <==> id in b {
      assert Lookup(a, id) == Lookup(b, id);
    }
    forall id | id in a ensures a[id] == b[id] {
      assert Lookup(a, id) == Lookup(b, id);
    }
  }

  /** COMMIT applies a bracket grouped by kind; from any state that equals applying its records
      one by one in log order exactly when no id ends the bracket upserted after a delete. */
  lemma GroupedEqualsSequential(g: Graph, t: U64, rs: seq<Record>)
    requires AllData(rs)
    ensures ApplyGrouped(g, Buffered(EmptyBuffer(t), rs)) == Sequential(g, rs) <==> NoRevival(rs)
  {
    var grouped, one := ApplyGrouped(g, Buffered(EmptyBuffer(t), rs)), Sequential(g, rs);
    BufferedChanges(t, rs);
    forall id: U64
      ensures Lookup(grouped.nodes, id) == Lookup(one.nodes, id) <==> !Revives(NodeChanges(rs), id)
      ensures Lookup(grouped.edges, id) == Lookup(one.edges, id) <==> !Revives(EdgeChanges(rs), id)
    {
      GroupedAt(g.nodes, NodeChanges(rs), id);
      GroupedAt(g.edges, EdgeChanges(rs), id);
      SequentialAfter(g, rs, id);
    }
    if NoRevival(rs) {
      SameMaps(grouped.nodes, one.nodes);
      SameMaps(grouped.edges, one.edges);
    }
  }
}
