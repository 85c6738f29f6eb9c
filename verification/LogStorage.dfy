/** A storage adapter at record level. Without markers it is the JSON log of
    src/adapters/storage/json_file.rs; with markers, the record view of the binary log. */
module LogStorage {
  import opened Core
  import opened WalLog

  class LogStorage {
    /** Whether BEGIN/COMMIT/ROLLBACK are written; the default of the storage port is to skip them. */
    const markers: bool
    var log: seq<Record>

    constructor (markers: bool)
      ensures log == [] && this.markers == markers
    {
      this.markers := markers;
      log := [];
    }

    method Save(r: Record)
      modifies this
      ensures log == old(log) + [r]
    {
      log := log + [r];
    }

    method Mark(r: Record)
      requires !r.Data?()
      modifies this
      ensures log == if markers then old(log) + [r] else old(log)
    {
      if markers {
        log := log + [r];
      }
    }

    /** The replay loop. */
    method Load() returns (g: Graph)
      ensures g == Loaded(log)
    {
      var st := INITIAL;
      for i := 0 to |log|
        invariant st == Replay(log[..i])
      {
        ReplayAppend(log[..i], log[i]);
        assert log[..i + 1] == log[..i] + [log[i]];
        st := Step(st, log[i]);
      }
      assert log[..|log|] == log;
      g := st.graph;
    }

    /** One upsert per live record, nodes before edges, in whatever order the maps come. */
    method Compact()
      modifies this
      ensures IsCompaction(log, old(log))
    {
      hide Enumerates;
      var g := Load();
      var nodes, ns := UpsertNodes(g.nodes);
      var edges, es := UpsertEdges(g.edges);
      log := nodes + edges;
    }
  }

  method UpsertNodes(m: map<NodeId, Node>) returns (tmp: seq<Record>, ghost ns: seq<(NodeId, Node)>)
    ensures Enumerates(ns, m) && tmp == NodeRecords(ns)
    ensures exists order :: Enumerates(order, m) && tmp == NodeRecords(order)
  {
    hide Enumerates;
    tmp, ns := [], [];
    var left := m.Keys;
    EnumeratesNone(m);
    while left != {}
      invariant left <= m.Keys && tmp == NodeRecords(ns) && Enumerates(ns, m - left)
      decreases |left|
    {
      var k :| k in left;
      EnumeratesSnoc(ns, m, left, k);
      assert NodeRecords(ns + [(k, m[k])]) == NodeRecords(ns) + [UpsertNode(m[k])];
      tmp := tmp + [UpsertNode(m[k])];
      ns := ns + [(k, m[k])];
      left := left - {k};
    }
    assert m - {} == m;
  }

  method UpsertEdges(m: map<EdgeId, Edge>) returns (tmp: seq<Record>, ghost es: seq<(EdgeId, Edge)>)
    ensures Enumerates(es, m) && tmp == EdgeRecords(es)
    ensures exists order :: Enumerates(order, m) && tmp == EdgeRecords(order)
  {
    hide Enumerates;
    tmp, es := [], [];
    var left := m.Keys;
    EnumeratesNone(m);
    while left != {}
      invariant left <= m.Keys && tmp == EdgeRecords(es) && Enumerates(es, m - left)
      decreases |left|
    {
      var k :| k in left;
      EnumeratesSnoc(es, m, left, k);
      assert EdgeRecords(es + [(k, m[k])]) == EdgeRecords(es) + [UpsertEdge(m[k])];
      tmp := tmp + [UpsertEdge(m[k])];
      es := es + [(k, m[k])];
      left := left - {k};
    }
    assert m - {} == m;
  }
}
