/** The assembled database, src/database/layered.rs. */
module Database {
  import opened Core
  import opened WalLog
  import opened GraphOps
  import opened CommitLog
  import opened CommitOutcome
  import opened CommitRun
  import opened CommitTrace
  import opened Memory
  import opened Engine
  import opened QueryAst
  import opened Conditions
  import opened LogStorage
  import Buckets
  import LruCache
  import LabelIndex
  import PropertyIndex
  import IdGenerator
  import Transaction

  /** `ns` holds the live nodes with these ids, each once, and no other. */
  ghost predicate AreNodes(ns: seq<Node>, g: Graph, ids: set<NodeId>) {
    && NoDup(ns)
    && (forall n :: n in ns <==> n.id in ids && Lookup(g.nodes, n.id) == Some(n))
  }

  ghost predicate AreEdges(es: seq<Edge>, g: Graph, ids: set<EdgeId>) {
    && NoDup(es)
    && (forall e :: e in es <==> e.id in ids && Lookup(g.edges, e.id) == Some(e))
  }

  class Database {
    const engine: AdjacencyListEngine
    const cache: LruCache.LruCache
    const storage: LogStorage
    const labelIndex: LabelIndex.LabelIndex
    const propertyIndex: PropertyIndex.PropertyIndex
    const idGenerator: IdGenerator.IdGenerator
    const autoCompactAfterWrites: Option<nat>
    var writesSinceCompact: nat

    /** The live graph all layers stand for. */
    ghost var graph: Graph

    /** The nodes the two indexes list. */
    ghost var indexed: map<NodeId, Node>

    ghost function Layers(): Memory
      reads this`indexed, engine, cache, labelIndex, propertyIndex, idGenerator
    {
      Memory(engine.nodes, engine.edges, cache.nodeList.contents, cache.edgeList.contents,
             labelIndex.index, propertyIndex.fields, indexed, idGenerator.nextNode, idGenerator.nextEdge)
    }

    /** All layers are in step with the live graph, though the indexes may list dead nodes as well. */
    ghost predicate Running()
      reads this, engine, cache, labelIndex, propertyIndex, idGenerator
    {
      engine.Valid() && cache.Valid() && Usable(Layers(), propertyIndex.fm, graph)
    }

    ghost predicate Valid()
      reads this, engine, cache, labelIndex, propertyIndex, idGenerator
    {
      Running() && indexed == graph.nodes
    }

    /** The layers stand for the graph, except that the engine may list edges whose ends it never
        was told of as nodes. */
    ghost predicate Rebuilt()
      reads this, engine, cache, labelIndex, propertyIndex, idGenerator
    {
      && cache.Valid() && InStep(Layers(), propertyIndex.fm, graph) && indexed == graph.nodes
      && Mirrors(engine.Maps(), graph.nodes.Keys, engine.edges)
    }

    /** The log stands for the live graph. */
    ghost predicate Durable()
      reads this, storage
    {
      Faithful(storage.log, graph)
    }

    /** The next write triggers a compaction. */
    predicate CompactionDue()
      reads this
    {
      autoCompactAfterWrites.Some? && writesSinceCompact + 1 >= autoCompactAfterWrites.value
    }

    /** A read of the node finds it, in the cache or in storage. */
    ghost predicate Finds(id: NodeId)
      reads cache, storage
    {
      id in cache.nodeList.contents || id in Loaded(storage.log).nodes
    }

    /** A read of the node misses it although it is live. */
    ghost predicate Misses(id: NodeId)
      reads this, cache, storage
    {
      id in graph.nodes && !Finds(id)
    }

    /** Storage serves the node the indexes list, if it serves one. */
    ghost predicate ServesIndexed(id: NodeId)
      reads this, storage
    {
      id in indexed && id in Loaded(storage.log).nodes ==> indexed[id] == Loaded(storage.log).nodes[id]
    }

    ghost function CacheAfterRead(id: NodeId): Recent
      reads cache, storage
    {
      AfterRead(cache.nodeList, cache.nodeCapacity, id, Lookup(Loaded(storage.log).nodes, id))
    }

    ghost function CacheAfterDelete(id: NodeId): Recent
      reads cache, storage
    {
      CacheAfterRead(id).Invalidate(id)
    }

    /** A write that left this log, write counter and node cache was counted, and compacted if `due`. */
    ghost predicate Counted(due: bool, log: seq<Record>, writes: nat, cached: Recent)
      reads this, cache, storage
    {
      && AfterWrite(storage.log, log, due) && writesSinceCompact == (if due then 0 else writes + 1)
      && cache.nodeList == if due then NOTHING_CACHED else cached
    }

    constructor (storage: LogStorage, cache: LruCache.LruCache, engine: AdjacencyListEngine,
                 fm: FloatModel, autoCompactAfterWrites: Option<nat>)
      requires cache.Valid() && cache.nodeList.contents == map[] && cache.edgeList.contents == map[]
      requires engine.Valid() && engine.nodes == {} && engine.edges == map[]
      ensures Valid() && graph == EMPTY_GRAPH
      ensures this.storage == storage && this.cache == cache && this.engine == engine
      ensures propertyIndex.fm == fm && fresh(labelIndex) && fresh(propertyIndex) && fresh(idGenerator)
      ensures this.autoCompactAfterWrites == autoCompactAfterWrites && writesSinceCompact == 0
    {
      this.storage, this.cache, this.engine := storage, cache, engine;
      this.autoCompactAfterWrites, this.writesSinceCompact := autoCompactAfterWrites, 0;
      labelIndex := new LabelIndex.LabelIndex();
      propertyIndex := new PropertyIndex.PropertyIndex(fm);
      idGenerator := new IdGenerator.IdGenerator();
      graph, indexed := EMPTY_GRAPH, map[];
      new;
      hide Valid, Layers, LruCache.LruCache.Valid, AdjacencyListEngine.Valid;
      EmptyValid();
    }

    /** Open on a log, with an empty cache and an empty engine: everything in memory is rebuilt
        from what the log loads, in whatever order storage yields it. Edges are taken as they come,
        so the database is valid exactly when none of them dangles. */
    static method OpenWithConfig(storage: LogStorage, cache: LruCache.LruCache, engine: AdjacencyListEngine,
                                 fm: FloatModel, autoCompactAfterWrites: Option<nat>)
      returns (db: Database)
      requires cache.Valid() && cache.nodeList.contents == map[] && cache.edgeList.contents == map[]
      requires engine.Valid() && engine.nodes == {} && engine.edges == map[]
      requires Below(Loaded(storage.log).nodes, MAX_U64) && Below(Loaded(storage.log).edges, MAX_U64)
      modifies engine
      ensures fresh(db) && db.graph == Loaded(storage.log) && db.Rebuilt()
      ensures db.Valid() <==> NoDangling(Loaded(storage.log))
      ensures db.storage == storage && db.cache == cache && db.engine == engine
      ensures db.propertyIndex.fm == fm && fresh(db.labelIndex) && fresh(db.propertyIndex) && fresh(db.idGenerator)
      ensures db.autoCompactAfterWrites == autoCompactAfterWrites && db.writesSinceCompact == 0
    {
      hide Database.Valid, Database.Rebuilt, Loaded, NoDangling, Below, LruCache.LruCache.Valid,
           AdjacencyListEngine.Valid;
      var g := storage.Load();
      db := OpenLoaded(storage, g, cache, engine, fm, autoCompactAfterWrites);
    }

    /** The same once storage has read its log, from memory or from the bytes of a file. */
    static method OpenLoaded(storage: LogStorage, g: Graph, cache: LruCache.LruCache, engine: AdjacencyListEngine,
                             fm: FloatModel, autoCompactAfterWrites: Option<nat>)
      returns (db: Database)
      requires cache.Valid() && cache.nodeList.contents == map[] && cache.edgeList.contents == map[]
      requires engine.Valid() && engine.nodes == {} && engine.edges == map[]
      requires g == Loaded(storage.log) && Below(g.nodes, MAX_U64) && Below(g.edges, MAX_U64)
      modifies engine
      ensures fresh(db) && db.graph == g && db.Rebuilt()
      ensures db.Valid() <==> NoDangling(g)
      ensures db.storage == storage && db.cache == cache && db.engine == engine
      ensures db.propertyIndex.fm == fm && fresh(db.labelIndex) && fresh(db.propertyIndex) && fresh(db.idGenerator)
      ensures db.autoCompactAfterWrites == autoCompactAfterWrites && db.writesSinceCompact == 0
    {
      hide Database.Valid, Database.Rebuilt, Database.Layers, Loaded, NoDangling, Below, LruCache.LruCache.Valid,
           AdjacencyListEngine.Valid;
      LoadedKeyed(storage.log);
      db := new Database(storage, cache, engine, fm, autoCompactAfterWrites);
      db.RebuildNodes(g);
      db.RebuildEdges(g);
    }

    lemma EmptyValid()
      requires engine.Valid() && engine.nodes == {} && engine.edges == map[]
      requires graph == EMPTY_GRAPH && indexed == map[]
      requires cache.Valid() && cache.nodeList.contents == map[] && cache.edgeList.contents == map[]
      requires labelIndex.index == map[] && propertyIndex.fields == map[]
      requires idGenerator.nextNode == 0 && idGenerator.nextEdge == 0
      ensures Valid()
    {
      hide Usable, LruCache.LruCache.Valid, AdjacencyListEngine.Valid;
      EmptyCoherent(propertyIndex.fm);
    }

    /** With every end a node, nothing is missing. */
    lemma RebuiltIsValid()
      requires Rebuilt() && (NoDangling(graph) ==> engine.nodes == graph.nodes.Keys)
      ensures Valid() <==> NoDangling(graph)
    {
      hide InStep, LruCache.LruCache.Valid;
      if NoDangling(graph) {
        StepLinks(Layers(), propertyIndex.fm, graph);
        LinksEnd(engine.edges, graph);
        MirrorsRepresents(engine.Maps(), engine.nodes, engine.edges);
      }
    }

    lemma ValidIsRebuilt()
      requires Valid()
      ensures Rebuilt() && engine.nodes == graph.nodes.Keys
    {
      hide InStep, LruCache.LruCache.Valid;
      MirrorsRepresents(engine.Maps(), engine.nodes, engine.edges);
    }

    method RebuildNodes(g: Graph)
      requires Valid() && graph == EMPTY_GRAPH && Keyed(g) && Below(g.nodes, MAX_U64)
      modifies this`graph, this`indexed, engine, labelIndex, propertyIndex, idGenerator
      ensures Valid() && graph == Graph(g.nodes, map[])
    {
      hide Usable, LruCache.LruCache.Valid, AdjacencyListEngine.Valid;
      var left := g.nodes.Keys;
      while left != {}
        invariant Valid() && left <= g.nodes.Keys && graph == Graph(g.nodes - left, map[])
        decreases |left|
      {
        var id :| id in left;
        TakeOne(g.nodes, left, id);
        RebuildNode(g.nodes[id]);
        left := left - {id};
      }
      assert g.nodes - {} == g.nodes;
    }

    method RebuildNode(node: Node)
      requires Valid() && node.id !in graph.nodes && node.id < MAX_U64
      modifies this`graph, this`indexed, engine, labelIndex, propertyIndex, idGenerator
      ensures Valid() && graph == old(graph).(nodes := old(graph.nodes)[node.id := node])
    {
      hide Usable, LruCache.LruCache.Valid, AdjacencyListEngine.Valid, PropertyIndex.Added, SubMap, Below, NoDangling,
           Keyed, AreLinks, Buckets.BucketInsert, LabelIndex.Exact, PropertyIndex.Exact, LruCache.Contains, Lookup;
      ghost var before := Layers();
      GraphOf(before, propertyIndex.fm, graph);
      SubMapGrow(before.cachedNodes, graph.nodes, node.id, node);
      idGenerator.SeedFromNode(node.id);
      engine.InsertNode(node.id);
      labelIndex.Insert(node.id, node.lbl);
      propertyIndex.InsertNode(node.id, node.properties);
      indexed := indexed[node.id := node];
      InsertNodeUsable(Layers(), before, propertyIndex.fm, graph, node);
      graph := graph.(nodes := graph.nodes[node.id := node]);
    }

    method RebuildEdges(g: Graph)
      requires Valid() && graph == Graph(g.nodes, map[]) && Keyed(g) && Below(g.edges, MAX_U64)
      modifies this`graph, engine, idGenerator
      ensures graph == g && Rebuilt()
      ensures Valid() <==> NoDangling(graph)
    {
      hide Valid, Rebuilt;
      ValidIsRebuilt();
      var left := g.edges.Keys;
      while left != {}
        invariant Rebuilt() && left <= g.edges.Keys && graph == Graph(g.nodes, g.edges - left)
        invariant NoDangling(g) ==> engine.nodes == g.nodes.Keys
        decreases |left|
      {
        var id :| id in left;
        TakeOne(g.edges, left, id);
        RebuildEdge(g.edges[id]);
        left := left - {id};
      }
      assert g.edges - {} == g.edges;
      RebuiltIsValid();
    }

    method RebuildEdge(edge: Edge)
      requires Rebuilt() && edge.id !in graph.edges && edge.id < MAX_U64
      modifies this`graph, engine, idGenerator
      ensures Rebuilt() && graph == old(graph).(edges := old(graph.edges)[edge.id := edge])
      ensures engine.nodes == old(engine.nodes) + {edge.source, edge.target}
    {
      hide InStep, Mirrors, LruCache.LruCache.Valid, AdjacencyListEngine.Valid, SubMap, AreLinks, WithEdge;
      ghost var before := Layers();
      StepLinks(before, propertyIndex.fm, graph);
      SubMapGrow(before.cachedEdges, graph.edges, edge.id, edge);
      LinksKeys(engine.edges, graph);
      WithEdgeMirrors(engine.Maps(), graph.nodes.Keys, engine.edges, edge.id,
                      Link(edge.source, edge.target, edge.weight));
      idGenerator.SeedFromEdge(edge.id);
      engine.InsertEdge(edge.id, edge.source, edge.target, edge.weight);
      InsertEdgeInStep(Layers(), before, propertyIndex.fm, graph, edge);
      graph := graph.(edges := graph.edges[edge.id := edge]);
    }

    // ---- Maintenance ----

    lemma RunningLive()
      requires Running()
      ensures NoDangling(graph) && cache.nodeList.contents.Keys <= graph.nodes.Keys
    {
    }

    method Compact()
      requires Running()
      modifies this`writesSinceCompact, cache, storage
      ensures Running() && (old(Valid()) ==> Valid())
      ensures writesSinceCompact == 0 && cache.nodeList == NOTHING_CACHED
      ensures IsCompaction(storage.log, old(storage.log))
      ensures Replay(storage.log) == LogState(old(Loaded(storage.log)), None)
      ensures NeverDangles(storage.log) <==> NoDangling(Loaded(storage.log))
      ensures old(Durable()) ==> Durable()
    {
      hide Usable, LruCache.LruCache.Valid, AdjacencyListEngine.Valid, NeverDangles, IsCompaction, Keyed, NoDangling,
           Run;
      ghost var before, log := Layers(), storage.log;
      GraphOf(before, propertyIndex.fm, graph);
      storage.Compact();
      cache.Clear();
      writesSinceCompact := 0;
      CompactedLog(storage.log, log);
      CleanLoads(log);
      CacheChangeUsable(Layers(), before, propertyIndex.fm, graph);
    }

    method OnWrite()
      requires Running()
      modifies this`writesSinceCompact, cache, storage
      ensures Running() && (old(Valid()) ==> Valid()) && (old(Durable()) ==> Durable())
      ensures Loaded(storage.log) == old(Loaded(storage.log))
      ensures Counted(old(CompactionDue()), old(storage.log), old(writesSinceCompact), old(cache.nodeList))
      ensures if old(autoCompactAfterWrites.Some? && writesSinceCompact + 1 >= autoCompactAfterWrites.value)
              then writesSinceCompact == 0 && IsCompaction(storage.log, old(storage.log))
              else writesSinceCompact == old(writesSinceCompact) + 1 && storage.log == old(storage.log)
    {
      hide Usable, LruCache.LruCache.Valid, AdjacencyListEngine.Valid, Run, NeverDangles, IsCompaction;
      writesSinceCompact := writesSinceCompact + 1;
      if autoCompactAfterWrites.Some? && writesSinceCompact >= autoCompactAfterWrites.value {
        Compact();
      }
    }

    // ---- Nodes ----

    lemma CountedGrows(log: seq<Record>, rs: seq<Record>, due: bool, g: Graph, op: Transaction.StagedOp)
      requires exists writes, cached :: Counted(due, log + rs, writes, cached)
      requires WrittenBy(rs, g, op)
      ensures Grown(storage.log, log, [op])
    {
      WrittenGrows(storage.log, log, rs, due, g, op);
    }

    /** The node goes to storage, cache, engine and indexes. */
    method StoreNode(node: Node)
      requires engine.Valid() && cache.Valid()
      modifies this`indexed, engine, cache, storage, labelIndex, propertyIndex
      ensures engine.Valid() && cache.Valid() && NodeStored(Layers(), old(Layers()), propertyIndex.fm, node)
      ensures storage.log == old(storage.log) + [UpsertNode(node)]
      ensures cache.nodeList == old(cache.nodeList).Put(cache.nodeCapacity, node.id, node)
    {
      hide LruCache.LruCache.Valid, AdjacencyListEngine.Valid, PropertyIndex.Added, SubMap, LruCache.Recency.Put,
           Buckets.BucketInsert;
      PutGrows(cache.nodeList, cache.nodeCapacity, node.id, node);
      storage.Save(UpsertNode(node));
      cache.PutNode(node);
      engine.InsertNode(node.id);
      labelIndex.Insert(node.id, node.lbl);
      propertyIndex.InsertNode(node.id, node.properties);
      indexed := indexed[node.id := node];
    }

    method InsertNode(lbl: string, props: Properties) returns (id: NodeId)
      requires Valid() && Durable() && idGenerator.nextNode < MAX_U64
      modifies this, engine, cache, storage, labelIndex, propertyIndex, idGenerator
      ensures Valid() && Durable()
      ensures id == old(idGenerator.nextNode) && id !in old(graph.nodes)
      ensures graph == old(graph).(nodes := old(graph.nodes)[id := Node(id, lbl, props)])
      ensures Grown(storage.log, old(storage.log), [Transaction.InsertNode(Node(id, lbl, props))])
    {
      hide Faithful, Usable, LruCache.LruCache.Valid, AdjacencyListEngine.Valid, NeverDangles, Replay, Counted,
           PropertyIndex.Added, SubMap, NoDangling, Keyed, Below, AreLinks, LruCache.Recency.Put, Buckets.BucketInsert;
      ghost var before := Layers();
      GraphOf(before, propertyIndex.fm, graph);
      id := idGenerator.NextNodeId();
      var node := Node(id, lbl, props);
      StoreNode(node);
      InsertNodeUsable(Layers(), before, propertyIndex.fm, graph, node);
      ghost var before' := graph;
      graph := graph.(nodes := graph.nodes[id := node]);
      GraphOf(Layers(), propertyIndex.fm, graph);
      AppendOne(old(storage.log), UpsertNode(node), before');
      OnWrite();
      CountedGrows(old(storage.log), [UpsertNode(node)], old(CompactionDue()), before', Transaction.InsertNode(node));
    }

    /** Cache first, then storage, filling the cache. While the log is behind the live graph the
        answer of storage may be stale; otherwise it is the live node. */
    method GetNode(id: NodeId) returns (r: Option<Node>)
      requires Running()
      modifies cache
      ensures cache.Valid() && cache.edgeList == old(cache.edgeList)
      ensures r == if id in old(cache.nodeList.contents) then Lookup(graph.nodes, id)
                   else Lookup(Loaded(storage.log).nodes, id)
      ensures cache.nodeList == old(CacheAfterRead(id))
      ensures SubMap(cache.nodeList.contents - {id}, old(cache.nodeList.contents))
      ensures Durable() ==> Running() && (old(Valid()) ==> Valid()) && r == Lookup(graph.nodes, id)
    {
      hide Usable, LruCache.LruCache.Valid, AdjacencyListEngine.Valid, NeverDangles, Replay, PropertyIndex.Added,
           PropertyIndex.Removed, Minus, SubMap, NoDangling, Keyed, Below, AreLinks, Closed, Loaded,
           LruCache.Recency.Put, Buckets.BucketInsert, Buckets.BucketRemove;
      ghost var before := Layers();
      GraphOf(before, propertyIndex.fm, graph);
      SubMapGet(cache.nodeList.contents, graph.nodes, id);
      r := cache.GetNode(id);
      if r.None? {
        var g := storage.Load();
        r := Lookup(g.nodes, id);
        if r.Some? {
          LoadedKeyed(storage.log);
          PutFacts(cache.nodeList, cache.nodeCapacity, id, r.value, graph.nodes);
          cache.PutNode(r.value);
        }
      }
      if Durable() {
        CacheChangeUsable(Layers(), before, propertyIndex.fm, graph);
      }
    }

    /** The indexes let go of the node exactly when a read finds it. */
    method DeleteNode(id: NodeId) returns (ghost tombstones: seq<Record>)
      requires Running() && ServesIndexed(id)
      modifies this, engine, cache, storage, labelIndex, propertyIndex
      ensures Running() && graph == WithoutNode(old(graph), id)
      ensures indexed == if old(Finds(id)) then old(indexed) - {id} else old(indexed)
      ensures old(Valid()) ==> (Valid() <==> !old(Misses(id)))
      ensures old(Durable()) ==> Durable()
      ensures IsCascade(old(graph), tombstones, id)
      ensures Counted(old(CompactionDue()), old(storage.log) + tombstones + [Record.DeleteNode(id)],
                      old(writesSinceCompact), old(CacheAfterDelete(id)))
    {
      hide Running, Layers, Faithful, NeverDangles, Loaded, NoDangling, WithoutNode, IsCascade, Counted, Finds,
           ServesIndexed, CacheAfterDelete;
      RunningLive();
      tombstones := RemoveNode(id);
      if old(Durable()) {
        AppendCascade(old(storage.log), tombstones, old(graph), id);
      }
      IndexedWithout(old(graph), id);
      OnWrite();
    }

    /** The deletion itself, before the write is counted. */
    method RemoveNode(id: NodeId) returns (ghost tombstones: seq<Record>)
      requires Running() && ServesIndexed(id)
      modifies this`graph, this`indexed, engine, cache, storage, labelIndex, propertyIndex
      ensures Running() && graph == WithoutNode(old(graph), id)
      ensures indexed == if old(Finds(id)) then old(indexed) - {id} else old(indexed)
      ensures IsCascade(old(graph), tombstones, id)
      ensures storage.log == old(storage.log) + tombstones + [Record.DeleteNode(id)]
      ensures cache.nodeList == old(CacheAfterDelete(id))
    {
      hide Usable, LruCache.LruCache.Valid, AdjacencyListEngine.Valid, Replay, PropertyIndex.Removed, Minus, IsCascade,
           Buckets.BucketRemove, WithoutTouching, WithoutNode, Finds, ServesIndexed, CacheAfterRead, SubMap, Loaded,
           KeepsOrder;
      ghost var before := Layers();
      var read;
      read, tombstones := BuryAndRead(id);
      if read.Some? {
        labelIndex.Remove(id, read.value.lbl);
        propertyIndex.RemoveNode(id, read.value.properties);
        indexed := indexed - {id};
      }
      storage.Save(Record.DeleteNode(id));
      cache.InvalidateNode(id);
      engine.RemoveNode(id);
      DeleteNodeUsable(Layers(), before, propertyIndex.fm, graph, id, read);
      graph := WithoutNode(graph, id);
    }

    method BuryAndRead(id: NodeId) returns (read: Option<Node>, ghost tombstones: seq<Record>)
      requires Running() && ServesIndexed(id)
      modifies cache, storage
      ensures cache.Valid() && (read.Some? && id in indexed ==> read.value == indexed[id])
      ensures read.Some? <==> old(Finds(id))
      ensures cache.nodeList == old(CacheAfterRead(id))
      ensures SubMap(cache.nodeList.contents - {id}, old(cache.nodeList.contents))
      ensures SubMap(cache.edgeList.contents, old(cache.edgeList.contents))
      ensures forall e :: e in cache.edgeList.contents && e in graph.edges ==> !EdgeTouches(graph.edges[e], id)
      ensures IsCascade(graph, tombstones, id) && storage.log == old(storage.log) + tombstones
    {
      hide Usable, LruCache.LruCache.Valid, AdjacencyListEngine.Valid, Replay, Minus, SubMap, IsCascade, NoDangling,
           Keyed, Below, AreLinks, LruCache.Recency.Put, Loaded, AfterRead;
      ghost var before := Layers();
      GraphOf(before, propertyIndex.fm, graph);
      SubMapGet(cache.nodeList.contents, graph.nodes, id);
      SubMapGet(graph.nodes, indexed, id);
      tombstones := BuryEdges(id);
      CascadeKeepsNodes(old(storage.log), tombstones, graph, id);
      SubMapTrans(cache.edgeList.contents, before.cachedEdges, graph.edges);
      CacheChangeUsable(Layers(), before, propertyIndex.fm, graph);
      read := GetNode(id);
    }

    /** Tombstones for the edges the engine lists at the node, outgoing then incoming. */
    method BuryEdges(id: NodeId) returns (ghost tombstones: seq<Record>)
      requires Running()
      modifies cache, storage
      ensures cache.Valid() && cache.nodeList == old(cache.nodeList)
      ensures SubMap(cache.edgeList.contents, old(cache.edgeList.contents))
      ensures forall e :: e in cache.edgeList.contents && e in graph.edges ==> !EdgeTouches(graph.edges[e], id)
      ensures IsCascade(graph, tombstones, id) && storage.log == old(storage.log) + tombstones
    {
      hide Usable, LruCache.LruCache.Valid, AdjacencyListEngine.Valid, AreLinks, Exact, IsCascade, Minus;
      GraphOf(Layers(), propertyIndex.fm, graph);
      var outgoing := engine.NeighborsOutgoing(id);
      var incoming := engine.NeighborsIncoming(id);
      IncidentEdges(graph, engine.edges, outgoing, incoming, id);
      BuryEach(outgoing + incoming);
      tombstones := Tombstones(outgoing + incoming);
    }

    method BuryEach(incident: seq<Neighbor>)
      requires cache.Valid()
      modifies cache, storage
      ensures cache.Valid() && cache.nodeList == old(cache.nodeList)
      ensures SubMap(cache.edgeList.contents, old(cache.edgeList.contents))
      ensures forall i :: 0 <= i < |incident| ==> incident[i].edgeId !in cache.edgeList.contents
      ensures storage.log == old(storage.log) + Tombstones(incident)
    {
      hide LruCache.Refines, Minus;
      for i := 0 to |incident|
        invariant cache.Valid() && cache.nodeList == old(cache.nodeList)
        invariant SubMap(cache.edgeList.contents, old(cache.edgeList.contents))
        invariant forall j :: 0 <= j < i ==> incident[j].edgeId !in cache.edgeList.contents
        invariant storage.log == old(storage.log) + Tombstones(incident)[..i]
      {
        storage.Save(Record.DeleteEdge(incident[i].edgeId));
        cache.InvalidateEdge(incident[i].edgeId);
      }
    }

    // ---- Edges ----

    /** The edge goes to storage, cache and engine. */
    method StoreEdge(edge: Edge)
      requires engine.Valid() && cache.Valid() && edge.id !in engine.edges
      requires edge.source in engine.nodes && edge.target in engine.nodes
      modifies engine, cache, storage
      ensures engine.Valid() && cache.Valid() && EdgeStored(Layers(), old(Layers()), edge)
      ensures storage.log == old(storage.log) + [UpsertEdge(edge)] && cache.nodeList == old(cache.nodeList)
    {
      hide WithEdge, AdjacencyListEngine.Maps, LruCache.LruCache.Valid, AdjacencyListEngine.Valid, SubMap,
           LruCache.Recency.Put;
      PutGrows(cache.edgeList, cache.edgeCapacity, edge.id, edge);
      storage.Save(UpsertEdge(edge));
      cache.PutEdge(edge);
      engine.InsertEdge(edge.id, edge.source, edge.target, edge.weight);
    }

    method InsertEdge(source: NodeId, target: NodeId, lbl: string, weight: F64, props: Properties)
      returns (r: Result<EdgeId, NodeId>)
      requires Valid() && Durable() && idGenerator.nextEdge < MAX_U64
      modifies this, engine, cache, storage, idGenerator
      ensures Valid() && Durable()
      ensures r == if source !in old(graph.nodes) then Err(source)
                   else if target !in old(graph.nodes) then Err(target)
                   else Ok(old(idGenerator.nextEdge))
      ensures r.Err? ==> graph == old(graph)
      ensures r.Ok? ==> r.value !in old(graph.edges)
      ensures r.Ok? ==>
        graph == old(graph).(edges := old(graph.edges)[r.value := Edge(r.value, source, target, lbl, weight, props)])
      ensures match r
              case Ok(id) => Grown(storage.log, old(storage.log),
                                   [Transaction.InsertEdge(Edge(id, source, target, lbl, weight, props))])
              case Err(_) => storage.log == old(storage.log)
    {
      hide Faithful, Usable, LruCache.LruCache.Valid, AdjacencyListEngine.Valid, NeverDangles, Replay, Counted, SubMap,
           NoDangling, Keyed, Below, AreLinks;
      ghost var before := Layers();
      GraphOf(before, propertyIndex.fm, graph);
      LinksKeys(engine.edges, graph);
      if !engine.ContainsNode(source) {
        return Err(source);
      }
      if !engine.ContainsNode(target) {
        return Err(target);
      }
      var id := idGenerator.NextEdgeId();
      var edge := Edge(id, source, target, lbl, weight, props);
      StoreEdge(edge);
      InsertEdgeUsable(Layers(), before, propertyIndex.fm, graph, edge);
      ghost var before' := graph;
      graph := graph.(edges := graph.edges[id := edge]);
      GraphOf(Layers(), propertyIndex.fm, graph);
      AppendOne(old(storage.log), UpsertEdge(edge), before');
      OnWrite();
      CountedGrows(old(storage.log), [UpsertEdge(edge)], old(CompactionDue()), before', Transaction.InsertEdge(edge));
      r := Ok(id);
    }

    method DeleteEdge(id: EdgeId)
      requires Running()
      modifies this, engine, cache, storage
      ensures Running() && graph == old(graph).(edges := old(graph.edges) - {id}) && indexed == old(indexed)
      ensures old(Valid()) ==> Valid()
      ensures old(Durable()) ==> Durable()
      ensures Counted(old(CompactionDue()), old(storage.log) + [Record.DeleteEdge(id)], old(writesSinceCompact),
                      old(cache.nodeList))
    {
      hide Faithful, Usable, LruCache.LruCache.Valid, AdjacencyListEngine.Valid, NeverDangles, Replay,
           PropertyIndex.Added, PropertyIndex.Removed, Minus, SubMap, NoDangling, Keyed, Below, AreLinks, Closed,
           Loaded, LruCache.Recency.Put, Buckets.BucketInsert, Buckets.BucketRemove, AfterWrite;
      ghost var before := Layers();
      GraphOf(before, propertyIndex.fm, graph);
      storage.Save(Record.DeleteEdge(id));
      cache.InvalidateEdge(id);
      engine.RemoveEdge(id);
      DeleteEdgeUsable(Layers(), before, propertyIndex.fm, graph, id);
      ghost var before' := graph;
      graph := graph.(edges := graph.edges - {id});
      GraphOf(Layers(), propertyIndex.fm, graph);
      if old(Durable()) {
        AppendOne(old(storage.log), Record.DeleteEdge(id), before');
      }
      OnWrite();
    }

    method GetEdge(id: EdgeId) returns (r: Option<Edge>)
      requires Valid() && Durable()
      modifies cache
      ensures Valid() && r == Lookup(graph.edges, id)
    {
      hide Usable, LruCache.LruCache.Valid, AdjacencyListEngine.Valid, NeverDangles, Replay, SubMap,
           LruCache.Recency.Put;
      ghost var before := Layers();
      GraphOf(before, propertyIndex.fm, graph);
      SubMapGet(cache.edgeList.contents, graph.edges, id);
      r := cache.GetEdge(id);
      if r.None? {
        var g := storage.Load();
        r := Lookup(g.edges, id);
        if r.Some? {
          LoadedKeyed(storage.log);
          PutFacts(cache.edgeList, cache.edgeCapacity, id, r.value, graph.edges);
          cache.PutEdge(r.value);
        }
      }
      CacheChangeUsable(Layers(), before, propertyIndex.fm, graph);
    }

    // ---- Reading many ----

    /** The live nodes among `ids`. */
    method LoadNodes(ids: seq<NodeId>, ghost members: set<NodeId>) returns (ns: seq<Node>)
      requires Valid() && Durable() && ListsOnce(ids, members)
      modifies cache
      ensures Valid() && AreNodes(ns, graph, members)
    {
      hide Durable, Layers, Usable, LruCache.LruCache.Valid, AdjacencyListEngine.Valid, AreNodes;
      ns := [];
      NoNodes(graph);
      for i := 0 to |ids|
        invariant Valid() && AreNodes(ns, graph, SetOf(ids[..i]))
      {
        GraphOf(Layers(), propertyIndex.fm, graph);
        var r := GetNode(ids[i]);
        OneMoreNode(ns, graph, ids, i);
        if r.Some? {
          ns := ns + [r.value];
        }
      }
      assert SetOf(ids[..|ids|]) == members;
    }

    method LoadEdges(ids: seq<EdgeId>, ghost members: set<EdgeId>) returns (es: seq<Edge>)
      requires Valid() && Durable() && ListsOnce(ids, members)
      modifies cache
      ensures Valid() && AreEdges(es, graph, members)
    {
      hide Durable, Layers, Usable, LruCache.LruCache.Valid, AdjacencyListEngine.Valid, AreEdges;
      es := [];
      NoEdges(graph);
      for i := 0 to |ids|
        invariant Valid() && AreEdges(es, graph, SetOf(ids[..i]))
      {
        GraphOf(Layers(), propertyIndex.fm, graph);
        var r := GetEdge(ids[i]);
        OneMoreEdge(es, graph, ids, i);
        if r.Some? {
          es := es + [r.value];
        }
      }
      assert SetOf(ids[..|ids|]) == members;
    }

    method AllNodes() returns (ns: seq<Node>)
      requires Valid() && Durable()
      modifies cache
      ensures Valid() && AreNodes(ns, graph, graph.nodes.Keys)
    {
      hide Durable, Usable, LruCache.LruCache.Valid, AdjacencyListEngine.Valid, AreNodes, ListsOnce;
      GraphOf(Layers(), propertyIndex.fm, graph);
      var ids := engine.AllNodeIds();
      ns := LoadNodes(ids, graph.nodes.Keys);
    }

    method AllEdges() returns (es: seq<Edge>)
      requires Valid() && Durable()
      modifies cache
      ensures Valid() && AreEdges(es, graph, graph.edges.Keys)
    {
      hide Durable, Usable, LruCache.LruCache.Valid, AdjacencyListEngine.Valid, AreEdges, ListsOnce;
      GraphOf(Layers(), propertyIndex.fm, graph);
      LinksKeys(engine.edges, graph);
      var ids := engine.AllEdgeIds();
      es := LoadEdges(ids, graph.edges.Keys);
    }

    method NodesByLabel(label': string) returns (ns: seq<Node>)
      requires Valid() && Durable()
      modifies cache
      ensures Valid() && AreNodes(ns, graph, LabelIndex.WithLabel(graph.nodes, label'))
    {
      hide Durable, Usable, LruCache.LruCache.Valid, AdjacencyListEngine.Valid, AreNodes, ListsOnce,
           LabelIndex.Exact, PropertyIndex.Exact;
      IndexesOf(Layers(), propertyIndex.fm, graph);
      var ids := labelIndex.Get(label', graph.nodes);
      ns := LoadNodes(ids, LabelIndex.WithLabel(graph.nodes, label'));
    }

    /** The nodes an index answers, also when the field has no index: then no live node has it,
        and the scan that stands in finds none. */
    method NodesByProperty(field: string, op: Op, sought: Value) returns (ns: seq<Node>)
      requires Valid() && Durable() && propertyIndex.fm.OrderLaws()
      modifies cache
      ensures Valid() && AreNodes(ns, graph, PropertyIndex.Matching(propertyIndex.fm, graph.nodes, field, op, sought))
      ensures forall n :: n in ns <==>
                && Lookup(graph.nodes, n.id) == Some(n) && field in n.properties
                && KeysMeet(propertyIndex.fm, op, n.properties[field], sought)
    {
      hide FloatModel.OrderLaws, Durable, Usable, LruCache.LruCache.Valid, AdjacencyListEngine.Valid, AreNodes,
           ListsOnce, LabelIndex.Exact, PropertyIndex.Exact, PropertyIndex.Matching, CompareValues;
      IndexesOf(Layers(), propertyIndex.fm, graph);
      IndexSelects(propertyIndex.fm, graph.nodes, field, op, sought);
      var found := propertyIndex.Query(field, op, sought, graph.nodes);
      if found.Some? {
        ns := LoadNodes(found.value, PropertyIndex.Matching(propertyIndex.fm, graph.nodes, field, op, sought));
      } else {
        var fm := propertyIndex.fm;
        var keep := (n: Node) => Condition(field, op, sought).Matches(fm, n.properties);
        UnindexedField(Layers(), fm, graph, field, op, sought, keep);
        var all := AllNodes();
        FilterNodes(all, graph, graph.nodes.Keys, keep);
        ns := Filter(keep, all);
      }
      NodesIn(ns, graph, PropertyIndex.Matching(propertyIndex.fm, graph.nodes, field, op, sought));
    }

    // ---- Transactions ----

    method BeginTransaction(txnId: U64) returns (txn: Transaction.Transaction)
      ensures fresh(txn) && fresh(txn.idGen) && txn.Valid() && txn.operations == [] && txn.txnId == txnId
      ensures txn.baseNode == txn.idGen.nextNode == idGenerator.nextNode
      ensures txn.baseEdge == txn.idGen.nextEdge == idGenerator.nextEdge
    {
      txn := new Transaction.Transaction(txnId, idGenerator);
    }

    method CommitNode(node: Node)
      requires Running() && node.id !in indexed && node.id < MAX_U64
      modifies this`graph, this`indexed, engine, cache, storage, labelIndex, propertyIndex, idGenerator
      ensures Running() && graph == old(graph).(nodes := old(graph.nodes)[node.id := node])
      ensures indexed == old(indexed)[node.id := node]
      ensures cache.nodeList == old(cache.nodeList).Put(cache.nodeCapacity, node.id, node)
      ensures storage.log == old(storage.log) + [UpsertNode(node)]
    {
      hide Usable, LruCache.LruCache.Valid, AdjacencyListEngine.Valid, PropertyIndex.Added, SubMap,
           LruCache.Recency.Put, Buckets.BucketInsert;
      ghost var before := Layers();
      StoreNode(node);
      idGenerator.SeedFromNode(node.id);
      InsertNodeUsable(Layers(), before, propertyIndex.fm, graph, node);
      graph := graph.(nodes := graph.nodes[node.id := node]);
    }

    /** The endpoint that is missing, if one is. */
    method CommitEdge(edge: Edge) returns (failed: Option<NodeId>)
      requires Running() && edge.id !in graph.edges && edge.id < MAX_U64
      modifies this`graph, engine, cache, storage, idGenerator
      ensures Running() && cache.nodeList == old(cache.nodeList)
      ensures failed == if edge.source !in old(graph.nodes) then Some(edge.source)
                        else if edge.target !in old(graph.nodes) then Some(edge.target) else None
      ensures failed.None? ==>
        && graph == old(graph).(edges := old(graph.edges)[edge.id := edge])
        && storage.log == old(storage.log) + [UpsertEdge(edge)]
      ensures failed.Some? ==> graph == old(graph) && storage.log == old(storage.log)
    {
      hide Usable, LruCache.LruCache.Valid, AdjacencyListEngine.Valid, SubMap, AreLinks, NoDangling, Keyed, Below;
      ghost var before := Layers();
      GraphOf(before, propertyIndex.fm, graph);
      LinksKeys(engine.edges, graph);
      if !engine.ContainsNode(edge.source) {
        return Some(edge.source);
      }
      if !engine.ContainsNode(edge.target) {
        return Some(edge.target);
      }
      StoreEdge(edge);
      idGenerator.SeedFromEdge(edge.id);
      InsertEdgeUsable(Layers(), before, propertyIndex.fm, graph, edge);
      graph := graph.(edges := graph.edges[edge.id := edge]);
      failed := None;
    }

    function Limits(): Settings {
      Settings(autoCompactAfterWrites, cache.nodeCapacity)
    }

    /** Graph, indexes, cached nodes and write counter are those of the session. */
    ghost predicate Shows(s: Session)
      reads this, cache
    {
      graph == s.live && indexed == s.indexed && cache.nodeList == s.cached && writesSinceCompact == s.writes
    }

    method CommitOp(op: Transaction.StagedOp, ghost s: Session) returns (failed: Option<NodeId>, ghost rs: seq<Record>)
      requires Running() && Shows(s) && Loaded(storage.log) == s.logged
      requires op.InsertNode? ==> op.node.id !in indexed && op.node.id < MAX_U64
      requires op.InsertEdge? ==> op.edge.id !in graph.edges && op.edge.id < MAX_U64
      requires op.DeleteNode? ==> ServesIndexed(op.nodeId)
      modifies this, engine, cache, storage, labelIndex, propertyIndex, idGenerator
      ensures Running()
      ensures ApplyOp(s.live, op).Ok? ==>
        && failed == None && Shows(Carry(s, op, Limits())) && WrittenBy(rs, s.live, op)
        && AfterWrite(storage.log, old(storage.log) + rs, Due(s, op, Limits()))
      ensures ApplyOp(s.live, op).Err? ==>
        failed == Some(ApplyOp(s.live, op).error) && Shows(s) && storage.log == old(storage.log)
    {
      hide Running, IsCascade, WithoutNode, ServesIndexed, AfterRead, Loaded, NoDangling, NeverDangles, LogOp,
           LruCache.Recency.Put, LruCache.Recency.Invalidate, Replay;
      rs, failed := [], None;
      match op {
        case InsertNode(node) =>
          CommitNode(node);
          rs := [UpsertNode(node)];
        case InsertEdge(edge) =>
          failed := CommitEdge(edge);
          rs := [UpsertEdge(edge)];
        case DeleteNode(id) =>
          rs := DeleteNode(id);
          rs := rs + [Record.DeleteNode(id)];
          assert old(storage.log) + rs == old(storage.log) + rs[..|rs| - 1] + [Record.DeleteNode(id)];
        case DeleteEdge(id) =>
          DeleteEdge(id);
          rs := [Record.DeleteEdge(id)];
      }
    }

    /** The operations so far were carried out on `g0`, and the session is theirs. While the bracket
        that began after `base` is open, it holds their records `rs`. */
    ghost predicate Progress(s: Session, base: seq<Record>, t: U64, rs: seq<Record>, g0: Graph, ops: Ops)
      reads this, cache, storage
    {
      && Shows(s) && Follows(storage.log, s, base, t, rs, g0, ops)
      && RunOps(g0, ops) == (s.live, None) && LiveOnlyFrom(s.live, g0, ops) && Known(s, g0, ops)
      && Grown(storage.log, base, ops)
    }

    method CommitNext(ops: Ops, k: nat, ghost s: Session, ghost base: seq<Record>, ghost t: U64, ghost rs: seq<Record>,
                      ghost g0: Graph)
      returns (failed: Option<NodeId>, ghost rs': seq<Record>)
      requires k < |ops| && Running() && Faithful(base, g0) && FreshInserts(ops, g0)
      requires Progress(s, base, t, rs, g0, ops[..k])
      modifies this, engine, cache, storage, labelIndex, propertyIndex, idGenerator
      ensures Running()
      ensures failed.None? ==>
        ApplyOp(s.live, ops[k]).Ok? && Progress(Carry(s, ops[k], Limits()), base, t, rs', g0, ops[..k + 1])
      ensures failed.Some? ==>
        && Progress(s, base, t, rs, g0, ops[..k]) && RunOps(g0, ops) == (s.live, failed)
        && RunOps(g0, ops[..k + 1]).1.Some?
    {
      hide Running, Faithful, Follows, FreshInserts, ApplyOp, WrittenBy, LiveOnlyFrom, Known, RunOps, InsertsEdge,
           InsertsNode, AfterWrite, Due, Carry, Shows, ServesIndexed, Loaded;
      StillFresh(g0, ops, k, s.live);
      KnownUse(s, g0, ops, k);
      FollowsLoads(storage.log, s, base, t, rs, g0, ops[..k]);
      SessionServes(s, ops[k]);
      ghost var log := storage.log;
      ghost var more;
      failed, more := CommitOp(ops[k], s);
      rs' := rs + more;
      RunOpsNext(g0, ops, k);
      if failed.Some? {
        RunOpsStops(g0, ops, k + 1);
      } else {
        assert ops[..k + 1] == ops[..k] + [ops[k]];
        CarryLive(s, ops[k], Limits());
        LiveOnlyNext(s.live, g0, ops[..k], ops[k]);
        KnownNext(s, g0, ops[..k], ops[k], Limits());
        FollowsNext(log, storage.log, s, base, t, rs, g0, ops[..k], ops[k], more, Limits());
        WrittenGrows(storage.log, log, more, Due(s, ops[k], Limits()), s.live, ops[k]);
        GrownNext(storage.log, log, base, ops[..k], ops[k]);
      }
    }

    lemma SessionServes(s: Session, op: Transaction.StagedOp)
      requires Shows(s) && Loaded(storage.log) == s.logged
      requires forall id :: id in s.indexed && id in s.logged.nodes ==> s.indexed[id] == s.logged.nodes[id]
      ensures indexed == s.indexed && graph == s.live
      ensures op.DeleteNode? ==> ServesIndexed(op.nodeId)
    {
    }

    lemma Begins(s: Session, base: seq<Record>, t: U64, ops: Ops)
      requires s == Begun(graph, storage.markers, writesSinceCompact, cache.nodeList) && indexed == graph.nodes
      requires Faithful(base, graph) && storage.log == if storage.markers then base + [BeginTxn(t)] else base
      ensures Progress(s, base, t, [], graph, ops[..0]) && s == Carried(s, ops[..0], Limits())
      ensures ResultOf(ops[..0]) == CommitResult([], [], [], [])
    {
      hide Faithful, Follows;
      assert ops[..0] == [];
      NothingDone(graph);
      KnownAtFirst(graph, storage.markers, writesSinceCompact, cache.nodeList);
      NothingGrown(base, BeginTxn(t));
      FollowsBegin(base, t, graph, storage.markers, writesSinceCompact, cache.nodeList);
    }

    /** What `Commit` says of an ended commit, told from the operations. */
    lemma Outcomes(g: Graph, markers: bool, writes: nat, cached: Recent, ops: Ops)
      requires Running() && NoDangling(g) && FreshInserts(ops, g) && cached.contents.Keys <= g.nodes.Keys
      requires var t := Commit(Begun(g, markers, writes, cached), ops, Limits()); Shows(t) && LogIs(storage.log, t)
      ensures graph == RunOps(g, ops).0
      ensures Valid() <==> NeverMisses(Begun(g, markers, writes, cached), ops, Limits())
      ensures !markers ==> Valid() && Durable()
      ensures KeepsOwnNodes(ops) ==> Valid()
      ensures markers && RunOps(g, ops).1.None? ==>
        (Loaded(storage.log) == graph <==>
         match FirstDue(writes, ops, Limits())
         case None => !LosesInsert(ops)
         case Some(k) => LostWithoutTrace(g, RunOps(g, ops[..k + 1]).0, ops[k + 1..], graph))
      ensures markers && NeverDue(writes, ops, Limits()) && RunOps(g, ops).1.None? ==>
        && Loaded(storage.log) == Kept(ops, graph)
        && (Durable() <==> !LosesInsert(ops))
        && (NoDangling(Loaded(storage.log)) <==> !LeavesDangling(ops))
        && (NeverDangles(storage.log) <==> !LeavesDangling(ops))
      ensures markers && NeverDue(writes, ops, Limits()) && RunOps(g, ops).1.Some? ==>
        Faithful(storage.log, g) && Loaded(storage.log) == g
    {
      hide Running, KeepsOwnNodes, FreshInserts, Kept, NoDangling, LosesInsert, LeavesDangling, NeverDangles, RunOps,
           Carry, Carried, FirstDue, NeverDue, LostWithoutTrace, LogIs, Run, NeverMisses, Buried;
      RunningLive();
      var t := Commit(Begun(g, markers, writes, cached), ops, Limits());
      LogIsFaithful(storage.log, t, graph);
      IndexesExactly(Begun(g, markers, writes, cached), ops, Limits());
      if KeepsOwnNodes(ops) {
        IndexesFollow(g, markers, writes, cached, ops, Limits());
      }
      if !markers {
        CommitUnmarked(g, writes, cached, ops, Limits());
      } else if RunOps(g, ops).1.None? {
        CommitUpToDate(g, writes, cached, ops, Limits());
        if NeverDue(writes, ops, Limits()) {
          MarkedCommit(storage.log, g, writes, cached, ops, Limits());
        }
      } else if NeverDue(writes, ops, Limits()) {
        MarkedFailure(storage.log, g, writes, cached, ops, Limits());
      }
    }

    /** Carries the staged operations out up to the first edge without an endpoint, and ends as
        `Commit` says, compactions on the way included. Without markers the log keeps up. With markers
        and no compaction on the way, the log `written` by the commit, cut anywhere before its last
        record, loads the graph from before; whole, it loads the live graph without every record a
        staged delete names, so it is left behind exactly when the operations lose an insert, and has
        a dangling edge exactly when they leave one. After an error it stays at the graph from before
        while the live graph keeps the operations carried out. */
    method CommitTransaction(txn: Transaction.Transaction)
      returns (r: Result<CommitResult, NodeId>, ghost written: seq<Record>)
      requires Valid() && Durable() && FreshInserts(txn.operations, graph)
      modifies this, engine, cache, storage, labelIndex, propertyIndex, idGenerator
      ensures Running() && graph == RunOps(old(graph), txn.operations).0
      ensures r == match RunOps(old(graph), txn.operations).1
                   case None => Ok(ResultOf(txn.operations)) case Some(n) => Err(n)
      ensures var t := Commit(old(Begun(graph, storage.markers, writesSinceCompact, cache.nodeList)), txn.operations,
                              Limits());
              Shows(t) && LogIs(storage.log, t)
      ensures Grown(storage.log, old(storage.log), txn.operations)
      ensures Valid() <==> NeverMisses(old(Begun(graph, storage.markers, writesSinceCompact, cache.nodeList)),
                                       txn.operations, Limits())
      ensures !storage.markers ==> Valid() && Durable()
      ensures KeepsOwnNodes(txn.operations) ==> Valid()
      ensures r.Ok? ==> Reports(r.value, txn.operations)
      ensures r.Err? ==> exists k: nat :: StopsAt(old(graph), txn.operations, k, r.error)
      ensures storage.markers && r.Ok? ==>
        (Loaded(storage.log) == graph <==>
         match FirstDue(old(writesSinceCompact), txn.operations, Limits())
         case None => !LosesInsert(txn.operations)
         case Some(k) => LostWithoutTrace(old(graph), RunOps(old(graph), txn.operations[..k + 1]).0,
                                          txn.operations[k + 1..], graph))
      ensures storage.markers && NeverDue(old(writesSinceCompact), txn.operations, Limits()) ==>
        && EffectAtEnd(written, old(storage.log), old(graph)) && Loaded(storage.log) == Loaded(written)
        && (r.Ok? ==>
              && Loaded(storage.log) == Kept(txn.operations, graph)
              && (Durable() <==> !LosesInsert(txn.operations))
              && (NoDangling(Loaded(storage.log)) <==> !LeavesDangling(txn.operations))
              && (NeverDangles(storage.log) <==> !LeavesDangling(txn.operations)))
        && (r.Err? ==> Faithful(storage.log, old(graph)) && (Durable() <==> graph == old(graph)))
    {
      hide Running, Layers, Faithful, Follows, KeepsOwnNodes, FreshInserts, EffectAtEnd, Kept, NoDangling, LosesInsert,
           LeavesDangling, NeverDangles, CommitResult.Add, RunOps, Loaded, Carry, Carried, Settle, FirstDue, NeverDue,
           LostWithoutTrace, LogIs, AfterWrite, LiveOnlyFrom, Known, NeverMisses, Reports, StopsAt;
      var ops, t := txn.operations, txn.txnId;
      ghost var base, g0, rs := storage.log, graph, [];
      ghost var s0 := Begun(graph, storage.markers, writesSinceCompact, cache.nodeList);
      ghost var s := s0;
      RunningLive();
      storage.Mark(BeginTxn(t));
      var result := CommitResult([], [], [], []);
      Begins(s0, base, t, ops);
      for i := 0 to |ops|
        invariant Running() && Progress(s, base, t, rs, g0, ops[..i]) && s == Carried(s0, ops[..i], Limits())
        invariant result == ResultOf(ops[..i])
      {
        var failed, rs' := CommitNext(ops, i, s, base, t, rs, g0);
        if failed.Some? {
          CarriedStops(s0, ops, i, Limits());
          written := End(s0, s, base, t, rs, g0, ops, ops[..i], false);
          GrownByMore(storage.log, base, ops, i);
          Outcomes(g0, storage.markers, s0.writes, s0.cached, ops);
          FaithfulLoads(storage.log, graph);
          RunOpsFails(g0, ops, failed.value);
          return Err(failed.value), written;
        }
        CarriedNext(s0, ops, i, Limits());
        assert ops[..i + 1][..i] == ops[..i];
        s := Carry(s, ops[i], Limits());
        rs := rs';
        result := result.Add(ops[i]);
      }
      assert ops[..|ops|] == ops;
      written := End(s0, s, base, t, rs, g0, ops, ops, true);
      Outcomes(g0, storage.markers, s0.writes, s0.cached, ops);
      ResultReports(ops);
      r := Ok(result);
    }

    /** The last record of the bracket, and after a COMMIT the write it counts as. */
    method End(ghost s0: Session, ghost s: Session, ghost base: seq<Record>, t: U64, ghost rs: seq<Record>,
               ghost g0: Graph, ghost ops: Ops, ghost done: Ops, committed: bool)
      returns (ghost written: seq<Record>)
      requires Running() && Faithful(base, g0) && s0 == Begun(g0, storage.markers, s0.writes, s0.cached)
      requires Shows(s) && Follows(storage.log, s, base, t, rs, g0, done) && s == Carried(s0, ops, Limits())
      requires Grown(storage.log, base, done)
      requires committed ==> done == ops
      requires committed <==> RunOps(g0, ops).1.None?
      modifies this`writesSinceCompact, cache, storage
      ensures Running()
      ensures var e := Commit(s0, ops, Limits()); Shows(e) && LogIs(storage.log, e)
      ensures Grown(storage.log, base, done)
      ensures Loaded(storage.log) == Loaded(written)
      ensures storage.markers && NeverDue(s0.writes, ops, Limits()) ==> EffectAtEnd(written, base, g0)
    {
      hide Running, Layers, Faithful, Follows, EffectAtEnd, Kept, NoDangling, NeverDangles, RunOps, Loaded, Carry,
           Carried, NeverDue, Replay;
      RunningLive();
      ghost var log := storage.log;
      var last := if committed then CommitTxn(t) else RollbackTxn(t);
      storage.Mark(last);
      written := storage.log;
      BracketNeeds(s0, ops, Limits());
      FollowsEnd(log, storage.log, s, base, t, rs, g0, done, committed);
      if storage.markers && NeverDue(s0.writes, ops, Limits()) {
        BracketWritten(log, s0, s, base, t, rs, g0, done, ops, Limits(), last);
      }
      if committed {
        OnWrite();
        EndsCommitted(written, storage.log, s, ops, Limits(), old(CompactionDue()));
        MarkerGrows(storage.log, written, log, base, done, old(CompactionDue()));
      } else {
        EndsFailed(written, s, ops, Limits());
        MarkerGrows(storage.log, written, log, base, done, false);
      }
    }

    /** Giving a transaction up only moves the counters. */
    method RollbackTransaction(txn: Transaction.Transaction)
      requires Running() && txn.Valid() && txn.idGen != idGenerator
      modifies idGenerator
      ensures Running() && (old(Valid()) ==> Valid())
      ensures forall i :: 0 <= i < |txn.operations| && txn.operations[i].InsertNode? ==>
              txn.operations[i].node.id < idGenerator.nextNode
      ensures forall i :: 0 <= i < |txn.operations| && txn.operations[i].InsertEdge? ==>
              txn.operations[i].edge.id < idGenerator.nextEdge
    {
      hide Usable, LruCache.LruCache.Valid, AdjacencyListEngine.Valid;
      ghost var before := Layers();
      txn.SeedGeneratorInto(idGenerator);
      CountersGrow(Layers(), before, propertyIndex.fm, graph);
    }
  }

  /** Opening another database on the storage of this one, with fresh layers, brings back the same
      graph and the same buckets up to their order, and new ids stay clear of the live ones. */
  method Reopen(db: Database, cache: LruCache.LruCache, engine: AdjacencyListEngine,
                autoCompactAfterWrites: Option<nat>)
    returns (again: Database)
    requires db.Valid() && db.Durable() && db.cache != cache && db.engine != engine
    requires cache.Valid() && cache.nodeList.contents == map[] && cache.edgeList.contents == map[]
    requires engine.Valid() && engine.nodes == {} && engine.edges == map[]
    modifies engine
    ensures Reopened(again, db)
  {
    hide Database.Running, Database.Rebuilt, LruCache.LruCache.Valid, AdjacencyListEngine.Valid, NeverDangles, Replay,
         NoDangling, Reopened;
    RoomForIds(db);
    again := Database.OpenWithConfig(db.storage, cache, engine, db.propertyIndex.fm, autoCompactAfterWrites);
    SameAgain(again, db);
  }

  ghost predicate Reopened(again: Database, db: Database)
    reads again, again.engine, again.cache, again.labelIndex, again.propertyIndex, again.idGenerator, again.storage
    reads db, db.engine, db.cache, db.labelIndex, db.propertyIndex, db.idGenerator
  {
    && again.Valid() && again.Durable() && again.graph == db.graph && again.storage == db.storage
    && again.idGenerator.nextNode !in db.graph.nodes && again.idGenerator.nextEdge !in db.graph.edges
    && BucketsAgree(db.Layers(), again.Layers())
  }

  lemma RoomForIds(db: Database)
    requires db.Valid()
    ensures NoDangling(db.graph) && Below(db.graph.nodes, MAX_U64) && Below(db.graph.edges, MAX_U64)
  {
    hide InStep;
    GraphOf(db.Layers(), db.propertyIndex.fm, db.graph);
  }

  lemma SameAgain(again: Database, db: Database)
    requires db.Valid() && db.Durable() && again.Valid() && again.graph == db.graph && again.storage == db.storage
    requires again.propertyIndex.fm == db.propertyIndex.fm
    ensures Reopened(again, db)
  {
    hide InStep, BucketsAgree, Faithful;
    GraphOf(again.Layers(), db.propertyIndex.fm, db.graph);
    SameBuckets(db.Layers(), again.Layers(), db.propertyIndex.fm, db.graph);
  }

  // ---- Facts the methods use ----

  lemma FaithfulLoads(log: seq<Record>, g: Graph)
    ensures Faithful(log, g) ==> Loaded(log) == g
  {
  }

  lemma GraphOf(m: Memory, fm: FloatModel, g: Graph)
    requires Usable(m, fm, g)
    ensures Keyed(g) && NoDangling(g) && m.nodes == g.nodes.Keys && AreLinks(m.edges, g)
    ensures SubMap(m.cachedNodes, g.nodes) && SubMap(m.cachedEdges, g.edges) && SubMap(g.nodes, m.indexed)
    ensures Below(g.nodes, m.nextNode) && Below(g.edges, m.nextEdge)
    ensures m.nextNode !in m.indexed && m.nextNode !in g.nodes && m.nextEdge !in g.edges
    ensures forall e :: e in g.edges ==> g.edges[e].source in g.nodes && g.edges[e].target in g.nodes
  {
  }

  lemma IndexedWithout(g: Graph, id: NodeId)
    ensures WithoutNode(g, id).nodes == g.nodes - {id} && (g.nodes - {id} == g.nodes <==> id !in g.nodes)
  {
    assert id !in g.nodes ==> g.nodes - {id} == g.nodes;
  }

  /** What a session knows of the next operation's node. */
  lemma KnownUse(s: Session, g0: Graph, ops: Ops, k: nat)
    requires k < |ops| && Known(s, g0, ops[..k]) && FreshInserts(ops, g0)
    ensures ops[k].InsertNode? ==>
      && ops[k].node.id !in s.indexed && ops[k].node.id !in g0.nodes && !InsertsNode(ops[..k], ops[k].node.id)
    ensures forall id :: id in s.indexed && id in s.logged.nodes ==> s.indexed[id] == s.logged.nodes[id]
  {
  }

  lemma FollowsLoads(log: seq<Record>, s: Session, base: seq<Record>, t: U64, rs: seq<Record>, g0: Graph, ops: Ops)
    requires Follows(log, s, base, t, rs, g0, ops)
    ensures Loaded(log) == s.logged
  {
  }

  lemma StepLinks(m: Memory, fm: FloatModel, g: Graph)
    requires InStep(m, fm, g)
    ensures AreLinks(m.edges, g) && SubMap(m.cachedEdges, g.edges)
  {
  }

  lemma LinksEnd(links: map<EdgeId, Link>, g: Graph)
    requires AreLinks(links, g) && NoDangling(g)
    ensures EndsIn(links, g.nodes.Keys)
  {
  }

  lemma TakeOne<V>(m: map<U64, V>, left: set<U64>, k: U64)
    requires left <= m.Keys && k in left
    ensures k !in m - left && (m - left)[k := m[k]] == m - (left - {k})
  {
  }

  lemma SubMapGrow<V>(a: map<U64, V>, b: map<U64, V>, k: U64, v: V)
    requires SubMap(a, b) && k !in b
    ensures SubMap(a, a[k := v])
  {
  }

  lemma SubMapGet<V>(a: map<U64, V>, b: map<U64, V>, k: U64)
    requires SubMap(a, b)
    ensures k in a ==> Lookup(a, k) == Lookup(b, k)
    ensures SubMap(a - {k}, a)
  {
  }

  lemma SubMapTrans<V>(a: map<U64, V>, b: map<U64, V>, c: map<U64, V>)
    requires SubMap(a, b) && SubMap(b, c)
    ensures SubMap(a, c)
  {
  }

  lemma CascadeKeepsNodes(log: seq<Record>, tombstones: seq<Record>, g: Graph, id: NodeId)
    requires IsCascade(g, tombstones, id)
    ensures Loaded(log + tombstones).nodes == Loaded(log).nodes
  {
    RunConcat(INITIAL, log, tombstones);
    RunData(Replay(log), tombstones);
    SequentialEdgeDeletes(Loaded(log), tombstones);
  }

  /** A put stores the entry and drops at most others. */
  lemma PutFacts<V>(r: LruCache.Recency<V>, capacity: nat, k: U64, v: V, m: map<U64, V>)
    requires SubMap(r.contents, m)
    ensures SubMap(r.Put(capacity, k, v).contents, r.contents[k := v])
    ensures SubMap(r.Put(capacity, k, v).contents - {k}, r.contents)
    ensures Lookup(m, k) == Some(v) ==> SubMap(r.Put(capacity, k, v).contents, m)
  {
  }

  lemma PutGrows<V>(r: LruCache.Recency<V>, capacity: nat, k: U64, v: V)
    ensures SubMap(r.Put(capacity, k, v).contents, r.contents[k := v])
  {
  }

  lemma LinksKeys(links: map<EdgeId, Link>, g: Graph)
    requires AreLinks(links, g)
    ensures links.Keys == g.edges.Keys
  {
  }

  lemma LoadedKeyed(log: seq<Record>)
    ensures Keyed(Loaded(log))
  {
    RunKeyed(INITIAL, log);
  }

  /** One data record at the end of a closed log. */
  lemma AppendOne(log: seq<Record>, r: Record, g: Graph)
    requires r.Data?() && Faithful(log, g) && NoDangling(Apply(g, r))
    ensures Faithful(log + [r], Apply(g, r))
  {
    ReplayAppend(log, r);
    NeverDanglesAppend(log, r);
  }

  lemma AppendCascade(log: seq<Record>, tombstones: seq<Record>, g: Graph, id: NodeId)
    requires Faithful(log, g) && IsCascade(g, tombstones, id) && NoDangling(g)
    ensures Faithful(log + tombstones + [DeleteNode(id)], WithoutNode(g, id))
  {
    var all := tombstones + [DeleteNode(id)];
    CascadeEffect(g, tombstones, id);
    AppendClosed(log, all);
    assert log + all == log + tombstones + [DeleteNode(id)];
    NeverDanglesCascade(log, tombstones);
    NeverDanglesAppend(log + tombstones, DeleteNode(id));
  }

  function Tombstones(l: seq<Neighbor>): seq<Record> {
    seq(|l|, i requires 0 <= i < |l| => DeleteEdge(l[i].edgeId))
  }

  /** Outgoing and incoming lists together name exactly the edges that touch the node. */
  lemma IncidentEdges(g: Graph, links: map<EdgeId, Link>, outgoing: seq<Neighbor>, incoming: seq<Neighbor>, id: NodeId)
    requires AreLinks(links, g) && Exact(outgoing, links, id, Outgoing) && Exact(incoming, links, id, Incoming)
    ensures IsCascade(g, Tombstones(outgoing + incoming), id)
    ensures forall e :: e in g.edges && EdgeTouches(g.edges[e], id) ==>
              exists i :: 0 <= i < |outgoing + incoming| && (outgoing + incoming)[i].edgeId == e
  {
    var l := outgoing + incoming;
    var ts := Tombstones(l);
    forall i | 0 <= i < |l| ensures l[i].edgeId in g.edges && EdgeTouches(g.edges[l[i].edgeId], id) {
      assert l[i] in outgoing || l[i] in incoming;
    }
    forall e | e in g.edges && EdgeTouches(g.edges[e], id)
      ensures exists i :: 0 <= i < |l| && l[i].edgeId == e
      ensures e in DeletedEdges(ts)
    {
      var x := g.edges[e];
      var i: nat;
      if x.source == id {
        assert Neighbor(x.target, e, x.weight) in outgoing;
        i :| i < |outgoing| && outgoing[i].edgeId == e;
      } else {
        assert Neighbor(x.source, e, x.weight) in incoming;
        var j :| 0 <= j < |incoming| && incoming[j].edgeId == e;
        i := |outgoing| + j;
      }
      assert l[i].edgeId == e && ts[i] == DeleteEdge(e);
    }
  }

  lemma NodesIn(ns: seq<Node>, g: Graph, ids: set<NodeId>)
    requires AreNodes(ns, g, ids)
    ensures forall n :: n in ns <==> n.id in ids && Lookup(g.nodes, n.id) == Some(n)
  {
  }

  lemma NoNodes(g: Graph)
    ensures AreNodes([], g, SetOf([]))
  {
  }

  lemma NoEdges(g: Graph)
    ensures AreEdges([], g, SetOf([]))
  {
  }

  lemma OneMoreNode(ns: seq<Node>, g: Graph, ids: seq<NodeId>, i: nat)
    requires Keyed(g) && NoDup(ids) && i < |ids| && AreNodes(ns, g, SetOf(ids[..i]))
    ensures AreNodes(match Lookup(g.nodes, ids[i]) case None => ns case Some(n) => ns + [n], g, SetOf(ids[..i + 1]))
  {
    assert ids[..i + 1] == ids[..i] + [ids[i]];
    assert forall j :: 0 <= j < |ns| ==> ns[j] in ns;
  }

  lemma OneMoreEdge(es: seq<Edge>, g: Graph, ids: seq<EdgeId>, i: nat)
    requires Keyed(g) && NoDup(ids) && i < |ids| && AreEdges(es, g, SetOf(ids[..i]))
    ensures AreEdges(match Lookup(g.edges, ids[i]) case None => es case Some(e) => es + [e], g, SetOf(ids[..i + 1]))
  {
    assert ids[..i + 1] == ids[..i] + [ids[i]];
    assert forall j :: 0 <= j < |es| ==> es[j] in es;
  }

  ghost function KeptNodes(g: Graph, ids: set<NodeId>, keep: Node -> bool): set<NodeId> {
    set id | id in ids && id in g.nodes && keep(g.nodes[id])
  }

  lemma FilterNodes(ns: seq<Node>, g: Graph, ids: set<NodeId>, keep: Node -> bool)
    requires AreNodes(ns, g, ids)
    ensures AreNodes(Filter(keep, ns), g, KeptNodes(g, ids, keep))
  {
    FilterContent(keep, ns);
  }

  ghost function KeptEdges(g: Graph, ids: set<EdgeId>, keep: Edge -> bool): set<EdgeId> {
    set id | id in ids && id in g.edges && keep(g.edges[id])
  }

  lemma FilterEdges(es: seq<Edge>, g: Graph, ids: set<EdgeId>, keep: Edge -> bool)
    requires AreEdges(es, g, ids)
    ensures AreEdges(Filter(keep, es), g, KeptEdges(g, ids, keep))
  {
    FilterContent(keep, es);
  }

  lemma IndexesOf(m: Memory, fm: FloatModel, g: Graph)
    requires Coherent(m, fm, g)
    ensures LabelIndex.Exact(m.labels, g.nodes) && PropertyIndex.Exact(m.fields, fm, g.nodes)
  {
  }

  lemma UnindexedField(m: Memory, fm: FloatModel, g: Graph, field: string, op: Op, sought: Value, keep: Node -> bool)
    requires Coherent(m, fm, g) && field !in m.fields
    requires forall n: Node :: keep(n) ==> Condition(field, op, sought).Matches(fm, n.properties)
    ensures PropertyIndex.Matching(fm, g.nodes, field, op, sought) == KeptNodes(g, g.nodes.Keys, keep)
  {
  }

  lemma CountersGrow(m': Memory, m: Memory, fm: FloatModel, g: Graph)
    requires Usable(m, fm, g) && m' == m.(nextNode := m'.nextNode, nextEdge := m'.nextEdge)
    requires m'.nextNode >= m.nextNode && m'.nextEdge >= m.nextEdge
    ensures Usable(m', fm, g)
  {
    hide LabelIndex.Exact, PropertyIndex.Exact;
  }

  /** Ids staged past the counters of the database are new to its graph. */
  lemma StagedFresh(m: Memory, fm: FloatModel, g: Graph, ops: Ops, n1: U64, e1: U64)
    requires Usable(m, fm, g) && Transaction.StagedWithin(ops, m.nextNode, n1, m.nextEdge, e1)
    ensures FreshInserts(ops, g)
  {
    hide LabelIndex.Exact, PropertyIndex.Exact;
  }
}
