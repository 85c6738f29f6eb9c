/** The assembled database, src/database/layered.rs: storage, cache, adjacency engine, label and
    property indexes and id generator kept in step with one live graph. */
module Memory {
  import opened Core
  import opened GraphOps
  import opened Engine
  import opened Buckets
  import opened QueryAst
  import LabelIndex
  import PropertyIndex

  /** What the in-memory layers hold, cached entries without their recency. `indexed` are the nodes
      the two indexes list. */
  datatype Memory = Memory(
    nodes: set<NodeId>, edges: map<EdgeId, Link>,
    cachedNodes: map<NodeId, Node>, cachedEdges: map<EdgeId, Edge>,
    labels: Buckets<string>, fields: PropertyIndex.Fields, indexed: map<NodeId, Node>,
    nextNode: nat, nextEdge: nat)

  ghost predicate SubMap<V>(a: map<U64, V>, b: map<U64, V>) {
    forall k :: k in a ==> k in b && a[k] == b[k]
  }

  ghost predicate Below<V>(m: map<U64, V>, next: nat) {
    forall k :: k in m ==> k < next
  }

  /** Every layer agrees with the live graph: the engine holds its edges, cached entries equal the
      live ones, each label and property bucket lists exactly its nodes once, all live ones among
      them, and every id is below the counters. */
  ghost predicate InStep(m: Memory, fm: FloatModel, g: Graph) {
    && Keyed(g) && AreLinks(m.edges, g)
    && SubMap(m.cachedNodes, g.nodes) && SubMap(m.cachedEdges, g.edges)
    && LabelIndex.Exact(m.labels, m.indexed)
    && PropertyIndex.Exact(m.fields, fm, m.indexed)
    && SubMap(g.nodes, m.indexed)
    && Below(m.indexed, m.nextNode) && Below(g.edges, m.nextEdge)
  }

  /** Besides, no edge dangles, and the nodes the engine knows are the live ones. */
  ghost predicate Usable(m: Memory, fm: FloatModel, g: Graph) {
    NoDangling(g) && m.nodes == g.nodes.Keys && InStep(m, fm, g)
  }

  /** And the indexes list no node that is not live. */
  ghost predicate Coherent(m: Memory, fm: FloatModel, g: Graph) {
    Usable(m, fm, g) && m.indexed == g.nodes
  }

  /** What the label index lists tells the nodes apart. */
  lemma IndexTells(labels: Buckets<string>, a: map<NodeId, Node>, b: map<NodeId, Node>)
    requires LabelIndex.Exact(labels, a) && LabelIndex.Exact(labels, b) && SubMap(a, b)
    ensures a == b
  {
    forall id | id in b ensures id in a {
      var l := b[id].lbl;
      assert id in LabelIndex.WithLabel(b, l) && id in Bucket(labels, l);
      assert id in LabelIndex.WithLabel(a, l);
    }
  }

  /** After a node was put into every layer. */
  ghost predicate NodeStored(m': Memory, m: Memory, fm: FloatModel, n: Node) {
    && m'.nodes == m.nodes + {n.id} && m'.edges == m.edges
    && SubMap(m'.cachedNodes, m.cachedNodes[n.id := n]) && m'.cachedEdges == m.cachedEdges
    && m'.labels == BucketInsert(m.labels, n.lbl, n.id)
    && PropertyIndex.Added(m'.fields, m.fields, fm, n.id, n.properties)
    && m'.indexed == m.indexed[n.id := n]
  }

  /** And the counters are past its id. */
  ghost predicate NodeInserted(m': Memory, m: Memory, fm: FloatModel, n: Node) {
    && NodeStored(m', m, fm, n)
    && m'.nextNode > n.id && m'.nextNode >= m.nextNode && m'.nextEdge == m.nextEdge
  }

  /** Inserting a node keeps the layers in step exactly when its id was not indexed. */
  lemma InsertNodeUsable(m': Memory, m: Memory, fm: FloatModel, g: Graph, n: Node)
    requires Usable(m, fm, g) && NodeInserted(m', m, fm, n)
    ensures Usable(m', fm, g.(nodes := g.nodes[n.id := n])) <==> n.id !in m.indexed
  {
    hide LabelIndex.Exact, PropertyIndex.Exact;
    var g' := g.(nodes := g.nodes[n.id := n]);
    LabelIndex.InsertExact(m.labels, m.indexed, n);
    if n.id !in m.indexed {
      PropertyIndex.AddExact(m'.fields, m.fields, fm, m.indexed, n);
      assert g'.nodes.Keys == g.nodes.Keys + {n.id};
    }
  }

  lemma LinksWithout(links: map<EdgeId, Link>, g: Graph, id: NodeId)
    requires AreLinks(links, g) && Keyed(g) && NoDangling(g)
    ensures AreLinks(WithoutTouching(links, id), WithoutNode(g, id))
    ensures Keyed(WithoutNode(g, id)) && NoDangling(WithoutNode(g, id))
  {
  }

  ghost predicate EdgeStored(m': Memory, m: Memory, e: Edge) {
    && m'.nodes == m.nodes + {e.source, e.target} && m'.edges == m.edges[e.id := Link(e.source, e.target, e.weight)]
    && m'.cachedNodes == m.cachedNodes && SubMap(m'.cachedEdges, m.cachedEdges[e.id := e])
    && m'.labels == m.labels && m'.fields == m.fields && m'.indexed == m.indexed
  }

  ghost predicate EdgeInserted(m': Memory, m: Memory, e: Edge) {
    && EdgeStored(m', m, e)
    && m'.nextNode == m.nextNode && m'.nextEdge > e.id && m'.nextEdge >= m.nextEdge
  }

  lemma InsertEdgeUsable(m': Memory, m: Memory, fm: FloatModel, g: Graph, e: Edge)
    requires Usable(m, fm, g) && EdgeInserted(m', m, e)
    requires e.id !in g.edges && e.source in g.nodes && e.target in g.nodes
    ensures Usable(m', fm, g.(edges := g.edges[e.id := e]))
  {
    hide InStep;
    InsertEdgeInStep(m', m, fm, g, e);
    assert m'.nodes == g.nodes.Keys;
  }

  lemma InsertEdgeInStep(m': Memory, m: Memory, fm: FloatModel, g: Graph, e: Edge)
    requires InStep(m, fm, g) && EdgeInserted(m', m, e)
    ensures InStep(m', fm, g.(edges := g.edges[e.id := e]))
  {
    hide LabelIndex.Exact, PropertyIndex.Exact, AreLinks, Keyed;
    LinksWith(m.edges, g, e);
    SubMapPut(m'.cachedEdges, m.cachedEdges, g.edges, e.id, e);
  }

  lemma LinksWith(links: map<EdgeId, Link>, g: Graph, e: Edge)
    requires AreLinks(links, g) && Keyed(g)
    ensures AreLinks(links[e.id := Link(e.source, e.target, e.weight)], g.(edges := g.edges[e.id := e]))
    ensures Keyed(g.(edges := g.edges[e.id := e]))
  {
  }

  lemma SubMapPut<V>(a: map<U64, V>, b: map<U64, V>, c: map<U64, V>, k: U64, v: V)
    requires SubMap(a, b[k := v]) && SubMap(b, c)
    ensures SubMap(a, c[k := v])
  {
  }

  ghost predicate EdgeDeleted(m': Memory, m: Memory, id: EdgeId) {
    && m'.nodes == m.nodes && m'.edges == m.edges - {id}
    && m'.cachedNodes == m.cachedNodes && m'.cachedEdges == m.cachedEdges - {id}
    && m'.labels == m.labels && m'.fields == m.fields && m'.indexed == m.indexed
    && m'.nextNode == m.nextNode && m'.nextEdge == m.nextEdge
  }

  lemma DeleteEdgeUsable(m': Memory, m: Memory, fm: FloatModel, g: Graph, id: EdgeId)
    requires Usable(m, fm, g) && EdgeDeleted(m', m, id)
    ensures Usable(m', fm, g.(edges := g.edges - {id}))
  {
    hide LabelIndex.Exact, PropertyIndex.Exact, AreLinks, Keyed, NoDangling;
    LinksMinus(m.edges, g, id);
  }

  lemma LinksMinus(links: map<EdgeId, Link>, g: Graph, id: EdgeId)
    requires AreLinks(links, g) && Keyed(g) && NoDangling(g)
    ensures AreLinks(links - {id}, g.(edges := g.edges - {id}))
    ensures Keyed(g.(edges := g.edges - {id})) && NoDangling(g.(edges := g.edges - {id}))
  {
  }

  /** After a node was taken out of every layer; the indexes were cleaned with what a read of
      the node returned. */
  ghost predicate NodeDeleted(m': Memory, m: Memory, fm: FloatModel, g: Graph, id: NodeId, read: Option<Node>) {
    && m'.nodes == m.nodes - {id} && m'.edges == WithoutTouching(m.edges, id)
    && SubMap(m'.cachedNodes, m.cachedNodes) && id !in m'.cachedNodes
    && SubMap(m'.cachedEdges, m.cachedEdges)
    && (forall e :: e in m'.cachedEdges && e in g.edges ==> !EdgeTouches(g.edges[e], id))
    && (match read
        case Some(n) => m'.labels == BucketRemove(m.labels, n.lbl, id)
                        && PropertyIndex.Removed(m'.fields, m.fields, fm, id, n.properties)
        case None => m'.labels == m.labels && m'.fields == m.fields)
    && m'.indexed == (if read.Some? then m.indexed - {id} else m.indexed)
    && m'.nextNode == m.nextNode && m'.nextEdge == m.nextEdge
  }

  /** Deleting a node keeps the layers in step, but the indexes list it on when the read missed it. */
  lemma DeleteNodeUsable(m': Memory, m: Memory, fm: FloatModel, g: Graph, id: NodeId, read: Option<Node>)
    requires Usable(m, fm, g) && NodeDeleted(m', m, fm, g, id, read)
    requires read.Some? && id in m.indexed ==> read.value == m.indexed[id]
    ensures Usable(m', fm, WithoutNode(g, id))
  {
    hide LabelIndex.Exact, PropertyIndex.Exact, AreLinks, WithoutTouching, BucketRemove, PropertyIndex.Removed, Keyed,
         NoDangling;
    LinksWithout(m.edges, g, id);
    if read.Some? {
      LabelIndex.RemoveExact(m.labels, m.indexed, id, read.value.lbl);
      PropertyIndex.RemoveExact(m'.fields, m.fields, fm, m.indexed, id, read.value.properties);
    }
  }

  /** Deleting a node leaves indexes that list exactly the live nodes just when the read did not
      miss a live node. */
  lemma DeleteNodeCoherent(m': Memory, m: Memory, fm: FloatModel, g: Graph, id: NodeId, read: Option<Node>)
    requires Coherent(m, fm, g) && NodeDeleted(m', m, fm, g, id, read)
    requires read.Some? && id in g.nodes ==> read.value == g.nodes[id]
    ensures LabelIndex.Exact(m'.labels, g.nodes - {id}) <==> !(id in g.nodes && read.None?)
    ensures Coherent(m', fm, WithoutNode(g, id)) <==> !(id in g.nodes && read.None?)
  {
    DeleteNodeUsable(m', m, fm, g, id, read);
    hide LabelIndex.Exact, PropertyIndex.Exact, AreLinks, WithoutTouching, BucketRemove, PropertyIndex.Removed, Keyed,
         NoDangling;
    if id !in g.nodes {
      assert g.nodes - {id} == g.nodes;
    } else if read.None? && LabelIndex.Exact(m'.labels, g.nodes - {id}) {
      IndexTells(m.labels, g.nodes - {id}, g.nodes);
    }
  }

  /** The cache may drop entries or take in live ones. */
  lemma CacheChangeUsable(m': Memory, m: Memory, fm: FloatModel, g: Graph)
    requires Usable(m, fm, g)
    requires m' == m.(cachedNodes := m'.cachedNodes, cachedEdges := m'.cachedEdges)
    requires SubMap(m'.cachedNodes, g.nodes) && SubMap(m'.cachedEdges, g.edges)
    ensures Usable(m', fm, g)
  {
    hide LabelIndex.Exact, PropertyIndex.Exact;
  }

  lemma EmptyCoherent(fm: FloatModel)
    ensures Coherent(Memory({}, map[], map[], map[], map[], map[], map[], 0, 0), fm, EMPTY_GRAPH)
  {
  }

  ghost predicate BucketsAgree(m: Memory, m': Memory) {
    && (forall l: string :: multiset(Bucket(m.labels, l)) == multiset(Bucket(m'.labels, l)))
    && (forall f: string, k: Value ::
          multiset(PropertyIndex.FieldAt(m.fields, f, k)) == multiset(PropertyIndex.FieldAt(m'.fields, f, k)))
  }

  /** Two databases coherent with one graph have the same buckets up to order. */
  lemma SameBuckets(m: Memory, m': Memory, fm: FloatModel, g: Graph)
    requires Coherent(m, fm, g) && Coherent(m', fm, g)
    ensures BucketsAgree(m, m')
  {
    hide LabelIndex.WithLabel, PropertyIndex.WithValue, PropertyIndex.FieldAt, Bucket;
    forall l: string ensures multiset(Bucket(m.labels, l)) == multiset(Bucket(m'.labels, l)) {
      SameMembers(Bucket(m.labels, l), Bucket(m'.labels, l), LabelIndex.WithLabel(g.nodes, l));
    }
    forall f: string, k: Value
      ensures multiset(PropertyIndex.FieldAt(m.fields, f, k)) == multiset(PropertyIndex.FieldAt(m'.fields, f, k))
    {
      SameMembers(PropertyIndex.FieldAt(m.fields, f, k), PropertyIndex.FieldAt(m'.fields, f, k),
                  PropertyIndex.WithValue(fm, g.nodes, f, k));
    }
  }

  lemma SameMembers(a: seq<U64>, b: seq<U64>, members: set<U64>)
    requires ListsOnce(a, members) && ListsOnce(b, members)
    ensures multiset(a) == multiset(b)
  {
    SameElements(a, b);
  }
}
