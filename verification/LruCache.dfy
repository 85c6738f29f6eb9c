/** The generation-stamped cache of src/adapters/cache/lru.rs, proved to be a recency list. */
module LruCache {
  import opened Core

  datatype Entry<+V> = Entry(value: V, stamp: nat)

  type Store<V> = map<U64, Entry<V>>

  /** The map holds the values of the entries. */
  ghost predicate Contains<V>(contents: map<U64, V>, store: Store<V>) {
    contents.Keys == store.Keys && forall k :: k in store ==> contents[k] == store[k].value
  }

  // ---- The recency list ----

  /** A cache as a list of its keys, least recently touched first, and what they hold. */
  datatype Recency<V> = Recency(order: seq<U64>, contents: map<U64, V>) {
    /** A hit moves the key to the end. */
    function Touch(id: U64): Recency<V> {
      if id in contents then Recency(Minus(order, id) + [id], contents) else this
    }

    /** A put goes to the end; a new key enters a full list at the cost of the front one. */
    function Put(capacity: nat, id: U64, v: V): Recency<V> {
      if id in contents || |order| < capacity || order == [] then
        Recency(Minus(order, id) + [id], contents[id := v])
      else
        Recency(Minus(order[1..], id) + [id], (contents - {order[0]})[id := v])
    }

    function Invalidate(id: U64): Recency<V> {
      Recency(Minus(order, id), contents - {id})
    }
  }

  /** The key goes last and the others keep their order. */
  ghost predicate MovedLast(after: seq<U64>, before: seq<U64>, id: U64) {
    exists a, b :: before == a + [id] + b && after == a + b + [id]
  }

  lemma TakeOut(a: seq<U64>, id: U64, b: seq<U64>)
    requires id !in a && id !in b
    ensures Minus(a + [id] + b, id) == a + b
  {
    assert Minus([id], id) == [] by { assert [id][..0] == []; }
    assert a + [] == a;
    hide Minus;
    MinusMembers(a, id);
    MinusMembers(b, id);
    MinusConcat(a + [id], b, id);
    MinusConcat(a, [id], id);
  }

  lemma SplitOrder(order: seq<U64>, id: U64) returns (a: seq<U64>, b: seq<U64>)
    requires NoDup(order) && id in order
    ensures order == a + [id] + b && id !in a && id !in b
  {
    var i :| 0 <= i < |order| && order[i] == id;
    a, b := order[..i], order[i + 1..];
  }

  lemma TouchLast<V>(store: Store<V>, r: Recency<V>, generation: nat, id: U64)
    requires Refines(store, r, generation) && id in r.contents
    ensures MovedLast(r.Touch(id).order, r.order, id)
  {
    OrderNoDup(store, r, generation);
    var a, b := SplitOrder(r.order, id);
    hide Minus;
    TakeOut(a, id, b);
  }

  // ---- Refinement ----

  ghost predicate Increasing<V>(store: Store<V>, order: seq<U64>) {
    && (forall k :: k in order ==> k in store)
    && (forall i, j :: 0 <= i < j < |order| ==> store[order[i]].stamp < store[order[j]].stamp)
  }

  /** The store holds the contents of the list, with stamps that increase along it. */
  ghost predicate Refines<V>(store: Store<V>, r: Recency<V>, generation: nat) {
    && Contains(r.contents, store)
    && (forall k :: k in store ==> k in r.order && store[k].stamp <= generation)
    && Increasing(store, r.order)
  }

  lemma {:induction false} MinusContent<V>(store: Store<V>, order: seq<U64>, id: U64)
    requires Increasing(store, order)
    ensures Increasing(store, Minus(order, id))
    ensures Increasing(store - {id}, Minus(order, id))
    ensures forall k :: k in Minus(order, id) <==> k in order && k != id
    decreases |order|
  {
    if order != [] {
      var init, last := order[..|order| - 1], order[|order| - 1];
      assert order == init + [last];
      MinusContent(store, init, id);
      forall k | k in init ensures store[k].stamp < store[last].stamp {
        var i :| 0 <= i < |init| && order[i] == k;
      }
      var rest := Minus(init, id);
      assert Minus(order, id) == rest + if last == id then [] else [last];
      assert forall i :: 0 <= i < |rest| ==> rest[i] in rest;
    }
  }

  lemma InvalidateRefines<V>(store: Store<V>, r: Recency<V>, generation: nat, id: U64)
    requires Refines(store, r, generation)
    ensures Refines(store - {id}, r.Invalidate(id), generation)
  {
    MinusContent(store, r.order, id);
    hide Increasing, Minus;
  }

  lemma AppendIncreasing<V>(store: Store<V>, order: seq<U64>, generation: nat, id: U64, v: V)
    requires Increasing(store, order) && id !in order
    requires forall k :: k in order ==> store[k].stamp <= generation
    ensures Increasing(store[id := Entry(v, generation + 1)], order + [id])
  {
    assert forall i :: 0 <= i < |order| ==> order[i] in order;
  }

  /** A fresh stamp puts the entry at the end. */
  lemma StampRefines<V>(store: Store<V>, r: Recency<V>, generation: nat, id: U64, v: V)
    requires Refines(store, r, generation)
    ensures Refines(store[id := Entry(v, generation + 1)],
                    Recency(Minus(r.order, id) + [id], r.contents[id := v]), generation + 1)
  {
    hide Increasing, Minus;
    MinusContent(store, r.order, id);
    AppendIncreasing(store, Minus(r.order, id), generation, id, v);
    assert forall k :: k in Minus(r.order, id) + [id] <==> k in r.order || k == id;
  }

  lemma OrderNoDup<V>(store: Store<V>, r: Recency<V>, generation: nat)
    requires Refines(store, r, generation)
    ensures NoDup(r.order)
  {
    forall i, j | 0 <= i < j < |r.order| ensures r.order[i] != r.order[j] {
      assert store[r.order[i]].stamp < store[r.order[j]].stamp;
    }
  }

  lemma SizesAgree<V>(store: Store<V>, r: Recency<V>, generation: nat)
    requires Refines(store, r, generation)
    ensures |store| == |r.order|
  {
    OrderNoDup(store, r, generation);
    NoDupSize(r.order, store.Keys);
  }

  lemma NothingRefines<V>(generation: nat)
    ensures Refines<V>(map[], Recency([], map[]), generation)
  {
  }

  lemma Later<V>(store: Store<V>, r: Recency<V>, generation: nat)
    requires Refines(store, r, generation)
    ensures Refines(store, r, generation + 1)
  {
  }

  // ---- The cache ----

  /** The entry with the smallest stamp: the front of the recency list. */
  method OldestKey<V>(store: Store<V>, ghost r: Recency<V>, ghost generation: nat) returns (oldest: U64)
    requires Refines(store, r, generation) && store != map[]
    ensures r.order != [] && oldest in store && oldest == r.order[0]
  {
    var left := store.Keys;
    oldest :| oldest in left;
    left := left - {oldest};
    while left != {}
      invariant oldest in store && left <= store.Keys
      invariant forall k :: k in store && k !in left ==> store[oldest].stamp <= store[k].stamp
      decreases |left|
    {
      var k :| k in left;
      if store[k].stamp < store[oldest].stamp {
        oldest := k;
      }
      left := left - {k};
    }
    ghost var i :| 0 <= i < |r.order| && r.order[i] == oldest;
    assert r.order[0] in r.order;
  }

  lemma HoldsContents<V>(store: Store<V>, r: Recency<V>, generation: nat)
    requires Refines(store, r, generation)
    ensures r.contents.Keys == store.Keys && forall k :: k in store ==> r.contents[k] == store[k].value
  {
  }

  lemma RestIncreasing<V>(store: Store<V>, order: seq<U64>)
    requires Increasing(store, order) && order != []
    ensures Increasing(store - {order[0]}, order[1..])
    ensures forall k :: k in order[1..] <==> k in order && k != order[0]
  {
    var rest := order[1..];
    assert order == [order[0]] + rest;
    forall k | k in rest ensures k != order[0] && k in store {
      var i :| 0 <= i < |rest| && rest[i] == k;
      assert store[order[0]].stamp < store[order[i + 1]].stamp;
    }
  }

  /** The entry with the smallest stamp is the front of the list. */
  lemma DropOldest<V>(store: Store<V>, r: Recency<V>, generation: nat)
    requires Refines(store, r, generation) && r.order != []
    ensures Refines(store - {r.order[0]}, Recency(r.order[1..], r.contents - {r.order[0]}), generation)
  {
    RestIncreasing(store, r.order);
    hide Increasing;
  }

  class LruCache {
    const nodeCapacity: nat
    const edgeCapacity: nat
    var nodes: Store<Node>
    var edges: Store<Edge>
    var generation: nat

    /** The recency lists the stamped stores stand for. */
    ghost var nodeList: Recency<Node>
    ghost var edgeList: Recency<Edge>

    ghost predicate Valid()
      reads this
    {
      && nodeCapacity > 0 && edgeCapacity > 0
      && Refines(nodes, nodeList, generation) && |nodes| <= nodeCapacity
      && Refines(edges, edgeList, generation) && |edges| <= edgeCapacity
    }

    constructor (nodeCapacity: nat, edgeCapacity: nat)
      requires nodeCapacity > 0 && edgeCapacity > 0
      ensures Valid() && nodeList == Recency([], map[]) && edgeList == Recency([], map[])
      ensures this.nodeCapacity == nodeCapacity && this.edgeCapacity == edgeCapacity
    {
      this.nodeCapacity, this.edgeCapacity := nodeCapacity, edgeCapacity;
      nodes, edges, generation := map[], map[], 0;
      nodeList, edgeList := Recency([], map[]), Recency([], map[]);
    }

    method GetNode(id: NodeId) returns (r: Option<Node>)
      requires Valid()
      modifies this
      ensures Valid() && r == Lookup(old(nodeList).contents, id)
      ensures nodeList == old(nodeList).Touch(id) && edgeList == old(edgeList)
      ensures if r.Some? then MovedLast(nodeList.order, old(nodeList).order, id) else nodeList == old(nodeList)
    {
      hide Refines, Minus, MovedLast;
      HoldsContents(nodes, nodeList, generation);
      if id in nodes {
        TouchLast(nodes, nodeList, generation, id);
      }
      Later(edges, edgeList, generation);
      Later(nodes, nodeList, generation);
      generation := generation + 1;
      if id in nodes {
        StampRefines(nodes, nodeList, generation - 1, id, nodes[id].value);
        assert nodeList.contents[id := nodes[id].value] == nodeList.contents;
        nodeList := nodeList.Touch(id);
        r := Some(nodes[id].value);
        nodes := nodes[id := nodes[id].(stamp := generation)];
      } else {
        r := None;
      }
    }

    method PutNode(node: Node)
      requires Valid()
      modifies this
      ensures Valid() && nodeList == old(nodeList).Put(nodeCapacity, node.id, node) && edgeList == old(edgeList)
    {
      hide Refines, Minus;
      HoldsContents(nodes, nodeList, generation);
      SizesAgree(nodes, nodeList, generation);
      Later(edges, edgeList, generation);
      generation := generation + 1;
      ghost var before := nodeList;
      if node.id !in nodes && |nodes| >= nodeCapacity {
        var oldest := OldestKey(nodes, nodeList, generation - 1);
        DropOldest(nodes, nodeList, generation - 1);
        nodes := nodes - {oldest};
        before := Recency(nodeList.order[1..], nodeList.contents - {oldest});
      }
      StampRefines(nodes, before, generation - 1, node.id, node);
      nodeList := nodeList.Put(nodeCapacity, node.id, node);
      nodes := nodes[node.id := Entry(node, generation)];
    }

    method InvalidateNode(id: NodeId)
      requires Valid()
      modifies this
      ensures Valid() && nodeList == old(nodeList).Invalidate(id) && edgeList == old(edgeList)
    {
      hide Refines, Minus;
      InvalidateRefines(nodes, nodeList, generation, id);
      nodes := nodes - {id};
      nodeList := nodeList.Invalidate(id);
    }

    method GetEdge(id: EdgeId) returns (r: Option<Edge>)
      requires Valid()
      modifies this
      ensures Valid() && r == Lookup(old(edgeList).contents, id)
      ensures edgeList == old(edgeList).Touch(id) && nodeList == old(nodeList)
      ensures if r.Some? then MovedLast(edgeList.order, old(edgeList).order, id) else edgeList == old(edgeList)
    {
      hide Refines, Minus, MovedLast;
      HoldsContents(edges, edgeList, generation);
      if id in edges {
        TouchLast(edges, edgeList, generation, id);
      }
      Later(nodes, nodeList, generation);
      Later(edges, edgeList, generation);
      generation := generation + 1;
      if id in edges {
        StampRefines(edges, edgeList, generation - 1, id, edges[id].value);
        assert edgeList.contents[id := edges[id].value] == edgeList.contents;
        edgeList := edgeList.Touch(id);
        r := Some(edges[id].value);
        edges := edges[id := edges[id].(stamp := generation)];
      } else {
        r := None;
      }
    }

    method PutEdge(edge: Edge)
      requires Valid()
      modifies this
      ensures Valid() && edgeList == old(edgeList).Put(edgeCapacity, edge.id, edge) && nodeList == old(nodeList)
    {
      hide Refines, Minus;
      HoldsContents(edges, edgeList, generation);
      SizesAgree(edges, edgeList, generation);
      Later(nodes, nodeList, generation);
      generation := generation + 1;
      ghost var before := edgeList;
      if edge.id !in edges && |edges| >= edgeCapacity {
        var oldest := OldestKey(edges, edgeList, generation - 1);
        DropOldest(edges, edgeList, generation - 1);
        edges := edges - {oldest};
        before := Recency(edgeList.order[1..], edgeList.contents - {oldest});
      }
      StampRefines(edges, before, generation - 1, edge.id, edge);
      edgeList := edgeList.Put(edgeCapacity, edge.id, edge);
      edges := edges[edge.id := Entry(edge, generation)];
    }

    method InvalidateEdge(id: EdgeId)
      requires Valid()
      modifies this
      ensures Valid() && edgeList == old(edgeList).Invalidate(id) && nodeList == old(nodeList)
    {
      hide Refines, Minus;
      InvalidateRefines(edges, edgeList, generation, id);
      edges := edges - {id};
      edgeList := edgeList.Invalidate(id);
    }

    method Clear()
      requires Valid()
      modifies this
      ensures Valid() && nodeList == Recency([], map[]) && edgeList == Recency([], map[])
    {
      hide Refines;
      NothingRefines<Node>(generation);
      NothingRefines<Edge>(generation);
      nodes, edges := map[], map[];
      nodeList, edgeList := Recency([], map[]), Recency([], map[]);
    }
  }
}
