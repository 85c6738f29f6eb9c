/** Buckets of node ids, as the label and property indexes keep them:
    src/adapters/index/label_index.rs and src/adapters/index/property_index.rs. */
module Buckets {
  import opened Core

  type Buckets<K> = map<K, seq<NodeId>>

  function Bucket<K>(m: Buckets<K>, key: K): seq<NodeId> {
    if key in m then m[key] else []
  }

  function BucketInsert<K(!new)>(m: Buckets<K>, key: K, id: NodeId): (m': Buckets<K>)
    ensures forall k :: Bucket(m', k) == if k == key then Bucket(m, key) + [id] else Bucket(m, k)
  {
    m[key := Bucket(m, key) + [id]]
  }

  /** An emptied bucket is dropped. */
  function BucketRemove<K(!new)>(m: Buckets<K>, key: K, id: NodeId): (m': Buckets<K>)
    ensures forall k :: Bucket(m', k) == if k == key then Minus(Bucket(m, key), id) else Bucket(m, k)
  {
    if key !in m then m
    else if Minus(m[key], id) == [] then m - {key}
    else m[key := Minus(m[key], id)]
  }

  lemma InsertListsOnce(ids: seq<NodeId>, members: set<NodeId>, id: NodeId)
    requires ListsOnce(ids, members)
    ensures ListsOnce(ids + [id], members + {id}) <==> id !in members
  {
    if id in members {
      var i :| 0 <= i < |ids| && ids[i] == id;
      assert (ids + [id])[|ids|] == (ids + [id])[i];
    } else {
      NoDupConcat(ids, [id]);
    }
  }

  lemma RemoveListsOnce(ids: seq<NodeId>, members: set<NodeId>, id: NodeId)
    requires ListsOnce(ids, members)
    ensures ListsOnce(Minus(ids, id), members - {id})
  {
    MinusMembers(ids, id);
  }
}

module LabelIndex {
  import opened Core
  import opened Buckets

  type Nodes = map<NodeId, Node>

  function WithLabel(nodes: Nodes, label': string): set<NodeId> {
    set id | id in nodes && nodes[id].lbl == label'
  }

  /** Each bucket lists the live nodes with its label, each once; no bucket is empty. */
  ghost predicate Exact(index: Buckets<string>, nodes: Nodes) {
    && (forall l: string :: ListsOnce(Bucket(index, l), WithLabel(nodes, l)))
    && (forall l :: l in index ==> index[l] != [])
  }

  lemma WithLabelInsert(nodes: Nodes, n: Node, l: string)
    requires n.id !in nodes
    ensures WithLabel(nodes[n.id := n], l) == WithLabel(nodes, l) + if l == n.lbl then {n.id} else {}
  {
  }

  lemma WithLabelRemove(nodes: Nodes, id: NodeId, l: string)
    ensures WithLabel(nodes - {id}, l) == WithLabel(nodes, l) - {id}
  {
  }

  /** Registering a node keeps the index exact precisely when its id was not live before. */
  lemma InsertExact(index: Buckets<string>, nodes: Nodes, n: Node)
    requires Exact(index, nodes)
    ensures Exact(BucketInsert(index, n.lbl, n.id), nodes[n.id := n]) <==> n.id !in nodes
  {
    var index' := BucketInsert(index, n.lbl, n.id);
    if n.id !in nodes {
      forall l: string ensures ListsOnce(Bucket(index', l), WithLabel(nodes[n.id := n], l)) {
        WithLabelInsert(nodes, n, l);
        InsertListsOnce(Bucket(index, l), WithLabel(nodes, l), n.id);
        assert WithLabel(nodes, l) + {} == WithLabel(nodes, l);
      }
    } else {
      var l := nodes[n.id].lbl;
      assert n.id in WithLabel(nodes, l) && n.id in Bucket(index, l);
      if l == n.lbl {
        InsertListsOnce(Bucket(index, l), WithLabel(nodes, l), n.id);
        assert WithLabel(nodes, l) + {n.id} == WithLabel(nodes[n.id := n], l) + {n.id};
        assert n.id in WithLabel(nodes[n.id := n], l);
        assert !NoDup(Bucket(index', l)) by {
          var i :| 0 <= i < |Bucket(index, l)| && Bucket(index, l)[i] == n.id;
          assert Bucket(index', l)[i] == Bucket(index', l)[|Bucket(index, l)|];
        }
      } else {
        assert n.id in Bucket(index', l) && n.id !in WithLabel(nodes[n.id := n], l);
      }
    }
  }

  /** Removing the entry of a live node keeps the index exact; so does removing an id that is
      not live, under any label. */
  lemma RemoveExact(index: Buckets<string>, nodes: Nodes, id: NodeId, l: string)
    requires Exact(index, nodes) && (id in nodes ==> nodes[id].lbl == l)
    ensures Exact(BucketRemove(index, l, id), nodes - {id})
  {
    forall k: string ensures ListsOnce(Bucket(BucketRemove(index, l, id), k), WithLabel(nodes - {id}, k)) {
      WithLabelRemove(nodes, id, k);
      RemoveListsOnce(Bucket(index, k), WithLabel(nodes, k), id);
      if k != l {
        assert WithLabel(nodes, k) - {id} == WithLabel(nodes, k);
      }
    }
  }

  class LabelIndex {
    var index: Buckets<string>

    constructor ()
      ensures index == map[]
    {
      index := map[];
    }

    method Insert(id: NodeId, label': string)
      modifies this
      ensures index == BucketInsert(old(index), label', id)
    {
      index := index[label' := Bucket(index, label') + [id]];
    }

    method Remove(id: NodeId, label': string)
      modifies this
      ensures index == BucketRemove(old(index), label', id)
    {
      if label' in index {
        var ids := Minus(index[label'], id);
        if ids == [] {
          index := index - {label'};
        } else {
          index := index[label' := ids];
        }
      }
    }

    method Get(label': string, ghost nodes: Nodes) returns (ids: seq<NodeId>)
      requires Exact(index, nodes)
      ensures ListsOnce(ids, WithLabel(nodes, label'))
    {
      ids := Bucket(index, label');
    }
  }
}
