/** The entities every layer shares: ids, property values, nodes and edges. */
module Core {

  type U8 = n: int | 0 <= n < 0x100
  type U32 = n: int | 0 <= n < 0x1_0000_0000
  type U64 = n: int | 0 <= n < 0x1_0000_0000_0000_0000
  type I64 = n: int | -0x8000_0000_0000_0000 <= n < 0x8000_0000_0000_0000

  const MAX_U64: int := 0xFFFF_FFFF_FFFF_FFFF

  /** An IEEE 754 bit pattern. What it means as a number is a parameter wherever it matters. */
  type F64 = U64

  type NodeId = U64
  type EdgeId = U64

  datatype Option<+T> = None | Some(value: T)

  datatype Result<+T, +E> = Ok(value: T) | Err(error: E)
  {
    predicate IsFailure() {
      Err?
    }

    function PropagateFailure<U>(): Result<U, E>
      requires Err?
    {
      Err(error)
    }

    function Extract(): T
      requires Ok?
    {
      value
    }
  }

  datatype Value = Null | Boolean(b: bool) | Integer(i: I64) | Float(f: F64) | Text(s: string)

  type Properties = map<string, Value>

  datatype Node = Node(id: NodeId, lbl: string, properties: Properties)

  datatype Edge = Edge(
    id: EdgeId, source: NodeId, target: NodeId, lbl: string, weight: F64, properties: Properties)

  /** The live content of a database: what a storage adapter loads. */
  datatype Graph = Graph(nodes: map<NodeId, Node>, edges: map<EdgeId, Edge>)

  const EMPTY_GRAPH := Graph(map[], map[])

  /** Every live edge joins two live nodes. */
  ghost predicate NoDangling(g: Graph) {
    forall e :: e in g.edges ==> g.edges[e].source in g.nodes && g.edges[e].target in g.nodes
  }

  /** Each record is stored under its own id. */
  ghost predicate Keyed(g: Graph) {
    && (forall n :: n in g.nodes ==> g.nodes[n].id == n)
    && (forall e :: e in g.edges ==> g.edges[e].id == e)
  }

  function Lookup<K, V>(m: map<K, V>, k: K): Option<V> {
    if k in m then Some(m[k]) else None
  }

  ghost predicate NoDup<T>(s: seq<T>) {
    forall i, j :: 0 <= i < j < |s| ==> s[i] != s[j]
  }

  lemma NoDupConcat<T>(a: seq<T>, b: seq<T>)
    requires NoDup(a) && NoDup(b) && forall x :: x in a ==> x !in b
    ensures NoDup(a + b)
  {
    forall i, j | 0 <= i < j < |a + b| ensures (a + b)[i] != (a + b)[j] {
      if i < |a| <= j {
        assert a[i] in a && b[j - |a|] in b;
      }
    }
  }

  lemma {:induction false} NoDupSize<T>(s: seq<T>, elements: set<T>)
    requires NoDup(s) && forall x :: x in s <==> x in elements
    ensures |s| == |elements|
    decreases |s|
  {
    if s != [] {
      var init, last := s[..|s| - 1], s[|s| - 1];
      assert s == init + [last];
      NoDupSize(init, elements - {last});
    } else {
      assert elements == {};
    }
  }

  /** `ps` lists the entries of `m`, each once, in some order. */
  ghost predicate Enumerates<K, V>(ps: seq<(K, V)>, m: map<K, V>) {
    && (forall p :: p in ps ==> p.0 in m && m[p.0] == p.1)
    && (forall k :: k in m ==> (k, m[k]) in ps)
    && NoDup(ps)
  }

  lemma EnumeratesInit<K, V>(ps: seq<(K, V)>, m: map<K, V>)
    requires ps != [] && Enumerates(ps, m)
    ensures Enumerates(ps[..|ps| - 1], m - {ps[|ps| - 1].0})
  {
    var n := |ps| - 1;
    assert ps == ps[..n] + [ps[n]];
    assert forall i :: 0 <= i < |ps| ==> ps[i] in ps;
    forall p | p in ps[..n] ensures p.0 in m && p.0 != ps[n].0 && m[p.0] == p.1 {
      assert p in ps;
    }
  }

  lemma {:induction false} EnumeratesCount<K, V>(ps: seq<(K, V)>, m: map<K, V>)
    requires Enumerates(ps, m)
    ensures |ps| == |m|
    decreases |ps|
  {
    if ps == [] {
      assert m == map[];
    } else {
      var last := ps[|ps| - 1];
      assert last in ps;
      EnumeratesInit(ps, m);
      EnumeratesCount(ps[..|ps| - 1], m - {last.0});
      assert m.Keys == (m - {last.0}).Keys + {last.0};
    }
  }

  lemma EnumeratesNone<K, V>(m: map<K, V>)
    ensures Enumerates([], m - m.Keys)
  {
  }

  lemma EnumeratesSnoc<K, V>(ps: seq<(K, V)>, m: map<K, V>, left: set<K>, k: K)
    requires left <= m.Keys && k in left && Enumerates(ps, m - left)
    ensures Enumerates(ps + [(k, m[k])], m - (left - {k}))
  {
    var qs := ps + [(k, m[k])];
    var m' := m - (left - {k});
    forall j | j in m' ensures (j, m'[j]) in qs {
      if j != k {
        assert (j, (m - left)[j]) in ps;
      }
    }
    NoDupConcat(ps, [(k, m[k])]);
  }

  /** `ids.retain(|&x| x != id)` */
  function Minus(ids: seq<U64>, id: U64): seq<U64> {
    if ids == [] then []
    else
      var last := ids[|ids| - 1];
      Minus(ids[..|ids| - 1], id) + if last == id then [] else [last]
  }

  lemma {:induction false} MinusMembers(ids: seq<U64>, id: U64)
    ensures forall x :: x in Minus(ids, id) <==> x in ids && x != id
    ensures NoDup(ids) ==> NoDup(Minus(ids, id))
    ensures id !in ids ==> Minus(ids, id) == ids
    decreases |ids|
  {
    if ids != [] {
      var init, last := ids[..|ids| - 1], ids[|ids| - 1];
      assert ids == init + [last];
      MinusMembers(init, id);
      if NoDup(ids) {
        NoDupConcat(Minus(init, id), if last == id then [] else [last]);
      }
    }
  }

  /** The others stay in their order. */
  lemma {:induction false} MinusConcat(a: seq<U64>, b: seq<U64>, id: U64)
    ensures Minus(a + b, id) == Minus(a, id) + Minus(b, id)
    decreases |b|
  {
    if b == [] {
      assert a + b == a;
    } else {
      assert (a + b)[..|a + b| - 1] == a + b[..|b| - 1];
      MinusConcat(a, b[..|b| - 1], id);
    }
  }

  /** `ids` lists the members of the set, each once. */
  ghost predicate ListsOnce(ids: seq<U64>, members: set<U64>) {
    NoDup(ids) && forall id: U64 :: id in ids <==> id in members
  }

  lemma SameElements<T>(a: seq<T>, b: seq<T>)
    requires NoDup(a) && NoDup(b)
    requires forall x :: x in a <==> x in b
    ensures multiset(a) == multiset(b)
  {
    forall x ensures multiset(a)[x] == multiset(b)[x] {
      CountOnce(a, x);
      CountOnce(b, x);
    }
  }

  lemma {:induction false} CountOnce<T>(a: seq<T>, x: T)
    requires NoDup(a)
    ensures multiset(a)[x] == if x in a then 1 else 0
    decreases |a|
  {
    if a != [] {
      var rest, last := a[..|a| - 1], a[|a| - 1];
      assert a == rest + [last];
      CountOnce(rest, x);
      assert last !in rest;
    }
  }

  /** `.into_iter().filter(p).collect()` */
  function Filter<T>(p: T -> bool, s: seq<T>): seq<T> {
    if s == [] then []
    else Filter(p, s[..|s| - 1]) + if p(s[|s| - 1]) then [s[|s| - 1]] else []
  }

  lemma {:induction false} FilterContent<T>(p: T -> bool, s: seq<T>)
    ensures forall x :: x in Filter(p, s) <==> x in s && p(x)
    ensures NoDup(s) ==> NoDup(Filter(p, s))
    decreases |s|
  {
    if s != [] {
      var init, last := s[..|s| - 1], s[|s| - 1];
      assert s == init + [last];
      FilterContent(p, init);
      if NoDup(s) {
        assert last !in init;
        NoDupConcat(Filter(p, init), if p(last) then [last] else []);
      }
    }
  }
}
