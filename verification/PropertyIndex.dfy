/** Per-field secondary indexes, src/adapters/index/property_index.rs. */
module PropertyIndex {
  import opened Core
  import opened Buckets
  import opened QueryAst
  import TextOrder

  type Nodes = map<NodeId, Node>

  /** One ordered map per value type; floats are keyed by the representative of their class. */
  datatype FieldIndex = FieldIndex(
    integers: Buckets<I64>, floats: Buckets<F64>, texts: Buckets<string>, bools: Buckets<bool>, nulls: seq<NodeId>)
  {
    /** The bucket of an index key. */
    function At(k: Value): seq<NodeId> {
      match k
      case Integer(i) => Bucket(integers, i)
      case Float(f) => Bucket(floats, f)
      case Text(s) => Bucket(texts, s)
      case Boolean(b) => Bucket(bools, b)
      case Null => nulls
    }

    function Insert(fm: FloatModel, id: NodeId, v: Value): (fi: FieldIndex)
      ensures forall k: Value :: fi.At(k) == At(k) + if KeyOf(fm, v) == k then [id] else []
    {
      match v
      case Integer(i) => this.(integers := BucketInsert(integers, i, id))
      case Float(f) => this.(floats := BucketInsert(floats, fm.key(f), id))
      case Text(s) => this.(texts := BucketInsert(texts, s, id))
      case Boolean(b) => this.(bools := BucketInsert(bools, b, id))
      case Null => this.(nulls := nulls + [id])
    }

    function Remove(fm: FloatModel, id: NodeId, v: Value): (fi: FieldIndex)
      ensures forall k: Value :: fi.At(k) == if KeyOf(fm, v) == k then Minus(At(k), id) else At(k)
    {
      match v
      case Integer(i) => this.(integers := BucketRemove(integers, i, id))
      case Float(f) => this.(floats := BucketRemove(floats, fm.key(f), id))
      case Text(s) => this.(texts := BucketRemove(texts, s, id))
      case Boolean(b) => this.(bools := BucketRemove(bools, b, id))
      case Null => this.(nulls := Minus(nulls, id))
    }
  }

  const EMPTY_FIELD := FieldIndex(map[], map[], map[], map[], [])

  /** The key a value is filed under. */
  function KeyOf(fm: FloatModel, v: Value): Value {
    match v
    case Float(f) => Float(fm.key(f))
    case _ => v
  }

  type Fields = map<string, FieldIndex>

  function FieldAt(fields: Fields, field: string, k: Value): seq<NodeId> {
    if field in fields then fields[field].At(k) else []
  }

  /** The node has the field with a value filed under this key. */
  predicate HasValue(fm: FloatModel, props: Properties, field: string, k: Value) {
    field in props && KeyOf(fm, props[field]) == k
  }

  function WithValue(fm: FloatModel, nodes: Nodes, field: string, v: Value): set<NodeId> {
    set id | id in nodes && HasValue(fm, nodes[id].properties, field, v)
  }

  /** Each bucket lists the live nodes with its field and key, each once, and every field of a
      live node has an index. */
  ghost predicate Exact(fields: Fields, fm: FloatModel, nodes: Nodes) {
    && (forall f: string, v: Value :: ListsOnce(FieldAt(fields, f, v), WithValue(fm, nodes, f, v)))
    && (forall id :: id in nodes ==> nodes[id].properties.Keys <= fields.Keys)
  }

  // ---- Whole nodes ----

  /** The buckets after `id` was added under the given properties. */
  ghost predicate Added(fields': Fields, fields: Fields, fm: FloatModel, id: NodeId, props: Properties) {
    && fields'.Keys == fields.Keys + props.Keys
    && forall f: string, v: Value ::
         FieldAt(fields', f, v) == FieldAt(fields, f, v) + if HasValue(fm, props, f, v) then [id] else []
  }

  ghost predicate Removed(fields': Fields, fields: Fields, fm: FloatModel, id: NodeId, props: Properties) {
    && fields'.Keys == fields.Keys
    && forall f: string, v: Value ::
         FieldAt(fields', f, v)
         == if HasValue(fm, props, f, v) then Minus(FieldAt(fields, f, v), id) else FieldAt(fields, f, v)
  }

  lemma WithValueInsert(fm: FloatModel, nodes: Nodes, n: Node, f: string, v: Value)
    requires n.id !in nodes
    ensures WithValue(fm, nodes[n.id := n], f, v)
         == WithValue(fm, nodes, f, v) + if HasValue(fm, n.properties, f, v) then {n.id} else {}
  {
  }

  lemma WithValueRemove(fm: FloatModel, nodes: Nodes, id: NodeId, f: string, v: Value)
    ensures WithValue(fm, nodes - {id}, f, v) == WithValue(fm, nodes, f, v) - {id}
  {
  }

  /** Indexing a node that is not live keeps the index exact. */
  lemma AddExact(fields': Fields, fields: Fields, fm: FloatModel, nodes: Nodes, n: Node)
    requires Exact(fields, fm, nodes) && n.id !in nodes && Added(fields', fields, fm, n.id, n.properties)
    ensures Exact(fields', fm, nodes[n.id := n])
  {
    hide HasValue, FieldAt, WithValue;
    forall f: string, v: Value ensures ListsOnce(FieldAt(fields', f, v), WithValue(fm, nodes[n.id := n], f, v)) {
      WithValueInsert(fm, nodes, n, f, v);
      NotWithValue(fm, nodes, n.id, f, v);
      InsertListsOnce(FieldAt(fields, f, v), WithValue(fm, nodes, f, v), n.id);
      assert WithValue(fm, nodes, f, v) + {} == WithValue(fm, nodes, f, v);
      assert FieldAt(fields, f, v) + [] == FieldAt(fields, f, v);
    }
  }

  lemma NotWithValue(fm: FloatModel, nodes: Nodes, id: NodeId, f: string, v: Value)
    requires id !in nodes
    ensures id !in WithValue(fm, nodes, f, v)
  {
  }

  /** Dropping a live node under its own properties keeps the index exact; so does dropping an
      id that is not live, under any properties. */
  lemma RemoveExact(fields': Fields, fields: Fields, fm: FloatModel, nodes: Nodes, id: NodeId, props: Properties)
    requires Exact(fields, fm, nodes) && (id in nodes ==> nodes[id].properties == props)
    requires Removed(fields', fields, fm, id, props)
    ensures Exact(fields', fm, nodes - {id})
  {
    hide FieldAt;
    forall f: string, v: Value ensures ListsOnce(FieldAt(fields', f, v), WithValue(fm, nodes - {id}, f, v)) {
      WithValueRemove(fm, nodes, id, f, v);
      RemoveListsOnce(FieldAt(fields, f, v), WithValue(fm, nodes, f, v), id);
      if !HasValue(fm, props, f, v) {
        assert WithValue(fm, nodes, f, v) - {id} == WithValue(fm, nodes, f, v);
      }
    }
  }

  /** One more field filed. */
  lemma AddField(fields'': Fields, fields': Fields, fields: Fields, fm: FloatModel, id: NodeId, props: Properties,
                 f: string, v: Value)
    requires Added(fields', fields, fm, id, props) && f !in props
    requires fields'' == fields'[f := (if f in fields' then fields'[f] else EMPTY_FIELD).Insert(fm, id, v)]
    ensures Added(fields'', fields, fm, id, props[f := v])
  {
    hide FieldIndex.At, FieldIndex.Insert;
    EmptyField();
    forall g: string, k: Value
      ensures FieldAt(fields'', g, k) == FieldAt(fields, g, k) + if HasValue(fm, props[f := v], g, k) then [id] else []
    {
      assert FieldAt(fields', g, k) == FieldAt(fields, g, k) + if HasValue(fm, props, g, k) then [id] else [];
      if g != f {
        assert FieldAt(fields'', g, k) == FieldAt(fields', g, k);
        assert HasValue(fm, props[f := v], g, k) == HasValue(fm, props, g, k);
      }
    }
  }

  lemma EmptyField()
    ensures forall k: Value :: EMPTY_FIELD.At(k) == []
  {
  }

  lemma RemoveField(fields'': Fields, fields': Fields, fields: Fields, fm: FloatModel, id: NodeId,
                    props: Properties, f: string, v: Value)
    requires Removed(fields', fields, fm, id, props) && f !in props
    requires fields'' == if f in fields' then fields'[f := fields'[f].Remove(fm, id, v)] else fields'
    ensures Removed(fields'', fields, fm, id, props[f := v])
  {
    hide FieldIndex.At, FieldIndex.Remove, Minus;
    forall g: string, k: Value
      ensures FieldAt(fields'', g, k)
           == if HasValue(fm, props[f := v], g, k) then Minus(FieldAt(fields, g, k), id) else FieldAt(fields, g, k)
    {
      if g != f {
        assert FieldAt(fields'', g, k) == FieldAt(fields', g, k);
        assert HasValue(fm, props[f := v], g, k) == HasValue(fm, props, g, k);
      } else {
        assert FieldAt(fields', g, k) == FieldAt(fields, g, k);
        MinusMembers([], id);
      }
    }
  }

  // ---- Queries ----

  /** The nodes whose value of the field compares to the sought one as index keys do. */
  function Matching(fm: FloatModel, nodes: Nodes, field: string, op: Op, sought: Value): set<NodeId> {
    set id | id in nodes && field in nodes[id].properties && CompareKeys(fm, op, nodes[id].properties[field], sought)
  }

  /** The ids in the buckets whose key passes. `at` says what each bucket holds and `keyOf` where
      each matching node is filed. */
  method Gather<K(==,!new)>(m: Buckets<K>, passes: K -> bool, ghost at: K -> set<NodeId>,
                            ghost matching: set<NodeId>, ghost keyOf: NodeId --> K)
    returns (ids: seq<NodeId>)
    requires forall k: K :: ListsOnce(Bucket(m, k), at(k))
    requires forall k: K, id: NodeId :: id in at(k) ==> (id in matching <==> passes(k))
    requires forall id: NodeId :: id in matching ==> keyOf.requires(id) && id in at(keyOf(id))
    requires forall k: K, id: NodeId :: id in at(k) ==> keyOf.requires(id) && keyOf(id) == k
    ensures ListsOnce(ids, matching)
  {
    ids := [];
    var left := set k | k in m && passes(k);
    while left != {}
      invariant left <= m.Keys && forall k :: k in left ==> passes(k)
      invariant NoDup(ids) && forall id: NodeId :: id in ids <==> id in matching && keyOf(id) in m && keyOf(id) !in left
      decreases |left|
    {
      var k :| k in left;
      assert ListsOnce(Bucket(m, k), at(k));
      NoDupConcat(ids, m[k]);
      ids := ids + m[k];
      left := left - {k};
    }
    forall id | id in matching ensures id in ids {
      assert ListsOnce(Bucket(m, keyOf(id)), at(keyOf(id)));
    }
  }

  /** One end of a range of an ordered map. */
  datatype Bound<+K> = Unbounded | Included(key: K) | Excluded(key: K)

  predicate Within<K>(lo: Bound<K>, hi: Bound<K>, less: (K, K) -> bool, k: K) {
    && (match lo case Unbounded => true case Included(b) => !less(k, b) case Excluded(b) => less(b, k))
    && (match hi case Unbounded => true case Included(b) => !less(b, k) case Excluded(b) => less(k, b))
  }

  /** The key stands in an order to the sought one. */
  predicate Ordered<K(==)>(less: (K, K) -> bool, k: K, key: K) {
    if k == key then !less(k, key) && !less(key, k) else less(k, key) == !less(key, k)
  }

  /** The buckets of an ordered map an operator selects: one lookup, everything but, or a range. */
  method RangeQuery<K(==,!new)>(m: Buckets<K>, op: Op, key: K, less: (K, K) -> bool, unequal: K -> bool,
                                ghost at: K -> set<NodeId>, ghost matching: set<NodeId>, ghost keyOf: NodeId --> K)
    returns (ids: seq<NodeId>)
    requires forall k: K :: ListsOnce(Bucket(m, k), at(k))
    requires forall k: K, id: NodeId :: id in at(k) ==> Ordered(less, k, key)
    requires forall k: K, id: NodeId :: id in at(k) ==>
               (id in matching <==> if op == NotEq then unequal(k) else CompareOrd(op, less(k, key), k == key))
    requires forall id: NodeId :: id in matching ==> keyOf.requires(id) && id in at(keyOf(id))
    requires forall k: K, id: NodeId :: id in at(k) ==> keyOf.requires(id) && keyOf(id) == k
    ensures ListsOnce(ids, matching)
  {
    hide ListsOnce;
    match op {
      case Eq =>
        ids := Bucket(m, key);
        assert at(key) == matching;
      case NotEq => ids := Gather(m, unequal, at, matching, keyOf);
      case Lt => ids := Gather(m, k => Within(Unbounded, Excluded(key), less, k), at, matching, keyOf);
      case LtEq => ids := Gather(m, k => Within(Unbounded, Included(key), less, k), at, matching, keyOf);
      case Gt => ids := Gather(m, k => Within(Excluded(key), Unbounded, less, k), at, matching, keyOf);
      case GtEq => ids := Gather(m, k => Within(Included(key), Unbounded, less, k), at, matching, keyOf);
    }
  }

  method QueryIntegers(m: Buckets<I64>, fm: FloatModel, op: Op, x: I64, field: string, ghost nodes: Nodes)
    returns (ids: seq<NodeId>)
    requires forall k: I64 :: ListsOnce(Bucket(m, k), WithValue(fm, nodes, field, Integer(k)))
    ensures ListsOnce(ids, Matching(fm, nodes, field, op, Integer(x)))
  {
    hide CompareOrd, TextLess, BoolLess, ListsOnce;
    ghost var at := (k: I64) => WithValue(fm, nodes, field, Integer(k));
    ghost var keyOf := (id: NodeId)
      requires id in nodes && field in nodes[id].properties && nodes[id].properties[field].Integer?
      => nodes[id].properties[field].i;
    assert op == NotEq ==> forall less, same :: CompareOrd(op, less, same) == !same by { NotEqIsUnequal(); }
    ids := RangeQuery(m, op, x, (a: I64, b: I64) => a < b, (k: I64) => k != x,
                      at, Matching(fm, nodes, field, op, Integer(x)), keyOf);
  }

  method QueryFloats(m: Buckets<F64>, fm: FloatModel, op: Op, x: F64, field: string, ghost nodes: Nodes)
    returns (ids: seq<NodeId>)
    requires forall k: F64 :: ListsOnce(Bucket(m, k), WithValue(fm, nodes, field, Float(k)))
    requires fm.OrderLaws()
    ensures ListsOnce(ids, Matching(fm, nodes, field, op, Float(x)))
  {
    hide CompareOrd, TextLess, BoolLess, ListsOnce, FloatModel.OrderLaws;
    var key := fm.key(x);
    ghost var at := (k: F64) => WithValue(fm, nodes, field, Float(k));
    ghost var keyOf := (id: NodeId)
      requires id in nodes && field in nodes[id].properties && nodes[id].properties[field].Float?
      => fm.key(nodes[id].properties[field].f);
    forall k: F64, id: NodeId | id in at(k) ensures Ordered(fm.keyLess, k, key) {
      KeysOrdered(fm, nodes[id].properties[field].f, x);
    }
    ids := RangeQuery(m, op, key, fm.keyLess, (k: F64) => !fm.equal(k, x),
                      at, Matching(fm, nodes, field, op, Float(x)), keyOf);
  }

  lemma KeysOrdered(fm: FloatModel, a: F64, b: F64)
    requires fm.OrderLaws()
    ensures Ordered(fm.keyLess, fm.key(a), fm.key(b))
  {
    assert fm.SameKey(a, b) || fm.Less(a, b) || fm.Less(b, a);
    assert fm.SameKey(a, b) == fm.SameKey(b, a);
  }

  lemma NotEqIsUnequal()
    ensures forall less, same :: CompareOrd(NotEq, less, same) == !same
  {
  }

  method QueryTexts(m: Buckets<string>, fm: FloatModel, op: Op, x: string, field: string, ghost nodes: Nodes)
    returns (ids: seq<NodeId>)
    requires forall k: string :: ListsOnce(Bucket(m, k), WithValue(fm, nodes, field, Text(k)))
    ensures ListsOnce(ids, Matching(fm, nodes, field, op, Text(x)))
  {
    hide CompareOrd, TextLess, BoolLess, ListsOnce;
    ghost var at := (k: string) => WithValue(fm, nodes, field, Text(k));
    ghost var keyOf := (id: NodeId)
      requires id in nodes && field in nodes[id].properties && nodes[id].properties[field].Text?
      => nodes[id].properties[field].s;
    assert op == NotEq ==> forall less, same :: CompareOrd(op, less, same) == !same by { NotEqIsUnequal(); }
    forall k: string ensures Ordered(TextLess, k, x) {
      TextOrder.TextsOrdered(k, x);
    }
    ids := RangeQuery(m, op, x, TextLess, (k: string) => k != x,
                      at, Matching(fm, nodes, field, op, Text(x)), keyOf);
  }

  method QueryBools(m: Buckets<bool>, fm: FloatModel, op: Op, x: bool, field: string, ghost nodes: Nodes)
    returns (ids: seq<NodeId>)
    requires forall k: bool :: ListsOnce(Bucket(m, k), WithValue(fm, nodes, field, Boolean(k)))
    ensures ListsOnce(ids, Matching(fm, nodes, field, op, Boolean(x)))
  {
    hide CompareOrd, TextLess, ListsOnce;
    ghost var at := (k: bool) => WithValue(fm, nodes, field, Boolean(k));
    ghost var keyOf := (id: NodeId)
      requires id in nodes && field in nodes[id].properties && nodes[id].properties[field].Boolean?
      => nodes[id].properties[field].b;
    assert op == NotEq ==> forall less, same :: CompareOrd(op, less, same) == !same by { NotEqIsUnequal(); }
    ids := RangeQuery(m, op, x, BoolLess, (k: bool) => k != x,
                      at, Matching(fm, nodes, field, op, Boolean(x)), keyOf);
  }

  class PropertyIndex {
    const fm: FloatModel
    var fields: Fields

    constructor (fm: FloatModel)
      ensures this.fm == fm && fields == map[]
    {
      this.fm := fm;
      fields := map[];
    }

    method InsertNode(id: NodeId, props: Properties)
      modifies this
      ensures Added(fields, old(fields), fm, id, props)
    {
      var left := props.Keys;
      ghost var done: Properties := map[];
      while left != {}
        invariant left <= props.Keys && done == props - left
        invariant Added(fields, old(fields), fm, id, done)
        decreases |left|
      {
        var f :| f in left;
        ghost var before := fields;
        var fi := if f in fields then fields[f] else EMPTY_FIELD;
        fields := fields[f := fi.Insert(fm, id, props[f])];
        AddField(fields, before, old(fields), fm, id, done, f, props[f]);
        left := left - {f};
        done := done[f := props[f]];
      }
      assert done == props;
    }

    method RemoveNode(id: NodeId, props: Properties)
      modifies this
      ensures Removed(fields, old(fields), fm, id, props)
    {
      var left := props.Keys;
      ghost var done: Properties := map[];
      while left != {}
        invariant left <= props.Keys && done == props - left
        invariant Removed(fields, old(fields), fm, id, done)
        decreases |left|
      {
        var f :| f in left;
        ghost var before := fields;
        if f in fields {
          fields := fields[f := fields[f].Remove(fm, id, props[f])];
        }
        RemoveField(fields, before, old(fields), fm, id, done, f, props[f]);
        left := left - {f};
        done := done[f := props[f]];
      }
      assert done == props;
    }

    /** None when the field has no index; otherwise exactly the matching nodes, each once. */
    method Query(field: string, op: Op, sought: Value, ghost nodes: Nodes) returns (r: Option<seq<NodeId>>)
      requires Exact(fields, fm, nodes) && fm.OrderLaws()
      ensures r.None? <==> field !in fields
      ensures r.Some? ==> ListsOnce(r.value, Matching(fm, nodes, field, op, sought))
    {
      if field !in fields {
        return None;
      }
      var ids := QueryField(fields[field], field, op, sought, nodes);
      r := Some(ids);
    }

    method QueryField(fi: FieldIndex, field: string, op: Op, sought: Value, ghost nodes: Nodes)
      returns (ids: seq<NodeId>)
      requires field in fields && fields[field] == fi && Exact(fields, fm, nodes) && fm.OrderLaws()
      ensures ListsOnce(ids, Matching(fm, nodes, field, op, sought))
    {
      hide WithValue, ListsOnce, Exact, Matching, Bucket, FloatModel.OrderLaws;
      match sought {
        case Integer(x) =>
          forall k: I64 ensures ListsOnce(Bucket(fi.integers, k), WithValue(fm, nodes, field, Integer(k))) {
            BucketExact(fields, fm, nodes, field, Integer(k));
          }
          ids := QueryIntegers(fi.integers, fm, op, x, field, nodes);
        case Float(x) =>
          forall k: F64 ensures ListsOnce(Bucket(fi.floats, k), WithValue(fm, nodes, field, Float(k))) {
            BucketExact(fields, fm, nodes, field, Float(k));
          }
          ids := QueryFloats(fi.floats, fm, op, x, field, nodes);
        case Text(x) =>
          forall k: string ensures ListsOnce(Bucket(fi.texts, k), WithValue(fm, nodes, field, Text(k))) {
            BucketExact(fields, fm, nodes, field, Text(k));
          }
          ids := QueryTexts(fi.texts, fm, op, x, field, nodes);
        case Boolean(x) =>
          forall k: bool ensures ListsOnce(Bucket(fi.bools, k), WithValue(fm, nodes, field, Boolean(k))) {
            BucketExact(fields, fm, nodes, field, Boolean(k));
          }
          ids := QueryBools(fi.bools, fm, op, x, field, nodes);
        case Null =>
          BucketExact(fields, fm, nodes, field, Null);
          NullsMatch(fm, nodes, field, op);
          ids := if op == Eq then fi.nulls else [];
      }
    }
  }

  lemma BucketExact(fields: Fields, fm: FloatModel, nodes: Nodes, field: string, k: Value)
    requires Exact(fields, fm, nodes) && field in fields
    ensures ListsOnce(fields[field].At(k), WithValue(fm, nodes, field, k))
  {
    assert FieldAt(fields, field, k) == fields[field].At(k);
  }

  lemma NullsMatch(fm: FloatModel, nodes: Nodes, field: string, op: Op)
    ensures Matching(fm, nodes, field, op, Null) == if op == Eq then WithValue(fm, nodes, field, Null) else {}
    ensures ListsOnce([], {})
  {
  }
}
