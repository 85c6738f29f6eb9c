/** The imperative side of src/adapters/storage/binary_file.rs: the growing buffer, the moving
    cursor, the replay loop and the storage adapter, each proved against Codec and BinaryFile. */
module BinaryStorage {
  import opened Core
  import opened WalLog
  import opened Codec
  import opened BinaryFile
  import Adler32
  import Utf8

  /** The `Vec<u8>` a record is written into. */
  class ByteBuffer {
    var bytes: seq<U8>

    constructor ()
      ensures bytes == []
    {
      bytes := [];
    }

    method Extend(bs: seq<U8>)
      modifies this
      ensures bytes == old(bytes) + bs
    {
      bytes := bytes + bs;
    }

    method PutStr(s: string)
      modifies this
      ensures bytes == old(bytes) + WriteStr(s)
    {
      var bs := Utf8.Encode(s);
      Extend(WriteU32(|bs|));
      Extend(bs);
    }

    method PutValue(v: Value)
      modifies this
      ensures bytes == old(bytes) + WriteValue(v)
    {
      hide WriteI64, WriteU64, WriteStr;
      match v {
        case Null => Extend([0x00]);
        case Boolean(b) =>
          Extend([0x01]);
          Extend([if b then 1 else 0]);
        case Integer(i) =>
          Extend([0x02]);
          Extend(WriteI64(i));
        case Float(f) =>
          Extend([0x03]);
          Extend(WriteU64(f));
        case Text(s) =>
          Extend([0x04]);
          PutStr(s);
      }
    }

    /** The loop over the hash map, in whatever order it comes. */
    method PutProperties(props: Properties) returns (ghost es: Entries)
      modifies this
      ensures Enumerates(es, props)
      ensures bytes == old(bytes) + WriteProperties(es)
    {
      hide WriteStr, WriteValue, WriteU32;
      es := [];
      Extend(WriteU32(|props|));
      ghost var start := bytes;
      var left := props.Keys;
      while left != {}
        invariant left <= props.Keys
        invariant forall e :: e in es ==> e.0 in props && e.0 !in left && props[e.0] == e.1
        invariant forall k :: k in props && k !in left ==> (k, props[k]) in es
        invariant NoDup(es)
        invariant bytes == start + WriteEntries(es)
        decreases |left|
      {
        var k :| k in left;
        PutStr(k);
        PutValue(props[k]);
        EntriesSnoc(es, (k, props[k]));
        es := es + [(k, props[k])];
        left := left - {k};
      }
      EnumeratesCount(es, props);
    }
  }

  lemma {:induction false} EntriesSnoc(es: Entries, e: (string, Value))
    ensures WriteEntries(es + [e]) == WriteEntries(es) + WriteStr(e.0) + WriteValue(e.1)
    decreases |es|
  {
    hide WriteStr, WriteValue;
    if es == [] {
      assert es + [e] == [e] && [e][1..] == [];
      assert WriteEntries([e]) == WriteStr(e.0) + (WriteValue(e.1) + WriteEntries([]));
    } else {
      var first := WriteStr(es[0].0) + WriteValue(es[0].1);
      assert (es + [e])[1..] == es[1..] + [e];
      EntriesSnoc(es[1..], e);
      assert WriteEntries(es) == first + WriteEntries(es[1..]);
      assert WriteEntries(es + [e]) == first + WriteEntries(es[1..] + [e]);
    }
  }

  method Finish(buf: ByteBuffer) returns (bytes: seq<U8>)
    modifies buf
    ensures bytes == WithChecksum(old(buf.bytes))
  {
    var sum := Adler32.Compute(buf.bytes);
    buf.Extend(WriteU32(sum));
    bytes := buf.bytes;
  }

  /** The bytes are an image of the record, with some order of its properties. */
  ghost predicate IsImage(bytes: seq<U8>, r: Record) {
    exists im: Image :: im.rec == r && im.Valid() && bytes == im.Bytes()
  }

  method EncodeNode(n: Node) returns (bytes: seq<U8>, ghost im: Image)
    ensures IsImage(bytes, UpsertNode(n)) && im.rec == UpsertNode(n) && im.Valid() && bytes == im.Bytes()
  {
    hide WriteU64, WriteStr, WriteProperties, WithChecksum;
    var buf := new ByteBuffer();
    buf.Extend([0x01]);
    buf.Extend(WriteU64(n.id));
    buf.PutStr(n.lbl);
    ghost var es := buf.PutProperties(n.properties);
    im := Image(UpsertNode(n), es);
    assert buf.bytes == Body(im.rec, es);
    bytes := Finish(buf);
  }

  method EncodeEdge(e: Edge) returns (bytes: seq<U8>, ghost im: Image)
    ensures IsImage(bytes, UpsertEdge(e)) && im.rec == UpsertEdge(e) && im.Valid() && bytes == im.Bytes()
  {
    hide WriteU64, WriteStr, WriteProperties, WithChecksum;
    var buf := new ByteBuffer();
    buf.Extend([0x02]);
    buf.Extend(WriteU64(e.id));
    buf.Extend(WriteU64(e.source));
    buf.Extend(WriteU64(e.target));
    buf.PutStr(e.lbl);
    buf.Extend(WriteU64(e.weight));
    ghost var es := buf.PutProperties(e.properties);
    im := Image(UpsertEdge(e), es);
    assert buf.bytes == Body(im.rec, es);
    bytes := Finish(buf);
  }

  /** Deletes and transaction markers: a type byte and an id. */
  method EncodeId(r: Record) returns (bytes: seq<U8>, ghost im: Image)
    requires !r.UpsertNode? && !r.UpsertEdge?
    ensures IsImage(bytes, r) && im.rec == r && im.Valid() && bytes == im.Bytes()
  {
    hide WriteU64, WithChecksum;
    var buf := new ByteBuffer();
    match r {
      case DeleteNode(id) => buf.Extend([0x03]); buf.Extend(WriteU64(id));
      case DeleteEdge(id) => buf.Extend([0x04]); buf.Extend(WriteU64(id));
      case BeginTxn(t) => buf.Extend([0x05]); buf.Extend(WriteU64(t));
      case CommitTxn(t) => buf.Extend([0x06]); buf.Extend(WriteU64(t));
      case RollbackTxn(t) => buf.Extend([0x07]); buf.Extend(WriteU64(t));
    }
    im := Image(r, []);
    assert buf.bytes == Body(r, []);
    bytes := Finish(buf);
  }

  /** `data: &[u8]` and `pos: &mut usize`. */
  class Cursor {
    const data: seq<U8>
    var pos: nat

    constructor (data: seq<U8>, pos: nat)
      ensures this.data == data && this.pos == pos
    {
      this.data := data;
      this.pos := pos;
    }

    method TakeU32() returns (v: Option<U32>)
      requires pos <= |data|
      modifies this
      ensures Read(v, pos) == ReadU32(data, old(pos))
    {
      var r := ReadU32(data, pos);
      v, pos := r.value, r.pos;
    }

    method TakeU64() returns (v: Option<U64>)
      requires pos <= |data|
      modifies this
      ensures Read(v, pos) == ReadU64(data, old(pos))
    {
      var r := ReadU64(data, pos);
      v, pos := r.value, r.pos;
    }

    method TakeStr() returns (v: Option<string>)
      requires pos <= |data|
      modifies this
      ensures Read(v, pos) == ReadStr(data, old(pos))
    {
      var n := TakeU32();
      if n.None? {
        return None;
      }
      var r := ReadBytes(data, pos, n.value);
      pos := r.pos;
      v := if r.value.None? then None else Utf8.Decode(r.value.value);
    }

    method TakeValue() returns (v: Option<Value>)
      requires pos <= |data|
      modifies this
      ensures Read(v, pos) == ReadValue(data, old(pos))
    {
      var r := ReadValue(data, pos);
      v, pos := r.value, r.pos;
    }

    /** The loop that fills the hash map. */
    method TakeProperties() returns (v: Option<Properties>)
      requires pos <= |data|
      modifies this
      ensures Read(v, pos) == ReadProperties(data, old(pos))
    {
      hide ReadStr, ReadValue, ReadU32;
      var count := TakeU32();
      if count.None? {
        return None;
      }
      var props: Properties := map[];
      for i := 0 to count.value
        invariant pos <= |data|
        invariant ReadProperties(data, old(pos)) == ReadEntries(data, pos, count.value - i, props)
      {
        var key := TakeStr();
        if key.None? {
          return None;
        }
        var value := TakeValue();
        if value.None? {
          return None;
        }
        props := props[key.value := value.value];
      }
      return Some(props);
    }

    method TakeNode() returns (v: Option<Record>)
      requires pos <= |data|
      modifies this
      ensures Read(v, pos) == DecodeNode(data, old(pos))
    {
      hide ReadU64, ReadStr, ReadProperties;
      var id := TakeU64();
      if id.None? { return None; }
      var l := TakeStr();
      if l.None? { return None; }
      var props := TakeProperties();
      if props.None? { return None; }
      v := Some(UpsertNode(Node(id.value, l.value, props.value)));
    }

    method TakeEdge() returns (v: Option<Record>)
      requires pos <= |data|
      modifies this
      ensures Read(v, pos) == DecodeEdge(data, old(pos))
    {
      hide ReadU64, ReadStr, ReadProperties;
      var id := TakeU64();
      if id.None? { return None; }
      var source := TakeU64();
      if source.None? { return None; }
      var target := TakeU64();
      if target.None? { return None; }
      var l := TakeStr();
      if l.None? { return None; }
      var weight := TakeU64();
      if weight.None? { return None; }
      var props := TakeProperties();
      if props.None? { return None; }
      v := Some(UpsertEdge(Edge(id.value, source.value, target.value, l.value, weight.value, props.value)));
    }

    method TakeRecord(kind: U8) returns (v: Option<Record>)
      requires pos <= |data|
      modifies this
      ensures Read(v, pos) == DecodeRecord(kind, data, old(pos))
    {
      hide ReadU64, DecodeNode, DecodeEdge;
      if kind == 0x01 {
        v := TakeNode();
      } else if kind == 0x02 {
        v := TakeEdge();
      } else if 0x03 <= kind <= 0x07 {
        var id := TakeU64();
        if id.None? { return None; }
        v := Some(if kind == 0x03 then DeleteNode(id.value) else if kind == 0x04 then DeleteEdge(id.value)
                  else if kind == 0x05 then BeginTxn(id.value) else if kind == 0x06 then CommitTxn(id.value)
                  else RollbackTxn(id.value));
      } else {
        v := None;
      }
    }
  }

  // ---- Replay ----

  method InsertEach<V>(m: map<U64, V>, ps: seq<(U64, V)>) returns (m': map<U64, V>)
    ensures m' == PutAll(m, ps)
  {
    m' := m;
    for i := 0 to |ps|
      invariant m' == PutAll(m, ps[..i])
    {
      assert ps[..i + 1][..i] == ps[..i];
      m' := m'[ps[i].0 := ps[i].1];
    }
    assert ps[..|ps|] == ps;
  }

  method RemoveEach<V>(m: map<U64, V>, ids: seq<U64>) returns (m': map<U64, V>)
    ensures m' == RemoveAll(m, ids)
  {
    m' := m;
    for i := 0 to |ids|
      invariant m' == RemoveAll(m, ids[..i])
    {
      m' := m' - {ids[i]};
      assert SetOf(ids[..i + 1]) == SetOf(ids[..i]) + {ids[i]};
    }
    assert ids[..|ids|] == ids;
  }

  /** The replay loop: `nodes`, `edges` and `buffer` are the state the fold carries. */
  method ReplayLoop(data: seq<U8>) returns (r: Result<Graph, FileError>)
    ensures r == ReplayFile(data)
  {
    if |data| < 8 {
      return Ok(EMPTY_GRAPH);
    }
    if data[..4] != MAGIC {
      return Err(InvalidMagic);
    }
    if FromLittleEndian(data[4..8]) != VERSION {
      return Err(UnsupportedVersion);
    }
    r := ReplayRecords(data);
  }

  method ReplayRecords(data: seq<U8>) returns (r: Result<Graph, FileError>)
    requires |data| >= 8
    ensures r == Ok(ReplayFrom(data, 8, INITIAL).graph)
  {
    hide DecodeRecord, ReadU32, Adler32.Checksum, ApplyGrouped, Step;
    var nodes: map<NodeId, Node>, edges: map<EdgeId, Edge> := map[], map[];
    var buffer: Option<Buffer> := None;
    var cur := new Cursor(data, 8);
    while cur.pos < |data|
      invariant cur.data == data && cur.pos <= |data|
      invariant ReplayFrom(data, 8, INITIAL) == ReplayFrom(data, cur.pos, LogState(Graph(nodes, edges), buffer))
      decreases |data| - cur.pos
    {
      var start := cur.pos;
      var kind := data[start];
      cur.pos := start + 1;
      var decoded := cur.TakeRecord(kind);
      var stored := cur.TakeU32();
      if stored.None? {
        break;
      }
      var computed := Adler32.Compute(data[start..cur.pos - 4]);
      if computed != stored.value {
        continue;
      }
      if decoded.None? {
        break;
      }
      nodes, edges, buffer := ApplyOrBuffer(decoded.value, nodes, edges, buffer);
    }
    r := Ok(Graph(nodes, edges));
  }

  method ApplyOrBuffer(r: Record, nodes: map<NodeId, Node>, edges: map<EdgeId, Edge>, buffer: Option<Buffer>)
    returns (nodes': map<NodeId, Node>, edges': map<EdgeId, Edge>, buffer': Option<Buffer>)
    ensures LogState(Graph(nodes', edges'), buffer') == Step(LogState(Graph(nodes, edges), buffer), r)
  {
    nodes', edges', buffer' := nodes, edges, buffer;
    match r {
      case BeginTxn(t) => buffer' := Some(EmptyBuffer(t));
      case CommitTxn(t) =>
        if buffer.Some? {
          buffer' := None;
          var b := buffer.value;
          if b.txn == t {
            nodes' := InsertEach(nodes', b.nodeUpserts);
            edges' := InsertEach(edges', b.edgeUpserts);
            nodes' := RemoveEach(nodes', b.nodeDeletes);
            edges' := RemoveEach(edges', b.edgeDeletes);
          }
        }
      case RollbackTxn(_) => buffer' := None;
      case UpsertNode(n) =>
        if buffer.None? { nodes' := nodes[n.id := n]; } else { buffer' := Some(Push(buffer.value, r)); }
      case UpsertEdge(e) =>
        if buffer.None? { edges' := edges[e.id := e]; } else { buffer' := Some(Push(buffer.value, r)); }
      case DeleteNode(id) =>
        if buffer.None? { nodes' := nodes - {id}; } else { buffer' := Some(Push(buffer.value, r)); }
      case DeleteEdge(id) =>
        if buffer.None? { edges' := edges - {id}; } else { buffer' := Some(Push(buffer.value, r)); }
    }
  }

  // ---- The adapter ----

  /** A log file and the records it holds. */
  class BinaryFileStorage {
    var file: seq<U8>
    ghost var images: seq<Image>

    ghost predicate Valid()
      reads this
    {
      Writable(images) && file == Header() + ImageBytes(images)
    }

    /** The records in the file, in order. */
    ghost function Log(): seq<Record>
      reads this
    {
      Records(images)
    }

    constructor Create()
      ensures Valid() && Log() == []
    {
      file := Header();
      images := [];
    }

    method Append(bytes: seq<U8>, ghost im: Image)
      requires Valid() && im.Valid() && Fits(im.rec) && bytes == im.Bytes()
      modifies this
      ensures Valid() && Log() == old(Log()) + [im.rec]
    {
      hide Fits, Image.Valid, Image.Bytes, Header;
      ImageBytesSnoc(images, im);
      file := file + bytes;
      images := images + [im];
    }

    /** Every writer call appends its one record. */
    method Save(r: Record)
      requires Valid() && Fits(r)
      modifies this
      ensures Valid() && Log() == old(Log()) + [r]
    {
      hide Fits, Image.Valid, Image.Bytes, Header;
      var bytes;
      ghost var im;
      match r {
        case UpsertNode(n) => bytes, im := EncodeNode(n);
        case UpsertEdge(e) => bytes, im := EncodeEdge(e);
        case _ => bytes, im := EncodeId(r);
      }
      Append(bytes, im);
    }

    /** Loading sees exactly the record-level replay. */
    method Load() returns (g: Graph)
      requires Valid()
      ensures g == Loaded(Log())
    {
      hide ReplayFile, Header;
      FileReplay(images);
      var r := ReplayLoop(file);
      g := r.value;
    }

    method LoadNode(id: NodeId) returns (n: Option<Node>)
      requires Valid()
      ensures n == Lookup(Loaded(Log()).nodes, id)
    {
      var g := Load();
      n := Lookup(g.nodes, id);
    }

    /** Rewrite the file with one upsert per live record, then replace it. */
    method Compact()
      requires Valid()
      modifies this
      ensures Valid() && IsCompaction(Log(), old(Log()))
    {
      hide Fits, Header, Loaded, Image.Valid, Image.Bytes, WalLog.Replay;
      var g := Load();
      ghost var log := Log();
      LiveFits(images);
      var tmp := new BinaryFileStorage.Create();
      ghost var ns := tmp.SaveNodes(g.nodes);
      ghost var es := tmp.SaveEdges(g.edges);
      assert [] + NodeRecords(ns) == NodeRecords(ns);
      file := tmp.file;
      images := tmp.images;
      assert IsCompaction(Log(), log);
    }

    method SaveNodes(nodes: map<NodeId, Node>) returns (ghost ns: seq<(NodeId, Node)>)
      requires Valid() && forall n :: n in nodes ==> Fits(UpsertNode(nodes[n]))
      modifies this
      ensures Valid() && Enumerates(ns, nodes) && Log() == old(Log()) + NodeRecords(ns)
    {
      hide Fits, Header, ImageBytes, Writable, Enumerates;
      ns := [];
      var left := nodes.Keys;
      EnumeratesNone(nodes);
      while left != {}
        invariant Valid() && left <= nodes.Keys
        invariant Log() == old(Log()) + NodeRecords(ns)
        invariant Enumerates(ns, nodes - left)
        decreases |left|
      {
        var k :| k in left;
        EnumeratesSnoc(ns, nodes, left, k);
        Save(UpsertNode(nodes[k]));
        assert NodeRecords(ns + [(k, nodes[k])]) == NodeRecords(ns) + [UpsertNode(nodes[k])];
        ns := ns + [(k, nodes[k])];
        left := left - {k};
      }
      assert nodes - {} == nodes;
    }

    method SaveEdges(edges: map<EdgeId, Edge>) returns (ghost es: seq<(EdgeId, Edge)>)
      requires Valid() && forall e :: e in edges ==> Fits(UpsertEdge(edges[e]))
      modifies this
      ensures Valid() && Enumerates(es, edges) && Log() == old(Log()) + EdgeRecords(es)
    {
      hide Fits, Header, ImageBytes, Writable, Enumerates;
      es := [];
      var left := edges.Keys;
      EnumeratesNone(edges);
      while left != {}
        invariant Valid() && left <= edges.Keys
        invariant Log() == old(Log()) + EdgeRecords(es)
        invariant Enumerates(es, edges - left)
        decreases |left|
      {
        var k :| k in left;
        EnumeratesSnoc(es, edges, left, k);
        Save(UpsertEdge(edges[k]));
        assert EdgeRecords(es + [(k, edges[k])]) == EdgeRecords(es) + [UpsertEdge(edges[k])];
        es := es + [(k, edges[k])];
        left := left - {k};
      }
      assert edges - {} == edges;
    }
  }

  lemma {:induction false} ImageBytesSnoc(images: seq<Image>, im: Image)
    ensures ImageBytes(images + [im]) == ImageBytes(images) + im.Bytes()
    decreases |images|
  {
    hide Image.Bytes;
    if images == [] {
      assert ([] + [im])[1..] == [];
    } else {
      assert (images + [im])[1..] == images[1..] + [im];
      ImageBytesSnoc(images[1..], im);
    }
  }

  lemma LiveFits(images: seq<Image>)
    requires Writable(images)
    ensures forall n :: n in Loaded(Records(images)).nodes ==> Fits(UpsertNode(Loaded(Records(images)).nodes[n]))
    ensures forall e :: e in Loaded(Records(images)).edges ==> Fits(UpsertEdge(Loaded(Records(images)).edges[e]))
  {
    hide Fits;
    var log := Records(images);
    LiveFromLog(log);
    forall r | r in log ensures Fits(r) {
      var i :| 0 <= i < |log| && log[i] == r;
      assert images[i].rec == r;
    }
  }
}
