/** The binary codec of src/adapters/storage/binary_file.rs, as functions on byte sequences. */
module Codec {
  import opened Core
  import opened WalLog
  import Utf8
  import Adler32

  // ---- Little-endian integers ----

  function Pow256(k: nat): (p: nat)
    ensures p > 0
  {
    if k == 0 then 1 else 256 * Pow256(k - 1)
  }

  function LittleEndian(n: nat, k: nat): (bs: seq<U8>)
    ensures |bs| == k
    decreases k
  {
    if k == 0 then [] else [n % 256] + LittleEndian(n / 256, k - 1)
  }

  function FromLittleEndian(bs: seq<U8>): (n: nat)
    ensures n < Pow256(|bs|)
  {
    if bs == [] then 0 else bs[0] + 256 * FromLittleEndian(bs[1..])
  }

  lemma {:induction false} LittleEndianRoundTrip(n: nat, k: nat)
    requires n < Pow256(k)
    ensures FromLittleEndian(LittleEndian(n, k)) == n
    decreases k
  {
    if k > 0 {
      assert LittleEndian(n, k)[1..] == LittleEndian(n / 256, k - 1);
      LittleEndianRoundTrip(n / 256, k - 1);
    }
  }

  /** Four bytes, the least significant one first. */
  lemma FourBytes(bs: seq<U8>)
    requires |bs| == 4
    ensures FromLittleEndian(bs)
         == bs[0] as int + 0x100 * bs[1] as int + 0x1_0000 * bs[2] as int + 0x100_0000 * bs[3] as int
  {
    assert FromLittleEndian(bs[1..][1..][1..]) == bs[1..][1..][1..][0] + 256 * FromLittleEndian(bs[1..][1..][1..][1..]);
    assert FromLittleEndian(bs[1..][1..]) == bs[1..][1..][0] + 256 * FromLittleEndian(bs[1..][1..][1..]);
  }

  lemma Widths()
    ensures Pow256(4) == 0x1_0000_0000
    ensures Pow256(8) == 0x1_0000_0000_0000_0000
  {
    assert Pow256(1) == 256 && Pow256(2) == 0x1_0000;
    assert Pow256(3) == 0x100_0000 && Pow256(4) == 0x1_0000_0000;
    assert Pow256(5) == 0x100_0000_0000 && Pow256(6) == 0x1_0000_0000_0000;
    assert Pow256(7) == 0x100_0000_0000_0000;
  }

  // ---- Writing ----

  function WriteU32(n: nat): (bs: seq<U8>)
    ensures |bs| == 4
  {
    LittleEndian(n % 0x1_0000_0000, 4)
  }

  function WriteU64(n: U64): (bs: seq<U8>)
    ensures |bs| == 8
  {
    LittleEndian(n, 8)
  }

  /** Two's complement. */
  function WriteI64(i: I64): (bs: seq<U8>)
    ensures |bs| == 8
  {
    LittleEndian(if i < 0 then i + 0x1_0000_0000_0000_0000 else i, 8)
  }

  /** Length prefix and UTF-8 bytes; the length is cast to 32 bits. */
  function WriteStr(s: string): seq<U8> {
    WriteU32(|Utf8.Encode(s)|) + Utf8.Encode(s)
  }

  function WriteValue(v: Value): seq<U8> {
    match v
    case Null => [0x00]
    case Boolean(b) => [0x01, if b then 1 else 0]
    case Integer(i) => [0x02] + WriteI64(i)
    case Float(f) => [0x03] + WriteU64(f)
    case Text(s) => [0x04] + WriteStr(s)
  }

  /** A property map in the order its hash map happens to yield it. */
  type Entries = seq<(string, Value)>

  function WriteEntries(es: Entries): seq<U8> {
    if es == [] then [] else WriteStr(es[0].0) + (WriteValue(es[0].1) + WriteEntries(es[1..]))
  }

  function WriteProperties(es: Entries): seq<U8> {
    WriteU32(|es|) + WriteEntries(es)
  }

  function WithChecksum(body: seq<U8>): seq<U8> {
    body + WriteU32(Adler32.Checksum(body))
  }

  function PropertiesOf(r: Record): Properties {
    match r
    case UpsertNode(n) => n.properties
    case UpsertEdge(e) => e.properties
    case _ => map[]
  }

  /** The record type byte and the payload. */
  function Body(r: Record, es: Entries): (bs: seq<U8>)
    ensures |bs| > 0
  {
    match r
    case UpsertNode(n) => NodeBody(n, es)
    case UpsertEdge(e) => EdgeBody(e, es)
    case DeleteNode(id) => [0x03] + WriteU64(id)
    case DeleteEdge(id) => [0x04] + WriteU64(id)
    case BeginTxn(t) => [0x05] + WriteU64(t)
    case CommitTxn(t) => [0x06] + WriteU64(t)
    case RollbackTxn(t) => [0x07] + WriteU64(t)
  }

  function NodeBody(n: Node, es: Entries): (bs: seq<U8>)
    ensures |bs| > 0 && bs[0] == 0x01
  {
    [0x01] + WriteU64(n.id) + WriteStr(n.lbl) + WriteProperties(es)
  }

  function EdgeBody(e: Edge, es: Entries): (bs: seq<U8>)
    ensures |bs| > 0 && bs[0] == 0x02
  {
    [0x02] + WriteU64(e.id) + WriteU64(e.source) + WriteU64(e.target) + WriteStr(e.lbl) + WriteU64(e.weight)
      + WriteProperties(es)
  }

  /** One way to write a record: the record and an enumeration of its properties. */
  datatype Image = Image(rec: Record, entries: Entries) {
    ghost predicate Valid() {
      Enumerates(entries, PropertiesOf(rec))
    }

    function Bytes(): seq<U8> {
      WithChecksum(Body(rec, entries))
    }
  }

  predicate Short(s: string) {
    |Utf8.Encode(s)| < 0x1_0000_0000
  }

  predicate ValueFits(v: Value) {
    v.Text? ==> Short(v.s)
  }

  /** The 32-bit length fields of the format suffice for this record. */
  ghost predicate Fits(r: Record) {
    && |PropertiesOf(r)| < 0x1_0000_0000
    && (r.UpsertNode? ==> Short(r.node.lbl))
    && (r.UpsertEdge? ==> Short(r.edge.lbl))
    && forall k :: k in PropertiesOf(r) ==> Short(k) && ValueFits(PropertiesOf(r)[k])
  }

  ghost predicate EntriesFit(es: Entries) {
    |es| < 0x1_0000_0000 && forall i :: 0 <= i < |es| ==> Short(es[i].0) && ValueFits(es[i].1)
  }

  lemma FitsEntries(r: Record, es: Entries)
    requires Fits(r) && Enumerates(es, PropertiesOf(r))
    ensures EntriesFit(es)
  {
    EnumeratesCount(es, PropertiesOf(r));
    forall i | 0 <= i < |es| ensures Short(es[i].0) && ValueFits(es[i].1) {
      assert es[i] in es;
    }
  }

  // ---- Reading ----

  /** The outcome of a read and where it left the cursor. A failing read also moves it. */
  datatype Read<+T> = Read(value: Option<T>, pos: nat)

  function ReadU8(data: seq<U8>, pos: nat): (r: Read<U8>)
    requires pos <= |data|
    ensures pos <= r.pos <= |data|
  {
    if pos >= |data| then Read(None, pos) else Read(Some(data[pos]), pos + 1)
  }

  function ReadBytes(data: seq<U8>, pos: nat, n: nat): (r: Read<seq<U8>>)
    requires pos <= |data|
    ensures pos <= r.pos <= |data|
    ensures r.value.Some? ==> |r.value.value| == n && r.pos == pos + n
  {
    if pos + n > |data| then Read(None, pos) else Read(Some(data[pos..pos + n]), pos + n)
  }

  function ReadU32(data: seq<U8>, pos: nat): (r: Read<U32>)
    requires pos <= |data|
    ensures pos <= r.pos <= |data|
    ensures r.value.Some? ==> r.pos == pos + 4
  {
    Widths();
    match ReadBytes(data, pos, 4)
    case Read(None, p) => Read(None, p)
    case Read(Some(bs), p) => Read(Some(FromLittleEndian(bs)), p)
  }

  function ReadU64(data: seq<U8>, pos: nat): (r: Read<U64>)
    requires pos <= |data|
    ensures pos <= r.pos <= |data|
  {
    Widths();
    match ReadBytes(data, pos, 8)
    case Read(None, p) => Read(None, p)
    case Read(Some(bs), p) => Read(Some(FromLittleEndian(bs)), p)
  }

  function ReadI64(data: seq<U8>, pos: nat): (r: Read<I64>)
    requires pos <= |data|
    ensures pos <= r.pos <= |data|
  {
    match ReadU64(data, pos)
    case Read(None, p) => Read(None, p)
    case Read(Some(n), p) => Read(Some(Signed(n)), p)
  }

  function Signed(n: U64): I64 {
    var i: int := n;
    if i < 0x8000_0000_0000_0000 then i else i - 0x1_0000_0000_0000_0000
  }

  function ReadStr(data: seq<U8>, pos: nat): (r: Read<string>)
    requires pos <= |data|
    ensures pos <= r.pos <= |data|
  {
    match ReadU32(data, pos)
    case Read(None, p) => Read(None, p)
    case Read(Some(n), p) =>
      match ReadBytes(data, p, n)
      case Read(None, q) => Read(None, q)
      case Read(Some(bs), q) => Read(Utf8.Decode(bs), q)
  }

  function ReadValue(data: seq<U8>, pos: nat): (r: Read<Value>)
    requires pos <= |data|
    ensures pos <= r.pos <= |data|
  {
    match ReadU8(data, pos)
    case Read(None, p) => Read(None, p)
    case Read(Some(tag), p) =>
      if tag == 0x00 then Read(Some(Null), p)
      else if tag == 0x01 then
        (match ReadU8(data, p)
         case Read(None, q) => Read(None, q)
         case Read(Some(b), q) => Read(Some(Boolean(b != 0)), q))
      else if tag == 0x02 then
        (match ReadI64(data, p)
         case Read(None, q) => Read(None, q)
         case Read(Some(i), q) => Read(Some(Integer(i)), q))
      else if tag == 0x03 then
        (match ReadU64(data, p)
         case Read(None, q) => Read(None, q)
         case Read(Some(f), q) => Read(Some(Float(f)), q))
      else if tag == 0x04 then
        (match ReadStr(data, p)
         case Read(None, q) => Read(None, q)
         case Read(Some(s), q) => Read(Some(Text(s)), q))
      else Read(None, p)
  }

  /** `count` more key/value pairs, each inserted into the map read so far. */
  function ReadEntries(data: seq<U8>, pos: nat, count: nat, sofar: Properties): (r: Read<Properties>)
    requires pos <= |data|
    ensures pos <= r.pos <= |data|
    decreases count
  {
    if count == 0 then Read(Some(sofar), pos)
    else match ReadStr(data, pos)
      case Read(None, p) => Read(None, p)
      case Read(Some(k), p) =>
        match ReadValue(data, p)
        case Read(None, q) => Read(None, q)
        case Read(Some(v), q) => ReadEntries(data, q, count - 1, sofar[k := v])
  }

  function ReadProperties(data: seq<U8>, pos: nat): (r: Read<Properties>)
    requires pos <= |data|
    ensures pos <= r.pos <= |data|
  {
    match ReadU32(data, pos)
    case Read(None, p) => Read(None, p)
    case Read(Some(n), p) => ReadEntries(data, p, n, map[])
  }

  function DecodeNode(data: seq<U8>, pos: nat): (r: Read<Record>)
    requires pos <= |data|
    ensures pos <= r.pos <= |data|
  {
    match ReadU64(data, pos)
    case Read(None, p) => Read(None, p)
    case Read(Some(id), p) =>
      match ReadStr(data, p)
      case Read(None, q) => Read(None, q)
      case Read(Some(l), q) =>
        match ReadProperties(data, q)
        case Read(None, end) => Read(None, end)
        case Read(Some(props), end) => Read(Some(UpsertNode(Node(id, l, props))), end)
  }

  function DecodeEdge(data: seq<U8>, pos: nat): (r: Read<Record>)
    requires pos <= |data|
    ensures pos <= r.pos <= |data|
  {
    match ReadU64(data, pos)
    case Read(None, p) => Read(None, p)
    case Read(Some(id), p) =>
      match ReadU64(data, p)
      case Read(None, q) => Read(None, q)
      case Read(Some(src), q) =>
        match ReadU64(data, q)
        case Read(None, s) => Read(None, s)
        case Read(Some(tgt), s) =>
          match ReadStr(data, s)
          case Read(None, t) => Read(None, t)
          case Read(Some(l), t) =>
            match ReadU64(data, t)
            case Read(None, u) => Read(None, u)
            case Read(Some(w), u) =>
              match ReadProperties(data, u)
              case Read(None, end) => Read(None, end)
              case Read(Some(props), end) =>
                Read(Some(UpsertEdge(Edge(id, src, tgt, l, w, props))), end)
  }

  function DecodeRecord(kind: U8, data: seq<U8>, pos: nat): (r: Read<Record>)
    requires pos <= |data|
    ensures pos <= r.pos <= |data|
  {
    if kind == 0x01 then DecodeNode(data, pos)
    else if kind == 0x02 then DecodeEdge(data, pos)
    else if 0x03 <= kind <= 0x07 then
      (match ReadU64(data, pos)
       case Read(None, p) => Read(None, p)
       case Read(Some(id), p) =>
         Read(Some(if kind == 0x03 then DeleteNode(id) else if kind == 0x04 then DeleteEdge(id)
                   else if kind == 0x05 then BeginTxn(id) else if kind == 0x06 then CommitTxn(id)
                   else RollbackTxn(id)), p))
    else Read(None, pos)
  }

  // ---- Reading undoes writing ----

  /** The bytes `bs` stand in `data` at `pos`. */
  predicate At(data: seq<U8>, pos: nat, bs: seq<U8>) {
    pos + |bs| <= |data| && data[pos..pos + |bs|] == bs
  }

  lemma AtSplit(data: seq<U8>, pos: nat, a: seq<U8>, b: seq<U8>)
    requires At(data, pos, a + b)
    ensures At(data, pos, a) && At(data, pos + |a|, b)
  {
    assert data[pos..pos + |a|] == data[pos..pos + |a + b|][..|a|];
    assert data[pos + |a|..pos + |a| + |b|] == data[pos..pos + |a + b|][|a|..];
  }

  lemma U32RoundTrip(data: seq<U8>, pos: nat, n: U32)
    requires At(data, pos, WriteU32(n))
    ensures ReadU32(data, pos) == Read(Some(n), pos + 4)
  {
    Widths();
    LittleEndianRoundTrip(n, 4);
  }

  lemma U64RoundTrip(data: seq<U8>, pos: nat, n: U64)
    requires At(data, pos, WriteU64(n))
    ensures ReadU64(data, pos) == Read(Some(n), pos + 8)
  {
    Widths();
    LittleEndianRoundTrip(n, 8);
  }

  lemma I64RoundTrip(data: seq<U8>, pos: nat, i: I64)
    requires At(data, pos, WriteI64(i))
    ensures ReadI64(data, pos) == Read(Some(i), pos + 8)
  {
    var n: U64 := if i < 0 then i + 0x1_0000_0000_0000_0000 else i;
    U64RoundTrip(data, pos, n);
  }

  /** A written string reads back whole exactly when its UTF-8 form is shorter than 2^32 bytes:
      the length prefix is cut to 32 bits. */
  lemma StrRoundTrip(data: seq<U8>, pos: nat, s: string)
    requires At(data, pos, WriteStr(s))
    ensures ReadStr(data, pos) == Read(Some(s), pos + |WriteStr(s)|) <==> Short(s)
  {
    hide Utf8.Encode, Utf8.Decode, LittleEndian, ReadU32;
    var bs := Utf8.Encode(s);
    var n: U32 := |bs| % 0x1_0000_0000;
    AtSplit(data, pos, WriteU32(|bs|), bs);
    assert WriteU32(|bs|) == WriteU32(n);
    U32RoundTrip(data, pos, n);
    assert ReadStr(data, pos).pos == pos + 4 + n;
    Utf8.RoundTrip(s);
  }

  lemma ValueRoundTrip(data: seq<U8>, pos: nat, v: Value)
    requires At(data, pos, WriteValue(v))
    requires v.Text? ==> Short(v.s)
    ensures ReadValue(data, pos) == Read(Some(v), pos + |WriteValue(v)|)
  {
    hide ReadI64, ReadU64, ReadStr, WriteI64, WriteU64, WriteStr;
    var tag := WriteValue(v)[..1];
    var rest := WriteValue(v)[1..];
    assert WriteValue(v) == tag + rest;
    AtSplit(data, pos, tag, rest);
    assert data[pos] == data[pos..pos + 1][0] == tag[0];
    match v
    case Null =>
    case Boolean(b) => assert data[pos + 1] == data[pos + 1..pos + 2][0] == rest[0];
    case Integer(i) => I64RoundTrip(data, pos + 1, i);
    case Float(f) => U64RoundTrip(data, pos + 1, f);
    case Text(s) => StrRoundTrip(data, pos + 1, s);
  }

  /** The hash map that results from inserting the entries one after the other. */
  function InsertAll(sofar: Properties, es: Entries): Properties
    decreases |es|
  {
    if es == [] then sofar else InsertAll(sofar[es[0].0 := es[0].1], es[1..])
  }

  lemma {:induction false} EntriesRoundTrip(data: seq<U8>, pos: nat, es: Entries, sofar: Properties)
    requires forall i :: 0 <= i < |es| ==> Short(es[i].0) && ValueFits(es[i].1)
    requires At(data, pos, WriteEntries(es))
    ensures ReadEntries(data, pos, |es|, sofar) == Read(Some(InsertAll(sofar, es)), pos + |WriteEntries(es)|)
    decreases |es|
  {
    hide ReadStr, ReadValue, WriteStr, WriteValue;
    if es != [] {
      var key, value := WriteStr(es[0].0), WriteValue(es[0].1);
      AtSplit(data, pos, key, value + WriteEntries(es[1..]));
      AtSplit(data, pos + |key|, value, WriteEntries(es[1..]));
      StrRoundTrip(data, pos, es[0].0);
      ValueRoundTrip(data, pos + |key|, es[0].1);
      EntriesRoundTrip(data, pos + |key| + |value|, es[1..], sofar[es[0].0 := es[0].1]);
    }
  }

  lemma {:induction false} InsertAllContent(sofar: Properties, es: Entries)
    requires forall i, j :: 0 <= i < j < |es| ==> es[i].0 != es[j].0
    ensures forall e :: e in es ==> e.0 in InsertAll(sofar, es) && InsertAll(sofar, es)[e.0] == e.1
    ensures forall k :: k in InsertAll(sofar, es) ==>
              (k, InsertAll(sofar, es)[k]) in es || (k in sofar && sofar[k] == InsertAll(sofar, es)[k])
    ensures forall k :: k in sofar && (forall e :: e in es ==> e.0 != k) ==>
              k in InsertAll(sofar, es) && InsertAll(sofar, es)[k] == sofar[k]
    decreases |es|
  {
    if es != [] {
      InsertAllContent(sofar[es[0].0 := es[0].1], es[1..]);
      assert es == [es[0]] + es[1..];
    }
  }

  lemma EnumeratedRebuild(es: Entries, props: Properties)
    requires Enumerates(es, props)
    ensures InsertAll(map[], es) == props
  {
    forall i, j | 0 <= i < j < |es| ensures es[i].0 != es[j].0 {
      assert es[i] in es && es[j] in es;
    }
    InsertAllContent(map[], es);
  }

  lemma PropertiesRoundTrip(data: seq<U8>, pos: nat, es: Entries, props: Properties)
    requires Enumerates(es, props) && EntriesFit(es)
    requires At(data, pos, WriteProperties(es))
    ensures ReadProperties(data, pos) == Read(Some(props), pos + |WriteProperties(es)|)
  {
    AtSplit(data, pos, WriteU32(|es|), WriteEntries(es));
    U32RoundTrip(data, pos, |es|);
    EntriesRoundTrip(data, pos + 4, es, map[]);
    EnumeratedRebuild(es, props);
  }

  lemma NodeRoundTrip(data: seq<U8>, pos: nat, n: Node, es: Entries)
    requires Enumerates(es, n.properties) && EntriesFit(es) && Short(n.lbl)
    requires At(data, pos, NodeBody(n, es))
    ensures DecodeNode(data, pos + 1) == Read(Some(UpsertNode(n)), pos + |NodeBody(n, es)|)
  {
    hide ReadU64, ReadStr, ReadProperties, WriteU64, WriteStr, WriteProperties;
    var b1 := [0x01] + WriteU64(n.id);
    var b2 := b1 + WriteStr(n.lbl);
    AtSplit(data, pos, b2, WriteProperties(es));
    AtSplit(data, pos, b1, WriteStr(n.lbl));
    AtSplit(data, pos, [0x01], WriteU64(n.id));
    U64RoundTrip(data, pos + 1, n.id);
    StrRoundTrip(data, pos + |b1|, n.lbl);
    PropertiesRoundTrip(data, pos + |b2|, es, n.properties);
  }

  lemma EdgeRoundTrip(data: seq<U8>, pos: nat, e: Edge, es: Entries)
    requires Enumerates(es, e.properties) && EntriesFit(es) && Short(e.lbl)
    requires At(data, pos, EdgeBody(e, es))
    ensures DecodeEdge(data, pos + 1) == Read(Some(UpsertEdge(e)), pos + |EdgeBody(e, es)|)
  {
    hide ReadU64, ReadStr, ReadProperties, WriteU64, WriteStr, WriteProperties;
    var b1 := [0x02] + WriteU64(e.id);
    var b2 := b1 + WriteU64(e.source);
    var b3 := b2 + WriteU64(e.target);
    var b4 := b3 + WriteStr(e.lbl);
    var b5 := b4 + WriteU64(e.weight);
    AtSplit(data, pos, b5, WriteProperties(es));
    AtSplit(data, pos, b4, WriteU64(e.weight));
    AtSplit(data, pos, b3, WriteStr(e.lbl));
    AtSplit(data, pos, b2, WriteU64(e.target));
    AtSplit(data, pos, b1, WriteU64(e.source));
    AtSplit(data, pos, [0x02], WriteU64(e.id));
    U64RoundTrip(data, pos + 1, e.id);
    U64RoundTrip(data, pos + |b1|, e.source);
    U64RoundTrip(data, pos + |b2|, e.target);
    StrRoundTrip(data, pos + |b3|, e.lbl);
    U64RoundTrip(data, pos + |b4|, e.weight);
    PropertiesRoundTrip(data, pos + |b5|, es, e.properties);
  }

  /** Decoding the body of any record image gives the record back, whatever order its
      properties were written in. */
  lemma RecordRoundTrip(data: seq<U8>, pos: nat, im: Image)
    requires im.Valid() && Fits(im.rec)
    requires At(data, pos, Body(im.rec, im.entries))
    ensures DecodeRecord(data[pos], data, pos + 1) == Read(Some(im.rec), pos + |Body(im.rec, im.entries)|)
  {
    hide DecodeNode, DecodeEdge, NodeBody, EdgeBody, ReadU64, WriteU64;
    var body := Body(im.rec, im.entries);
    FitsEntries(im.rec, im.entries);
    assert body == body[..1] + body[1..];
    AtSplit(data, pos, body[..1], body[1..]);
    assert data[pos] == data[pos..pos + 1][0] == body[0];
    match im.rec
    case UpsertNode(n) => NodeRoundTrip(data, pos, n, im.entries);
    case UpsertEdge(e) => EdgeRoundTrip(data, pos, e, im.entries);
    case DeleteNode(id) => U64RoundTrip(data, pos + 1, id);
    case DeleteEdge(id) => U64RoundTrip(data, pos + 1, id);
    case BeginTxn(t) => U64RoundTrip(data, pos + 1, t);
    case CommitTxn(t) => U64RoundTrip(data, pos + 1, t);
    case RollbackTxn(t) => U64RoundTrip(data, pos + 1, t);
  }

  // ---- The format, byte by byte ----

  /** A 32-bit number from `pos` on, least significant byte first. */
  predicate HasU32(bs: seq<U8>, pos: nat, n: nat) {
    && pos + 4 <= |bs| && bs[pos] == n % 0x100 && bs[pos + 1] == n / 0x100 % 0x100
    && bs[pos + 2] == n / 0x1_0000 % 0x100 && bs[pos + 3] == n / 0x100_0000 % 0x100
  }

  predicate HasU64(bs: seq<U8>, pos: nat, n: nat) {
    HasU32(bs, pos, n) && HasU32(bs, pos + 4, n / 0x1_0000_0000)
  }

  /** A byte count in 32 bits, then the bytes. */
  predicate HasText(bs: seq<U8>, pos: nat, text: string) {
    var utf8 := Utf8.Encode(text);
    HasU32(bs, pos, |utf8|) && pos + 4 + |utf8| <= |bs| && bs[pos + 4..pos + 4 + |utf8|] == utf8
  }

  lemma FourLowBytes(n: nat)
    ensures HasU32(LittleEndian(n, 4), 0, n)
  {
    assert n / 0x100 / 0x100 == n / 0x1_0000 && n / 0x1_0000 / 0x100 == n / 0x100_0000;
    var bs := LittleEndian(n, 4);
    assert bs[1..] == LittleEndian(n / 0x100, 3);
    assert bs[1..][1..] == LittleEndian(n / 0x100 / 0x100, 2);
    assert bs[1..][1..][1..] == LittleEndian(n / 0x100 / 0x100 / 0x100, 1);
  }

  lemma EightBytes(n: nat)
    ensures HasU64(LittleEndian(n, 8), 0, n)
  {
    FourLowBytes(n);
    FourLowBytes(n / 0x1_0000_0000);
    var bs := LittleEndian(n, 8);
    assert bs[..4] == LittleEndian(n, 4) && bs[4..] == LittleEndian(n / 0x1_0000_0000, 4) by {
      HighBytes(n);
    }
    hide LittleEndian;
    assert forall i :: 0 <= i < 4 ==> bs[i] == bs[..4][i] && bs[4 + i] == bs[4..][i];
  }

  lemma HighBytes(n: nat)
    ensures LittleEndian(n, 8) == LittleEndian(n, 4) + LittleEndian(n / 0x1_0000_0000, 4)
  {
    var n1, n2, n3, n4 := n / 0x100, n / 0x100 / 0x100, n / 0x100 / 0x100 / 0x100, n / 0x1_0000_0000;
    assert n2 == n / 0x1_0000 && n3 == n / 0x100_0000 && n3 / 0x100 == n4;
    assert LittleEndian(n, 8) == [n % 256] + LittleEndian(n1, 7);
    assert LittleEndian(n1, 7) == [n1 % 256] + LittleEndian(n2, 6);
    assert LittleEndian(n2, 6) == [n2 % 256] + LittleEndian(n3, 5);
    assert LittleEndian(n3, 5) == [n3 % 256] + LittleEndian(n4, 4);
    assert LittleEndian(n, 4) == [n % 256] + LittleEndian(n1, 3);
    assert LittleEndian(n1, 3) == [n1 % 256] + LittleEndian(n2, 2);
    assert LittleEndian(n2, 2) == [n2 % 256] + LittleEndian(n3, 1);
    assert LittleEndian(n3, 1) == [n3 % 256] + LittleEndian(n4, 0);
  }

  lemma U32At(bs: seq<U8>, pos: nat, n: nat)
    requires n < 0x1_0000_0000 && At(bs, pos, WriteU32(n))
    ensures HasU32(bs, pos, n)
  {
    FourLowBytes(n);
    hide LittleEndian;
    assert forall i :: 0 <= i < 4 ==> bs[pos + i] == WriteU32(n)[i];
  }

  lemma U64At(bs: seq<U8>, pos: nat, n: U64)
    requires At(bs, pos, WriteU64(n))
    ensures HasU64(bs, pos, n)
  {
    EightBytes(n);
    hide LittleEndian;
    assert forall i :: 0 <= i < 8 ==> bs[pos + i] == WriteU64(n)[i];
  }

  lemma TextAt(bs: seq<U8>, pos: nat, text: string)
    requires Short(text) && At(bs, pos, WriteStr(text))
    ensures HasText(bs, pos, text)
  {
    hide WriteU32, HasU32, Utf8.Encode;
    AtSplit(bs, pos, WriteU32(|Utf8.Encode(text)|), Utf8.Encode(text));
    U32At(bs, pos, |Utf8.Encode(text)|);
  }

  lemma IdBytes(kind: U8, id: U64)
    ensures |[kind] + WriteU64(id)| == 9 && HasU64([kind] + WriteU64(id), 1, id)
  {
    hide HasU64, WriteU64;
    AtSplit([kind] + WriteU64(id), 0, [kind], WriteU64(id));
    U64At([kind] + WriteU64(id), 1, id);
  }

  /** A delete or a marker: the record type, then the id. */
  lemma IdLayout(r: Record, es: Entries)
    requires !r.UpsertNode? && !r.UpsertEdge?
    ensures var bs := Body(r, es);
            |bs| == 9 &&
            match r
            case DeleteNode(id) => bs[0] == 3 && HasU64(bs, 1, id)
            case DeleteEdge(id) => bs[0] == 4 && HasU64(bs, 1, id)
            case BeginTxn(t) => bs[0] == 5 && HasU64(bs, 1, t)
            case CommitTxn(t) => bs[0] == 6 && HasU64(bs, 1, t)
            case RollbackTxn(t) => bs[0] == 7 && HasU64(bs, 1, t)
            case _ => true
  {
    hide HasU64, WriteU64;
    match r
    case DeleteNode(id) => IdBytes(3, id);
    case DeleteEdge(id) => IdBytes(4, id);
    case BeginTxn(t) => IdBytes(5, t);
    case CommitTxn(t) => IdBytes(6, t);
    case RollbackTxn(t) => IdBytes(7, t);
  }

  lemma FourParts(bs: seq<U8>, kind: U8, a: seq<U8>, b: seq<U8>, c: seq<U8>, d: seq<U8>)
    requires bs == [kind] + a + b + c + d
    ensures At(bs, 1, a) && At(bs, 1 + |a|, b) && At(bs, 1 + |a| + |b|, c) && bs[1 + |a| + |b| + |c|..] == d
  {
    hide At;
    assert bs == [kind] + (a + (b + (c + d)));
    AtWhole(bs);
    AtSplit(bs, 0, [kind], a + (b + (c + d)));
    AtSplit(bs, 1, a, b + (c + d));
    AtSplit(bs, 1 + |a|, b, c + d);
    AtSplit(bs, 1 + |a| + |b|, c, d);
    AtTail(bs, 1 + |a| + |b| + |c|, d);
  }

  lemma AtWhole(bs: seq<U8>)
    ensures At(bs, 0, bs)
  {
  }

  /** A node: type, id, label, number of properties, properties. */
  lemma NodeLayout(n: Node, es: Entries)
    requires Short(n.lbl) && |es| < 0x1_0000_0000
    ensures var bs, l := Body(UpsertNode(n), es), |Utf8.Encode(n.lbl)|;
            && bs[0] == 1 && HasU64(bs, 1, n.id) && HasText(bs, 9, n.lbl) && HasU32(bs, 13 + l, |es|)
            && bs[17 + l..] == WriteEntries(es)
  {
    hide WriteU64, WriteU32, HasU64, HasU32, HasText, WriteEntries, Utf8.Encode, At;
    var bs, l := NodeBody(n, es), |Utf8.Encode(n.lbl)|;
    FourParts(bs, 0x01, WriteU64(n.id), WriteStr(n.lbl), WriteU32(|es|), WriteEntries(es));
    U64At(bs, 1, n.id);
    TextAt(bs, 9, n.lbl);
    U32At(bs, 13 + l, |es|);
  }

  lemma FirstParts(bs: seq<U8>, kind: U8, a: seq<U8>, b: seq<U8>, c: seq<U8>, rest: seq<U8>)
    requires bs == [kind] + a + b + c + rest
    ensures At(bs, 1, a) && At(bs, 1 + |a|, b) && At(bs, 1 + |a| + |b|, c) && At(bs, 1 + |a| + |b| + |c|, rest)
  {
    FourParts(bs, kind, a, b, c, rest);
    assert bs[1 + |a| + |b| + |c|..1 + |a| + |b| + |c| + |rest|] == rest;
  }

  lemma LastParts(bs: seq<U8>, pos: nat, a: seq<U8>, b: seq<U8>, c: seq<U8>, d: seq<U8>)
    requires At(bs, pos, a + b + c + d)
    ensures At(bs, pos, a) && At(bs, pos + |a|, b) && At(bs, pos + |a| + |b|, c) && At(bs, pos + |a| + |b| + |c|, d)
  {
    hide At;
    assert a + b + c + d == a + (b + (c + d));
    AtSplit(bs, pos, a, b + (c + d));
    AtSplit(bs, pos + |a|, b, c + d);
    AtSplit(bs, pos + |a| + |b|, c, d);
  }

  lemma EdgeParts(e: Edge, es: Entries)
    ensures var rest := WriteStr(e.lbl) + WriteU64(e.weight) + WriteU32(|es|) + WriteEntries(es);
            EdgeBody(e, es) == [0x02] + WriteU64(e.id) + WriteU64(e.source) + WriteU64(e.target) + rest
  {
    hide WriteU64, WriteU32, WriteEntries, WriteStr;
  }

  /** An edge: type, id, source, target, label, weight, number of properties, properties. */
  lemma EdgeLayout(e: Edge, es: Entries)
    requires Short(e.lbl) && |es| < 0x1_0000_0000
    ensures var bs, l := Body(UpsertEdge(e), es), |Utf8.Encode(e.lbl)|;
            && bs[0] == 2 && HasU64(bs, 1, e.id) && HasU64(bs, 9, e.source) && HasU64(bs, 17, e.target)
            && HasText(bs, 25, e.lbl) && HasU64(bs, 29 + l, e.weight) && HasU32(bs, 37 + l, |es|)
            && bs[41 + l..] == WriteEntries(es)
  {
    hide WriteStr, HasU64, HasU32, HasText, WriteEntries, Utf8.Encode, At, EdgeBody, WriteU64, WriteU32, Short;
    var bs, l := EdgeBody(e, es), |Utf8.Encode(e.lbl)|;
    EdgeAt(e, es);
    U64At(bs, 1, e.id);
    U64At(bs, 9, e.source);
    U64At(bs, 17, e.target);
    TextAt(bs, 25, e.lbl);
    U64At(bs, 29 + l, e.weight);
    U32At(bs, 37 + l, |es|);
    AtTail(bs, 41 + l, WriteEntries(es));
  }

  lemma EdgeAt(e: Edge, es: Entries)
    ensures var bs, l := EdgeBody(e, es), |Utf8.Encode(e.lbl)|;
            && At(bs, 1, WriteU64(e.id)) && At(bs, 9, WriteU64(e.source)) && At(bs, 17, WriteU64(e.target))
            && At(bs, 25, WriteStr(e.lbl)) && At(bs, 29 + l, WriteU64(e.weight)) && At(bs, 37 + l, WriteU32(|es|))
            && At(bs, 41 + l, WriteEntries(es)) && |bs| == 41 + l + |WriteEntries(es)|
  {
    EdgeParts(e, es);
    StrLength(e.lbl);
    hide WriteU64, WriteU32, WriteEntries, WriteStr, Utf8.Encode, At, EdgeBody;
    var rest := WriteStr(e.lbl) + WriteU64(e.weight) + WriteU32(|es|) + WriteEntries(es);
    FirstParts(EdgeBody(e, es), 0x02, WriteU64(e.id), WriteU64(e.source), WriteU64(e.target), rest);
    LastParts(EdgeBody(e, es), 25, WriteStr(e.lbl), WriteU64(e.weight), WriteU32(|es|), WriteEntries(es));
  }

  lemma StrLength(s: string)
    ensures |WriteStr(s)| == 4 + |Utf8.Encode(s)|
  {
  }

  lemma AtTail(bs: seq<U8>, pos: nat, part: seq<U8>)
    requires At(bs, pos, part) && |bs| == pos + |part|
    ensures bs[pos..] == part
  {
  }

  lemma SignedBytes(i: I64, n: U64)
    requires n == if i < 0 then 0x1_0000_0000_0000_0000 + i as int else i
    ensures WriteI64(i) == WriteU64(n)
  {
  }

  lemma AfterOne(kind: U8, part: seq<U8>)
    ensures At([kind] + part, 1, part)
  {
    AtSplit([kind] + part, 0, [kind], part);
  }

  /** A value: its type, then two's complement, bits or text. */
  lemma ValueLayout(v: Value)
    requires v.Text? ==> Short(v.s)
    ensures var bs := WriteValue(v);
            match v
            case Null => bs == [0]
            case Boolean(b) => bs == [1, if b then 1 else 0]
            case Integer(i) =>
              |bs| == 9 && bs[0] == 2 && HasU64(bs, 1, if i < 0 then 0x1_0000_0000_0000_0000 + i as int else i)
            case Float(f) => |bs| == 9 && bs[0] == 3 && HasU64(bs, 1, f)
            case Text(s) => |bs| == 5 + |Utf8.Encode(s)| && bs[0] == 4 && HasText(bs, 1, s)
  {
    hide HasU64, HasText, WriteU32, WriteU64, Utf8.Encode, At;
    match v
    case Integer(i) =>
      var n: U64 := if i < 0 then 0x1_0000_0000_0000_0000 + i as int else i;
      SignedBytes(i, n);
      IdBytes(2, n);
    case Float(f) => IdBytes(3, f);
    case Text(s) =>
      AfterOne(4, WriteStr(s));
      TextAt(WriteValue(v), 1, s);
    case _ =>
  }

  /** A property: key, then value, one after the other. */
  lemma EntryLayout(es: Entries)
    requires es != [] && Short(es[0].0)
    ensures var bs, k := WriteEntries(es), 4 + |Utf8.Encode(es[0].0)|;
            HasText(bs, 0, es[0].0) && bs[k..] == WriteValue(es[0].1) + WriteEntries(es[1..])
  {
    hide WriteU32, HasText, WriteValue, Utf8.Encode;
    var key, rest := WriteStr(es[0].0), WriteValue(es[0].1) + WriteEntries(es[1..]);
    assert WriteEntries(es) == key + rest && |key| == 4 + |Utf8.Encode(es[0].0)|;
    hide WriteEntries, WriteStr;
    AtSplit(WriteEntries(es), 0, key, rest);
    TextAt(WriteEntries(es), 0, es[0].0);
  }

  /** After the body comes its checksum. */
  lemma ChecksumLayout(body: seq<U8>)
    ensures |WithChecksum(body)| == |body| + 4 && WithChecksum(body)[..|body|] == body
    ensures HasU32(WithChecksum(body), |body|, Adler32.Checksum(body))
  {
    hide WriteU32, HasU32, Adler32.Checksum;
    U32At(WithChecksum(body), |body|, Adler32.Checksum(body));
  }
}
