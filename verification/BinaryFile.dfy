/** The binary log file of src/adapters/storage/binary_file.rs: replay of its bytes, and the
    adapter that appends, loads and compacts. */
module BinaryFile {
  import opened Core
  import opened WalLog
  import opened Codec
  import Adler32

  const MAGIC: seq<U8> := [0x41, 0x47, 0x44, 0x42]  // "AGDB"
  const VERSION: U32 := 2

  function Header(): (bs: seq<U8>)
    ensures |bs| == 8 && bs[..4] == MAGIC
  {
    MAGIC + WriteU32(VERSION)
  }

  datatype FileError = InvalidMagic | UnsupportedVersion

  /** The replay loop from `pos` on: decode, verify the checksum, then apply. A checksum mismatch
      skips the record; a truncated checksum or an undecodable record stops the replay. */
  function ReplayFrom(data: seq<U8>, pos: nat, st: LogState): LogState
    requires pos <= |data|
    decreases |data| - pos
  {
    if pos == |data| then st
    else
      var decoded := DecodeRecord(data[pos], data, pos + 1);
      var stored := ReadU32(data, decoded.pos);
      if stored.value.None? then st
      else if Adler32.Checksum(data[pos..stored.pos - 4]) != stored.value.value then
        ReplayFrom(data, stored.pos, st)
      else if decoded.value.None? then st
      else ReplayFrom(data, stored.pos, Step(st, decoded.value.value))
  }

  /** Replaying a whole file. */
  function ReplayFile(data: seq<U8>): Result<Graph, FileError> {
    if |data| < 8 then Ok(EMPTY_GRAPH)
    else if data[..4] != MAGIC then Err(InvalidMagic)
    else if FromLittleEndian(data[4..8]) != VERSION then Err(UnsupportedVersion)
    else Ok(ReplayFrom(data, 8, INITIAL).graph)
  }

  // ---- Byte-level replay is the record-level fold ----

  function ImageBytes(images: seq<Image>): seq<U8> {
    if images == [] then [] else images[0].Bytes() + ImageBytes(images[1..])
  }

  function Records(images: seq<Image>): seq<Record> {
    seq(|images|, i requires 0 <= i < |images| => images[i].rec)
  }

  ghost predicate Writable(images: seq<Image>) {
    forall i :: 0 <= i < |images| ==> images[i].Valid() && Fits(images[i].rec)
  }

  lemma ReplayImage(data: seq<U8>, pos: nat, im: Image, st: LogState)
    requires im.Valid() && Fits(im.rec) && At(data, pos, im.Bytes())
    ensures ReplayFrom(data, pos, st) == ReplayFrom(data, pos + |im.Bytes()|, Step(st, im.rec))
  {
    hide DecodeRecord, Body, ReadU32, WriteU32, Adler32.Checksum, Step, Fits, Image.Valid;
    var body := Body(im.rec, im.entries);
    var sum := Adler32.Checksum(body);
    AtSplit(data, pos, body, WriteU32(sum));
    RecordRoundTrip(data, pos, im);
    U32RoundTrip(data, pos + |body|, sum);
  }

  lemma {:induction false} ReplayImages(data: seq<U8>, pos: nat, images: seq<Image>, st: LogState)
    requires Writable(images) && At(data, pos, ImageBytes(images))
    ensures ReplayFrom(data, pos, st)
         == ReplayFrom(data, pos + |ImageBytes(images)|, Run(st, Records(images)))
    decreases |images|
  {
    hide ReplayFrom, Step, Image.Bytes, Fits, Image.Valid;
    if images != [] {
      var first := images[0].Bytes();
      AtSplit(data, pos, first, ImageBytes(images[1..]));
      ReplayImage(data, pos, images[0], st);
      ReplayImages(data, pos + |first|, images[1..], Step(st, images[0].rec));
      RunImages(st, images);
    }
  }

  lemma RunImages(st: LogState, images: seq<Image>)
    requires images != []
    ensures Run(st, Records(images)) == Run(Step(st, images[0].rec), Records(images[1..]))
  {
    assert Records(images) == [images[0].rec] + Records(images[1..]);
    RunCons(st, images[0].rec, Records(images[1..]));
  }

  lemma HeaderAccepted(data: seq<U8>)
    requires At(data, 0, Header())
    ensures ReplayFile(data) == Ok(ReplayFrom(data, 8, INITIAL).graph)
  {
    hide ReplayFrom, LittleEndian;
    Widths();
    LittleEndianRoundTrip(VERSION, 4);
    assert data[..4] == Header()[..4] && data[4..8] == Header()[4..];
  }

  /** Which files are taken: in bytes, "AGDB" and a little-endian 2. Without room for them a file
      counts as empty. */
  lemma HeaderExactly(data: seq<U8>)
    ensures |data| >= 8 ==>
      && (ReplayFile(data).Ok? <==> data[..8] == [0x41, 0x47, 0x44, 0x42, 2, 0, 0, 0])
      && (ReplayFile(data) == Err(InvalidMagic) <==> data[..4] != [0x41, 0x47, 0x44, 0x42])
    ensures |data| < 8 ==> ReplayFile(data) == Ok(EMPTY_GRAPH)
  {
    if |data| >= 8 {
      var v := data[4..8];
      FourBytes(v);
      assert data[..8] == data[..4] + v;
      assert data[..8] == [0x41, 0x47, 0x44, 0x42, 2, 0, 0, 0] <==>
        data[..4] == [0x41, 0x47, 0x44, 0x42] && v == [2, 0, 0, 0];
    }
  }

  /** A header followed by any record images replays to the fold of the records, whatever order
      each property map was enumerated in. */
  lemma FileReplay(images: seq<Image>)
    requires Writable(images)
    ensures ReplayFile(Header() + ImageBytes(images)) == Ok(Loaded(Records(images)))
  {
    hide ReplayFrom, ReplayFile, WriteU32, Run, Image.Bytes, ImageBytes;
    var data := Header() + ImageBytes(images);
    HeaderAccepted(data);
    assert At(data, 8, ImageBytes(images));
    ReplayImages(data, 8, images, INITIAL);
    AtEnd(data, Replay(Records(images)));
  }

  lemma AtEnd(data: seq<U8>, st: LogState)
    ensures ReplayFrom(data, |data|, st) == st
  {
  }

  // ---- Damaged records ----

  /** One byte changed, or two bytes of the body swapped. */
  datatype Damage = Substitute(i: nat, v: U8) | Exchange(i: nat, j: nat) {
    ghost predicate Hits(good: seq<U8>) {
      match this
      case Substitute(i, v) => i < |good| && v != good[i]
      case Exchange(i, j) => i < j < |good| - 4 && j - i <= 256 && good[i] != good[j]
    }

    function On(good: seq<U8>): (bad: seq<U8>)
      requires Hits(good)
      ensures |bad| == |good|
    {
      match this
      case Substitute(i, v) => good[i := v]
      case Exchange(i, j) => Adler32.Swap(good, i, j)
    }
  }

  /** The stored checksum of a damaged record does not match the rest of it. */
  lemma DamageShows(d: Damage, im: Image, sum: U32)
    requires d.Hits(im.Bytes())
    ensures var bad := d.On(im.Bytes());
            |bad| > 4 && !(bad[|bad| - 4..] == WriteU32(sum) && Adler32.Checksum(bad[..|bad| - 4]) == sum)
  {
    hide Body, WriteU32, Adler32.Checksum;
    var body := Body(im.rec, im.entries);
    var stored := Adler32.Checksum(body);
    var good, n := im.Bytes(), |body|;
    var bad := d.On(good);
    assert good == body + WriteU32(stored);
    if d.Substitute? && d.i >= n {
      assert bad[..n] == body && bad[n..][d.i - n] != WriteU32(stored)[d.i - n];
    } else {
      assert bad[n..] == WriteU32(stored);
      if d.Substitute? {
        assert bad[..n] == body[d.i := d.v];
        Adler32.SubstitutionDetected(body, d.i, d.v);
      } else {
        assert bad[..n] == Adler32.Swap(body, d.i, d.j);
        Adler32.NearSwapDetected(body, d.i, d.j);
      }
      if WriteU32(sum) == WriteU32(stored) {
        WriteU32Injective(sum, stored);
      }
    }
  }

  lemma WriteU32Injective(x: U32, y: U32)
    requires WriteU32(x) == WriteU32(y)
    ensures x == y
  {
    hide LittleEndian, FromLittleEndian, Pow256;
    Widths();
    LittleEndianRoundTrip(x, 4);
    LittleEndianRoundTrip(y, 4);
  }

  /** Four bytes are the little-endian form of the number they decode to. */
  lemma {:induction false} LittleEndianOnto(bs: seq<U8>)
    ensures LittleEndian(FromLittleEndian(bs), |bs|) == bs
    decreases |bs|
  {
    if bs != [] {
      LittleEndianOnto(bs[1..]);
      var high := FromLittleEndian(bs[1..]);
      assert (bs[0] + 256 * high) % 256 == bs[0] && (bs[0] + 256 * high) / 256 == high;
      assert bs == [bs[0]] + bs[1..];
    }
  }

  /** A damaged record whose decoding still ends where the record ends is skipped. */
  lemma DamagedRecordSkipped(data: seq<U8>, pos: nat, d: Damage, im: Image, st: LogState)
    requires d.Hits(im.Bytes())
    requires var bad := d.On(im.Bytes());
             At(data, pos, bad) && DecodeRecord(data[pos], data, pos + 1).pos == pos + |bad| - 4
    ensures ReplayFrom(data, pos, st) == ReplayFrom(data, pos + |im.Bytes()|, st)
  {
    hide DecodeRecord, Adler32.Checksum, LittleEndian, FromLittleEndian, Body, Damage.On, Damage.Hits, Image.Bytes;
    var bad := d.On(im.Bytes());
    var n := |bad| - 4;
    var last := data[pos + n..pos + n + 4];
    assert last == bad[n..] && data[pos..pos + n] == bad[..n];
    LittleEndianOnto(last);
    Widths();
    DamageShows(d, im, FromLittleEndian(last));
  }

  /** Replaying a log with such a damaged record in it equals replaying the log without it. */
  lemma DamagedLogReplay(before: seq<Image>, d: Damage, im: Image, after: seq<Image>)
    requires Writable(before) && Writable(after) && d.Hits(im.Bytes())
    requires var bad := d.On(im.Bytes());
             var start := Header() + ImageBytes(before);
             DecodeRecord(bad[0], start + bad + ImageBytes(after), |start| + 1).pos == |start| + |bad| - 4
    ensures ReplayFile(Header() + ImageBytes(before) + d.On(im.Bytes()) + ImageBytes(after))
         == Ok(Loaded(Records(before) + Records(after)))
  {
    hide ReplayFrom, ReplayFile, WriteU32, DecodeRecord, Damage.On, Damage.Hits, ImageBytes, Image.Bytes, Run;
    var bad := d.On(im.Bytes());
    var start := Header() + ImageBytes(before);
    var data := start + bad + ImageBytes(after);
    var pos := |start|;
    var st := Replay(Records(before));
    HeaderAccepted(data);
    assert At(data, 8, ImageBytes(before)) by { assert data[8..pos] == ImageBytes(before); }
    assert At(data, pos, bad);
    assert At(data, pos + |bad|, ImageBytes(after));
    ReplayImages(data, 8, before, INITIAL);
    DamagedRecordSkipped(data, pos, d, im, st);
    ReplayImages(data, pos + |bad|, after, st);
    AtEnd(data, Run(st, Records(after)));
    RunConcat(INITIAL, Records(before), Records(after));
  }

  /** Damage that turns a record into the image of another one still leaves its old checksum
      behind: the record is skipped, and the other one is never replayed in its place. */
  lemma AlteredRecordSkipped(before: seq<Image>, d: Damage, im: Image, other: Image, after: seq<Image>)
    requires Writable(before) && Writable(after) && Writable([other]) && d.Hits(im.Bytes())
    requires At(d.On(im.Bytes()), 0, Body(other.rec, other.entries))
    requires |Body(other.rec, other.entries)| == |Body(im.rec, im.entries)|
    ensures ReplayFile(Header() + ImageBytes(before) + d.On(im.Bytes()) + ImageBytes(after))
         == Ok(Loaded(Records(before) + Records(after)))
  {
    hide ReplayFrom, ReplayFile, WriteU32, DecodeRecord, Damage.On, Damage.Hits, ImageBytes, Body, Run,
         Adler32.Checksum;
    var bad := d.On(im.Bytes());
    var start := Header() + ImageBytes(before);
    var data := start + bad + ImageBytes(after);
    assert [other][0] == other;
    assert At(data, |start|, Body(other.rec, other.entries)) by {
      assert data[|start|..|start| + |Body(other.rec, other.entries)|] == bad[..|Body(other.rec, other.entries)|];
    }
    RecordRoundTrip(data, |start|, other);
    assert data[|start|] == bad[0];
    DamagedLogReplay(before, d, im, after);
  }

  function WithId(r: Record, id: U64): Record {
    match r
    case UpsertNode(n) => UpsertNode(n.(id := id))
    case UpsertEdge(e) => UpsertEdge(e.(id := id))
    case DeleteNode(_) => DeleteNode(id)
    case DeleteEdge(_) => DeleteEdge(id)
    case BeginTxn(_) => BeginTxn(id)
    case CommitTxn(_) => CommitTxn(id)
    case RollbackTxn(_) => RollbackTxn(id)
  }

  function IdOf(r: Record): U64 {
    match r
    case UpsertNode(n) => n.id
    case UpsertEdge(e) => e.id
    case DeleteNode(id) => id
    case DeleteEdge(id) => id
    case BeginTxn(t) => t
    case CommitTxn(t) => t
    case RollbackTxn(t) => t
  }

  function AfterId(r: Record, es: Entries): seq<U8> {
    match r
    case UpsertNode(n) => WriteStr(n.lbl) + WriteProperties(es)
    case UpsertEdge(e) =>
      WriteU64(e.source) + WriteU64(e.target) + WriteStr(e.lbl) + WriteU64(e.weight) + WriteProperties(es)
    case _ => []
  }

  lemma BodyShape(r: Record, es: Entries)
    ensures Body(r, es) == [Body(r, es)[0]] + WriteU64(IdOf(r)) + AfterId(r, es)
  {
    hide WriteU64, WriteStr, WriteProperties;
  }

  lemma SameType(r: Record, es: Entries, id: U64)
    ensures Body(WithId(r, id), es)[0] == Body(r, es)[0]
  {
    hide WriteU64, WriteStr, WriteProperties;
  }

  /** The eight bytes after the type byte are the id, whatever they are. */
  lemma IdField(r: Record, es: Entries, id: seq<U8>)
    requires |id| == 8
    ensures FromLittleEndian(id) <= MAX_U64 && |Body(r, es)| >= 9
    ensures [Body(r, es)[0]] + id + Body(r, es)[9..] == Body(WithId(r, FromLittleEndian(id)), es)
  {
    hide LittleEndian, FromLittleEndian, Body, Pow256, WriteStr, WriteProperties;
    Widths();
    LittleEndianOnto(id);
    BodyShape(r, es);
    BodyShape(WithId(r, FromLittleEndian(id)), es);
    SameType(r, es, FromLittleEndian(id));
    assert Body(r, es)[9..] == AfterId(r, es);
  }

  lemma AtLeastNine(r: Record, es: Entries)
    ensures |Body(r, es)| >= 9
  {
    hide WriteU64, WriteStr, WriteProperties;
    BodyShape(r, es);
  }

  /** A record with any one byte of its id changed is skipped by replay. */
  lemma DamagedIdSkipped(before: seq<Image>, im: Image, i: nat, v: U8, after: seq<Image>)
    requires Writable(before) && Writable(after) && Writable([im])
    requires 1 <= i < 9 && i < |im.Bytes()| && v != im.Bytes()[i]
    ensures ReplayFile(Header() + ImageBytes(before) + im.Bytes()[i := v] + ImageBytes(after))
         == Ok(Loaded(Records(before) + Records(after)))
  {
    hide ReplayFile, WriteU32, Body, Run, Adler32.Checksum, FromLittleEndian, ImageBytes, WithId;
    var body, d := Body(im.rec, im.entries), Substitute(i, v);
    AtLeastNine(im.rec, im.entries);
    var bad := body[i := v];
    var id := bad[1..9];
    IdField(im.rec, im.entries, id);
    var other := Image(WithId(im.rec, FromLittleEndian(id)), im.entries);
    assert bad == [body[0]] + id + body[9..];
    assert d.On(im.Bytes())[..|body|] == bad;
    assert [im][0] == im;
    SameProperties(im, other);
    AlteredRecordSkipped(before, d, im, other, after);
  }

  lemma SameProperties(im: Image, other: Image)
    requires im.Valid() && Fits(im.rec) && other.entries == im.entries
    requires exists id :: other.rec == WithId(im.rec, id)
    ensures Writable([other])
  {
    assert PropertiesOf(other.rec) == PropertiesOf(im.rec);
  }
}
