/** The database over the binary log file: src/database/layered.rs on
    src/adapters/storage/binary_file.rs. */
module FileBacked {
  import opened Core
  import opened WalLog
  import opened GraphOps
  import opened CommitTrace
  import opened CommitLog
  import opened Codec
  import opened BinaryFile
  import opened BinaryStorage
  import opened Database
  import opened Engine
  import LruCache
  import Transaction

  ghost predicate FitsLog(log: seq<Record>) {
    forall r :: r in log ==> Fits(r)
  }

  /** What the operation inserts fits the file format. */
  ghost predicate OpFits(op: Transaction.StagedOp) {
    (op.InsertNode? ==> Fits(UpsertNode(op.node))) && (op.InsertEdge? ==> Fits(UpsertEdge(op.edge)))
  }

  /** Only inserts can fail to fit. */
  lemma GrownFits(log': seq<Record>, log: seq<Record>, ops: Ops)
    requires FitsLog(log) && Grown(log', log, ops) && forall op :: op in ops ==> OpFits(op)
    ensures FitsLog(log')
  {
    forall r | r in log' ensures Fits(r) {
      if r.UpsertNode? || r.UpsertEdge? {
        assert r in log || InsertedBy(r, ops);
      }
    }
  }

  /** A log whose records fit can be written to a file. */
  method WriteFile(log: seq<Record>) returns (file: BinaryFileStorage)
    requires FitsLog(log)
    ensures fresh(file) && file.Valid() && file.Log() == log
  {
    hide Fits, BinaryFileStorage.Valid, BinaryFileStorage.Log;
    file := new BinaryFileStorage.Create();
    for i := 0 to |log|
      invariant fresh(file) && file.Valid() && file.Log() == log[..i]
    {
      file.Save(log[i]);
    }
  }

  /** The bytes of a file that holds the log of the database load the running graph. */
  lemma FileLoads(db: Database, file: BinaryFileStorage)
    requires db.Durable() && file.Valid() && file.Log() == db.storage.log
    ensures ReplayFile(file.file) == Ok(db.graph)
  {
    hide ReplayFile, Run, NeverDangles;
    FileReplay(file.images);
  }

  /** Opening a database on such a file, with fresh layers, brings back graph and buckets. */
  method ReopenFile(db: Database, file: BinaryFileStorage, cache: LruCache.LruCache, engine: AdjacencyListEngine,
                    autoCompactAfterWrites: Option<nat>)
    returns (again: Database)
    requires db.Valid() && db.Durable() && db.cache != cache && db.engine != engine
    requires file.Valid() && file.Log() == db.storage.log
    requires cache.Valid() && cache.nodeList.contents == map[] && cache.edgeList.contents == map[]
    requires engine.Valid() && engine.nodes == {} && engine.edges == map[]
    modifies engine
    ensures ReplayFile(file.file) == Ok(db.graph) && Reopened(again, db)
  {
    hide Database.Running, Database.Rebuilt, LruCache.LruCache.Valid, AdjacencyListEngine.Valid, NeverDangles, Replay,
         NoDangling, Reopened, BinaryFileStorage.Valid, BinaryFileStorage.Log, ReplayFile;
    RoomForIds(db);
    FileLoads(db, file);
    var g := file.Load();
    again := Database.OpenLoaded(db.storage, g, cache, engine, db.propertyIndex.fm, autoCompactAfterWrites);
    SameAgain(again, db);
  }
}
