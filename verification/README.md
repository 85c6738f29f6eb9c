# AdGraphDb: a verified model

A Dafny 4.11 model of AdGraphDb, a small embedded graph database, with proofs about how its parts
fit together. Check it with `dafny verify dfyconfig.toml`.

| files | what they model |
|---|---|
| `Core`, `IdGenerator` | ids, property values, nodes, edges, the live graph, the id counters |
| `WalLog`, `LogMeaning` | the write-ahead log as records: replay with BEGIN/COMMIT/ROLLBACK brackets, compaction, and what any log means |
| `Utf8`, `Adler32`, `Codec`, `BinaryFile`, `BinaryStorage` | the binary log file: encoding, checksum, byte-level replay, the adapter |
| `LogStorage` | a storage adapter seen as a record list; without markers it is the JSON adapter |
| `Engine`, `Walks`, `Bfs`, `Dfs`, `Dijkstra` | the adjacency lists and the searches over them |
| `LruCache`, `LruTrace`, `Indexes`, `PropertyIndex` | cache, what it gives up over any calls, label index, property index |
| `Memory`, `Database`, `Runs` | the assembled database and whole runs of its API |
| `Transaction`, `GraphOps`, `CommitLog`, `CommitOutcome`, `CommitRun`, `CommitTrace` | transactions, and what a commit leaves in log, cache and indexes |
| `FileBacked` | the database over the bytes of a binary log file |
| `QueryAst`, `TextOrder`, `Floats`, `Conditions`, `Planner`, `Executor` | filters, how texts and doubles compare, what conditions say, plan choice and execution |
| `Lexical`, `SimpleQuery`, `CypherLite`, `Languages`, `Texts` | the two query languages |

Code that changes state step by step is modelled by methods, in classes where the original has
objects, each proved against a function or predicate on values; the theorems are about those.
`AreNodes`, `AreEdges`, `NodeMeets`, `EdgeMeets`, `IsBreadthFirst`, `IsShortest`, `Coherent`, `Faithful` and `Explained` are
the predicates the main results are stated with; `CommitRun.Commit` says on values how a commit ends,
compactions on the way and cache evictions included.

What is a parameter rather than a definition:

- Floats are 64-bit patterns. Dijkstra's addition and order are any `Arithmetic` with monotone,
  non-decreasing addition and an infinity (no associativity), as every correctly rounded addition
  is (`Dijkstra.RoundedLaws`). Filters and indexes take a `FloatModel` under laws that hold of
  IEEE 754 bit patterns (`Floats.IeeeLaws`), with closeness and the conversion of integers left
  open. The languages take float literals from a `TextModel`.
- Upper-casing and the Unicode character classes are fields of `TextModel`, tied to ASCII by laws.
- Hash map order is arbitrary: iteration picks any remaining key, and `Enumerates` is any order.
- Planner statistics are any numbers, the logarithmic cost estimate included.

Where the code and its comments part, the model follows the code:

- The transaction module (`src/transaction/mod.rs:29-34`) says a crash inside a commit leaves part
  of it in the log. With the binary adapter the markers prevent that (`WalLog.AllOrNothing`), unless
  a compaction falls due inside the commit.
- An error during commit rolls the log back but not the memory layers
  (`Database.Database.CommitTransaction`): with markers the log then stands for the graph from
  before, while the running database keeps the operations already carried out. Inserting a node
  and then an edge from a missing one shows it (`CommitOutcome.FailureLeavesNode`); memory and log
  agree exactly when those operations have no trace (`CommitOutcome.FailedCommit`).
- COMMIT applies deletes after upserts, so the log loads the live graph without every record a staged
  delete names (`CommitLog.CommitReplays`). A transaction that deletes the id it is given next, and
  then inserts, loses that insert on replay (`CommitLog.ReuseIsLost`). Nothing is lost exactly when
  no operation inserts for good what an earlier one deletes (`CommitOutcome.DeletesStickExactly`).
- The log a successful commit writes can load an edge without its ends: delete a node that is not
  there, insert it, and insert an edge at it (`CommitLog.CommitDangles`). That happens exactly when an
  operation deletes a node and a later one inserts, for good, an edge at it that is not itself
  deleted (`CommitOutcome.EndsKeptExactly`). Opening such a log takes the edge as it is
  (`Database.Database.OpenWithConfig`).
- A delete inside a commit counts as a write, so a compaction can fall due before COMMIT is written.
  It drops the open bracket: the commit succeeds, what it did up to there is gone from the log
  (`CommitRun.CompactionDropsBracket`), and the rest is logged outside any bracket. The log ends at
  the live graph exactly when that part shows no more in the end (`CommitRun.CommitUpToDate`).
- With markers storage does not serve a node the open bracket inserted. Deleting it works while it is
  cached; once evicted, the read before the deletion misses it and the indexes list it on
  (`CommitRun.EvictedNodeStaysIndexed`). They end exact just when no read misses
  (`CommitRun.IndexesExactly`).
- An index compares floats exactly and never with integers, a scan uses an epsilon and converts.
  `= 5.0` finds a node that holds 5 by a scan and not by a property index
  (`Planner.PlanMissesFive`). `QueryAst.IndexAgreesWithScan` says on which pairs the two agree, and
  `Planner.PlanKeepsMeaning` for which filters a plan keeps its meaning.

## Model

| member | source | states |
|---|---|---|
| WalLog.AllOrNothing | src/adapters/storage/binary_file.rs:380-450 | a well-bracketed log cut at any record boundary replays to the effect of the units that lie whole before the cut |
| WalLog.WholeUnitsFit | src/adapters/storage/binary_file.rs:380-450 | the units counted as whole do fit before the cut, and the next one does not |
| WalLog.WholeLog | src/adapters/storage/binary_file.rs:380-450 | the uncut log replays to the effect of every unit and leaves no bracket open |
| WalLog.RolledBackBracketVanishes | src/adapters/storage/binary_file.rs:432-440 | BEGIN..ROLLBACK can be cut out, whatever follows, exactly when no bracket was open before it |
| WalLog.CompactionReplays | src/adapters/storage/binary_file.rs:558-591 | a compacted log replays to the same live content with no bracket open |
| WalLog.CompactionInvisible | src/adapters/storage/binary_file.rs:558-591 | no later append can tell the compacted log from the original, exactly when no bracket was open |
| WalLog.CompactionIdempotent | src/adapters/storage/binary_file.rs:558-591 | compacting again yields the same records, as a multiset |
| WalLog.GroupedEqualsSequential | src/adapters/storage/binary_file.rs:419-430 | COMMIT's grouped application equals one-by-one application in log order exactly when no id ends the bracket upserted after a delete |
| WalLog.LiveFromLog | src/adapters/storage/binary_file.rs:350-450 | every live record was written to the log as it is |
| LogMeaning.LoadedTold | src/adapters/storage/binary_file.rs:380-450 | of any log, stray and mismatched markers and nested BEGINs included: an id is live exactly when some upsert of it stands, with that value. A record takes effect at once when the last marker before it is no BEGIN, else at a COMMIT with the number of that BEGIN if that is the next marker; an upsert stands when no delete takes effect with it or later and no other upsert after it |
| Utf8.RoundTrip | src/adapters/storage/binary_file.rs:131-134 | decoding the UTF-8 form of a string gives the string |
| Utf8.DecodesExactly | src/adapters/storage/binary_file.rs:206-211 | bytes decode exactly when they are the form of some string, and to that string: no overlong form, surrogate or number past U+10FFFF |
| Utf8.CharBytes | src/adapters/storage/binary_file.rs:131-134 | the bytes of every character, the four forms of section 3 of RFC 3629 |
| Adler32.Compute | src/adapters/storage/binary_file.rs:92-100 | the loop of wrapping additions never wraps and computes the two modular sums of section 2.2 of RFC 1950 |
| Adler32.ChecksumSteps | src/adapters/storage/binary_file.rs:92-100 | the checksum of nothing is 1; with one more byte the low half adds the byte and the high half the new low one, both modulo 65521 |
| Adler32.SubstitutionDetected | src/adapters/storage/binary_file.rs:92-100 | changing one byte changes the checksum |
| Adler32.SwapUndetected | src/adapters/storage/binary_file.rs:92-100 | swapping two bytes goes unnoticed exactly when 65521 divides distance times difference |
| Adler32.NearSwapDetected | src/adapters/storage/binary_file.rs:92-100 | swapping two different bytes at most 256 apart changes the checksum |
| Codec.StrRoundTrip | src/adapters/storage/binary_file.rs:206-211 | a written string reads back exactly when its UTF-8 form is shorter than 2^32 bytes |
| Codec.ValueRoundTrip | src/adapters/storage/binary_file.rs:213-225 | a written value whose text, if it is one, fits the 32-bit length reads back and the cursor ends after it |
| Codec.PropertiesRoundTrip | src/adapters/storage/binary_file.rs:227-236 | a property map that fits the 32-bit lengths reads back whatever order its entries were written in |
| Codec.RecordRoundTrip | src/adapters/storage/binary_file.rs:470-485 | an encoded record that fits the 32-bit lengths, at any offset, decodes to itself and the cursor ends after it |
| Codec.IdLayout | src/adapters/storage/binary_file.rs:275-294 | byte by byte: deletes and markers are types 3 to 7 and a little-endian id |
| Codec.NodeLayout | src/adapters/storage/binary_file.rs:254-261 | type 1, id, label and number of properties at their offsets, the properties from there on |
| Codec.EdgeLayout | src/adapters/storage/binary_file.rs:263-273 | type 2, id, source, target, label, weight and number of properties at their offsets |
| Codec.ValueLayout | src/adapters/storage/binary_file.rs:136-156 | the five value types with two's complement, float bits and UTF-8 text |
| Codec.EntryLayout | src/adapters/storage/binary_file.rs:158-164 | a key, its value, and the next one |
| Codec.ChecksumLayout | src/adapters/storage/binary_file.rs:248-252 | the checksum of a record follows it in four little-endian bytes |
| BinaryFile.FileReplay | src/adapters/storage/binary_file.rs:350-450 | a header and any encoded records replay, byte by byte, to the record-level fold |
| BinaryFile.HeaderExactly | src/adapters/storage/binary_file.rs:357-374 | of at least eight bytes, those that begin 0x41 0x47 0x44 0x42 2 0 0 0 replay and no others; of fewer, the empty graph |
| BinaryFile.DamagedRecordSkipped | src/adapters/storage/binary_file.rs:396-412 | a record with one byte substituted or two near bytes swapped, whose decoding ends where it did, is skipped |
| BinaryFile.DamagedLogReplay | src/adapters/storage/binary_file.rs:396-412 | replaying a log with such a record equals replaying the log without it |
| BinaryFile.AlteredRecordSkipped | src/adapters/storage/binary_file.rs:396-412 | damage that turns a record into the image of another one is skipped; the other one is never replayed in its place |
| BinaryFile.DamagedIdSkipped | src/adapters/storage/binary_file.rs:396-412 | any one byte of the id of any record changed: replay equals that of the log without the record |
| BinaryStorage.ByteBuffer.PutValue | src/adapters/storage/binary_file.rs:136-156 | appends exactly the encoding the round trips are about |
| BinaryStorage.ByteBuffer.PutProperties | src/adapters/storage/binary_file.rs:158-164 | appends the entries of the map, each once, in some order |
| BinaryStorage.EncodeNode | src/adapters/storage/binary_file.rs:254-261 | the bytes are a checksummed image of the upsert, with some order of its properties |
| BinaryStorage.EncodeEdge | src/adapters/storage/binary_file.rs:263-273 | the same for an edge |
| BinaryStorage.EncodeId | src/adapters/storage/binary_file.rs:275-294 | the same for deletes and markers |
| BinaryStorage.Cursor.TakeProperties | src/adapters/storage/binary_file.rs:227-236 | reading step by step equals the decoding function, result and cursor, on every input |
| BinaryStorage.Cursor.TakeRecord | src/adapters/storage/binary_file.rs:470-485 | the same for whole records |
| BinaryStorage.ReplayLoop | src/adapters/storage/binary_file.rs:350-450 | the replay loop computes the replay function on every byte sequence, bad headers included |
| BinaryStorage.ApplyOrBuffer | src/adapters/storage/binary_file.rs:487-513 | updates the two maps and the buffer as one step of the record-level machine |
| BinaryStorage.BinaryFileStorage.Save | src/adapters/storage/binary_file.rs:518-546 | the file stays a valid image of its log, one record longer |
| BinaryStorage.BinaryFileStorage.Load | src/adapters/storage/binary_file.rs:350-450 | loads what the log of the file loads |
| BinaryStorage.BinaryFileStorage.LoadNode | src/adapters/storage/binary_file.rs:523-526 | a point lookup answers from what the whole log loads |
| BinaryStorage.BinaryFileStorage.Compact | src/adapters/storage/binary_file.rs:558-591 | the file becomes a valid image of a compaction of its log |
| LogStorage.LogStorage.Load | src/adapters/storage/json_file.rs:78-110 | the replay loop computes the record-level fold |
| LogStorage.LogStorage.Compact | src/adapters/storage/json_file.rs:150-192 | the log becomes one upsert per live record, nodes first, in some order |
| Engine.AdjacencyListEngine.InsertEdge | src/adapters/engine/adjacency_list.rs:61-75 | the entry goes last in the list of the source on one side and of the target on the other; the maps go on mirroring the graph, with both ends among its nodes, exactly when the edge id was unused and the edge is a loop or both ends were nodes |
| Engine.AdjacencyListEngine.RemoveEdge | src/adapters/engine/adjacency_list.rs:77-89 | the lists mirror the graph without the edge, the other entries in their order; an unknown id changes nothing |
| Engine.AdjacencyListEngine.RemoveNode | src/adapters/engine/adjacency_list.rs:44-59 | exactly the node and the edges touching it go, self-loops and parallel edges included, and the other entries keep their order |
| Engine.AdjacencyListEngine.NeighborsOutgoing | src/adapters/engine/adjacency_list.rs:91-93 | lists exactly the edges leaving the node, each once |
| Engine.AdjacencyListEngine.NeighborsIncoming | src/adapters/engine/adjacency_list.rs:95-97 | lists exactly the edges entering the node, each once |
| Engine.WithEdgeRepresents | src/adapters/engine/adjacency_list.rs:61-75 | the same of the three maps as a value |
| Engine.BrokenForGood | src/adapters/engine/adjacency_list.rs:61-75 | and otherwise they represent no graph at all |
| Engine.WithEdgeMirrors | src/adapters/engine/adjacency_list.rs:61-75 | whatever the ends, the lists hold exactly the edges afterwards, one entry per edge and direction, just when the edge id was unused |
| Bfs.Traverse | src/algorithms/bfs.rs:28-52 | lists exactly the reachable nodes, each once, in non-decreasing true hop distance, those of one distance in the order in which the lists of the nodes before first lead to them; nothing for a missing start |
| Bfs.NoShorterWalk | src/algorithms/bfs.rs:38-49 | once everything met is expanded, no walk beats the recorded one |
| Dfs.Traverse | src/algorithms/dfs.rs:26-51 | the loop with a stack of duplicates yields exactly the recursive preorder that tries neighbours last to first |
| Dfs.DepthFirstReaches | src/algorithms/dfs.rs:26-51 | that preorder holds every reachable node once and no other |
| Dfs.GoesDeepFirst | src/algorithms/dfs.rs:26-51 | told without the recursion: every node after the start is the last unvisited neighbour of the latest visited node that has one |
| Dfs.UnvisitedSuffice | src/algorithms/dfs.rs:43-47 | pushing only unvisited neighbours does not change the preorder, however many get visited before they are popped |
| Dfs.PreorderConcat | src/algorithms/dfs.rs:35-48 | trying two lists in turn is trying the first, then the second without what the first visited |
| Dijkstra.FindShortestPath | src/algorithms/dijkstra.rs:59-113 | terminates; None exactly when an endpoint is missing or every walk to the goal costs infinity; otherwise a real path of that left-to-right cost, minimal over all walks |
| Dijkstra.ReconstructPath | src/algorithms/dijkstra.rs:115-136 | following predecessors never loops and yields the stops of the recorded walk |
| Dijkstra.LowerBound | src/algorithms/dijkstra.rs:80-109 | no walk undercuts the expanded nodes or the frontier |
| Dijkstra.PopCurrent | src/algorithms/dijkstra.rs:80-94 | a heap entry that is not stale belongs to a node not expanded before |
| Dijkstra.RoundedLaws | src/algorithms/dijkstra.rs:97-100 | adding non-negative numbers and rounding the sum, exactly on numbers, monotone, with overflow to infinity, meets the laws asked of addition |
| LruCache.LruCache.GetNode | src/adapters/cache/lru.rs:90-98 | answers what is cached; a hit ends last in the list with the others in their order, a miss changes nothing |
| LruCache.LruCache.PutNode | src/adapters/cache/lru.rs:100-116 | a full store loses exactly the least recently touched entry |
| LruCache.LruCache.InvalidateNode | src/adapters/cache/lru.rs:118-120 | removes the entry and keeps the order of the others |
| LruCache.OldestKey | src/adapters/cache/lru.rs:62-73 | the entry with the least stamp is the front of the recency list |
| LruCache.StampRefines | src/adapters/cache/lru.rs:56-59 | a fresh stamp keeps stamps distinct and puts the entry last |
| LruTrace.EvictsLeastRecent | src/adapters/cache/lru.rs:62-116 | after any gets, puts and invalidations on an empty cache, a put of a new key into a full one gives up the cached key whose last hit or put lies furthest back, and no other put gives up anything |
| LruTrace.GetAnswers | src/adapters/cache/lru.rs:90-98 | what is cached under a key is the value of the last put of it |
| LruTrace.Play | src/adapters/cache/lru.rs:90-120 | the cache object, driven by any calls, does what the trace says |
| LabelIndex.InsertExact | src/adapters/index/label_index.rs:38-42 | registering a node keeps every bucket exact precisely when its id was not live |
| LabelIndex.RemoveExact | src/adapters/index/label_index.rs:44-53 | removing a live node under its label, or a dead id under any, keeps every bucket exact |
| LabelIndex.LabelIndex.Get | src/adapters/index/label_index.rs:55-58 | lists the live nodes with the label, each once |
| PropertyIndex.AddExact | src/adapters/index/property_index.rs:129-136 | indexing a new node keeps every bucket of every field exact |
| PropertyIndex.RemoveExact | src/adapters/index/property_index.rs:139-145 | the same for removal |
| PropertyIndex.PropertyIndex.InsertNode | src/adapters/index/property_index.rs:129-136 | the loop over the properties, in any order, files the id under each of them once |
| PropertyIndex.PropertyIndex.RemoveNode | src/adapters/index/property_index.rs:139-145 | the loop takes the id out of the bucket of each property and touches no other |
| PropertyIndex.PropertyIndex.Query | src/adapters/index/property_index.rs:154-161 | none without an index for the field; otherwise exactly the matching nodes, each once |
| PropertyIndex.RangeQuery | src/adapters/index/property_index.rs:190-220 | the lookup, the filter and the four ranges of the ordered map each gather exactly the ids whose key passes the operator |
| IdGenerator.IdGenerator.SeedFromNode | src/core/id_generator.rs:34-38 | afterwards the counter is past the id and has not moved back, exactly when the id is not the greatest one |
| Transaction.Transaction.StageInsertNode | src/transaction/mod.rs:92-102 | staged ids stay distinct and past the counters from when the transaction began |
| Transaction.Transaction.SeedGeneratorInto | src/transaction/mod.rs:145-153 | the target ends past every staged id and never moves back |
| GraphOps.CascadeEffect | src/database/layered.rs:187-212 | edge tombstones for all edges of a node, then its own, remove exactly the node and its edges |
| GraphOps.NeverDanglesCascade | src/database/layered.rs:187-212 | cut between the tombstones of a cascade, the log still has no dangling edge |
| GraphOps.NeverDanglesBracket | src/adapters/storage/binary_file.rs:380-450 | inside a bracket the log keeps loading the graph from before, at every record boundary |
| GraphOps.NeverDanglesCompact | src/adapters/storage/binary_file.rs:558-591 | a compacted log has no dangling edge at any record boundary |
| CommitLog.CommitReplays | src/adapters/storage/binary_file.rs:419-430 | replaying a committed bracket gives the running graph without every record a staged delete names, so all of it exactly when none of those is live in the end |
| CommitLog.CommitDurable | src/database/layered.rs:463-520 | the committed log stands for the running graph under that condition and only then; some record boundary of it loads a dangling edge exactly when an edge it keeps ends in a node it takes away |
| CommitLog.CommitDangles | src/database/layered.rs:463-520 | three operations a transaction can stage on the empty graph: the commit succeeds and its log loads one edge and no node |
| CommitLog.BracketAtEnd | src/adapters/storage/binary_file.rs:419-450 | cut anywhere before its last record, a bracket has no effect |
| CommitLog.ResultReports | src/database/layered.rs:473-520 | each of the four lists of the answer has one entry per operation of its kind, and the entry of an operation stands at the number of such operations before it |
| CommitOutcome.DeletesStickExactly | src/database/layered.rs:473-514 | every staged delete sticks exactly when no later operation inserts for good the node or edge it deletes |
| CommitOutcome.EndsKeptExactly | src/database/layered.rs:473-514 | no edge the commit keeps loses an end exactly when no operation inserts for good, at a node an earlier one deletes, an edge that no operation deletes by name |
| CommitOutcome.NodeAfter | src/database/layered.rs:476-487 | an inserted node is live in the end exactly when it is not deleted later |
| CommitOutcome.EdgeAfter | src/database/layered.rs:488-513 | an inserted edge is live in the end exactly when neither it nor one of its ends is deleted later |
| CommitOutcome.NodesExactly | src/database/layered.rs:473-514 | the nodes after the operations, from those before and the operations alone: an insert or a node from before, deleted by none of the later ones |
| CommitOutcome.EdgesExactly | src/database/layered.rs:473-514 | the same for the edges, which also go with their ends |
| GraphOps.RunOpsFails | src/database/layered.rs:490-497 | the operations stop exactly at the first edge without an endpoint, with the endpoint that is missing, the source first |
| CommitOutcome.FailedCommit | src/database/layered.rs:490-497 | a failed commit leaves the graph as it was exactly when the operations before the failing one delete nothing that was live and take away again whatever they insert |
| CommitOutcome.FailureLeavesNode | src/database/layered.rs:490-497 | a node insert followed by an edge from a missing node fails and leaves the node live |
| CommitLog.ReuseIsLost | src/adapters/storage/binary_file.rs:419-430 | deleting the next id and then inserting breaks it |
| CommitLog.AbortDurable | src/database/layered.rs:490-497 | a bracket given up after an error loads the graph from before |
| CommitLog.ReadsThrough | src/database/layered.rs:174-185 | inside a bracket storage still serves every node the bracket did not write |
| CommitLog.OwnInsertUnread | src/adapters/storage/binary_file.rs:523-526 | but not a node the bracket inserted |
| CommitRun.CommitKeeps | src/database/layered.rs:463-520 | with no compaction due on the way, a log with markers ends at the live graph without what the staged deletes name |
| CommitRun.CommitLogsLater | src/database/layered.rs:529-539 | after a compaction on the way it ends at the graph from before with only the operations after the first delete that compacts |
| CommitRun.CommitUpToDate | src/database/layered.rs:463-539 | a successful commit leaves a log with markers at the live graph exactly when, with no compaction due, no insert is lost to an earlier delete, and otherwise when all that the operations up to the compaction removed is deleted again later and nothing they added is live in the end |
| CommitRun.FailedCommitKeeps | src/database/layered.rs:490-497 | a failed commit leaves such a log at the graph from before, unless a compaction came on the way |
| CommitRun.CommitUnmarked | src/ports/storage.rs:78-94 | without markers the log ends at the live graph, clean, and the indexes exact, whether the commit succeeds or not |
| CommitRun.IndexesExactly | src/database/layered.rs:187-212 | after a commit, whole or failed, the indexes list exactly the live nodes just when no read before a deletion missed a live node |
| CommitRun.NoReadMisses | src/database/layered.rs:174-185 | no read misses when no operation deletes a node the transaction inserted |
| CommitRun.CompactionDropsBracket | src/database/layered.rs:529-539 | a node insert and a delete that makes a compaction fall due: the commit succeeds and the log loads the graph from before |
| CommitRun.EvictedNodeStaysIndexed | src/adapters/cache/lru.rs:100-116 | with room for one node, a node inserted and deleted after another insert stays in the indexes |
| CommitTrace.FollowsNext | src/database/layered.rs:473-514 | one operation and the compaction it may cause take the log where the session on values goes: what it loads, whether it ever dangles, whether the bracket is open |
| CommitTrace.FollowsEnd | src/adapters/storage/binary_file.rs:419-450 | the record that ends the bracket does, in an open bracket or in none |
| CommitTrace.OperationLogged | src/database/layered.rs:187-212 | outside a bracket the records of an operation change the loaded graph alike, and the log dangles nowhere exactly when it did not before and does not after the last of them |
| CommitTrace.MarkedCommit | src/database/layered.rs:463-520 | with no compaction due: the log stands for the live graph exactly when no insert is lost, and dangles somewhere exactly when an edge is left without an end |
| Memory.InsertNodeUsable | src/database/layered.rs:146-172 | an insert keeps engine, cache, indexes and counters in step with the graph exactly when the id was not indexed |
| Memory.IndexTells | src/adapters/index/label_index.rs:55-58 | a label index is exact for one set of nodes at most, of two where one holds the other |
| Memory.InsertEdgeUsable | src/database/layered.rs:216-241 | the same for a new edge between live nodes |
| Memory.DeleteNodeCoherent | src/database/layered.rs:187-212 | a node delete leaves the indexes exact, and all layers in step, exactly when the read before it did not miss a live node |
| Memory.DeleteEdgeUsable | src/database/layered.rs:256-263 | an edge delete keeps them in step |
| Memory.SameBuckets | src/database/layered.rs:98-142 | layers in step with one graph have the same label and property buckets up to order |
| Database.Database.OpenWithConfig | src/database/layered.rs:98-142 | whatever the log loads, every layer holds it, lists of edges without ends included; all layers are in step with it exactly when no loaded edge dangles |
| Database.Database.InsertNode | src/database/layered.rs:146-172 | adds the node under a fresh id; layers stay in step and the log stays faithful, compaction or not |
| Database.Database.GetNode | src/database/layered.rs:174-185 | on a faithful log the answer is the live node, whatever the cache holds |
| Database.Database.DeleteNode | src/database/layered.rs:187-212 | removes exactly the node and its edges from graph, layers and log; the indexes let go of it exactly when a read finds it |
| Database.Database.InsertEdge | src/database/layered.rs:216-241 | refuses a missing endpoint without a change, else adds the edge under a fresh id |
| Database.Database.DeleteEdge | src/database/layered.rs:256-263 | removes exactly the edge |
| Database.Database.AllNodes | src/database/layered.rs:267-274 | all live nodes, each once |
| Database.Database.AllEdges | src/database/layered.rs:316-323 | all live edges, each once |
| Database.Database.NodesByLabel | src/database/layered.rs:276-283 | exactly the live nodes with the label, each once |
| Database.Database.NodesByProperty | src/database/layered.rs:286-314 | exactly the nodes whose property stands in the relation to the value, texts by their first difference, by index or by the scan that stands in for it |
| Database.Database.Compact | src/database/layered.rs:404-410 | the log loads the same graph and the layers stay in step |
| Database.Database.OnWrite | src/database/layered.rs:529-539 | a counted write keeps the loaded graph; the one that reaches the threshold compacts and starts the count anew, any other keeps the log |
| Database.Database.CommitTransaction | src/database/layered.rs:463-520 | graph and answer are those of the operations in order up to the first edge without an endpoint, and the answer names every operation once, in the list of its kind and in order; log, cached nodes and indexes end as `Commit` says, compactions on the way included; with no compaction due, the written log cut before its last record loads the graph from before, and the contract says from the operations alone when the whole log keeps up and when it has a dangling edge |
| Database.Database.RollbackTransaction | src/database/layered.rs:522-525 | moves the counters past the staged ids and changes nothing else |
| Database.Reopen | src/database/layered.rs:98-142 | reopening a faithful log brings back graph and buckets, and new ids stay clear of live ones |
| Database.StagedFresh | src/database/layered.rs:459-461 | ids staged past the counters are new to the graph |
| FileBacked.FileLoads | src/adapters/storage/binary_file.rs:350-450 | the bytes of a file that holds the log of the database replay to the running graph |
| FileBacked.ReopenFile | src/database/layered.rs:98-142 | opening on those bytes brings back graph and buckets, and new ids stay clear of live ones |
| FileBacked.WriteFile | src/adapters/storage/binary_file.rs:518-546 | a log whose records fit the format can be written to a file record by record |
| FileBacked.GrownFits | src/adapters/storage/binary_file.rs:136-164 | a log goes on fitting the format as long as what is inserted does |
| Runs.Run | src/database/layered.rs:146-263 | every run of inserts, deletes, commits, rollbacks, reads and compactions, with markers or without, keeps the layers in step with one graph that alone explains all answers, and a log that fits the file format fitting; log and indexes keep up unless the last call was a commit that was given up, deletes a node or loses an insert of its own, or compacted on the way |
| Runs.ScriptOps | src/transaction/mod.rs:92-129 | a script that deletes only nodes from before it, and edges whose id it was given by then, stages operations that delete no node they insert and insert no id they deleted |
| QueryAst.IndexAgreesWithScan | src/query/ast.rs:139-160 | index and scan agree on a pair exactly when it has no float, is an integer and a float the scan refuses, or is two floats of the listed kinds: numbers under the order operators always, under the others unless close and unequal or infinite |
| QueryAst.FiveIsMissed | src/query/ast.rs:144 | 5 and 5.0 are equal to the scan and not to the index |
| QueryAst.LastRules | src/query/languages/simple.rs:196-285 | of several labels or weights in a chain of conditions the last one counts |
| QueryAst.ConditionsAddUp | src/query/languages/simple.rs:196-285 | the property conditions of a chain all count, in order |
| TextOrder.FirstDifference | src/query/ast.rs:162-171 | a text is smaller exactly when it ends, or has the smaller character, at the first difference |
| TextOrder.Utf8Order | src/adapters/index/property_index.rs:190-220 | that is the order of the UTF-8 bytes |
| Conditions.ValuesCompare | src/query/ast.rs:139-160 | what each operator says of two values of each pair of kinds, with the stored one on the left |
| Conditions.NodesCompare | src/query/ast.rs:54-65 | a node passes exactly when it has the label and meets every condition |
| Conditions.EdgesCompare | src/query/ast.rs:77-93 | an edge passes exactly when it has the label, its weight stands in the relation to the given one, and it meets every condition |
| Conditions.IndexSelects | src/adapters/index/property_index.rs:190-220 | the same for what an index selects |
| Floats.IeeeLaws | src/query/ast.rs:151-160 | the laws hold of doubles as bit patterns in their numeric order |
| Floats.NumberFields | src/query/ast.rs:151-160 | the exponent of all ones is for the infinities, with fraction 0, and the NaNs |
| Floats.FiniteNumeric | src/query/ast.rs:151-160 | finite doubles compare, by value and by key, as the numbers that sign, exponent and fraction stand for |
| Planner.BestIsBest | src/query/planner.rs:229-239 | none exactly when no condition is indexed, else the first of least rank |
| Planner.ChosenCondition | src/query/planner.rs:229-251 | of the indexed conditions the first with `=`, failing that the first order operator, and `!=` last of all |
| Planner.CheapestPlan | src/query/planner.rs:169-213 | the plan of least estimate: one below the full scan if there is any, and of equal ones the property index |
| Planner.PlanKeepsMeaning | src/query/planner.rs:169-213 | whatever the statistics, the chosen plan finds exactly what the full scan finds, exactly when index and scan agree on the nodes that meet the rest of the filter |
| Planner.UnmixedPlans | src/query/planner.rs:169-213 | they do whenever no condition meets a number of the other kind, or a float under = or != or as NaN |
| Planner.PlanMissesFive | src/query/planner.rs:178-198 | a property scan for = 5.0 misses the node holding 5 that the full scan finds |
| Planner.IndexScanExact | src/adapters/index/property_index.rs:98-113 | for one condition the index finds the scan's answer exactly when they agree on every live node |
| Planner.RemainingMatches | src/query/planner.rs:186-190 | taking out the condition, with those equal to it, and checking it on its own keeps the filter |
| Executor.ScanNodes | src/query/executor.rs:46-72 | each scan plan returns the nodes it finds, each once |
| Executor.Execute | src/query/executor.rs:20-112 | the answer to every command is the one its lookup, search or count has on the live graph; an edge match answers exactly the live edges with the label whose weight and properties stand in the given relations, and a node match does so exactly when index and scan agree on what the plan asks |
| Executor.ListsFollow | src/adapters/engine/adjacency_list.rs:91-97 | the lists the searches follow hold exactly the live edges |
| Lexical.U64RoundTrip | src/query/languages/simple.rs:378-383 | a printed 64-bit number parses back |
| Lexical.I64RoundTrip | src/query/languages/simple.rs:374-375 | a printed signed number parses back, the least one included |
| Lexical.U64Exactly | src/query/languages/simple.rs:378-383 | what parses: an optional plus and digits whose number fits |
| Lexical.I64Exactly | src/query/languages/simple.rs:374-375 | an optional sign and digits whose number fits |
| Lexical.AsciiCase | src/query/languages/simple.rs:139-147 | keywords match in any case of the 26 letters and of nothing else |
| Lexical.LeadingDigit | src/query/languages/simple.rs:374-383 | digits count by the power of ten of their place |
| SimpleQuery.Tokenize | src/query/languages/simple.rs:82-113 | the loop over characters computes the token function on every input |
| SimpleQuery.TokenizeSpread | src/query/languages/simple.rs:82-113 | words and quoted texts written with any blanks between them are read back as they are |
| SimpleQuery.NodeChainReads | src/query/languages/simple.rs:196-232 | any chain of printed clauses is folded into the filter, a later label replacing an earlier one |
| SimpleQuery.PrintedParses | src/query/languages/simple.rs:157-398 | parsing the printed tokens of a command gives the command, in any case of the keywords |
| SimpleQuery.RoundTrip | src/query/languages/simple.rs:66-73 | the text of any printable command means that command, in any spelling and layout |
| SimpleQuery.Parser.NodeFilterChain | src/query/languages/simple.rs:196-209 | the loop equals the recursive chain, error cases and tokens left included |
| SimpleQuery.Parser.Parse | src/query/languages/simple.rs:157-169 | the cursor-moving parser equals the function on token lists, error cases included |
| CypherLite.Tokenize | src/query/languages/cypher_lite.rs:108-212 | the lexer loop computes the lexing function on every input, error cases included |
| CypherLite.LexSpread | src/query/languages/cypher_lite.rs:108-212 | printed tokens are read back as they are, with white space only where two would run together |
| CypherLite.LexPanics | src/query/languages/cypher_lite.rs:188-190 | a text makes the lexer panic exactly when one of its tokens is a node reference above 64 bits and the text before it lexes |
| CypherLite.BigReferencePanics | src/query/languages/cypher_lite.rs:188-190 | the printed reference of any greater number does |
| CypherLite.Parser.IsRelationshipPattern | src/query/languages/cypher_lite.rs:287-304 | the lookahead loop computes its recursive form |
| CypherLite.RelPatternTold | src/query/languages/cypher_lite.rs:287-304 | which says: a dash, before any WHERE or RETURN, after a parenthesis that leaves none open |
| CypherLite.Parser.Parse | src/query/languages/cypher_lite.rs:256-267 | the cursor-moving parser equals the function on token lists, error cases included |
| CypherLite.AddAllKeeps | src/query/languages/cypher_lite.rs:416-442 | edge conditions come through unchanged exactly when none has the key `weight` |
| CypherLite.WeightReads | src/query/languages/cypher_lite.rs:416-442 | the key `weight`, in any case, sets the weight condition with the same operator, from an integer as the float it converts to; with another value it is an error, and any other key is a property condition |
| CypherLite.PrintedParses | src/query/languages/cypher_lite.rs:256-488 | the parser undoes the printer exactly when no property condition of an edge match has the key `weight` |
| CypherLite.RoundTrip | src/query/languages/cypher_lite.rs:565-569 | the same for whole texts, in any spelling and layout |
| Languages.LanguagesAgree | src/query/languages/cypher_lite.rs:1-8 | one command written in both languages is read as that command by the first, and by the second exactly when no edge property key is `weight` |
| Texts.SimpleLookups | src/query/languages/simple.rs:28-42 | what the lookup, search and count texts mean, word by word |
| Texts.SimpleNodeMatch | src/query/languages/simple.rs:28-42 | what a node match text means, for every label, key, operator and number |
| Texts.SimpleEdgeMatch | src/query/languages/simple.rs:28-42 | the same for an edge match |
| Texts.CypherLookups | src/query/languages/cypher_lite.rs:29-42 | what the search and count texts of the other language mean |
| Texts.CypherNodeMatch | src/query/languages/cypher_lite.rs:29-42 | what its node match text means |
| Texts.CypherEdgeMatch | src/query/languages/cypher_lite.rs:29-42 | what its edge match text means |

## Left out

- File handles, renaming, syncing and I/O errors: the log is a byte or record sequence, and replacing it is one step.
- The JSON text of a record: the JSON adapter is modelled as a record list only.
- A record torn in the middle at the end of the file, and appends after an unterminated bracket.
- Database.Database.CommitTransaction: asks for a log that is up to date, and that the staged ids are unused, which `Database.StagedFresh` gives when nothing was inserted since the transaction began.
- Database.Database.DeleteNode: asks that storage serves the node, if at all, as the indexes list it, which holds of a log that is up to date (`Runs.DurableReads`) and all through a commit (`CommitTrace.KnownNext`).
- Runs.Run: a run ends with a commit that is given up or that its caller could not vouch for beforehand (`Runs.MayCommit`); what other calls do when the log or the indexes are behind is not modelled, reads and deletes of one node excepted.
- Inserts ask for an id that is left, and opening that no loaded id is the greatest one: past it the counters wrap in a release build, as `IdGenerator` says, and stop a debug build.
- The width of the cache's access counter and of the write counter, which are unbounded here.
- BinaryFile.DamagedRecordSkipped: asks that the damage leaves the decoded length of the record alone; other damage makes replay read on from the middle of a record. `BinaryFile.AlteredRecordSkipped` and `BinaryFile.DamagedIdSkipped` give cases where it does.
- Negative or NaN weights in the search for shortest paths, and concrete IEEE 754 arithmetic.
- The order of results that comes from hash maps and ordered maps: results are stated as contents, each once.
- Indexing of selected fields only: the database indexes every field.
- The cache that never holds anything, and capacities of zero, which the constructor refuses.
- Planner statistics as counted by the database: plans are proved for any statistics.
- Lexer errors on the path that executes a query: the original drops them there and reports an empty query instead; the model reports the error.
- Whether a weight written as an integer literal is the same float in both languages: one converts the integer, the other reads the literal as a float.
- Error message texts, metrics, timing, EXPLAIN output and display formats.
- The server, the lock wrapper, the command line and the demonstration programs.
