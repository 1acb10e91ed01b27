# MemHop, verified in Dafny

MemHop is a multi-agent memory library over one append-only file. This project models the parts of it that are hard
to get right, and proves what they promise: the storage engine with its crash recovery, the domain-lock protocol, the
graph delete that never holds two locks, the L1 network under decay, the L2 conversation (scenes, turns, the topic
tree and its cache), the L5 plan tree, the L4 content mirror, and the L3 graph walk and import.

`dafny verify dfyconfig.toml` checks everything; Dafny 4.11.

## How the modules fit

| files | what they model |
|---|---|
| `Bytes`, `Frame`, `Snapshot`, `Header` | the on-disk codecs, byte by byte |
| `Recovery` | the record scan, the resync past residue, the legacy walk |
| `Durability`, `Reopen`, `CrashSafety`, `HeaderLoss` | every engine call as disk steps, what a stop after any byte leaves, and what Open makes of it; the run theorem, and the one way a run can cost a file |
| `TypeIndex`, `Compaction`, `Engine` | the engine object itself: a class whose methods perform those steps and keep both indexes |
| `Locks`, `LockCalls` | contextFor, lockAgent, lockOpen, lockSharedPool, the idle sweep, background Dreams and Close as interleaved steps; and who is let in, refused or sent back |
| `Anchors`, `AnchorCalls` | scene anchors against the two-phase DeleteL3, as interleaved steps; and what a merge, an anchored create and a rewrite leave in a scene |
| `Engram`, `EngramFading`, `EngramRuns` | L1 nodes and edges: sync, edge building, stale rebuild, decay; how fast they fade; and which runs of them end with nodes and edges that agree |
| `L2Meta`, `Topics`, `Conversation` | the topic cache with its shared rows, the topic forest, and the domain's turn machine with Dream, merge and delete |
| `PlanTree`, `Plan` | plan views, subtree, rollup, and ordinals against two separately ageing stores |
| `Archive`, `ArchiveStore` | the Seq-sorted content mirror, slot allocation, the three query paths |
| `GraphWalk`, `GraphImport` | the bounded walk over a hypergraph, and importing into one |

Where the source changes things step by step the model is a class with those fields and a `while` or `for` per source
loop; where it is a protocol the model is a state machine over its steps. A map or set the source ranges over in random
order is iterated here by an arbitrary choice, so every result holds for every iteration order.

### What is taken as given

- The checksum is a parameter. The hypotheses about it are the ones the code relies on: a torn header write reads back
  as nothing, as the old header or as the new one (`Durability.TornHeader`), and at a restart no offset inside residue
  happens to decode (`CrashSafety.NoAccident`).
- Id hashes are injective: they are parameters with that hypothesis, or are identified with what they are derived from.
- Written record types are nonzero, as all of the program's are, so no frame looks like the zero-filled tail that ends
  a scan. A truncation is one metadata change. Fresh random scene ids do not repeat.
- The clock, model replies, keyword extraction and profile reads are inputs. Weights are reals, and the exponential is
  a function parameter.
- Storage calls do not fail, except by the process stopping, and except for frame writes (`Durability.UndoInv`).

### What turned out otherwise than documented

- A trim that is stopped inside its header write leaves one readable header; Open then rewrites that header in place.
  If that write is torn as well, neither header reads back and the file no longer opens. `HeaderLoss.CrashesCanLoseAFile`
  is such a run. `CrashSafety.EveryRunKeepsItsLog` and `CrashSafety.EveryCrashReopens` say that a run keeps its file
  exactly when no interrupted Open takes the last readable header, `HeaderLoss.OneHeaderCutIsSurvived` that it takes two
  crashes inside header writes, `HeaderLoss.SpareHeaderIsEnough` that a readable inactive header before each interrupted
  Open rules it out.
- `DeleteL3` is documented to leave no anchor behind. A Close between its two phases makes the detach skip the domains
  it has not reached, and the delete reports success (`Anchors.CloseCanStrandAnAnchor`); a process that stops there
  leaves a reopened file with a dangling anchor that no second delete can clear (`Anchors.StopCanStrandAnAnchor`).
  `Anchors.NoAnchorOutlivesItsGraph` says that an anchor dangles only in a domain which the delete of that very graph
  was kept from, by Close, a stop or a refused write; `Anchors.OrderlyRunsAreSafe` gives the condition on the host.
- A merge deletes the secondary's L1 node before anything else, so that a merge that stops there can have it rebuilt.
  The rebuilt node does not know the edges that still name it. Edge building tells it again exactly when the edge is
  written, and a decay pass keeps an edge whose members are live, so node and edge can disagree after a completed pass
  (`EngramRuns.RevivedNodeStaysDeaf`). `EngramRuns.ExactAfterDecay` says exactly when they agree,
  `EngramRuns.PatientRunsAreExact` that they do when no scene is synced between the delete of its node and the next pass.
- The ids-only path of `QueryArchivesL4` answers a repeated id twice where a full scan answers once; the two agree
  exactly when the limit cuts off all but one row of each repeated id (`ArchiveStores.ArchiveStore.QueryArchives`).
- Slot allocation wraps after 2^64-1 (`Archives.LastSlotWraps`): `Archives.AllocateSlots` says, from what the topic
  holds and the batch names, exactly when an allocated slot is above everything.
  Plan ordinals wrap after 2^32-1, and the create is then refused (`Plans.PlanTurn.CreateNode`).
- `Subtree` is documented to answer an unknown root with just itself; it also answers the live steps that still hang
  on that swept root. `Union` is documented to remove duplicates; it keeps those of its first list. The header version
  is documented as a lower bound; any other version is refused. The code is followed in each case.

## Model

| member | source | states |
|---|---|---|
| Frames.EncodeRecord | internal/repo/core/frame.go:51-63 | filling the buffer in place yields the frame layout, checksum over header and payload included |
| Frames.DecodeEncoded | internal/repo/core/frame.go:51-110 | an encoded frame, wherever it stands in the area, decodes back to itself |
| Frames.EncodeDecoded | internal/repo/core/frame.go:68-110 | whatever decodes is, byte for byte, the encoding of what it decodes to |
| Frames.TornFrame | internal/repo/core/frame.go:68-110 | no proper nonempty prefix of a frame at the end of the file decodes |
| Frames.ConcatenationRoundTrip | internal/repo/core/frame.go:51-110 | any concatenation of frames decodes back to those frames, in order |
| Snapshots.BuildSnapshot | internal/repo/core/snapshot.go:26-50 | for every order the two maps are ranged over, the blob is a listing of the index; it parses back to the index without its empty domains, and its length is found |
| Snapshots.ParseSnapshot | internal/repo/core/snapshot.go:53-69 | the parsing loop computes the reference parse, refusals included |
| Snapshots.ParseSnapshotAgent | internal/repo/core/snapshot.go:94-112 | one section decodes exactly when it is whole, and where the next begins |
| Snapshots.ParseUndoesBuild | internal/repo/core/snapshot.go:26-112 | parsing undoes building up to empty domains, and exactly when there is none |
| Snapshots.BlobLengthIgnoresSuffix | internal/repo/core/reclaim.go:21-43 | the blob's end is found whatever bytes follow it |
| Snapshots.ParsedIsBlob | internal/repo/core/snapshot.go:53-112 | what parses starts with a whole blob of the sections it parses to and ends in the checksum of the rest |
| Snapshots.FoundIsBlob | internal/repo/core/reclaim.go:21-43 | where a blob's end is found a whole blob stands, head and sections, with room for its checksum |
| Headers.HeaderRoundTrip | internal/repo/core/header.go:65-110 | a header whose fields fit their widths reads back as written |
| Headers.ReadsBackExactly | internal/repo/core/header.go:65-110 | a block reads back as a header exactly when it carries its fields, both magics, the supported version and the checksum over all before it |
| Headers.DecodedFits | internal/repo/core/header.go:82-110 | what reads back has fields within their widths and the one supported version |
| Recovery.ResyncScan | internal/repo/core/engine_recovery.go:92-99 | the first decodable offset at or after the start, or none |
| Recovery.ScanRecords | internal/repo/core/engine_recovery.go:28-87 | the scan loop computes the reference scan: index, end and truncation |
| Recovery.ScanLayout | internal/repo/core/engine_recovery.go:28-99 | over any layout of frames, snapshot blobs and torn tail the scan recovers the last-writer-wins index of the frames and stops behind the last one |
| Recovery.WalkLayout | internal/repo/core/engine_recovery.go:136-155 | the walk over frames and blobs ends where the last frame ends |
| Durability.BatchInv | internal/repo/core/engine_write.go:41-102 | a batch, trim included, extends the log by exactly its frames and keeps the engine in step with its disk |
| Durability.TrimCut | internal/repo/core/reclaim.go:47-76 | a trim stopped anywhere leaves a disk with the same frames |
| Durability.BatchCut | internal/repo/core/engine_write.go:41-92 | a batch stopped after any byte of any step leaves the old frames and a whole-frame prefix of the batch |
| Durability.UndoInv | internal/repo/core/engine_write.go:71-102 | a batch whose frame write fails after any byte, once undone, leaves byte for byte what the trim before it left, and the same log |
| Durability.CheckpointInv | internal/repo/core/engine_lifecycle.go:268-306 | a checkpoint keeps the log and leaves the new header naming a blob that is the whole index |
| Durability.CheckpointCut | internal/repo/core/engine_lifecycle.go:268-295 | a checkpoint stopped inside the blob or the header loses no frame |
| Reopen.SnapshotOpenInv | internal/repo/core/engine_lifecycle.go:66-112 | opening through a snapshot gives an engine in step with the same frames |
| Reopen.ScanOpenInv | internal/repo/core/engine_lifecycle.go:66-112 | opening by full scan, with a missing or unreadable snapshot, does too |
| Reopen.OpenInv | internal/repo/core/engine_lifecycle.go:66-184 | every disk a crash may leave opens, to an engine that holds exactly its frames |
| Reopen.RecordEndOfEitherAge | internal/repo/core/engine_recovery.go:119-134 | a record end the header carries is taken while it lies between data and snapshot inside the file; a file without one gives the end of its last frame, 0 where there is none |
| CrashSafety.ReplayAgrees | internal/repo/core/engine_recovery.go:28-78 | every live offset of a replayed layout reads back the last write of its key |
| CrashSafety.ReadsAnswerAsMap | internal/repo/core/engine_read.go:15-38 | a read answers as a plain (agent, id) map of the log would |
| CrashSafety.ActiveSlotCut | internal/repo/core/engine_lifecycle.go:170-184 | the in-place header rewrite stopped anywhere: the file still opens exactly when the other slot reads back |
| CrashSafety.OpenCut | internal/repo/core/engine_lifecycle.go:66-112 | an Open stopped anywhere leaves the same frames, unless it took the last readable header |
| CrashSafety.OpenCutExactly | internal/repo/core/header.go:138-163 | an interrupted Open costs the file exactly when the other slot is refused before it and the cut leaves the active one refused |
| CrashSafety.EveryRunKeepsItsLog | internal/repo/core/engine_lifecycle.go:66-112 | over every run of batches, failed batches, checkpoints, halts and restarts, any of them stopped after any byte, the state holds exactly the completed batches, nothing of the failed ones and a whole-frame prefix of each one a crash cut short; it does so exactly when no interrupted Open took the last readable header, and is refused for good otherwise |
| CrashSafety.EveryCrashReopens | internal/repo/core/engine_lifecycle.go:66-112 | wherever such a run stopped, the file opens exactly when no interrupted Open took the last readable header, and then holds that log |
| HeaderLoss.LossTakesTwoHeaderCuts | internal/repo/core/header.go:138-163 | the Open that loses a file is itself stopped inside a header write, and so was an earlier event of the run |
| HeaderLoss.OneHeaderCutIsSurvived | internal/repo/core/engine_lifecycle.go:66-112 | a run with at most one crash inside a header write, and any number elsewhere, keeps its log |
| HeaderLoss.SpareHeaderIsEnough | internal/repo/core/engine_lifecycle.go:170-184 | so does a run in which every interrupted Open starts with its inactive header readable |
| HeaderLoss.TwoHeaderCutsLoseTheFile | internal/repo/core/reclaim.go:47-76 | from any engine whose tail snapshot the next batch trims, a crash in the trim's header write and one in the next Open's lose the file |
| HeaderLoss.CrashesCanLoseAFile | internal/repo/core/engine_lifecycle.go:170-184 | a run from a new file: write, checkpoint, crash in the trim, crash in the Open, and no Open succeeds again |
| CrashSafety.EveryRunReadsAsMap | internal/repo/core/engine_read.go:15-38 | after any such run every read answers as the plain map of that log |
| CrashSafety.SnapshotOpenIsFullScan | internal/repo/core/engine_lifecycle.go:151-166 | opening through the snapshot gives the index a full scan gives |
| CrashSafety.ReopenKeepsLog | internal/repo/core/engine_lifecycle.go:66-112 | a file left as it is reopens to the same log |
| TypeIndexes.RebuildByAgentType | internal/repo/core/engine_recovery.go:180-197 | the rebuild lists an id under a type exactly when its live frame has that type |
| TypeIndexes.InStepUnique | internal/repo/core/engine_recovery.go:180-197 | that determines the type index, so keeping it incrementally is the same as rebuilding it |
| TypeIndexes.WriteStep | internal/repo/core/engine_write.go:107-126 | a write moves its id to the new type and to nowhere else |
| TypeIndexes.DropStep | internal/repo/core/engine_delete.go:95-122 | a delete takes the id off its type and off nothing else |
| StorageEngines.StorageEngine.Create | internal/repo/core/engine_lifecycle.go:18-64 | a new engine is in step with an empty log |
| StorageEngines.StorageEngine.TrimTailSnapshot | internal/repo/core/reclaim.go:47-76 | the steps and the state of a trim, performed or not |
| StorageEngines.StorageEngine.AppendFrames | internal/repo/core/engine_write.go:74-92 | one frame per record at the end of the file, and where each one starts |
| StorageEngines.StorageEngine.UpdateIndexAfterWrite | internal/repo/core/engine_write.go:107-126 | both indexes follow the appended frames: the primary is their replay, the type index stays in step |
| StorageEngines.StorageEngine.WriteRecordBatch | internal/repo/core/engine_write.go:30-69 | a closed engine refuses unchanged; otherwise the log grows by the batch, the disk steps are the batch's, both indexes stay in step |
| StorageEngines.StorageEngine.BuildTombstones | internal/repo/core/engine_delete.go:75-91 | one tombstone per listed live id, and exactly the live ids with their offsets |
| StorageEngines.StorageEngine.ApplyDeletions | internal/repo/core/engine_delete.go:95-105 | the ids leave both indexes, an emptied domain goes too |
| StorageEngines.StorageEngine.DeleteRecordBatch | internal/repo/core/engine_delete.go:30-70 | the log grows by the tombstones in one write; the count is theirs |
| StorageEngines.DeletesAreRemovals | internal/repo/core/engine_delete.go:41-70 | on the map a delete batch removes exactly the listed ids of that domain, whether live, absent or repeated |
| StorageEngines.OneWriteCut | internal/repo/core/engine_delete.go:41-70 | the single write of all tombstones, cut anywhere, leaves what frame-by-frame writes leave |
| StorageEngines.TotalRecordsLocked | internal/repo/core/engine.go:132-138 | the domain sizes add up to the number of live (agent, id) keys |
| StorageEngines.StorageEngine.AppendSnapshot | internal/repo/core/engine_lifecycle.go:268-306 | blob first, header second, and the engine switches to that header |
| StorageEngines.StorageEngine.Checkpoint | internal/repo/core/engine_lifecycle.go:194-201 | the log is unchanged and the engine stays in step |
| StorageEngines.StorageEngine.Close | internal/repo/core/engine_lifecycle.go:206-219 | a last checkpoint, after which the engine is closed |
| StorageEngines.StorageEngine.ReadRecord | internal/repo/core/engine_read.go:15-38 | answers the map's value for the key, or not found, or closed |
| StorageEngines.StorageEngine.Contains | internal/repo/core/engine.go:51-59 | true exactly for the keys of the map of an open engine |
| StorageEngines.StorageEngine.IndexByType | internal/repo/core/engine.go:77-81 | exactly the ids of that domain whose record has that type |
| StorageEngines.StorageEngine.RestoreIndex | internal/repo/core/engine_lifecycle.go:151-166 | a readable snapshot, an unreadable one or none, told apart as the code does |
| StorageEngines.StorageEngine.OpenPlan | internal/repo/core/engine_lifecycle.go:66-112 | the steps and state of Open, imperative form against the reference |
| StorageEngines.StorageEngine.Open | internal/repo/core/engine_lifecycle.go:66-146 | refused exactly when no header reads back; on any disk a crash may leave, an engine with its frames and a type index in step |
| StorageEngines.StorageEngine.CopyDomain | internal/repo/core/reclaim.go:98-128 | one domain copied in any order and in chunks: the copy gains exactly its records, one frame each |
| StorageEngines.StorageEngine.Compact | internal/repo/core/reclaim.go:81-136 | the new file reads as the same map and reopens to it, holds one frame per live record, and its record area is exactly those frames |
| Compaction.CleanCount | internal/repo/core/reclaim.go:81-136 | a log without garbage holds as many frames as records |
| Compaction.CleanSizesAgree | internal/repo/core/reclaim.go:81-136 | compacting again, in any order, keeps the record-area size |
| Compaction.CleanIsSmallest | internal/repo/core/reclaim.go:81-136 | compaction never grows the record area, and keeps its size exactly when the log was already clean |
| Locks.StepKeepsInv | internal/db.go:69-254 | every step of every goroutine keeps the ownership, table, mark, Dream and barrier invariants |
| Locks.EveryInterleavingIsSafe | internal/db.go:69-254 | in every interleaving: no operation on a reclaimed context, on a context that is not its domain's or on a closed engine; no two operations on one agent; no in-flight Dream's context reclaimed, and the Dream runs on that one; caches are built only while nobody operates on the domain |
| Locks.ClosedForGood | internal/db.go:233-254 | once the engine is closed no operation is in its critical section, then or later |
| Locks.NobodyIsStuck | internal/db.go:124-155 | every goroutine can step, or waits for a mutex whose owner can |
| Locks.RetriesNeedReclaims | internal/db.go:124-141 | a call goes round lockAgent's retry loop at most as often as sweeps reclaim contexts of its agent while it is on its way: fetching again never costs a retry by itself |
| Locks.CloseIsNotStuck | internal/db.go:233-254 | the same for Close at each of its stages |
| LockCalls.CallsEndForAReason | internal/db.go:69-122 | in every run a call ends only by leaving its critical section, on a closed database, or because its agent is neither built in nor registered |
| LockCalls.OnlyTheAdmittedGetIn | internal/db.go:69-95 | in every run only a built-in or registered agent is handed a context or operates on one |
| LockCalls.OpenDatabasesServe | internal/db.go:69-155 | while the database stays open a call for such an agent only ever moves on, goes back only because its context was reclaimed, and ends only by leaving |
| LockCalls.CloseAdvances | internal/db.go:233-254 | each step of Close passes a stage or a barrier, the barriers are the table's contexts, and the engine closes when none is left |
| LockCalls.SweepsReclaimTheIdle | internal/db.go:203-231 | a sweep marks a context exactly when no background Dream is in flight on it, and takes the marked one off the table |
| LockCalls.TriggersStartTheirDream | internal/dream.go:88-100 | a trigger starts a new call, at the gate, for that scene of the context the trigger ran on |
| LockCalls.DreamsComeAndGo | internal/dream.go:88-100 | a Dream is in flight on a context from the trigger on that context until its own goroutine forgets it, and at no other time |
| Anchors.MergedAnchor | internal/l2.go:223-259 | the survivor's claim stands, the one claim of the others is taken, two claims are refused; exactly so |
| Anchors.StepKeepsInv | internal/l3.go:195-243 | every step of every operation, stops included, keeps: a dangling anchor is still covered by a delete in flight, or that delete was kept from its domain |
| AnchorCalls.MergesHandTheirProjectOn | internal/l2.go:170-218 | whatever runs between a merge's steps: a survivor that names a graph keeps it, one that names none names the graph the swallowed scenes named; these are gone and every other scene stands |
| AnchorCalls.ValidatedAnchorsAreWritten | internal/scene/scene.go:76-97 | the graph that was validated is the one the scene names afterwards, and no other scene of the domain changes |
| AnchorCalls.WriteBacksKeepTheAnchor | internal/repo/l2layer.go:148-159 | a scene record read and written back for any other reason keeps its anchor |
| AnchorCalls.ScenesChangeForAReason | internal/l3.go:221-243 | over every run a scene changes or goes only by an operation of its own domain, or because the detach of the very graph it names has come to it; then it names nothing |
| AnchorCalls.SingleWrites | internal/l2.go:84-116 | a scene made without an anchor has none, a cleared anchor is empty, a deleted scene is gone, every other scene of the domain stands; the pool loses and gains exactly the graphs deleted and added |
| Anchors.NoAnchorOutlivesItsGraph | internal/l3.go:195-243 | from any file without a dangling anchor, in every interleaving with stops and reopens, once no delete is in flight: a scene names a missing graph only where the delete of that graph was kept from its domain; no anchor dangles exactly when no scene still names such a graph there |
| Anchors.AbandonedExactly | internal/l3.go:221-243 | the domains a delete was kept from are exactly those the run's own steps gave up: a skip after Close, a refused write, a stop |
| Anchors.OrderlyRunsAreSafe | internal/l3.go:195-243 | a host that closes only while no pool operation and no delete runs, on a machine that stops during none, never strands an anchor |
| Anchors.CloseCanStrandAnAnchor | internal/l3.go:221-243 | a run in which Close between the two phases leaves a dangling anchor |
| Anchors.StopCanStrandAnAnchor | internal/l3.go:195-219 | a run in which a stop between the two phases leaves one that a second delete is refused for |
| Engrams.DecayRate | internal/cap/engram/decay.go:328-337 | emotion slows decay at most tenfold and never reverses it |
| Engrams.FadingOnlyFades | internal/cap/engram/decay.go:166-195 | no pass raises an importance; a node goes exactly when it falls below the threshold |
| Engrams.Network.RemoveNodeFromEdge | internal/cap/engram/decay.go:268-313 | the edge without the node, or gone from all its members when fewer than two remain |
| Engrams.Network.DecayNodes | internal/cap/engram/decay.go:137-195 | who fades, who goes and who is stripped, and for each edge exactly which members must leave |
| Engrams.Network.PropagateClearedEdges | internal/cap/engram/decay.go:197-210 | removals one by one in any order amount to removing all at once |
| Engrams.CutMore | internal/cap/engram/decay.go:268-295 | one more removal after any others is that removal added to theirs |
| Engrams.Network.DecayRemainingEdges | internal/cap/engram/decay.go:212-263 | dead members drop out, edges below two members or the weight threshold go, and nodes forget exactly the edges gone |
| Engrams.Network.DecayNetwork | internal/cap/engram/decay.go:121-135 | the survivors depend on the network before the pass alone; all members are live; the result is exact exactly when no surviving edge had a member that did not list it |
| Engrams.DecayIsExact | internal/cap/engram/decay.go:121-313 | after a pass every edge has two live members, and the members that do not list it are exactly those that did not before; so node n lists edge e exactly when e lists n, if and only if there are none |
| EngramFading.EdgesFadeWithTime | internal/cap/engram/decay.go:226-262 | for any exponential: a surviving edge weighs its old weight times e^(-0.02 h), h the hours since its last decay or its creation; strictly less once time has passed, and never nothing |
| EngramFading.EdgesGoWhenLight | internal/cap/engram/decay.go:226-262 | an edge survives exactly when that is at least 0.05 and both members stay with it |
| EngramFading.EdgePassesAddUp | internal/cap/engram/decay.go:226-262 | two passes fade an edge as one over the whole time would |
| EngramFading.NeutralIsFastest | internal/cap/engram/decay.go:328-337 | a hundredth an hour at most, exactly so for a memory that is neutral or calm |
| EngramFading.NodesFadeWithTime | internal/cap/engram/decay.go:137-195 | a surviving node is worth its importance times e^(-rate h), strictly less once time has passed; nothing else it holds but its edges and its clock changes |
| EngramFading.NodesGoWhenFaint | internal/cap/engram/decay.go:166-195 | a node goes exactly when that is below 0.05, unless compression manages it |
| EngramFading.FaintNodesAreStripped | internal/cap/engram/decay.go:166-195 | below 0.15 it loses its edges, from there on it does not |
| EngramFading.NodePassesAddUp | internal/cap/engram/decay.go:137-195 | two passes fade a node as one over the whole time would |
| EngramFading.EmotionSlows | internal/cap/engram/decay.go:328-337 | of two memories worth the same, over the same time, the more emotional one keeps more |
| Engrams.Network.RebuildFromL2 | internal/cap/engram/decay.go:41-73 | exactly the stale nodes go, with exactly the edges they list, which are counted |
| Engrams.Network.UpsertSceneEdge | internal/cap/engram/hyperedge.go:127-167 | a new edge stands on both sides with this weight and clock; an existing one only rises, over changed evidence; a written edge is listed by both members again; nothing else about any node changes |
| Engrams.Jaccard | internal/cap/engram/hyperedge.go:107-120 | shared over all keywords; refused exactly for two empty sets |
| Engrams.Network.BuildHyperedges | internal/cap/engram/hyperedge.go:26-68 | exactly the pairs that share a keyword and are similar enough have an edge afterwards, besides the old ones; which old ones rise and to what; whose missing references that mends; a new edge holds its similarity and this clock, each node gains just the edges written on it, and the written ones are counted |
| Engrams.Network.SyncNodes | internal/repo/l1layer_sync.go:38-106 | one node per scene with topics, edges and importance kept, touched exactly where topics changed; a node written anew misses exactly the edges that still name it |
| Engrams.Network.DeleteSceneNode | internal/repo/l1layer_sync.go:21-26 | the record goes, and the network stays sound |
| EngramRuns.StepSound | internal/cap/engram/decay.go:41-73 | every operation keeps: a node lists only edges that list it, an edge has its two members; and changes who misses a reference in exactly the stated ways |
| EngramRuns.ExactAfterDecay | internal/cap/engram/decay.go:121-135 | after a completed decay pass of any run, nodes and edges agree exactly when every member a sync ever revived under an edge has been mended or dropped since |
| EngramRuns.PatientRunsAreExact | internal/l2.go:187-199 | they agree after every pass when no scene is synced between the delete of its node and the next pass |
| EngramRuns.RevivedNodeStaysDeaf | internal/l2.go:187-199 | a run of sync, build, delete, sync, build, decay after which they do not |
| L2Metas.L2MetaIndex.Update | internal/repo/index/l2meta.go:66-73 | the cache holds the new row in place of the old, and its two tables agree |
| L2Metas.L2MetaIndex.Remove | internal/repo/index/l2meta.go:75-84 | the topic leaves both tables |
| L2Metas.L2MetaIndex.RetargetScene | internal/repo/index/l2meta.go:102-117 | every row of the one scene is rewritten in place to the other, and the lists follow |
| L2Metas.L2MetaIndex.TopicsByScene | internal/repo/index/l2meta.go:89-97 | exactly the rows of that scene, each once |
| L2Metas.BuildL2Meta | internal/repo/index/rebuild.go:13-19 | the rebuilt cache holds exactly the topic records |
| L2Metas.AgreeUnique | internal/repo/index/l2meta.go:30-34 | the records fix each scene's list up to order, so a kept cache equals a rebuilt one |
| TopicForest.DescendantsAreOlder | internal/repo/l2layer.go:215-238 | parent links are acyclic: a proper descendant is older and is not its ancestor |
| TopicForest.TopicClosure | internal/repo/l2layer.go:215-238 | terminates without a visited set, meets each descendant once and no other topic |
| TopicForest.DeleteKeepsForest | internal/l2.go:337-363 | deleting a set closed under children leaves no orphan |
| TopicForest.RetargetKeepsForest | internal/repo/l2layer.go:116-138 | a merge keeps parents and children in one scene |
| TopicForest.SinkKeepsForest | internal/repo/l2layer.go:19-56 | sinking depth-1 members under a new root keeps the forest at depth one or two |
| Conversations.CurrentScene | internal/scene/scene.go:31-49 | the one scene used last, among equals the one with more turns, then the one with the smaller id; none exactly when there is none |
| Conversations.SettleTarget | internal/turn/turn.go:25-33 | accepted exactly for a turn the scene has counted |
| Conversations.CompressTopics | internal/repo/l2layer.go:19-56 | reads first, then writes and deletes: every member one level deeper or gone, repeated ids included |
| Conversations.RestoreSunkTopics | internal/repo/l2layer.go:62-82 | exactly the listed topics that hang on that parent rise a level and lose it, repeated ids included |
| Conversations.GroupTimestamps | internal/dream/compress.go:243-258 | the tight bounds of a group, refused exactly when a member was not listed |
| Conversations.TurnOpened | internal/repo/l2layer.go:148-159 | the next turn id was never issued before, and every memory and record invariant survives opening it |
| Conversations.Domain.OpenSceneTurn | internal/repo/l2layer.go:148-159 | the scene's counter is one more and its stamp the new one, every other scene stands, and the turn of that count was never issued before |
| Conversations.Domain.Search | internal/search.go:36-141 | the turn is opened on the named scene, the fresh one, the one the domain is on or the one it resumes; that scene is remembered, its counter is one more and every other scene stands; each refusal is told apart, an unreadable profile moves that counter and issues nothing |
| Conversations.Domain.Settle | internal/update.go:48-134 | the settle target is never refused; the topic spans its first to its last utterance; a replay keeps the name and the place Dream gave the turn; forest and cache stay in step |
| Conversations.Domain.CreateTurnTopic | internal/repo/l2layer_topic.go:90-120 | a first settle is a nameless root of the scene, a replay keeps name, depth and parent; keywords and both stamps are the new ones |
| Conversations.Domain.RenameTopic | internal/l2.go:118-140 | only the name changes, in record and cache |
| Conversations.Domain.MergeScenes | internal/l2.go:144-218 | all or nothing, with each refusal told apart; every topic of a swallowed scene is the survivor's and nothing else about any topic changes; cache and memory move along, the swallowed scene's turn does not travel |
| Conversations.Domain.DeleteTopic | internal/l2.go:337-363 | exactly the topic and its descendants go, and the open turn if it is among them |
| Conversations.Domain.DeleteScene | internal/l2.go:368-398 | the scene and exactly its topics go, and the domain forgets it |
| Conversations.Domain.ApplyOneGroup | internal/dream/compress.go:160-223 | a new root over its sunk members, or refused without a trace: also when the storage refuses the sink after any part of it, which is restored and discarded |
| Conversations.Domain.ApplyGroups | internal/dream/compress.go:102-142 | applied are exactly the groups with two members or more, all listed, none in an earlier applied group, a summary, keywords and a free id, up to the first whose sink fails; each is a new root over its members' times with them hanging on it, every other record stands; the count and the failure are told exactly |
| Conversations.Domain.Dream | internal/dream/structure.go:37-45 | every scene's groups are applied just so; no topic is lost or reworded, the forest holds, and the cache equals the records again |
| Conversations.Domain.Reopen | internal/domain/context.go:60-80 | a rebuilt context has no scene and no turn, and a cache equal to the records |
| PlanTrees.Link | internal/plan/tree.go:116-141 | each step hangs under its live parent or among the roots, in planned order |
| PlanTrees.TreesHoldEachStepOnce | internal/plan/tree.go:58-169 | PlanState lists every step exactly once, whatever parents were swept |
| PlanTrees.CountsAreFlat | internal/plan/tree.go:171-191 | its counts are the flat counts |
| PlanTrees.TitlesShow | internal/plan/tree.go:151-154 | a step without a title is shown under digits that read back as its ordinal; a title it has is kept, and the rest of the step |
| PlanTrees.TitlesKeepTheListing | internal/plan/tree.go:146-169 | showing an untitled step under its ordinal changes no listing and no count |
| PlanTrees.TitlesKeepTheActiveView | internal/plan/tree.go:88-100 | the active view of the titled trees is the titled active view |
| PlanTrees.ActiveListsInOrder | internal/plan/tree.go:74-100 | PlanActive lists exactly the in-progress steps, in PlanState's order |
| PlanTrees.ActiveIsParented | internal/plan/tree.go:88-100 | every parent field names the step it hangs under |
| PlanTrees.ActiveHangsOnNearest | internal/plan/tree.go:74-100 | that step is the nearest in-progress ancestor, or none |
| PlanTrees.Subtree | internal/domain/plancache.go:57-77 | terminates, ascending, exactly the ordinals at or under the root |
| Plans.PlanTurn.NextSeq | internal/domain/plancache.go:89-102 | above everything live and reserved, 0 exactly when the last ordinal is taken |
| Plans.PlanTurn.MaxNodeSeq | internal/repo/index/l4.go:87-97 | the highest ordinal a surviving record names |
| Plans.PlanTurn.CreateNode | internal/plan/write.go:19-50 | a new ordinal is one above the highest a live step has or a record names, and so above every named parent; refused exactly for a missing parent or a used-up turn |
| Plans.PlanTurn.AppendContent | internal/l4.go:118-130 | content may name exactly the live steps |
| Plans.PlanTurn.PruneContent | internal/dream/prune.go:36-47 | any records may go and the plan invariants hold |
| Plans.PlanTurn.PruneNodes | internal/dream/prune.go:56-104 | any steps may go, parents first too, and the plan invariants hold |
| Plans.PlanTurn.UpdateNode | internal/plan/write.go:58-87 | only that step changes: status, title and summary as given, blanks as stored, and a summary given by the host is no fold any more |
| Plans.PlanTurn.RollupTree | internal/plan/tree.go:196-247 | the recursive pass with its writes computes the bottom-up fold of the plan before it |
| Plans.RollupIsIdempotent | internal/plan/tree.go:196-247 | a second pass writes nothing |
| Plans.FoldsHoldTheirJoin | internal/plan/tree.go:215-247 | after a pass every Done step without a text of the host's, with children that are all settled, holds the join of the texts they have, and a rewritten one is marked as a fold; every other step stands |
| Plans.ChildrenAre | internal/plan/tree.go:116-141 | a step's children are exactly the steps that name it as parent, in the order they were planned |
| Plans.JoinReads | internal/plan/tree.go:227-242 | the joined text holds every part whole and in order, a "; " between one and the next, and nothing else |
| Plans.FoldsReadInOrder | internal/plan/tree.go:215-247 | the text of each child stands in the fold behind those of the children planned before it |
| Plans.RollupTouchesOnlyItsOwn | internal/plan/tree.go:215-247 | no status, ordinal, parent or host-written summary changes |
| Archives.MirrorUnique | internal/repo/index/l4.go:55-82 | the records fix their mirror, so kept and rebuilt in any order are the same |
| Archives.BinarySearch | internal/repo/index/l4.go:72-74 | the first position whose Seq is not below the one looked for |
| Archives.L4Index.Append | internal/repo/index/l4.go:68-82 | the index mirrors the records with the new one in place |
| Archives.L4Index.RemoveIDs | internal/repo/index/l4.go:160-183 | the index mirrors the records without the removed ones |
| Archives.BuildL4 | internal/repo/index/l4.go:55-61 | a rebuild in any scan order mirrors the records |
| Archives.AllocateSlots | internal/content/content.go:166-188 | an allocated slot is above 2, everything held and every earlier entry exactly when the peak of what the topic holds and the batch names before it is below the last slot; it is then one above that peak |
| Archives.LastSlotWraps | internal/content/content.go:175-186 | the allocations [last, any] and [last - 1, any, any] hand out slot 0 |
| ArchiveStores.ArchiveStore.AppendBatch | internal/content/content.go:166-196 | at each address the batch names stands the last draft sent there, field by field, events without a medium; every other record stands; the mirror follows |
| ArchiveStores.ArchiveStore.DropExpired | internal/repo/l4layer.go:85-99 | exactly the records from before the cutoff leave both |
| ArchiveStores.ArchiveStore.DeleteTopics | internal/repo/l4layer.go:67-79 | exactly the topics' records leave both |
| ArchiveStores.ArchiveStore.QueryArchives | internal/repo/l4layer.go:130-183 | the topic path, with an index or without, and the full scan give the newest part of the one full listing; the ids path gives the newest part of one row per named id, which is the same exactly when the limit cuts off all but one row of each repeated id; on the answer's own fields: each row passes every filter set, the rows ascend by slot or by time and id, and a record is missing only because it fails a filter or is behind the limit |
| ArchiveStores.TailOfRepeats | internal/repo/l4layer.go:178-183 | the last n rows of a listing with repeats are its last n different rows exactly when every repeated row has n different ones from it on |
| ArchiveStores.ListingUnique | internal/repo/l4layer.go:165-183 | there is one full listing, so paths that give it give the same answer |
| ArchiveStores.RepeatedIdAnswersTwice | internal/repo/l4layer.go:136-139 | an id asked for twice is answered twice |
| GraphWalks.ConnectNodes | internal/graph/query.go:123-139 | the members of a hyperedge become neighbours of each other, both ways, and nobody else does |
| GraphWalks.SubgraphAdjacency | internal/graph/query.go:82-97 | neighbours are exactly two different members of one kept edge |
| GraphWalks.BfsWithinDepth | internal/graph/query.go:104-121 | exactly the nodes within that many hops, the whole component for a non-positive depth; terminates on cycles |
| GraphWalks.QuerySubgraph | internal/l3query.go:115-144 | nodes exactly within that many hops over edges of the wanted kinds; edges exactly those that name only such nodes |
| GraphImports.MergedHoldsBoth | internal/cap/knowledge/nodemerge.go:47-60 | merged content contains the old text and the new, and is the longer one where that holds the other |
| GraphImports.UnionHolds | internal/common/sliceutil.go:24-39 | the union holds exactly the words of both lists, the first list as it stands in front |
| GraphImports.SeedGraphs | internal/graph/import.go:65-129 | the preferred slot of every label, in any scan order |
| GraphImports.OwnerIs | internal/graph/import.go:119-129 | of the slots under one label, the one whose id derives from it, and the smallest id where there is none |
| GraphImports.ResolutionIsStable | internal/graph/import.go:300-311 | a second batch finds every domain where the first left it |
| GraphImports.RelationMembers | internal/graph/import.go:268-295 | a member set exactly for a valid relation, and which |
| GraphImports.ImportBatch.ImportNode | internal/graph/import.go:199-227 | created, or what the mode makes of the node; indexes in step, counted exactly |
| GraphImports.ImportBatch.ImportRelations | internal/graph/import.go:235-263 | exactly the edges the item validly declares are there afterwards, counted exactly |
| GraphImports.ImportL3 | internal/l3.go:106-148 | refused exactly when malformed; otherwise every node is its fold over the items and the edges are those declared over all titles |
| GraphImports.ImportSays | internal/graph/import.go:199-227 | in every mode, field by field: skipping keeps a held node and makes a new one of the first item naming it, overwriting takes the last item, merging takes a lone item whole; a node nobody names stands |
| GraphImports.MergeHolds | internal/cap/knowledge/nodemerge.go:22-60 | merging: the text holds the old one and every item's, the words are exactly the old ones and every item's |
| GraphImports.MergeSaysLast | internal/cap/knowledge/nodemerge.go:22-34 | merging: type and source are the last ones said, the old ones where nothing is said |
| GraphImports.NodeSettles | internal/graph/import.go:199-227 | the same items a second time change nothing of a node but its clock, in every mode and with repeated titles |
| GraphImports.ImportIsIdempotent | internal/l3.go:129-147 | the same batch again creates no graph, node or edge and leaves every node saying what it said |

## Left out

- StorageEngines.StorageEngine.WriteRecordBatch: requires nonzero record types, payloads below 2^32 bytes and a commit counter below its last value, because the code truncates silently beyond those.
- StorageEngines.StorageEngine.DeleteRecordBatch: requires the commit counter to be below its last value, for the same reason.
- StorageEngines.StorageEngine.Checkpoint: promises an engine in step only when blob length, record count and offsets fit their header fields; beyond that the code truncates them.
- StorageEngines.StorageEngine.Close: as Checkpoint; unmapping, unlocking and closing the handle are not part of the model.
- StorageEngines.StorageEngine.Compact: promises a valid new engine only when its index fits the snapshot's fields; records that will not read back are covered only for a closed engine.
- StorageEngines.StorageEngine.Create: a crash inside Create itself is not modelled; the run theorem starts from a created file.
- CrashSafety.EveryRunKeepsItsLog: a frame write that fails and is undone is an event of the runs; a failing truncate, sync, remap, header write or checkpoint that leaves the process running is not.
- Recovery.WalkLayout: for frames whose flags are 0 or 1, which all of the program's are; an empty record area answers 0, as in the code.
- TypeIndexes.RebuildByAgentType: the nested agent -> type -> ids maps are one map keyed by (agent, type), so pruning an emptied agent is not visible.
- Locks.EveryInterleavingIsSafe: the idle TTL and clock enter as an arbitrary choice of which free context a sweep tries; that a sweep eventually comes is not stated.
- Locks.NobodyIsStuck: deadlock freedom, not fairness.
- Locks.RetriesNeedReclaims: bounds the retries by reclaims; that a context stamped as just active is not reclaimed within the idle TTL is not modelled, the clock being arbitrary.
- Anchors.StepKeepsInv: a domain lock is one mutex per agent; contexts and their reclaim are in Locks. A stop loses the goroutines and no completed write.
- Engrams.Network.RebuildFromL2: staleness is an arbitrary predicate of the node; isNodeStale and keepDeepNode are not modelled.
- Engrams.Network.DecayNodes: which nodes compression manages (skipDeepNode) is an arbitrary predicate of the node.
- Engrams.Network.BuildHyperedges: keyword sets and their inverted index are inputs; that collectNodeKeywordSets builds them is not modelled.
- EngramRuns.ExactAfterDecay: the operations of a run complete; a pass that a storage failure or a stop cuts short is not an event of the runs.
- Conversations.Domain.Search: the topics and the profile brief of the answer are not modelled; whether the anchor handed in names a graph is an input, and writing it into the new scene is in Anchors.
- Conversations.Domain.Settle: the stamps of the turn's utterances and the extracted keywords are inputs; the content records the call writes are in ArchiveStores.
- Conversations.Domain.ApplyOneGroup: the L4 summary the group stores and rolls back is not modelled, nor is a restore or a discard that fails.
- Conversations.Domain.Dream: scenes are consolidated one after the other, not up to four at a time; the scenes' topics are disjoint. The early return that skips the cache rebuild happens only after a storage failure or when nothing was applied.
- PlanTrees.Link: steps are linked by position, not by pointer.
- PlanTrees.TreesHoldEachStepOnce: an undefined stored status, which the view reports as an error, is not modelled.
- Plans.PlanTurn.PruneNodes: any subset may go; the exemption of a plan that is in flight and active is not modelled.
- Plans.PlanTurn.CreateNode: one turn's tree; trees are keyed by topic and independent.
- ArchiveStores.ArchiveStore.AppendBatch: write validation, the probe of each offered address and the speaker's role are not modelled.
- GraphImports.ImportL3: slots and nodes whose derived address another kind of record occupies are not modelled, nor is the stamping of changed graphs.
- The api package, configuration, logging, the LLM transport and prompts, MBTI and profile text: no state of their own worth a proof here.
- mmap, file locks, fsync and the operating system's file calls: replaced by abstract file steps.
- JSON encodings of the records, CRC-32 and xxhash themselves.
