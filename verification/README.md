# A model of go-shardblob

go-shardblob keeps byte streams as content-addressed chunks. A Put splits a stream (into blocks of one
size, or at boundaries a rolling Gear hash finds), stores each chunk under its digest once, writes a
manifest, counts a reference per listing of a chunk, and enters the object in an index with a use count.
A Delete undoes the last three steps when the last copy goes; a GC removes chunks that count zero. A
shared/exclusive fence keeps GC away from everything else, and a lock per object serialises updates of
one object. On disk a journal of reference changes is replayed over the last snapshot after a crash.

To its callers the store is a multiset of byte strings. The model proves that of the sequential code and
of all interleavings of its atomic steps, and proves what every crash leaves.

| File | What it models |
|---|---|
| Interleaving, Runs | All interleavings of Puts, Deletes, Gets and GCs: the invariant, and what follows for every run |
| Answers | That every operation takes effect once, answers truly and comes to its end |
| Races | Runs that show what is not promised: a Get overtaken by a Delete, and the store without its fence |
| ObjectLocks | Locks that are made on first use and deleted on last |
| Crashes | What a disk holds, what survives a crash, and exactly when the delicate states do |
| Retries | Objects a crash has left half removed, put or deleted again |
| Persists, CrashRuns | Persists interleaved with other operations, and what a crash at any point of any run leaves |
| Durability | The store on disk: its operations with every state its files pass through, reopening, and recovery |
| Stores, Holdings, Conservation | The sequential store, its abstraction to a multiset of contents, byte accounting |
| Readers, Gears, Boundary, Splitting, Assembling, Policy | Streams, the rolling hash, the pure split and the streaming splitter that refines it |
| Journals, Refcounts, Snapshots | The count table, its journal and the snapshot files |
| Manifests, Codec, Verifying, BlobReaders | Manifests and their bytes, the checker, reading back |
| Collecting, Backends, Indexes | Garbage collection and repair, the chunk map, the object index |
| Bytes, Sums, Schemes | Bytes and words, sums over maps, digests |

A digest is a number below 2^256 standing for its 32 bytes. The chunk and the object digest are any two
functions; the only assumption is that they do not collide and are not zero on the set `known` of byte
strings a run meets, which contains the chunks of its members. CRC-32 is any function of the bytes. The
Gear table is any table. Machine words wrap where the source's do.

`hide` statements in proofs keep definitions out of the solver's sight; they assume nothing.

Where the code and its comments differ, the code is modelled. A journal's half-written tail is said to be
dropped (internal/refcount/journal.go:69-72); it is only skipped, and a later append lands behind it.
`Journals.AppendBehindTorn` says exactly when the journal can then still be replayed, and `Crashes.PutBehindTorn` and
`Durability.DiskStore.Put` what becomes of a Put after such a reopening. Persisting is meant to be crash-safe. It is,
but for the state with counts saved beside a journal that is not yet emptied: `Crashes.WindowExact` says exactly
when that one survives, `Crashes.CleanWindow` what this means for a Delete, `Crashes.RecoveryWindow` for a collection
after a crashed Delete, and `Persists.CrashInAnyRun` what a crash recovers when other operations change counts
while one persists; `Persists.RacingRun` is a Put that is lost that way, and `CrashRuns.CrashInAnyRun` says it of the
whole interleaved store.

A Delete that crashes before its persist leaves an object that is still listed. Putting its content again reports
success and only raises the use count: `Durability.DiskStore.Put` says exactly when the content is held then, and
`Retries.PutAgain` shows the run in which it is lost. Deleting it again takes references once more, and those of
others if the first Delete had got far enough: `Crashes.RetriedDelete` and `Retries.DeleteAgain`.

Only a Delete of the same object lets a Get find an indexed object without its manifest:
`Runs.MissesManifest` and `Answers.GetOpens` say when, `Races.GetOvertaken` how.

## Model

| member | source | states |
|---|---|---|
| Interleaving.StepKeepsInv | put.go:15-89 | The invariant of the concurrent store (fence and lock counters, manifests, chunks, counts, every thread's own facts) is kept by every enabled step of every Put, Delete, Get and GC in flight |
| Interleaving.InitInv | store.go:105-123 | The empty store satisfies that invariant, so it holds in every reachable state |
| Interleaving.NoUnderflow | internal/refcount/table.go:50-59 | A Delete part-way through its chunk list always finds the next chunk counted at least once: the underflow branch is never taken |
| Interleaving.GcAlone | internal/iofence/fence.go:39-44 | While a GC is inside the fence no Put, Delete or Get is, and no object lock is held |
| Interleaving.ZeroIsUnreferenced | internal/gc/collector.go:45-69 | A chunk whose count a GC sees as zero is listed by no manifest |
| Runs.RunInv | store.go:105-123 | Every state of every run satisfies the invariant |
| Runs.CountsAccountForAll | put.go:50-84 | Count table plus what Deletes in flight have taken away equals the chunk lists of all indexed objects, with multiplicity, plus what Puts in flight have added |
| Runs.CountsInEveryRun | delete.go:26-56 | The same equation in every state of every run |
| Runs.CountsExactAtRest | internal/refcount/table.go:150-168 | With nothing in flight every count is exactly the number of times the manifests of indexed objects list the chunk |
| Runs.NeededIsPresent | delete.go:58-77 | Chunks of indexed objects, chunks a Put in flight has written or found present, and chunks an open reader has still to read are in the backend in every reachable state |
| Runs.OnlyGarbageIsSwept | internal/gc/collector.go:38-74 | The only step that removes a chunk is a GC deleting one whose count is zero, and nobody relies on it |
| Runs.MissesManifest | get.go:18-27 | In any reachable state a Get that has found its object in the index goes on to find no manifest if and only if the index entry has gone since and no Put or Delete of the object is between its two entries or removals; otherwise it opens a reader on the content's chunk list |
| Races.FencedIsRun | internal/iofence/fence.go:29-44 | With the fence observed, the traces the races are stated over are exactly the runs of the store |
| Races.GetOvertaken | get.go:18-27 | For every content a run of the store, fence and locks observed, in which a Delete of the last copy passes a Get between its look at the index and its look for the manifest: the Get reports an incomplete object |
| Races.FenceIsNeeded | internal/iofence/fence.go:29-44 | For every two contents that share a chunk, a run without the fence: a Put of the second finds the chunk present, a Delete of the first takes its count to zero, a GC sweeps it, and the Put enters an indexed object whose chunk is gone |
| Runs.GcLeavesExactlyTheLive | internal/gc/collector.go:38-74 | When a GC has seen everything, the stored chunks are exactly those with a positive count and exactly those of indexed objects |
| Runs.ReaderDelivers | get.go:86-108 | A reader has delivered a prefix of its object's content at any time and all of it after the last chunk, whatever Deletes ran since it was opened |
| Runs.NeverBroken | put.go:76-88 | In no run does a thread meet a count underflow or a missing chunk, nor a Delete a missing manifest |
| Runs.StepRefinesMultiset | put.go:53-84 | Seen through the use counts, every step adds one copy of an object (at the end of a Put), removes one (in a Delete) or changes no multiplicity |
| Runs.UseCountIsMultiplicity | delete.go:41-56 | Over every run the use count of an object is the Puts that took effect less the Deletes that did |
| Answers.PutOnce | put.go:15-89 | In every run a Put takes effect exactly once between its beginning and its end, unless it is aborted, and then never |
| Answers.DeleteOnce | delete.go:10-56 | In every run a Delete that finds its object takes effect exactly once before its end; one that reports no object has no effect, and at some moment in between the object was not there |
| Answers.GetOnce | get.go:12-31 | In every run a Get that goes on to look for a manifest or to read has a moment since its beginning at which the object was there, and one that reports no object has a moment at which it was not |
| Answers.GetOfNothing | get.go:18-21 | A Get of an object that is there at no moment of its span reports no object: it never looks for a manifest |
| Answers.NobodyStuck | internal/iofence/fence.go:29-44 | In every reachable state every operation can go on, or waits for an object lock whose holder can |
| Answers.StepsRunOut | put.go:15-89 | Every step of an operation brings it nearer to its end, so each ends after a bounded number of its own steps |
| Answers.GcEnds | internal/gc/collector.go:38-74 | A GC ends only when every stored chunk is counted, and an idle store lets one in |
| Answers.LetIn | internal/iofence/fence.go:29-36 | While no GC runs, a Put, a Delete or a Get is let in at any time |
| Answers.MayBreakOff | put.go:27-47 | A Put can be broken off exactly before it begins to count; a reader can be closed at any time |
| Answers.GetOpens | get.go:18-30 | In every run a Get that has found its object gets a reader on the whole content if no Delete takes the last copy between its look at the index and its look for the manifest |
| ObjectLocks.StepKeepsInv | internal/iofence/object.go:6-25 | Arriving, locking, unlocking and leaving keep the lock table consistent although entries are deleted and made again |
| ObjectLocks.MutualExclusion | internal/iofence/object.go:6-25 | In every run at most one caller holds the lock of an object |
| ObjectLocks.EntriesAccountForCallers | internal/iofence/object.go:13-22 | waiters is the number of callers waiting, holding or releasing, they all share one lock object, and there is an entry exactly when there are such callers |
| ObjectLocks.NoLostLock | internal/iofence/object.go:15-17 | A waiting caller can go in whenever nobody holds the object's lock |
| ObjectLocks.GoesOn | internal/iofence/object.go:6-25 | A newcomer can always ask for a lock, and who holds or gives up one can always go on |
| ObjectLocks.RefinesAtomicLock | internal/iofence/object.go:6-25 | Seen from outside, locking and unlocking are atomic on a map from objects to holders; arriving and leaving change nothing there |
| Durability.DiskStore.Put | put.go:40-88 | Adds one copy (or refuses more than 2^20 chunks), and the whole new state is given; an object that a crashed Delete has left half removed only gains a copy, and then its content is held if and only if its manifest is still stored and its chunks are still counted beside what the others need; past is exactly the set of disks on the way, every byte of the journal included; each reopens with the contents from before or after, but for the window of persist, with its exact condition, and for records appended behind a half-written one, which leave a disk that does not open unless the mixed frame is intact; exact counts stay exact |
| Durability.DiskStore.Gc | delete.go:58-77 | Sweeps and persists, from any state a safe crash leaves: removes exactly the dead chunks; past is exactly the set of disks on the way; each but the window of persist keeps all contents, and the window does under the condition given; afterwards the journal is empty |
| Durability.DiskStore.Delete | delete.go:26-56 | Removes one copy or reports none, with or without a half-written tail, and the whole new state is given; past is exactly the set of disks on the way; each keeps every other content complete, but for the window of persist, with its exact condition, and for records behind a half-written one; exact counts stay exact. Of an object that a crashed Delete has left half removed: nothing without its manifest, one copy less if there are more, else its references are taken as far as they are there, with no way back, and the store stays good for the others if and only if they are left enough |
| Durability.DiskStore.TakeBack | delete.go:48-56 | The last copy, of a held or of a half removed content: counts, index, manifest, persist; or counts alone up to the first missing reference |
| Durability.DiskStore.Persist | store.go:152-171 | Index, then counts, then an empty journal: exactly these three disk states, each named |
| Durability.DiskStore.Commit | store.go:152-171 | Persisting tables that hold the new contents: the first and the last state are safe, the one between survives if and only if the journal can be applied a second time |
| Crashes.PersistStates | store.go:152-171 | The three states of persist beside a journal that led to the tables: two are safe, and the middle one if and only if the journal's records can be applied again and leave enough |
| Crashes.PersistBehind | store.go:152-171 | The same when the journal has grown by a batch since; behind a half-written record the window holds a mixed frame |
| Crashes.IncrementsAgain | store.go:158-168 | A journal of increments only can always be applied again |
| Crashes.WindowExact | store.go:158-168 | A crash after counts are saved and before the journal is emptied, whatever single changes the journal holds, whatever tail, and whatever is still listed of an object half removed: the contents survive if and only if the records can be applied once more without underflow and leave every chunk counted as often as needed |
| Crashes.CleanWindow | delete.go:48-56 | From exact counts and an empty journal a Delete of a last copy meets that condition for the empty content and for no other |
| Crashes.RecoveryWindow | delete.go:68-75 | A Delete crashes after j of its records, the store is reopened and a GC persists: that window goes well if and only if every chunk counted down so far was still to be counted down as often again, so never after all records of a content with chunks |
| Crashes.RevivedCovers | put.go:53-66 | A half removed content that is listed n times, its chunks written, is completely there n times if and only if its manifest is stored and its chunks are counted beside what the others need |
| Crashes.RetriedPut | put.go:53-66 | After a Delete that crashed behind j of its records these counts are there if and only if j is 0 |
| Crashes.RetriedDelete | internal/refcount/table.go:161-168 | A second Delete goes through if and only if others list what the crashed one had counted down; having taken the first n references, all or not, it leaves the others enough if and only if these n are among the ones that were not counted down before |
| Crashes.Retaken | delete.go:41-56 | A second Delete that goes through leaves the others covered if and only if enough is counted, and then every disk on the way is safe but the window |
| Crashes.RetakenPart | delete.go:48-50 | The same for one that stops part-way and persists nothing |
| Retries.PutAgain | put.go:53-66 | Run: a Delete of the only copy crashes at any byte of its records, manifest gone or not, the store is reopened, the content is put again and a GC runs. The Put reports success; the content is held if and only if no whole record had been journalled and the manifest is there; a chunk is left if and only if others need it or its count had not been taken back |
| Retries.DeleteAgain | delete.go:41-56 | Run: the same crash, then a second Delete: how far it gets, when it succeeds, and that the others are left enough if and only if what it took had not been taken before |
| Retries.PutListed | put.go:53-66 | The same from any store that holds an object half removed |
| Retries.DeleteListed | delete.go:41-56 | The same from any store that holds an object half removed |
| Crashes.RacingPersists | store.go:152-171 | One Put persists while another is counting its chunks: the records past the count snapshot are emptied with the journal, and if the second Put then saves the index and crashes, its content is held if and only if it had counted all its chunks by the snapshot |
| Persists.StepTracks | store.go:152-171 | Persists interleaved in any way with other operations: the count snapshot on the disk stays a prefix of the log of all changes and the journal a suffix of it, after every step |
| Persists.CrashRecovers | internal/refcount/table.go:29-75 | What a crash in any such state recovers: the table's counts, less exactly the changes made between a snapshot and the emptying of the journal after it, and with exactly those made twice that are in both; it opens if and only if no change takes what is not there |
| Persists.CrashInAnyRun | store.go:152-171 | At every point of every run the contents the saved index lists survive a crash if and only if the journal can be applied and leaves what they need, with what is missing added |
| Persists.PutsExact | store.go:152-171 | With Puts only, if and only if need plus what is missing is counted |
| Persists.QuietKept | store.go:158-166 | The only step that makes a store lose changes in a crash is one that changes a count between a persist's snapshot and its emptying of the journal |
| Persists.QuietRecovers | store.go:158-166 | Without such a step a crash outside the window of persist recovers the table exactly |
| Persists.RacingRun | store.go:152-171 | For every content with chunks and every i the run of two Puts in which i of the chunks are counted by the snapshot and the rest before the emptying: after the next saving of the index a crash finds the content whole if and only if i is all of them |
| CrashRuns.RunGood | store.go:152-171 | All Puts, Deletes, Gets and GCs interleaved, each atomic step journalled or written as it happens, with the steps of persists among them: tables and files mirror the records, in every state of every run |
| CrashRuns.HeldMeans | delete.go:41-56 | What is answered for at a crash: every content the index on disk lists, as often as it says, whose object is still indexed and not being counted down |
| CrashRuns.StandsMeans | delete.go:48-53 | Not being counted down: no Delete has begun to take the chunks of the object back |
| CrashRuns.RunsLift | store.go:152-171 | Every run of the interleaved store whose manifests are not too long is one on disk |
| CrashRuns.StandingCovered | put.go:50-84 | In every reachable state all of that has its chunks, its manifest and, with multiplicity, its counts in the tables |
| CrashRuns.CrashInAnyRun | store.go:152-171 | In every state of every run all of that survives a crash if and only if the journal can be applied and leaves what it needs, with the changes that are missing added and those that are there twice taken off |
| CrashRuns.QuietRunSurvives | store.go:158-166 | If no chunk is counted up or down between a persist's snapshot and its emptying of the journal, a crash anywhere outside that window recovers the count table exactly and all of that survives |
| Durability.Open | store.go:70-100 | Opening fails exactly when the replay does; it finds whatever survives, and after a safe crash gives a store that satisfies the class invariant again |
| Durability.RecoverAndCollect | store.go:70-100 | Opening and a whole GC, its persist included, from any safe disk, also one with decrements, a half-written tail or an object half removed: all contents stay, only counted chunks are left, the journal is empty; every state on the way is safe but the window, which survives if and only if the journal's records can be applied again |
| Crashes.TornPut | put.go:76-78 | Any byte of a Put's journal records may be the last one written: what reopens still holds every content, unless a half-written record stood before them |
| Crashes.NewStates | put.go:68-88 | Every disk of a first copy's entry is safe for before or after, but for the two places named; the tables at the end hold one content more; the window has its exact condition, or a mixed frame |
| Crashes.StatesOfPut | put.go:40-88 | The disks of a Put one by one: any first part of the chunks, then manifest and any number of bytes of the records, then index, counts and emptied journal |
| Crashes.StatesOfDelete | delete.go:48-56 | and of a Delete of a last copy |
| Crashes.StatesOfGc | internal/gc/collector.go:66-70 | and of a GC: any part of what is dead may be gone |
| Crashes.PutBehindTorn | put.go:76-78 | New content put into a store reopened with a half-written record: after the first of its records the disk reopens if and only if the mixed frame is intact and can be applied |
| Crashes.SpoiledFails | internal/refcount/journal.go:64-76 | A disk whose journal goes on behind a half-written record does not reopen unless the mixed frame is intact |
| Crashes.TornDelete | delete.go:48-54 | Any byte of a Delete's journal records may be the last one written, manifest there or gone: what reopens still holds every other content, unless a half-written record stood before them |
| Crashes.TornTaken | delete.go:48-54 | The same for any list of references taken from a content that is given up, as long as what is answered for stays covered |
| Crashes.LastStates | delete.go:48-56 | Every disk of a last copy's removal keeps the other contents, but for the two places named; the window has its exact condition, or a mixed frame |
| Crashes.SweptCovers | internal/gc/collector.go:38-74 | Any part of what a collection would remove is no chunk of any content, also when counts are higher than needed |
| Crashes.EmptyDisk | store.go:33-100 | An empty directory is a safe disk that holds nothing, with exact counts |
| Durability.DiskStore.CountAll | internal/refcount/table.go:151-158 | Counting a chunk list adds it with multiplicity and appends its records; the disk on the way is cut at every byte |
| Durability.DiskStore.Uncount | internal/refcount/table.go:161-168 | Takes a chunk list back as far as its references are there, which is all of it if and only if every chunk is counted as often as listed; the journal gets one record for each taken, cut at any byte on the way |
| Journals.RecBack | internal/refcount/journal.go:122-149 | An encoded record passes its checks and decodes to itself |
| Journals.RecordLayout | internal/refcount/journal.go:122-131 | The 52 bytes of a record at their offsets: magic, operation code (1, 2 or 3), zeros, digest, number, checksum |
| Journals.IntactExact | internal/refcount/journal.go:133-149 | A frame is taken for a record if and only if it begins with the magic bytes and ends in the checksum of the others |
| Journals.ApplyExact | internal/refcount/journal.go:77-92 | In numbers: what each operation code does to every count, and the error of each that fails |
| Journals.ReplayAppend | internal/refcount/journal.go:55-96 | Replay runs through any whole-record prefix and goes on from its result |
| Journals.ReplayImage | internal/refcount/journal.go:55-96 | Replaying a journal is applying its records in order, with the first failure if there is one |
| Journals.ReplayCut | internal/refcount/journal.go:64-72 | A journal cut at any byte applies exactly its whole records |
| Journals.BehindTorn | internal/refcount/journal.go:55-96 | What a journal replays to when anything was appended behind a half-written record: the records before it and then whatever the mixed frames say |
| Journals.AppendBehindTorn | internal/refcount/journal.go:42-53 | With 0 to 51 bytes of a half-written record there, a journal to which a record is appended replays if and only if the records before do, the mixed frame is intact and it can be applied; that frame is then the outcome, and if it is not intact replay reports a bad record |
| Journals.MagicTorn | internal/refcount/journal.go:133-149 | Behind one to three bytes of a record the mixed frame is never intact, whatever the checksum |
| Journals.ApplyUnits | internal/refcount/journal.go:77-92 | Any sequence of single changes replays if and only if it never takes what is not there, and gives what was counted plus what was added less what was taken |
| Journals.ApplyIncrements | internal/refcount/journal.go:79-80 | Increments never fail and add exactly what they list as long as no count comes near 2^64 |
| Journals.DecrementsNeed | internal/refcount/journal.go:81-86 | Decrements replay without underflow only if every chunk is counted as often as they list it |
| Journals.ApplyDecrements | internal/refcount/journal.go:81-86 | and then they do, and take away exactly that |
| Refcounts.Journal.ReplayInto | internal/refcount/journal.go:55-96 | The replay loop leaves the table as the pure replay says, or reports its fault |
| Refcounts.Journal.Append | internal/refcount/journal.go:42-53 | One encoded record at the end; a failed write may leave any part of it and a failed sync all of it |
| Refcounts.Journal.Truncate | internal/refcount/journal.go:98-111 | Empties the file; on failure it is empty or as it was |
| Refcounts.Table.Add | internal/refcount/table.go:29-48 | Adds n; on a failed append the table is as before, and the journal ends in none, part or all of the record; what snapshot and journal then replay to is given for each of these |
| Refcounts.Table.Sub | internal/refcount/table.go:50-75 | Takes n away unless that would underflow or the append fails, and then the table is unchanged; what snapshot and journal replay to is given for a journal that ends in none, part or all of the record |
| Refcounts.Table.AddMany | internal/refcount/table.go:151-158 | One reference more per listing, with multiplicity, and one record each; if the journal starts to fail part-way, exactly the listings before the failing one are counted, and the file ends with their records and none, part or all of the failing one |
| Refcounts.Table.SubMany | internal/refcount/table.go:161-168 | Succeeds with a working journal if and only if every chunk is counted at least as often as it is listed; otherwise exactly the listings before the first missing reference or failing append are gone |
| Refcounts.Table.LoadMap | internal/refcount/table.go:120-130 | Same counts, no zeros kept |
| Snapshots.CountsRoundTrip | internal/refcount/snapshot.go:21-89 | A saved count table loads again as it was, in whatever order the map was walked |
| Snapshots.IndexRoundTrip | internal/index/snapshot.go:20-100 | A saved index loads again as it was |
| Snapshots.FrameForth | internal/refcount/snapshot.go:46-72 | A file that passes the frame checks is the frame of what was read from it |
| Snapshots.FrameLayout | internal/refcount/snapshot.go:21-34 | The bytes of a frame at their offsets |
| Snapshots.FrameFaults | internal/refcount/snapshot.go:46-72 | For every file which error it is refused with, or none: length, checksum, magic, version, in this order |
| Snapshots.FilledExact | internal/refcount/snapshot.go:73-88 | Of n items the table takes for every digest the last number above zero |
| Snapshots.CountsExact | internal/refcount/snapshot.go:73-88 | The bytes of an item at their offsets; a file in frame is refused if and only if its items are cut short |
| Snapshots.RecordLayout | internal/index/snapshot.go:27-33 | The 56 bytes of an index record at their offsets |
| Snapshots.IndexExact | internal/index/snapshot.go:75-99 | A file in frame is refused for a zero digest in a whole record, else if its records are cut short, else not at all |
| Snapshots.ByIdExact | internal/index/index.go:77-84 | For every digest the last record of it stays |
| Snapshots.SaveCounts | internal/refcount/snapshot.go:21-34 | Writes the frame and the items in whatever order the map is walked; the file loads again as the table it was |
| Snapshots.LoadCounts | internal/refcount/snapshot.go:37-89 | The error the source gives for short, altered, foreign or truncated files, or the table with zero counts passed over |
| Snapshots.SaveIndex | internal/index/snapshot.go:20-36 | Writes the frame and the records in whatever order; the file loads again as the index it was |
| Snapshots.LoadIndex | internal/index/snapshot.go:39-100 | The error the source gives, a zero object id included, or the records by id |
| Stores.Store.Put | put.go:15-89 | The multiset of contents gains what the reader delivers; a closed store, a nil or failing reader, or more than 2^20 chunks is refused with its own error and nothing visible changes; the backend gains exactly the digests of the pieces delivered |
| Stores.Store.WriteChunks | put.go:25-48 | However the reader fragments its bytes, every piece of the pure split is stored and listed with its digest, size and offset |
| Stores.Store.EnterFirst | put.go:68-88 | Manifest, counts and index record of a first copy; refused exactly when there are too many chunks |
| Stores.Store.EnterAgain | put.go:53-66 | A further copy only raises the use count |
| Stores.Store.Delete | delete.go:10-24 | The multiset loses one copy of the object's content, or the object is reported missing and nothing changes; with auto-GC exactly the dead chunks go too and every chunk left is listed by a held content, else the backend stays |
| Stores.PutAndDelete | delete.go:20-22 | New content put and deleted again under auto-GC: the same contents, and no chunk that none of them lists |
| Stores.Store.ApplyDelete | delete.go:41-56 | The use count goes down, or with the last copy counts, index record and manifest are taken back |
| Stores.Store.Gc | delete.go:59-77 | Removes exactly the chunks that count zero, reports them, and changes no content |
| Stores.Store.Get | get.go:12-31 | A reader that will deliver exactly the content, or not found |
| Stores.Store.GetBytes | get.go:34-45 | Exactly the content that was put |
| Stores.Store.LoadManifest | mem.go:53-58 | What is decoded for a held object is the manifest Put built, and its fields tell of the content: version, flag, algorithm, average size, digest, length, and of every piece digest, length and place |
| Stores.Store.Verify | verify.go:10-31 | Passes for every held object, not found for every other |
| Stores.Store.StoreStats | stats.go:4-16 | Objects are the different contents, logical bytes their lengths and the count-weighted chunk lengths; stored bytes are the sum of the chunk lengths, right after a GC no more than the logical ones |
| Stores.Store.Stat | get.go:58-75 | Digest, length, number of pieces and multiplicity of a held content, or not found |
| Stores.Store.Has | get.go:48-55 | True if and only if a content with this digest is held |
| Stores.Store.ChunkRef | stats.go:39-50 | As often as the manifests of the held contents list the chunk |
| Stores.Store.OpenMemory | store.go:105-123 | Holds nothing |
| Stores.Store.Close | store.go:174-196 | Later operations are refused, contents stay |
| Stores.HeldIsIntact | internal/verify/verifier.go:12-63 | Every held content passes every check of the verifier |
| Stores.TamperedIsNotIntact | internal/verify/verifier.go:34-49 | With one chunk missing or replaced by other known bytes the object is not intact |
| Holdings.FirstCopy | put.go:68-84 | Chunks present, counts shifted by the chunk list, manifest and record in place: the store holds one content more |
| Holdings.LastCopy | delete.go:48-54 | Counts shifted back, record and manifest gone: the store holds one content less |
| Holdings.CountedEnough | delete.go:48-50 | Every chunk of a held content counts at least as often as its manifest lists it, so SubMany cannot underflow |
| Holdings.DeadChunksGone | internal/gc/collector.go:66-70 | Removing chunks that count zero hurts no held content |
| Holdings.BuiltManifestValid | put.go:68-72 | The manifest Put builds from the splitter's pieces validates if and only if there are at most 2^20 of them, in fixed and CDC mode |
| Holdings.ManifestTotals | put.go:43-47 | The 32-bit sizes lose nothing, offsets are contiguous and no sum wraps |
| Holdings.ManifestComesBack | put.go:68-75 | The stored bytes of that manifest decode to it |
| Holdings.StoredTells | put.go:68-75 | Field by field what the stored bytes decode to: version 1, the flag of the mode, the algorithm, the average size, digest and length of the content, and of every piece digest, length and place; in fixed mode every piece but the last has the average size |
| Conservation.CountsWeighTheObjects | stats.go:10-15 | The sum over chunks of count times length equals the index's total and the sum of the contents' lengths |
| Conservation.UniqueAtMostLogical | stats.go:10-15 | When every stored chunk is counted, stored bytes never exceed logical bytes |
| Splitting.Splitter.Next | internal/chunk/splitter.go:42-54 | The next piece of the pure split of what is left, or the stream's ending for ever |
| Splitting.Splitter.NextCdc | internal/chunk/splitter.go:84-136 | Delivers the bytes up to the first boundary of the rest, carried bytes included; the rest stays, in order |
| Splitting.Splitter.NextFixed | internal/chunk/splitter.go:56-75 | Delivers the next average-sized block, or a shorter last one |
| Splitting.SplitAll | internal/chunk/splitter.go:139-152 | For every fragmentation the pieces are those of the pure split of the whole stream, numbered and contiguous; a failing stream yields the pieces cut by then and its error |
| Splitting.CutPiecesExact | internal/chunk/splitter.go:84-136 | What a stream that breaks off yields is the split of what arrived without its last piece, if that has no boundary |
| Boundary.SplitConcat | internal/chunk/splitter.go:84-136 | The pieces joined are the stream |
| Boundary.SplitWellCut | internal/chunk/splitter.go:84-136 | Every piece but the last ends at its first boundary |
| Boundary.WellCutIsSplit | internal/chunk/splitter.go:84-136 | and the split is the only list of pieces like that |
| Boundary.SplitMemoryless | internal/chunk/cdc.go:44-78 | After a prefix that ends at a cut the rest is split as if it stood alone |
| Boundary.SplitResynchronises | internal/chunk/cdc.go:44-78 | Two streams that both cut where a common suffix starts share all pieces from there on |
| Boundary.SplitSizes | internal/chunk/splitter.go:56-136 | Sizes of fixed and content-defined pieces, the last one apart |
| Boundary.GearLocality | internal/chunk/cdc.go:50-52 | Modulo 2^k the rolling value depends on the last k bytes only |
| Boundary.GearWindow | internal/chunk/cdc.go:50-52 | After 64 bytes the rolling value has forgotten all earlier ones |
| Boundary.CutIsLocal | internal/chunk/cdc.go:53-60 | Between min and max the decision to cut depends on the last mask-width bytes only |
| Boundary.CutExact | internal/chunk/cdc.go:50-60 | Below min no cut, from max on a cut, between them a cut if and only if the low mask bits of the weighted sum of the bytes are all zero |
| Boundary.CutByWindow | internal/chunk/cdc.go:50-60 | and the same with only as many last bytes as the mask has bits |
| Boundary.FirstCutExact | internal/chunk/cdc.go:70-78 | The first cut is the least such length from min on, or max |
| Boundary.UnreducedIsWeighted | internal/chunk/cdc.go:50-52 | The rolling sum is term by term the table value of each byte times 2 to the number of bytes behind it |
| Gears.Gear.Push | internal/chunk/cdc.go:50-60 | Reports a cut exactly where the cut test says, for the bytes pushed since the reset |
| Gears.FindBoundary | internal/chunk/cdc.go:70-78 | The least length from min on whose sum ends in as many zero bits as the mask has, or max, or none |
| Policy.NormalizeNearest | internal/chunk/policy.go:52-100 | For every input: the power of two nearest to the clamped average, the lower one on a tie, and 1 <= min <= avg <= max <= 2^24 |
| Policy.AverageAimedAt | internal/chunk/policy.go:52-62 | In numbers: 65536 if no average is asked for, else the request, from 1 to 4194304 |
| Policy.NormalizeBounds | internal/chunk/policy.go:76-99 | Without a request min is a quarter of the average, at least 1, and max four times it; a request becomes the nearest value within [1, avg] and [avg, 2^24] |
| Policy.NormalizeFixpoint | internal/chunk/policy.go:52-100 | A policy is left alone if and only if it is within these bounds already |
| Policy.NormalizeIdempotent | internal/chunk/cdc.go:34-41 | Normalising again, as NewSplitter, NewGear and Mask do, changes nothing |
| Policy.MaskOfPolicy | internal/chunk/policy.go:115-122 | The mask is the average less one, or 2^16 - 1 for single bytes |
| Policy.AndPredecessor | internal/chunk/policy.go:64-64 | The bit test for a power of two is right for every positive number |
| Readers.Reader.ReadFull | internal/chunk/splitter.go:57-66 | io.ReadFull over any fragmentation: the next bytes, short only at the ending |
| Assembling.Assemble | internal/chunk/assembler.go:9-30 | Writes the joined pieces; to a destination that takes everything it succeeds if and only if the pieces are numbered and contiguous, and otherwise stops before the first that is not |
| Assembling.AssembleBytes | internal/chunk/assembler.go:33-46 | The joined pieces if and only if the indices count up from 0 |
| Assembling.Writer.Append | internal/chunk/assembler.go:62-80 | Accepts exactly the piece that comes next; what was accepted is what was written, unless a write fell short |
| Assembling.SplitRejoins | internal/chunk/assembler.go:9-80 | What the splitter cuts a stream into goes together to the stream |
| Manifests.Validate | internal/manifest/validate.go:11-58 | Accepts exactly the complete manifests, version 0 read as 1, and reports the first thing that is wrong with any other |
| Manifests.OneExplanation | internal/manifest/validate.go:11-58 | Whatever is not complete is explained by one error only |
| Manifests.BlankExact | internal/manifest/validate.go:18-20 | A name is blank if and only if it consists of characters that Unicode counts as white space, in UTF-8 |
| Manifests.FlagBit | internal/manifest/types.go:30-33 | Content-defined if and only if the lowest flag bit is set |
| Manifests.New | internal/manifest/validate.go:61-76 | Version, flag and the total of the sizes modulo 2^64 |
| Codec.Encode | internal/manifest/codec.go:19-48 | The binary form, or the validation's refusal |
| Codec.Decode | internal/manifest/codec.go:51-116 | Succeeds exactly on the bytes of a manifest, and for any others reports the first thing wrong with them |
| Codec.ManifestLayout | internal/manifest/codec.go:19-48 | The bytes of a manifest at their offsets |
| Codec.EntryLayout | internal/manifest/codec.go:39-43 | The 44 bytes of entry i at their offsets |
| Codec.RoundTrip | internal/manifest/codec.go:19-124 | Every valid version-1 manifest without NUL in its name decodes from its encoding, which has 92 + 44n bytes |
| Codec.ReencodeExact | internal/manifest/codec.go:51-124 | Encoding what was decoded gives the same bytes if and only if the version was 1 and only zeros follow the name |
| Verifying.Object | internal/verify/verifier.go:12-63 | Exactly the faults that are there, each of its kind: no or bad manifest, unknown algorithm; else every missing chunk, wrong size and wrong digest; else a wrong total modulo 2^64; else a wrong object digest. None if and only if the object is intact, below 2^64 bytes |
| Verifying.SizesAgree | internal/verify/verifier.go:40-56 | Sizes that agree modulo 2^32 and in total agree |
| BlobReaders.BlobReader.Read | get.go:86-108 | With any buffer size the next bytes of the object, up to the first missing chunk if there is one; after them end of file if and only if none is missing, else the backend's error |
| BlobReaders.ReadAll | get.go:34-45 | Reads to the end give the whole content |
| Collecting.Run | internal/gc/collector.go:38-74 | Removes exactly the chunks that count zero, or none when dry; the same statistics either way |
| Collecting.ReportAdds | internal/gc/collector.go:14-18 | Scanned = deleted + retained + skipped, deleted is the number of dead chunks, the bytes freed are theirs |
| Collecting.SweepIds | internal/gc/collector.go:77-97 | Removes exactly the listed dead chunks; a repeated id is deleted once and skipped after; scanned, deleted, retained, skipped and freed bytes are each stated |
| Collecting.Orphans | internal/gc/safety.go:31-40 | Lists each dead chunk once |
| Collecting.AssertSafe | internal/gc/safety.go:43-54 | True if and only if every counted chunk can be read from the backend, so of a closed one if nothing is counted |
| Collecting.MarkLive | internal/gc/safety.go:13-28 | With a working journal it succeeds if and only if every indexed manifest loads; it raises zero counts of reachable chunks to 1 and changes no positive count; when it fails it has done part of that |
| Collecting.RepairedExact | internal/gc/safety.go:13-28 | A zero count becomes 1 if and only if a manifest that loads lists the chunk, and no other count changes |
| Collecting.CollectTwice | internal/gc/collector.go:38-74 | Orphans, a dry run, a real run and another: the orphans listed are exactly what goes, the dry run reports the same numbers, the last run deletes nothing |
| Collecting.RepairThenCollect | internal/gc/safety.go:13-40 | MarkLive, Orphans, a dry run, a run and another, from any drifted counts: what goes is exactly what was listed, the dry run foretells the numbers, no counted chunk goes, every object whose chunks were there reads back the same bytes, and the last run deletes nothing |
| Backends.Memory.Put | internal/blobstore/memory.go:34-48 | Keeps what is there; the running byte total stays the sum of the stored lengths |
| Backends.Memory.Delete | internal/blobstore/memory.go:83-96 | Removes one chunk and its length from the total |
| Backends.Memory.List | internal/blobstore/memory.go:98-115 | Every stored id once, in some order |
| Indexes.Index.TotalBytes | internal/index/index.go:118-126 | The sum of all sizes modulo 2^64 |

## Left out

- Digest and CRC internals, domain tags, the algorithm registry, hexadecimal text and file paths are library code or thin wrappers; names of algorithms are a table the verifier is given.
- Chunk and manifest digests are assumed collision-free on the contents a run meets; nothing is said about runs that meet a collision.
- The disk backend's directory walk and its own counters, fsync and rename: each file other than the journal is a value that one step replaces, and chunk files behave like the memory backend's map.
- Directory creation, configuration files and option handling other than the policy.
- Creation times: the index snapshot carries them as 64 bits, the index of the store model drops them.
- Durability.DiskStore.Put: takes a content rather than a reader, and writes the chunks of its pure split; that a stream of any fragmentation comes to those is `Stores.Store.WriteChunks`. Use counts below 2^32 - 1 and reference counts with room for the pending records are preconditions, as for the sequential store.
- Durability.DiskStore.Persist: failing writes on disk are not modelled; a persist that fails half-way leaves the source with an indexed but unpersisted object. A write that fails inside the journal is (`Refcounts.Journal.Append`), for the table and not for the whole store.
- Durability.DiskStore: one operation at a time; operations and persists in any interleaving are in CrashRuns, with every journal record written whole, and for runs of fewer than 2^32 steps so that no count wraps.
- Stores.Store.Put: use counts below 2^32 - 1 and reference counts at least 2^20 below 2^64 are preconditions; the source wraps beyond them.
- Interleaving: a critical section of the count table, the index, the manifest map, the backend or the lock table is one step; a chunk list is counted chunk by chunk. Closing the store, auto-GC after a Delete and waiting in line for the fence (RWMutex fairness) are not steps of it; any order of entry is allowed instead.
- TryExclusive and the in-flight counter of the fence, which the store does not use.
- ObjectLocks: the critical section that finds or makes an entry is one step, and so is the one that gives it up.
- Assembling.Assemble: the count of bytes written is not reduced to 64 bits.
- List, VerifyAll and ConfigJSON add only easy members beside Stat and Verify; so do Clone, LastSize, IncUse, DecUse, MeasurePieces and the FNV fingerprint.
- Buffer pooling, error texts and report formatting.
