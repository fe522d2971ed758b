# A verified model of the app's embedded libraries

The repository is an iOS app whose working parts with deep state are three C and C++ libraries it
carries with it. This project models them in Dafny and proves what they are for.

* **LevelDB** (`GMM/Pods/leveldb-library/db`): a log-structured store. A write takes sequence numbers,
  goes to a write-ahead log and a memtable (a skip list); memtables become tables; compactions merge
  tables downwards through seven levels and drop what no snapshot can see; a manifest of version edits
  names the tables; opening the store replays manifest and logs.
* **nanopb** (`GMM/Pods/nanopb`): protocol buffers over a static description of a message.
* **libuv** (`GMM/Pods/Libuv-gRPC/src`): a worker pool, a binary heap of linked nodes, the timers over it, and
  two converters, domain names to Punycode and IPv4 and IPv6 addresses to and from text.

## How the model is laid out

| files | what they model |
|---|---|
| `InternalKeys`, `Versions` | internal keys and their order, tables, levels, point lookup |
| `Compactions`, `CompactionInputs`, `CompactionGaps`, `BoundaryHazards` | the drop rules and the compaction loop, the choice of inputs, what lies between them, and when that choice hurts |
| `Store`, `StoreInvariants`, `StoreHazards`, `SnapshotIsolation` | the whole store as a state machine and its runs |
| `FlushLevel`, `FlushHazards` | where a flushed memtable goes, and what that can break |
| `StoreChoices`, `ChosenRuns`, `HazardRuns` | runs whose every choice is the code's, and two such runs that break something |
| `SkipList`, `MemTable`, `SnapshotList`, `DBIterator` | the objects a reader meets |
| `DB` | the store object, tied method by method to the state machine |
| `LogFormat`, `LogReader`, `LogRoundTrip`, `LogReuse` | the log's bytes: what is written, what any bytes read as, logs cut off, and logs opened again behind a cut |
| `Coding`, `FormatGrammar`, `FormatSamples` | varints; which bytes are a batch or an edit; single cases byte by byte |
| `VersionBuilder`, `VersionEdit`, `Manifests`, `ManifestReuse` | manifests, from bytes to levels, and manifests that openings go on appending to |
| `Recovery`, `CrashLives`, `ManifestLives` | opening after a crash, lives of many crashes, and the manifest over such a life |
| `WriteBatch`, `GroupCommit`, `FileGc` | batches, the writers' queue, deletion of files over openings and crashes |
| `Protobuf`, `ProtobufReader`, `ProtobufValues`, `ProtobufRecords`, `ProtobufRoundTrip`, `ProtobufLimits` | nanopb: streams that write and read, which bytes are accepted and what they come to, and what survives the way through both |
| `ThreadPool`, `PoolOrder`, `Heap`, `Timer` | libuv: the pool, the heap, the timers |
| `Punycode`, `Idna`, `Inet`, `InetGrammar` | libuv: names and addresses as text, and what reads them back |

The store is one state machine (`Store.State`, `Store.Step`). Its state keeps every entry ever committed
as `hist`; `Read(Elems(hist), k, s)` is the flat answer every layer is measured by. What the code does to
objects in place is modelled by classes whose methods are proved against pure functions or against steps
of a machine; what holds over runs is proved about those.

## Findings

Four places where the code does less than its documentation says. Each has the failing input and the
condition. The runs of the first two are runs of the code: the level of every flush, the inputs of every
compaction and the cut of every output are what the store itself chooses (`StoreChoices.ChosenRun`), with file sizes
counted in entries and a target of three.

1. **A compaction can bring a deleted value back.** `SetupOtherInputs` extends the inputs of the level
   itself by files that continue a user key (`AddBoundaryInputs`), but not the inputs of the level
   below (`version_set.cc` lines 1403-1462). If the last file taken there ends on a deletion marker of key
   `k` and the next file, not taken, starts with an older value of `k`, the marker is dropped and the
   value reads again. `BoundaryHazards.CompactionSafeIff` and `StoreHazards.FinishSafeIff` say exactly
   when: reads from the smallest snapshot up are kept if and only if the right edge of those inputs is
   not such an edge (`Setting.Hazard`). `HazardRuns.DeletedKeyComesBack` is a run from a new database
   that ends there: a snapshot keeps a value and its deletion through one compaction, whose output is
   closed between the two; with the snapshot gone, the next compaction takes the first half only, and
   key 1 reads as absent before it finishes and as `"deleted"` after.
2. **A flush during a compaction can put a level out of order.** `DoCompactionWork` flushes the immutable
   memtable while it runs (`db_impl.cc` lines 908-918). The level is picked from the current version, which does not
   hold the compaction's outputs, so the table may land in the output level between two inputs of a
   compaction that a caller asked for. `StoreInvariants.StepKeepsWf` and `FlushHazards.FinishOrderedIff` say
   exactly when installing breaks the level: when one output reaches across that table. `FlushHazards.FlushBesideIff`
   says when some choice of outputs does: when the table has survivors on both sides.
   `HazardRuns.FlushedKeyIsMissed` is a run that ends there; the level's binary search then looks in the wrong
   table and the flushed value is not found. Compactions set off by size or by seeks are safe: their inputs leave
   no gap (`CompactionGaps.AutomaticHasNoGap`), and over any run of them the store stays well formed
   (`FlushHazards.AutomaticRunKeepsWf`).
3. **nanopb refuses a message it wrote itself.** A text that fills its buffer to the last byte, with no
   terminator, is encoded; decoding it fails with "string overflow". `MessageLimits.RoundTripIff` gives
   the exact condition for messages under 2^63 bytes, `MessageLimits.FullTextRefused` the input. The
   decoder also misses no required field but the first sixty-four:
   `MessageLimits.CutMessageIsAcceptedIff`.
4. **A log or manifest reused after a crash can lose what is written to it next.** With `reuse_logs`, recovery opens the last
   log (`db_impl.cc` lines 457-477) and the manifest (`version_set.cc` lines 1013-1042) for appending where the file ends,
   even if a crash has torn its last record. Whatever is then appended, and however much, the records read are those
   that were read before and the appended ones from some place on: all of them behind a cut between fragments or in a
   trailer; behind a torn header or payload none, if it reads as the end of the file, else those that begin at the
   end of its block or later (`LogReuse.Lost`). So all are read if and only if the cut falls between fragments or into a
   trailer, or leaves fewer than seven bytes of its block (`LogReuse.ReopenedIff`, and `LogReuse.AppendedIff` for a file of any
   bytes), unless the torn bytes match their checksum by chance; and without a complaint, which for a manifest means a refusal,
   exactly under `LogReuse.Kept`. Behind a cut through a payload not even a complaint is made until the file is as long as that
   payload claims (`LogReuse.TornPayloadIsSilent`; `LogReuse.AppendedIsLost` is a log of one record, cut after
   ten bytes, to which another is appended in vain). For the manifest, `ManifestLives.LifeIsReadIff` says after which lives
   it is read back, and `ManifestReuse.AppendedEditIsLost` is a manifest whose torn record of a flush swallows the next edit.

Smaller things the lemmas make visible: `VersionEdit::Clear` leaves `compact_pointers_` as they were,
so an edit is read back as itself exactly into an object that held none
(`VersionEditRoundTrip.ReadsSameEditIff`); and deleting obsolete files while a flush has written its table and not yet
installed it would delete that table, and in the middle of an opening the manifest in use (`FileLifetimes.CollectSafeIff`), which
the single background thread and the order of the steps rule out. A label that
is all ASCII and already begins with `xn--`, in either case, is passed through and read as something else
(`DomainNames.LabelReadsBackIff`); every label of at most 3855 code points is accepted, and one of 3856 is
not (`DomainNames.ShortLabelsFit`, `DomainNames.LongLabelRefused`). Printing an IPv6 address into a
buffer of size 0 reports success (`Inet.Ntop6`), and the arm of its dotted-quad test for a run of seven words
(`inet.c` line 130) is never reached.

## Model

| member | source | states |
|---|---|---|
| `InternalKeys.CompareIsLexicographic` | GMM/Pods/leveldb-library/db/dbformat.cc:47-65 | comparing packed trailers orders by user key up, sequence number down, type down: a strict total order whose ties are equal keys |
| `Versions.FindFile` | GMM/Pods/leveldb-library/db/version_set.cc:88-106 | the halving search, on any list of files, ends where `Bisect` says, and on a sorted level that is the first file whose largest key is at or after the target |
| `Versions.Get` | GMM/Pods/leveldb-library/db/version_set.cc:326-421 | level by level, level 0 from the highest file number down, the first hit is the newest entry visible at the snapshot over the union of all the version's entries |
| `OverlapSearch.GetOverlappingInputs` | GMM/Pods/leveldb-library/db/version_set.cc:519-559 | the files overlapping the range; on level 0 the restarts stop at the least range closed under overlap |
| `CompactionInputs.AddBoundaryInputs` | GMM/Pods/leveldb-library/db/version_set.cc:1344-1401 | afterwards no file of the level starts with the user key the inputs end on, every file added starts with the one that those before it end on, and a contiguous stretch of a sorted level stays one |
| `CompactionInputs.SetupOtherInputs` | GMM/Pods/leveldb-library/db/version_set.cc:1403-1462 | what stays in the level is newer than what leaves it, what stays below lies wholly beside the inputs and shares no user key with the files coming down; the expansion is taken exactly when it adds files, stays below the size limit and meets no file below that the inputs did not; the grandparents are those that the final range meets |
| `CompactionInputs.ExpandedIs` | GMM/Pods/leveldb-library/db/version_set.cc:1420-1427 | the expansion tried is the files of the level that meet the range of both inputs, on level 0 the range grown by what it touches, and the files that continue these |
| `CompactionInputs.PickCompaction` | GMM/Pods/leveldb-library/db/version_set.cc:1270-1338 | a size- or seek-triggered choice is the selection from the seek file or the level's first file that ends past the pointer, its first one if there is none, on level 0 with all it drags along; that file is among the inputs, and they have that property |
| `CompactionInputs.CompactRange` | GMM/Pods/leveldb-library/db/version_set.cc:1464-1495 | so has a manual one, from the files the range touches; above level 0 the first of them, as many as come to the size limit and no more than that takes; it finds nothing there only when nothing overlaps the range |
| `CompactionInputs.CutToSizeIs` | GMM/Pods/leveldb-library/db/version_set.cc:1476-1487 | cutting a list of files to a size leaves its least prefix that comes to it, or all |
| `CompactionGaps.AutomaticHasNoGap` | GMM/Pods/leveldb-library/db/version_set.cc:1270-1338 | between the smallest and the largest input of a size- or seek-triggered compaction every user key lies in some input |
| `StoreChoices.Choose` | GMM/Pods/leveldb-library/db/db_impl.cc:688-716 | the dispatch gives the chosen plan, with 25 times the target size as the limit of an expansion, or none, which only a caller's range can leave |
| `StoreChoices.MovableIff` | GMM/Pods/leveldb-library/db/version_set.cc:1515-1523 | a compaction is moved and not merged exactly if it has one file, no file of the next level meets that one, and those two levels down that do come to at most ten times the target size |
| `StoreChoices.CompactedIsRun` | GMM/Pods/leveldb-library/db/db_impl.cc:688-767 | a compaction as the store object does it is a run of the machine in which every choice is the code's |
| `CompactionRules.CompactionPreservesReadsIff` | GMM/Pods/leveldb-library/db/db_impl.cc:929-996 | dropping hidden entries and obsolete markers keeps every read from the smallest snapshot up if and only if no dropped marker exposes a value outside the inputs |
| `CompactionWork.Compaction.IsBaseLevelForKey` | GMM/Pods/leveldb-library/db/version_set.cc:1533-1552 | for keys asked in ascending order the monotone pointers answer as a fresh scan of every deeper file would |
| `CompactionWork.DoCompactionWork` | GMM/Pods/leveldb-library/db/db_impl.cc:878-1036 | the loop over the merged inputs writes exactly the entries not dropped, in order, with no empty output; and, for sorted grandparents, every output overlaps at most the permitted bytes of them, and two neighbours are apart only because the left one is full or that many bytes have been passed since the last stop |
| `CutReasons.OutputsAreWellCut` | GMM/Pods/leveldb-library/db/version_set.cc:1553-1577 | the cuts have these reasons: in each output the grandparents between its first and last key come to at most the limit, it was not full before its last entry and no stop falls inside; between neighbours it was full or a stop falls |
| `CutReasons.OneWellCut` | GMM/Pods/leveldb-library/db/db_impl.cc:921-996 | and no other way of cutting what is kept has them: the cuts are fixed |
| `CompactionRules.KeptIsSurvivors` | GMM/Pods/leveldb-library/db/db_impl.cc:929-996 | the entries kept one by one with `last_sequence_for_key` are the survivors of both drop rules, sorted |
| `CompactionRules.KeptIff` | GMM/Pods/leveldb-library/db/db_impl.cc:929-996 | an entry is kept exactly if some snapshot from the smallest on reads it of the inputs, and it is no deletion marker that all of them see and that no deeper file can contradict |
| `BoundaryHazards.CompactionSafeIff` | GMM/Pods/leveldb-library/db/version_set.cc:1403-1462 | a compaction keeps every read from the smallest snapshot up if and only if the edge between its level+1 inputs and the next file is not hazardous |
| `BoundaryHazards.DroppedMarkerRevives` | GMM/Pods/leveldb-library/db/version_set.cc:1403-1413 | at a hazardous edge a deleted key reads as its old value |
| `StoreInvariants.StepKeepsWf` | GMM/Pods/leveldb-library/db/db_impl.cc:860-876 | every step keeps memory the unflushed end of the history, levels above 0 disjoint, each level newer than the next, and the pending compaction installable; an install keeps it if and only if no output spans a table that arrived meanwhile |
| `StoreHazards.FinishSafeIff` | GMM/Pods/leveldb-library/db/db_impl.cc:878-1036 | installing a compaction, tables flushed beside it included, keeps every read from its smallest snapshot up if and only if the right edge of its inputs is not hazardous |
| `SnapshotIsolation.StepKeepsReads` | GMM/Pods/leveldb-library/db/db_impl.cc:878-1256 | after any step, failed writes and flushes beside a compaction included, the store answers as its history does, if and only if the step is not a hazardous install |
| `SnapshotIsolation.SnapshotKeepsItsAnswers` | GMM/Pods/leveldb-library/db/snapshot.h:39-91 | over any run a snapshot held at both ends reads the same at both, and as the history it was taken from |
| `SnapshotIsolation.LatestReadIsCurrent` | GMM/Pods/leveldb-library/db/db_impl.cc:1100-1145 | after any run a read at the last sequence number is the history's |
| `FlushLevel.PickLevelForMemTableOutput` | GMM/Pods/leveldb-library/db/version_set.cc:491-516 | the level is clear of the table all the way down to it, on the way the files two levels further down that overlap stay within the limit, and it is the deepest such one, at most the second |
| `FlushHazards.FinishOrderedIff` | GMM/Pods/leveldb-library/db/db_impl.cc:908-918 | for enabled outputs, the level is out of order after the install if and only if a table flushed there meanwhile has survivors on both sides and one output reaches across it |
| `FlushHazards.FlushBesideIff` | GMM/Pods/leveldb-library/db/db_impl.cc:908-918 | every output the cutting rules allow keeps the level in order if and only if no table flushed there lies between two survivors |
| `FlushHazards.AutomaticRunKeepsWf` | GMM/Pods/leveldb-library/db/db_impl.cc:908-918 | over any run in which no caller asks for a compaction the store stays well formed, whatever is flushed meanwhile and wherever outputs are cut |
| `HazardRuns.DeletedKeyComesBack` | GMM/Pods/leveldb-library/db/version_set.cc:1403-1413 | a run from a new database, every flush level, input set and output cut in it the code's own choice, to a well-formed, faithful state in which the install the code does next makes a deleted key readable again |
| `HazardRuns.FlushedKeyIsMissed` | GMM/Pods/leveldb-library/db/db_impl.cc:491-533 | such a run to a state in which the install the code does next puts a level out of order, and the search for a key committed there ends in the wrong table |
| `StoreViews.LayeredIsFlat` | GMM/Pods/leveldb-library/db/db_impl.cc:1122-1136 | memtable, then immutable memtable, then version: the first layer that knows the key decides, as the flat reading does |
| `StoreObject.DBImpl.Get` | GMM/Pods/leveldb-library/db/db_impl.cc:1100-1145 | the value is the history's answer at the snapshot, or at the last sequence number |
| `StoreObject.DBImpl.Write` | GMM/Pods/leveldb-library/db/db_impl.cc:1202-1238 | a logged batch is the machine's write, one the log refused its failed write: the numbers are taken either way; a read at any number then gives what the last operation on the key up to that number has put, nothing if it deleted, and what it gave before if there is none |
| `StoreObject.DBImpl.WriteThenGet` | GMM/Pods/leveldb-library/db/db_impl.cc:1100-1145 | a read after a write gives the value of the batch's last operation on the key, nothing if that is a deletion, and what was there if the batch has none or was not logged |
| `StoreObject.DBImpl.CompactMemTable` | GMM/Pods/leveldb-library/db/db_impl.cc:491-566 | writing the immutable memtable is an enabled flush of the machine, to the level picked |
| `StoreObject.DBImpl.BackgroundCompaction` | GMM/Pods/leveldb-library/db/db_impl.cc:688-767 | one compaction, automatic or manual, moved or merged, is enabled steps of the machine chosen as `ChosenPlan` and the cutting rules say, with every table numbered anew |
| `MemTables.MemTable.Get` | GMM/Pods/leveldb-library/db/memtable.cc:100-135 | one seek finds the newest entry of the key visible at the snapshot, or there is none |
| `SnapshotLists.SnapshotList.Delete` | GMM/Pods/leveldb-library/db/snapshot.h:79-89 | unlinking from anywhere in the circular list removes exactly that snapshot and keeps the others in order |
| `IteratorMeaning.ShownIsRead` | GMM/Pods/leveldb-library/db/db_iter.cc:141-299 | the list an iterator shows has strictly ascending keys, and a key with its value is on it exactly when a read at the snapshot returns it |
| `IteratorMeaning.Drive` | GMM/Pods/leveldb-library/db/db_iter.cc:141-299 | any mix of seeks and steps, in both directions, leaves the iterator on the element of that list the same moves reach there |
| `IteratorMeaning.ThereAndBack` | GMM/Pods/leveldb-library/db/db_iter.cc:141-266 | a step and the step back return to the same entry, across the change of direction |
| `SkipLists.SkipList.FindGreaterOrEqual` | GMM/Pods/leveldb-library/db/skiplist.h:260-281 | ends at the key's rank, with a hook for every level |
| `SkipLists.SkipList.LevelsNest` | GMM/Pods/leveldb-library/db/skiplist.h:260-368 | a node linked at a level is linked at every lower one, and skips no further there |
| `SkipLists.SkipList.PublishBottom` | GMM/Pods/leveldb-library/db/skiplist.h:362-367 | the first publishing store of an insertion leaves a valid list with exactly one more key |
| `SkipLists.SkipList.PublishAt` | GMM/Pods/leveldb-library/db/skiplist.h:362-367 | every later store leaves a valid list with the same keys |
| `SkipLists.SkipList.Insert` | GMM/Pods/leveldb-library/db/skiplist.h:337-368 | an insertion of any height leaves a valid list with exactly one more key, through valid lists only |
| `SkipLists.InterleavedSearch` | GMM/Pods/leveldb-library/db/skiplist.h:260-368 | a search whose reads interleave in any way with the stores of insertions ends on a node of the list or one that joined meanwhile, no node of the list it began in lying between the key and that node |
| `VersionBuilder.ReplayManifest` | GMM/Pods/leveldb-library/db/version_set.cc:650-754 | folding any list of edits through one builder gives, level by level and in order, what applying each edit on its own gives, if no number is added to a level twice |
| `VersionEditRoundTrip.EditRoundTrip` | GMM/Pods/leveldb-library/db/version_edit.cc:41-205 | an edit is written and read back, its compact pointers appended to those already there, if and only if it names only levels the store has |
| `VersionEditRoundTrip.ReadsSameEditIff` | GMM/Pods/leveldb-library/db/version_edit.cc:26-39 | the edit read is the one written exactly when the object read into held no compact pointers |
| `VersionEditRoundTrip.ReadEditsCanBeRewritten` | GMM/Pods/leveldb-library/db/version_edit.cc:41-205 | whatever bytes were read, well formed or not, the edit they leave behind is written and read back as itself |
| `VersionEdits.VersionEdit.DecodeFrom` | GMM/Pods/leveldb-library/db/version_edit.cc:107-205 | the loop over the input does to the fields what parsing record by record says, and reports the first refused |
| `EditGrammar.ReadTakes` | GMM/Pods/leveldb-library/db/version_edit.cc:97-205 | whatever the bytes, the edit takes the fields they begin with, each a tag and its varints and strings, of any admissible length; the reading ends well exactly if that is all of them, and what is refused does not begin with a field |
| `EditGrammar.SpelledIsRead` | GMM/Pods/leveldb-library/db/version_edit.cc:97-205 | bytes that spell fields are read as those fields |
| `EditGrammar.FieldsComeTo` | GMM/Pods/leveldb-library/db/version_edit.cc:107-205 | an edit of any fields, repeated or in any order, holds the last of each number, all files and pointers in order, and the set of the deleted files |
| `EditSamples.FieldTags` | GMM/Pods/leveldb-library/db/version_edit.cc:12-24 | one field of each kind, byte by byte: the tag numbers |
| `LogRoundTrip.WriteCutRead` | GMM/Pods/leveldb-library/db/log_reader.cc:56-271 | records written over any reopenings and cut at any byte are read back as exactly those wholly kept, with no corruption reported |
| `LogReader.Reader.ReadRecord` | GMM/Pods/leveldb-library/db/log_reader.cc:56-271 | on any bytes at all, the record, the complaints and the place to go on that reading the file as a function of its bytes gives |
| `LogSafety.NothingMadeUp` | GMM/Pods/leveldb-library/db/log_reader.cc:56-195 | every record read of a file of any bytes stands there: one fragment of type 1, or one of type 2, any of type 3 and one of type 4, behind one another, each in its block and with the checksum of its type and payload |
| `LogSafety.NoComplaintIff` | GMM/Pods/leveldb-library/db/log_reader.cc:56-271 | a file is read without a complaint exactly if from its start to its end such records stand behind one another, the last perhaps cut off, or parts that were never written |
| `LogSafety.FragmentsAreRead` | GMM/Pods/leveldb-library/db/log_reader.cc:56-195 | and such a record is read, without complaint, where the reader comes to it or is inside of it |
| `LogSamples.ThreeFragments` | GMM/Pods/leveldb-library/db/log_format.h:14-34 | the headers of one record of 70000 bytes: it pins the type bytes and the size of a block |
| `LogReuse.ReopenedIff` | GMM/Pods/leveldb-library/db/db_impl.cc:457-477 | behind a cut anywhere any number of records appended are read from a stated one on; all of them if and only if the cut falls between fragments, into a trailer, or less than seven bytes before the end of its block, unless the torn bytes pass for a record; and all without complaint exactly under a stated condition |
| `LogReuse.AppendedIff` | GMM/Pods/leveldb-library/db/log_reader.cc:56-271 | the same for a file of any bytes, opened again at its end, with records appended and perhaps one more torn |
| `LogReuse.TornPayloadIsSilent` | GMM/Pods/leveldb-library/db/log_reader.cc:222-233 | behind a cut through a payload nothing appended is read, without complaint, until the file is as long as the payload claims |
| `LogReuse.AppendedIsLost` | GMM/Pods/leveldb-library/db/log_reader.cc:222-233 | one such log, for every checksum |
| `LogReuse.WriteCutAppendRead` | GMM/Pods/leveldb-library/db/log_writer.cc:27-30 | a log written, cut, reopened at its end, appended to and read gives what that function gives |
| `LogWriter.Writer.AddRecord` | GMM/Pods/leveldb-library/db/log_writer.cc:34-108 | appends the record's fragments, block by block, trailers filled, an empty record once |
| `Durability.StepKeepsDurable` | GMM/Pods/leveldb-library/db/db_impl.cc:535-566 | whatever happens, an append the log refuses or cannot sync included, every entry not in a table is in a live log, in order, and the manifest covers the rest |
| `CrashRecovery.Recoverer.RecoverLogs` | GMM/Pods/leveldb-library/db/db_impl.cc:371-489 | replaying the live logs puts every entry in new level-0 tables or, exactly if logs may be reused and the last one never filled a memtable, its entries in a memtable, and notes the first free number |
| `CrashRecovery.Open` | GMM/Pods/leveldb-library/db/db_impl.cc:280-369 | opening after a crash at any step boundary gives a well-formed, durable store with the same entries and a last sequence number past them all |
| `CrashLives.LifeKeepsDurable` | GMM/Pods/leveldb-library/db/db_impl.cc:280-489 | over any number of runs, crashes, openings and crashes while opening the store stays durable and faithful and its history only grows |
| `CrashLives.CrashAndOpen` | GMM/Pods/leveldb-library/db/db_impl.cc:280-489 | after any such life that ended in a crash, opening recovers every write ever acknowledged, every read at a number the history had reached, and every read of the store that crashed |
| `Manifests.Recover` | GMM/Pods/leveldb-library/db/version_set.cc:886-1011 | the loop over a manifest's bytes gives the levels and counters that the edits read come to, and refuses exactly those with a corrupt part or without one of the counters |
| `ManifestReuse.ManifestReadsIff` | GMM/Pods/leveldb-library/db/version_set.cc:1013-1042 | a manifest opened for appending behind whatever a crash had left reads as its edits without those that are lost; which are none exactly when the old end was whole, or near the end of its block; and it is read back in full, without complaint, if and only if it is sound |
| `ManifestReuse.AppendedEditIsLost` | GMM/Pods/leveldb-library/db/version_set.cc:1013-1042 | one manifest, for every checksum: a crash tears the record of a flush, the store opens, appends an edit, and the next recovery does not find it, without complaint |
| `ManifestLives.LifeIsDescribed` | GMM/Pods/leveldb-library/db/version_set.cc:801-884 | over any life the edits journalled, appended behind what crashes left or begun anew with a snapshot, come to what the disk says; no number is added to a level twice |
| `ManifestLives.LifeIsReadIff` | GMM/Pods/leveldb-library/db/version_set.cc:1013-1042 | after any life the manifest is read back as its edits if and only if it is sound; always, if no record was torn where it was last opened for appending |
| `ManifestLives.RecoverLeft` | GMM/Pods/leveldb-library/db/version_set.cc:886-1011 | from the bytes that any life ending in a crash leaves, recovery gives the disk's levels and counters if the manifest is sound; else it refuses, or takes the manifest for one with fewer edits |
| `ManifestLives.OpenFromManifest` | GMM/Pods/leveldb-library/db/version_set.cc:886-1011 | opening from the bytes of a sound manifest after any such life gives back the durable store with its history |
| `BatchFormat.BatchReadsBack` | GMM/Pods/leveldb-library/db/write_batch.cc:42-81 | iterating over a batch hands over its operations in order, and ends well |
| `BatchGrammar.BatchIff` | GMM/Pods/leveldb-library/db/write_batch.cc:42-81 | iterating over any bytes hands over these records and ends well if and only if they are a header with their count and the records one after the other, key and value behind varint lengths |
| `BatchGrammar.WalkTakes` | GMM/Pods/leveldb-library/db/write_batch.cc:42-81 | and otherwise the records that the bytes begin with, up to what does not begin with one |
| `BatchSamples.TwoOperations` | GMM/Pods/leveldb-library/db/write_batch.cc:5-13 | one batch, byte by byte |
| `WriteBatches.WriteBatch.Append` | GMM/Pods/leveldb-library/db/write_batch.cc:144-149 | appending a batch, possibly itself, appends its operations and keeps the sequence number |
| `WriteBatches.WriteBatch.InsertInto` | GMM/Pods/leveldb-library/db/write_batch.cc:112-137 | the memtable gains the records under consecutive sequence numbers: a read at any of them gives the value of the last record on the key up to it, nothing if that is a deletion, and what it gave before if there is none |
| `GroupSteps.GroupCommitIsSerial` | GMM/Pods/leveldb-library/db/db_impl.cc:1185-1306 | over any run of arrivals, leaders and outcomes, what is committed is what the released writers' batches in order of arrival commit one by one; a synced write that succeeded was synced |
| `GroupSteps.NumbersAscend` | GMM/Pods/leveldb-library/db/db_impl.cc:1206-1238 | no sequence number is used twice, and none above the published last one |
| `GroupSteps.FrontIsReleased` | GMM/Pods/leveldb-library/db/db_impl.cc:1185-1256 | a waiting queue is never stuck: a leader can start, and its finish releases the writer at the front |
| `GroupSteps.GroupKeepsToBound` | GMM/Pods/leveldb-library/db/db_impl.cc:1260-1306 | a group led by a write of at most 128 KB comes to at most 128 KB more, a larger one to at most 1 MB or itself; it ends only at the end of the queue, before a synced write if the leader is not, or before a batch that would exceed that |
| `GroupCommit.WriteQueue.BuildBatchGroup` | GMM/Pods/leveldb-library/db/db_impl.cc:1260-1306 | the group is the prefix the size and sync rules give, its batch their operations one after the other |
| `GroupCommit.WriteQueue.WriteGroup` | GMM/Pods/leveldb-library/db/db_impl.cc:1202-1238 | log, memtable, last sequence number and background error after a group, for every answer of the file system; if all went well a read gives what the last record of the group on the key says, and what it gave before if there is none |
| `GroupRefinement.GroupWriteIsSerialWrites` | GMM/Pods/leveldb-library/db/db_impl.cc:1202-1238 | one combined write takes the store where its members' writes in order would |
| `FileLifetimes.StepKeepsInv` | GMM/Pods/leveldb-library/db/db_impl.cc:223-283 | in every reachable state, openings and crashes included, each table of a listed version, each finished output and each log not yet flushed is on disk, reference counts are exact, and so is the manifest that `CURRENT` names with what it names in turn: what the next opening will read |
| `FileLifetimes.CollectSafeIff` | GMM/Pods/leveldb-library/db/db_impl.cc:223-278 | collecting garbage keeps that if and only if there was a background error, or the store is open and no flush has an uninstalled table |
| `FileLifetimes.ReadersKeepTheirTables` | GMM/Pods/leveldb-library/db/version_set.cc:1167-1177 | over any run a version a reader holds keeps all its tables |
| `FileCollection.FileCollector.DeleteObsoleteFiles` | GMM/Pods/leveldb-library/db/db_impl.cc:223-283 | of a directory exactly these stay, and all of them after a background error: logs from the log number on and the previous one, manifests from the version set's on, live or pending tables and temporary files, and every other file |
| `FileCollection.ManifestIsThere` | GMM/Pods/leveldb-library/db/filename.cc:123-139 | after any run of steps, crashes and openings that leave off anywhere included, the directory holds `CURRENT`, `LOCK`, the manifest that `CURRENT` names and every table of the version it describes |
| `FileCollection.SweptIsSafe` | GMM/Pods/leveldb-library/db/db_impl.cc:223-283 | a sweep of an open store keeps that; afterwards no older manifest is there, and no temporary file that is not pending |
| `MessageWriter.OStream.Encode` | GMM/Pods/nanopb/pb_encode.c:528-550 | writes the message's bytes, or on a sizing stream counts exactly them, and succeeds exactly when there are any and room for them; "submsg size changed" is unreachable |
| `MessageWriter.GetEncodedSize` | GMM/Pods/nanopb/pb_encode.c:567-576 | the sizing pass gives the length of the encoding, if there is one |
| `MessageSamples.VarintKeys` | GMM/Pods/nanopb/pb_encode.c:769-833 | an integer, a boolean and a zigzag number behind their keys, byte by byte |
| `MessageSamples.Word64Key` | GMM/Pods/nanopb/pb_encode.c:669-707 | so eight fixed bytes: wire type 1 |
| `MessageSamples.Word32Key` | GMM/Pods/nanopb/pb_encode.c:669-707 | so four: wire type 5 |
| `MessageReader.FieldIter.Find` | GMM/Pods/nanopb/pb_common.c:87-105 | from wherever it stands, once around, it finds the field with the tag if there is one, its count of required fields kept exact |
| `MessageReader.IStream.DecodeVarint` | GMM/Pods/nanopb/pb_decode.c:255-275 | the loop gives the number of the canonical reading modulo 2^64, and refuses an eleventh byte |
| `MessageReader.IStream.DecodeNoInit` | GMM/Pods/nanopb/pb_decode.c:934-1082 | the loop over records, with field iterator, substreams and the final checks, fills the struct as `Decoded` says, which `DecodedIff` pins; leaves the stream at its end or behind the zero key that ended the message, and fails with a message exactly when `Decoded` does |
| `MessageReader.IStream.Decode` | GMM/Pods/nanopb/pb_decode.c:1084-1096 | the same from the defaults: `DecodedFresh` |
| `MessageRecords.DecodedIff` | GMM/Pods/nanopb/pb_decode.c:934-1082 | any bytes are accepted with a result if and only if they are records, to the end or to a zero key, that fit, and the result is what these come to: numbers, lengths and keys may be varints of any admissible form, arrays packed or not, messages in parts, unknown fields anywhere |
| `MessageRecords.PartsDecode` | GMM/Pods/nanopb/pb_decode.c:406-483 | however the bytes are taken apart into records: an array holds the items of all of them in order, or decoding fails exactly when there are too many or, with a fixed count, not that many before another such array; a required field of the first sixty-four must be among them |
| `MessageRecords.UnnamedHasDefault` | GMM/Pods/nanopb/pb_decode.c:846-932 | a field of a new message that no record is on holds its declared default, or zero, or nothing if it can be absent |
| `MessageRecords.LastValueIsHeld` | GMM/Pods/nanopb/pb_decode.c:406-483 | any other field holds the value of its last record |
| `MessageRecords.UnionHoldsLast` | GMM/Pods/nanopb/pb_decode.c:406-483 | a member of a union is gone when a later record is on another member |
| `MessageRecords.PartsAreMerged` | GMM/Pods/nanopb/pb_decode.c:1525-1547 | a message in two records comes to what one record with the fields of both does |
| `MessageRecords.UnpackedIsRead` | GMM/Pods/nanopb/pb_decode.c:459-474 | 08 01 08 02 is the array [1, 2] |
| `ValueGrammar.Number32Iff` | GMM/Pods/nanopb/pb_decode.c:187-252 | a 32-bit varint is read exactly from groups of seven bits whose fifth byte, if the last, has four bits, and which go on with zeros or the extension of a sign |
| `ValueGrammar.ScalarIff` | GMM/Pods/nanopb/pb_decode.c:1334-1445 | a number is read exactly from a varint of at most ten bytes that is it modulo 2^64, or modulo 2^32 for signed fields of 32 bits and less, and only if the field can hold it; zigzag, booleans and fixed widths likewise |
| `ValueGrammar.BlobIff` | GMM/Pods/nanopb/pb_decode.c:1447-1570 | a text or byte string exactly from a length that fits and as many bytes, a text up to its first zero byte, an empty one of a fixed length as zeros |
| `ValueGrammar.SkipIff` | GMM/Pods/nanopb/pb_decode.c:321-331 | an unknown record is skipped exactly as its wire type says |
| `MessageRoundTrip.UnknownIsSkipped` | GMM/Pods/nanopb/pb_decode.c:321-331 | an unknown record, in any canonical form, leaves the decoder where it was |
| `MessageRoundTrip.MessageDecodes` | GMM/Pods/nanopb/pb_decode.c:934-1082 | an encoding with any unknown records between its own, at every depth, decodes to the message, through nested, packed, fixed-count and union fields |
| `MessageLimits.RoundTrip` | GMM/Pods/nanopb/pb_encode.c:147-236 | every message that fits its struct is encoded, and decoding the bytes, if fewer than 2^32, restores it |
| `MessageLimits.RoundTripIff` | GMM/Pods/nanopb/pb_decode.c:1447-1570 | an encoding under 2^63 bytes is decoded to its message if no written text fills its buffer and no written length needs more than 32 bits, and refused otherwise |
| `MessageLimits.CutMessageIsAcceptedIff` | GMM/Pods/nanopb/pb_decode.c:1043-1079 | bytes cut off after any field are accepted, defaults for the rest, exactly when they cover the first sixty-four required fields |
| `MessageLimits.FullTextRefused` | GMM/Pods/nanopb/pb_decode.c:1487-1523 | a text as long as its buffer is encoded and then refused |
| `PoolState.NextKeepsInv` | GMM/Pods/Libuv-gRPC/src/threadpool.c:57-160 | over all interleavings of workers, submitters and cancellers: each item is in one place, at most (n+1)/2 of n workers run slow work, pending slow work is announced, and no worker sleeps unwoken beside work it could do |
| `PoolState.DeliveredOnce` | GMM/Pods/Libuv-gRPC/src/threadpool.c:295-315 | a delivered item was executed or cancelled, not both, and is delivered once |
| `PoolState.SlowTakesHalf` | GMM/Pods/Libuv-gRPC/src/threadpool.c:45-47 | slow work runs on at most half of the threads, rounded up, and is kept waiting only while it has half of them |
| `PoolOrder.FirstComeFirstServed` | GMM/Pods/Libuv-gRPC/src/threadpool.c:142-160 | over any run, of two waiting items of one kind the one submitted later does not begin before the other has begun or been cancelled |
| `PoolState.CancellableMeansUnexecuted` | GMM/Pods/Libuv-gRPC/src/threadpool.c:269-293 | the cancel test succeeds exactly for items not yet begun |
| `PoolState.AsleepMeansIdle` | GMM/Pods/Libuv-gRPC/src/threadpool.c:57-130 | when every worker sleeps unwoken, no work is queued or pending |
| `ThreadPools.ThreadPool.WorkerRun` | GMM/Pods/Libuv-gRPC/src/threadpool.c:57-130 | the worker loop, from taking the mutex to releasing it, is a path of steps of the machine and ends asleep with nothing to act on or with an item to run |
| `HeapOrder.RootIsLeast` | GMM/Pods/Libuv-gRPC/src/heap-inl.h:67-70 | in a tree ordered parent by child no key is less than the root's |
| `HeapOrder.PathTo` | GMM/Pods/Libuv-gRPC/src/heap-inl.h:118-126 | the low bits of a slot's number, collected from the low end, lead from the root to that slot |
| `Heaps.Heap.Insert` | GMM/Pods/Libuv-gRPC/src/heap-inl.h:106-148 | the tree stays complete, linked both ways and ordered, with exactly the new node more |
| `Heaps.Heap.Remove` | GMM/Pods/Libuv-gRPC/src/heap-inl.h:150-237 | so it does after removing any node, with exactly that node less |
| `Timers.Loop.RunTimers` | GMM/Pods/Libuv-gRPC/src/timer.c:154-171 | with inert callbacks and time below 2^64-1 it ends, every due timer fires once, in ascending order of due time and, where that is equal, of starting, repeating ones armed again for later |
| `Timers.Loop.Start` | GMM/Pods/Libuv-gRPC/src/timer.c:66-94 | refuses a closing handle or a null callback and changes nothing; otherwise the timer is due at the clamped sum, behind those started before |
| `Timers.Loop.NextTimeout` | GMM/Pods/Libuv-gRPC/src/timer.c:133-151 | -1 without timers, 0 when one is due, else the wait for the earliest, at most 2^31-1 |
| `DomainNames.LabelReadsBackIff` | GMM/Pods/Libuv-gRPC/src/idna.c:102-246 | the decoder of section 6.2 of RFC 3492 gives back every label that was accepted, except exactly the ASCII ones that begin with the prefix in either case |
| `DomainNames.HostReadsBackIff` | GMM/Pods/Libuv-gRPC/src/idna.c:250-291 | a whole name, split at any of the four full stops, reads back with ASCII ones if and only if no label is of that kind |
| `NameSamples.FullStops` | GMM/Pods/Libuv-gRPC/src/idna.c:258-269 | a name of five labels with a full stop of each kind between them |
| `NameSamples.OneLabel` | GMM/Pods/Libuv-gRPC/src/idna.c:258-269 | a name with none of the four is one label |
| `PunycodeText.RoundDecodes` | GMM/Pods/Libuv-gRPC/src/idna.c:166-243 | whatever the encoder still writes after any round takes a decoder that is `delta` states behind, holding the code points handled so far, to the whole label |
| `DomainNames.ShortLabelsFit` | GMM/Pods/Libuv-gRPC/src/idna.c:174-189 | a label of at most 3855 code points never overflows the counter |
| `DomainNames.LongLabelRefused` | GMM/Pods/Libuv-gRPC/src/idna.c:174-178 | there is one of 3856 that does: the bound is exact |
| `DomainNames.SampleLabel` | GMM/Pods/Libuv-gRPC/src/idna.c:196-238 | one label with two insertions, digit by digit: it pins the numbers of section 5 of RFC 3492, which a round trip alone does not |
| `Idna.ConvertLabel` | GMM/Pods/Libuv-gRPC/src/idna.c:102-246 | the passes over the label, in 32-bit arithmetic that never wraps unnoticed, end and write what `LabelText` says, cut where the buffer ends, or report its error |
| `Idna.ConvertHost` | GMM/Pods/Libuv-gRPC/src/idna.c:250-291 | so does the loop over the labels for `HostText`, with a NUL, and returns the bytes in the buffer |
| `AddressText.Read4Iff` | GMM/Pods/Libuv-gRPC/src/inet.c:179-215 | a text is read as an IPv4 address if and only if it is what that address prints as |
| `AddressText.CompressedIff` | GMM/Pods/Libuv-gRPC/src/inet.c:88-111 | "::" stands for the leftmost of the longest runs of at least two zero words, as section 4.2 of RFC 5952 asks, and no other choice obeys that rule |
| `AddressText.Print6ReadsBack` | GMM/Pods/Libuv-gRPC/src/inet.c:67-147 | every one of the 2^128 addresses reads back from its printed text, runs at either end and dotted quads included |
| `AddressText.ZonedReadsBack` | GMM/Pods/Libuv-gRPC/src/inet.c:150-176 | the text fits its buffer, and reads back with any zone behind it |
| `AddressGrammar.Read6Iff` | GMM/Pods/Libuv-gRPC/src/inet.c:218-302 | a text is read as an IPv6 address if and only if it spells it, section 2.2 of RFC 4291: words of one to four hexadecimal digits of either case, leading zeros allowed, at most one "::" for one or more zero words, perhaps a dotted quad for the last two |
| `AddressGrammar.ReadZonedIff` | GMM/Pods/Libuv-gRPC/src/inet.c:150-176 | so with a zone behind it, if what is before it fits the buffer |
| `AddressGrammar.EmbeddedText` | GMM/Pods/Libuv-gRPC/src/inet.c:126-137 | an address of six zero words and no seventh, or of five and one of ones, is printed with its last two words as a dotted quad |
| `AddressGrammar.NoDotElse` | GMM/Pods/Libuv-gRPC/src/inet.c:126-137 | and no other one |
| `Inet.FindBest` | GMM/Pods/Libuv-gRPC/src/inet.c:88-111 | the loop over the words finds that run |
| `Inet.Ntop6` | GMM/Pods/Libuv-gRPC/src/inet.c:67-147 | the caller's buffer holds the printed text and a NUL, cut to its size, with an error exactly when it was cut |
| `Inet.UvInetPton` | GMM/Pods/Libuv-gRPC/src/inet.c:150-176 | by address family, with the zone dropped, the bytes read or the error; after an error the destination is as before; what is read is pinned by `Read4Iff` and `ReadZonedIff` |
| `Inet.Pton6` | GMM/Pods/Libuv-gRPC/src/inet.c:218-302 | the loop over the characters, and the shift in place for "::", store the bytes the text stands for, or refuse it and leave the destination alone; which, `Read6Iff` says |

## Left out

- User keys are integers standing for their rank under the user comparator, values are strings; bytes
  are modelled where bytes are the point (logs, edits, batches, messages).
- Sequence numbers stay below 2^56-1; the 32-bit heap counter and the 64-bit timer counter do not wrap.
- Tables, blocks, caches, the arena, the merging iterator, `coding.h` and crc32c are not in the
  repository or carry no state of their own: a table is a sorted sequence, `MergeInputs` stands for the merging iterator, varints and
  length prefixes are written out, and the checksum is an uninterpreted function.
- Operating-system calls, real threads and memory orderings: outcomes of file operations and the order
  of steps are parameters, and one store to a link is one step.
- What recovery of the logs makes of corrupt records, `initial_offset` above 0 in logs, `repair.cc`, and statistics.
- `CompactionInputs.PickCompaction`: the level's score and the count of seeks that set a compaction off are
  parameters, and so is that size goes before seeks.
- `CompactionWork.DoCompactionWork`: does not flush the immutable memtable inside the loop, which the state machine
  does as a step of its own, and its file operations do not fail.
- `StoreObject.DBImpl.Write`: one writer with a batch; the queue of writers is `GroupCommit`, and that a sync may fail after a good
  append is a step of `Durability`. Waiting for room is left out.
- `StoreObject.DBImpl.CompactMemTable`: table and manifest writes do not fail; the sweep of files is `FileCollection`.
- `StoreObject.DBImpl.BackgroundCompaction`: does not interleave a flush with its own compaction loop, nor fail; the
  state machine does both.
- `VersionBuilder.ReplayManifest`: compact pointers, which `Apply` stores too, are left to `VersionEdits`.
- `CrashRecovery.Recoverer.RecoverLogs`: logs are lists of batches; records too short for a header, batches that do not parse and
  `paranoid_checks` are not modelled.
- `Manifests.Recover`: edits that do not parse, a foreign comparator, the previous log number and the file `CURRENT`
  are not modelled.
- `CrashRecovery.Open`: a previous log number other than 0 and the check that every table still exists
  are not modelled; reads below the floor, the smallest snapshot of the last compaction, are not promised.
  A log that is reused is taken to end between records; what happens otherwise is the fourth finding.
- `ManifestLives.OpenFromManifest`: the manifest is bytes, the logs are lists of batches; `CURRENT` changes at once, and a
  write to the manifest fails only in a crash. A life goes on from an opening that read its manifest in full; what becomes of a
  store opened from a manifest that lacks edits is not followed. The condition that the manifest is sound is the one of the
  fourth finding.
- `PoolState.NextKeepsInv`: the exit message that ends the workers is not modelled, nor are several loops and
  `uv_once`; one loop collects results.
- `ThreadPools.ThreadPool.WorkerRun`: has no branch for the exit message, for the same reason.
- `FileLifetimes.StepKeepsInv`: a rename of `CURRENT` that reports failure has not happened; creating and destroying a whole
  database are not modelled, and a crash loses no file that was written before.
- nanopb: callback, pointer and extension fields, `PB_WITHOUT_64BIT`, `size_t` limits, and which
  message a failing packed array leaves behind. `fields_seen` is a set, `bitpos` does not wrap, and an empty description finds no tag 0.
- UTF-8 decoding in `idna.c`: names are sequences of code points, an ill-formed byte the value it decodes to. The
  decoder of RFC 3492 is unbounded: its own overflow check is not modelled.
- `uv_inet_ntop`, which only dispatches. `snprintf` of numbers is their digits.
- The app's own Swift code.
