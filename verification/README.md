# Kurn: verified models of the engine

Kurn is an in-memory search engine for named lists. This project models its
engine in Dafny and proves what its layers promise each other:

* **Durable list store** (`Store`, `StoreDisk`, `Quarantine`, `PowerLoss`,
  `CloseProtocol`, `CloseDrain`, `JournalFile`, `ServedList`, `ListState`,
  `ListModel`). A list is a base, an overlay and
  tombstones in memory; on disk it is a configuration, a base file, an index
  cache, a journal and a creating marker. Every operation is a sequence of disk
  steps, each of which can fail and after each of which the process can die.
  The flag `calm` says that no step of the next operation fails: the contracts
  hold either way, and with it they also say exactly when an operation succeeds.
  The ghost flag `shipped` says that a bundle was moved in from outside and not yet
  reloaded.
  Closing a store is a state machine over every interleaving of mutations,
  background work, closers and the group-commit goroutine.
* **Query path** (`Grams`, `NgramIndex`, `ScratchPool`, `HitHeap`, `Ranking`,
  `NgramLookup`, `SegmentCut`, `IdHeap`, `ExactQuery`, `ExactParent`, `ExactBuild`). Each fast
  form (the pigeonhole split, the probe's early exit, the pooled accumulator, the
  bounded heaps, the per-segment cuts) computes what scoring and sorting
  everything would.
* **Typed filters** (`JsonGrammar`, `JsonReading`, `JsonNumber`, `JsonText`,
  `PayloadScan`, `FilterTrie`, `FilterEval`, `Decimal`, `Numbers`, `NumberCanon`,
  `NumberOrder`, `TypedFilter`, `FilterParse`, `FilterMeaning`, `ClampedLine`). The grammar is that of RFC 8259,
  sections 2 to 7, written as trees that render to bytes.
* **Binary formats** (`Frozen`, `Records`, `RecordsCode`, `RecordsWrite`,
  `RecordsLimit`, `RecordIds`, `BaseLine`, `ContainerFormat`, `ContainerWrite`,
  `Container`, `ExactIndex`, `ExactLayout`, `ExactCode`, `ExactRead`, `ExactFile`,
  `ExactSave`, `ExactLimits`). What is written is read
  back, and what is accepted is what some writer would have written.

`Bytes`, `BitCount`, `Buffers`, `Options`, `Packing`, `Seqs`, `Spelling` and
`Weights` hold what several of these share.

The code's loops, cursors, heaps and in-place writes are methods and classes with
their own state; each is proved against a function or predicate, about which the
lemmas then say what the engine promises. `dafny verify dfyconfig.toml` checks the
project.

Taken as parameters: the analyzer (normalized keys and queries), IDF weights as
positive reals, a monotone score rounding, the JSON line codec and header codec
(they round-trip and a line holds no newline), the payload filter's verdict in
queries, the digest function, cancellation, and which disk steps fail. SHA-256 is
injective: a content hash is the content.

Four facts about the code that its own documentation does not state:

* `canonicalNumberTokenBytes` clamps the exponent before it knows how many zeros
  the digits carry, so a token of about a million bytes gets the bytes of another
  number (`Numbers.ClampGivesWrongNumber`), and a record that says 1 passes a filter
  that asks for 10 (`ClampedLine.PassesWrongly`). Exactness holds iff the
  clamp does not clip (`Numbers.CanonicalIsTrue`,
  `FilterMeaning.TypedIffUnclipped`), and always under 999,800 bytes.
* `encodeRecords` writes more than 2^32 - 1 keys, which `parseRecords` then refuses
  (`RecordsLimit.TooManyKeys`, `RecordsWrite.EncodedIsRead`). `encodeExact` and
  `parseExactSection` differ in the same way about postings
  (`ExactLimits.TooManyPostings`, `ExactRead.WrittenIsRead`), but only beside
  records that are not read either (`ExactLimits.RecordsBindFirst`).
* A crash in the middle of a journal append quarantines the whole journal,
  acknowledged records included, iff the records that did reach the file make an
  overlay that cannot be indexed although the whole batch would have
  (`Store.AppendRecovery`; `Quarantine.LosingRun` is such a run).
* `SaveExact` writes files that `LoadExact` refuses: a header over 2^20 bytes, a
  build record no build makes or with fewer entries than ordinals, or runs that in
  key order start past the locator (`ExactFile.SavedLoads`; one input for each is
  `ExactLimits.HeaderTooLong`, `ExactLimits.FewerEntries` and
  `ExactLimits.OffsetPastLocator`). The store passes it a digest for the analyzer
  and the record of its own build, which meet the first two bounds.

## Model

| member | source | states |
|---|---|---|
| `Store.ListStore.Durable` | engine/store.go:428-539 | A list that is undamaged and at rest reopens as exactly what it serves: the same live map, the same version stamp, the journal never set aside; what it serves is the acknowledged records applied to its base |
| `Store.ListStore.Run` | engine/store.go:282-323 | Every run of creates, upserts, deletes, replaces, compacts, shipped bundles, reloads, failing disk steps and process crashes, in any order, keeps the invariant that `Durable` rests on; create damage outlives every run without a create or a restart |
| `Store.ListStore.Do` | engine/store.go:282-323 | Create damage is cleared only by a create that succeeds (a restart looks at the directory afresh), content damage only by a create, replace or compact that does; under create damage the other operations leave memory alone, and all but shipping the directory too |
| `Store.ListStore.AppendJournal` | engine/store.go:1498-1561 | Refused without a step while damaged; otherwise the journal grows by exactly the records' lines or is rolled back to what it was, and only a failed rollback leaves content damage; every crash point holds the old journal and some prefix of the lines; without disk failures it succeeds iff every line is within the limit |
| `Store.ListStore.WriteAndSync` | engine/store.go:1534-1556 | A write leaves some prefix of its bytes at every crash point and all of them when acknowledged under the configured sync mode |
| `Store.ListStore.Mutate` | engine/store.go:754-772 | Acknowledged means applied in memory and in the journal alike; refused means neither moved; without disk failures it is acknowledged iff the lines fit and the new overlay can be indexed |
| `Store.ListStore.Upsert` | engine/store.go:735-772 | The live map is overridden by the batch, the last duplicate winning, or nothing changes |
| `Store.ListStore.Delete` | engine/store.go:839-867 | The live map loses exactly this ID, or nothing changes |
| `Store.ListStore.Rebase` | engine/store.go:1209-1224 | Between old and new base only four directory states occur, none with an index beside a base it was not built over; before the rename the old state is kept, after it the new base is in place |
| `Store.ListStore.Install` | engine/store.go:1136-1199 | A prepared base is served with an empty overlay and a fresh stamp once persisted; a failure after the rename is content damage, before it none |
| `Store.ListStore.Serve` | engine/store.go:1160-1199 | A base in place is served fresh, and memory and directory agree again unless another configuration was shipped |
| `Store.ListStore.SaveArtifact` | engine/store.go:1239-1260 | The index cache written is the one of the base that is served; failing to write it changes nothing |
| `Store.ListStore.Replace` | engine/store.go:1136-1199 | The live map becomes the last-wins map of the entries, damage is cleared; refused under create damage, and otherwise failing changes neither map nor memory |
| `Store.ListStore.Compact` | engine/store.go:1030-1098 | The live map is unchanged and the overlay empty; every crash point of the operation reopens as the acknowledged live map; refused under create damage |
| `Store.ListStore.CreateList` | engine/store.go:607-710 | Only the new empty list is served once acknowledged; a failure inside the window is create damage; every crash point reopens as before, not at all, or as the new empty list; without disk failures it succeeds iff the declaration is valid |
| `Store.ListStore.Configure` | engine/store.go:679-709 | Over wiped data every crash point is marked or already the new empty list |
| `Store.ListStore.Wipe` | engine/store.go:665-678 | While old data is removed the creating marker stands at every crash point |
| `Store.ListStore.OpenDir` | engine/store.go:428-539 | Opening serves what the directory says: base, journal over it, torn tail cut, journal set aside only if its overlay cannot be indexed; the directory is left in agreement with memory |
| `Store.ListStore.Replay` | engine/store.go:475-539 | The journal is replayed over the base in one batch; set aside only if its overlay cannot be indexed |
| `Store.ListStore.Heal` | engine/store.go:553-584 | A rebuilt index cache is written beside the base it was rebuilt from |
| `Store.ListStore.LoadJournal` | engine/store.go:478-493 | The intact records are loaded, and the file is cut exactly behind them |
| `Store.ListStore.Reload` | engine/store.go:888-933 | Refused while damaged or while the journal holds records; otherwise memory becomes what the directory, shipped or not, opens as, and an acknowledged reload never quarantines; a failed one leaves what is served as it was |
| `Store.ListStore.Ship` | engine/store.go:869-876 | A bundle's files arrive in five steps, each of which may be the last, without touching what is served; every directory on the way can be reopened, and operations may go on in between |
| `Store.ListStore.Publish` | engine/store.go:869-933 | Shipping and reloading serves exactly the bundle (its entries, its configuration, a fresh stamp) or exactly what was served before; without disk failures it succeeds iff the list is undamaged, no creating marker stands and the entries can be indexed |
| `Store.ShippedOpens` | engine/store.go:428-539 | A whole bundle opens as its entries with nothing on top, or is skipped under a marker or when they cannot be indexed; what its index cache is like does not matter |
| `Store.ListStore.ReopensShipped` | engine/store.go:428-539 | With a bundle shipped and records acknowledged before any reload, a restart serves the bundle with those records on top, or the bundle alone when they cannot be indexed over it, whatever memory served |
| `Store.ShipSound` | engine/store.go:869-876 | However far a bundle got, the directory is one the recovery argument covers |
| `Store.ListStore.Crash` | engine/store.go:388-413 | A process that dies at any recorded step reopens as what that directory says, and the invariant holds again |
| `Store.ListStore.IndexNeverForeign` | engine/store.go:1201-1224 | No crash point outside the creating window has a base.idx beside a base it was not built from |
| `Store.ReplayOverFold` | engine/store.go:1060-1098 | With the new base in place and the journal not yet emptied, reopening gives the acknowledged live map: replaying records over their own fold changes nothing |
| `Store.FoldRecovers` | engine/store.go:1030-1098 | All the states a compaction passes through reopen as the acknowledged live map |
| `Store.AppendRecovery` | engine/store.go:478-539 | After a crash with k bytes of an append written, the acknowledged map plus the whole records among them is served iff the overlay they make can be indexed; otherwise, and only then, the journal is quarantined |
| `Quarantine.QuarantineHappens` | engine/store.go:478-539 | It happens: with 2^20 - 1 acknowledged entries under one key and a batch that adds a holder and then drops one, the whole batch can be indexed, its first line alone cannot, and a crash between the two reopens the list without a single acknowledged entry |
| `Quarantine.LosingRun` | engine/store.go:735-772 | The same as a run of the store from an empty directory: create, two acknowledged upserts, a crash where the second one's first line ends; the list comes back empty |
| `Quarantine.CanBuildIff` | engine/list.go:314-358 | A live map can be indexed iff no analyzed key is held by more than 2^20 - 1 of its entries |
| `StoreDisk.SyncOpens` | engine/store.go:428-539 | A directory in agreement with memory opens as that memory, stamp included |
| `StoreDisk.OpenSyncs` | engine/store.go:428-539 | Opening any directory a crash can leave brings directory and memory into agreement |
| `StoreDisk.SyncIsSound` | engine/store.go:428-539 | A directory in agreement is one the recovery argument covers |
| `StoreDisk.CacheIsDisposable` | engine/store.go:541-584 | No directory a crash leaves opens otherwise for having an index cache: used or not, it decides nothing |
| `JournalFile.ReadJournal` | engine/store.go:1609-1651 | The loop computes the reading: all intact records and the offset at which the file stops being intact |
| `JournalFile.Reader.ReadBoundedLine` | engine/store.go:1661-1674 | The line read is the file's next line however the buffered reader cuts it into chunks, and at most the bound of it is held |
| `JournalFile.TornRepair` | engine/store.go:478-493 | Cutting a torn file at the reported offset leaves the same records and a clean file |
| `JournalFile.ReadAppend` | engine/store.go:1609-1651 | After a clean file whatever follows is read as if it stood alone |
| `JournalFile.AppendReads` | engine/store.go:1498-1561 | A later append is read as the old records, then the new ones, and the file stays clean |
| `JournalFile.CrashDuringAppend` | engine/store.go:1609-1651 | Any byte prefix of an append in flight is read as the acknowledged records followed by exactly the whole lines of that prefix |
| `PowerLoss.PowerDir.CreateList` | engine/store.go:645-709 | At every point of the operation, whichever unsynced renames and removals survive, only clean states can be left; once acknowledged the durable directory is exactly the new empty list |
| `PowerLoss.LossIsClean` | engine/store.go:645-709 | Any subset of the pending changes surviving leaves the old list intact, a marked directory, or a new empty list: never old configuration over wiped data without its marker |
| `PowerLoss.CleanOpens` | engine/store.go:428-436 | Such a state opens as the old list, is skipped, or opens as a new empty list of an attempted configuration |
| `PowerLoss.PowerDir.Bracket` | engine/store.go:644-664 | The marker is durable before anything else is touched |
| `PowerLoss.PowerDir.Rewrite` | engine/store.go:665-687 | Wipe and new configuration are durable together before the marker goes |
| `PowerLoss.PowerDir.Within` | engine/store.go:1777-1801 | A change inside the bracket is visible at once and harmless whenever it is lost |
| `CloseProtocol.StepKeeps` | engine/store.go:164-229 | One invariant over mutations, closers and committer is kept by every step of every interleaving |
| `CloseProtocol.ReturnedIsQuiet` | engine/store.go:1328-1360 | After any Close has returned, a step admits nothing, writes nothing, asks for no sync and syncs nothing |
| `CloseProtocol.ClosedForGood` | engine/store.go:1313-1360 | And so for every continuation: no operation is ever in flight again and the numbers of writes, syncs and requests stay what they were |
| `CloseProtocol.WokenOnce` | engine/store.go:170-184 | A waiter wakes with exactly one reply, from a sync of the path it asked for, performed after it asked |
| `CloseProtocol.NeverStranded` | engine/store.go:195-229 | A waiter without a reply is pending at a committer that is running, and is flushing or has its timer armed, so that a step towards the answer is enabled |
| `CloseDrain.AnswerComes` | engine/store.go:186-229 | A waiting mutation can always be woken: within as many committer steps as requests are pending, and two |
| `CloseDrain.Drain` | engine/store.go:1328-1346 | From every reachable state the operations in flight can all end, one by one, by steps that leave closing as it is |
| `CloseDrain.CloseReturns` | engine/store.go:1313-1360 | Every Close that was called, first or following, can return from any state it waits in |
| `CloseDrain.DrainShrinks` | engine/store.go:1328-1346 | Once closing is under way no step adds an operation in flight, and each end takes one away |
| `CloseProtocol.ExitsIdle` | engine/store.go:219-228 | When the committer has exited nobody is in flight and every request ever made has exactly one reply |
| `CloseProtocol.NothingPendingOnStop` | engine/store.go:186-194 | The flush on the stop signal has nothing left to do |
| `ListState.List.Upsert` | engine/list.go:749-761 | The live map is overridden by the batch, last duplicate winning; it fails, leaving everything as it was, iff the overlay cannot be indexed |
| `ListState.List.Delete` | engine/list.go:766-778 | The live map loses exactly this ID; an absent ID changes nothing |
| `ListState.List.ApplyJournal` | engine/journal.go:28-68 | One-batch replay leaves the overlay and the live map that replaying record by record would |
| `ListState.List.InstallOverlay` | engine/list.go:797-860 | The new overlay is installed as a whole or not at all, and the three snapshot invariants hold again |
| `ListState.List.Replace` | engine/list.go:389-429 | The content becomes the last-wins map of the entries iff they can be indexed |
| `ListState.List.LiveEntries` | engine/list.go:931-950 | Each live entry once, in ID order |
| `ListState.List.Compact` | engine/list.go:903-927 | Base and overlay become one base with the same live map iff it can be indexed |
| `ListState.List.GetStatus` | engine/list.go:2042-2067 | The counters equal the live map's size, the overlay's and the number of masked base entries; dropped keys and keyless entries are those of all indexed entries of base and overlay, masked ones included, when the base's build record is honest; unindexed ones are the base's |
| `ListState.List.ReplaceWithIndex` | engine/list.go:543-675 | A prebuilt index is taken iff it has no more ordinals than there are entries and its build record is possible; the entries past the record's count are then reported as unindexed |
| `ExactBuild.KeylessIsUnfindable` | engine/list.go:336-348 | An entry counted as keyless is exactly one that has keys and that no lookup can find |
| `ListState.List.KeyCount` | engine/list.go:2072-2087 | The counter kept by subtraction equals the raw keys of the live entries |
| `ExactBuild.BuildSegment` | engine/list.go:314-358 | The segment holds the entries with a faithful ID index and true loss counters, and the exact index the queries ask for when the list has one; it fails iff the list has one and some analyzed key has more than 2^20 - 1 holders |
| `ExactBuild.BuildExact` | engine/list.go:314-381 | The exact index of a segment is refused for key overflow iff some analyzed key has more than 2^20 - 1 holders, otherwise only beyond 2^32 - 1 entries or 2^44 - 1 keys; built, it is an index the exact queries ask for |
| `ExactBuild.PostingsBound` | engine/list.go:314-358 | Entries never make more postings than they hold keys |
| `ServedList.Mutate` | engine/store.go:735-772 | The list in memory and the journaling store move together, for any batch: acknowledged, both hold the records applied; refused, neither moved |
| `ServedList.Replace` | engine/store.go:1136-1199 | After a replace the list in memory still holds exactly what the store serves |
| `ServedList.Compact` | engine/store.go:1030-1098 | After a compaction it does too, with the same contents |
| `ListModel.DedupeLastWins` | engine/list.go:721-740 | No ID twice, and the same last-wins map |
| `ListModel.ApplyAllKeeps` | engine/journal.go:28-68 | From a coherent base and overlay, records applied to the overlay act on the live map as the map operations in order |
| `ListModel.ReplayIdempotent` | engine/journal.go:11-27 | Replaying records over their own result changes nothing |
| `ListModel.SourceIgnoresBase` | engine/journal.go:28-68 | The overlay entries a replay leaves do not depend on the base |
| `ListModel.UpsertsAreLastWins` | engine/list.go:872-883 | A batch of upserts is one last-wins override |
| `Grams.CharGrams` | engine/ngram/ngram.go:524-540 | The windows of n runes, each once, in order of first occurrence |
| `Grams.EachGram` | engine/ngram/ngram.go:486-511 | The windows of all sizes, each once over all sizes, in order, and the seen-set grows by exactly them |
| `Grams.QueryGramsAreIndexGrams` | engine/ngram/ngram.go:194-207 | Index side and query side derive the same gram set, and the same order |
| `NgramIndex.Builder.Add` | engine/ngram/ngram.go:88-118 | The postings stay exactly what the entries added so far call for |
| `NgramIndex.Builder.Finish` | engine/ngram/ngram.go:121-139 | The frozen index posts exactly the grams of what was added, and its ordinal count is the largest ordinal plus one |
| `ScratchPool.Scratch.AddGram` | engine/ngram/ngram.go:352-372 | Adds one weight to the ordinals of one list; canceled or not, the touched list has each nonzero ordinal once |
| `ScratchPool.Scratch.Reset` | engine/ngram/ngram.go:232-242 | The accumulator goes back to the pool all zero |
| `ScratchPool.TouchedFits` | engine/ngram/ngram.go:209-230 | The touched list never outgrows its preallocated numOrds slots |
| `HitHeap.SiftWorst` | engine/ngram/ngram.go:453-469 | Sinking a node restores the heap in place and rearranges nothing else |
| `HitHeap.HeapifyWorst` | engine/ngram/ngram.go:447-451 | The buffer becomes a heap of the same hits |
| `HitHeap.RootIsWorst` | engine/ngram/ngram.go:433-451 | No hit in the heap ranks below its root |
| `HitHeap.Offer` | engine/ngram/ngram.go:411-424 | The buffer holds exactly the best K of all hits offered, within its fixed capacity |
| `Ranking.SortedIsTopK` | engine/ngram/ngram.go:374-382 | A sorted list of best hits is collect-everything, sort, truncate |
| `NgramLookup.Split` | engine/ngram/ngram.go:319-330 | The shortest prefix of the rarest-first grams whose mass exceeds what a qualifying entry may lack |
| `NgramLookup.Accumulate` | engine/ngram/ngram.go:352-372 | Each ordinal's count is the mass of the generators it holds |
| `NgramLookup.Probe` | engine/ngram/ngram.go:394-407 | The early exit decides the floor as the full score would, and the score is full whenever it is reached |
| `NgramLookup.Touched` | engine/ngram/ngram.go:320-330 | Pigeonhole: an ordinal that qualifies holds a generator, so scanning only generators misses nothing |
| `NgramLookup.Collect` | engine/ngram/ngram.go:384-425 | The kept hits are the best K of the touched qualifying ordinals and the buffer is min(topK, touched) long |
| `NgramLookup.QueryWeights` | engine/ngram/ngram.go:300-313 | The known query grams, each once, with their weights and total |
| `NgramLookup.Lookup` | engine/ngram/ngram.go:280-431 | The answer is exactly: score every ordinal in full, keep those with a known query gram at or over the threshold and passing the filter, rank, cut at top-K; every exit leaves the accumulator zero |
| `NgramLookup.FoundByOwnKey` | engine/ngram/ngram.go:244-278 | Every indexed entry scores 100 for each of its own keys at every threshold up to 1, iff the key has text after preparation |
| `SegmentCut.WidenedCut` | engine/list.go:1770-1785 | Cutting at top-K plus the number of masked IDs before masking keeps a safe cut |
| `SegmentCut.PlainCut` | engine/list.go:1741-1769 | With the mask inside the predicate no widening is needed |
| `SegmentCut.CollectNgram` | engine/list.go:1737-1789 | One segment contributes a safe cut of its live qualifying entries |
| `SegmentCut.MergedCut` | engine/list.go:1866-1896 | Safe cuts merged, sorted and cut are a best cut of all |
| `SegmentCut.QueryNgram` | engine/list.go:1866-1899 | min(K, N) of the N live qualifying candidates, none scoring below a dropped one; canceled means no result |
| `SegmentCut.BestScores` | engine/list.go:1770-1778 | The i-th returned score is the i-th best score there is, so everything above the K-th score is present |
| `ExactParent.ExactLevels` | engine/list.go:969-987 | The whole key first, then its parent suffixes when fallback is on |
| `ExactParent.ParentsAre` | engine/list.go:961-987 | The parents are exactly the suffixes after a dot that still hold a dot |
| `ExactParent.ParentsShrink` | engine/list.go:961-987 | And they come longest first |
| `ExactParent.CollectLevel` | engine/list.go:1821-1860 | A segment adds the unmasked passing entries of its run, in order, up to the cap |
| `ExactParent.QueryExact` | engine/list.go:1791-1899 | The answer is the first level with a live match at or over the threshold, whole without a top-K, K of it with one, in ID order |
| `ExactParent.ExactIsFunction` | engine/list.go:1791-1865 | Without a top-K that answer is a function of the live map: base, overlay, tombstones and compaction do not show |
| `ExactQuery.AnyOf` | engine/list.go:1382-1454 | The K smallest live IDs holding any term, once each, with their payloads and first matching key |
| `ExactQuery.AnyOfIsFunction` | engine/list.go:1382-1454 | Term order, repetitions and how the live map is spelt as base and overlay change nothing |
| `ExactQuery.Collect` | engine/list.go:1394-1444 | Every term's run in a segment is offered, masked and filtered entries excepted |
| `ExactBuild.PackedIsGood` | engine/exact/exact.go:218-231 | A packed index over the entries' keys answers every lookup with exactly the ordinals the queries above call for |
| `ExactBuild.ReadBackIsGood` | engine/prepared/view.go:693-736 | So does an index read back from the section or the cache file it was written to |
| `ExactBuild.BuildSnapshot` | engine/list.go:314-358 | Base and overlay with packed indexes stand for the live map; refused iff a key has too many holders |
| `ExactBuild.AnyOfPacked` | engine/list.go:1382-1454 | The any-of answer over packed indexes, from nothing but the entries and the tombstones |
| `ExactBuild.QueryPacked` | engine/list.go:1791-1899 | The exact and parent answer over packed indexes, likewise |
| `ExactQuery.WalkRun` | engine/list.go:1401-1435 | One run offered; only a cancellation stops it |
| `IdHeap.AnyOfSelection.Push` | engine/list.go:1509-1522 | The selection again holds exactly the K smallest of all entries offered, each once |
| `IdHeap.AnyOfSelection.Refused` | engine/list.go:1495-1505 | An entry that is not admitted would not be among them |
| `IdHeap.Up` | engine/list.go:1524-1533 | Raising the last element restores the heap of the same items |
| `IdHeap.Down` | engine/list.go:1535-1551 | Sinking the root restores the heap of the same items |
| `JsonReading.ReadIsGrammar` | engine/payload.go:118-220 | A byte string is read as a tree iff the grammar renders that tree to it: the reading is sound, complete and unique |
| `JsonNumber.NumberIsRead` | engine/payload.go:224-267 | A token is read iff it is the spelling of a well-formed number |
| `JsonNumber.ValidScalarToken` | engine/payload.go:224-267 | The scalar check accepts exactly true, false, null and the number tokens |
| `PayloadScan.Cursor.RawString` | engine/payload.go:56-103 | Jumping from quote to backslash consumes exactly the grammar's string, escapes and control bytes checked |
| `PayloadScan.Cursor.Escape` | engine/payload.go:73-93 | An escape is consumed iff it is one of the grammar's |
| `PayloadScan.Cursor.RawScalar` | engine/payload.go:143-157 | A scalar ends at the first delimiter and is checked whole |
| `PayloadScan.Cursor.Key` | engine/payload.go:166-175 | A key and its colon, where the grammar has one |
| `PayloadScan.Cursor.SkipValue` | engine/payload.go:121-140 | Accepts a value iff the grammar does and stops where it ends |
| `PayloadScan.Cursor.SkipObject` | engine/payload.go:159-193 | The same for objects |
| `PayloadScan.Cursor.SkipArray` | engine/payload.go:195-220 | The same for arrays |
| `FilterTrie.CompileTrie` | engine/filter.go:102-157 | The shared trie holds exactly the terms' paths, and the full mask one bit a term |
| `FilterTrie.FiresIsReached` | engine/payload.go:325-468 | What one walk over the trie records for a term is: some value reached by its path, arrays descended at any depth, every duplicate member followed, matches |
| `FilterTrie.FullIsAll` | engine/filter.go:43-58 | All bits set iff every term is satisfied |
| `FilterTrie.FastCompareIsExact` | engine/payload.go:269-293 | Comparing without decoding agrees with comparing decoded |
| `FilterTrie.MaskExtensional` | engine/filter.go:21-58 | A mask is its eight bits |
| `FilterEval.MatchesScalar` | engine/payload.go:369-400 | Decides whether a non-string scalar is one of the alternatives by its canonical bytes; `FilterMeaning.TypedIffUnclipped` says when that is equality of typed values |
| `FilterEval.FireTerms` | engine/payload.go:325-358 | Exactly the node's terms that this scalar matches are recorded |
| `FilterEval.Child` | engine/payload.go:309-318 | The child found is the one whose segment is the decoded key |
| `FilterEval.WalkValue` | engine/payload.go:325-358 | Accepts and consumes exactly what the skipping scanner does, whatever the filter, and records exactly what this value fires |
| `FilterEval.WalkObject` | engine/payload.go:402-441 | The same for objects, unknown keys skipped |
| `FilterEval.WalkArray` | engine/payload.go:443-468 | The same for arrays, each element against the same node |
| `FilterEval.Eval` | engine/filter.go:43-58 | Malformed iff the payload is no JSON text, independent of the filter; otherwise it passes iff every term is satisfied by the text's one tree |
| `FilterMeaning.MatchesIsTyped` | engine/payload.go:360-400 | A payload scalar matches iff the value it spells is one the alternatives stand for, unless the exponent clamp clips it |
| `FilterMeaning.TypedIffUnclipped` | engine/payload.go:360-400 | And that exception is exact: it matches as typed values for every list of alternatives iff it is not clipped |
| `FilterMeaning.OneMatchesTen` | engine/typed_filter.go:532-546 | A payload number of value 1, short enough for a base line, matches the filter value 10 |
| `ClampedLine.PassesWrongly` | engine/filter.go:43-58 | From end to end: a record whose line is within 2^20 bytes and whose payload says 1 passes the compiled filter that asks for 10 |
| `ClampedLine.LongRecordFits` | engine/prepared/encode.go:102-137 | That record is one the engine takes: good strings, a canonical payload, a line within the bound |
| `FilterMeaning.FindField` | engine/filter.go:114-119 | Binary search finds a declared name iff it is declared |
| `FilterMeaning.SplitIsInverse` | engine/filter.go:120 | A path's segments are the one dot-free list that joins to it |
| `FilterMeaning.CompileTypedFilter` | engine/filter.go:100-157 | No filter for the empty request, an error naming its first undeclared name, otherwise the trie of every entry's alternatives at its declared path |
| `FilterMeaning.AsksItsNames` | engine/typed_filter.go:118-150 | A request asks about exactly the names it holds |
| `FilterMeaning.ShortIsUnclipped` | engine/typed_filter.go:532-546 | The clamp touches nothing in a payload shorter than 999,800 bytes |
| `FilterMeaning.EvalTypedFilter` | engine/filter.go:43-58 | An accepted request, compiled and evaluated: malformed iff the payload is no JSON text; otherwise it passes iff for every name some value at the declared path has the canonical bytes of an alternative, which, where the clamp touches nothing, is iff some value the payload says there is one the request lets that name be |
| `NumberCanon.CanonicalNumberTokenBytes` | engine/typed_filter.go:481-632 | The in-place scan computes the canonical form: parts, clamp, significant window, envelope, plain notation |
| `NumberCanon.ScanNumber` | engine/typed_filter.go:485-550 | The parts found are the number's, or the token is none |
| `NumberCanon.MarksAreEnds` | engine/typed_filter.go:552-569 | The marks of the digit visit delimit the normal form's digits |
| `NumberCanon.WriteFixed` | engine/typed_filter.go:609-631 | The three output shapes are the number's plain notation |
| `Numbers.RejectsOnlyNonNumbers` | engine/typed_filter.go:481-550 | A token is rejected as invalid iff it is no JSON number: the same tokens the scanner accepts |
| `Numbers.CanonicalIsTrue` | engine/typed_filter.go:523-580 | The bytes written are those of the number's true normal form iff the exponent clamp does not clip it |
| `Numbers.ShortIsTrue` | engine/typed_filter.go:532-546 | No token shorter than 999,800 bytes is clipped |
| `Numbers.ClampGivesWrongNumber` | engine/typed_filter.go:532-546 | A concrete long token of value 1 is canonicalized to 10: the bound on the length is real |
| `Numbers.SameBytesIffEqual` | engine/typed_filter.go:471-632 | Two numbers inside the envelope get the same bytes iff they are equal |
| `Numbers.Idempotent` | engine/typed_filter.go:471-632 | A canonical form is its own canonical form, in requests and payloads |
| `Numbers.RequestIsTrue` | engine/typed_filter.go:481-593 | A request number is accepted iff it is short enough and in the envelope, and then written exactly as in a payload |
| `Numbers.FixedReads` | engine/typed_filter.go:609-631 | Plain notation is a JSON number that reads back as the normal form it was written from |
| `Numbers.FixedInjective` | engine/typed_filter.go:609-631 | Different normal forms have different bytes |
| `Decimal.NormalUnique` | engine/typed_filter.go:552-580 | A value has one normal form |
| `Decimal.NormalizeValue` | engine/typed_filter.go:552-580 | Stripping zeros and shifting the exponent keeps the value |
| `NumberOrder.CompareIsOrder` | engine/typed_filter.go:634-653 | The comparator's sign on canonical bytes is the order of the numbers |
| `NumberOrder.MagnitudeOrder` | engine/typed_filter.go:655-686 | Digit-by-digit comparison of unsigned plain numbers is the order of their values |
| `NumberOrder.CompareCanonicalMagnitudes` | engine/typed_filter.go:655-686 | The loop over the digits computes that comparison |
| `JsonText.AppendJSONString` | engine/typed_filter.go:418-455 | Writes the one canonical spelling of a string, quoted |
| `JsonText.EscapeDecodes` | engine/typed_filter.go:418-455 | That spelling is a string body and decodes to the string (RFC 8259, section 7) |
| `JsonText.DecodedIsUtf8` | engine/typed_filter.go:276-306 | Whatever is decoded is valid UTF-8 |
| `TypedFilter.NormalFormUnique` | engine/typed_filter.go:42-60 | A meaning, names to sets of typed values, has one normal form |
| `TypedFilter.CanonicalIffSame` | engine/typed_filter.go:115-150 | Two accepted requests have equal canonical bytes iff they map the same names to the same sets of typed values: order, repetitions, one-element sets and number spelling are erased |
| `TypedFilter.CanonicalRoundTrip` | engine/typed_filter.go:115-150 | Parsing the canonical bytes gives the same filter back |
| `TypedFilter.AcceptsOnce` | engine/typed_filter.go:115-150 | A request has one parsed form |
| `TypedFilter.ScalarOrder` | engine/typed_filter.go:457-469 | The order that sorts alternatives is total and strict |
| `TypedFilter.TypedInjective` | engine/typed_filter.go:457-469 | Alternatives are equal iff they stand for the same typed value |
| `TypedFilter.CanonicalIsText` | engine/typed_filter.go:367-398 | The canonical bytes are a JSON text |
| `FilterParse.CollectAlternatives` | engine/typed_filter.go:235-249 | The alternatives of an in list, in order, if all are allowed scalars |
| `FilterParse.SortScalars` | engine/typed_filter.go:259 | Sorted, with the same alternatives |
| `FilterParse.Dedupe` | engine/typed_filter.go:260-265 | The same alternatives, strictly rising |
| `FilterParse.ParseTypedIn` | engine/typed_filter.go:205-274 | An in list is accepted iff it is allowed and short enough, and the result means the same set |
| `FilterParse.ParseTypedFilterValue` | engine/typed_filter.go:162-203 | A value is accepted iff the request grammar allows it, and means what it says |
| `FilterParse.ReadObject` | engine/typed_filter.go:311-353 | Members by decoded name; a repeated name is reported, never merged |
| `FilterParse.ParseEntries` | engine/typed_filter.go:118-150 | The entries are parsed in name order, one for each |
| `FilterParse.FinishTypedFilter` | engine/typed_filter.go:367-398 | The canonical encoding is written iff it is within the size limit |
| `FilterParse.ParseTypedFilter` | engine/typed_filter.go:118-150 | Accepted iff allowed and not oversized; the filter says what the request says and its canonical bytes are those of its normal form |
| `Frozen.CheckTrailer` | engine/prepared/frozen.go:50-94 | Accepts exactly the well-formed trailers and returns the region sizes they imply |
| `Frozen.Partition` | engine/prepared/frozen.go:46-94 | Every byte before the trailer is data of exactly one container: the regions partition the buffer |
| `Frozen.DataInside` | engine/prepared/frozen.go:110-113 | Each container's data lies inside the region of its type |
| `Frozen.ScanBitset` | engine/prepared/frozen.go:125-139 | The population count and highest bit over the words are the size and maximum of the set they hold |
| `Frozen.ScanArray` | engine/prepared/frozen.go:140-155 | Accepts exactly the strictly ascending arrays, maximum last |
| `Frozen.ScanRuns` | engine/prepared/frozen.go:156-175 | Accepts exactly ascending disjoint runs within 16 bits, and counts the values they cover |
| `Frozen.ScanContainer` | engine/prepared/frozen.go:124-176 | One container's verdict, size and maximum are those of the set it denotes |
| `Frozen.CheckContainers` | engine/prepared/frozen.go:110-182 | Keys ascend and every container is sound, iff accepted; totals over all of them |
| `Frozen.CheckFrozen` | engine/prepared/frozen.go:99-182 | Accepts exactly the well-formed buffers, reading only inside them; the bytes then denote a non-empty set of uint32 with exactly the returned cardinality and maximum |
| `BitCount.CountIsSize` | engine/prepared/frozen.go:128-134 | The population count of a word is the size of the set of its bits |
| `BitCount.LenIsHighest` | engine/prepared/frozen.go:128-134 | The bit length finds the highest one |
| `Records.RoundTrip` | engine/prepared/view.go:537-589 | What was encoded is read back: ID, key list (null apart from empty) and payload of every record |
| `Records.ViewReads` | engine/prepared/view.go:537-589 | The ID, payload, key-count and null accessors read the stored record |
| `Records.KeyReads` | engine/prepared/view.go:549-553 | Key j of record i is the stored key |
| `RecordsCode.Count` | engine/prepared/view.go:225-242 | A count is accepted iff its elements and the reserve fit behind it and it is within 32 bits |
| `RecordsCode.ParseKeys` | engine/prepared/view.go:265-303 | One cursor through a record's keys accepts exactly the packed UTF-8 keys the rows spell |
| `RecordsCode.ParseRow` | engine/prepared/view.go:278-308 | A row is accepted iff it is the row of a record at this cursor |
| `RecordsCode.ParseRecords` | engine/prepared/view.go:244-316 | Accepts a section iff it is byte for byte the encoding of records that fit, and then serves exactly those |
| `RecordsCode.EncodingIsUnique` | engine/prepared/encode.go:266-347 | The bytes determine the records |
| `RecordsWrite.Measure` | engine/prepared/encode.go:268-289 | Sizes add up and every string is checked |
| `RecordsWrite.PutKeys` | engine/prepared/encode.go:337-342 | A record's key rows and key bytes, each at its own moving offset |
| `RecordsWrite.PutRecord` | engine/prepared/encode.go:316-345 | One record extends rows, key rows and blob by exactly its parts, touching nothing already written |
| `RecordsWrite.EncodeRecords` | engine/prepared/encode.go:267-347 | The buffer filled at moving offsets is the encoding, and the base ID the hash of the records' lines; refused iff a string is bad, a payload not canonical, a line over 2^20 bytes or the section too large |
| `RecordsWrite.EncodedIsRead` | engine/prepared/view.go:238-240 | What the encoder wrote is accepted iff there are at most 2^32 - 1 keys: only the reader counts them |
| `RecordsLimit.TooManyKeys` | engine/prepared/encode.go:284-298 | A concrete input that is encoded and never read back: 2^14 records of 2^18 empty keys, distinct IDs, every line of 786,454 bytes |
| `BaseLine.MarshalDecodes` | engine/prepared/encode.go:93-116 | A string as the line writes it decodes to itself |
| `BaseLine.LineIsText` | engine/prepared/encode.go:124-139 | A record's line is a JSON text with its ID, its keys and its payload's tree |
| `BaseLine.LineIsOneLine` | engine/prepared/encode.go:124-139 | It holds no newline |
| `BaseLine.LineBinds` | engine/prepared/encode.go:93-139 | Equal lines, equal records, a null key list told from an empty one |
| `BaseLine.BaseBinds` | engine/prepared/encode.go:118-141 | The text the base ID hashes determines all the records, and their order |
| `RecordIds.EncodeIds` | engine/prepared/encode.go:351-366 | The ordinals in strictly increasing ID order, or an error iff an ID repeats |
| `RecordIds.OrderUnique` | engine/prepared/encode.go:349-366 | There is one such order |
| `RecordIds.ParseIds` | engine/prepared/view.go:318-345 | Accepts exactly the section that lists the view's records in that order |
| `RecordIds.OneIdsSection` | engine/prepared/view.go:318-345 | Hence a view has one ids section, and only if its IDs are distinct |
| `RecordIds.Lookup` | engine/prepared/view.go:591-602 | Binary search finds an ID iff some record has it, and then that record |
| `RecordIds.WrittenIsAsked` | engine/prepared/encode.go:351-366 | The order the encoder writes for records is the one their view asks for |
| `ContainerFormat.HeadLength` | engine/prepared/format.go:177-200 | The fixed header is accepted iff well-formed, and another build's format is told from a broken one |
| `ContainerFormat.ParseTable` | engine/prepared/format.go:204-280 | Accepts exactly the heads whose sections are aligned, ordered, disjoint, of distinct kinds, up to the file's end and complete; refuses as incompatible exactly unknown formats and unknown required sections |
| `ContainerWrite.EncodeHead` | engine/prepared/format.go:286-304 | Header and entries hold what was given, digest last over all before it |
| `ContainerWrite.HeadReads` | engine/prepared/format.go:286-304 | An encoded head decodes to the sections it was encoded from |
| `ContainerWrite.LayOut` | engine/prepared/encode.go:236-249 | Each section as early as alignment allows; fails iff the artifact is too large |
| `ContainerWrite.LayoutIsPlaced` | engine/prepared/encode.go:236-249 | A layout is aligned, ordered, disjoint and covers the file to its end |
| `Container.CheckGaps` | engine/prepared/view.go:146-157 | Accepts iff every byte outside head and sections is zero |
| `Container.Assemble` | engine/prepared/encode.go:217-264 | The assembled bytes have an accepted head, zero padding and every body at its section, iff they fit |
| `Container.AssembledOpens` | engine/prepared/view.go:74-96 | An assembled artifact opens; sections are less than 32 bytes apart and each one's bytes and digest are what was encoded |
| `Container.HeadAccepted` | engine/prepared/format.go:204-280 | A head the encoder wrote always passes the table checks |
| `Container.Open` | engine/prepared/view.go:74-96 | A file is opened iff table and gaps are sound |
| `Container.SectionBytes` | engine/prepared/view.go:93-96 | The body found for a kind is that section's bytes |
| `Container.OnePlace` | engine/prepared/view.go:145-157 | In every file that opens each byte is in the head, in exactly one section, or a zero gap |
| `ExactIndex.PackReads` | engine/exact/exact.go:31-56 | Offset and length come back from the packed locator iff the offset is within the guard, and the word never overflows |
| `ExactIndex.Builder.Add` | engine/exact/exact.go:84-94 | Each key's run lists the entries added with it, ascending and once, empty keys left out |
| `ExactIndex.Compact` | engine/exact/exact.go:112-148 | A run over the cap is reported iff there is one; otherwise, in the order one range over the map gives, the index is built iff every run starts within the offset bound and none holds the last ordinal, and it means the same runs |
| `ExactIndex.Builder.Finish` | engine/exact/exact.go:101-149 | The packed index looks up exactly what was added and its runs partition the postings; a run over the cap is reported, never truncated; otherwise built iff the map's order packs, as in `ExactIndex.Compact` |
| `ExactIndex.PacksUnless` | engine/exact/exact.go:126-148 | Every order packs unless the last ordinal is held or there are more postings than offsets reach |
| `ExactIndex.LookupFindsHolders` | engine/exact/exact.go:218-231 | A lookup gives exactly the entries holding the key, ascending, once each |
| `ExactIndex.Restore` | engine/exact/exact.go:165-216 | Accepts the sections iff lengths add up, keys are distinct and non-empty, runs fit the locator and no ordinal is the last one; the runs again partition the postings |
| `ExactLayout.SectionParts` | engine/prepared/encode.go:438-475 | A listing's section is cut back into its parts |
| `ExactLayout.SectionIsUnique` | engine/prepared/encode.go:438-475 | One section, one listing |
| `ExactLayout.AcceptedIsSection` | engine/prepared/view.go:451-514 | The bytes that pass the checks are exactly the sections of good listings |
| `ExactCode.SortedKeys` | engine/exact/exact.go:241-251 | Every key once, strictly rising |
| `ExactCode.ListingUnique` | engine/exact/exact.go:241-251 | An index has one listing |
| `ExactCode.EncodeExact` | engine/prepared/encode.go:439-475 | Writes the index's one section iff key lengths, entry count and size allow |
| `ExactRead.ParseExact` | engine/prepared/view.go:451-514 | Accepts exactly the sections of good listings of at most 2^32 - 1 postings |
| `ExactRead.ExactIndexOf` | engine/prepared/view.go:693-736 | Restoring over an accepted section always succeeds and looks up what the section lists |
| `ExactRead.WrittenIsRead` | engine/prepared/view.go:468-470 | What the encoder wrote of a built index is accepted iff it holds at most 2^32 - 1 postings: only the reader counts them |
| `ExactLimits.TooManyPostings` | engine/prepared/view.go:468-470 | It happens: 4097 keys each held by 2^20 - 1 entries are indexed, within the size limits of the writer, and no reader takes the section |
| `ExactLimits.RecordsBindFirst` | engine/prepared/view.go:238-240 | But not in an artifact whose records section is read: entries with at most 2^32 - 1 keys never make an exact section over the bound |
| `ExactRead.AcceptedReencodes` | engine/prepared/encode.go:438-475 | Every accepted section is written again byte for byte from the index rebuilt over it |
| `ExactFile.SaveExact` | engine/artifact/exact.go:60-116 | The bytes are magic, header, arena, lengths and postings of the index's listing |
| `ExactSave.Saver.SaveExact` | engine/artifact/exact.go:60-116 | Through a temporary file written in pieces, synced and renamed: at every point the cache is the old file or the whole new one, durable; acknowledged iff it is the new one |
| `ExactSave.LossIsWhole` | engine/artifact/exact.go:60-116 | After a power loss at any point, the rename undone or not, the cache is the old file or the new one, never a part |
| `ExactFile.LoadExact` | engine/artifact/exact.go:123-222 | Loads exactly the files that can be taken apart and restored, with nothing after them |
| `ExactFile.SavedReads` | engine/artifact/exact.go:143-204 | A saved file is taken apart into what was saved unless its header is over the bound; the plausibility checks never refuse it |
| `ExactFile.SavedLoads` | engine/artifact/exact.go:123-222 | A saved index is loaded iff header, build record and run offsets are within the loader's bounds |
| `ExactLimits.HeaderTooLong` | engine/artifact/exact.go:137-142 | It fails for the header: an analyzer string of 2^20 + 1 bytes is saved and not read |
| `ExactLimits.FewerEntries` | engine/artifact/exact.go:123-222 | It fails for the build record: one entry recorded beside an index over two |
| `ExactLimits.OffsetPastLocator` | engine/artifact/exact.go:123-222 | It fails for the offsets: 2^24 + 17 full runs and one more are built within the locator in one order and written in another that is not |
| `ExactLimits.PackedLists` | engine/exact/exact.go:112-148 | Packed in whatever order, an index is listed by its sorted keys |
| `ExactFile.LoadedLists` | engine/artifact/exact.go:123-222 | The loaded index answers every lookup as the saved one and has its ordinal count |
| `ExactFile.UvarintReads` | engine/artifact/exact.go:89-96 | A varint is read back as written, to 64 bits |

## Left out

- HTTP handlers, tenants, quotas, metrics, audit, admission, the command line, feed parsers: plumbing around the engine.
- Analyzer steps (NFD, IDNA, case folding): library calls; keys and queries enter already normalized.
- The ngram section of an artifact (`encodeNgram`, `parseNgram`) and the KURNIDX1 cache file: their layout repeats the packed-blob argument of the records section, and the bitmap bytes themselves are covered by `Frozen`.
- Config and build sections as JSON, section digests on reading: standard-library JSON and SHA-256.
- Roaring's own operations, unsafe string views, memory mapping, buffer alignment in memory: foreign or operating-system behaviour.
- Float rounding: scores and weights are reals; the float32 accumulator and math.Log are not modelled.
- Malformed payloads inside a query: the filter's verdict is total there; `FilterEval.Eval` says when a payload is malformed.
- Filter statistics, query cost estimates, attribution of matched keys beyond the first one: counters and presentation.
- A Replace interrupted between base rename and journal truncation: the code documents a mixed result for that unacknowledged case; its crash points are only proved sound, not equal to old or new content.
- Durability of a newly created journal's directory entry under power loss: the journal is modelled for process crashes.
- Read-only stores, several lists in one store, sweeping of temporary files, automatic compaction's trigger: each list's state is its own.
- The temporary file behind the store's atomic writes (base, configuration): a write appears as one step that fails or renames; `ExactSave` has the argument for the exact cache.
- Sorting by the standard library (sort.Slice, sort.Strings) is an insertion into a sorted sequence with the same result.
- encoding/json's token stream: request parsing starts from the tree of the text and from decoded strings; its nesting limit is not modelled.
- Strings given to CharGrams and EachGram are sequences of runes; invalid UTF-8 is not modelled.
- FilterTrie.CompileTrie: the trie is an immutable value that each insertion rebuilds along its path, so nodes shared by reference are not captured.
- ContainerWrite.LayOut: offsets are not wrapped at 64 bits; sections of one address space cannot make them wrap.
- ExactIndex.Builder.Finish: the arena is kept as bytes beside the keys, not aliased by them.
- Store.ListStore.AppendJournal: group commit is one outcome here; its waiting and waking is in `CloseProtocol`.
- Store.ListStore.Ship: a bundle's base is whole entries with distinct IDs, as the bundle builder writes them; a corrupt file is not modelled.
