# Verified model of the BTC vendor tool

The vendor tool watches a Poly chain, signs the Bitcoin transactions its contracts ask for, posts
the signatures, and keeps every signed transaction in a small database until the chain reports it
as relayed. This project models that pipeline in Dafny and proves what it can be relied on for:
that no block is skipped, nothing queued is lost or reordered, what is stored stays stored, a
record is marked done only because of a relay event, a lookup through the bounded cache answers
like the table behind it, encodings come back as they were, and request parameters come back from
the paths they were put in. Where one of these fails, the condition under which it holds is proved
to be exact.

## How the model is built

| file | models |
|---|---|
| `Prelude.dfy`, `BigEndian.dfy` | Go's fixed-width integers with wrap-around, `encoding/binary` |
| `Wire.dfy` | transactions, clearing of input scripts in place, and the key of a transaction |
| `Codec.dfy` | `ToSignItem` and `SavedItem`: encoding, decoding with short reads, shared items |
| `SavedItemArr.dfy` | `Less`, `Swap` and the in-place sort |
| `Records.dfy` | tables of records and their order by receive time |
| `StoreSpec.dfy`, `StoreRuns.dfy` | each database call on values, the representation invariant, whole runs |
| `Batches.dfy` | what scanning and sorting can come to, and which batches are right |
| `Lookups.dfy` | what lookups answer when clocks go back and disk calls fail |
| `VendorDb.dfy` | `VendorDB` and `VendorCache` as objects over a key-value disk, against `StoreSpec` |
| `HeightFile.dfy`, `Scanner.dfy` | the height file; the arithmetic of `Listen` |
| `Events.dfy`, `Observer.dfy` | event filtering; `checkEvents` and one tick of `Listen` in the source's form |
| `Signer.dfy` | `getSigs` and one item of `Signing` in the source's form |
| `Pipeline.dfy` | the running service as a transition system with crashes and restarts |
| `Uninterrupted.dfy` | a block, a tick and an item of that system are what `CheckEvents`, `Tick` and `Handle` compute |
| `Coverage.dfy`, `Soundness.dfy`, `Replay.dfy` | what holds over all its runs |
| `Router.dfy` | compiling `:name` patterns, matching, parameters |

The libraries the program calls (transaction and time codecs, hashing, script classification,
signing) are the fields of `Wire.Lib`: arbitrary functions, about which a statement assumes only
what it says. Typically that is `Codec.Storable`: this transaction and this time survive their
library codec and fit their length fields. A transaction without inputs does not, because its
encoding begins like a witness marker (BIP 144). That a transaction hash ignores witnesses
(BIP 141) is built into `Wire.TxHash`.

The store's theory is written over a `Records.Coder`, an encoder and decoder of records about which
nothing is assumed but `Sound`, that a given record survives them; `CoderOf` is the program's own,
and `StorableIsSound` connects the two. The outcomes of LevelDB calls (`Io`), fetches, posts and
file writes are parameters, so every contract covers the failing cases too. A crash between the
two writes of an insert leaves the disk a failed counter write leaves, followed by a restart.

Objects are shared as in the program. The observer's contracts ask that no item object is listed
twice in the cache (`VendorDb.VendorDB.Unshared`), which opening a disk establishes and every
operation keeps for items not listed yet, as those of `Signer.Signer.Handle` are.

Statements about runs of the service hold for every interleaving of its steps, listed in
`Pipeline.Step`. A batch read comes with the listing its scan and sort come to, any that
`VendorDb.VendorDB.ReadFirstBatch` allows, so equal times may fall in any order. Those about records assume of each record that is inserted that it survives its
encoding (`Soundness.ProperStep`). Regular expressions are a library too, assumed to follow
`Router.Compile` and `Router.Match` on plain characters and word groups (`Router.WordGroups`) and
arbitrary otherwise.

## Findings

- The counter test of `ReadFirstBatch` is wrong after a lost counter write, but only in a session
  that opened with a zero counter over a table that was not empty, and only until the cache is
  full (`StoreRuns.SessionReads`, with the shortest history in `StoreRuns.LostCounterHidesRecord`).
- Receive times must rise: an insert keeps the cache equal to the newest records exactly when its
  record is later than every stored one and survives its encoding (`StoreSpec.PutAgree`). Otherwise
  batches can be wrong with no error at all: store a, restart, store b with an earlier time; the
  first batch read is [a, b], and the next one [b, b] (`StoreRuns.ClockSetBackHidesRecord`). A batch
  read that scans is always right; the one after it is right if it scans too or the cache already
  began the batch, and without equal times only then (`Batches.NextRead`). Lookups by key never depend on the clock
  (`Soundness.ServiceLookups`).
- `SetTxDone` marks the cached item before it touches the disk, so the two disagree exactly when
  the disk fails on a cached, unmarked record (`StoreSpec.DoneAgree`, with an input in
  `Lookups.LostMarkIsSeen`). A mark seen that way is gone again exactly when the item leaves the
  cache, by eviction or restart (`Lookups.MarkGone`).
- A stored record that decodes to an item with another key makes a batch read cache a key that is
  not stored, and the next item with that key is dropped with no error
  (`Replay.ForeignRecordHidesNew`). New keys reach the disk exactly while everything cached is under
  a stored key (`Replay.NewKeysReach`, `Replay.ReadKeepsReach`), as it stays when records survive
  their encoding (`Replay.StoredKeys`).
- A tick that is told the largest 32-bit height never ends, unless the scanner stands there already
  (`Scanner.TickEnds`).
- A restart at a configured height leaves a gap exactly when it is above what has been scanned
  since the first start; the heights 2^32-1 and 2^32-2 are special, because from the first the scan
  wraps round and the second is claimed only by scanning it (`Coverage.RestartExact`, with a
  history in `Coverage.StartAboveLeavesGap`). Reported heights that go down leave none: the
  unsigned comparison only tests equality, and the blocks are scanned again.
- Without a configured height a restart is harmless once the file has been written or its old
  height has been claimed (`Coverage.CheckpointStart`). Before that, after a first session configured
  to start below the height in the file it found, it is not (`Coverage.FirstStartBelowFile`).
- The checkpoint holds the last recorded height exactly when the session started from the
  checkpoint's height or some tick has recorded, and is close to the top exactly when some tick has
  recorded or it was close as found (`Scanner.CheckpointStaysClose`). A session started at a
  configured height, as config/conf.json:17 has it, leaves the file as it found it until then:
  in `Scanner.QuietTickUnrecorded` it still reads 0 after a scan of height 2, and of height 1001.
- `getSigs` panics exactly when the first input it cannot sign is a witness input without an
  amount (`Signer.PanicsWhen`, with an input in `Signer.MissingAmountPanics`).
- A pattern gives its parameters back exactly when its names differ and no parameter directly
  follows another (`Router.ParametersComeBack`).
- An item whose amount list has 2^32 or more entries comes back shortened
  (`Codec.ToSignReadBack`).

Where the code and its documentation differ, the model follows the code. The README says a height
is saved every `CircleToSaveHeight` heights; the code also saves whenever something was captured,
and measures the distance without sign, so a height below the last recorded one is saved too,
unless it is further below than 2^32 less that distance (`Scanner.RecordRule`). The README presents
`WatchingKeyToSign` as the key word; `checkEvents` uses the constant instead.

## Model

| member | source | states |
|---|---|---|
| Wire.KeyAgreement | db/db.go:204-212 | two transactions have one key exactly when they differ at most in input scripts and witnesses, given no hash collision for the converse |
| Wire.HashAgreement | db/db.go:204-212 | two transactions have one identifier exactly when they differ at most in witnesses, given no hash collision for the converse; scripts count |
| Wire.Tx.ClearScripts | signer/signer.go:96-100 | in place, every input script is emptied and nothing else changes |
| BigEndian.RoundTrip | utils/utils.go:50-62 | writing an integer in n big-endian bytes loses exactly the part above n bytes |
| BigEndian.U32BytesAre | utils/utils.go:50-62 | a length is four bytes, most significant first |
| BigEndian.U64BytesAre | utils/utils.go:58-62 | an amount or counter is its high half, then its low half |
| Codec.ToSignItem.Serialize | utils/utils.go:43-65 | the written form: length-prefixed transaction, counted 64-bit amounts, in order |
| Codec.ToSignItem.Deserialize | utils/utils.go:67-98 | succeeds exactly on inputs the reading discipline accepts, with that item; on failure the amounts are untouched |
| Codec.SavedItem.Serialize | utils/utils.go:106-130 | the nested form, failing exactly when the time cannot be encoded |
| Codec.SavedItem.Deserialize | utils/utils.go:132-169 | succeeds exactly on inputs the reading discipline accepts, with that record |
| Codec.Reader.Read | utils/utils.go:73-76 | a short read is zero-filled and reported only when nothing at all was left |
| Codec.ToSignReadBack | utils/utils.go:43-98 | whatever follows the encoding, the item comes back with as many amounts as the count modulo 2^32 says |
| Codec.ToSignParts | utils/utils.go:43-65 | an item's bytes: length, transaction, count, eight bytes for each amount in order |
| Codec.SavedEdges | utils/utils.go:106-130 | a record's bytes: length and item, length and time, and 1 or 0 last |
| Codec.AnyNonzeroIsDone | utils/utils.go:160-166 | any last byte but 0 reads as done |
| Codec.ShortBlock | utils/utils.go:68-81 | a block cut short reads as if zeros followed, unless nothing of it is left |
| Codec.ToSignRoundTrip | utils/utils.go:43-98 | the item comes back unchanged exactly when its amount count fits 32 bits; a suffix is ignored |
| Codec.SavedRoundTrip | utils/utils.go:106-169 | a storable record comes back unchanged, whatever follows its encoding |
| Codec.SavedPrefixFree | utils/utils.go:106-130 | no record's encoding begins another's; equal encodings mean equal records |
| Codec.ToSignTruncated | utils/utils.go:67-98 | every strict prefix of an item's encoding is rejected although short reads are not errors |
| Codec.SavedTruncated | utils/utils.go:132-169 | every strict prefix of a record's encoding is rejected |
| SavedItemArr.SortNewestFirst | db/db.go:171 | in place, the same items in an order in which none is newer than one before it |
| Records.NewestIsByTime | db/db.go:173-179 | lists of newest records are exactly the prefixes of the table sorted newest first |
| Records.ListingIsByTime | db/db.go:171 | when no two records share a time, any correct sort returns the one reference order |
| Records.ByTimeAfterInsert | db/db.go:192-198 | a later record goes first and moves no other |
| Records.ByTimeAfterMark | db/db.go:112-133 | marking a record moves none |
| Records.StorableIsSound | utils/utils.go:106-169 | the program's own encoding meets what the store needs of it, for either flag |
| StoreSpec.AgreeIsPrefix | db/db.go:186-198 | the representation invariant says: the cache is the first records of the sorted table, at most 100, flags included |
| StoreSpec.GetIsLookup | db/db.go:93-110 | all lookups answer as lookups in the table exactly when the first cached item under each key is the stored record |
| StoreSpec.PutAgree | db/db.go:60-91 | an insert keeps the invariant exactly when the record survives its encoding and is later than all stored |
| StoreSpec.DoneAgree | db/db.go:112-133 | marking keeps the invariant exactly unless the disk fails on a cached, unmarked record |
| Batches.ListingExists | db/db.go:158-171 | a table can be scanned and sorted into a listing exactly when all its records decode |
| Batches.TopIsRight | db/db.go:158-180 | whatever order the sort leaves equal times in, the top of a listing has records of the table, each once, as many as there is room for, and none left out that is newer than one of them |
| Batches.RightIsFirst | db/db.go:171-180 | without equal times only the newest records in order are such a batch |
| Batches.ScanIsRight | db/db.go:158-180 | whatever the clock did, a batch read that scans returns a right batch, and caches just it exactly when the cache began it |
| Batches.NextRead | db/db.go:150-180 | the batch read after it, with its own order of equal times: right if it scans too or the cache began the batch, and without equal times only then |
| StoreRuns.ReadIsFirstBatch | db/db.go:150-180 | over a cache that is the newest records, on every path a batch read returns and caches the min(100, n) newest, unless the counter test passes on a cache that is neither full nor complete |
| StoreRuns.ReadTwice | db/db.go:150-180 | an immediate second batch read returns the same and changes nothing |
| StoreRuns.AgreeRun | db/db.go:60-202 | the invariant survives every sequence of calls and restarts in which each record inserted is later than the stored ones and no mark of a cached record is lost, whichever inserts and counter writes fail |
| StoreRuns.RegularRuns | db/db.go:60-202 | after every such run whose counter writes and reads succeed the invariant holds, both counters are the number of records, and batch reads are right |
| StoreRuns.Counters | db/db.go:79-88 | whatever fails, reading the counter at a restart included: memory counter = records less those forgotten at restarts; counter record = memory counter less inserts since its last write |
| StoreRuns.CountersInOrder | db/db.go:79-88 | while restarts can read the counter, the record is never ahead of the memory and neither of the table |
| StoreRuns.SessionReads | db/db.go:154-156 | after lost counter writes, batch reads of a session are right exactly when it opened with a positive counter or an empty table, or the cache is full |
| StoreRuns.LostCounterHidesRecord | db/db.go:154-156 | one insert, its counter write lost, a restart: the record is found by key and missing from the batch |
| StoreRuns.ClockSetBackHidesRecord | db/db.go:173-175 | two inserts with a restart and an earlier clock between them: the second batch read has one record twice and the newer not at all |
| StoreRuns.GrewStep | db/db.go:60-133 | no call of a caller that stores encodable items under their keys, whatever fails, loses a record, changes its item or time, or unmarks it |
| StoreRuns.MarkErases | db/db.go:127-131 | a marked item that will not encode again erases its record |
| Lookups.HitsStep | db/db.go:60-202 | no call or restart makes the cache answer with an item or time other than the stored one, or lack a stored mark, whatever fails, whatever the clock does and however equal times are sorted; with the exact marks as long as marks reach the disk |
| Lookups.HitsDoneExact | db/db.go:112-133 | a mark keeps cached answers equal to the disk exactly when it reaches the disk or changes nothing in the cache |
| Lookups.MarkGone | db/db.go:112-133 | a mark shown by a lookup is gone after a call exactly when the disk never took it and the item leaves the cache |
| Lookups.LostMarkIsSeen | db/db.go:116-130 | an insert, a mark the disk refuses, a restart: seen as done in between, and not after |
| VendorDb.TxPartAfterTotal | db/db.go:33-34 | writing the counter record never touches what an iteration over the record prefix sees |
| VendorDb.VendorCache.Put | db/db.go:192-198 | for any size and any item, listed already or not: it becomes the newest, and if that is too many exactly the oldest goes |
| VendorDb.VendorCache.PutToFront | db/db.go:200-202 | the item becomes the oldest |
| VendorDb.VendorCache.Get | db/db.go:204-212 | the newest cached item with this transaction hash, itself and not a copy, or none |
| VendorDb.VendorCache.GetAll | db/db.go:214-220 | all cached items, newest first, in the objects themselves |
| VendorDb.VendorDB.constructor | db/db.go:43-58 | opening a disk gives an empty cache and the recorded counter, or zero if it cannot be read |
| VendorDb.VendorDB.PutSignedTx | db/db.go:60-91 | for any key and item, and every outcome of its disk calls: what is written, the counters, which item goes beyond 100, and when success is reported; nothing if the key is cached, stored or unreadable |
| VendorDb.VendorDB.GetSignedTx | db/db.go:93-110 | the record or none; a cached item is returned by reference |
| VendorDb.VendorDB.SetTxDone | db/db.go:112-133 | the whole new state for every outcome of its disk calls: the cached item is marked first, by reference, wherever it is listed |
| VendorDb.VendorDB.GetTotalTxNum | db/db.go:135-148 | the counter in memory, or the recorded one while that is zero, or zero if that is missing or unreadable |
| VendorDb.VendorDB.Scan | db/db.go:158-167 | every record decoded once, in any order, or failure exactly when one does not decode or the iterator fails |
| VendorDb.VendorDB.ReadFirstBatch | db/db.go:150-180 | a full cache of 100, or one as long as the counter, is answered from whatever the disk does; otherwise the scan fails or min(100, n) decodable records come back, no newer after an older, and fill the cache; sharing of objects |
| HeightFile.HeightReadBack | observer/alliaob.go:208-236 | every height reads back as itself, with any spaces and line ends around it |
| HeightFile.ReadsAs | observer/alliaob.go:208-228 | a missing file reads as 0, a number below 2^32 amid spaces and line ends as itself, every other text as 0 |
| HeightFile.TornHeight | observer/alliaob.go:230-236 | any prefix of the written digits reads back as the height without its missing digits, so at most the height |
| HeightFile.AfterWriteBound | observer/alliaob.go:230-236 | however a write ends, the file claims no more than the old or the new height |
| Scanner.NothingNewIsEqual | observer/alliaob.go:100-102 | the unsigned test holds only of equal heights |
| Scanner.TickDispatches | observer/alliaob.go:103-120 | below the largest height a tick dispatches consecutive heights, one for each successful fetch, and ends exactly when there were enough |
| Scanner.TickEnds | observer/alliaob.go:100-120 | enough successful fetches always end a tick, exactly for reported heights below 2^32-1 and the height already reached |
| Scanner.RecordRule | observer/alliaob.go:124-130 | when any tick saves its height, in plain numbers: something captured, the configured distance above the last saved one, or below it by less than 2^32 minus that distance |
| Scanner.ExactlyOnce | observer/alliaob.go:88-131 | over a session of rising heights each height is dispatched exactly once, in order, whatever fetches fail |
| Scanner.CheckpointStaysClose | observer/alliaob.go:80-130 | wherever a session of rising heights starts: after each tick the last recorded height is the top or lags by less than the circle with nothing captured in between; exactly when the file holds it, and exactly when the file itself is so close |
| Scanner.QuietTickUnrecorded | observer/alliaob.go:81-130 | with the shipped circle, one quiet tick leaves the file reading 0: not the recorded height, and from height 1000 too far behind |
| Events.ActionWhen | observer/alliaob.go:139-200 | a notification asks for a signature exactly if it is a signing event for this key with this item, and for a mark exactly if it is a relay event for this key |
| Events.BlockActionAt | observer/alliaob.go:135-139 | the actions of a block are those of its notifications, in their order |
| Events.ItemsInOrder | observer/alliaob.go:160-173 | the items sent and counted are those of the signing actions, all of them, once each and in order |
| Events.SignsAreEvents | observer/alliaob.go:145-173 | a block's items to sign are exactly those of its signing events for this redeem key |
| Events.RelaysAreEvents | observer/alliaob.go:181-195 | a block's keys to mark are exactly those of its relay events for this redeem key |
| Observer.Observer.Notice | observer/alliaob.go:139-201 | one notification sends its item unstripped, marks the stripped hash, or does nothing |
| Observer.Observer.CheckEvents | observer/alliaob.go:135-206 | all actions of a block, once and in order, on channel and store; the count is of the items sent |
| Observer.Observer.Tick | observer/alliaob.go:88-131 | heights dispatched, items sent, store, top, last recorded height and file after one tick, for every outcome of fetches and of the write |
| Observer.Observer.Record | observer/alliaob.go:124-130 | when a height is recorded, in plain numbers with the unsigned distance, and that a failed write counts as recorded |
| Signer.Signer.GetSigs | signer/signer.go:141-171 | one signature per input by the scheme of its original script over the stripped transaction, or the first input that fails and why; always all scripts cleared and nothing else changed |
| Signer.SigsUnique | signer/signer.go:141-171 | that description determines the result |
| Signer.SignaturesCheck | signer/signer.go:147-168 | whatever the library's signatures can be checked for, each one returned is for its own input of the stripped transaction, and its own amount as a signed 64-bit number if that is a witness input |
| Signer.StopsWhen | signer/signer.go:162-163 | when the library signs what it is asked to, signing stops exactly at an input of another kind or without its amount, and says which |
| Signer.PanicsWhen | signer/signer.go:157-160 | when a missing amount is a panic; never with an amount for every input |
| Signer.MissingAmountPanics | signer/signer.go:157-160 | one witness input without an amount panics |
| Signer.AnswerAfterErrors | signer/signer.go:80-92 | any number of post errors is retried; the first other answer counts |
| Signer.StoredItemIs | signer/signer.go:96-107 | the stored item is the one received, with its amounts and this time, unmarked, its input scripts gone and nothing else |
| Signer.Signer.Handle | signer/signer.go:73-109 | the posted hash is the one before stripping; an accepted item, and only that, is put under the stripped hash at this time; a missing amount is a panic |
| Signer.KeysAgree | signer/signer.go:96-105 | the signer's key, the cache's hash, the hash after decoding and the observer's key for a relayed transaction agree |
| Pipeline.Conservation | cmd/run.go:158 | over every run the items sent are those handled, in hand and queued, in order, with at most 100 queued |
| Pipeline.SendWaits | cmd/run.go:158 | a send waits exactly while 100 items are queued, and then goes to the end |
| Uninterrupted.BlockIsCheckEvents | observer/alliaob.go:135-206 | the steps of a block, uninterrupted, do what CheckEvents does |
| Uninterrupted.TickIsTick | observer/alliaob.go:88-131 | the steps of a tick, uninterrupted, leave scanner, file, channel and store as Tick does |
| Uninterrupted.StartIsOpen | observer/alliaob.go:80-88 | a started process stands at the configured height or the file's, with that taken as recorded |
| Uninterrupted.HandleIsHandle | signer/signer.go:73-109 | the signer's steps for one item leave channel, hand and store as Handle does, and end the process where it panics |
| Coverage.SessionNoGaps | observer/alliaob.go:77-133 | over every run without exception, in each session every height above its own start up to the highest it claimed was scanned in that session |
| Coverage.NoGaps | observer/alliaob.go:77-133 | over every run with crashes, torn writes, lower heights and harmless restarts, every height from where the first session started to the highest ever claimed is scanned |
| Coverage.RestartExact | observer/alliaob.go:80-83 | a restart leaves no claimed height unscanned, over all runs until the next one, exactly when everything from the first start to its height is scanned, or its height is one of the two special ones |
| Coverage.FileNeverAhead | observer/alliaob.go:124-130 | over every run the height file is as it was found, or claims at most the first start or the highest height a tick has claimed |
| Coverage.CheckpointStart | observer/alliaob.go:80-83 | after every run of harmless restarts, from configured heights too, a restart from the file is harmless once the file has been written or its old height claimed |
| Coverage.FirstStartBelowFile | observer/alliaob.go:80-83 | after a first session configured to start at a height, when a restart from the file found is harmless: exactly when that claims no more, but for the special heights |
| Coverage.CheckpointStarts | observer/alliaob.go:80-83 | runs whose sessions all start from the file have only harmless restarts |
| Coverage.StartAboveLeavesGap | observer/alliaob.go:80-83 | over every chain, a restart configured above an unscanned height claims it unscanned after one tick |
| Coverage.CrashWhileWriting | observer/alliaob.go:230-236 | a crash while the height is written leaves a file that reads as the height without its missing digits |
| Coverage.ReportStarts | observer/alliaob.go:100-104 | the height reached starts no tick; any other starts one above it |
| Coverage.TickCovers | observer/alliaob.go:105-125 | when a tick has ended, the session has scanned every height above its start up to the largest it was told, lower reports included |
| Coverage.ScannedMeans | observer/alliaob.go:105-121 | over every run, all items of a scanned block have been sent and all its relay events handled, and nothing was sent that is in no fetched block |
| Coverage.NothingMissed | observer/alliaob.go:77-133 | with harmless restarts, no item and no relay event of any block from the first start to the highest claimed height is missed |
| Soundness.DoneSoundness | observer/alliaob.go:181-200 | over every run only keys of relay events in fetched blocks are marked, on disk and in the cache |
| Soundness.MarkedOnlyByEvents | observer/alliaob.go:181-200 | the same for the program's own keys, encodings and event format |
| Soundness.RelayMarks | observer/alliaob.go:196-200 | a relay event whose disk calls succeed marks the stored record, on disk and for lookups |
| Soundness.RecordsPersist | db/db.go:64-73 | over every run stored records keep item and time, and marks on disk never revert |
| Soundness.ServiceLookups | db/db.go:93-110 | in every reachable state of the service, whatever the clock and whichever inserts fail, lookups answer as lookups in the table as long as marks reach the disk |
| Soundness.ServiceAnswers | db/db.go:93-110 | and without that condition, they find a record exactly when there is one, with its item, its time and every mark on disk |
| Soundness.ServiceMarkGone | db/db.go:112-133 | when a mark seen in the running service is gone after a step |
| Soundness.ServiceAgrees | db/db.go:60-202 | in every reachable state the cache is the newest records, as long as each record inserted was later than those stored and marks reached the disk |
| Soundness.ServiceCounters | db/db.go:79-88 | the counters of the running service obey the accounting of the store |
| Replay.NewKeysReach | db/db.go:64-73 | error-free puts under new keys are stored exactly while everything cached is under a stored key |
| Replay.ReadKeepsReach | db/db.go:158-175 | a scan into an empty cache keeps that exactly when the batch decodes to items with stored keys |
| Replay.ForeignRecordHidesNew | db/db.go:64-73 | a record that decodes to another key, a restart and a batch read: an item with that key is dropped without error |
| Replay.StoredKeys | db/db.go:60-91 | over every run whose records survive their encoding, the stored keys are exactly those of the accepted items whose storing met no error |
| Replay.AcceptedKeys | signer/signer.go:96-107 | and without storage errors, exactly those of the items accepted |
| Replay.ReplayIdempotent | db/db.go:64-73 | going over blocks whose items are stored changes no key, item, time, order or counter record, and only adds marks; the counter in memory changes at most by a restart |
| Router.Split | rest/http/restful/router.go:74 | the first parameter of a path: nothing before it looks like one, and its name is as long as can be |
| Router.ReplaceParams | rest/http/restful/router.go:73-81 | for every path, replacing first occurrences one at a time turns each parameter into a group and records the names in order |
| Router.CompileRendered | rest/http/restful/router.go:82-86 | for plain literals the expression compiles to the literals with one group per name |
| Router.MatchFill | rest/http/restful/router.go:131-140 | filling a pattern without adjacent parameters with words and matching gives exactly the words |
| Router.ClashLost | rest/http/restful/router.go:78 | with adjacent parameters some filling is not recovered |
| Router.ParametersComeBack | rest/http/restful/router.go:131-140 | all fillings are given back under all names exactly when the names differ and no two parameters are adjacent |
| Router.PlainRoute | rest/http/restful/router.go:67-140 | for plain literals the route compiles and the router hands out exactly what the pattern's tokens match |
| Router.ParamsFromIs | rest/http/restful/router.go:131-140 | captures come out under the names in order, and panic exactly if there are more of them than names |
| Router.OnePattern | rest/http/restful/router.go:73-86 | the edges of the word class, and one pattern with its expression and name in full |
| Router.Router.Add | rest/http/restful/router.go:67-88 | for every path, the new route's expression and names, earlier routes kept; a panic exactly when the expression does not compile |
| Router.Router.Try | rest/http/restful/router.go:48-65 | the first route of this method whose expression matches answers, with the parameters of its match, or panics in collecting them; not found exactly if none of this method matches |

## Left out

- The web interface, request handlers, HTTP client and server, configuration, logging, timers and flags.
- The modes that run only the observer or only the signer: `Sign` stores nothing.
- Cryptography, wallets, script classes, `GetUtxoKey`, the Bitcoin and time codecs: functions of `Wire.Lib`, or parameters.
- LevelDB's own behaviour: a map with atomic writes of single keys; an error means nothing was written. A disk that cannot be opened is not modelled.
- Locks: each database call is one step, as the lock makes it.
- The monotonic part of Go's clock readings: times are instants.
- Inside stored and cached items the transaction is a value; the shared, mutable transaction is modelled from the channel up to the put.
- That items queued at a crash are signed later, and that every relay event marks a record: neither holds.
- Observer.Observer.CheckEvents: the channel of this contract never blocks; its 100 places are in `Pipeline`.
- Observer.Observer.Tick: one tick, not the endless loop around it; runs of ticks are in `Scanner` and `Pipeline`.
- Observer.Observer.Notice: events with states of other types than the code asserts are excluded, the code panics on them.
- Regular expressions beyond plain characters and word groups: a library's, of which nothing is assumed.
- SavedItemArr.SortNewestFirst: an insertion sort stands for the library's choice of algorithm.
- HeightFile.TornHeight: a write is cut after a prefix of the digits; blocks of the file system are not modelled.
