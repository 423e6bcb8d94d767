# A verified model of the distributed block store

The repository stores a volume of encrypted, erasure-coded blocks on other people's machines. This project
models its hard core in Dafny and proves what that core is for. `dafny verify dfyconfig.toml` checks all of it.

The client's stack is modelled as one composition, from the bottom up:

- `LockFreeQueue` is the queue between the callers and the cache's worker, one atomic load, store or
  compare-and-exchange at a time, for any number of producers. `Wakeup` puts the condition-variable protocol of
  the cache on top of that machine, and `QueueMoves` says what becomes of values that a move empties.
- `RowFile` and `RowCache` are the write-back cache: row files, the two indexes over the rows held, flushing
  and eviction. Anything may fail at any time: a failed remote write leaves the cell arbitrary, a local file may
  fail to open, and one that fails to open for update is emptied. `Recency` says which rows are held after a run,
  and `CacheRuns` holds two runs in which data is lost and in which a flush claims too much. `Service` puts the cache
  behind the queue: what concurrent callers see is one request after another, whatever is flushed in between.
- `Codes` has the laws of the cipher and of the erasure code, and codes that obey them. `Layout`, `Grids`, `Volume`
  and `VolumeRun` are the striped volume over the cache: byte ranges to cells, read-modify-write through the
  cipher, parity, recovery, and whole runs against one flat array of bytes. `Decay` has cells go bad between the
  requests, and `ParityRun` is a run that leaves a row without parity.

Beside it stand the host's end and the records that travel between the parts:

- `BitSet` and `HostPartition` are the host's sparse partition and the map it reads anew for every request.
- `JsonText`, `JsonLexer`, `JsonGrammar`, `JsonReader`, `JsonBack` and `JsonWriter` are the JSON library (sections 6
  and 7 of RFC 8259): what is read from any document whatsoever, and that what is written is read back. `Base64`
  is the codec of section 4 of RFC 4648, and `HostRecord` the record published through both.
- `Streams`, `BlobRecords` and `BlobMap` are the big-endian streams, the folder and metadata records on them,
  and the append-only metadata store.
- `Relays`, `Patterns` and `Paths` are relay failover, wildcard matching and path normalisation.
- `Slices` holds what the codecs share about parts of sequences, `Options` the optional value, and `Luck` what the
  world does to the cache.

How to read the contracts:

- Code that changes things step by step is a method or a class, and its `ensures` is the property, or ties the
  new state to a function about which the property is proved.
- What succeeds, what time it is and what a failed write leaves behind are functions of how often the code has
  asked (`Luck`). Contracts hold for all of them, and a particular run is had by choosing them.
- Ghost counters record what went wrong: `faults` are the times a dirty row's file failed to open for a read,
  `wipes` the times such a file was emptied, `mishaps` all else that failed locally, `failures` what failed
  remotely, and `Trouble()` is their sum. A contract can then say "if nothing did" without forbidding it. Nothing is
  counted if nothing was going to fail (`Undisturbed`): all operations succeed, the clock goes on, and every record
  is of a cell there is (`Lucky`).
- The ghost set `gone` has the cells that may have been lost; a contract that speaks of the array or of the view
  excepts them. Without wipes there are no more of them than faults, and without either there are none. What a read
  or a write does to each cell, lost or not, is told exactly by `Replaced`, `ReadIs` and `TargetIs` in `RowCache`.
- A ghost parameter names a value that may or may not be what lies there: of a decoder the value whose encoding
  is at the cursor, of a volume the flat array its cells hold. Since a caller may pass any value, the contract
  holds for all of them.
- The cipher is a bijection on blocks for each initialisation vector (AES in CBC mode, section 6.2 of NIST
  SP 800-38A, with the vector made of the low byte of the row number). The erasure code is an encoder with a
  decoder that recovers the data from its healthy blocks and as many code blocks as are missing. Whether a cell
  is healthy is an arbitrary predicate.
- A volume's rows stand for a flat array if each row either verifies as a whole and holds the array's blocks, or
  does not and those of its cells that verify agree with the codeword of the array's blocks. If every row has as
  many code cells that verify as data cells that do not, the array can be recovered.

Where the code does not do what it seems meant to, the model does what the code does, and the exact condition is
proved:

- Freed queue nodes are never touched if and only if at most one producer uses the queue
  (`LockFreeQueue.SafeExactlyWithOneProducer`). As long as freed nodes stay readable and are not reused the order
  of the values is right in any case.
- `Consume` moves a value out of its node before the exchange that may fail for no reason. The cache's queue holds
  pointers, which a move leaves as they are; of values that a move empties (src/bdfs-lib/AsyncQueue.h:45) it returns
  the right one if and only if no exchange failed since the last return, and an empty one otherwise
  (`QueueMoves.EmptiedByRetries`). `QueueMoves.LosesValue` is a run in which the only value offered is lost.
- `matchPattern` decides the wildcard relation for all names if and only if the pattern does not end in two
  stars (`Patterns.RightUnlessTwoStars`).
- A number survives JSON if and only if it is greater than -9223372036854775800 and less than
  18446744073709551610 (`JsonBack.NumberBack`); the library's integers are 64 bits wide
  (src/jsoncpp/include/json/forwards.h:19-20), and a tenth of the largest is where it turns to reals.
- A read that cannot open its row's file fetches the remote block and stores it over the cached one. It returns what
  the cell showed if and only if the file could be opened or the two blocks are the same, and, unless the file fails
  to open for update as well and is emptied, it changes that cell if and only if the file could not be opened, the
  block was stored and they differ (`RowCache.Cache.ReadImpl`). A dirty row's file that could not be opened is
  counted among the faults, and a block that was not stored then among the mishaps. A write of part of a block works on what it read: it
  does what it should if and only if the file could be opened or the blocks are the same outside these bytes
  (`RowCache.Cache.WriteImpl`). A file that is emptied loses exactly the cells it had records of
  (`RowCache.Cache.KeepBlock`, `RowFile.WipeFallsBack`). `CacheRuns.LosesData` is a run in which a write and a read
  succeed and the read does not return what was written.
- `Cache::Flush` says that all is flushed with a row left dirty if and only if it was interrupted at the last row
  after failing to write or open any row, or ran on without a failed write, but failed to open a row or stopped
  before one that was dirty (`RowCache.FlushTells`).
  `CacheRuns.ClaimsTooMuch` is a run in which it returns true and a row is still dirty.
- `Row::Encode` counts a data cell it cannot read as zeros and succeeds. The row then has parity if and only if
  zeros in those columns make the same code, and for no more columns than there are code cells if and only if the
  cells hold zeros (`Volume.Volume.Encode`, `Volume.Volume.UnreadParity`). `ParityRun.WrongParity` is a run in which
  it succeeds and the row has no parity.
- `readArray` accepts any token between two items, because its test for a bad separator is never true
  (src/jsoncpp/json_reader.cpp:578-579). It reads what it should if and only if every separator is a comma
  (`JsonGrammar.RightWithCommas`); "[1 2 3]" is read as [1,3] (`JsonWriter.OddArray`).
- `decodeDouble` writes one byte behind its buffer if and only if the text is 32 characters long
  (`JsonReader.Reader.DecodeReal`), that is, `decodeNumber` does if and only if it is and looks like a real or has too
  many digits (`JsonReader.Reader.DecodeNumber`). How often the parse of a document does is told exactly
  (`JsonReader.Parse`): never for one the writer printed (`JsonWriter.RoundTrip`), and once for a one, a point and
  thirty zeros (`JsonWriter.Overrun`).
- The host's `Partition` lets one index too many through (src/bdhost/Partition.cpp:112, 136) and serves it as one
  more block, whose mark is in a word all bit sets share (`HostPartition.ExtraBlock`). The request handlers
  refuse it.

## Model

| member | source | states |
|---|---|---|
| LockFreeQueue.StepKeeps | src/bdfs-lib/LockFreeQueue.h:76-143 | every step of any producer or of the consumer keeps the queue's invariant: the nodes form one chain in which first, divider and last stand in order, only nodes before the divider are freed, every thread is where its program counter says, and size is tallied |
| LockFreeQueue.RunKeeps | src/bdfs-lib/LockFreeQueue.h:49-143 | the invariant holds after every run from the constructor's state |
| LockFreeQueue.FirstInFirstOut | src/bdfs-lib/LockFreeQueue.h:76-143 | in every run of any number of producers and one consumer the values returned are a prefix of the values in link order; what is linked and not returned is between divider and last, or just taken; every value offered is linked exactly once or still held by its producer, and every value linked was offered, under the node at its place |
| LockFreeQueue.StepAdvances | src/bdfs-lib/LockFreeQueue.h:86-141 | a step only moves things forward: every node keeps its place in the chain and its value, and last and the divider only move along it |
| LockFreeQueue.OneLinkerAtATime | src/bdfs-lib/LockFreeQueue.h:86-88 | at most one producer is between linking its node and moving last onto it |
| LockFreeQueue.NoNullIsFollowed | src/bdfs-lib/LockFreeQueue.h:97-131 | in every reachable state the next step of whoever runs can be taken: no null pointer is followed |
| LockFreeQueue.SizeIsLength | src/bdfs-lib/LockFreeQueue.h:70-73 | size is the number of values linked minus those returned minus the producers that have not counted theirs yet |
| LockFreeQueue.ConsumerIsSafe | src/bdfs-lib/LockFreeQueue.h:120-143 | no step of the consumer touches a freed node, however many producers there are |
| LockFreeQueue.SoloRun | src/bdfs-lib/LockFreeQueue.h:76-143 | with one producer no step of any run touches a freed node |
| LockFreeQueue.TwoProducersCollide | src/bdfs-lib/LockFreeQueue.h:86-105 | for any two producers there is a run in which one of them touches a node the other has freed |
| LockFreeQueue.SafeExactlyWithOneProducer | src/bdfs-lib/LockFreeQueue.h:76-143 | all runs by a set of producers are free of such accesses if and only if the set has at most one member |
| QueueMoves.RunTracked | src/bdfs-lib/LockFreeQueue.h:120-143 | in every reachable state exactly the nodes up to the divider have been moved from, and the one after it while the consumer is between the move and the exchange or has failed to exchange |
| QueueMoves.EmptiedByRetries | src/bdfs-lib/LockFreeQueue.h:120-143 | of values that a move empties, each return gives the value FirstInFirstOut says if and only if no exchange failed since the return before, and an empty one otherwise |
| QueueMoves.LosesValue | src/bdfs-lib/LockFreeQueue.h:120-143 | there is a run in which one value is offered, one exchange fails, and what Consume returns is empty |
| Wakeup.EventKeeps | src/bdfsclient-lib/Cache.cpp:168-272 | every step of callers, worker, queue, mutex and condition variable keeps: a caller's request is under its own node, and while the worker is about to block, or blocked and unsignalled, every notified request has been taken |
| Wakeup.ReachedGood | src/bdfsclient-lib/Cache.cpp:222-272 | that holds in every reachable state |
| Wakeup.EmptyMeansNothingWaits | src/bdfsclient-lib/Cache.cpp:230 | when Consume reports an empty queue, every request whose caller has finished notifying has been taken |
| Wakeup.NoLostWakeup | src/bdfsclient-lib/Cache.cpp:168-179 | in every reachable state in which the worker is blocked and unsignalled, every caller that has finished its notify block has had its request consumed |
| RowFile.LookupAfterStore | src/bdfsclient-lib/Cache.cpp:458-528 | what is read from a row file after a write is the block written for its column, and the old block for every other |
| RowFile.StoreChangesOneCell | src/bdfsclient-lib/Cache.cpp:336-346 | storing a block changes the view in that cell and in no other |
| RowFile.WipeFallsBack | src/bdfsclient-lib/Cache.cpp:487-528 | emptying a row file lets the cells it had records of, and no others, fall back to the remote blocks, which for a clean file is no change |
| RowFile.EvictKeepsView | src/bdfsclient-lib/Cache.cpp:370-377 | dropping a clean row file changes no cell's view |
| RowFile.ShadowedWriteKeepsView | src/bdfsclient-lib/Cache.cpp:424-433 | a remote cell under a cached block can take any value unnoticed, as a failed write makes it |
| RowFile.CleanViewIsRemote | src/bdfsclient-lib/Cache.cpp:390-455 | when no row is dirty the view is the remote grid |
| RowFile.AgreeSize | src/bdfsclient-lib/Cache.cpp:531-568 | two indexes that list the same rows with the same times have the same size |
| RowCache.Cache.ReadFileBlock | src/bdfsclient-lib/Cache.cpp:458-484 | the scan finds the first record for the column, and nothing only if there is none or the file could not be read |
| RowCache.Cache.WriteFileBlock | src/bdfsclient-lib/Cache.cpp:487-528 | the scan overwrites the column's record or appends one; if the file cannot be opened for update the record goes into an emptied one; if that or storing fails the file is as it was, or empty |
| RowCache.Cache.KeepBlock | src/bdfsclient-lib/Cache.cpp:292-300 | after an attempt to store a block every cell shows: that block, if it is the target and the store succeeded; the remote block, if the file of a dirty row was emptied and had a record of it; and otherwise what it showed |
| RowCache.Cache.FlushRow | src/bdfsclient-lib/Cache.cpp:415-437 | however far it gets, the view is unchanged; if every record was written the row agrees with the remote |
| RowCache.Cache.Flush | src/bdfsclient-lib/Cache.cpp:390-455 | the view never changes and only dirty marks go away; the rows left dirty are exactly those not reached and those that could not be opened or written; what is returned is whether the last row was reached, if interrupted, and otherwise whether no write failed; if nothing fails the row used longest ago is clean, and if moreover no request is waiting it returns true, no row is dirty and the remote grid is the view; nothing fails if nothing was going to |
| RowCache.FlushTells | src/bdfsclient-lib/Cache.cpp:446-451 | a flush does not say that all is flushed with a row left dirty if and only if it was interrupted before the last row, or with every row so far opened and written, or it was not interrupted and a write failed, or every row was opened and none left unreached was dirty |
| RowCache.CompleteIsSettled | src/bdfsclient-lib/Cache.cpp:390-455 | no row is left dirty if and only if none failed, none could not be opened and none dirty was out of reach |
| RowCache.Cache.Pop | src/bdfsclient-lib/Cache.cpp:352-387 | the view does not change and at most one row goes, from both indexes; if nothing fails it is the row used longest ago |
| RowCache.Cache.UpdateTimestamp | src/bdfsclient-lib/Cache.cpp:531-568 | items and timestamps stay in exact one-to-one agreement and the view does not change; if nothing fails the rows are in order of last use, without the oldest one if there was one too many |
| RowCache.Cache.ReadImpl | src/bdfsclient-lib/Cache.cpp:275-311 | a successful read gives what the cell showed if and only if its row file could be opened or the remote block is the same; every cell then shows what it showed, but the one read the remote block if it was stored, and those of an emptied file of a dirty row theirs; without that the cell changes if and only if the file could not be opened, the block was stored and they differ; a file of a dirty row that could not be opened is counted, and so is a block that was then not stored, which does not happen if records can be; without faults and wipes nothing is lost; nothing fails if nothing was going to |
| RowCache.Cache.WriteImpl | src/bdfsclient-lib/Cache.cpp:314-349 | a whole block that is stored is shown; a part that is stored gives the bytes laid over what the cell showed if and only if the file could be opened, which for a dirty row the fault counter tells, or the remote block is the same outside them; a failed one, unless the file was emptied, leaves the target as its read left it; what every other cell shows is told exactly, and without faults and wipes it is what it showed; nothing fails if nothing was going to |
| RowCache.Cache.Read | src/bdfsclient-lib/Cache.cpp:158-187 | requests out of range are refused; others give that part of the cell's view if and only if the row file could be opened or the remote block is the same there; the cells change as in ReadImpl |
| RowCache.Cache.Write | src/bdfsclient-lib/Cache.cpp:190-219 | requests out of range are refused and change nothing; others change the cells as in WriteImpl |
| CacheRuns.LosesData | src/bdfsclient-lib/Cache.cpp:275-311 | there is a run in which a write and a read succeed and the read does not return what was written |
| CacheRuns.ClaimsTooMuch | src/bdfsclient-lib/Cache.cpp:446-451 | there is a run in which a flush returns true with a row left dirty |
| Service.Execute | src/bdfsclient-lib/Cache.cpp:158-219 | unless the file of a dirty row failed, one request has on every cell the effect it has on an array of blocks, and a read gives that part of its block; if nothing else fails exactly the requests in range succeed |
| Service.Work | src/bdfsclient-lib/Cache.cpp:222-311 | for any interleaving of any number of callers with the worker, which flushes between requests, the requests executed are a first part of the link order, and unless the file of a dirty row failed all cells and all answers are those of an array of blocks to which they are put one after the other in that order; if nothing else fails exactly those in range succeed, and nothing fails if nothing was going to and no request is of a row that is not there |
| Service.AnsweredFirst | src/bdfs-lib/LockFreeQueue.h:76-143 | a request made after others were answered is linked behind them, so that the order of execution is one in which what was answered before comes first |
| Recency.LeastRecentlyUsed | src/bdfsclient-lib/Cache.cpp:352-387 | evicting the oldest row whenever there is one too many keeps, after any sequence of uses, the last so many in order of last use |
| Recency.OrderedByLastUse | src/bdfsclient-lib/Cache.cpp:531-562 | the order the cache keeps is that of the last uses in the sequence |
| Recency.ServeAll | src/bdfsclient-lib/Cache.cpp:158-219 | after any run of requests in which nothing fails the rows held are the most recently used ones, never more than the limit |
| Layout.Geometry.PlaceIsUnique | src/bdfsclient-lib/Volume.cpp:136-139 | row, column and offset computed from a position are the ones it was made of |
| Layout.Geometry.PlaceOf | src/bdfsclient-lib/Volume.cpp:136-145 | every byte of the volume has a place, in a data column of a row of the grid |
| Codes.LawfulExists | src/bdfsclient-lib/VolumeRow.cpp:100-116 | for any number of data columns the laws assumed hold of no encryption and of the block-wise exclusive or as the one code column |
| Codes.Codec.SameCode | src/bdfsclient-lib/VolumeRow.cpp:127-163 | data that differ in no more columns than there are code blocks have different codes |
| Volume.Volume.ReadCell | src/bdfsclient-lib/Volume.cpp:365-374 | a successful read returns what the cell shows, through the cache or directly, and changes nothing, except for lost cells: without wipes at most that cell, and only after a fault |
| Volume.Volume.WriteCell | src/bdfsclient-lib/Volume.cpp:376-385 | a successful write sets the cell; a failed one through the cache changes nothing; no other cell changes, except that a wipe may lose cells of the row |
| Volume.Volume.Encode | src/bdfsclient-lib/VolumeRow.cpp:127-163 | the data cells do not change, except for lost ones, and no other row does; if none is lost and the code cells are written they hold the code of the data with zeros in the columns that could not be read, and the row has parity if and only if that is the code of the data, for up to codeCount such columns if and only if those cells hold zeros; if every access succeeds it has |
| Volume.Volume.UnreadParity | src/bdfsclient-lib/VolumeRow.cpp:146-151 | zeros in up to codeCount columns make the same code if and only if there were zeros |
| ParityRun.WrongParity | src/bdfsclient-lib/VolumeRow.cpp:146-162 | there is a run in which Encode succeeds and the row has no parity |
| Volume.Volume.AssembledRepresents | src/bdfsclient-lib/VolumeRow.cpp:73-98 | the blocks collected, healthy data in place and code blocks for the missing, are a decodable set |
| Volume.Volume.Decode | src/bdfsclient-lib/VolumeRow.cpp:54-125 | if the healthy cells agree with a codeword, at least as many code cells are healthy as data cells are not, and every access succeeds, the whole row holds that codeword; no other row ever changes |
| Volume.Volume.Verify | src/bdfsclient-lib/VolumeRow.cpp:40-52 | a healthy row is left alone; an unhealthy one that is recoverable holds its codeword afterwards, if every access succeeds |
| Volume.Volume.FlatAgrees | src/bdfsclient-lib/Volume.cpp:131-274 | the cells of a volume hold its flat array |
| Volume.Volume.StandsIsFlat | src/bdfsclient-lib/Volume.cpp:131-274 | when every cell verifies, an array is the one the rows stand for if and only if it is the flat array |
| Volume.Volume.ClearReplaced | src/bdfsclient-lib/Volume.cpp:151-165 | replacing bytes of the array inside one cell replaces exactly those of that cell and leaves every other cell |
| Volume.Volume.SealedBytes | src/bdfsclient-lib/Volume.cpp:256-259 | part of a decrypted cell that holds the array is the same part of the array |
| Volume.Volume.DroppedMore | src/bdfsclient-lib/Volume.cpp:151-165 | a round of a write covers whole at most the cell it writes to, and that one only with all of its bytes |
| Volume.Volume.WriteEncrypt | src/bdfsclient-lib/Volume.cpp:131-185 | a range outside the volume is refused; no row outside the range changes. If every cell verifies and the cells hold an array but for some, a successful write replaces exactly its bytes of the array, whatever the cache did and whatever failed inside Encode, and a failed one through the cache a prefix of them; the cells excepted then are those from before that were not written whole, and those lost meanwhile. Whichever cells verify, if no operation fails and the rows stand for an array that can be recovered, the write succeeds and they stand for it with the bytes replaced. If no operation fails and it succeeds every row touched has parity |
| Volume.Volume.ReadDecrypt | src/bdfsclient-lib/Volume.cpp:231-274 | a range outside the volume is refused; no row outside the range changes. If every cell verifies, a successful read returns exactly that part of the flat array and changes nothing, except for lost cells. Whichever cells verify, if no operation fails and the rows stand for an array that can be recovered, the read succeeds, returns its bytes, leaves them standing for it, no row loses parity, and every row of the range that does not verify holds its codeword |
| Volume.Volume.ParityOutside | src/bdfsclient-lib/Volume.cpp:165-180 | a row that a write does not reach keeps its parity |
| VolumeRun.LastWriteWins | src/bdfsclient-lib/Volume.cpp:131-274 | after any sequence of requests a byte holds what the last write covering it put there, and otherwise what it held before |
| VolumeRun.Background | src/bdfsclient-lib/Cache.cpp:352-455 | flushes and evictions between requests change no cell, whatever fails |
| VolumeRun.Serve | src/bdfsclient-lib/Volume.cpp:131-274 | any run of writes, reads, flushes and evictions, with or without the cache: if every cell verifies, and unless a write without the cache failed, the cells hold what the writes put into one flat array and each read returns it, except for the cells that were lost before that read and not written whole since; without wipes no more cells are lost than there are faults. Whichever cells verify, if nothing fails and the rows stand for an array that can be recovered, reads return it and the rows stand for what the writes made of it, exactly the requests inside the volume are served, and every row written to, read and repaired, or in parity before, is in parity; nothing fails if nothing was going to |
| Decay.OneCodeword | src/bdfsclient-lib/VolumeRow.cpp:54-125 | data that the cells of a row that verify agree with, if there are as many code cells that do as data cells that do not, are the same |
| Decay.Live | src/bdfsclient-lib/Volume.cpp:131-274 | if cells are replaced by anything and do not verify any more, the requests that follow are answered as if nothing had happened, and afterwards the cells that verify, and all cells of rows that were written or read, hold what they should |
| Decay.Weather | src/bdfsclient-lib/Volume.cpp:131-274 | over any number of such epochs in which the damage can be borne and no operation fails, with or without the cache, exactly the requests inside the volume are served and every read returns what the writes of all epochs before it made of one flat array |
| BitSet.MaskBit | src/bdhost/BitSet.cpp:145-166 | one shifted left by 63 less the bit number tests, sets and clears that bit, counted from the top, and no other |
| BitSet.BitSet.Get | src/bdhost/BitSet.cpp:145-151 | the flag at the index, false past the end |
| BitSet.BitSet.Set | src/bdhost/BitSet.cpp:153-166 | changes that flag and no other, and nothing past the end |
| BitSet.BitSet.WriteTo | src/bdhost/BitSet.cpp:122-138 | the file has one byte for every eight flags begun, and bit i of it, the top bit of each byte first, is flag i, for every size |
| BitSet.BitSet.ReadFrom | src/bdhost/BitSet.cpp:102-120 | flag i is bit i of the file, for every size, as far as the file has the word it is in |
| HostPartition.Partition.ZeroFile | src/bdhost/Partition.cpp:85-101 | the first block of the file is zeros, whatever the file held, and no other file changes |
| HostPartition.Partition.InitBlock | src/bdhost/Partition.cpp:83-108 | the block gets a file and a mark on disk, and nobody sees a difference |
| HostPartition.Partition.ReadBlock | src/bdhost/Partition.cpp:110-132 | ranges outside the block are refused; others give that part of the block; one index too many gives zeros while the shared bit is clear, and then what its file holds |
| HostPartition.Partition.WriteBlock | src/bdhost/Partition.cpp:134-159 | overlays part of one block and changes no other; one index too many sets the shared bit and stores the data in a file of its own |
| HostPartition.ExtraBlock | src/bdhost/Partition.cpp:110-159 | what is written at one index too many is read back there, and no block inside the partition changes |
| HostPartition.Handle | src/bdhost/PartitionHandler.cpp:261-320 | one request, for which the map is read anew, is answered and has the effect an array of blocks would |
| HostPartition.Serve | src/bdhost/PartitionHandler.cpp:261-320 | any run of requests on a new partition is answered as an array of zeroed blocks would |
| JsonLexer.TokenAt | src/jsoncpp/json_reader.cpp:285-357 | a token lies within the document, and every one but the end of the stream takes at least one byte |
| JsonLexer.StringToken | src/jsoncpp/json_reader.cpp:475-488 | what the writer quotes is one string token, to its closing quote |
| JsonLexer.NumeralToken | src/jsoncpp/json_reader.cpp:463-473 | what the writer prints for a number is one number token, if nothing of a number follows |
| JsonReader.Reader.ReadToken | src/jsoncpp/json_reader.cpp:285-357 | reads the token the functions of the lexer describe, on every document |
| JsonReader.Reader.Recover | src/jsoncpp/json_reader.cpp:785-799 | ends on every document, behind the first token of the kind looked for or at the end of the stream |
| JsonReader.Reader.DecodeString | src/jsoncpp/json_reader.cpp:669-713 | gives exactly the string the grammar has for the token, on every document, and fails exactly when it records an error |
| JsonReader.Reader.DecodeNumber | src/jsoncpp/json_reader.cpp:593-628 | gives exactly the number the grammar has for the token, on every document, and overruns the buffer if and only if the text has 32 characters and looks like a real or has too many digits |
| JsonReader.Reader.DecodeDigits | src/jsoncpp/json_reader.cpp:611-620 | reads a run of digits up to a threshold, and no value it computes exceeds 64 bits |
| JsonReader.Reader.DecodeReal | src/jsoncpp/json_reader.cpp:631-657 | a number text is a real or an error as sscanf has it, and overruns the buffer it is copied to if and only if it is 32 characters long |
| JsonReader.Reader.ReadValue | src/jsoncpp/json_reader.cpp:206-254 | ends on every document, gives exactly the value the grammar has at the cursor, and fails exactly when it records an error |
| JsonReader.Reader.ReadArray | src/jsoncpp/json_reader.cpp:550-590 | the same for the items of an array, with the tokens found after them |
| JsonReader.Reader.ReadObject | src/jsoncpp/json_reader.cpp:491-547 | the same for the members of an object |
| JsonReader.Parse | src/jsoncpp/json_reader.cpp:162-203 | ends on every document, succeeds if and only if no error was recorded and if and only if the grammar has a value at its start, gives that value, and overruns the buffer of a number exactly as often as the numbers it comes across do |
| JsonGrammar.ArrayReadIff | src/jsoncpp/json_reader.cpp:550-590 | items are read if and only if each of them is and the token after it is a closing bracket for the last and no other |
| JsonGrammar.ItemsChain | src/jsoncpp/json_reader.cpp:550-590 | items that are read lie one after the other, each behind the token after the one before |
| JsonGrammar.ChainItems | src/jsoncpp/json_reader.cpp:550-590 | items that lie so are read, with these tokens as separators |
| JsonGrammar.RightWithCommas | src/jsoncpp/json_reader.cpp:578-584 | the items read are those of a reader that insists on commas if and only if there are none or every separator is a comma; that reader accepts nothing else |
| JsonBack.NumberBack | src/jsoncpp/json_reader.cpp:593-628 | the text of an integer is read as that integer if and only if it is in range, and otherwise, if at all, as a real |
| JsonBack.ReadsBack | src/jsoncpp/json_reader.cpp:206-254 | wherever in a document the text of a printable value lies, the grammar has that value, and no number of it overruns the buffer |
| JsonBack.PrintedReads | src/jsoncpp/json_reader.cpp:162-203 | the text of a printable value is a document of that value, in which no number overruns the buffer |
| JsonBack.SpacesSeparate | src/jsoncpp/json_reader.cpp:550-590 | "[1 2 3]" is an array of 1 and 3, of which 2 is the separator |
| JsonBack.NumberAlone | src/jsoncpp/json_reader.cpp:631-657 | the parse of a document of nothing but a number overruns the buffer if and only if the number does |
| JsonText.DecimalMeans | src/jsoncpp/json_writer.cpp:30-40 | the digits printed for a number mean that number |
| JsonWriter.UIntToString | src/jsoncpp/json_writer.cpp:30-40 | the loop from the last digit to the first prints the decimal form |
| JsonWriter.ValueToString | src/jsoncpp/json_writer.cpp:42-64 | a number is printed as its decimal form with its sign |
| JsonWriter.ValueToQuotedString | src/jsoncpp/json_writer.cpp:111-172 | quotes a string up to its first NUL, escaping what needs it, on the short way as on the long one |
| JsonWriter.Writer.WriteValue | src/jsoncpp/json_writer.cpp:207-263 | appends the text of the value |
| JsonWriter.RoundTrip | src/jsoncpp/json_writer.cpp:197-263 | every tree of nulls, booleans, strings without NUL, arrays, objects and integers in range survives writing and parsing, and no number of it overruns the buffer |
| JsonWriter.OddArray | src/jsoncpp/json_reader.cpp:578-584 | Parse accepts "[1 2 3]" and gives [1,3] |
| JsonWriter.Overrun | src/jsoncpp/json_reader.cpp:631-657 | there is a document of 32 characters whose parse overruns the buffer |
| Base64.EncodedLength | src/bdfs-lib/Base64Encoder.h:30 | the text of n bytes has exactly 4 * ((n + 2) / 3) characters, all of seven bits |
| Base64.Encode | src/bdfs-lib/Base64Encoder.cpp:99-132 | writes the text of the bytes, of that length |
| Base64.Decode | src/bdfs-lib/Base64Encoder.cpp:49-95 | of any seven-bit text it writes at most 3 * ((n + 3) / 4) bytes, and of the text of some bytes it writes those bytes |
| Base64.RoundTrip | src/bdfs-lib/Base64Encoder.cpp:49-132 | every string of bytes survives encoding and decoding |
| HostRecord.HostInfo.ToText | src/bdfs-lib/HostInfo.cpp:28-55 | prints the record's JSON form |
| HostRecord.HostInfo.FromText | src/bdfs-lib/HostInfo.cpp:58-117 | takes over the address of a record and appends its relays; a rejected text changes nothing |
| HostRecord.Publish | src/bdfs-lib/BdKademlia.cpp:43-118 | a record with strings of bytes without NUL and 16-bit ports survives printing, encoding, decoding and parsing into a new object |
| Streams.BigEndianInverts | src/bdfsclient-lib/IInputStream.cpp:201-242 | a number that fits is read back from its bytes |
| Streams.OutputStream.EnsureBuffer | src/bdfsclient-lib/BufferedOutputStream.cpp:45-62 | there is room for the bytes asked for, at a multiple of 64, and what was written is kept |
| Streams.OutputStream.Write | src/bdfsclient-lib/BufferedOutputStream.cpp:64-73 | the contents grow by exactly the data |
| Streams.OutputStream.WriteString | src/bdfsclient-lib/IOutputStream.cpp:235-248 | the contents grow by the counted string |
| Streams.InputStream.Read | src/bdfsclient-lib/BufferedInputStream.cpp:63-79 | gives the bytes asked for or all that are left, and then the stream is no longer valid |
| Streams.InputStream.ReadString | src/bdfsclient-lib/IInputStream.cpp:259-272 | gives back a counted string; an empty one leaves the target as it was |
| BlobRecords.SerializeMetadata | src/bdblob/BlobMetadata.cpp:32-43 | appends the bytes of the metadata |
| BlobRecords.MetadataSize | src/bdblob/BlobMetadata.cpp:73-84 | the size computed is the number of those bytes |
| BlobRecords.DeserializeMetadata | src/bdblob/BlobMetadata.cpp:46-70 | gives back the metadata, its partitions after those already there, and stops behind it |
| BlobRecords.SerializeEntry | src/bdblob/Folder.cpp:290-300 | appends the bytes of the entry |
| BlobRecords.DeserializeEntry | src/bdblob/Folder.cpp:303-320 | gives back the entry and stops behind it |
| BlobRecords.Folder.Serialize | src/bdblob/Folder.cpp:227-242 | appends the bytes of the folder, its entries in some order without repetition |
| BlobRecords.Folder.SerializedSize | src/bdblob/Folder.cpp:272-333 | the size computed is the number of those bytes, whatever the order |
| BlobRecords.Folder.Deserialize | src/bdblob/Folder.cpp:245-269 | gives back the name and all entries, and leaves entries that were there |
| BlobRecords.RoundTrip | src/bdblob/Folder.cpp:227-333 | a folder survives writing and reading into a new one, whatever follows it |
| BlobMap.BlobMap.GetValue | src/bdblob/BlobMap.cpp:91-121 | gives the value last stored under the key, or nothing; a failed read gives nothing |
| BlobMap.BlobMap.SetValue | src/bdblob/BlobMap.cpp:61-88 | stores the value; if an operation fails the value stored before stays; other keys keep theirs |
| BlobMap.BlobMap.GetMetadata | src/bdblob/BlobMap.cpp:134-144 | gives the metadata whose bytes are stored under the key |
| BlobMap.StoreAll | src/bdblob/BlobMap.cpp:38-144 | after opening a new store and any run of updates in which nothing fails a key gives the metadata last stored under it, or nothing |
| Relays.AllAttempts | src/bdfs-lib/HttpRequest.cpp:136-173 | the full list of attempts is direct and then every endpoint of every relay, each once, in list order |
| Relays.Config.Execute | src/bdfs-lib/HttpRequest.cpp:108-181 | with no relay chosen the attempts are a first part of that list, ending at the first that does not fail to connect, whose target stays chosen, or at its end; otherwise there is one attempt and nothing is chosen anew |
| Patterns.MatchPattern | src/bdblob/BlobApi.cpp:714-760 | accepts exactly the names that match the pattern with two or more stars at its end taken for a question mark and a star |
| Patterns.AcceptsOnlyMatches | src/bdblob/BlobApi.cpp:714-760 | whatever it accepts the wildcard relation accepts |
| Patterns.RightUnlessTwoStars | src/bdblob/BlobApi.cpp:730-745 | it accepts exactly the names of the relation if and only if the pattern does not end in two stars |
| Patterns.PatternMatch | src/bdblob/BlobApi.cpp:762-765 | the same for C strings, which end at their first NUL |
| Paths.SplitPath | src/bdblob/BlobApi.cpp:606-644 | gives the names between delimiters with . and .. resolved: no name is empty or . or holds a delimiter, and .. stands at most in the first place |
| Paths.JoinPaths | src/bdblob/BlobApi.cpp:647-657 | puts a slash before each part in the range |
| Paths.SplitJoined | src/bdblob/BlobApi.cpp:606-657 | a resolved path survives joining and splitting |
| Paths.Normalize | src/bdblob/BlobApi.cpp:606-657 | splitting what a split path joins to gives the same path |

## Left out

- Volume.Volume.Encode: does not model an encoder that fails, because the code is a total function here.
- Volume.Volume.Verify: which cells verify does not change during a call, nor by a repair, because the client's VerifyBlock says the same of a cell at any time (src/bdfsclient-lib/Partition.cpp:36-39); Decay has it change between requests.
- VolumeRun.Serve: promises nothing of the contents when cells do not verify and operations fail at the same time, because a row half decoded may be neither what it was nor what it should be.
- Decay.Weather: a cell of a row that the cache holds does not go bad meanwhile, because it would show only when the row is dropped.
- HostPartition.Serve: file operations of the host succeed, and requests on one partition come one at a time.
- JsonReader.Reader.DecodeNumber: does not say which real a text stands for; which texts stand for one is a parameter, because reals are left out.
- HostRecord.Publish: the distributed hash table is taken to return the string it stored.
- The inside of AES, SHA-256 and the erasure code: library code, replaced by its laws.
- `Volume::Write` and `Volume::Read` without encryption: the same loops with an easier body.
- Wrap-around of size_t in range checks: offsets and sizes are unbounded numbers.
- A failed local cache write that leaves half a record: storing a record succeeds or changes nothing in the file.
- Cache directories that are not empty at the start: the cleaning is commented out in the source.
- The lifetime of request objects, shutdown, and reuse of a freed node's address by the allocator.
- Comments kept with JSON values, reals and the styled writers: text layout.
- Parsing of request parameters, sockets, curl, and the command line: input and output.
- Folder maintenance (updating, removing and relocating entries) and host space reservation.
- Kademlia, contracts, and the block-device glue.
