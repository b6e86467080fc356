# Verified models of the go-ycsb core

go-ycsb is a benchmark client: worker threads draw key numbers, write and read records
through database drivers, and check what they read. This project models the parts of it
whose correctness is not visible in any single function and proves, in Dafny, what the code
promises about them.

| file | models |
|---|---|
| `AckProtocol.dfy` | the acknowledged insert counter as a protocol of any number of goroutines, one shared access per step |
| `AcknowledgedCounter.dfy` | the same counter as an object whose methods run to completion, and what happens outside its window |
| `Varint.dfy`, `Row.dfy`, `RowCodec.dfy` | zigzag/base-128 varints, the TiDB-style row format, the field-name layer with its arbitrary map order |
| `RawDriver.dfy` | the TiKV raw driver as an object, with the compare-and-swap and the get-put update mode |
| `RawSteps.dfy` | the raw driver RPC by RPC under every interleaving: data integrity, what commits, what may be lost |
| `RawAlone.dfy` | the same model run by one thread at a time, against operations on a plain table |
| `RawModes.dfy` | exactly when the get-put fallback loses nothing, and CAS mode as a refinement of the plain mode, RPC by RPC |
| `TikvRange.dfy` | paged `Count` and `Clean` of the raw and the transactional driver |
| `S3Scan.dfy` | the paged scan of the S3 driver |
| `Zipfian.dfy` | the incrementally maintained zeta under a spin lock |
| `Fnv.dfy`, `DeterministicValue.dfy` | FNV-1a, the deterministic values and their verification |
| `ShardedMap.dfy` | the sharded concurrent map |
| `ShardedReads.dfy` | its counts and listings while writers are at work |
| `LoadSplit.dfy` | the split of a load over workers and the key numbers they draw |
| `CasChecker.dfy` | the compare-and-swap conflict checker |
| `Bytes.dfy`, `Bits.dfy`, `Option.dfy` | byte strings, decimal numerals, lexicographic order, sorted listings; bitwise operations; optional values |

Conventions. A concurrent component is a `State` with a `Step` function and a `Run` over an
arbitrary schedule; theorems quantify over all schedules. Fields of a `State` that only record
history are named as such and influence no step. Shared accesses are taken to be sequentially
consistent; the window of the acknowledged counter is read and written without atomics in the
source. Go strings and byte slices are sequences of bytes. Integers are unbounded unless a
64-bit wrap-around, a truncated remainder or a conversion is written out. The network, the
clock, random choices and map iteration orders are arguments or non-deterministic choices. The
methods take locks for the time of one whole call, except where the locking itself is modelled.

## Findings about the code

- The guard `index != beforeFirstSlot` of the drain loop compares an unmasked index with a
  masked one. It is never needed for termination, and it stops a drain one key early exactly
  when the limit lies within one window below zero and the whole window is acknowledged
  (`GuardFires`; `GuardStopsShort` is an instance). The workload starts at a positive record
  count, where it never fires.
- The panic on a set slot does not detect every overrun of the window. A value more than one
  window ahead of `Last()` can alias a pending key and make `Last()` report that key;
  `OverrunIsSafeIff` says exactly when, `OverrunReportsPendingKey` gives an instance.
- After concurrent acknowledgements `Last()` may lag behind the acknowledged prefix while all
  is quiet, because a failed `TryLock` leaves the mark for a later call (`LastMayLag`).
- An unknown field name is read as column 0, that is as `field0` (`CodecRoundTrip`;
  `UnknownNameReadsFieldZero` is an instance).
- The get-put fallback of `Update` can lose concurrent updates (`FallbackMayLoseFields`). It
  merges into the current record if and only if the fields it does not write are still as its
  get has read them (`FallbackMergesIff`). Successful swaps always do (`SwapCommitsMerge`).
- Ranges of tables whose names contain a colon can overlap (`ColonTablesOverlap`), and their
  records can have the same row key: a record inserted into one table is then read from the
  other (`UnseparateTablesMix`). `RowKeyTellsRecordsIff` says exactly for which names.
- The S3 scan never returns a record with an empty key (`EligibleIff`;
  `EmptyKeyIsNeverScanned` is an instance).
- A zipfian over a negative number of items is not exact after an extension
  (`FirstCallExactIff`): index -1 contributes 1/0^theta.
- A caller of the zipfian can draw with its own item count from the sum for another one. The
  new count is stored before the new sum and compared without the lock, so a matching caller
  may see the old sum (`StaleDraw`); and a generator that has grown between the comparison and
  the draw shows the new sum to a caller with the old count (`LateDraw`). `DrawIsExactIff` says
  exactly when a draw uses the sum for its own count.

## Model

| member | source | states |
|---|---|---|
| `AckProtocol.EveryRunIsSafe` | pkg/generator/acknowledged_counter.go:60-110 | in every interleaving of draw, insert, test, mark, try-lock and drain steps in which no draw is more than one window ahead of Last(), from any start: every value from start to Last() is acknowledged and its insert has returned, Last() never decreases, no goroutine panics, at most one drains, and every drawn value is acknowledged or still held |
| `AckProtocol.NoMarkIsLost` | pkg/generator/acknowledged_counter.go:86-90 | an acknowledged value above the drained prefix keeps its slot, also after a failed TryLock, and shares it with no other such value |
| `AckProtocol.AcknowledgeAloneDrains` | pkg/generator/acknowledged_counter.go:88-110 | from every reachable state with the lock free, a goroutine that has marked and runs alone returns with Last() at the end of the longest acknowledged prefix, if and only if the guard does not fire, one short of it otherwise; the guard does not fire for a positive start |
| `AckProtocol.DrawnByEach` | pkg/generator/acknowledged_counter.go:70-72 | any number of goroutines can draw before anything is acknowledged, each its own value in order, within the window exactly up to a whole window |
| `AckProtocol.AnySetCanBeAcked` | pkg/generator/acknowledged_counter.go:80-90 | every set of values of the first window is what is acknowledged after some schedule within the window |
| `AckProtocol.OverrunPanics` | pkg/generator/acknowledged_counter.go:80-84 | a schedule that draws one value more than a window, acknowledges the first and then the last, in which a goroutine panics |
| `AckProtocol.LockIsReleased` | pkg/generator/acknowledged_counter.go:88-110 | under every schedule, whatever the others mark meanwhile, a goroutine that holds the lock has released it by the time it has taken 3 * WindowSize + 6 steps of its own |
| `AckProtocol.LastIsLongestIff` | pkg/generator/acknowledged_counter.go:75-77 | whenever the lock is free, Last() is the end of the longest acknowledged prefix exactly if the slot after it is not set |
| `AckProtocol.LastMayLag` | pkg/generator/acknowledged_counter.go:88-90 | a schedule of two goroutines that ends quiet with 1 and 2 acknowledged and Last() at 1 |
| `AckProtocol.StepInv` | pkg/generator/acknowledged_counter.go:80-110 | every step of every goroutine keeps the protocol invariant: window slots are exactly the marks of acknowledged values above the drained prefix, all within one window |
| `AckWindow.SlotIsMask` | pkg/generator/acknowledged_counter.go:42-45 | masking the 64-bit word of any value, negative ones included, bit by bit with the window mask gives its slot, the non-negative remainder by the window size |
| `AcknowledgedCounters.AcknowledgedCounter.constructor` | pkg/generator/acknowledged_counter.go:60-67 | a new counter starts at start, with nothing acknowledged, limit start - 1 and a consistent, empty window |
| `AcknowledgedCounters.AcknowledgedCounter.Next` | pkg/generator/counter.go:51-53 | returns the counter and increments it |
| `AcknowledgedCounters.AcknowledgedCounter.Last` | pkg/generator/acknowledged_counter.go:75-77 | everything from start to the result is acknowledged |
| `AcknowledgedCounters.AcknowledgedCounter.Acknowledge` | pkg/generator/acknowledged_counter.go:80-110 | panics exactly on a set slot and then changes nothing; otherwise has the drain's effect; for a new value within one window it does not panic, keeps the window consistent, and makes Last() the longest acknowledged prefix exactly unless the guard fires |
| `AcknowledgedCounters.AcknowledgedCounter.Drain` | pkg/generator/acknowledged_counter.go:97-109 | the loop ends for every window and limit, moves limit over the maximal run of set slots, clears exactly those and no others |
| `AcknowledgedCounters.AckKeepsConsistent` | pkg/generator/acknowledged_counter.go:80-110 | an acknowledgement within the window keeps the slots in one-to-one correspondence with the acknowledged values above limit |
| `AcknowledgedCounters.OverrunIsSafeIff` | pkg/generator/acknowledged_counter.go:81-107 | acknowledging a value beyond the window without a panic keeps Last() sound if and only if the drain does not run up to the pending value with the same slot |
| `AcknowledgedCounters.OverrunReportsPendingKey` | pkg/generator/acknowledged_counter.go:81-107 | a concrete overrun after which Last() reports a key that was never acknowledged |
| `AcknowledgedCounters.GuardStopsShort` | pkg/generator/acknowledged_counter.go:99-109 | with 1 to WindowSize - 1 acknowledged from a start at 0, acknowledging 0 leaves Last() one key short of the acknowledged prefix |
| `AcknowledgedCounters.FullButOne` | pkg/generator/acknowledged_counter.go:80-110 | such a window exists |
| `Varints.VarintRoundTrip` | pkg/util/row.go:58-62 | every int64 is read back from its varint whatever bytes follow; the varint has one to ten bytes and exactly those are consumed |
| `Varints.ShortUvarints` | pkg/util/row.go:58-62 | numbers below 2^7 take one byte and those below 2^14 two, the low seven bits first; 300 is AC 02 |
| `Varints.ShortVarints` | pkg/util/row.go:58-62 | numbers from -64 to 63 take one byte, with the signs interleaved |
| `Varints.UvarintRange` | pkg/util/row.go:95-104 | a successful read consumes one to ten bytes of the buffer and yields a 64-bit value |
| `Varints.ZigZagRoundTrip` | pkg/util/row.go:58-62 | the zigzag map with its 64-bit wrap-around is the usual interleaving of signs, and is inverted |
| `Rows.EncodeRow` | pkg/util/row.go:27-40 | fails exactly on unequal lengths; otherwise appends the columns in order, a single zero byte for the empty row |
| `Rows.DecodeRow` | pkg/util/row.go:67-89 | computes the specified decoding for every byte string, with its errors and its panics |
| `Rows.ColumnRoundTrip` | pkg/util/row.go:47-56 | a column is decoded from its code whatever follows: the column code is prefix-free |
| `Rows.RowRoundTrip` | pkg/util/row.go:27-115 | for all equal-length columns and int64 ids, decoding the encoded row succeeds and gives the last-wins map, the empty row included |
| `Rows.OneColumnRow` | pkg/util/row.go:27-56 | the bytes of every row with one short value in a column with a small number |
| `RowCodecs.KnownFieldName` | pkg/util/core.go:30-31 | the bytes of "field10" |
| `RowCodecs.CreateFieldIndices` | pkg/util/core.go:26-34 | the keys are exactly the field names, each mapped to its own index; none for a negative count |
| `RowCodecs.AllFields` | pkg/util/core.go:37-45 | the field names in index order, a panic exactly for a negative count |
| `RowCodecs.NewRowCodec` | pkg/util/core.go:54-59 | the two views of the field names agree; a panic exactly for a negative count |
| `RowCodecs.FieldNameInjective` | pkg/util/core.go:30-31 | different indices have different field names |
| `RowCodecs.Encode` | pkg/util/core.go:84-96 | writes the row of the record for some iteration order that lists every field once |
| `RowCodecs.Decode` | pkg/util/core.go:62-81 | picks the requested columns of the decoded row, all fields when none is requested, column 0 for an unknown name |
| `RowCodecs.CodecRoundTrip` | pkg/util/core.go:62-96 | for every record over known fields and every iteration order, decoding gives the record restricted to the requested fields if and only if all requested names are fields or the record has no field0 |
| `RowCodecs.UnknownNameReadsFieldZero` | pkg/util/core.go:72-77 | asking a record that has only field0 for the unknown name "x" returns the value of field0 under "x" |
| `RowCodecs.WholeRecordRoundTrip` | pkg/util/core.go:62-96 | a whole record comes back as it was, whatever the order |
| `RawDriver.RawDB.Read` | db/tikv/raw.go:93-110 | returns the requested fields of the stored record; in CAS mode remembers exactly the key and row it read, otherwise leaves the cache alone |
| `RawDriver.RawDB.BatchRead` | db/tikv/raw.go:112-131 | reads every key as Read does, without the cache |
| `RawDriver.RawDB.Insert` | db/tikv/raw.go:227-240 | sets the record, whatever the byte order of the row |
| `RawDriver.RawDB.Update` | db/tikv/raw.go:156-210 | in both modes, with a fresh, stale, foreign or empty cache, merges the values into the current record, an absent one counting as empty; uses up a cached row of that key and leaves any other alone |
| `RawDriver.RawDB.Swap` | db/tikv/raw.go:163-190 | succeeds exactly if the store holds the cached bytes, then writes the merge of the current record, otherwise changes nothing |
| `RawDriver.RawDB.BatchPut` | db/tikv/raw.go:212-254 | sets all records in order, later ones winning |
| `RawDriver.RawDB.Delete` | db/tikv/raw.go:256-258 | removes the record and nothing else |
| `RawDriver.RawDB.BatchDelete` | db/tikv/raw.go:260-266 | removes exactly the named records |
| `RawRows.RowKeyTellsKeys` | db/tikv/raw.go:89-91 | different records of a table have different row keys |
| `RawRows.RowKeyTellsRecordsIff` | db/tikv/raw.go:89-91 | row keys tell the records of two tables apart if and only if neither name, followed by a colon, is a prefix of the other |
| `RawRows.PlainNamesSeparate` | db/tikv/raw.go:89-91 | names without a colon are told apart |
| `RawDriver.RunCalls` | db/tikv/raw.go:93-266 | any sequence of operations by any number of threads with their own caches returns and stores what a table of rows does, and, for tables whose names are told apart, what a plain table of records named by (table, key) does |
| `RawDriver.RunOnPairs` | db/tikv/raw.go:89-266 | over any operations on tables whose names are told apart, the table of rows acts as the plain table of records named by (table, key) |
| `RawDriver.UnseparateTablesMix` | db/tikv/raw.go:89-91 | for any two other names, some record inserted into one table is read from the other |
| `RawDriver.ModesAgree` | db/tikv/raw.go:41-45 | over any operations of any threads, a new CAS-mode driver and a new get-put driver each return the reads and leave the decoded table of the table of rows, for tables whose names are told apart those of the plain table of records named by (table, key), and so agree |
| `RawSteps.IntegrityHolds` | pkg/workload/core.go:416-492 | from an empty table, in every RPC-level interleaving of reads, updates, read-modify-writes, inserts, deletes and batch writes, with RPCs failing anywhere, before or after they took effect, every stored record holds only deterministic values and no verification ever fails |
| `RawSteps.SwapCommitsMerge` | db/tikv/raw.go:161-190 | a successful swap writes exactly the merge of the values into the record in the store at that step; a failed one writes nothing |
| `RawSteps.StoreIsReplay` | db/tikv/raw.go:156-258 | in every interleaving the decoded store is the replay of the writes in commit order, swaps counting as merges into what is there |
| `RawSteps.SwapsLoseNothing` | db/tikv/raw.go:161-191 | in runs whose writes all commit by swaps, every field holds what the last commit touching it wrote, or its initial value |
| `RawSteps.EachReadSwapsOnce` | db/tikv/raw.go:162-165 | no two swaps of a run offer the row of the same read |
| `RawAlone.AloneIsAtomic` | db/tikv/raw.go:93-258 | from any state, whatever other threads were doing and whatever is cached, for every run of steps of the one thread that started an operation, in either mode: once it has no RPC left, the decoded table is that of the operation done at once, and the record it verifies is the one that was stored |
| `RawAlone.AloneFinishes` | db/tikv/raw.go:93-258 | some steps of its own take that thread to the end of its operation |
| `RawAlone.AloneCommits` | db/tikv/raw.go:156-258 | every such run has committed exactly the writes of its operation: an update swaps if its thread has cached the stored row, a read-modify-write in CAS mode swaps whenever the record exists, everything else replaces or removes whole records |
| `RawAlone.AloneDetects` | pkg/workload/core.go:247-259 | such a run ends in a mismatch if and only if the record it read does not hold the deterministic values |
| `RawAlone.SwapSucceedsIff` | db/tikv/raw.go:183-190 | a swap succeeds exactly if the store still holds the row it offers, and goes on to the fallback otherwise |
| `RawModes.ReadModifyWriteSwapsIff` | db/tikv/raw.go:161-191 | with any steps of other threads in between, a read-modify-write of a stored record in CAS mode offers the row it has read; it commits one merge if that row is still stored, which it is if no one has written the record, and otherwise writes nothing and goes on to the fallback |
| `RawModes.FallbackMergesIff` | db/tikv/raw.go:194-209 | for any steps of other threads between the get and the put of a fallback update, the put leaves the merge of the values into the record then stored if and only if all fields it does not write still agree with what the get read; in any case it leaves the merge into the record read |
| `RawModes.CasRefinesPlain` | db/tikv/raw.go:156-210 | from matching states, every interleaving in CAS mode is matched by one in plain mode with the same store byte for byte, the same operations issued, the same failures and lost replies and the same records verified in the same order, where a successful swap stands for its get and put with nothing in between and a failed one for nothing |
| `RawModes.CasRunsRefinePlain` | db/tikv/raw.go:41-45 | the same for all runs from any store of good rows |
| `RawSteps.FallbackMayLoseFields` | db/tikv/raw.go:194-209 | two plain updates of an absent record may both read before either writes, leaving only the second one's values |
| `RawSteps.RunInv` | db/tikv/raw.go:93-258 | any condition on single field values that all started operations meet holds of every stored row, cached row and pending write in every run |
| `TikvRange.RawCount` | db/tikv/raw.go:268-299 | ends for every store and batch size and returns the number of keys in the table's range |
| `TikvRange.TxnCount` | db/tikv/txn.go:325-366 | ends for every store and batch size and returns the number of keys in the table's range |
| `TikvRange.NextPage` | db/tikv/raw.go:294-295 | continuing at the last key plus a zero byte leaves exactly the keys not yet returned |
| `TikvRange.TxnClean` | db/tikv/txn.go:368-427 | ends, and leaves the same store as the single DeleteRange of the raw driver |
| `TikvRange.CollectBatch` | db/tikv/txn.go:387-398 | one transaction reads the first keys of the range in order, all of them when fewer than a batch |
| `TikvRange.InRangeIff` | db/tikv/raw.go:270-271 | a key is in a table's range iff it starts with the table name and a colon and what follows does not start with FF FF FF FF |
| `TikvRange.RecordInRangeIff` | db/tikv/raw.go:89-91 | the row of a record lies in the range of its table iff its key does not start with FF FF FF FF |
| `TikvRange.DisjointIff` | db/tikv/raw.go:301-307 | two tables never share a key iff neither range contains the start of the other |
| `TikvRange.PlainTablesDisjoint` | db/tikv/raw.go:89-91 | different table names without a colon have disjoint ranges |
| `TikvRange.CleanThenCount` | db/tikv/raw.go:301-307 | after Clean the table's range is empty and the range of every disjoint table is unchanged |
| `TikvRange.ColonTablesOverlap` | db/tikv/raw.go:270-271 | keys of table "a:b" lie in the range of table "a" |
| `S3Scan.Scan` | db/s3/db.go:181-272 | for every bucket, page split and set of unreadable objects the scan ends and returns the first count eligible records in byte order, each once and as it is stored, an encoded nil as no record; nothing for a count of zero or less |
| `S3Scan.TakePage` | db/s3/db.go:236-263 | one page adds its readable objects in order until enough are collected |
| `S3Scan.EligibleIff` | db/s3/db.go:188-210 | a record is eligible iff its key is not empty and not before the start key and it is readable, an encoded nil only after the start key |
| `S3Scan.EmptyKeyIsNeverScanned` | db/s3/db.go:188-210 | a bucket whose only record has the empty key has nothing to scan, although that record can be read |
| `S3Scan.ObjectOrder` | db/s3/db.go:320-325 | object keys of one table compare as their record keys do |
| `S3Scan.TablesShareNoObject` | db/s3/db.go:320-325 | tables whose names hold no slash share no object |
| `S3Scan.ObjectKeyOfTA` | db/s3/db.go:320-325 | the object keys "t/a" of a named table and "a" of the unnamed one |
| `S3Scan.ListObjects` | db/s3/db.go:221-227 | a page is the next listed keys in order, at most maxKeys and otherwise of any size, truncated iff keys remain |
| `Zipfian.ZetaIsExact` | pkg/generator/zipfian.go:120-149 | in every interleaving of calls with any item counts, for any addition: with the lock free zetan is the from-scratch sum for countForZeta, at every moment it is the from-scratch sum for some count, one caller recomputes at a time, and countForZeta never decreases without shrinking |
| `Zipfian.CallAlone` | pkg/generator/zipfian.go:135-149 | a call that runs alone with the lock free returns with the lock free and the exact sum for its own item count, if that is larger or the generator may shrink |
| `Zipfian.ZetaStatic` | pkg/generator/zipfian.go:125-133 | the loop is the left fold of the terms |
| `Zipfian.FoldSnoc` | pkg/generator/zipfian.go:125-133 | a sum of no terms is the initial sum, and one more index adds the term of that index last, for any addition |
| `Zipfian.TraceTerms` | pkg/generator/zipfian.go:125-133 | the indices added are exactly st to n - 1, each once and in order |
| `Zipfian.FoldSplit` | pkg/generator/zipfian.go:138-140 | continuing a sum is summing from the start, without any law of addition |
| `Zipfian.DrawIsExactIff` | pkg/generator/zipfian.go:135-162 | in every reachable state of a generator that never shrinks, a caller about to draw has a count of at most countForZeta, and zetan is the sum for its own count if and only if either no caller stands between its two stores and countForZeta is that count, or the caller between its two stores is extending the sum for that count |
| `Zipfian.SumLagsIff` | pkg/generator/zipfian.go:120-141 | in every reachable state, shrinking or not, zetan belongs to countForZeta if and only if no caller stands between its store of the count and its store of the sum |
| `Zipfian.StaleDraw` | pkg/generator/zipfian.go:135-153 | a schedule in which a caller whose count matches draws from the sum for the old count |
| `Zipfian.LateDraw` | pkg/generator/zipfian.go:135-162 | a schedule in which a caller whose count matched draws from the sum for a larger count, with the lock free and no store under way |
| `Zipfian.ExtensionExactIff` | pkg/generator/zipfian.go:125-141 | for any addition whose finite sums have finite operands, and terms that are not finite at negative indices, an extension gives the finite sum from scratch iff the initial number of items is not negative |
| `Zipfian.FirstCallExactIff` | pkg/generator/zipfian.go:91-141 | under the same conditions, the first larger call on a new generator leaves the exact sum iff it was made for a number of items that is not negative |
| `Zipfian.TraceMeetsConditions` | pkg/generator/zipfian.go:125-133 | the arithmetic that records its terms meets the conditions of the results above and has different sums for different counts |
| `Fnv.HashBytes` | pkg/util/hash.go:35-39 | the byte loop computes the FNV-1a sum |
| `Fnv.OneByteChangesHash` | pkg/util/hash.go:22-46 | two byte strings of equal length that differ in exactly one position have different 64-bit sums |
| `Fnv.SumConcat` | pkg/util/hash.go:35-46 | bytes are taken in order: hashing a concatenation is going on with its second part |
| `Fnv.BigEndianRoundTrip` | pkg/util/hash.go:23-24 | the bytes of a number, the most significant first, stand for that number |
| `Fnv.StatesNeverMerge` | pkg/util/hash.go:35-46 | different hash states stay different over any further input |
| `Fnv.KnownSums` | pkg/util/hash.go:35-39 | the published sums of the empty string and of "a" |
| `DeterministicValues.BuildDeterministicValue` | pkg/workload/core.go:229-245 | the loop ends with the specified value of exactly size bytes, and a buffer starting within size + 21 bytes never outgrows them |
| `DeterministicValues.ValuePrefix` | pkg/workload/core.go:229-245 | the value of a smaller size is a prefix of the value of a larger one |
| `DeterministicValues.TwoRounds` | pkg/workload/core.go:236-243 | a value starts with key:field, then a colon and the decimal hash of all before the digits, then again so, as far as it reaches |
| `DeterministicValues.ValueIdentifies` | pkg/workload/core.go:229-259 | equal values with room for key:field belong to the same key and the same field up to case, if names hold no colon: a misplaced record does not pass verification |
| `DeterministicValues.BuildValues` | pkg/workload/core.go:190-204 | one deterministic value for every field name and no other |
| `DeterministicValues.VerifyRow` | pkg/workload/core.go:247-259 | accepts exactly the records whose every field holds its deterministic value |
| `ShardHash.ShardIndex` | pkg/util/concurrent_map.go:38-40 | the shard index is in range for every key, also when the signed remainder is negative |
| `ShardHash.Fnv32` | pkg/util/concurrent_map.go:310-319 | the scrambled key reduced by the signed remainder and converted fits 32 unsigned bits |
| `ShardHash.KnownScrambles` | pkg/util/concurrent_map.go:311-316 | the scrambled words of 0, 1 and -1 |
| `ShardHash.ShardIsResidue` | pkg/util/concurrent_map.go:38-40 | for a shard count that divides 2^32 the signed remainder, its conversion and the second reduction cancel out: the index is the residue of the scrambled key, negative ones included |
| `ShardedMaps.Lookup` | pkg/util/concurrent_map.go:88-96 | the single map agrees with the key's own shard |
| `ShardedMaps.Change` | pkg/util/concurrent_map.go:49-55 | changing one key of its own shard changes the single map at that key only and keeps every key in its shard |
| `ShardedMaps.ConcurrentMap.constructor` | pkg/util/concurrent_map.go:27-35 | a new map is empty |
| `ShardedMaps.ConcurrentMap.Set` | pkg/util/concurrent_map.go:49-55 | sets the key in the single map |
| `ShardedMaps.ConcurrentMap.Upsert` | pkg/util/concurrent_map.go:64-72 | stores and returns the callback's result for the present or absent value |
| `ShardedMaps.ConcurrentMap.SetIfAbsent` | pkg/util/concurrent_map.go:75-85 | sets only an absent key and says whether it did |
| `ShardedMaps.ConcurrentMap.Get` | pkg/util/concurrent_map.go:88-96 | reads the single map |
| `ShardedMaps.ConcurrentMap.Remove` | pkg/util/concurrent_map.go:122-128 | removes the key from the single map |
| `ShardedMaps.ConcurrentMap.RemoveCb` | pkg/util/concurrent_map.go:137-148 | removes the key exactly if the callback says so and returns its answer |
| `ShardedMaps.ConcurrentMap.Pop` | pkg/util/concurrent_map.go:151-159 | removes the key and returns what it held |
| `ShardedMaps.ConcurrentMap.Count` | pkg/util/concurrent_map.go:99-108 | the sum of the shard sizes is the size of the single map |
| `ShardedMaps.ConcurrentMap.Keys` | pkg/util/concurrent_map.go:268-296 | every key of the single map once, in some order |
| `ShardedMaps.ConcurrentMap.Items` | pkg/util/concurrent_map.go:237-246 | the single map |
| `ShardedMaps.Gather` | pkg/util/concurrent_map.go:276-294 | any interleaving of the shards' senders delivers every key exactly once |
| `ShardedReads.EachKeyAtOneMoment` | pkg/util/concurrent_map.go:99-296 | while writers come in between the shards, in whatever order these are visited, a reader reports for every key what the single map held under it at one moment of the call, and delivers every returned key once |
| `ShardedReads.QuietReadIsExact` | pkg/util/concurrent_map.go:99-296 | without writers the reader gets to the end with exactly the single map and its size |
| `ShardedReads.UntouchedKeyIsRead` | pkg/util/concurrent_map.go:186-296 | a key that no writer touches during the call is returned exactly if it is there, with its value |
| `ShardedReads.CountIsBetween` | pkg/util/concurrent_map.go:99-108 | the count lies between the number of keys that are always there and the number of keys that are ever there |
| `LoadSplit.SplitIsExact` | pkg/client/client.go:67-81 | the workers' shares add up to the total, differ by at most one, and none is zero |
| `LoadSplit.LoadDrawsEachKeyOnce` | pkg/client/client.go:113-155 | in every interleaving of a complete load the key numbers drawn are consecutive from the insert start, each once; exactly the total without batching, at most threads * (b - 1) more with batches of b |
| `LoadSplit.StepMakesProgress` | pkg/client/client.go:121-147 | every step of a worker that is not done brings the load closer to its end |
| `CasChecker.TicketsAccountedFor` | cas_conflict_check.go:115-145 | in every interleaving, when all threads have finished exactly the tickets 1 to numOps were worked and each is one success, conflict, error or refill |
| `CasChecker.FlipsCountSwaps` | cas_conflict_check.go:121-144 | with all keys preloaded, in every reachable state nothing was refilled and each key holds its initial value with the first byte flipped iff its number of successful swaps is odd |
| `CasChecker.SuccessesAreSwaps` | cas_conflict_check.go:135-144 | in every interleaving the successes reported are the swaps that took effect, summed over all keys |
| `CasChecker.OnlyTwoValues` | cas_conflict_check.go:121-144 | whatever keys are drawn and however refills interleave, no key is removed and every key holds its initial value, or the checker's if it was missing, possibly with the first byte flipped |
| `CasChecker.OneThreadNeverConflicts` | cas_conflict_check.go:135-144 | with a single thread no swap conflicts |
| `CasChecker.OneThreadAllSucceed` | cas_conflict_check.go:115-145 | a single thread over preloaded keys without RPC failures counts every operation as a success |
| `CasChecker.StepMakesProgress` | cas_conflict_check.go:115-145 | every step of an unfinished thread brings the run closer to its end |

## Left out

- Database drivers other than TiKV and S3, the command line, the shell, properties, TLS, measurement and output: wrappers over libraries that are not part of this model.
- The network, RPC timing and clocks: TiKV and S3 are maps; an RPC takes effect once or fails without effect, in `RawSteps` and `RawModes` also after it took effect; a failed RPC does not take effect later. S3 listings are sorted and resumable, with at least one key on a page while keys remain.
- Insert retry: the retry loops of the workload repeat on success and stop on error, so a retry limit of zero is assumed.
- "Inserted before visible" for batch inserts: that path acknowledges its keys before it writes them.
- Key-only scans of the S3 driver, and its Update, Insert and Delete.
- The values drawn from the zipfian, exponential and hotspot distributions, and the small generators: floating-point shape or easy members. `SkewedLatest` is covered only as a caller of the zipfian with growing item counts.
- Key names (`buildKeyName`): records are identified by arbitrary key strings.
- Buffer pools, buffer aliasing and the unsafe string casts: buffers are values.
- Throttling, warm-up and cancellation of workers.
- Overflow of the 64-bit key counters, sums and counts.
- `AckProtocol.EveryRunIsSafe`: for runs whose draws stay within one window of Last(), the hypothesis under which the source's window is meant to work; `AckProtocol.OverrunPanics` is a run beyond it and `AcknowledgedCounters.OverrunIsSafeIff` covers single calls beyond it.
- `S3Scan.Scan`: the count is below 2^31, so that its conversion to int32 does not wrap.
- `RawDriver.ModesAgree`: operations use known fields and no RPC fails.
- `RawSteps.IntegrityHolds`: operations write the deterministic values of known fields, as the workload does with data integrity on and a constant field length; scans and batch reads write nothing and are not verified by the source.
- `Zipfian.ZetaIsExact`: the initial number of items is not negative, and the item counts of a shrinking generator are not; `Zipfian.FirstCallExactIff` shows why.
- `ShardedMaps.ConcurrentMap.Count`: runs to completion; `ShardedReads.CountIsBetween` covers counts that overlap with writers.
- `ShardedMaps.ConcurrentMap.Keys`: runs to completion; `ShardedReads.EachKeyAtOneMoment` covers listings that overlap with writers.
- `ShardedMaps.ConcurrentMap.Items`: runs to completion; `ShardedReads.EachKeyAtOneMoment` covers snapshots that overlap with writers.
- `CasChecker.FlipsCountSwaps`: all values have the checker's value size, as its preloading writes them.
- Non-negativity of `Hash64`: `Fnv.Hash64NonNegativeIff` reduces it to the question whether any number has the sum 2^63, which is not decided here.
- `Zipfian.DrawIsExactIff`: for generators that never shrink; nothing in the repository lets one shrink.
- `ShardHash.Fnv32`: the contract bounds the value; what it is good for is stated by `ShardHash.ShardIsResidue`.
- `AcknowledgedCounters.OverrunIsSafeIff`: one call from a consistent window; the calls that follow an unsound overrun are not described.
