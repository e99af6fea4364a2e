# A verified model of the columnar hash-join engine

The repository replaces a row-at-a-time hash-join executor by layered optimisations: 8192-byte column pages, columns
read in place, strings passed around as packed references, a flat hash table filled by a counting sort, probing by
work-stealing threads, and a final pass that turns references back into strings. This project models each layer in Dafny
in the form the source gives it (classes whose methods update fields and arrays, loops over pages and rows, recursion
over the plan) and proves that it agrees with the simple thing it speeds up. The layers are then composed: for every
well-formed plan, any number of threads at each join and any interleaving of them, the optimised executor returns the
reference executor's bag of rows, and its rows in order when every join probes with one thread
(`Executor.Execute` against `Executor.RefRows`, which `Executor.ReferenceNode` computes the way the reference does).

Around that core stand the other build-side tables (Robin Hood, hopscotch, cuckoo, the general cuckoo map), the
streaming CSV parser, the vectorised filters and the disjoint-set forest.

| file | models |
|---|---|
| `Bytes.dfy`, `Bags.dfy`, `Slots.dfy`, `Circular.dfy` | bits and words, multisets, tables of optional slots, circular positions |
| `Pages.dfy`, `IntPages.dfy`, `TextPages.dfy`, `PageBytes.dfy` | the page codec: both encoders and the decoder, for INT32 and VARCHAR |
| `LateMaterialization.dfy`, `ColumnBuffers.dfy`, `Scan.dfy` | payloads, packed references, in-place columns, page lookup, scan and final materialisation |
| `Unchained.dfy`, `WorkStealing.dfy`, `Join.dfy`, `HashJoin.dfy` | the default hash table and the join node |
| `Reference.dfy`, `Executor.dfy` | the reference executor, plans, and the refinement of one by the other |
| `Grouping.dfy`, `RobinHood.dfy`, `Hopscotch.dfy`, `Cuckoo.dfy`, `CuckooTables.dfy`, `CuckooMaps.dfy`, `CuckooMoves.dfy` | the other hash tables |
| `Csv.dfy`, `Filters.dfy`, `FilterMeaning.dfy`, `Dsu.dfy` | CSV parsing, filters, disjoint sets |

## Assumptions and what is false without them

- NULL is the all-ones payload, so the integer -1 reads as NULL. `LateMaterialization.I32Payload` shows that -1 is the
  only collision, and `Scan.ScanExact` that a scanned INT32 column means its stored rows exactly when it holds no -1.
- The resolver does not stop where the next long string begins. `LateMaterialization.LateMaterializationExact` shows that
  every reference of a well-formed VARCHAR column resolves to its row exactly when no long string directly follows
  another. `Executor.ScannedRowsExact` carries both conditions to whole scans, and plans are required to meet them
  (`Executor.PlanOk`). What is asked of stored columns is what the encoders produce: `Executor.StoreAndScan` states both
  conditions about the data before it is encoded.
- Robin Hood and cuckoo builds append to a storage array they never clear. `Grouping.RebuildExact` gives the exact
  condition under which a rebuilt object still answers every key, and `Grouping.RebuildFails` the smallest inputs that
  break it.
- A join whose build key is not INT32 makes the executor throw; `Executor.Execute` returns `None` exactly for plans that
  contain one (`Executor.TextKey`). Plans are required to have keys of one type on both sides of a join: only the build
  side's type is checked, so with an INT32 build key and a VARCHAR probe key the optimised executor joins on the low 32
  bits of string references, where the reference throws for a probe value of the wrong type. Table ids are below 255,
  column ids below 256 and row counts below 2^32, as the packed fields and row ids need.
- `CuckooMap.insert` of a key already present stores it twice; `CuckooTables.InsertKeepsMap` shows that the buckets stay
  the pairs of a map exactly when the key is new, and `CuckooMoves.InsertedTwice` is a run in which a later insertion of
  another key brings the old value back. `upsert` has no such condition.
- `CuckooMap::rehash` moves its elements into the new tables, so after a failed attempt it starts over with what the moves
  left. The model takes that residue as a function of the element. `CuckooTables.RehashKeeps` shows that the contents
  survive if every element moved by a failed attempt is its own residue, and, for residues that stay when moved again, as
  empty strings do, only then. Calls and runs whose rehashes are all of that kind are called clean
  (`CuckooTables.InsertedClean`, `CuckooMaps.RunClean`); the condition is a function of the tables, the hash function, the
  residue and the operations. `CuckooMoves.FailingRun` is a run with string values in which 256 of them become empty.
  Types that are copied instead, such as integers, have only clean runs (`CuckooMaps.CopiesRunClean`).
- With trailing commas, a carriage return cut from its line feed leaves the comma flag set, so an empty line right after
  it is reported as a wrong number of columns instead of a missing comma: `Csv.CutReturnMatters` is such an input,
  `Csv.ChunksWithTrailingComma` bounds the difference to exactly that, and `Csv.ErrorsDifferExactly` says for which
  inputs and splits it shows. Without trailing commas there is no difference at all. Input without any character counts
  as one record (`Csv.EmptyInput`), so written tables read back only if they have a row. Chunks are not empty, as in the
  one place that feeds the parser (`src/build_table.cpp:303`): an empty chunk ends a record whose carriage return is
  pending, so that a line feed after it counts as another, empty record, and after a pending escape it reads past its end.
- A last record without a line end is accepted, but a quoted last field is then reported as an open quote when the quote
  is its own escape, which is the parser's default: `Csv.ClosedQuoteReportedOpen` is the input `"a"`, and
  `Csv.TableRoundTrip` gives the exact condition for any written table.
- Bitmap filters cast 64-bit literals to 32 bits. `Filters.LiteralExact` says for which literals both evaluators agree on
  every value; `Filters.EvalBitmap` is proved for all of them against the narrowed statement.
- The comment in the repository says that a packed page's characters start after `num_rows` offsets; the code uses the
  number of non-NULL values, and so does the model.

## Model

| member | source | states |
|---|---|---|
| IntPages.DecodeIntColumn | src/build_table.cpp:518-543 | The INT32 decoder returns the rows of the pages, padded with NULL to the declared count, and throws exactly when a value lies beyond that count |
| IntPages.IntInserter.Insert | include/plan.h:265-274 | Appending a value appends it to the decoded contents, whatever page breaks this causes and whatever the reused bitmap held |
| IntPages.IntInserter.InsertNull | include/plan.h:276-282 | Appending NULL appends NULL to the decoded contents and touches no value |
| IntPages.IntInserter.SavePage | include/plan.h:241-251 | Saving a page moves its rows into the finished pages: values, bitmap and header of the page decode to exactly the rows collected |
| IntPages.IntInserter.MakeRoom | include/plan.h:265-279 | After the space test the next value and bit fit: values growing up and bitmap growing down never meet in 8192 bytes; a page is given up only if they do not fit it |
| IntPages.IntInserter.Finalize | include/plan.h:284-288 | The finished pages decode to everything inserted |
| IntPages.IntPageRowLimit | include/plan.h:276-279 | No page reaches more than 65504 rows, so the 16-bit row count never overflows |
| IntPages.EncodeIntColumn | src/build_table.cpp:667-708 | The second INT32 encoder's pages decode to the input column |
| IntPages.RoundTrip | include/plan.h:212-289 | Every sequence of optional 32-bit integers reads back unchanged from the inserter's pages |
| PageBytes.IntRowBytes | src/build_table.cpp:526-544 | Row by row, from the bytes of an INT32 page: row count at byte 0, presence bits at the page end, the values of present rows in order from byte 4, low byte first, in two's complement |
| PageBytes.IntColumnRows | src/build_table.cpp:518-543 | A column's rows are those of its pages, one page after another |
| TextPages.DecodeTextColumn | src/build_table.cpp:583-630 | The VARCHAR decoder joins long-string pages, returns the rows padded to the declared count, and throws exactly for a continuation page without a string before it or a value beyond the count |
| TextPages.TextInserter.Insert | include/plan.h:362-381 | Appending a string appends it to the decoded contents, in a normal page if it fits an empty one and in long-string pages otherwise |
| TextPages.TextInserter.InsertNull | include/plan.h:383-389 | Appending NULL appends NULL to the decoded contents |
| TextPages.TextInserter.SavePage | include/plan.h:336-348 | Offsets, characters and bitmap of a saved page do not overlap and decode to exactly the rows collected |
| TextPages.LongPages | include/plan.h:317-334 | A long string becomes one 0xffff page and 0xfffe pages, as few as hold it and all but the last full, that decode back to one row after any earlier pages |
| TextPages.TextPageRowLimit | include/plan.h:383-386 | A normal page's row count never reaches 0xfffe, so it is never mistaken for a long-string page |
| TextPages.TextInserter.Finalize | include/plan.h:391-395 | The finished pages decode to everything inserted; each string of more than 8185 characters starts a run of long-string pages and no other does; two runs touch exactly when two such strings were inserted in a row |
| TextPages.EncodeTextColumn | src/build_table.cpp:796-876 | The second VARCHAR encoder's pages decode to the input column; each string of more than 8185 characters starts a run of long-string pages and no other does; two runs touch exactly when two such strings follow each other |
| TextPages.LaidLong | include/plan.h:317-334 | Adding the pages of one long string keeps the layout well-formed and touches an earlier long run exactly when the row before is long |
| TextPages.RoundTrip | include/plan.h:291-396 | Every sequence of optional strings reads back unchanged from the inserter's pages |
| TextPages.LimitIsExact | include/plan.h:363-363 | The encoders' test holds for exactly the strings that do not fit an empty page, so 8185 characters still do |
| TextPages.LaidIsLaidOut | include/plan.h:362-381 | In the pages of an encoder there are as many runs of long-string pages as strings of more than 8185 characters, and no row count reads 0xffff or 0xfffe exactly when every string fits a page |
| PageBytes.TextRowBytes | src/build_table.cpp:603-628 | Row by row, from the bytes of a normal VARCHAR page: row count, number of strings, end offsets from byte 4, characters behind them, presence bits at the page end |
| PageBytes.ChunkBytes | src/build_table.cpp:583-603 | The characters of a long-string page start at byte 4 and their number is at byte 2 |
| PageBytes.PageKinds | src/build_table.cpp:583-606 | A row count of 0xffff is a new string, 0xfffe continues the row before it, which must be a string, and any other count is a normal page |
| LateMaterialization.I32Payload | include/late_materialization.h:69-86 | An integer survives its 64-bit payload, and -1 is the only integer whose payload is NULL |
| LateMaterialization.UnpackPack | include/late_materialization.h:17-38 | Packing a string reference loses nothing exactly when every field fits its 8, 8, 32 or 16 bits |
| LateMaterialization.RefIsNull | include/late_materialization.h:76-84 | Among references in range only the all-ones one is mistaken for NULL |
| LateMaterialization.ResolveRef | src/late_materialization.cpp:157-202 | The resolver returns the string the reference names, the whole run of long-string pages included, and null exactly for references outside the inputs |
| LateMaterialization.LateMaterializationExact | src/late_materialization.cpp:113-184 | In a well-formed VARCHAR column every scanned reference resolves to the decoded row exactly when no long string directly follows another |
| LateMaterialization.LongNeighbour | src/late_materialization.cpp:170-184 | Of two long strings in a row the first resolves to both |
| ColumnBuffers.PageHasNulls | src/late_materialization.cpp:29-42 | The masked bitmap scan of a page reports a NULL exactly when some row bit is clear |
| ColumnBuffers.ColumnHasNulls | src/late_materialization.cpp:17-46 | A column qualifies for reading in place exactly when it is INT32 and no decoded row is NULL |
| ColumnBuffers.DirectRead | include/columnar.h:79-87 | In a column without NULLs the value at byte 4 + 4 * slot of the page found by the offsets is row `row` of the decoded column |
| ColumnBuffers.FindPage | include/columnar.h:65-76 | The binary search over non-strictly increasing offsets terminates at the page that holds the row |
| ColumnBuffers.ColumnT.Append | include/columnar.h:35-42 | Appending extends the flat view of the column by one value |
| ColumnBuffers.ColumnT.Get | include/columnar.h:44-94 | For every state of the page cache, reading row i returns element i of the flat view |
| ColumnBuffers.ColumnT.GetCached | include/columnar.h:97-130 | The same for the caller's own page cache, whatever it holds |
| Scan.BuildIndex | src/late_materialization.cpp:75-82 | The offsets are the numbers of rows before each page, ending with the total |
| Scan.ScanColumn | src/late_materialization.cpp:63-148 | The scanned column's flat view is the payload of every stored row, both in place and materialised |
| Scan.ScanExact | src/late_materialization.cpp:51-152 | The payloads mean the decoded rows exactly when an INT32 column holds no -1 and a VARCHAR column has no two adjacent long strings |
| Scan.MinusOneLost | include/late_materialization.h:69-86 | A stored -1 comes back as NULL |
| Scan.FinalizeColumn | src/late_materialization.cpp:218-253 | The output column's pages decode to what its payloads mean, references resolved and NULLs kept |
| Unchained.MaskIsIdle | include/parallel_unchained_hashtable.h:79-83 | With shift = 64 - log2(size) the shifted hash is already a slot number, so the mask removes nothing |
| Unchained.BloomKeeps | include/bloom_filter.h:50-85 | The Bloom tag of a slot never rejects a key that was inserted |
| Unchained.BloomRejects | include/bloom_filter.h:50-85 | Every tag sets a bit, so a key whose slot holds no entry is always rejected |
| Unchained.MatchingInBucket | include/parallel_unchained_hashtable.h:234-253 | Filtering a slot's entries by key gives all entries with that key, in input order |
| Unchained.BuiltIsPermutation | include/parallel_unchained_hashtable.h:149-156 | The finished tuple array is a permutation of the entries |
| Unchained.BuiltUnique | include/parallel_unchained_hashtable.h:108-231 | Directory, Bloom words and tuples are determined by the entries, so building from pages gives the same as building from the flattened list |
| Unchained.FlatUnchainedHashTable.Reserve | include/parallel_unchained_hashtable.h:53-94 | The directory size is the least power of two that has a slot for every eight tuples, between 1024 and 262144, with the matching shift |
| Unchained.FlatUnchainedHashTable.PrefixSums | include/parallel_unchained_hashtable.h:132-137 | Each directory word becomes the end of its slot |
| Unchained.FlatUnchainedHashTable.ScatterTuple | include/parallel_unchained_hashtable.h:149-155 | Writing one tuple puts it behind the earlier entries of its slot and moves only that slot's write pointer |
| Unchained.FlatUnchainedHashTable.BuildFromEntries | include/parallel_unchained_hashtable.h:108-157 | The count, prefix-sum and scatter loops are a stable sort of the entries into slots, with Bloom tags to match |
| Unchained.FlatUnchainedHashTable.BuildFromPages | include/parallel_unchained_hashtable.h:160-231 | Building from the pages of a NULL-free column holds every value with its row number, for any paging including empty pages |
| Unchained.FlatUnchainedHashTable.Probe | include/parallel_unchained_hashtable.h:234-253 | The returned range is the key's whole slot, or empty when the Bloom tag rejects; filtered by key it is every entry with the key in input order |
| WorkStealing.BlockSizePositive | src/work_stealing.cpp:7-12 | The block size is zero exactly without work or threads, or with a zero minimum and less work than blocks |
| WorkStealing.BlockSizeLeast | src/work_stealing.cpp:7-12 | The block size is the least number not below the minimum and not below the work divided by the blocks wanted |
| WorkStealing.WorkStealingCoordinator.StealBlock | src/work_stealing.cpp:21-27 | One atomic step claims the next block, cut off at the end of the work, or reports that nothing is left |
| Join.JoinCount | src/execute_default.cpp:117-192 | The produced pairs contain each pair of rows with equal non-NULL keys exactly once and nothing else, for either build side |
| Join.LocatePage | src/execute_default.cpp:126-139 | The cursor of a stolen block starts on or before the page of its first row |
| Join.ProbeRow | src/execute_default.cpp:146-189 | One probe row yields exactly its pairs, through the forward page cursor or the materialised column |
| Join.StealStep | src/work_stealing.cpp:21-27 | Claiming a block enlarges what is claimed by exactly what the worker now owes, for any counter value and any worker |
| Join.RowStep | src/execute_default.cpp:146-169 | Probing one row moves its pairs from owed to produced and changes nothing else |
| Join.ProbeEnd | src/execute_default.cpp:194-204 | When all workers have finished, the concatenated outputs are the pairs of all probe rows, in order for one worker |
| Join.ProbePhase | src/execute_default.cpp:117-204 | For any number of threads and any interleaving the probe phase terminates with exactly the join's pairs as a bag, and in probe order with one thread |
| HashJoin.CollectEntries | src/execute_default.cpp:74-78 | The copying build input is every non-NULL key with its row number |
| HashJoin.BuildTable | src/execute_default.cpp:42-84 | The table holds the non-NULL keys of the build column, built in place or by copying; the early exit happens only without any |
| HashJoin.CopyCell | src/execute_default.cpp:262-268 | One output cell takes the value of the left or right input column that the attribute names, and every other cell of its column stays |
| HashJoin.Materialise | src/execute_default.cpp:223-271 | Output column k holds, thread by thread and pair by pair, the payload of its source column |
| HashJoin.NothingToJoin | src/execute_default.cpp:80-80 | Returning an empty result when the build side has no keys loses nothing |
| HashJoin.RunInt32 | src/execute_default.cpp:35-306 | The result columns gather the inputs along a list of pairs that is the join's bag of pairs, and the sequence of the serial probe when one thread runs |
| Reference.BuildMap | original_execute.md:23-39 | The reference's hash map lists, for every non-NULL key, the indices of its build rows in order |
| Reference.ReferenceJoin | original_execute.md:19-112 | The reference join concatenates, probe row by probe row, the output rows of all matching build rows |
| Reference.JoinRowsBag | original_execute.md:23-111 | Either build side yields the same bag: all matching pairs of the two inputs |
| Reference.JoinRowsPermuted | original_execute.md:115-152 | Rearranging the inputs or switching the build side leaves the bag of output rows unchanged |
| Reference.JoinRowsMean | original_execute.md:23-111 | The rows of a join are one row for each pair of a left and a right row whose key columns are equal and not NULL, probe rows in order and for each its build rows in order; every cell is read off the column its attribute names |
| Executor.GatheredRows | src/execute_default.cpp:254-270 | Gathering payloads along pairs means joining the rows the payloads stand for along the same pairs |
| Executor.JoinPairsRows | src/execute_default.cpp:117-192 | The serial probe's pairs give exactly the reference's output rows in the reference's order |
| Executor.OutOfPermuted | src/execute_default.cpp:254-270 | Rearranged pairs give rearranged output rows |
| Executor.CleanKeys | src/execute_default.cpp:155-175 | On columns without -1 reading keys in place and reading them with a NULL test give the same keys |
| Executor.RefRowsMean | original_execute.md:115-184 | The rows of every node are what the plan's own attributes say: the stored values of the columns a scan names, or one row for each pair of the children's rows with equal keys |
| Executor.ScannedRowsExact | src/late_materialization.cpp:51-152 | A scan stands for the stored rows exactly when every column it reads is representable |
| Executor.ExecuteScan | src/execute_default.cpp:355-360 | A scan node's buffer stands for the reference's rows |
| Executor.JoinRefines | src/execute_default.cpp:310-352 | Inputs that are rearrangements of the reference's inputs give an output that is a rearrangement of its output, in order if everything was in order |
| Executor.ExecuteJoin | src/execute_default.cpp:330-351 | A join node's buffer stands for the reference's rows, those of `Executor.RefRowsMean`, if its inputs do |
| Executor.ExecuteNode | src/execute_default.cpp:363-374 | A subtree fails exactly when some join below has a key that is not INT32, and otherwise stands for the reference's rows |
| Executor.TextJoinThrows | src/execute_default.cpp:310-352 | A well-formed plan that joins a table with itself on a VARCHAR column throws |
| Executor.FinalizeTable | src/late_materialization.cpp:207-259 | The result table decodes to the rows its buffer stands for |
| Executor.Execute | src/execute_default.cpp:376-384 | For every well-formed plan, thread counts and interleavings: the reference's bag of rows, its sequence with one thread per join, or the error exactly for a join key that is not INT32; read off the result's columns, the rows are those the plan's attributes ask for |
| Executor.CopyScan | src/build_table.cpp:384-418 | The reference scan fills every row with the decoded values of its columns |
| Executor.ReferenceNode | original_execute.md:162-174 | The reference executor computes the rows every refinement above is stated against, and they are those the plan's attributes ask for |
| Executor.EncodeColumn | src/build_table.cpp:657-882 | A column of integers or strings and NULLs decodes back from the reference's output encoding, and is representable as payloads exactly when the data holds no -1 and no two strings of more than 8185 characters in a row |
| Executor.StoreAndScan | src/late_materialization.cpp:51-259 | Encoding a column, scanning it into payloads and writing those back returns the same data exactly when it holds no -1 and no two strings of more than 8185 characters in a row |
| Grouping.GroupRows | include/robinhood.h:107-110 | Grouping collects for every key exactly its row ids in input order |
| Grouping.MatchingRows | include/robinhood.h:107-133 | The entries with a key are its rows of the input, in order, with their row ids if those fit 32 bits |
| Grouping.BuildIndex | include/robinhood.h:112-133 | Keys in ascending order each get their stretch of the storage array, appended to what was there, with positions counted from 0 |
| Grouping.FoundKey | include/robinhood.h:176-202 | A stored index entry covers exactly its key's entries, in input order |
| Grouping.MissingKey | include/robinhood.h:176-188 | A key without an index entry does not occur among the entries |
| Grouping.ProbeSlice | include/robinhood.h:197-202 | The range a probe returns is exactly the key's entries in input order |
| Grouping.RebuildExact | include/robinhood.h:112-133 | Building again without clearing the storage array answers every key exactly when the new storage is a prefix of what is stored then |
| Grouping.RebuildFails | include/cuckoo.h:147-168 | Building for one key after another on one object answers the second key with the first one's entry, whichever the keys |
| RobinHood.PathTaken | include/robinhood.h:63-88 | Every slot between a stored key's home and its place is taken by an entry with at least that probe length |
| RobinHood.SwapKeeps | include/robinhood.h:74-79 | Taking a slot from an entry nearer its home keeps the order around the circular table, and the evicted entry fits one slot further |
| RobinHood.RobinHoodBackend.InsertIndexInfo | include/robinhood.h:63-88 | Insertion keeps the order and adds exactly the new entry; it fails exactly when every slot is taken |
| RobinHood.RobinHoodBackend.Place | include/robinhood.h:135-170 | The first attempt always succeeds: the retries and the throw are unreachable |
| RobinHood.RobinHoodBackend.BuildFromEntries | include/robinhood.h:99-171 | The table holds the index of the entries and the storage array their grouped rows |
| RobinHood.RobinHoodBackend.Absent | include/robinhood.h:185-207 | An empty slot, an entry nearer its home than the probe, or a full circle proves the key absent |
| RobinHood.RobinHoodBackend.Probe | include/robinhood.h:176-208 | The probe, early exit included, returns the key's index entry, or nothing exactly when the key does not occur |
| RobinHood.BuildAndProbe | include/robinhood.h:99-208 | On a fresh object, building and probing return the key's rows: their places in the input are exactly those of the key, in order, and their row ids are the input's |
| Hopscotch.CkeyInjective | include/hopscotch.h:43-48 | Composite keys distinguish any two 32-bit keys, negative ones included, for every type id |
| Hopscotch.BackSteps | include/hopscotch.h:54-66 | The candidate before the empty slot is nearer home by its offset, and a key within the neighbourhood is farther from home by that offset after the move |
| Hopscotch.MoveKeeps | include/hopscotch.h:69-87 | Moving a key into the empty slot keeps the bitmaps exact and the stored keys the same; the checks before the move always pass |
| Hopscotch.HopscotchBackend.MoveSlotCloser | include/hopscotch.h:62-91 | Each relocation brings the empty slot 1 to 7 closer without passing home, or nothing within reach can move and nothing changed |
| Hopscotch.HopscotchBackend.FindEmpty | include/hopscotch.h:99-106 | The search stops at an empty slot, or has seen every slot taken |
| Hopscotch.HopscotchBackend.InsertSlot | include/hopscotch.h:96-121 | Insertion keeps the bitmaps exact and adds exactly the new key; it fails, keeping exactly the old keys, only if every slot was taken or an empty slot out of reach cannot be brought closer; a free home is always taken |
| Hopscotch.HopscotchBackend.BuildFromEntries | include/hopscotch.h:129-179 | The doubling loop ends with every key stored once, near its home and marked |
| Hopscotch.NotHere | include/hopscotch.h:190-201 | A key that is not among the marked neighbours of its home is nowhere in the table |
| Hopscotch.HopscotchBackend.Probe | include/hopscotch.h:184-202 | The probe returns the key's index entry, or nothing exactly when the key does not occur |
| Hopscotch.BuildAndProbe | include/hopscotch.h:129-202 | On a fresh object, building and probing return the key's rows: their places in the input are exactly those of the key, in order, and their row ids are the input's |
| Cuckoo.CuckooBackend.InsertKeyInfo | include/cuckoo.h:74-106 | Tables and carried entry together are always the old entries plus the new one, each in its home of its table; the insertion fails exactly when 200 rounds in a row find both homes taken |
| Cuckoo.FailsExactly | include/cuckoo.h:74-106 | Any number of rounds of displacement fails exactly when each round finds both homes taken, in particular never when the first home is free |
| Cuckoo.CuckooBackend.BuildFromEntries | include/cuckoo.h:131-210 | The build returns exactly when all entries find a place at one of its five capacities, and then the two tables hold exactly the index of the entries |
| Cuckoo.CuckooBackend.Probe | include/cuckoo.h:215-236 | Two slots suffice: the probe returns the key's index entry, or nothing exactly when the key does not occur |
| Cuckoo.BuildAndProbe | include/cuckoo.h:131-236 | On a fresh object, a build that returns and a probe return the key's rows: their places in the input are exactly those of the key, in order, and their row ids are the input's |
| CuckooMaps.CuckooMap.InsertCore | include/cuckoo_map.h:37-59 | Success adds the pair; failure hands back exactly the one displaced pair, the rest staying in their homes; the tables are those after at most 100 rounds of displacement |
| CuckooMaps.CuckooMap.Rehash | include/cuckoo_map.h:61-102 | A rehash that returns holds the elements its last attempt started from, as many as before, in tables at least doubled |
| CuckooTables.RehashElements | include/cuckoo_map.h:86-92 | The elements a rehash ends with are the old ones after the moves of every failed attempt |
| CuckooTables.RehashKeeps | include/cuckoo_map.h:61-102 | A rehash keeps every element if those that failed attempts moved are their own residues, in particular if the first attempt succeeds; for residues that stay when moved again it keeps the contents only then |
| CuckooTables.InsertedHolds | include/cuckoo_map.h:126-146 | Through any number of rehashes, an insertion that returns leaves every pair in a home and adds exactly its pair if it is clean, and only then for residues that stay when moved again |
| CuckooTables.CleanAtOnce | include/cuckoo_map.h:126-138 | An insertion that needs no rehash is clean |
| CuckooMoves.StringsLost | include/cuckoo_map.h:75-101 | For 256 pairs of a full map the attempt with 512 slots fails at its last element and the one with 1024 succeeds, with every string empty |
| CuckooMoves.FailingRun | include/cuckoo_map.h:61-146 | Any of 256 strings, found after the insertions that fill an empty map, is found empty after one more insertion |
| CuckooMaps.CuckooMap.Insert | include/cuckoo_map.h:126-146 | An insert that returns counts one more pair, and adds exactly its pair if it is clean, and only then for residues that stay when moved again; outcome and tables are a function of the tables before |
| CuckooTables.InsertKeepsMap | include/cuckoo_map.h:126-146 | The buckets stay the pairs of a map after an insert exactly when the key was new |
| CuckooMoves.InsertedTwice | include/cuckoo_map.h:110-146 | A key inserted twice is found with its new value, and with its old value again after another key is inserted |
| CuckooMaps.CuckooMap.Upsert | include/cuckoo_map.h:148-162 | An upsert that returns is the update of a finite map if it is clean, as it is for a stored key, and only then for residues that stay when moved again |
| CuckooMaps.CuckooMap.Find | include/cuckoo_map.h:110-124 | A find is the lookup of a finite map |
| CuckooMaps.Run | include/cuckoo_map.h:104-163 | Any run of upserts and finds that returns answers as a finite map does if it is clean, that is, if in every rehash of the run each element moved by a failed attempt is its own residue |
| CuckooMaps.CopiesRunClean | include/cuckoo_map.h:104-163 | Where moves leave copies behind, every run is clean |
| Csv.RunReturn | src/csv_parser.cpp:79-119 | Looking one character ahead at a carriage return is the same as leaving it pending |
| Csv.RunEscape | src/csv_parser.cpp:123-158 | Looking one character ahead at an escape is the same as leaving it pending |
| Csv.CSVParser.CloseRecord | src/csv_parser.cpp:28-56 | The end of a record reports its last field, checks the column count and, with trailing commas, the last comma; `Csv.RaggedFails` and `Csv.MissingCommaFails` say what that means for an input |
| Csv.CSVParser.Resume | src/csv_parser.cpp:5-59 | A pending escape or carriage return is settled as if the chunks were joined |
| Csv.CSVParser.Character | src/csv_parser.cpp:60-161 | One turn of the loop does what the character machine does on the characters it consumes |
| Csv.CSVParser.Execute | src/csv_parser.cpp:3-163 | A chunk produces the events, the error and the state of the character machine run over it |
| Csv.CSVParser.Finish | src/csv_parser.cpp:165-175 | Finishing reports an open quote, also when only a pending escape keeps it open, settles a pending carriage return or ends the last record |
| Csv.ParseChunks | include/csv_parser.h:21-22 | Feeding chunks until the first error and then finishing yields the events and error of the chunked run |
| Csv.ChunkIndependence | src/csv_parser.cpp:3-175 | Without trailing commas every split of an input gives the same events and the same first error as the whole input |
| Csv.ChunksWithTrailingComma | src/csv_parser.cpp:28-58 | With trailing commas every split gives the same events and fails exactly when the whole input does; only a missing comma may be reported as a wrong column count |
| Csv.ErrorsDifferExactly | src/csv_parser.cpp:28-58 | The error differs from the whole input's exactly if, with trailing commas, some chunk ends in a carriage return that ends a record and an empty line follows |
| Csv.CutReturnMatters | src/csv_parser.cpp:57-58 | A concrete input and split for which the reported error differs |
| Csv.RowRead | src/csv_parser.cpp:60-161 | A written record, quoted or bare field by field and ended by LF, CRLF or CR, is reported field for field, and the rest of the input is read as from the start of the next record |
| Csv.LineEndRead | src/csv_parser.cpp:79-119 | LF, CRLF and CR each end a record, at once, with the next character or at the end of the input |
| Csv.TableRoundTrip | src/csv_parser.cpp:3-175 | A written table, with any of the three line ends record by record and the last one possibly left out, cut into any chunks, reads back field for field without an error exactly if the last record has a line end or a trailing comma, or its last field is not a quoted one closed by its own escape character and the record is not empty after others |
| Csv.RaggedFails | src/csv_parser.cpp:94-112 | After records with one number of fields, a record with another fails as inconsistent at its line end, in both comma modes, whatever follows and however the input is cut; the fields read by then are reported |
| Csv.MissingCommaFails | src/csv_parser.cpp:90-93 | With trailing commas, a record whose last field has no comma behind it fails as such |
| Csv.OpenQuoteFails | src/csv_parser.cpp:165-168 | An input that ends inside quotes fails as such, with the fields before reported |
| Csv.LoneEscape | src/csv_parser.cpp:139-158 | In quotes, an escape before a character that needs none is kept |
| Csv.QuoteInside | src/csv_parser.cpp:121-138 | A quote inside a bare field opens quotes there and the field goes on |
| Csv.TextAfterQuote | src/csv_parser.cpp:121-138 | A character right after a closing quote is an ordinary one |
| Csv.ClosedQuoteReportedOpen | src/csv_parser.cpp:165-168 | The input `"a"` is reported as an open quote when the quote is its own escape, the default |
| Csv.BlankAfterReturn | src/csv_parser.cpp:81-88 | A record ended by a bare CR and an empty record ended by LF are written like one record ended by CRLF, so no reader could tell them apart |
| Csv.EmptyInput | src/csv_parser.cpp:165-175 | Finishing without any input reports one empty field, or with trailing commas a missing comma |
| Filters.ShardsPartition | include/inner_column.h:18-22 | Every byte of a bitmap lies in exactly one thread's shard |
| Filters.Schedule | include/inner_column.h:24-45 | In whatever order the threads run, the shards cover the bytes without overlap |
| Filters.BitmapPushBack | include/inner_column.h:77-93 | Pushing a row sets its bit and keeps all earlier ones |
| Filters.InnerInts.PushBack | include/inner_column.h:95-98 | Pushing a value appends it to the column's rows |
| Filters.InnerTexts.PushBack | include/inner_column.h:301-305 | Pushing a string appends it to the column's rows |
| Filters.IntKernel | include/inner_column.h:191-267 | A comparison kernel sets exactly the bits of its shard whose row is present and passes, and touches no other byte |
| Filters.TextKernel | include/inner_column.h:329-349 | The same for strings, stopping at the last row |
| Filters.CompareColumn | include/inner_column.h:113-124 | The sharded comparison of a column answers for every row |
| Filters.BitmapJoin | src/statement.cpp:18-44 | And and or of two bitmaps answer both, respectively either, for every row |
| Filters.BitmapNot | src/statement.cpp:8-16 | The complement answers the negation for every row, whatever it does to padding bits |
| Filters.EvalBitmap | src/statement.cpp:46-200 | Bit i of the bitmap evaluation of any well-typed statement is the row evaluation of record i, integer literals cast to 32 bits |
| FilterMeaning.IntComparison | src/statement.cpp:46-132 | Bit i of an evaluated comparison of an INT32 column is set exactly if row i has a value that is equal to, different from, less than, greater than, at most or at least the low 32 bits of the literal, as the operator says, or is or is not NULL |
| FilterMeaning.TextComparison | src/statement.cpp:46-132 | The same for VARCHAR: string equality and its complement, the byte-wise order and what follows from it, the pattern predicate and its complement on present rows |
| FilterMeaning.LessIsPrecedes | include/inner_column.h:329-349 | The order of strings: one is a proper beginning of the other, or its first differing byte is smaller |
| FilterMeaning.Connectives | src/statement.cpp:8-44 | And, or and not act bit by bit |
| Filters.LiteralExact | src/statement.cpp:56-56 | The cast of an integer literal changes no comparison exactly when the literal is in range or wraps to the matching extreme |
| Filters.LiteralWraps | src/statement.cpp:56-56 | Cast to 32 bits, the literal 2^32 equals 0 |
| Filters.NarrowedAgrees | src/statement.cpp:135-228 | With such literals the row evaluation of the cast statement is that of the statement as written |
| Filters.KeepInts | src/build_table.cpp:105-129 | The filtered INT32 column decodes to exactly the rows whose bit is set, in order, and their number is returned |
| Filters.KeepTexts | src/build_table.cpp:105-129 | The same for VARCHAR, long strings included |
| FilterMeaning.KeptRows | src/build_table.cpp:105-129 | The kept rows are exactly those whose bit is set, in order |
| Dsu.Compress | include/common.h:117-117 | Pointing a node at its root changes no node's root |
| Dsu.Link | include/common.h:119-119 | Hanging one root below another moves exactly that root's nodes |
| Dsu.EquivalenceClosure | include/common.h:117-119 | Two elements share a representative exactly when every equivalence containing the unions relates them |
| Dsu.DSU.Find | include/common.h:117-117 | Find terminates with the representative of the unions so far and keeps all representatives |
| Dsu.DSU.Unite | include/common.h:119-119 | Unite extends the history of unions by one pair, whose first class takes the second's representative |

## Left out

- INT64 and FP64 columns: the optimised executor carries only INT32 and VARCHAR, and the 8-byte inserter's space test uses a literal 4.
- Bytes read beyond a page, an offset table or a column end are undefined in C++; the model reads a word past the page end as 0 and proves what the code does on pages the encoders write.
- TextPages.DecodeTextColumn: a continuation page with no row before it, or behind the declared row count, is taken as an error; the code then reads and writes outside its result vector, which is undefined, and reports the error only for a NULL row.
- Page allocation: pages appear when they are saved instead of when they are first written; a fresh page's unused bytes are arbitrary.
- `size_t` and 32-bit counters do not wrap: row counts are required to stay below 2^32 where the code narrows to 32 bits, and capacities are unbounded.
- The page size of `column_t` is the constant 1024 the executor uses everywhere.
- Thread counts from the environment and the hardware: any positive number per join node.
- Granularity of interleaving: a worker's step is one `fetch_add`, one probe row or the end of a block; the probe phase shares nothing else between threads.
- Threads of the filter pool: shards run one after another in any order; they write disjoint bytes.
- Hash functions of the Robin Hood, hopscotch and cuckoo tables are any functions of the key, reduced modulo the capacity; only the flat table's multiplicative hash is spelled out.
- Capacities `ceil(n / 0.75)` and `ceil(n / 0.45)` are computed in exact arithmetic, which double rounding agrees with for row counts below 2^32.
- Hopscotch.HopscotchBackend.BuildFromEntries: terminates because an unbounded capacity eventually exceeds every composite key; with 64-bit capacities and finite memory the loop may run out first.
- CuckooMaps.Run: a run that is not clean may still answer as a map does, for instance if it never looks up what it lost; only insertions and upserts are characterised exactly.
- CuckooMaps.CuckooMap.Insert: the rehash-and-retry loop can run forever on colliding hashes, so it carries a fuel bound and says nothing about runs cut short; contents after a throw are not described.
- Cuckoo.CuckooBackend.BuildFromEntries: says nothing about the table after the fifth failed attempt, where the original throws.
- `LIKE` matching is one predicate used by both evaluators; regular expressions are not modelled.
- Row evaluation compares 32-bit integers with integer literals through `double`; rounding of larger literals cannot change such a comparison and is not modelled.
- Statements are trees with two children for AND and OR and one for NOT, as the factory functions build them.
- `StringRefHash`, `StringRefEq` and `join_columnbuffer_hash`: not reached by the executor.
- The disabled parallel branch of output materialisation, telemetry, debug dumps, caches, memory mapping and all file access.
- The popcount table of the Bloom filter: not used by the hash table.
- SQL and JSON plan import: plans are the starting point.
