# GreenGate `lex` engine, verified

GreenGate's `lex` engine keeps columns as 64x64 bit matrices ("tiles": 64 bit
planes of 64 lanes), compiles conjunctive predicates to AArch64 code that works on
whole planes, keeps an LSM table of row groups and in-memory batches, and joins
tables by shuffling key signatures over an unordered datagram transport. Each of
these layers is a fast form of something simple. This project models the layers
and proves that the fast forms compute what the simple ones do.

Words are sequences of 64 bits, least significant first; `Value` and `WordOf`
connect them with unsigned numbers and 64-bit wrap-around is written out (`Wrap`).
Strings are sequences of bytes. Code that works step by step is a method or a class
whose contract ties it to a specification function; what that function means is
proved in lemmas.

## The main results

* `QueryRefinement.ExecuteRefines`: planning, compiling and executing any
  conjunction on a row group returns the count, and modulo 2^64 the sum, that the
  row-by-row engine returns on the rows that are not deleted. It covers any number
  of rows (also a partial last block), blocks, columns and predicates, and plans made
  on another row group. `IngestedQuery` is the special case of a freshly ingested
  batch, where the planned comparison widths provably cover every value.
  `EndToEnd.QueryTotal` adds that every such query that fits the registers is planned
  and compiled, and `EndToEnd.PlansExactly` that no other is. The result rests on the
  butterfly transpose, the comparators, the simulation of the register allocator, the
  prefilters, deferred string verification and the bit-plane sum.
* `LsmRuns.RunSafety`: in every run of inserts, deletes and single compaction steps
  the table holds exactly the inserted rows that were not deleted, in order, as long as
  no publish follows the deletion of an alive row from a block the compaction had
  already read. `LateDeletesReturn` shows that a publish keeps the content if and only
  if there was no such deletion, and that exactly the rows deleted too late come back;
  `LateDelete.DeletedRowReturns` is a run from a fresh table in which one does.
* `CompactionAnswers.CompactionPreservesAnswers`: queries on the table return the same
  results before and after a compaction; a query in the domain before it, whose plan
  judges the in-memory rows rightly, is in the domain after it.
* `RowAddresses.DeleteByNumber`: a delete by number removes the row of that number among
  all stored ones, whatever was deleted before.
* `TableResults.TableResultExact`: the full result of a query on a table (count, sum,
  minimum, maximum, distinct values), merged from row groups and memtables, is the
  reference's on the table's rows if and only if the zeros that stand for null
  aggregates do no harm.
* `JoinQuery.ExecuteJoinQuery`: the distributed join, with any hot set and any order of
  arrival, returns the count and sum of the join of the rows, read off their cells, and
  finds each pair as often as one node would. `PlacedJoin.JoinOfBatches` carries this to
  the batches that were distributed, `ReliableBarrier.BarrierDelivers` to the packets of
  the transport.
* `SrdTransport.OnlySentMessages`, `DeliveriesAreRounds`, `ExactlyOnceIff`: reassembly
  under reordering, loss, duplication and interleaving delivers only sent messages, each
  once per complete round of its packets, and when that is exactly once.
* `Simulation.StepsExact`: which ops the compiler gets right in every state, among all it
  accepts.
* `Exporter.RoundTrip`, `FileFormat.CutFile`, `CutExactly`: a written file is read back
  unchanged, and a file cut off anywhere is refused, with the error of the first missing
  part, unless only padding is missing.
* `SqlGrammar.ParsesStringExactly`, `PrintParse`, `AnyTextParses` and
  `SqlErrors.FailsStringExactly`: which texts parse, to which tree, and which error every
  other text gets.
* `RegisterBound.CompilesIff`: which plans compile.

## The domain of the query theorem, and why

Outside these conditions the compiled path and the reference path may differ. The lemma
named with a condition says for what it is exact: for one comparison, one cell, one
text or one lookup. A query that violates one may still be answered rightly, when its
wrong verdicts fall on no row or cancel out.

* Comparison is unsigned in the compiled code and signed in the reference: they agree
  exactly on equality and on operands of one sign (`NumericTests.SignedAgreement`).
* Nulls are stored as 0 or "" and validity is not scanned: the verdicts on a cell agree
  exactly when that default does not match (`StoredRows.SafeExact`).
* Widths come from the planning row group: a narrower comparison agrees exactly when
  the value fits or the dropped bits do not matter (`NumericTests.NarrowExact`).
* The prefilters lose no match exactly on good patterns: a non-empty prefix, no
  one-byte `contains` pattern, no `=` pattern of at most four bytes ending in '%'
  (`Prefilter.PrefilterLossless`). For every one-byte pattern a losing text exists.
* Predicates have an operator that fits their kind. `<` and `>` on text are not tested at
  all, and a plan with a single test and such an order last returns the bits of an address
  (`UntestedPredicates.AnyPlan`, `AddressDecides`).
* Predicates name columns of the batch, and the columns they name are found. A lookup
  finds the column meant exactly when no earlier column has the name looked up, or a
  signature column of that name (`ColumnLookup.LookupData`, `LookupSignature`); for string columns the scan for their
  number must count right, which it does when no numeric column before them is followed by
  one named like its signature (`LookupStrings`). `NameCollision.CollisionChangesAnswer`
  is a query that a collision changes. Distinct names of which none is another's with
  `_kim` are always found (`AllReachable`).
* A plan compiles exactly when its registers fit (`RegisterBound.CompilesIff`).

The compiler itself accepts more than plans: a comparison into the register that holds its
own tile's address is compiled, and its code is right in every state if and only if the
comparison looks at no lane (`OwnTile.OwnTileExact`, `OverwrittenTiles.OverwrittenTile`).
Plans never do this.

## Reading order

`words`, `transposer`, `storage`, `tail`, `ingester`, `reader` (storage);
`mem_table` (reference semantics); `machine`, `micro_ops`, `compiler`, `comparators`,
`own_tile`, `simulation`, `overwritten`, `planner`, `plan_meaning`, `scalars`,
`calling`, `register_bound` (compiler); `prefilter`, `numeric`, `lookup`, `untested`,
`runner`, `rows`, `stored_rows`, `refinement`, `end_to_end`, `collision`, `results` (queries); `table_state`, `registry`,
`addresses`, `compaction`, `lsm_runs`, `late_delete`, `table_query`, `compaction_answers`,
`table_result` (LSM); `row_ids`, `join`, `hashes`, `cluster`, `pairs`, `join_rows`, `coordinator`,
`distribute`, `placed_join` (join); `transport`, `barrier`; `exporter`, `file_format`,
`archive`; `sql_tokens`, `sql_parser`, `sql_grammar`, `sql_errors`.

Many lemmas start with `hide`, which keeps function bodies out of one proof; nothing
is left unproved by it.

## Model
| member | source | states |
|---|---|---|
| SimdTransposer.StagesTranspose | src/lex/ingest/simd_transposer.cpp:87-132 | the six XOR-swap stages together are the 64x64 transpose, for all inputs |
| SimdTransposer.StageExchanges | src/lex/ingest/simd_transposer.cpp:94-131 | one stage exchanges one index bit of row and column and nothing else |
| SimdTransposer.TransposeInvolution | src/lex/ingest/simd_transposer.cpp:173-176 | transposing twice is the identity, so the same routine reads scalars back |
| SimdTransposer.Transpose64Scalar | src/lex/ingest/simd_transposer.cpp:87-132 | the in-place scalar loops leave the transpose of the array |
| SimdTransposer.Transpose64Vector | src/lex/ingest/simd_transposer.cpp:12-84 | the lane-paired NEON stages leave the same transpose |
| SimdTransposer.Transpose64 | src/lex/ingest/simd_transposer.cpp:136-171 | planes are the transpose of the data; the validity plane is the mask, or all ones without one |
| AdaptiveIngester.GenerateKimSignature | src/lex/ingest/adaptive_ingester.cpp:12-37 | bit b is set exactly when some bigram (or the single byte) hashes to b |
| Hashes.BigramBits | src/lex/ingest/adaptive_ingester.cpp:25-37 | the three bits of a bigram, whose hashes wrap at 32 bits, depend on its second byte alone: 49 y, 55 y + 57 and 61 y + 50 modulo 64 |
| Hashes.SignatureBits | src/lex/ingest/adaptive_ingester.cpp:25-37 | bit b of the signature of a text of two or more bytes is set if and only if one of its bytes but the first sets it |
| Hashes.ByteBits | src/lex/ingest/adaptive_ingester.cpp:15-24 | the three bits of a one-byte text |
| TailPayload.BuildTail | src/lex/ingest/adaptive_ingester.cpp:210-237 | the tail is count, n+1 offsets, NUL-terminated strings, zero padding to 64 |
| TailPayload.ReadBack | src/lex/ingest/adaptive_ingester.cpp:210-237 | every string is found at its offset-table entry, unchanged |
| TailPayload.TailZeros | src/lex/ingest/adaptive_ingester.cpp:210-237 | every string is followed by a NUL, and fewer than 64 zeros bring the tail to a multiple of 64 |
| AdaptiveIngester.Ingest | src/lex/ingest/adaptive_ingester.cpp:82-241 | the row group has the physical names, types and blocks of the batch, all delete masks set |
| ColumnLookup.IngestedLayout | src/lex/ingest/adaptive_ingester.cpp:82-241 | where each column of the batch stands among the physical ones: integers once with type 9, strings as types 13 and 8, the second named with "_kim" |
| BlockReader.ReadCellBack | src/lex/lsm/promotion_daemon.cpp:156-188 | ingest and extract are inverse: any cell of any block reads back as the original value, string or null |
| BlockReader.StringsAt | src/lex/ingest/adaptive_ingester.cpp:175-193 | the string of row r of a string column sits at index column * rows + r of the tail |
| MemTables.MatchingRows | src/lex/lsm/mem_table.cpp:82-125 | the column-at-a-time filter marks exactly the rows that satisfy every predicate; an absent column fails all |
| MemTables.WildcardsStripped | src/lex/lsm/mem_table.cpp:98-103 | "%p%" stands for containing p, "p%" for beginning with p, and = leaves the text as it is, for every p |
| MemTables.OtherEndsKept | src/lex/lsm/mem_table.cpp:98-103 | an end without % is kept |
| MemTables.ContainsQuery | src/lex/lsm/mem_table.cpp:104-125 | contains "%p%" marks exactly the rows whose text is x + p + y |
| MemTables.PrefixQuery | src/lex/lsm/mem_table.cpp:104-125 | prefix "p%" marks exactly the rows whose text is p + y |
| MemTables.EqualityQuery | src/lex/lsm/mem_table.cpp:104-125 | = p marks exactly the rows whose text is p |
| MemTables.MemTable.Append | src/lex/lsm/mem_table.cpp:33-51 | the batch is appended and the row count kept |
| MemTables.MemTable.ExecuteQuery | src/lex/lsm/mem_table.cpp:75-150 | count of matching rows and sum of their non-null values modulo 2^64 |
| MemTables.FoundExactly | src/lex/lsm/mem_table.cpp:88-92 | a column is found if and only if its name occurs once, and then where it occurs |
| MicroOpCompiler.Compile | src/lex/jit/micro_op_compiler.cpp:20-427 | the register map grown in place and the code appended op by op are those of the compilation function, with the same failures |
| MicroOpCompiler.RegisterMap.Get | src/lex/jit/micro_op_compiler.cpp:55-64 | a mapped register is returned, otherwise the next one of the pool of fourteen, otherwise failure |
| MicroOpCompiler.RegisterMap.Scratch | src/lex/jit/micro_op_compiler.cpp:67-82 | the first pool register neither mapped nor excluded |
| Comparators.RunCompareCode | src/lex/jit/micro_op_compiler.cpp:115-368 | running the unrolled comparison, with remainder bits, puts in lane r whether the lane's value compares with the immediate on the compared width, and touches only its own registers |
| Comparators.MatchFoldLanes | src/lex/jit/micro_op_compiler.cpp:166-262 | narrowing by planes decides equality, or inclusion of the signature bits, lane by lane |
| Comparators.OrderFoldLanes | src/lex/jit/micro_op_compiler.cpp:263-368 | the equal-so-far and decided masks decide unsigned order, most significant plane first |
| Simulation.SimulateOps | src/lex/jit/micro_op_compiler.cpp:84-394 | emitted code keeps every virtual register's value in its own physical register, for every list that defines before it uses and keeps the tiles it reads; scratch use clobbers none |
| Simulation.CompiledScan | src/lex/jit/micro_op_compiler.cpp:396-416 | x0 is the last op's result ANDed with the delete mask |
| Scalars.MaterializedScalars | src/lex/jit/micro_op_compiler.cpp:369-394 | compiled code that materialises a tile leaves its 64 values in the destination: bit k of value r is bit r of plane k |
| Scalars.IngestedScalars | src/lex/jit/micro_op_compiler.cpp:369-394 | on an ingested integer column those are the column's values, 0 for nulls and behind the last row |
| CallingConvention.CallsAreRight | src/lex/jit/micro_op_compiler.cpp:369-394 | whatever ops are compiled and whatever the caller passes, every call of the transpose routine is handed the caller's destination |
| Scalars.BitwiseLane | src/lex/jit/micro_op_compiler.cpp:99-114 | what and, or, xor and and-not compute lane by lane |
| Scalars.NothingScanned | src/lex/jit/micro_op_compiler.cpp:396-403 | compiled from no ops, the function finds no row |
| Simulation.StepExact | src/lex/jit/micro_op_compiler.cpp:84-394 | an op is simulated in every state if and only if it is no comparison that overwrites its own tile's address while looking at lanes |
| Simulation.StepsExact | src/lex/jit/micro_op_compiler.cpp:84-394 | all ops of a compiled list are simulated if and only if none overwrites a tile's address it still reads |
| OwnTile.OwnTileExact | src/lex/jit/micro_op_compiler.cpp:212-262 | compiled over its own tile's address, a comparison is right in every state if and only if it has the same verdict on all lanes |
| OverwrittenTiles.OverwrittenTile | src/lex/jit/micro_op_compiler.cpp:212-222 | LOAD_TILE v0; CMP_EQ v0, v0 compiles for every immediate, and its code returns wrong rows for some memory |
| Simulation.TempsAreFree | src/lex/jit/micro_op_compiler.cpp:67-82 | the four scratch registers are distinct and hold no mapped value |
| QueryPlanner.Plan | src/lex/jit/query_planner.cpp:672-879 | the ops grown and counters bumped in place are those of the planning function, with the same errors in the same order |
| QueryPlanner.MaxBit | src/lex/jit/query_planner.cpp:818-831 | the highest plane that is not zero in every block, or 0 |
| QueryPlanner.AboveHighest | src/lex/jit/query_planner.cpp:860-874 | every plane above it is zero in every block |
| QueryPlanner.HighestActive | src/lex/jit/query_planner.cpp:818-831 | the highest plane is itself not zero in some block, unless it is plane 0 |
| EndToEnd.PlanNeedsColumns | src/lex/jit/query_planner.cpp:683-735 | a plan exists only if the columns named, their "_kim" columns and the aggregate's are there; without predicates that is the error |
| PlanMeaning.LaneMeaning | src/lex/jit/query_planner.cpp:724-853 | lane r of the compiled plan's mask is set exactly when the row is not deleted and passes every emitted tile test |
| PlanMeaning.PlannedResult | src/lex/jit/query_planner.cpp:842-853 | the ops of a plan compute the conjunction of all tile tests |
| UntestedPredicates.AnyPlan | src/lex/jit/query_planner.cpp:757-853 | what the scan of any plan returns, also with `<` or `>` on text, which is not tested: the mask of the tests there are; but with one test and such an order last, the bits of that column's tile address |
| UntestedPredicates.AddressDecides | src/lex/jit/query_planner.cpp:842-853 | the scan of such a plan selects a row or not depending on where the tiles lie |
| UntestedPredicates.SuchPlansExist | src/lex/jit/query_planner.cpp:757-853 | a row group and a query, `a = 1` and `b` above the empty text, that give such a plan |
| RegisterBound.CompilesIff | src/lex/jit/micro_op_compiler.cpp:55-82 | a planned conjunction compiles if and only if total cost + n - 1 <= 14 and at most 10 registers are mapped at the last comparison |
| RegisterBound.CompilesExactly | src/lex/jit/micro_op_compiler.cpp:55-82 | ops that define registers in order compile exactly when there are at most fourteen and no comparison comes after the tenth |
| RegisterBound.NumericConjunctions | src/lex/jit/micro_op_compiler.cpp:55-64 | n numeric predicates compile if and only if n <= 5 |
| Prefilter.PrefilterLossless | src/lex/jit/query_planner.cpp:732-802 | skeleton and signature tests keep every matching text if and only if the pattern is good |
| Prefilter.SkeletonMeaning | src/lex/jit/query_planner.cpp:764-784 | the skeleton test compares the first bytes, short strings padded with zeros, an empty prefix meaning all four |
| Prefilter.SubstringSignature | src/lex/ingest/adaptive_ingester.cpp:25-37 | a substring of length at least two has a subset of the text's signature bits |
| Prefilter.SingleByteLost | src/lex/ingest/adaptive_ingester.cpp:15-24 | every one-byte pattern occurs in a text that lacks one of its signature bits |
| Prefilter.NoMatchLost | src/lex/jit/query_planner.cpp:759-802 | a text that satisfies the predicate survives the emitted tests on good patterns |
| NumericTests.NumericLane | src/lex/jit/query_planner.cpp:803-838 | the emitted numeric test is the unsigned comparison of the low bits |
| NumericTests.TargetCovered | src/lex/jit/query_planner.cpp:814-832 | the planned width exceeds the highest active plane and covers the target |
| NumericTests.WidthLeast | src/lex/jit/query_planner.cpp:814-832 | no smaller width than the planned one does that |
| NumericTests.NarrowExact | src/lex/jit/query_planner.cpp:818-836 | comparing on fewer bits agrees with the whole comparison if and only if the value fits or the dropped bits do not change the verdict |
| NumericTests.SignedAgreement | src/lex/lsm/mem_table.cpp:21-31 | unsigned and signed comparison agree if and only if the operator is equality or the signs are equal |
| ColumnLookup.LookupData | src/lex/jit/query_planner.cpp:710-717 | looking a column's name up among the physical columns finds its own first tile if and only if no earlier column has that name, or a signature column of that name |
| ColumnLookup.LookupSignature | src/lex/jit/query_planner.cpp:733-735 | the same for name + "_kim" and the tile after it |
| ColumnLookup.LookupStrings | src/lex/jit/query_planner.cpp:685-708 | scanning for "_kim" neighbours counts exactly the string columns before it, when the name is new and no numeric column before it has such a neighbour |
| ColumnLookup.AllReachable | src/lex/jit/query_planner.cpp:685-735 | without collisions every lookup of every column finds what it should |
| NameCollision.CollisionChangesAnswer | src/lex/jit/query_planner.cpp:710-717 | a batch of columns a and a_kim and a query on a_kim that is planned, executed and answered 0 where the reference finds a row |
| QueryRunner.Verify | src/lex/jit/query_planner.cpp:60-222 | the lowest-set-bit loops keep exactly the candidate lanes whose strings are accepted; they terminate with popcount as measure |
| QueryRunner.NextLane | src/lex/jit/query_planner.cpp:92-94 | ctz and `mask &= mask - 1` take exactly the lowest set bit off the mask |
| QueryRunner.MaskedCompare | src/lex/jit/query_planner.cpp:84-105 | the masked eight-byte compare looks at exactly the pattern's bytes |
| QueryRunner.VerifyEqual | src/lex/jit/query_planner.cpp:67-99 | the EQ loop, with pattern constant and mask set up once, keeps exactly the lanes of the fast mask |
| QueryRunner.VerifyPrefix | src/lex/jit/query_planner.cpp:100-132 | the LIKE_PREFIX loop likewise |
| QueryRunner.VerifyContains | src/lex/jit/query_planner.cpp:133-153 | the LIKE_CONTAINS loop likewise |
| QueryRunner.VerifyAll | src/lex/jit/query_planner.cpp:154-222 | the loop over all predicates keeps exactly the lanes of the general mask, for any number of predicates |
| QueryRunner.FastPathAgrees | src/lex/jit/query_planner.cpp:62-222 | on every runner with one predicate the fast and the general mask are equal if and only if the operator is one of the three string operators or there is no candidate; otherwise one is empty and the other keeps all |
| QueryRunner.PlaneSumIsLaneSum | src/lex/jit/query_planner.cpp:228-253 | the weighted popcounts add up the selected lanes' low bits |
| QueryRunner.SumPlanes | src/lex/jit/query_planner.cpp:229-252 | the trimmed loop, unrolled by four with a tail, returns that sum modulo 2^64 |
| QueryRunner.Execute | src/lex/jit/query_planner.cpp:25-257 | count and wrapped sum over all blocks of the specified final masks |
| QueryRunner.ExecuteTable | src/lex/jit/query_planner.cpp:644-670 | persisted groups, active and frozen batches are added up |
| StoredRows.SafeExact | src/lex/ingest/adaptive_ingester.cpp:48-50 | the compiled verdict on a cell agrees with the reference if and only if the cell is safe: one sign, and no null whose stored default matches |
| StoredRows.MatchedOnRow | src/lex/jit/query_planner.cpp:36-222 | lane r of a block's final mask is set exactly when the row is not deleted and its stored cells match every predicate |
| QueryRefinement.AggregateOnRow | src/lex/jit/query_planner.cpp:228-252 | the planes below max_agg_bit hold what the row contributes, modulo 2^64, negative values included |
| QueryRefinement.ExecuteRefines | src/lex/jit/query_planner.cpp:25-257 | count and sum equal the reference semantics over the rows that are not deleted |
| QueryRefinement.IngestedQuery | src/lex/lsm/mem_table.cpp:75-150 | on a freshly ingested batch the compiled query returns what row-by-row execution returns |
| EndToEnd.PlansExactly | src/lex/jit/query_planner.cpp:672-879 | a query on an ingested batch gets a plan if and only if its registers fit |
| EndToEnd.QueryTotal | src/lex/jit/query_planner.cpp:25-257 | a safe query that fits the registers is planned, compiled, executed, and returns the reference count and sum |
| EndToEnd.SomeQuery | src/lex/lsm/mem_table.cpp:75-150 | a concrete query on a concrete batch that lies in the domain and matches |
| QueryRefinement.OwnWidth | src/lex/jit/query_planner.cpp:818-832 | a width planned on a row group covers every value of that row group |
| QueryResults.MergeIsHomomorphism | src/lex/jit/query_planner.cpp:600-617 | merging two results is the result of one pass over the concatenated values: count, sum, minimum, maximum, distinct set |
| QueryResults.MergeReported | src/lex/jit/query_planner.cpp:598-613 | the same for parts with null aggregates, whose 0 stays a candidate for minimum and maximum |
| QueryResults.MergeResults | src/lex/jit/query_planner.cpp:573-617 | the merging loop returns one pass over all parts, with a zero among the candidates for minimum and maximum when some part had matches and only nulls |
| QueryResults.Summarize | src/lex/jit/query_planner.cpp:514-531 | sum, minimum, maximum and distinct set of the collected values |
| QueryResults.Materialize | src/lex/jit/query_planner.cpp:492-501 | the values of the selected lanes, in lane order |
| QueryResults.ResultRefines | src/lex/jit/query_planner.cpp:259-548 | a row group reports the number of its matching alive rows and their aggregates as stored, in order, a null as 0 |
| QueryResults.TableResult | src/lex/jit/query_planner.cpp:550-642 | a table's result is one pass over what its row groups, active and frozen batches report |
| QueryResults.ReportedExact | src/lex/jit/query_planner.cpp:601-610 | parts with only nulls leave the merged result right if and only if there is no value or zero lies between the extremes |
| QueryResults.NullsSpoilMerge | src/lex/jit/query_planner.cpp:603-611 | merging an all-null matching part into the summary of some values keeps minimum and maximum if and only if zero lies between them |
| QueryResults.NullBatchReports | src/lex/lsm/mem_table.cpp:152-284 | a memtable of one matching row with a null aggregate reports count 1 and minimum and maximum 0 |
| QueryResults.NullBatchSpoils | src/lex/jit/query_planner.cpp:603-611 | merged with one value other than zero, that memtable's result makes minimum or maximum wrong |
| QueryResults.MemTableSummary | src/lex/lsm/mem_table.cpp:152-284 | without null aggregates on matching rows a memtable reports the summary of its values |
| QueryResults.ReferenceMeaning | src/lex/lsm/mem_table.cpp:152-284 | every field of the reference's result by the rows' cells: matches, wrapped sum, least, greatest and all values that a matching row holds |
| TableResults.TableResultExact | src/lex/jit/query_planner.cpp:550-642 | a table's result is the reference's on its rows if and only if: zero is a value when a matching persisted row has a null aggregate, and otherwise no in-memory part has only nulls, or there is no value, or zero lies between the extremes |
| TableResults.TableResultRefines | src/lex/jit/query_planner.cpp:550-642 | without null aggregates on matching rows it is the summary of the values of the table's matching rows |
| MetadataRegistry.Registry.RegisterTable | src/lex/lsm/metadata_registry.cpp:7-21 | an empty table at version 1 |
| MetadataRegistry.Registry.InsertBatch | src/lex/lsm/metadata_registry.cpp:38-44 | the batch joins the active ones of that table only; an unknown table is an error |
| MetadataRegistry.Registry.DeleteRow | src/lex/lsm/metadata_registry.cpp:46-77 | the bit of the addressed persisted row is cleared; rows only in memory are not touched |
| MetadataRegistry.InsertContent | src/lex/lsm/metadata_registry.cpp:38-44 | the inserted rows come last, nothing else changes |
| MetadataRegistry.DeleteContent | src/lex/lsm/metadata_registry.cpp:55-72 | exactly the row stored at the address disappears if it was alive, otherwise nothing |
| RowAddresses.LocateExactly | src/lex/lsm/metadata_registry.cpp:55-72 | number idx addresses row `local` of group g if and only if the groups before g hold idx - local rows; it addresses none exactly from the total on |
| RowAddresses.DeleteByNumber | src/lex/lsm/metadata_registry.cpp:55-72 | a delete flags the idx-th of all stored rows, deleted ones counted; what the table holds then are the rows not flagged, in order |
| RowAddresses.FirstDelete | src/lex/lsm/metadata_registry.cpp:55-72 | in a table without deletions it removes the idx-th row of the content and nothing else |
| PromotionDaemon.Reconstruct | src/lex/lsm/promotion_daemon.cpp:128-192 | the builders hold the alive rows of all groups, in order, with nulls |
| PromotionDaemon.AppendBatches | src/lex/lsm/promotion_daemon.cpp:194-230 | then the rows of the frozen batches, columns looked up by name |
| PromotionDaemon.TriggerCompaction | src/lex/lsm/promotion_daemon.cpp:79-267 | nothing happens without active rows and groups; otherwise the state is frozen, rebuilt and replaced, and other tables stay |
| PromotionDaemon.NothingExactly | src/lex/lsm/promotion_daemon.cpp:83-86 | nothing is compacted exactly when there is no row group and every active batch is empty |
| PromotionDaemon.RowsCounted | src/lex/lsm/mem_table.cpp:33-51 | the row count of a memtable is the number of its rows |
| TableStates.GroupRowsAre | src/lex/lsm/promotion_daemon.cpp:128-192 | reading a group back gives the alive rows of the batch it holds |
| LsmRuns.CompactionKeepsContent | src/lex/lsm/promotion_daemon.cpp:79-267 | a compaction keeps rows, order, nulls and values, resets all delete masks, and raises the version by two |
| LsmRuns.EveryStep | src/lex/lsm/promotion_daemon.cpp:92-264 | each step keeps the invariant, changes the content as expected, and raises the version exactly at freeze and publish |
| LsmRuns.RunSafety | src/lex/lsm/promotion_daemon.cpp:79-267 | in every run the table holds the inserted rows minus the deleted ones, in order, at every intermediate state |
| LsmRuns.LateDeletesReturn | src/lex/lsm/promotion_daemon.cpp:129-132 | a publish keeps the content if and only if no alive row was deleted from a block already read; otherwise exactly those rows come back |
| LateDelete.DeletedRowReturns | src/lex/lsm/promotion_daemon.cpp:129-132 | a run from a fresh table to a state with a late delete: the table is empty, and the publish brings the row back |
| LsmRuns.FreshTable | src/lex/lsm/metadata_registry.cpp:7-21 | a registered table is empty, idle, at version 1, and satisfies the invariant |
| LsmRuns.VersionRises | src/lex/lsm/promotion_daemon.cpp:98-262 | the version counts the freezes and publishes of the run |
| LsmRuns.UndisturbedReplace | src/lex/lsm/promotion_daemon.cpp:246-262 | a publish after no late delete is the one of the sequential compaction |
| TableQueries.TableAnswer | src/lex/jit/query_planner.cpp:644-670 | a query on the table answers the query on the table's rows, also during a compaction |
| CompactionAnswers.CompactionKeepsDomain | src/lex/lsm/promotion_daemon.cpp:79-267 | a query in the domain before a compaction, whose plan judges the in-memory rows rightly, is in the domain after it |
| CompactionAnswers.CompactionPreservesAnswers | src/lex/lsm/promotion_daemon.cpp:79-267 | count and sum of such a query are the same before and after a compaction |
| RowIds.PackExact | src/lex/distributed/distributed_coordinator.cpp:21-29 | unpacking returns what was packed if and only if node < 256, batch < 4096 and row < 4096 |
| DistributedJoin.GenerateXorSum | src/lex/distributed/distributed_coordinator.cpp:11-18 | the FNV-1a hash of the bytes |
| Hashes.FnvByte | src/lex/distributed/distributed_coordinator.cpp:11-18 | one byte: exclusive or of the numbers, then multiplication modulo 2^64 |
| Hashes.FnvVectors | src/lex/distributed/distributed_coordinator.cpp:11-18 | the published FNV-1a values of "", "a" and "ab" |
| Hashes.TargetsAre | src/lex/distributed/distributed_coordinator.cpp:167-225 | where an entry goes, by the numbers: the exclusive or of the two hashes modulo the nodes, for hot right entries plus the batch number on 64 bits |
| DistributedJoin.PairMeetsOnce | src/lex/distributed/distributed_coordinator.cpp:167-225 | a left and a right entry of one signature meet at exactly one node |
| JoinPairs.EveryPairOnce | src/lex/distributed/distributed_coordinator.cpp:167-253 | the pairs all nodes find are, as a multiset, those one node with all entries finds, for any hot set |
| JoinPairs.FoundInAnyOrder | src/lex/distributed/distributed_coordinator.cpp:192-253 | the multiset of pairs found does not depend on the order of arrival |
| DistributedJoin.ShuffleLosesNothing | src/lex/distributed/distributed_coordinator.cpp:167-253 | all nodes together find what one node with everything would, for any hot set |
| DistributedJoin.ArrivalOrder | src/lex/distributed/distributed_coordinator.cpp:192-231 | results do not depend on the order of arrival |
| DistributedJoin.JoinIsNested | src/lex/distributed/distributed_coordinator.cpp:395-418 | with payload verification the join on entries is the nested-loop join on rows; colliding signatures are removed |
| JoinRows.NumberIsContribution | src/lex/distributed/distributed_coordinator.cpp:273-279 | the aggregate fetched by row id is what the row contributes to a sum in the reference |
| JoinRows.TakesPartIsMatch | src/lex/distributed/distributed_coordinator.cpp:31-84 | on operators that fit, the rows that take part in the join are those that match in the reference |
| JoinRows.NestedIsRowJoin | src/lex/distributed/distributed_coordinator.cpp:395-418 | the nested loop over row positions is the join of rows by their cells: filters, equal texts, the left row's value |
| DistributedCoordinator.GetMatchingRows | src/lex/distributed/distributed_coordinator.cpp:31-84 | exactly the admitted rows are marked |
| DistributedJoin.AdmitsIsMatch | src/lex/distributed/distributed_coordinator.cpp:55-80 | on operators that fit their kind the join's filter is the reference filter |
| DistributedJoin.UnfittingOperators | src/lex/distributed/distributed_coordinator.cpp:55-80 | with any other operator the reference matches nothing and the join admits every non-null cell of the kind |
| DistributedCoordinator.ClusterNode.PrepareJoinSignatures | src/lex/distributed/distributed_coordinator.cpp:120-165 | one entry per admitted row with a non-null key, in order |
| DistributedCoordinator.ClusterNode.ShuffleLeftSignatures | src/lex/distributed/distributed_coordinator.cpp:167-190 | hot entries go to every node, cold ones to the node of their hash |
| DistributedCoordinator.ClusterNode.ShuffleRightSignatures | src/lex/distributed/distributed_coordinator.cpp:198-225 | hot entries go to (hash + batch) mod n on 64 bits, cold ones to hash mod n |
| DistributedCoordinator.ClusterNode.PerformLocalJoin | src/lex/distributed/distributed_coordinator.cpp:233-253 | every received pair of equal signatures, with multiplicity |
| DistributedCoordinator.LocalWorth | src/lex/distributed/distributed_coordinator.cpp:233-253 | those pairs are worth the node's part of the join |
| JoinQuery.HotSignatures | src/lex/distributed/distributed_coordinator.cpp:355-367 | exactly the signatures that occur more than sixteen times on the left |
| JoinQuery.OccurrencesCounted | src/lex/distributed/distributed_coordinator.cpp:355-367 | how often a signature occurs is the number of its positions |
| JoinQuery.ExecuteJoinQuery | src/lex/distributed/distributed_coordinator.cpp:344-423 | count and sum are those of the join, by their cells, of the rows the nodes hold, and the pairs found are those of one node, each as often |
| Distribution.DistributeAndIngest | src/lex/distributed/distributed_coordinator.cpp:325-342 | node n gets its contiguous slice, the last one the remainder, empty slices are skipped |
| Distribution.SliceSizes | src/lex/distributed/distributed_coordinator.cpp:325-331 | every node but the last gets rows / nodes rows, the last those and the remainder |
| Distribution.SlicesConserveRows | src/lex/distributed/distributed_coordinator.cpp:325-342 | the slices together are the rows of the batch, in order |
| PlacedJoin.SpreadConserves | src/lex/distributed/distributed_coordinator.cpp:325-342 | the nodes together hold the keys and aggregates of the distributed batches, each as often |
| PlacedJoin.JoinOfBatches | src/lex/distributed/distributed_coordinator.cpp:325-423 | count and sum over the rows the nodes hold are those of the join, by their cells, of the rows of the batches distributed to them, for any number of nodes |
| SrdTransport.Transport.Send | src/lex/distributed/srd_transport.cpp:67-93 | packets of five entries, numbered, with a fresh message id; an empty message sends nothing |
| SrdTransport.AllFragments | src/lex/distributed/srd_transport.cpp:73-93 | the fragments end to end are the message |
| SrdTransport.FragmentSizes | src/lex/distributed/srd_transport.cpp:73-83 | five entries each, the last fragment one to five |
| SrdTransport.Transport.Receive | src/lex/distributed/srd_transport.cpp:150-176 | the buffers and completed messages are those of the acceptance function |
| SrdTransport.AnyArrivals | src/lex/distributed/srd_transport.cpp:150-176 | whatever packets arrive, forged or contradictory, a buffer has as many slots as its total and misses one |
| SrdTransport.NextPacket | src/lex/distributed/srd_transport.cpp:150-176 | after any arrivals a packet that fits no empty slot changes nothing; one that does fills it, and the slots are delivered in order exactly when it was the last one missing |
| SrdTransport.FirstPacket | src/lex/distributed/srd_transport.cpp:150-176 | after any arrivals a packet of a message without buffer opens one of as many slots as it says, or is delivered at once when it is the only one |
| SrdTransport.Transport.ReceiveAll | src/lex/distributed/srd_transport.cpp:120-125 | completed messages are handed over and cleared |
| SrdTransport.OnlySentMessages | src/lex/distributed/srd_transport.cpp:127-178 | under any reordering, loss, duplication and interleaving every reassembled message equals a sent one, entry for entry |
| SrdTransport.AllArriveDelivered | src/lex/distributed/srd_transport.cpp:157-175 | a message all of whose packets arrive is delivered |
| SrdTransport.AtMostAsOftenAsAPacket | src/lex/distributed/srd_transport.cpp:157-175 | it is delivered at most as often as any one of its packets arrives |
| SrdTransport.NothingMore | src/lex/distributed/srd_transport.cpp:157-175 | without further packets of a message there is no further delivery of it |
| SrdTransport.ExactlyOnce | src/lex/distributed/srd_transport.cpp:157-175 | delivered exactly once when no packet of it reappears after the packet that completes it, however often packets were repeated before |
| SrdTransport.DeliveredAgainIff | src/lex/distributed/srd_transport.cpp:150-175 | from a moment at which it has no buffer, a message is delivered again if and only if every one of its packets arrives again |
| SrdTransport.LateCopyDeliversAgain | src/lex/distributed/srd_transport.cpp:152-173 | after completion, for every message length, copies deliver it again if and only if every one of its packets is among them |
| SrdTransport.DeliveriesAreRounds | src/lex/distributed/srd_transport.cpp:150-175 | a message is delivered once for every complete round of its packets |
| SrdTransport.ExactlyOnceIff | src/lex/distributed/srd_transport.cpp:150-175 | delivered exactly once if and only if all its packets arrive, and after the first complete round not all of them again |
| SrdTransport.KeyInjective | src/lex/distributed/srd_transport.cpp:154 | different senders or messages have different reconstruction keys |
| SrdTransport.KeyParts | src/lex/distributed/srd_transport.cpp:154 | the message id is the low 32 bits of the key, the sender those above |
| SrdTransport.SentAreGenuine | src/lex/distributed/srd_transport.cpp:77-93 | every packet a sender makes is a part of what it sent, whatever the others send |
| ReliableBarrier.BarrierDelivers | src/lex/distributed/distributed_coordinator.cpp:192-231 | when every message to a node is delivered exactly once, the node has received exactly the entries sent to it, in some order |
| Exporter.Serialize | src/lex/storage/exporter.cpp:11-86 | the appended bytes are header, metadata and blocks with their padding |
| Exporter.Deserialize | src/lex/storage/exporter.cpp:88-187 | the reading loops, with every bounds check and error, are the parse function on any data |
| FileFormat.HeaderLayout | src/lex/storage/exporter.cpp:11-30 | "CBST", then rows, columns and blocks as 64-bit little-endian numbers, then 36 zeros |
| Storage.LittleEndian | src/lex/storage/exporter.cpp:19-23 | the bytes of a written number, least significant first |
| FileFormat.ColumnLayout | src/lex/storage/exporter.cpp:32-50 | per column its type, the length of its name and the name |
| FileFormat.TileLayout | src/lex/storage/exporter.cpp:52-62 | 72 words per tile: planes, validity, padding |
| FileFormat.TailLayout | src/lex/storage/exporter.cpp:64-83 | behind the tiles the delete mask, the tail's length and the tail |
| FileFormat.ParsedShape | src/lex/storage/exporter.cpp:88-187 | whatever is accepted has the columns and blocks its header counts and a tile for every column in every block |
| FileFormat.MagicChecked | src/lex/storage/exporter.cpp:88-100 | anything without the magic is refused for it |
| FileFormat.TailSizeChecked | src/lex/storage/exporter.cpp:162-181 | a tail is accepted exactly when it lies within the data; lengths that wrap past the bounds check at 64 bits fail later, for their length |
| FileFormat.CutFile | src/lex/storage/exporter.cpp:88-187 | a file cut off anywhere is refused with the error of the first part that is missing |
| FileFormat.CutExactly | src/lex/storage/exporter.cpp:88-187 | it is refused if and only if it is cut before the end of the last tail, or of the column metadata when there is no block; otherwise the row group is read whole |
| Exporter.BlocksAligned | src/lex/storage/exporter.cpp:46-83 | every block and the end of the file are at a multiple of 64 |
| Exporter.RoundTrip | src/lex/storage/exporter.cpp:11-187 | reading back what was written succeeds and changes nothing |
| Archive.IngestedSurvives | src/lex/storage/exporter.cpp:11-187 | an ingested batch comes back with all tiles, masks, tails, names and types |
| SqlTokens.Tokenize | src/sql_parser.cpp:8-95 | the scanning loops return the tokens of the scanning function |
| SqlTokens.AndInAnyCase | src/sql_parser.cpp:78-83 | a word is AND exactly in its eight spellings |
| SqlTokens.WordScans | src/sql_parser.cpp:68-86 | every other word of word characters that starts with a letter or underscore is one identifier |
| SqlTokens.Characters | src/sql_parser.cpp:12-70 | the character classes, by their codes |
| SqlTokens.AnySpelling | src/sql_parser.cpp:8-95 | tokens in any of their spellings, with any white space between them, scan as themselves |
| SqlTokens.ScansExactly | src/sql_parser.cpp:8-95 | scanning fails exactly on strings with a character that starts no token and continues none |
| SqlTokens.SpellScan | src/sql_parser.cpp:8-95 | spelled tokens scan as themselves |
| SqlParser.Parser.Expression | src/sql_parser.cpp:108-119 | result and new position are those of the parse function |
| SqlParser.Parser.Term | src/sql_parser.cpp:121-144 | result and new position are those of the parse function |
| SqlParser.Parser.Primary | src/sql_parser.cpp:146-177 | result and new position are those of the parse function |
| SqlParser.ParseExpression | src/sql_parser.cpp:108-119 | the position moves forward and stays within the token list |
| SqlParser.Parse | src/sql_parser.cpp:97-106 | tokens, expression, nothing trailing |
| SqlGrammar.ParsesExactly | src/sql_parser.cpp:108-177 | parsing succeeds exactly on token lists the grammar derives with literals in signed 64-bit range, and gives the left-associated tree |
| SqlGrammar.ParsesStringExactly | src/sql_parser.cpp:97-106 | the same from characters to tree |
| SqlGrammar.Unambiguous | src/sql_parser.cpp:108-177 | two derivations of one token list mean one tree |
| SqlErrors.FailsExactly | src/sql_parser.cpp:97-177 | which error is reported, for every token list: the one of the token, literal or parenthesis that blocks an unfinished expression, or trailing tokens after one that nothing continues |
| SqlErrors.FailsStringExactly | src/sql_parser.cpp:8-106 | the same for every text; an illegal character anywhere comes first |
| SqlErrors.EndNeverReported | src/sql_parser.cpp:147-150 | the check for the end of the tokens never fails |
| SqlGrammar.PrintParse | src/sql_parser.cpp:97-177 | parsing inverts a fully parenthesising printer |
| SqlGrammar.AnyTextParses | src/sql_parser.cpp:8-177 | every text that spells an expression, with any white space and any case of AND, parses to its tree |
| SqlGrammar.LiteralRange | src/sql_parser.cpp:168-173 | a literal parses exactly below 2^63 |

## Left out
- Sockets, sleeps, threads and condition variables: the transport is a sequence of arriving packets, a barrier is the assumption that everything sent before it has arrived, and one row or batch operation is one step.
- Datagrams too short for their header are dropped by the source before anything else; arrivals here are whole packets, entries are not cut into bytes.
- MetadataRegistry.Registry.DeleteRow: reading the table state and clearing the bit are one step; a delete through a state replaced in between is not modelled.
- MetadataRegistry.Registry.InsertBatch: reading the table state and appending are one step; an append that races with a freeze is not modelled.
- Row groups shared between successive table states are values here; the freeze step keeps them, so a delete during compaction is seen by blocks not yet read, as in the source.
- AdaptiveIngester.Ingest: batches hold 64-bit integers and strings; narrower integers, booleans and the error for other Arrow types are left out, as they only change how a value is widened.
- DistributedCoordinator.ClusterNode.IngestLeft: the row group built from each partition is left out, the join never reads it.
- JoinQuery.ExecuteJoinQuery: the value under a null slot of the aggregate column reads as 0.
- DistributedCoordinator.ClusterNode.PerformLocalJoin: the order of left entries within one signature is insertion order; no result depends on it.
- QueryResults.TableResult: average and median are left out, they are floating point or rebuilt from distinct values; string aggregates are left out.
- Exporter.Deserialize: allocation failure is not modelled; a tail length that only passes the wrapping bounds check fails as too long.
- MicroOpCompiler.Compile: instruction encoding, the literal move of 64-bit immediates and the stack layout of saved registers are abstracted to register transfers.
- AArch64 loads of a scan read the tile array handed to it and arbitrary memory elsewhere; the tail pointer is not read by compiled code.
- SqlParser.Parse: error texts carry no token or position; building the expression nodes of the external Apex engine is a plain tree.
- S3, curl, memory mapping, shared memory, the Postgres wire server, the query daemon, `GlobalMetadata`, task scheduling and access counters.
