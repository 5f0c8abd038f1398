# Verification of the CSD query worker

A Dafny model of the query worker in `csd-worker-module/temp`, with proofs. The worker
answers SQL snippets inside a computational storage device. It runs four threads joined by
blocking queues. *Scan* reads data blocks into a paged row buffer, *filter* evaluates the
WHERE clause, *merge* projects the rows into bounded output buffers, and *return* sends
those buffers away. A snippet is finished when its block counts add up.

`dafny verify dfyconfig.toml` checks the whole project.

## What is modelled

| file | part of the worker |
|---|---|
| `Rows.dfy`, `PagedBuffer.dfy` | bytes, rows, the row buffer of `Result` and `MergeResult` |
| `WorkQueue.dfy` | the blocking queue, step by step under its mutex and condition variable |
| `Scan.dfy`, `Scanner.dfy` | what a scan means; the scan thread with its loops and counters |
| `Merge.dfy`, `MergeManager.dfy` | what a merge means; the merge thread with its buffer table |
| `Pipeline.dfy`, `PipelineSafety.dfy`, `PipelineRoom.dfy`, `PipelineTheorems.dfy`, `PipelineFlush.dfy`, `PipelineCounts.dfy`, `StageRuns.dfy` | all threads together as a step relation, its invariants, the results over whole runs, and the link to the three threads' own loops |
| `FlagMachine.dfy`, `BlockFilter.dfy` | the WHERE flag machine; the filter thread's loops |
| `RowLayout.dfy`, `PrimaryKey.dfy` | column positions, lazy and eager; key columns in front of a row |
| `BigEndian.dfy`, `Decimal.dfy`, `DecimalText.dfy` | the decimal encoding, its decoder, and comparison as hex text |
| `Postfix.dfy`, `ProjectionWidth.dfy` | the postfix evaluator with scales; declared and written widths |
| `CaseWhen.dfy`, `Like.dfy`, `PackedDate.dfy` | CASE, the two LIKE matchers, packed dates |
| `Projection.dfy` | expressions down to the bytes written, and CASE over the postfix evaluator |

Code that changes things step by step is modelled by methods and classes, each proved
against a specification function; the results are lemmas about those functions. The threads
together are a step relation, so a run is any interleaving of any number of snippets.

Doubles are exact: `real` values, `modf` and `round` without rounding error. Bytes are
0..255, because `char` is unsigned on the target. The WHERE atoms, the SELECT list and the
conditions of CASE are functions given from outside wherever only their results matter.
Blocks are sequences of (index number, row) entries; reading them from storage, parsing
JSON, sockets and logging are inputs or absent.

Assumptions of the pipeline results, all in `Pipeline.Admissible` and `Pipeline.Submit`:
snippets have distinct keys and at least one block, every batch of rows that scan collects
fits its buffer of `BUFF_SIZE` bytes, and no row that is scanned and passes WHERE is longer
projected than it was, because merge projects a row in arrays of that row's length
(`PipelineTheorems.AdmissibleIff`). `SELECT *` of blocks of at most 5000 bytes is included
(`Scan.SmallBlocksFit`). Under these assumptions no row buffer of any stage is overrun in any run
(`PipelineRoom.NoOverrun`); that key columns fit the array in which scan puts them in front of
a row is a separate question, answered by `PrimaryKey.KeyFitsIff`.

## What the code does differently from what it seems to promise

- `LikeSubString_v2` advances one character too far after each matched segment, because
  `continue` also runs the loop's own increment. `LIKE '%a%b%'` misses `ab`
  (`Like.AdjacentSegmentsMissed`). Without a leading `%` it also compares every segment, not
  only the first, with the beginning of the target. The pattern `%` alone is denied for every
  target, because its one segment is skipped (`Like.PercentAloneMissed`). A pattern without `%`
  accepts every target that begins and ends with it (`Like.NoPercentIsBothEnds`). So it is LIKE
  for exactly the patterns `s%`, `%s`, `%s%` and `%%` (`Like.FilterIsLikeIff`); `Like.LikeV2Exact`
  says exactly when it answers yes on any pattern.
- The loop bound of `LikeSubString_v2` is unsigned. A last segment two or more characters
  longer than the target makes it wrap. With a leading `%` `substr` then always throws; without
  one a comparison with the beginning of the target may say no first, and `s%` never throws
  (`Like.ThrowsIff`, `Like.StartsShape`).
- The LIKE inside `calculPostfix` is LIKE for exactly the patterns with a `%` at one end or both
  and none inside (`Like.MergeIsLikeIff`).
- Scan writes the length of a varstring key with one or two bytes by its actual length, the
  more significant first; merge reads one or two by the declared length, the less significant
  first. Key columns are found again exactly when every varstring key is declared with fewer
  than 256 bytes or has two equal length bytes (`PrimaryKey.KeyColumnsRecovered`).
- In a CASE an operand spelled like a keyword is taken for one (`CaseWhen.ReadBackIff`).
- Every CASE is declared as an int (`input.h:117-119`), and `stack_valueToChar` writes a computed
  number only into a decimal, so an arm that computes something writes nothing
  (`Projection.ComputedArmWritesNothing`). For the same reason the decimal branch of ELSE is
  never reached; if it were, it would write 0.00 for any value (`CaseWhen.DecimalElseIffZero`).
- A negative decimal has its first seven bytes complemented whatever its scale, so at scale 2 and
  3 the last fraction bytes stay plain (`Decimal.SignFlipsSeven`).
- `stack_valueToChar` returns 6 plus the scale as length also for scales other than 1 to 3, for
  which it writes no fraction (`Decimal.WhatIsWritten`).
- CASE conditions are read right-nested. That is SQL's reading exactly when no AND stands in
  front of an OR (`CaseWhen.RightNestedIffNoAndBeforeOr`).
- `ItoDec` gives the text of n.00 for exactly the nonnegative ints (`DecimalText.ItoDecIsText`).
- The decimal encoding overwrites byte 0, so it keeps the integer part modulo 2^40 only
  (`Decimal.DecimalRoundTrip`).
- The width declared for a product is right for two and three factors and never for more
  (`ProjectionWidth.WidthsAgree`).
- The snippet constructor resets `primary_length` for every column, so it is nonzero only when
  every column is a key column (`PrimaryKey.PrimaryLength`), although its comment calls it the
  total key length. It is the size of the array in which scan assembles key and row, so the key
  fits exactly when all its columns together take no more bytes than the last is declared with
  (`PrimaryKey.KeyFitsIff`): with columns of fixed length, exactly when there is only one
  (`PrimaryKey.FixedKeysFitIffOne`); two int keys never fit (`PrimaryKey.TwoIntKeysOverrun`).
- A comment in `getPrimaryKeyData` (`scan.cc:354`) promises that the sign byte of an integer key
  is cleared. The loop behind it writes that byte again (`PrimaryKey.SignByteKept`), and a key
  that holds v + 2^31, or v + 2^63 in eight bytes, is read back as another integer than v, for
  every v (`PrimaryKey.IntegerKeyIsOff`).
- Scan drops every 0x20 and 0x03 of a varstring key, not only padding and separators at its end,
  so a text survives exactly when it holds none of 0x20, 0x03 and 0x02
  (`PrimaryKey.TextSurvivesIff`).
- `InitResult` and `InitMergeResult` clear four bytes, not the buffer; no result depends on the
  rest being zero (`PagedBuffer.ResetIsEmpty`).

## Model

| member | source | states |
|---|---|---|
| `PipelineTheorems.EndToEnd` | csd-worker-module/temp/merge_manager.cc:11-128 | in every state of every run the rows returned for a key are a prefix of project(filter(scanned rows)), the counts never exceed the total, and at the total the rows are the whole answer |
| `PipelineTheorems.CompletionOnce` | csd-worker-module/temp/merge_manager.cc:107-126 | before every message of a key blocks are outstanding; a message says current = total exactly when its own count completes the sum, and no message of the key follows it |
| `PipelineCounts.CountsFollowRows` | csd-worker-module/temp/merge_manager.cc:91-110 | at every message of every run, all rows of as many blocks as have been reported are among the rows returned, mid-block flushes or not |
| `PipelineFlush.MessagesAreFull` | csd-worker-module/temp/merge_manager.cc:91-95 | in every run a message that does not complete its snippet is full: the next row of the answer would not have fitted into it |
| `PipelineTheorems.NothingForeign` | csd-worker-module/temp/merge_manager.cc:91-102 | every message belongs to a submitted key and its rows fit BUFF_SIZE |
| `PipelineTheorems.AdmissibleIff` | csd-worker-module/temp/merge_manager.cc:91-103 | a snippet is admitted exactly when it has a block, every batch scan collects fits BUFF_SIZE, and no row it scans and lets through is longer projected than before |
| `PipelineRoom.NoOverrun` | csd-worker-module/temp/merge_manager.cc:31-45 | in every state of every run the scan page with the block about to be read, every queued page, the row being projected and every output buffer fit their arrays |
| `PipelineTheorems.IdleMeansDone` | csd-worker-module/temp/main.cc:33-41 | when no thread can act, every submitted snippet has been sent its whole answer and all its block counts |
| `PipelineTheorems.WorkDecreases` | csd-worker-module/temp/main.cc:33-41 | every action of a thread uses up work in a well-founded order of the stages |
| `PipelineTheorems.Drain` | csd-worker-module/temp/main.cc:33-41 | from any reachable state the threads come to rest by themselves with every answer sent in full |
| `PipelineSafety.RunKeepsInv` | csd-worker-module/temp/main.cc:33-41 | the invariant (rows and counts of each key conserved and in order across all queues, hands and buffers) holds in every state of every run |
| `PipelineSafety.ScanStepKeepsInv` | csd-worker-module/temp/scan.cc:68-101 | reading a block and pushing a batch keeps the invariant for every key |
| `PipelineSafety.FilterStepKeepsInv` | csd-worker-module/temp/filter.cc:1591-1640 | passing a filtered batch on with its count keeps the invariant for every key |
| `PipelineSafety.MergeStepKeepsInv` | csd-worker-module/temp/merge_manager.cc:91-126 | adding a row, with or without a flush, and closing a batch keep the invariant for every key |
| `PipelineSafety.MergePopKeepsInv` | csd-worker-module/temp/merge_manager.cc:16-21 | taking a batch, creating the buffer of an unknown key, keeps the invariant; a key with work left and no buffer has returned nothing |
| `PipelineSafety.SubmitKeepsInv` | csd-worker-module/temp/input.h:88-99 | a new snippet with a fresh key keeps the invariant for every key |
| `StageRuns.MergeStepsAreMergeBatch` | csd-worker-module/temp/merge_manager.cc:24-126 | the row-by-row merge steps on a batch together are MergeBatch, which MergeBlock computes |
| `StageRuns.ScanStepsAreBatches` | csd-worker-module/temp/scan.cc:68-106 | the block-by-block scan steps together push exactly the batches of ScanSnippet, in order, to one queue |
| `StageRuns.FilterStepIsBlockFilter` | csd-worker-module/temp/filter.cc:37-57 | the flag machine over the page of a queued result, tags and block count passed on, is the filter's step of the pipeline when WHERE is the formula its tokens spell |
| `WorkQueue.NoWakeupIsLost` | csd-worker-module/temp/internal_queue.h:15-37 | with any threads, in every state of every run: a nonempty queue has an awake consumer or a notify to come |
| `WorkQueue.ItemsInOrder` | csd-worker-module/temp/internal_queue.h:15-37 | in every run the callers of wait_and_pop get the stored items in the order of storing, each once: what they got, what one is about to get, and the queue make up what was stored |
| `WorkQueue.ArgumentsStored` | csd-worker-module/temp/internal_queue.h:15-21 | every producer stores exactly the arguments of its push_work calls, in the order of the calls |
| `WorkQueue.HeadIsServed` | csd-worker-module/temp/internal_queue.h:15-37 | from any such state with work the threads present can hand out the oldest item, without a new push |
| `WorkQueue.ExclusiveKept` | csd-worker-module/temp/internal_queue.h:16-29 | every step keeps mutual exclusion: who is between lock and unlock is the holder of the mutex |
| `WorkQueue.TestsKept` | csd-worker-module/temp/internal_queue.h:18-19 | was_empty is still true of the queue when the item is pushed |
| `Scan.ScanBatching` | csd-worker-module/temp/scan.cc:54-101 | the batches of a snippet carry its scanned rows in order; their counts are positive and sum to total_block_count, cut off or not |
| `Scan.ScannedIsLongestPrefix` | csd-worker-module/temp/scan.cc:154-166 | the scanned rows are the longest prefix of all entries that shares the first index number |
| `Scan.BatchesFitTheBuffer` | csd-worker-module/temp/scan.cc:68-101 | every batch was read from 1 to 15 blocks, and blocks of at most 5000 bytes never overflow BUFF_SIZE |
| `Scan.BatchesAreFull` | csd-worker-module/temp/scan.cc:84-101 | every batch but the last counts exactly fifteen blocks |
| `Scan.StepConservesRows` | csd-worker-module/temp/scan.cc:72-101 | a turn of the loop only moves rows from the unread blocks to the batch |
| `Scan.StepConservesCount` | csd-worker-module/temp/scan.cc:69-91 | a turn conserves block counts, and a batch closes after at most 15 blocks |
| `Scan.SmallBlocksFit` | csd-worker-module/temp/scan.cc:68-101 | blocks of at most 5000 bytes make batches that fit BUFF_SIZE |
| `Scan.OpenBatchFits` | csd-worker-module/temp/scan.cc:178-197 | when the batches of a snippet fit, so does the open batch with the next block at any time |
| `Scanner.ScanThread.BlockScan` | csd-worker-module/temp/scan.cc:136-199 | the entry loop appends exactly the rows up to the first foreign index number and reports the cut |
| `Scanner.ScanThread.EnQueueData` | csd-worker-module/temp/scan.cc:318-327 | a filtered snippet's result goes to FilterQueue, any other to MergeQueue, and nothing else changes |
| `Scanner.ScanThread.ReadBlock` | csd-worker-module/temp/scan.cc:69-80 | one block read, with all remaining blocks counted on a cut, is one abstract turn |
| `Scanner.ScanThread.ScanSnippet` | csd-worker-module/temp/scan.cc:52-106 | for every snippet whose batches fit BUFF_SIZE, what is pushed decodes to exactly Batches, on the queue of its scan type, in buffers that never overflow |
| `PagedBuffer.AppendDecodes` | csd-worker-module/temp/filter.cc:1929-1957 | an append keeps row_count, offsets and length valid, keeps every old row byte for byte and adds exactly the new one |
| `PagedBuffer.OffsetsSorted` | csd-worker-module/temp/merge_manager.h:86-98 | row offsets never decrease |
| `PagedBuffer.LengthIsTotal` | csd-worker-module/temp/merge_manager.h:86-98 | length is the number of bytes of the rows |
| `PagedBuffer.ResetIsEmpty` | csd-worker-module/temp/merge_manager.h:117-124 | a reset buffer is valid and holds no rows; four bytes are cleared and the rest stay |
| `PagedBuffer.ResultBuffer.AppendRow` | csd-worker-module/temp/scan.cc:178-197 | the in-place append adds exactly one row |
| `MergeManager.Manager.Flush` | csd-worker-module/temp/return.h:72-78 | pushes a copy and restarts rows and result_block_count but not current_block_count; other keys untouched |
| `MergeManager.Manager.PutRow` | csd-worker-module/temp/merge_manager.cc:91-102 | a row is added, after a flush exactly when it would not fit |
| `MergeManager.Manager.CloseBatch` | csd-worker-module/temp/merge_manager.cc:107-126 | the counts are added, and a complete buffer is pushed and erased |
| `MergeManager.Manager.MergeBlock` | csd-worker-module/temp/merge_manager.cc:11-128 | for every batch none of whose rows grows when projected, the byte-level table and pushes refine MergeBatch on the buffer of the key; no other key changes |
| `FlagMachine.MachineMeetsFormula` | csd-worker-module/temp/filter.cc:126-163 | for every well-formed token list the six flags save a row exactly when the OR of ANDs of negated atoms is true, whatever CV was left before; TmpV stays true |
| `FlagMachine.RunAtom` | csd-worker-module/temp/filter.cc:1004-1020 | after an atom CV is its value, negated under isnot, and CV implies canSaved |
| `FlagMachine.RunPassed` | csd-worker-module/temp/filter.cc:134-158 | after a failed AND everything up to the next OR is skipped |
| `BlockFilter.TokenStep` | csd-worker-module/temp/filter.cc:1409-1458 | the switch over one token is the step of the flag machine |
| `BlockFilter.FilterRow` | csd-worker-module/temp/filter.cc:1505-1565 | SavedRow is called exactly once if the formula holds and never otherwise |
| `BlockFilter.FilterPage` | csd-worker-module/temp/filter.cc:103-1584 | the output buffer decodes to exactly the accepted rows of the input, in order and byte for byte, and never overflows |
| `RowLayout.ColumnsAgree` | csd-worker-module/temp/filter.cc:2706-2771 | on a packed schema and a well-formed row, for any order of requests, the filter's memo and merge's offsets cut the row at the same places |
| `RowLayout.ColumnFinder.GetColumnoff` | csd-worker-module/temp/filter.cc:2706-2771 | memoises every column up to the requested one at its true place; unknown names act as column 0 |
| `RowLayout.GetColOffset` | csd-worker-module/temp/merge_manager.cc:714-744 | the loop with `tune` computes declared offset plus correction for every column |
| `RowLayout.EagerIffPacked` | csd-worker-module/temp/merge_manager.cc:719-743 | merge's offsets are the true column starts exactly when the schema is packed |
| `RowLayout.ColumnsReadBack` | csd-worker-module/temp/merge_manager.cc:714-744 | every row put together from its columns is well formed, and each column is cut out of it with exactly the content it was given, one- and two-byte lengths included |
| `PrimaryKey.KeyWritten` | csd-worker-module/temp/scan.cc:341-422 | for every key put together from an index number and the parts of its columns, what is written is the parts one after the other: integers and dates reversed, decimals and strings as they are, varstrings stripped behind their length |
| `PrimaryKey.GetPrimaryKeyData` | csd-worker-module/temp/scan.cc:341-422 | the bytes written are the fields of the key columns one after the other |
| `PrimaryKey.KeyColumnsRecovered` | csd-worker-module/temp/scan.cc:341-422 | merge's offsets on key bytes plus value are exactly where each key column was written, and the value starts behind the last, if and only if every varstring key is declared under 256 bytes or has two equal length bytes |
| `PrimaryKey.ReadVarString` | csd-worker-module/temp/scan.cc:387-398 | a varstring key is read up to 0x02 without any 0x03 and 0x20 |
| `PrimaryKey.TextSurvivesIff` | csd-worker-module/temp/scan.cc:387-398 | a text closed by 0x02 comes out as it went in exactly when it holds no 0x20, 0x03 or 0x02 |
| `PrimaryKey.KeyFitsIff` | csd-worker-module/temp/scan.cc:183-190 | key and row fit total_row_data exactly when the bytes of all key columns are no more than the last one is declared with |
| `PrimaryKey.FixedKeysFitIffOne` | csd-worker-module/temp/scan.cc:183-190 | with key columns of fixed length that is so exactly when there is only one |
| `PrimaryKey.TwoIntKeysOverrun` | csd-worker-module/temp/scan.cc:183-190 | two int keys write eight bytes where four are allowed for |
| `PrimaryKey.SignByteKept` | csd-worker-module/temp/scan.cc:353-358 | the byte of an integer key with the sign bit is written as it is |
| `PrimaryKey.IntegerKeyIsOff` | csd-worker-module/temp/scan.cc:351-362 | an integer key that holds v + 2^(8n-1) is read back off by half the range, never as v |
| `PrimaryKey.PrimaryLength` | csd-worker-module/temp/scan.h:143-163 | primary_length is the last column's length if all columns are key columns, else 0 |
| `Decimal.DecimalRoundTrip` | csd-worker-module/temp/merge_manager.cc:578-606 | decoding the encoding of a two-decimal value returns it exactly when its integer part is below 2^40 |
| `Decimal.StackValueToChar` | csd-worker-module/temp/merge_manager.cc:655-695 | the destination becomes sign byte, five integer bytes and the fraction bytes, the first seven complemented for negatives, for every scale; the length returned is 6 plus the scale |
| `Decimal.WhatIsWritten` | csd-worker-module/temp/merge_manager.cc:661-695 | for scales 1 to 3 the bytes are the encoding and nothing behind them changes; for others the fraction bytes keep what was there |
| `Decimal.EncodingRounds` | csd-worker-module/temp/merge_manager.cc:661-675 | every value with integer part below 2^40, a quotient for instance, comes back to within half a hundredth |
| `Decimal.RoundsToNearest` | csd-worker-module/temp/merge_manager.cc:666-687 | the fraction written is the nearest whole number of units |
| `Decimal.FractionIsSigned` | csd-worker-module/temp/merge_manager.cc:590-597 | a fraction byte of 128 or more is read as negative |
| `Decimal.SignFlipsSeven` | csd-worker-module/temp/merge_manager.cc:688-694 | a negative value differs from its opposite in the first seven bytes, all complemented, and in no other |
| `Decimal.StackCharToValue` | csd-worker-module/temp/merge_manager.cc:578-606 | the in-place decoder returns the value the bytes stand for |
| `DecimalText.TextOrderIsNumeric` | csd-worker-module/temp/filter.cc:2658-2688 | comparing the hex strings of two encoded decimals is comparing the numbers, equality included |
| `DecimalText.ItoDecIsText` | csd-worker-module/temp/filter.cc:2690-2704 | ItoDec(n) is the hex text of n.00 exactly for n >= 0, and for n < 0 that of n + 2^32 |
| `DecimalText.ColumnAgainstConstant` | csd-worker-module/temp/filter.cc:242-266 | a decimal column compares with a nonnegative int constant as numbers do |
| `DecimalText.EveryDigit` | csd-worker-module/temp/filter.cc:2658-2688 | the digits are 0 to 9 and a to f |
| `DecimalText.TypeDecimal` | csd-worker-module/temp/filter.cc:2658-2688 | the padded hex loop writes two digits per byte |
| `DecimalText.ItoDec` | csd-worker-module/temp/filter.cc:2690-2704 | the padding loop yields 80, ten digits, 00 |
| `Postfix.PostfixCorrect` | csd-worker-module/temp/merge_manager.cc:130-262 | for every tree: its postfix form runs to the end with every token leaving its value exactly when it is well typed and never divides by zero, and leaves one value with the tree's value and real_size |
| `Postfix.CalculPostfix` | csd-worker-module/temp/merge_manager.cc:134-329 | the loop over tokens with its stack, the comparisons that return early included, is the machine |
| `Postfix.ConditionAnswers` | csd-worker-module/temp/merge_manager.cc:263-324 | for every comparison of arithmetic trees the run answers exactly when both sides are strings, and then what =, <> or LIKE of them is |
| `Postfix.BadShows` | csd-worker-module/temp/merge_manager.cc:200-262 | an ill-typed tree never ends in a clean run: some operator leaves no value, returns early, underflows, throws or divides by zero |
| `Projection.ProjectTokens` | csd-worker-module/temp/merge_manager.cc:331-339 | the run of the machine with its final conversion leaves the bytes of the answer or of the value on top |
| `Projection.ComparisonByte` | csd-worker-module/temp/merge_manager.cc:263-324 | a comparison of two strings leaves the byte 1 if it is true and 0 if not, LIKE as SQL means it for the patterns merge reads so |
| `Projection.LastIsWritten` | csd-worker-module/temp/merge_manager.cc:331-339 | when an expression follows another, the value of the last is written |
| `Projection.IntWritten` | csd-worker-module/temp/merge_manager.cc:643-647 | an int is written in four bytes that read back as it |
| `Projection.LongWritten` | csd-worker-module/temp/merge_manager.cc:648-652 | a long is written in eight bytes that read back as it |
| `Projection.TextWritten` | csd-worker-module/temp/merge_manager.cc:700-706 | a string of single-byte characters is written character by character |
| `Projection.ExpressionBytes` | csd-worker-module/temp/merge_manager.cc:331-339 | every good tree with scale 1 to 3, projected as a decimal, is written as the encoding of its value |
| `Projection.ExpressionReadBack` | csd-worker-module/temp/merge_manager.cc:578-606 | and decoded as that value when it is a whole number of hundredths below 2^40 |
| `Projection.ComputedWritesNothing` | csd-worker-module/temp/merge_manager.cc:696-699 | projected as anything but a decimal a computed expression writes nothing |
| `Projection.TestPasses` | csd-worker-module/temp/merge_manager.cc:370-371 | a condition of CASE that compares two strings passes, by the byte it leaves, exactly when the comparison is true |
| `Projection.LikeTestIsLike` | csd-worker-module/temp/merge_manager.cc:287-320 | such a comparison by LIKE is SQL's LIKE for patterns with a `%` at an end and none inside |
| `Projection.CaseOverMachine` | csd-worker-module/temp/merge_manager.cc:341-461 | CASE with the postfix machine behind it: with string comparisons for conditions and ints for results the four bytes it writes, read as an int, are the first choice whose right-nested condition is true, or ELSE |
| `Projection.ComputedArmWritesNothing` | csd-worker-module/temp/merge_manager.cc:431-434 | an arm of a CASE that computes something writes nothing |
| `ProjectionWidth.WidthsAgree` | csd-worker-module/temp/input.h:132-148 | for a product of k factors the declared width is 6+k exactly for k = 2, 3, or k = 1 starting with its column |
| `ProjectionWidth.ProductDigits` | csd-worker-module/temp/merge_manager.cc:661-695 | a nonnegative product of up to three factors below 2^40 is written exactly, integer and fraction bytes |
| `ProjectionWidth.ProductTyped` | csd-worker-module/temp/merge_manager.cc:225-243 | a product of k factors is well typed with real_size k and has k-1 multiplications |
| `ProjectionWidth.CalculForReturnData` | csd-worker-module/temp/input.h:127-149 | the counting loop declares width 8 or 9 for one or two products, else that of the first token |
| `ProjectionWidth.ColumnKeepsItsType` | csd-worker-module/temp/input.h:129-131 | a single column is declared with its own type and width |
| `CaseWhen.CalculCase` | csd-worker-module/temp/merge_manager.cc:341-461 | on the text of any well-formed CASE whose operands are not spelled like keywords, and for any declared result type, the result is the value of the first passing arm, or else what ELSE gives for that type |
| `CaseWhen.IntReadBack` | csd-worker-module/temp/merge_manager.cc:427-430 | the four bytes written for an int are read back as that int |
| `CaseWhen.ReadBackIff` | csd-worker-module/temp/merge_manager.cc:347-356 | text is read as the tokens it spells exactly when no operand is spelled like a keyword |
| `CaseWhen.DecimalElseIffZero` | csd-worker-module/temp/merge_manager.cc:439-450 | for a decimal result, a branch no declared type reaches, ELSE would write the encoding of its value exactly when that value is 0 |
| `CaseWhen.EqualConnectives` | csd-worker-module/temp/merge_manager.cc:368-408 | a condition joined by AND alone is the conjunction of its parts, by OR alone the disjunction |
| `CaseWhen.EvalCondition` | csd-worker-module/temp/merge_manager.cc:368-408 | the condition loop with its early exits decides the condition |
| `CaseWhen.JudgeIsNested` | csd-worker-module/temp/merge_manager.cc:368-408 | conditions c1 op c2 op ... are read right-nested |
| `CaseWhen.FindKeywords` | csd-worker-module/temp/merge_manager.cc:347-356 | the first loop finds every WHEN/THEN pair and the ELSE |
| `CaseWhen.NestedIsRightNested` | csd-worker-module/temp/merge_manager.cc:368-408 | a condition's value depends on the truth of its parts and its connectives only, as the right-nested formula |
| `CaseWhen.RightNestedIffNoAndBeforeOr` | csd-worker-module/temp/merge_manager.cc:369-390 | that reading is SQL's for all truth values exactly when no AND stands in front of an OR |
| `Like.LikeV2Sound` | csd-worker-module/temp/filter.cc:1690-1767 | for every pattern with a `%` a yes is a real LIKE match |
| `Like.FilterIsLikeIff` | csd-worker-module/temp/filter.cc:1690-1767 | the filter says exactly what LIKE says, on every target not shorter than the last segment by two or more, for exactly the patterns `s%`, `%s`, `%s%` and `%%` |
| `Like.MergeIsLikeIff` | csd-worker-module/temp/merge_manager.cc:287-320 | merge's matcher says exactly what LIKE says, on every target long enough, for exactly the patterns with a `%` at an end and none inside |
| `Like.ThrowsIff` | csd-worker-module/temp/filter.cc:1714-1747 | for every pattern and target the filter throws exactly when the last segment is two or more characters longer than the target and no comparison with its beginning says no first |
| `Like.NoPercentIsBothEnds` | csd-worker-module/temp/filter.cc:1724-1753 | a pattern without `%` is accepted exactly on the targets that begin and end with it |
| `Like.PercentAloneMissed` | csd-worker-module/temp/filter.cc:1714-1720 | `%` alone is denied for every target |
| `Like.LikeV2Exact` | csd-worker-module/temp/filter.cc:1714-1764 | for every pattern and target the greedy loops say yes exactly when the segments can be placed in order at least one character apart, the last also stands at the end unless the pattern ends in `%`, and without a leading `%` every segment is a beginning of the target |
| `Like.AdjacentSegmentsMissed` | csd-worker-module/temp/filter.cc:1755-1760 | `%a%b%` on `ab` is a LIKE match the filter denies |
| `Like.ContainsShape` | csd-worker-module/temp/filter.cc:1714-1764 | `%s%` is exactly "contains" up to one character over the target's length and throws beyond; merge's LIKE is always "contains" |
| `Like.EndsShape` | csd-worker-module/temp/merge_manager.cc:300-309 | `%s` is exactly "ends with" for both, with the lengths at which each throws |
| `Like.StartsShape` | csd-worker-module/temp/merge_manager.cc:310-320 | `s%` is exactly "starts with" for both, for any length |
| `Like.MergeLooksLiterally` | csd-worker-module/temp/merge_manager.cc:287-320 | merge looks for what stands between the outer `%`, an inner `%` taken literally |
| `Like.ShapesInTheStandard` | csd-worker-module/temp/merge_manager.cc:287-320 | contains, ends-with and starts-with are what the three shapes mean in the SQL standard |
| `Like.LikeSubStringV2` | csd-worker-module/temp/filter.cc:1690-1767 | both loops terminate, the inner one advancing the outer index, with the specified verdict |
| `Like.SplitPattern` | csd-worker-module/temp/filter.cc:1987-2001 | split at `%`, without a segment behind a final `%` |
| `Like.SplitSpells` | csd-worker-module/temp/filter.cc:1987-2001 | the segments and the final-`%` flag spell the pattern again |
| `PackedDate.ExtractInvertsPack` | csd-worker-module/temp/merge_manager.cc:502-536 | EXTRACT returns exactly the year, month and day that were packed |
| `PackedDate.PackInvertsExtract` | csd-worker-module/temp/merge_manager.cc:521-532 | every three bytes are the packed form of what EXTRACT returns |
| `PackedDate.ComparisonIsCalendar` | csd-worker-module/temp/filter.cc:2551-2584 | integer comparison of two date columns is the order on (year, month, day) |
| `PackedDate.ReadAsLittleEndian` | csd-worker-module/temp/merge_manager.cc:502-520 | the three bytes are read least significant first |
| `PackedDate.CalculExtract` | csd-worker-module/temp/merge_manager.cc:502-536 | the bytes are read little-endian with a zero fourth byte and divided by unit |

## Left out

- Storage readers, JSON, sockets, threads as such and logging: foreign code or I/O.
- `csd_file_scan` and `host_file_scan`: near-copies of the same pipeline.
- Metric collector, metric interface, table managers and sample programs: plumbing without hard properties.
- What a single WHERE atom compares, beyond decimals, dates and LIKE: plain comparisons of two values; atoms are an oracle in the flag machine.
- Index scans, IS and ISNOT, string comparison with constants other than through the oracle, string BETWEEN bounds: unfinished in the code.
- Snippets without blocks and repeated keys: the worker sends nothing for the former and mixes the latter; both are excluded by `Pipeline.Submit`.
- IEEE rounding, infinities and FLOAT columns: values are exact reals, a division by zero stops the model of the stack machine.
- `SUBSTRING` projections and the hex codec of scan: copies of byte ranges.
- Like.ThrowsIff: patterns of 2^31 or more characters, whose length does not fit the code's int, are not covered.
- Postfix.CalculPostfix: operands come as values; stoi, stod and the reading of columns other than decimals and dates are not modelled.
- CaseWhen.CalculCase: an ELSE is assumed, because without one the code reads an uninitialised offset; an operand spelled like a keyword is not covered, nor is a condition that calculPostfix does not answer, which writes more than the one byte of `passed_` or reads an empty stack.
