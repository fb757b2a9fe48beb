# Sort-order validation of CubeStore files, in Dafny

CubeStore keeps each index of a table sorted by the leading `sort_key_size`
columns. The data is stored as a partition file plus chunk files. The
validation module reads each of those files as a stream of Arrow record
batches. It checks that, once empty batches are dropped, no row's key is
smaller than the key of the row before it. It checks row against row inside
a batch, and it checks the last row of a batch against the first row of the
next non-empty batch, seen by peeking ahead. The first violation it finds
stops the check. At table level it goes through the indexes in order, each
index's partitions in order, and for each partition its own file (when one
exists) and then its chunk files. Each file is checked on its own with the
index's key width, and the first failure ends the traversal.

The model has these modules:

- `Comparator`: `lexcmp_rows`, and the lexicographic order on key tuples
  (`KeyLt`) that it implements.
- `Batches`: record batches (columns of equal length), the filter that drops
  empty batches (`NonEmpty`), the flattened key tuples of a file (`Keys`),
  and "non-decreasing" and "sorted".
- `SortOrder`: the verdict of `validate_chunk` as a function
  (`ChunkOutcome`), and the lemmas that say what that verdict means.
- `BatchStream`: the filtered, peekable batch stream, as a cursor class
  (`Peekable`) with `Next` and `Peek`.
- `OrderValidator`: `validate_chunk` as a method with the stream loop, the
  inner row loop and the peek.
- `TableValidator`: `validate_table` as nested loops over indexes,
  partitions and chunk files. A ghost out-parameter `visited` records the
  files checked, in order.
- `OrderExamples`: three worked files with one key column.

Cell values are integers. They stand for the values that
`cmp_array_row_same_types` compares, and `CmpValues` is the total order on
them. The source returns the same error, "unsorted data in partition", for
both kinds of violation, and logs where it happened. The model returns that
place as the error's payload (`Violation`): the index of the non-empty batch
and the row.

## Model

| member | source | states |
|---|---|---|
| `Comparator.LexCmpRows` | rust/cubestore/src/validation/mod.rs:99-108 | `lexcmp_rows` itself: it compares the first column's cells at the two rows and moves on to the remaining columns only when they are equal. `LexCmpRowsFirstDifference` and `LexCmpRowsLess` state what it returns. |
| `Comparator.LexCmpRowsFirstDifference` | rust/cubestore/src/validation/mod.rs:99-108 | For column lists of equal length, `lexcmp_rows` gives Equal exactly when every column holds equal cells at the two rows; otherwise it is the ordering of the first column whose cells differ. With no columns it is Equal. |
| `Comparator.LexCmpRowsLess` | rust/cubestore/src/validation/mod.rs:101-107 | `lexcmp_rows` answers Less exactly when the first row's key tuple is lexicographically smaller than the second's. |
| `Comparator.KeyLtIrreflexive` | rust/cubestore/src/validation/mod.rs:101-107 | No key tuple is smaller than itself. |
| `Comparator.KeyLtTransitive` | rust/cubestore/src/validation/mod.rs:101-107 | The key order is transitive. |
| `Comparator.KeyLtTotal` | rust/cubestore/src/validation/mod.rs:101-107 | On tuples of one width, two keys are equal or one is smaller. |
| `Comparator.NotLtTransitive` | rust/cubestore/src/validation/mod.rs:101-107 | "Not smaller" is transitive on tuples of one width. This is what lets neighbour checks stand for a sorted sequence. |
| `Batches.NonEmpty` | rust/cubestore/src/validation/mod.rs:56 | The filter on the batch stream. It never yields more batches than the file holds; `NonEmptyMembers` states that it keeps exactly the batches with rows, in order. |
| `Batches.KeyCols` | rust/cubestore/src/validation/mod.rs:60 | The slice `&b.columns()[..key_len]`, also taken at line 77: exactly `key_len` columns, each with a cell for every row of the batch. |
| `Batches.Keys` | rust/cubestore/src/validation/mod.rs:60 | Every key tuple of a file has exactly `key_len` values, the width of the key-column slice. |
| `Batches.NonEmptyMembers` | rust/cubestore/src/validation/mod.rs:56 | The filter keeps exactly the batches that have rows. |
| `Batches.NonEmptyAppend` | rust/cubestore/src/validation/mod.rs:56 | Filtering two parts of a stream one after the other gives the same result as filtering the whole stream. |
| `Batches.EmptyBatchIrrelevant` | rust/cubestore/src/validation/mod.rs:56 | Putting an empty batch anywhere in a file leaves the filtered stream unchanged. |
| `Batches.NonEmptyFirst` | rust/cubestore/src/validation/mod.rs:56-57 | The first batch the filtered stream yields is the first non-empty batch of the file. |
| `Batches.NonDecreasingIsSorted` | rust/cubestore/src/validation/mod.rs:61-88 | When no key is smaller than its neighbour before it, no key is smaller than any key before it, and the converse holds. |
| `Batches.NonDecreasingAppend` | rust/cubestore/src/validation/mod.rs:75-88 | Two runs joined together are non-decreasing exactly when each run is and the seam between them is. This is why one comparison per batch boundary is enough. |
| `Batches.KeysAppend` | rust/cubestore/src/validation/mod.rs:58 | The key tuples of consecutive batches are concatenated in read order. |
| `Batches.KeysAroundBatch` | rust/cubestore/src/validation/mod.rs:56-60 | Around a non-empty batch, a file's filtered key tuples are those before it, then its own rows, then those after it. |
| `SortOrder.Descends` | rust/cubestore/src/validation/mod.rs:62 | The test inside a batch: row `i` compares Less than row `i - 1` on the key columns. `DescendsIsKeyLt` states that this is the key order on the two rows' key tuples. |
| `SortOrder.DescendsIsKeyLt` | rust/cubestore/src/validation/mod.rs:62 | The in-batch test holds exactly when row `i`'s key tuple is smaller than row `i - 1`'s in the key order. |
| `SortOrder.CrossDescends` | rust/cubestore/src/validation/mod.rs:75-78 | The test at a seam: the first row of the next non-empty batch compares Less than the last row of the current batch. `CrossDescendsIsKeyLt` relates it to the key order. |
| `SortOrder.CrossDescendsIsKeyLt` | rust/cubestore/src/validation/mod.rs:75-78 | The seam test holds exactly when the next batch's first key tuple is smaller than the current batch's last key tuple in the key order. |
| `SortOrder.FirstDescentFrom` | rust/cubestore/src/validation/mod.rs:61-73 | The inner loop's search gives the first row `i` at or after the start whose key compares Less than row `i - 1`, or none when no such row exists. |
| `SortOrder.ViolationFrom` | rust/cubestore/src/validation/mod.rs:58-92 | The scan from a given non-empty batch: first the rows of that batch, then its seam with the next batch, then the remaining batches. `ViolationFromSound` states what the result means. |
| `SortOrder.ChunkOutcome` | rust/cubestore/src/validation/mod.rs:47-93 | The verdict of `validate_chunk` on one file: the scan from the first non-empty batch. `ChunkOutcomeSound` states what it means. |
| `SortOrder.ViolationFromSound` | rust/cubestore/src/validation/mod.rs:58-92 | From any non-empty batch on, the scan passes only if the remaining key tuples are non-decreasing. A violation it reports is the first descent in those tuples. |
| `SortOrder.ChunkOutcomeSound` | rust/cubestore/src/validation/mod.rs:47-93 | A file passes exactly when the key tuples of its non-empty batches, concatenated in read order, are non-decreasing. On failure, the reported row is the first descent in that concatenation: every earlier neighbour pair is in order. |
| `SortOrder.ChunkOutcomePassIffSorted` | rust/cubestore/src/validation/mod.rs:47-93 | A file passes exactly when every key tuple is at least every earlier one, across all non-empty batches. |
| `SortOrder.ZeroKeyLenPasses` | rust/cubestore/src/validation/mod.rs:60 | With `key_len` 0 every file passes, because every key is the empty tuple. |
| `SortOrder.EmptyBatchKeepsOutcome` | rust/cubestore/src/validation/mod.rs:56 | Inserting or removing an empty batch does not change the verdict on a file. |
| `SortOrder.DescentInBatchFails` | rust/cubestore/src/validation/mod.rs:61-72 | Any row, in any non-empty batch, whose key compares Less than the previous row's key makes the file fail. |
| `SortOrder.DescentAcrossBatchesFails` | rust/cubestore/src/validation/mod.rs:75-87 | The file fails when the first row of the next non-empty batch compares Less than the last row of the current batch, with only empty batches between them. This holds even when each batch is sorted on its own. |
| `BatchStream.Peekable.constructor` | rust/cubestore/src/validation/mod.rs:53-57 | The stream starts with every non-empty batch of the file still to come. |
| `BatchStream.Peekable.Next` | rust/cubestore/src/validation/mod.rs:56-58 | Takes the next non-empty batch, skipping empty ones, and removes it from what is still to come. At the end of the file it yields None. |
| `BatchStream.Peekable.Peek` | rust/cubestore/src/validation/mod.rs:75 | Yields the next non-empty batch, or None at the end, without consuming it. |
| `OrderValidator.FirstDescent` | rust/cubestore/src/validation/mod.rs:61-73 | The inner row loop of one batch returns the first row whose key compares Less than the key of the row before it, as `FirstDescentFrom` describes, or None. |
| `OrderValidator.ValidateChunk` | rust/cubestore/src/validation/mod.rs:47-93 | The stream loop, with its row loop and its peek, returns exactly `ChunkOutcome`. By `ChunkOutcomeSound`, it therefore succeeds if and only if the key tuples of the non-empty batches, concatenated, are non-decreasing, and a failure names the first descent. |
| `TableValidator.TargetOutcome` | rust/cubestore/src/validation/mod.rs:31-38 | The verdict on one file, the partition's own file or a chunk file: FileUnavailable when the file does not open, UnsortedData when `validate_chunk` fails on it, and Pass otherwise. `TargetOutcomePassIff` states what it means. |
| `TableValidator.TargetOutcomePassIff` | rust/cubestore/src/validation/mod.rs:31-38 | A failure names its file, and it is FileUnavailable exactly when the file does not open. A file passes exactly when it opens and the key tuples of its non-empty batches are non-decreasing. |
| `TableValidator.ValidateTarget` | rust/cubestore/src/validation/mod.rs:31-38 | Checking one file gives FileUnavailable when the file cannot be opened, UnsortedData when `validate_chunk` fails on it, and Pass otherwise. |
| `TableValidator.ValidatePartition` | rust/cubestore/src/validation/mod.rs:30-40 | Checks the partition's own file when it has one, then each chunk file in order. It stops at the first failure and returns that failure. |
| `TableValidator.ValidateIndex` | rust/cubestore/src/validation/mod.rs:30-41 | Checks the partitions of one index in order with its `sort_key_size`, and stops at the first failure. |
| `TableValidator.ValidateTable` | rust/cubestore/src/validation/mod.rs:26-44 | Visits files in index order, then partition order, with a partition's own file before its chunk files. On success it visited every file and every file passed. On failure it visited a prefix ending at the failing file, every earlier file passed, and the result is that file's error. It passes exactly when every file passes on its own, so no files are compared with each other. |
| `TableValidator.ChunkTargets` | rust/cubestore/src/validation/mod.rs:36-39 | The chunk files of a partition, in order. `ChunkTargetsInOrder` states their order and key width. |
| `TableValidator.ChunkTargetsInOrder` | rust/cubestore/src/validation/mod.rs:36-39 | There is one target per chunk file, in the chunks' order, each checked with the index's key width. |
| `TableValidator.PartitionTargets` | rust/cubestore/src/validation/mod.rs:30-40 | The files of one partition, in visiting order. `PartitionTargetsInOrder` states that order. |
| `TableValidator.PartitionTargetsInOrder` | rust/cubestore/src/validation/mod.rs:30-40 | A partition's own file, when it has one, comes first, followed by its chunk files in order. |
| `TableValidator.PartitionsTargets` | rust/cubestore/src/validation/mod.rs:30-40 | The files of an index's partitions, one partition after another. `PartitionsKeyLen` states the key width. |
| `TableValidator.PartitionsKeyLen` | rust/cubestore/src/validation/mod.rs:26-40 | Every file of an index is checked with that index's `sort_key_size`. |
| `TableValidator.Targets` | rust/cubestore/src/validation/mod.rs:26-42 | Every file of the table in visiting order. `TargetsAppend` and `TargetsOfIndex` state that order. |
| `TableValidator.TargetsAppend` | rust/cubestore/src/validation/mod.rs:26-42 | All files of earlier indexes are checked before any file of later indexes. |
| `TableValidator.TargetsOfIndex` | rust/cubestore/src/validation/mod.rs:26-40 | The files of one index form one contiguous block in the visiting order, and each is checked with that index's `sort_key_size`. |
| `OrderExamples.SeamDescentFails` | rust/cubestore/src/validation/mod.rs:75-87 | Keys [1, 3] then [2] fail at the boundary after the first batch. |
| `OrderExamples.EqualSeamPasses` | rust/cubestore/src/validation/mod.rs:75-88 | Keys [1, 2] then [2, 3] pass: an equal key across a boundary is in order. |
| `OrderExamples.EmptyBetweenPasses` | rust/cubestore/src/validation/mod.rs:56 | The same two batches with an empty batch between them still pass. |

## Left out

- Catalog lookups (`get_table`, `get_table_indexes`, `get_active_partitions_and_chunks_by_index_id_for_select`, mod.rs:19-24) and their errors. `ValidateTable` takes the catalog's answer as its input: a list of indexes, each with its key width and its (partition file, chunk files) pairs.
- Making a file local (`fs.local_file`, mod.rs:32 and 37) and opening it with `ParquetExec` (mod.rs:51-55). Together they are the function `open`, and a failure of either is `FileUnavailable`.
- Read errors inside the batch stream. The filter at mod.rs:56 drops `Err` items along with empty batches, so the `b?` at mod.rs:59 never fires. The model's stream has no error items.
- `display_row` (mod.rs:95-97) and all logging. The logged row positions survive only as the `Violation` payload.
- The internals of `cmp_array_row_same_types`. Cells are integers under their usual order, standing for any total order on same-typed values.
- Async execution and the `futures` stream machinery. The stream is a finite sequence read through the `Peekable` cursor.
- A key width larger than a batch's column count. The slice at mod.rs:60 and 77 panics in that case, so it is a precondition (`FileFits`, `Openable`), not an error result. `Openable` asks this of every file of the table that opens, including files after the first failure, which the source never reads.
- Column lists of unequal length in `lexcmp_rows`. The source has only a debug assertion for this (mod.rs:100), so it is a precondition.
- The command-line entry point in rust/cubestore/src/bin/validate.rs, which covers configuration, runtime construction, argument handling and error logging.
- `UnsortedData`: the source returns the constant message "unsorted data in partition" (mod.rs:69-71 and 84-86). It only logs the rows and the key values, and for a seam it logs no row index at all (mod.rs:63-68 and 79-83). The model's `UnsortedData` instead carries the file and a `Violation`, which is the index of the non-empty batch and the row. It carries no key values.
