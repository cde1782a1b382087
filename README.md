# rsmtxmkt loader model

This project models the sequential logic of `rsmtxmkt`, a reader for the
Matrix Market exchange format: coordinate-format files of `matrix
coordinate real` type. It covers two programs.

- **`load_matrix_market` (src/main.rs).** It splits the file into the
  header line, the dimension line and the body. It checks the banner and the
  type descriptors, partitions the body into one byte range per task, and
  tokenizes each range with `process_chunk`. It merges the per-task vectors
  under a lock, sorts the triples stably by (row, col), unzips them, and
  builds the compressed-row `indptr`.
- **The sequential `main` of src/basic.rs.** It checks the banner and reads
  a dimension line of exactly three whitespace-separated numbers. It reads
  exactly `nz` entry lines into pre-allocated vectors, converting indices to
  0-based, and writes them back out 1-based.

Modules, one concept each:

| module | file | concept |
|---|---|---|
| `Bytes` | bytes.dfy | bytes, ASCII literals, byte-to-char view |
| `Slices` | slices.dfy | first index, `split`, join, concatenation, `contains_sequence` |
| `Numbers` | numbers.dfy | the `usize` and `f64` token grammars, decimal printing |
| `Coordinates` | coordinates.dfy | the `(row, col, value)` entry, zip and the three projections |
| `Partition` | partition.dfy | the chunk arithmetic of the partition loop |
| `Tokenizer` | tokenizer.dfy | `process_chunk` over a mutable `Triplets` object (the three vectors) |
| `Merge` | merge.dfy | the lock merge as a concatenation in task-completion order |
| `Sorting` | sorting.dfy | the `sort_by` comparator, a reference stable sort, unzip |
| `RowPointers` | rowpointers.dfy | the `indptr` loop as written, and the row-pointer array it should build |
| `Aligned` | aligned.dfy | newline-aligned windows (the corrected partition) and the concrete inputs that show the partition defects |
| `Loader` | loader.dfy | `load_matrix_market` end to end, as written and corrected |
| `Basic` | basic.dfy | src/basic.rs over a sequence of input lines |

Conventions:

- **Values.** A value is kept as its token (`Value(token)`), because
  floating point is not modelled. The token must satisfy Rust's `f64`
  grammar, since `parse::<f64>().unwrap()` panics otherwise.
- **Panics become preconditions.** This covers a `parse` that fails
  (src/main.rs:18-20, 63-65), a row or column `0` that underflows on
  `- 1`, a missing `\n` after the header, and an `indptr` index out of
  range. Each stays a precondition in the order the code evaluates it.
  `usize` is 64 bits wide. A failing `parse` inside `process_chunk` panics
  only its own task; "## Left out" says what that does to the load.
- **Schedule.** The lock order of the tasks is a parameter `schedule`, a
  permutation of the task numbers. The number of tasks (`num_cpus::get()`)
  is a parameter `threads >= 1`.
- **The file of src/basic.rs** is the sequence of lines `read_line` returns.
  A line past the end of the file reads as `""`. `format` stands for the
  `{:.19}` rendering of a value.

Two behaviours of the code are recorded as written, each with a corrected
version beside it (see "## Findings").

- **Partial lines.** `process_chunk` skips the first piece of every chunk
  (src/main.rs:12-13). Its comment says that piece is a partial line, but
  the partition at src/main.rs:73-76 cuts at fixed byte offsets. So chunk
  0 loses a whole entry line, and a line cut by a boundary is read as a
  fragment. The corrected partition moves every cut to the next line start.
- **Row pointers.** In compressed-row storage, `indptr[k]` is the number of
  entries in rows below `k`, for every `k <= m`. The loop at
  src/main.rs:116-126 stops at the last row that holds an entry. The
  corrected loop fills the remaining slots.

## Model

| member | source | states |
|---|---|---|
| Slices.ContainsSequence | src/main.rs:37-38 | for a non-empty needle, true exactly when some contiguous window of the haystack equals the needle; false whenever the needle is longer than the haystack |
| Slices.IndexOf | src/main.rs:46 | the position of the first `\n`, or the length when there is none: no earlier byte is `\n` |
| Slices.Split | src/main.rs:11 | `split` yields at least one piece, and no piece contains the separator |
| Slices.JoinSplit | src/main.rs:11 | joining the pieces of `split` with the separator gives back the input |
| Slices.SplitJoin | src/main.rs:16 | splitting separator-free pieces joined by the separator gives back the pieces |
| Slices.SplitAround | src/main.rs:11 | splitting `x + [d] + y` gives the pieces of `x` followed by those of `y` |
| Loader.HeaderSplit | src/main.rs:46-48 | the buffer is the header, one `\n` and the rest; the header has no `\n` |
| Loader.HeaderWithoutNewline | src/main.rs:46-47 | without a `\n` the header is the whole buffer |
| Loader.DimsIgnoreExtraTokens | src/main.rs:62-65 | tokens after the third on the dimension line do not change `(m, n, nz)` |
| Loader.LoadMatrixMarket | src/main.rs:41-134 | a header without `%%MatrixMarket` gives the invalid-banner error; with the banner but missing any of `matrix`, `coordinate`, `real` it gives the unsupported-type error; otherwise the result is the matrix built by the pipeline |
| Loader.LoadBody | src/main.rs:58-126 | the dimension line, partition, tasks, merge, sort and `indptr` produce `LoadedBody` for the given lock order |
| Loader.RunTasks | src/main.rs:73-92 | every task tokenizes its own chunk; the shared vectors end up as the task results concatenated in lock order |
| Loader.MergedRowsBelow | src/main.rs:86-88 | the merge only reorders task results, so every row stays below `m` |
| Loader.Assemble | src/main.rs:99-126 | zip, stable sort, unzip and the `indptr` loop give `Assembled` of the merged entries |
| Loader.LoadedBodyMeaning | src/main.rs:99-126 | the stored entries are sorted by (row, col) and are a permutation of what the tasks read; `indices` and `data` are their columns and values; `indptr` has `m + 1` slots, slot `k` holds the count of rows below `k` up to `lastRow + 1`, and every slot after that is 0 |
| Loader.ScheduleOnlyOrdersDuplicates | src/main.rs:79-92 | the lock order changes neither the shape, `indptr` nor the column indices, and changes the stored entries only by permutation |
| Loader.InOrderMerge | src/main.rs:86-88 | when the tasks take the lock in spawn order, the merged entries are the task results in chunk order |
| Loader.SortedRows | src/main.rs:105 | entries sorted by (row, col) have non-decreasing rows |
| Loader.SameKeys | src/main.rs:107-114 | equal keys give equal row and column projections |
| Loader.RunAlignedTasks | src/main.rs:73-92 | with newline-aligned windows, every task reads whole lines, and the shared vectors are the window results in lock order |
| Loader.AssembleFilled | src/main.rs:99-126 | the sort and unzip followed by the filling `indptr` loop give `AssembledFilled` |
| Loader.LoadBodyAligned | src/main.rs:58-126 | the corrected pipeline, with aligned windows and a filled `indptr`, produces `LoadedAligned` |
| Loader.LoadMatrixMarketAligned | src/main.rs:41-134 | the same banner and descriptor errors as the loader; otherwise the corrected matrix |
| Loader.AssembledFilledIsCsr | src/main.rs:99-126 | the corrected assembly is a valid compressed-row matrix: entries sorted and a permutation of the input, `indptr[0] = 0`, `indptr[m]` the entry count, `indptr` monotone, and entry `i` lies in the slice of its own row |
| Loader.LoadedAlignedMeaning | src/main.rs:69-126 | the corrected loader stores exactly the entries of every line of the body, each once, whatever the lock order |
| Partition.ChunkLayout | src/main.rs:69-76 | chunk 0 starts at 0, the last ends at the body's end, each ends where the next starts, and every chunk but the last has exactly `chunk_size` bytes |
| Partition.ChunksDisjoint | src/main.rs:73-76 | chunks `i < j` do not overlap |
| Partition.FullChunkFits | src/main.rs:74-75 | `i * chunk_size + chunk_size` never exceeds the body's length |
| Partition.SplitChunks | src/main.rs:73-76 | the loop yields `threads` chunks, each equal to `Chunk`, and their concatenation is the body |
| Tokenizer.Triplets.constructor | src/main.rs:80-82 | three empty vectors |
| Tokenizer.Triplets.Push | src/main.rs:22-24 | one push on each vector appends the entry and keeps the three in lockstep |
| Tokenizer.Triplets.TokenizeLine | src/main.rs:16-20 | a line gives an entry exactly when it splits into three single-space tokens, holding the index tokens minus 1 and the value token |
| Tokenizer.Triplets.ProcessChunk | src/main.rs:10-27 | the existing entries are kept, and the entries of every line after the first, in line order, are appended |
| Tokenizer.Triplets.ProcessLines | src/main.rs:15-26 | the corrected tokenizer, without the skip, appends the entries of every line of a whole-line window |
| Tokenizer.Triplets.Extend | src/main.rs:86-88 | the other task's entries are appended after the existing ones |
| Tokenizer.LineStep | src/main.rs:16-25 | a line with three tokens gives one entry with row and column its tokens minus 1; any other line gives none |
| Tokenizer.LineEntriesAppend | src/main.rs:15 | tokenizing two runs of lines gives the entries of the first followed by those of the second |
| Tokenizer.LineEntriesFromLines | src/main.rs:15-26 | every entry produced comes from one line that yields exactly that entry |
| Tokenizer.LineEntriesLength | src/main.rs:15-26 | at most one entry per line |
| Tokenizer.NoNewlineNoEntries | src/main.rs:11-13 | a chunk without `\n` gives no entry: its only piece is skipped |
| Tokenizer.TextEntriesSplit | src/main.rs:11 | cutting a text at a line start splits its entries into those of both parts |
| Coordinates.ParseEntry | src/main.rs:18-20 | the row and column are the parsed tokens minus 1; the value is the third token |
| Coordinates.Zip | src/main.rs:99-103 | entry `i` is `(rows[i], cols[i], values[i])` |
| Coordinates.ZipProjections | src/main.rs:99-114 | zipping the three projections of the entries gives back the entries |
| Coordinates.ProjectionsOfZip | src/main.rs:99-114 | the projections of zipped vectors are those vectors |
| Merge.MergedPermutes | src/main.rs:79-92 | whatever the lock order, the merged entries are a permutation of all task results |
| Merge.MergedInOrder | src/main.rs:79-92 | in spawn order the merge is the plain concatenation |
| Merge.MergedAppend | src/main.rs:86-88 | merging two lock-order segments concatenates their merges |
| Sorting.CompareEntries | src/main.rs:105 | `Equal` exactly for equal (row, col); `Less` exactly when lexicographically smaller |
| Sorting.StableSortSorted | src/main.rs:105 | the sorted entries are non-decreasing in (row, col) |
| Sorting.StableSortPermutes | src/main.rs:105 | the sorted entries are a permutation of the input |
| Sorting.StableSortStable | src/main.rs:105 | entries with equal (row, col) keep their relative order |
| Sorting.StableSortIsUnique | src/main.rs:105 | any sorted sequence that keeps each key's entries in input order is the stable sort |
| Sorting.SortedKeysIgnoreOrder | src/main.rs:105 | the sorted (row, col) sequence depends only on the multiset of the input |
| Sorting.Unzip | src/main.rs:107-114 | three vectors of equal length, the projections of the sorted entries in order, which zip back to them |
| RowPointers.BuildIndptr | src/main.rs:116-126 | the loop as written produces `IndptrAsWritten` |
| RowPointers.AsWrittenCountsUpToTop | src/main.rs:116-126 | for sorted rows, every slot `k <= lastRow + 1` holds the count of rows below `k` |
| RowPointers.AsWrittenCorrectIff | src/main.rs:116-126 | for sorted rows below `m`, the written `indptr` is the correct one exactly when there are no entries or the last row is `m - 1` |
| RowPointers.AsWrittenTrailingZero | src/main.rs:116-126 | one entry in row 0 with `m = 2` gives `[0, 1, 0]` where the row pointers are `[0, 1, 1]` |
| RowPointers.RowPointers | src/main.rs:116-126 | slot `k` of the intended array is the count of rows below `k` |
| RowPointers.RowPointersAreCsr | src/main.rs:116-126 | the intended array starts at 0, ends at the entry count, is monotone, and row `r`'s slice holds exactly its entries |
| RowPointers.BuildIndptrFilled | src/main.rs:116-126 | the corrected loop, which fills the remaining slots, produces `RowPointers` for sorted rows |
| RowPointers.MaxRow | src/main.rs:119-126 | the last row reached bounds every row and is one of them |
| Aligned.NextLineStart | src/main.rs:74-75 | the corrected window end is a line start at or after the nominal cut |
| Aligned.NextLineStartIsFirst | src/main.rs:74-75 | no line start lies between the nominal cut and the corrected end |
| Aligned.SkipToLineStart | src/main.rs:74-75 | the scan returns the next line start |
| Aligned.SplitAligned | src/main.rs:73-76 | the corrected loop yields `threads` windows, each equal to `Window`, whose concatenation is the body |
| Aligned.EveryLineOnce | src/main.rs:73-92 | the windows' entries, in window order, are the entries of every line of the body, each once |
| Aligned.AsWrittenDropsFirstLine | src/main.rs:11-13 | with one task the single chunk is the whole body, and the first entry line is lost: the chunk yields only the entries of the lines after it |
| Aligned.AsWrittenCutsBoundaryLine | src/main.rs:73-76 | two tasks on `\n1 1 2500000` store the value `2` where the line holds `2500000` |
| Aligned.WholeLinesEverywhere | src/main.rs:73-92 | when every line of the body tokenizes, no aligned window panics, and the windows yield the body's entries |
| Aligned.AsWrittenPanicDropsChunk | src/main.rs:79-92 | two tasks on `\n1 1 56789`: chunk 0 ends in the fragment `1 1 `, whose empty value token panics its task, so neither task stores anything while the file holds the entry `(0, 0, 56789)` |
| Aligned.AlignedKeepsCutLine | src/main.rs:73-92 | on the same body, the aligned windows do not panic and store the entry `(0, 0, 56789)` |
| Aligned.EmptyIsNotFloat | src/main.rs:20 | the empty token is not an `f64` |
| Loader.AlignedThreadsInvariant | src/main.rs:69-126 | with the lock taken in spawn order, the corrected loader builds the same matrix for any two numbers of tasks |
| Loader.AlignedShapeIndependent | src/main.rs:69-126 | for any numbers of tasks and any lock orders, the corrected loader builds the same shape, `indptr` and column indices |
| Basic.WordsAreWords | src/basic.rs:39 | every piece of `split_whitespace` is non-empty and has no whitespace |
| Basic.TrimIsRedundant | src/basic.rs:39 | `trim` before `split_whitespace` changes nothing |
| Basic.FirstBadEntry | src/basic.rs:54-61 | the first entry line without exactly three words, or `nz`: all lines before it have three words |
| Basic.ReadEntry | src/basic.rs:55-64 | a line is accepted exactly when it has three words, and gives the entry with the parsed indices minus 1 |
| Basic.ReadPrefixAt | src/basic.rs:54-65 | the `k`-th entry read is the entry of line `2 + k` |
| Basic.ReadMatrix | src/basic.rs:49-65 | three vectors of length `nz`; success exactly when every entry line has three words, and then they hold the projections of the entries read in input order |
| Basic.WriteMatrix | src/basic.rs:71-75 | the output is `Output` of the zipped vectors |
| Basic.Run | src/basic.rs:22-75 | the banner, type, dimension and entry failures in that order, else the written lines |
| Basic.Output | src/basic.rs:71-75 | exactly `nz + 2` lines: the trimmed banner, `m n nz`, one line per entry |
| Basic.EntryTextReadsBack | src/basic.rs:74 | an output entry line splits into `row + 1`, `col + 1` and the value's words, and reading it parses back to the stored 0-based indices |
| Basic.DimsTextReadsBack | src/basic.rs:72 | the dimension line written reads back as exactly `m`, `n`, `nz` |
| Basic.WrittenIndicesMatchInput | src/basic.rs:62-63 | output line `2 + i` carries the same 1-based row and column as input line `2 + i` |
| Numbers.ParseDecimal | src/basic.rs:72-74 | decimal printing followed by `usize` parsing is the identity |
| Numbers.ParseUsize | src/main.rs:63-65 | a parsed `usize` never exceeds 2^64 - 1 |

## Left out

- File reading (`read_file_chunk`, `metadata`, seek, `read_exact`,
  `File::open`, `BufReader`) is I/O. The loader takes the file's bytes, and
  src/basic.rs takes its lines.
- Task spawning, `Arc<RwLock<...>>` and `join_all` are concurrency. Only the
  lock order is kept, as the `schedule` parameter.
- `num_cpus::get()` is a foreign call. It becomes the `threads >= 1`
  parameter.
- `f64` parsing and `{:.19}` formatting are floating point. A value is its
  token; its grammar is checked and `format` is a parameter.
- UTF-8 decoding: tokens are read byte for byte as characters, which is
  exact for every token that parses (they are ASCII).
- `sprs::CsMat::new` is not part of this model. Its own validation is not
  visible, so the model stops at the four arrays handed to it.
- Command-line handling and printing in both `main` functions are I/O.
  src/python_bindings.rs and usage.py are language bindings.
- Panics are preconditions, not error results, as stated above.
- Loader.LoadMatrixMarket: requires every chunk to tokenize. In the code, a
  `parse(..).unwrap()` that panics inside a task unwinds that task only
  (src/main.rs:79-85). Its entries are lost, `join_all` discards its error
  (src/main.rs:92), and the load still returns `Ok`. That behaviour is
  modelled only as `Tokenizer.TaskEntries` and the input of
  `Aligned.AsWrittenPanicDropsChunk`.
- Row or column `0` in an entry line: `- 1` panics only in a debug build.
  A release build wraps it to `usize::MAX`, which the model does not
  follow: `0` stays excluded by the precondition.
- Loader.LoadedBodyMeaning: the order of stored values with equal
  (row, col) depends on the lock order. It is stated only up to
  permutation (`ScheduleOnlyOrdersDuplicates`).
- Basic.WrittenIndicesMatchInput: the value column is compared only through
  `format`, because `{:.19}` rendering is not modelled.

## Findings

| source | as written | input that shows it | evidently intended | confidence | as-written member | corrected member |
|---|---|---|---|---|---|---|
| src/main.rs:11-13 | `process_chunk` drops the first `\n`-separated piece of every chunk, including chunk 0, whose first piece is the first entry line | one task, body `1 1 5\n` followed by any further lines: the entry of `1 1 5` is lost | every entry line is tokenized once | not executed | Aligned.AsWrittenDropsFirstLine | Loader.LoadedAlignedMeaning |
| src/main.rs:73-76 | chunk ends fall at `(i + 1) * chunk_size` whatever the line, so a line cut by the boundary is tokenized as a fragment by one chunk and skipped by the next | two tasks, body `\n1 1 2500000`: the value stored is `2` | windows end at the next line start, so each line is read whole by one task | not executed | Aligned.AsWrittenCutsBoundaryLine | Loader.LoadBodyAligned |
| src/main.rs:116-126 | `indptr` slots after `lastRow + 1` are never written and stay 0 | `m = 2`, one entry in row 0: `indptr = [0, 1, 0]` | `indptr[k]` is the count of entries in rows below `k` for every `k <= m`, here `[0, 1, 1]` | not executed | RowPointers.AsWrittenTrailingZero | RowPointers.BuildIndptrFilled |
| src/main.rs:79-92 | a boundary that cuts an entry line after its second space leaves a three-token fragment with an empty value; `parse::<f64>().unwrap()` panics that task, whose entries are all lost while the load succeeds | two tasks, body `\n1 1 56789`: chunk 0 is `\n1 1 `, chunk 1 is `56789`, and no entry is stored | every entry line is stored once and no task panics on a well-formed file | not executed | Aligned.AsWrittenPanicDropsChunk | Aligned.AlignedKeepsCutLine |
