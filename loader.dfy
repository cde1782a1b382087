/** `load_matrix_market` (src/main.rs:41-134) on the bytes of the file: the
    header and dimension lines, the banner checks, the partition into chunks,
    one `process_chunk` per chunk merged under the lock in the order the tasks
    finish, the stable sort, the unzip and the row pointers. The file is read
    whole at src/main.rs:42-44; here its bytes are the input `buffer`. The
    number of tasks (`num_cpus::get()`) and the order in which they take the
    lock are parameters. The result is the four parts handed to
    `CsMat::new`, whose own checks are not part of this model. */
module Loader {
  import opened Bytes
  import opened Slices
  import opened Numbers
  import opened Coordinates
  import opened Partition
  import opened Tokenizer
  import opened Merge
  import opened Sorting
  import opened RowPointers
  import opened Aligned

  /** The two `InvalidData` errors the loader returns. */
  datatype LoadError = InvalidBanner | UnsupportedType

  datatype Outcome<T> = Ok(value: T) | Err(error: LoadError)

  /** What is passed to `CsMat::new`: the shape `(m, n)`, `indptr`, the column
      of every entry and its value, entries in (row, col) order. */
  datatype Csr = Csr(m: nat, n: nat, indptr: seq<nat>, indices: seq<nat>, data: seq<Value>)

  /** `&buffer[..header_end]`, `header_end` being the first `\n` or the length. */
  function Header(buffer: seq<Byte>): seq<Byte>
  {
    buffer[..IndexOf(buffer, Newline)]
  }

  /** `&buffer[header_end + 1..]`, which panics when there is no `\n`. */
  function AfterHeader(buffer: seq<Byte>): seq<Byte>
    requires Newline in buffer
  {
    buffer[IndexOf(buffer, Newline) + 1..]
  }

  /** The header is the bytes before the first `\n`, the rest the bytes after it. */
  lemma HeaderSplit(buffer: seq<Byte>)
    requires Newline in buffer
    ensures buffer == Header(buffer) + [Newline] + AfterHeader(buffer)
    ensures Newline !in Header(buffer)
  {
    var k := IndexOf(buffer, Newline);
    assert buffer[k] == Newline;
    assert buffer == buffer[..k] + [buffer[k]] + buffer[k + 1..];
  }

  /** Without a `\n` the header is the whole buffer (and the body slice panics). */
  lemma HeaderWithoutNewline(buffer: seq<Byte>)
    requires Newline !in buffer
    ensures Header(buffer) == buffer
  {
    assert IndexOf(buffer, Newline) == |buffer|;
  }

  /** The banner `%%MatrixMarket` is somewhere in the header. */
  predicate HasBanner(header: seq<Byte>)
  {
    ContainsSequence(header, Ascii("%%MatrixMarket"))
  }

  /** The header names the only supported type: `matrix coordinate real`,
      each word anywhere in the header. */
  predicate HasDescriptors(header: seq<Byte>)
  {
    ContainsSequence(header, Ascii("matrix")) && ContainsSequence(header, Ascii("coordinate"))
      && ContainsSequence(header, Ascii("real"))
  }

  predicate HeaderAccepted(header: seq<Byte>)
  {
    HasBanner(header) && HasDescriptors(header)
  }

  /** The first three single-space tokens of the dimension line parse as
      `usize`; any further tokens are ignored. */
  predicate DimsParse(line: seq<Byte>)
  {
    var dims := Split(line, Space);
    |dims| >= 3 && IsUsizeToken(Chars(dims[0])) && IsUsizeToken(Chars(dims[1]))
      && IsUsizeToken(Chars(dims[2]))
  }

  /** `(m, n, nz)` */
  function Dims(line: seq<Byte>): (nat, nat, nat)
    requires DimsParse(line)
  {
    var dims := Split(line, Space);
    (ParseUsize(Chars(dims[0])), ParseUsize(Chars(dims[1])), ParseUsize(Chars(dims[2])))
  }

  /** Tokens after the third are ignored: appending ` extra` to a dimension
      line leaves `(m, n, nz)` as they were. */
  lemma DimsIgnoreExtraTokens(line: seq<Byte>, extra: seq<Byte>)
    requires DimsParse(line)
    ensures DimsParse(line + [Space] + extra) && Dims(line + [Space] + extra) == Dims(line)
  {
    SplitAround(line, Space, extra);
  }

  /** Every chunk of the entry body can be tokenized without panic. */
  predicate ChunksParse(body: seq<Byte>, threads: nat)
    requires threads >= 1
  {
    forall i :: 0 <= i < threads ==> ChunkParses(Chunk(body, threads, i))
  }

  /** What task `i` appends. */
  function ChunkResult(body: seq<Byte>, threads: nat, i: nat): seq<Entry>
    requires threads >= 1 && i < threads && ChunksParse(body, threads)
  {
    ChunkEntries(Chunk(body, threads, i))
  }

  /** What each task appends, in task order. */
  function ChunkResults(body: seq<Byte>, threads: nat): (results: seq<seq<Entry>>)
    requires threads >= 1 && ChunksParse(body, threads)
    ensures |results| == threads
  {
    seq(threads, i requires 0 <= i < threads => ChunkResult(body, threads, i))
  }

  /** Every entry lies in a row below `m`. */
  predicate RowsBelow(entries: seq<Entry>, m: nat)
  {
    forall e :: e in entries ==> e.row < m
  }

  /** The part after the header runs to its end without panic: it has a
      dimension line whose three numbers parse, every chunk of the entry lines
      tokenizes, and every row lies below `m >= 1`, as the
      `indptr[current_row + 1]` writes need. */
  predicate BodyDefined(rest: seq<Byte>, threads: nat)
  {
    threads >= 1 && Newline in rest && DimsParse(Header(rest)) &&
    ChunksParse(AfterHeader(rest), threads) &&
    var m := Dims(Header(rest)).0;
    m >= 1 && RowsBelow(Concat(ChunkResults(AfterHeader(rest), threads)), m)
  }

  /** The loader runs to its end without panic: the buffer has a header line
      and, once the header is accepted, the rest is as `BodyDefined` says. */
  predicate LoadDefined(buffer: seq<Byte>, threads: nat)
  {
    threads >= 1 && Newline in buffer &&
    (HeaderAccepted(Header(buffer)) ==> BodyDefined(AfterHeader(buffer), threads))
  }

  /** Sort, unzip and row pointers applied to the merged entries. */
  function Assembled(entries: seq<Entry>, m: nat, n: nat): Csr
  {
    var sorted := StableSort(entries);
    Csr(m, n, IndptrAsWritten(Rows(sorted), m), Cols(sorted), Values(sorted))
  }

  /** The matrix built from the part after the header when the tasks take the
      lock in the order `schedule`. */
  function LoadedBody(rest: seq<Byte>, threads: nat, schedule: seq<nat>): Csr
    requires BodyDefined(rest, threads) && IsSchedule(schedule, threads)
  {
    var (m, n, _) := Dims(Header(rest));
    ScheduleBounds(schedule, threads);
    Assembled(Merged(ChunkResults(AfterHeader(rest), threads), schedule), m, n)
  }

  /** The matrix the loader hands to `CsMat::new`. */
  function Loaded(buffer: seq<Byte>, threads: nat, schedule: seq<nat>): Csr
    requires LoadDefined(buffer, threads) && HeaderAccepted(Header(buffer))
    requires IsSchedule(schedule, threads)
  {
    LoadedBody(AfterHeader(buffer), threads, schedule)
  }

  lemma MergedStep(results: seq<seq<Entry>>, schedule: seq<nat>, step: nat)
    requires step < |schedule| && TasksBelow(schedule, |results|)
    ensures TasksBelow(schedule[..step], |results|) && TasksBelow(schedule[..step + 1], |results|)
    ensures Merged(results, schedule[..step + 1]) == Merged(results, schedule[..step]) + results[schedule[step]]
  {
    var prefix := schedule[..step + 1];
    assert forall i :: 0 <= i < step + 1 ==> prefix[i] == schedule[i];
    assert prefix[..step] == schedule[..step];
  }

  /** The tasks of src/main.rs:73-92: task `i` runs `process_chunk` on chunk
      `i` into vectors of its own and, when it gets the lock, extends the
      shared vectors with them. Tasks get the lock in the order `schedule`. */
  method RunTasks(chunks: seq<seq<Byte>>, ghost results: seq<seq<Entry>>, schedule: seq<nat>)
    returns (matrix: Triplets)
    requires |chunks| == |results|
    requires forall i :: 0 <= i < |chunks| ==> ChunkParses(chunks[i]) && results[i] == ChunkEntries(chunks[i])
    requires TasksBelow(schedule, |results|)
    ensures matrix.Valid() && matrix.Entries() == Merged(results, schedule)
  {
    matrix := new Triplets();
    assert schedule[..0] == [];
    for step := 0 to |schedule|
      invariant matrix.Valid()
      invariant TasksBelow(schedule[..step], |results|)
      invariant matrix.Entries() == Merged(results, schedule[..step])
    {
      var i := schedule[step];
      var local := new Triplets();
      local.ProcessChunk(chunks[i]);
      EmptyAppend(ChunkEntries(chunks[i]));
      MergedStep(results, schedule, step);
      matrix.Extend(local);
    }
    assert schedule[..|schedule|] == schedule;
  }

  /** The merge only reorders the tasks' results, so their rows stay below `m`. */
  lemma MergedRowsBelow(results: seq<seq<Entry>>, schedule: seq<nat>, m: nat)
    requires IsSchedule(schedule, |results|) && RowsBelow(Concat(results), m)
    ensures TasksBelow(schedule, |results|) && RowsBelow(Merged(results, schedule), m)
  {
    MergedPermutes(results, schedule);
    forall e | e in Merged(results, schedule) ensures e.row < m {
      assert e in multiset(Concat(results));
    }
  }

  /** src/main.rs:99-126: zip the shared vectors into triples, sort them by
      (row, col), unzip them and build `indptr`. */
  method Assemble(matrix: Triplets, m: nat, n: nat) returns (csr: Csr)
    requires matrix.Valid() && m >= 1 && RowsBelow(matrix.Entries(), m)
    ensures csr == Assembled(matrix.Entries(), m, n)
  {
    var entries := Zip(matrix.rows, matrix.cols, matrix.values);
    var sorted := StableSort(entries);
    var sortedRows, sortedCols, sortedValues := Unzip(sorted);
    StableSortPermutes(entries);
    forall i | 0 <= i < |sortedRows| ensures sortedRows[i] < m {
      assert sorted[i] in multiset(entries);
    }
    var indptr := BuildIndptr(sortedRows, m);
    csr := Csr(m, n, indptr[..], sortedCols, sortedValues);
  }

  /** src/main.rs:58-92: the dimension line, the partition and the tasks. */
  method LoadBody(rest: seq<Byte>, threads: nat, schedule: seq<nat>) returns (csr: Csr)
    requires BodyDefined(rest, threads) && IsSchedule(schedule, threads)
    ensures csr == LoadedBody(rest, threads, schedule)
  {
    var dimsEnd := IndexOf(rest, Newline);
    var dimsLine := rest[..dimsEnd];
    var body := rest[dimsEnd + 1..];
    var dims := Split(dimsLine, Space);
    var m := ParseUsize(Chars(dims[0]));
    var n := ParseUsize(Chars(dims[1]));
    var nz := ParseUsize(Chars(dims[2]));

    var chunks := SplitChunks(body, threads);
    ghost var results := ChunkResults(body, threads);
    MergedRowsBelow(results, schedule, m);
    forall i | 0 <= i < threads ensures ChunkParses(chunks[i]) && results[i] == ChunkEntries(chunks[i]) {
      assert chunks[i] == Chunk(body, threads, i);
      assert results[i] == ChunkResult(body, threads, i);
    }
    var matrix := RunTasks(chunks, results, schedule);
    csr := Assemble(matrix, m, n);
  }

  /** `load_matrix_market` after the file has been read into `buffer`: the
      banner is checked before the descriptors, and neither error builds a
      matrix. */
  method LoadMatrixMarket(buffer: seq<Byte>, threads: nat, schedule: seq<nat>) returns (r: Outcome<Csr>)
    requires LoadDefined(buffer, threads) && IsSchedule(schedule, threads)
    ensures !HasBanner(Header(buffer)) ==> r == Err(InvalidBanner)
    ensures HasBanner(Header(buffer)) && !HasDescriptors(Header(buffer)) ==> r == Err(UnsupportedType)
    ensures HeaderAccepted(Header(buffer)) ==> r == Ok(Loaded(buffer, threads, schedule))
  {
    var headerEnd := IndexOf(buffer, Newline);
    var header := buffer[..headerEnd];
    var body := buffer[headerEnd + 1..];
    if !ContainsSequence(header, Ascii("%%MatrixMarket")) {
      return Err(InvalidBanner);
    }
    if !ContainsSequence(header, Ascii("matrix")) || !ContainsSequence(header, Ascii("coordinate"))
      || !ContainsSequence(header, Ascii("real")) {
      return Err(UnsupportedType);
    }
    var csr := LoadBody(body, threads, schedule);
    r := Ok(csr);
  }

  /** What the tasks produce, in task order: the entries the file's body holds
      as `process_chunk` reads it. */
  function BodyEntries(rest: seq<Byte>, threads: nat): seq<Entry>
    requires BodyDefined(rest, threads)
  {
    Concat(ChunkResults(AfterHeader(rest), threads))
  }

  /** The merged entries once sorted: the matrix's entries in storage order. */
  function SortedEntries(rest: seq<Byte>, threads: nat, schedule: seq<nat>): seq<Entry>
    requires BodyDefined(rest, threads) && IsSchedule(schedule, threads)
  {
    ScheduleBounds(schedule, threads);
    StableSort(Merged(ChunkResults(AfterHeader(rest), threads), schedule))
  }

  /** Entries sorted by `(row, col)` have non-decreasing rows. */
  lemma SortedRows(entries: seq<Entry>)
    requires SortedByKey(entries)
    ensures NonDecreasing(Rows(entries))
  {
    forall i, j | 0 <= i < j < |entries| ensures Rows(entries)[i] <= Rows(entries)[j] {
      assert KeyLe(entries[i], entries[j]);
    }
  }

  /** The matrix handed to `CsMat::new` holds exactly the entries the tasks
      produced, sorted by `(row, col)`, with their columns and values in that
      order; `indptr[k]` counts the entries in rows before `k` up to the slot
      after the last occupied row, and every later slot is 0. */
  lemma LoadedBodyMeaning(rest: seq<Byte>, threads: nat, schedule: seq<nat>)
    requires BodyDefined(rest, threads) && IsSchedule(schedule, threads)
    ensures var csr := LoadedBody(rest, threads, schedule);
            var entries := SortedEntries(rest, threads, schedule);
            var (m, n, _) := Dims(Header(rest));
      SortedByKey(entries) && multiset(entries) == multiset(BodyEntries(rest, threads)) &&
      csr.m == m && csr.n == n && |csr.indptr| == m + 1 &&
      csr.indices == Cols(entries) && csr.data == Values(entries) &&
      (forall k :: 0 <= k <= m && k <= MaxRow(Rows(entries)) + 1 ==>
         csr.indptr[k] == CountBelow(Rows(entries), k)) &&
      (forall k :: MaxRow(Rows(entries)) + 1 < k <= m ==> csr.indptr[k] == 0)
  {
    var results := ChunkResults(AfterHeader(rest), threads);
    ScheduleBounds(schedule, threads);
    var merged := Merged(results, schedule);
    MergedPermutes(results, schedule);
    StableSortSorted(merged);
    StableSortPermutes(merged);
    SortedRows(StableSort(merged));
    AsWrittenCountsUpToTop(Rows(StableSort(merged)), Dims(Header(rest)).0);
  }

  /** Equal coordinates give equal row and column vectors. */
  lemma SameKeys(a: seq<Entry>, b: seq<Entry>)
    requires Keys(a) == Keys(b)
    ensures Rows(a) == Rows(b) && Cols(a) == Cols(b)
  {
    assert |a| == |Keys(a)| == |b|;
    forall i | 0 <= i < |a| ensures a[i].row == b[i].row && a[i].col == b[i].col {
      assert Keys(a)[i] == Keys(b)[i];
    }
  }

  /** The order in which the tasks take the lock changes neither the shape,
      nor `indptr`, nor the column indices, nor which entries are stored: it
      can only reorder the values of entries that share a coordinate. */
  lemma ScheduleOnlyOrdersDuplicates(rest: seq<Byte>, threads: nat, s1: seq<nat>, s2: seq<nat>)
    requires BodyDefined(rest, threads) && IsSchedule(s1, threads) && IsSchedule(s2, threads)
    ensures LoadedBody(rest, threads, s1).m == LoadedBody(rest, threads, s2).m
    ensures LoadedBody(rest, threads, s1).n == LoadedBody(rest, threads, s2).n
    ensures LoadedBody(rest, threads, s1).indptr == LoadedBody(rest, threads, s2).indptr
    ensures LoadedBody(rest, threads, s1).indices == LoadedBody(rest, threads, s2).indices
    ensures multiset(SortedEntries(rest, threads, s1)) == multiset(SortedEntries(rest, threads, s2))
  {
    var results := ChunkResults(AfterHeader(rest), threads);
    ScheduleBounds(s1, threads);
    ScheduleBounds(s2, threads);
    var a, b := Merged(results, s1), Merged(results, s2);
    MergedPermutes(results, s1);
    MergedPermutes(results, s2);
    StableSortPermutes(a);
    StableSortPermutes(b);
    SortedKeysIgnoreOrder(a, b);
    SameKeys(StableSort(a), StableSort(b));
  }

  /** When the tasks take the lock in task order, the shared vectors hold the
      chunks' entries in file order. */
  lemma InOrderMerge(rest: seq<Byte>, threads: nat)
    requires BodyDefined(rest, threads)
    ensures IsSchedule(Range(threads), threads)
    ensures TasksBelow(Range(threads), threads)
    ensures Merged(ChunkResults(AfterHeader(rest), threads), Range(threads)) == BodyEntries(rest, threads)
  {
    var results := ChunkResults(AfterHeader(rest), threads);
    MergedInOrder(results, threads);
    assert results[..threads] == results;
  }

  /** The corrected loader runs to its end without panic: the dimension line
      parses, every line of the entry body tokenizes, and every row lies
      below `m >= 1`. */
  predicate AlignedDefined(rest: seq<Byte>, threads: nat)
  {
    threads >= 1 && Newline in rest && DimsParse(Header(rest)) && TextParses(AfterHeader(rest)) &&
    var m := Dims(Header(rest)).0;
    m >= 1 && RowsBelow(TextEntries(AfterHeader(rest)), m)
  }

  /** Sort, unzip and the filled row pointers applied to the merged entries. */
  function AssembledFilled(entries: seq<Entry>, m: nat, n: nat): Csr
  {
    var sorted := StableSort(entries);
    Csr(m, n, RowPointers.RowPointers(Rows(sorted), m), Cols(sorted), Values(sorted))
  }

  /** The matrix the corrected loader builds from the part after the header:
      one task per line-aligned window, merged in the order `schedule`. */
  function LoadedAligned(rest: seq<Byte>, threads: nat, schedule: seq<nat>): Csr
    requires AlignedDefined(rest, threads) && IsSchedule(schedule, threads)
  {
    var (m, n, _) := Dims(Header(rest));
    ScheduleBounds(schedule, threads);
    AssembledFilled(Merged(WindowResults(AfterHeader(rest), threads), schedule), m, n)
  }

  /** The tasks of the corrected loader: task `i` tokenizes every line of
      window `i` and appends the result when it gets the lock. */
  method RunAlignedTasks(windows: seq<seq<Byte>>, ghost results: seq<seq<Entry>>, schedule: seq<nat>)
    returns (matrix: Triplets)
    requires |windows| == |results|
    requires forall i :: 0 <= i < |windows| ==> TextParses(windows[i]) && results[i] == TextEntries(windows[i])
    requires TasksBelow(schedule, |results|)
    ensures matrix.Valid() && matrix.Entries() == Merged(results, schedule)
  {
    matrix := new Triplets();
    assert schedule[..0] == [];
    for step := 0 to |schedule|
      invariant matrix.Valid()
      invariant TasksBelow(schedule[..step], |results|)
      invariant matrix.Entries() == Merged(results, schedule[..step])
    {
      var i := schedule[step];
      var local := new Triplets();
      local.ProcessLines(windows[i]);
      EmptyAppend(TextEntries(windows[i]));
      MergedStep(results, schedule, step);
      matrix.Extend(local);
    }
    assert schedule[..|schedule|] == schedule;
  }

  /** Zip, sort and unzip as in `Assemble`, with the row pointers filled to
      the end. */
  method AssembleFilled(matrix: Triplets, m: nat, n: nat) returns (csr: Csr)
    requires matrix.Valid() && m >= 1 && RowsBelow(matrix.Entries(), m)
    ensures csr == AssembledFilled(matrix.Entries(), m, n)
  {
    var entries := Zip(matrix.rows, matrix.cols, matrix.values);
    var sorted := StableSort(entries);
    var sortedRows, sortedCols, sortedValues := Unzip(sorted);
    StableSortPermutes(entries);
    StableSortSorted(entries);
    SortedRows(sorted);
    forall i | 0 <= i < |sortedRows| ensures sortedRows[i] < m {
      assert sorted[i] in multiset(entries);
    }
    var indptr := BuildIndptrFilled(sortedRows, m);
    csr := Csr(m, n, indptr[..], sortedCols, sortedValues);
  }

  /** The corrected body: windows cut at line starts, each tokenized whole. */
  method LoadBodyAligned(rest: seq<Byte>, threads: nat, schedule: seq<nat>) returns (csr: Csr)
    requires AlignedDefined(rest, threads) && IsSchedule(schedule, threads)
    ensures csr == LoadedAligned(rest, threads, schedule)
  {
    var dimsEnd := IndexOf(rest, Newline);
    var dimsLine := rest[..dimsEnd];
    var body := rest[dimsEnd + 1..];
    var dims := Split(dimsLine, Space);
    var m := ParseUsize(Chars(dims[0]));
    var n := ParseUsize(Chars(dims[1]));

    var windows := SplitAligned(body, threads);
    ghost var results := WindowResults(body, threads);
    EveryLineOnce(body, threads);
    MergedRowsBelow(results, schedule, m);
    forall i | 0 <= i < threads ensures TextParses(windows[i]) && results[i] == TextEntries(windows[i]) {
      WindowParses(body, threads, i);
      assert windows[i] == Window(body, threads, i);
      assert results[i] == WindowEntries(body, threads, i);
    }
    var matrix := RunAlignedTasks(windows, results, schedule);
    csr := AssembleFilled(matrix, m, n);
  }

  /** The corrected loader: the same header checks, then `LoadBodyAligned`. */
  method LoadMatrixMarketAligned(buffer: seq<Byte>, threads: nat, schedule: seq<nat>) returns (r: Outcome<Csr>)
    requires threads >= 1 && Newline in buffer && IsSchedule(schedule, threads)
    requires HeaderAccepted(Header(buffer)) ==> AlignedDefined(AfterHeader(buffer), threads)
    ensures !HasBanner(Header(buffer)) ==> r == Err(InvalidBanner)
    ensures HasBanner(Header(buffer)) && !HasDescriptors(Header(buffer)) ==> r == Err(UnsupportedType)
    ensures HeaderAccepted(Header(buffer)) ==> r == Ok(LoadedAligned(AfterHeader(buffer), threads, schedule))
  {
    var headerEnd := IndexOf(buffer, Newline);
    var header := buffer[..headerEnd];
    var body := buffer[headerEnd + 1..];
    if !ContainsSequence(header, Ascii("%%MatrixMarket")) {
      return Err(InvalidBanner);
    }
    if !ContainsSequence(header, Ascii("matrix")) || !ContainsSequence(header, Ascii("coordinate"))
      || !ContainsSequence(header, Ascii("real")) {
      return Err(UnsupportedType);
    }
    var csr := LoadBodyAligned(body, threads, schedule);
    r := Ok(csr);
  }

  /** The filled assembly of any entries with rows below `m` is a CSR
      matrix: its entries are the given ones sorted by `(row, col)`, and
      `indptr` starts at 0, ends at the number of entries, never decreases,
      and entry `i` lies in its row's slice. */
  lemma AssembledFilledIsCsr(entries: seq<Entry>, m: nat, n: nat)
    requires m >= 1 && RowsBelow(entries, m)
    ensures RowsBelow(StableSort(entries), m)
    ensures var csr := AssembledFilled(entries, m, n);
            var sorted := StableSort(entries);
      SortedByKey(sorted) && multiset(sorted) == multiset(entries) &&
      csr.m == m && csr.n == n && csr.indices == Cols(sorted) && csr.data == Values(sorted) &&
      |csr.indptr| == m + 1 && csr.indptr[0] == 0 && csr.indptr[m] == |sorted| &&
      (forall k, l :: 0 <= k <= l <= m ==> csr.indptr[k] <= csr.indptr[l]) &&
      (forall i :: 0 <= i < |sorted| ==> csr.indptr[sorted[i].row] <= i < csr.indptr[sorted[i].row + 1])
  {
    var sorted := StableSort(entries);
    StableSortSorted(entries);
    StableSortPermutes(entries);
    SortedRows(sorted);
    var rows := Rows(sorted);
    forall i | 0 <= i < |rows| ensures rows[i] < m {
      assert sorted[i] in multiset(entries);
    }
    RowPointersAreCsr(rows, m);
  }

  /** The corrected loader stores every entry line of the file exactly once,
      whatever the number of tasks and the order they take the lock in:
      its result is the filled assembly of entries that are a permutation of
      the body's entry lines, all in rows below `m`. */
  lemma LoadedAlignedMeaning(rest: seq<Byte>, threads: nat, schedule: seq<nat>)
    requires AlignedDefined(rest, threads) && IsSchedule(schedule, threads)
    ensures TasksBelow(schedule, threads)
    ensures var merged := Merged(WindowResults(AfterHeader(rest), threads), schedule);
            var (m, n, _) := Dims(Header(rest));
      multiset(merged) == multiset(TextEntries(AfterHeader(rest))) && RowsBelow(merged, m) &&
      LoadedAligned(rest, threads, schedule) == AssembledFilled(merged, m, n)
  {
    var body := AfterHeader(rest);
    var results := WindowResults(body, threads);
    ScheduleBounds(schedule, threads);
    EveryLineOnce(body, threads);
    MergedPermutes(results, schedule);
    MergedRowsBelow(results, schedule, Dims(Header(rest)).0);
  }

  /** With the tasks taking the lock in spawn order, the corrected loader
      builds the same matrix whatever the number of tasks. */
  lemma AlignedThreadsInvariant(rest: seq<Byte>, t1: nat, t2: nat)
    requires AlignedDefined(rest, t1) && AlignedDefined(rest, t2)
    ensures IsSchedule(Range(t1), t1) && IsSchedule(Range(t2), t2)
    ensures LoadedAligned(rest, t1, Range(t1)) == LoadedAligned(rest, t2, Range(t2))
  {
    var body := AfterHeader(rest);
    var r1, r2 := WindowResults(body, t1), WindowResults(body, t2);
    MergedInOrder(r1, t1);
    MergedInOrder(r2, t2);
    assert r1[..t1] == r1;
    assert r2[..t2] == r2;
    EveryLineOnce(body, t1);
    EveryLineOnce(body, t2);
  }

  /** For any numbers of tasks and any lock orders, the corrected loader
      builds the same shape, `indptr` and column indices: the tasks can only
      reorder the values of entries that share a coordinate. */
  lemma AlignedShapeIndependent(rest: seq<Byte>, t1: nat, s1: seq<nat>, t2: nat, s2: seq<nat>)
    requires AlignedDefined(rest, t1) && AlignedDefined(rest, t2)
    requires IsSchedule(s1, t1) && IsSchedule(s2, t2)
    ensures LoadedAligned(rest, t1, s1).m == LoadedAligned(rest, t2, s2).m
    ensures LoadedAligned(rest, t1, s1).n == LoadedAligned(rest, t2, s2).n
    ensures LoadedAligned(rest, t1, s1).indptr == LoadedAligned(rest, t2, s2).indptr
    ensures LoadedAligned(rest, t1, s1).indices == LoadedAligned(rest, t2, s2).indices
  {
    var body := AfterHeader(rest);
    LoadedAlignedMeaning(rest, t1, s1);
    LoadedAlignedMeaning(rest, t2, s2);
    var a, b := Merged(WindowResults(body, t1), s1), Merged(WindowResults(body, t2), s2);
    SortedKeysIgnoreOrder(a, b);
    SameKeys(StableSort(a), StableSort(b));
  }
}
