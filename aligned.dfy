/** Chunk boundaries moved forward to the next line start, so that every
    line of the entry body falls into exactly one chunk and each chunk can be
    tokenized whole. This is the partition `process_chunk`'s comment "Skip any
    partial line at the beginning of the chunk" calls for; the partition of
    src/main.rs:69-76 together with `process_chunk` instead drops the first
    line of every chunk and cuts lines that straddle a boundary. */
module Aligned {
  import opened Bytes
  import opened Slices
  import opened Numbers
  import opened Coordinates
  import opened Partition
  import opened Tokenizer

  /** The first line start at or after `p`. */
  function NextLineStart(body: seq<Byte>, p: nat): (q: nat)
    requires p <= |body|
    ensures p <= q <= |body| && LineStart(body, q)
    decreases |body| - p
  {
    if LineStart(body, p) then p else NextLineStart(body, p + 1)
  }

  /** No line starts between `p` and `NextLineStart(body, p)`. */
  lemma {:induction false} NextLineStartIsFirst(body: seq<Byte>, p: nat, r: nat)
    requires p <= |body| && p <= r < NextLineStart(body, p)
    ensures !LineStart(body, r)
    decreases |body| - p
  {
    if r > p {
      NextLineStartIsFirst(body, p + 1, r);
    }
  }

  /** A later starting point finds no earlier line start. */
  lemma {:induction false} NextLineStartMonotone(body: seq<Byte>, p: nat, p': nat)
    requires p <= p' <= |body|
    ensures NextLineStart(body, p) <= NextLineStart(body, p')
    decreases |body| - p
  {
    if p < p' && !LineStart(body, p) {
      NextLineStartMonotone(body, p + 1, p');
    }
  }

  /** Where window `i` begins: the first line start at or after `i * chunk_size`,
      and the end of the body after the last window. */
  function Bound(body: seq<Byte>, threads: nat, i: nat): nat
    requires threads >= 1 && i <= threads
  {
    if i == threads then |body|
    else
      ChunkLayout(|body|, threads, i);
      NextLineStart(body, ChunkStart(|body|, threads, i))
  }

  /** The bounds start at 0, never decrease, stay within the body and are
      line starts. */
  lemma BoundsOrdered(body: seq<Byte>, threads: nat, i: nat)
    requires threads >= 1 && i < threads
    ensures Bound(body, threads, 0) == 0
    ensures Bound(body, threads, i) <= Bound(body, threads, i + 1) <= |body|
    ensures LineStart(body, Bound(body, threads, i)) && LineStart(body, Bound(body, threads, i + 1))
  {
    ChunkLayout(|body|, threads, 0);
    ChunkLayout(|body|, threads, i);
    if i + 1 < threads {
      ChunkLayout(|body|, threads, i + 1);
      NextLineStartMonotone(body, ChunkStart(|body|, threads, i), ChunkStart(|body|, threads, i + 1));
    }
  }

  function Window(body: seq<Byte>, threads: nat, i: nat): seq<Byte>
    requires threads >= 1 && i < threads
  {
    BoundsOrdered(body, threads, i);
    body[Bound(body, threads, i)..Bound(body, threads, i + 1)]
  }

  /** A text that parses still parses when cut at a line start. */
  lemma PrefixTextParses(body: seq<Byte>, q: nat)
    requires q <= |body| && LineStart(body, q) && TextParses(body)
    ensures TextParses(body[..q])
  {
    TextEntriesSplit(body, q);
  }

  /** Window `i` is cut from the body at line starts, so it parses when the
      body does. */
  lemma WindowParses(body: seq<Byte>, threads: nat, i: nat)
    requires threads >= 1 && i < threads && TextParses(body)
    ensures TextParses(Window(body, threads, i))
  {
    BoundsOrdered(body, threads, i);
    var lo, hi := Bound(body, threads, i), Bound(body, threads, i + 1);
    PrefixTextParses(body, hi);
    var prefix := body[..hi];
    assert LineStart(prefix, lo) by {
      if 0 < lo < hi {
        assert prefix[lo - 1] == body[lo - 1];
      }
    }
    TextEntriesSplit(prefix, lo);
    assert prefix[lo..] == Window(body, threads, i);
  }

  /** What task `i` produces over its aligned window. */
  function WindowEntries(body: seq<Byte>, threads: nat, i: nat): seq<Entry>
    requires threads >= 1 && i < threads && TextParses(body)
  {
    WindowParses(body, threads, i);
    TextEntries(Window(body, threads, i))
  }

  /** Appending window `i` to the text before it appends its entries. */
  lemma WindowStep(body: seq<Byte>, threads: nat, i: nat)
    requires threads >= 1 && i < threads && TextParses(body)
    ensures TextParses(body[..Bound(body, threads, i)]) && TextParses(body[..Bound(body, threads, i + 1)])
    ensures TextEntries(body[..Bound(body, threads, i + 1)])
         == TextEntries(body[..Bound(body, threads, i)]) + WindowEntries(body, threads, i)
  {
    BoundsOrdered(body, threads, i);
    var lo, hi := Bound(body, threads, i), Bound(body, threads, i + 1);
    PrefixTextParses(body, lo);
    PrefixTextParses(body, hi);
    var prefix := body[..hi];
    assert LineStart(prefix, lo) by {
      if 0 < lo < hi {
        assert prefix[lo - 1] == body[lo - 1];
      }
    }
    TextEntriesSplit(prefix, lo);
    assert prefix[..lo] == body[..lo];
    assert prefix[lo..] == Window(body, threads, i);
  }

  /** What each task produces, in task order. */
  function WindowResults(body: seq<Byte>, threads: nat): (results: seq<seq<Entry>>)
    requires threads >= 1 && TextParses(body)
    ensures |results| == threads
  {
    seq(threads, i requires 0 <= i < threads => WindowEntries(body, threads, i))
  }

  /** The first `k` windows' entries, in window order, are the entries of the
      body up to the end of window `k - 1`. */
  lemma {:induction false} WindowsCover(body: seq<Byte>, threads: nat, k: nat)
    requires threads >= 1 && k <= threads && TextParses(body)
    ensures TextParses(body[..Bound(body, threads, k)])
    ensures Concat(WindowResults(body, threads)[..k]) == TextEntries(body[..Bound(body, threads, k)])
  {
    var results := WindowResults(body, threads);
    if k == 0 {
      BoundsOrdered(body, threads, 0);
      EmptyText();
      assert body[..0] == [];
      assert results[..0] == [];
    } else {
      WindowsCover(body, threads, k - 1);
      WindowStep(body, threads, k - 1);
      var init, last := results[..k - 1], results[k - 1];
      assert last == WindowEntries(body, threads, k - 1);
      PrefixSnoc(results, k);
      ConcatSnoc(init, last);
    }
  }

  /** Every line of the body is tokenized exactly once: the windows' entries,
      in window order, are the entries of the whole body. */
  lemma EveryLineOnce(body: seq<Byte>, threads: nat)
    requires threads >= 1 && TextParses(body)
    ensures Concat(WindowResults(body, threads)) == TextEntries(body)
  {
    WindowsCover(body, threads, threads);
    assert body[..|body|] == body;
    assert WindowResults(body, threads)[..threads] == WindowResults(body, threads);
  }

  /** The scan that moves a cut forward while it would split a line. */
  method SkipToLineStart(body: seq<Byte>, p: nat) returns (q: nat)
    requires p <= |body|
    ensures q == NextLineStart(body, p)
  {
    q := p;
    while q < |body| && q > 0 && body[q - 1] != Newline
      invariant p <= q <= |body|
      invariant NextLineStart(body, q) == NextLineStart(body, p)
      decreases |body| - q
    {
      q := q + 1;
    }
  }

  /** The end of window `i`: `|body|` for the last window, otherwise
      `(i + 1) * chunk_size` moved forward to the next line start. */
  method WindowEnd(body: seq<Byte>, threads: nat, i: nat) returns (end: nat)
    requires threads >= 1 && i < threads
    ensures end == Bound(body, threads, i + 1)
  {
    end := |body|;
    if i < threads - 1 {
      ChunkLayout(|body|, threads, i + 1);
      end := SkipToLineStart(body, (i + 1) * (|body| / threads));
    }
  }

  /** Appending window `i` keeps the windows so far equal to `Window` and
      their concatenation a prefix of the body. */
  lemma WindowsSnoc(body: seq<Byte>, threads: nat, windows: seq<seq<Byte>>, i: nat)
    requires threads >= 1 && i < threads && |windows| == i
    requires forall k :: 0 <= k < i ==> windows[k] == Window(body, threads, k)
    requires Concat(windows) == body[..Bound(body, threads, i)]
    ensures var next := windows + [Window(body, threads, i)];
      (forall k :: 0 <= k < i + 1 ==> next[k] == Window(body, threads, k)) &&
      Concat(next) == body[..Bound(body, threads, i + 1)]
  {
    BoundsOrdered(body, threads, i);
    var window := Window(body, threads, i);
    var next := windows + [window];
    forall k | 0 <= k < i + 1 ensures next[k] == Window(body, threads, k) {
      if k < i {
        assert next[k] == windows[k];
      }
    }
    ConcatSnoc(windows, window);
    PrefixThenSlice(body, Bound(body, threads, i), Bound(body, threads, i + 1));
  }

  /** The corrected partition loop: the end of every window but the last is
      moved forward from `(i + 1) * chunk_size` to the next line start. */
  method SplitAligned(body: seq<Byte>, threads: nat) returns (windows: seq<seq<Byte>>)
    requires threads >= 1
    ensures |windows| == threads
    ensures forall i :: 0 <= i < threads ==> windows[i] == Window(body, threads, i)
    ensures Concat(windows) == body
  {
    windows := [];
    var start := 0;
    BoundsOrdered(body, threads, 0);
    for i := 0 to threads
      invariant |windows| == i
      invariant start == Bound(body, threads, i)
      invariant forall k :: 0 <= k < i ==> windows[k] == Window(body, threads, k)
      invariant Concat(windows) == body[..start]
    {
      BoundsOrdered(body, threads, i);
      var end := WindowEnd(body, threads, i);
      var window := body[start..end];
      assert window == Window(body, threads, i);
      WindowsSnoc(body, threads, windows, i);
      windows := windows + [window];
      start := end;
    }
    assert body[..start] == body by { PrefixThenSlice(body, 0, |body|); }
  }

  /** With one task, the first line of the body is never tokenized: the
      single chunk is the whole body and its first piece is skipped. */
  lemma AsWrittenDropsFirstLine(line: seq<Byte>, rest: seq<Byte>)
    requires Newline !in line && EntryTokensParse(Tokens(line))
    requires TextParses(rest)
    ensures var body := line + [Newline] + rest;
      Chunk(body, 1, 0) == body && ChunkParses(Chunk(body, 1, 0)) &&
      ChunkEntries(Chunk(body, 1, 0)) == TextEntries(rest)
    ensures LineParses(line) && LineEntry(line) == [ParseEntry(Tokens(line))]
    ensures TextParses(line + [Newline] + rest)
    ensures TextEntries(line + [Newline] + rest) == LineEntry(line) + TextEntries(rest)
  {
    var body := line + [Newline] + rest;
    var lines := TextLines(rest);
    ChunkLayout(|body|, 1, 0);
    SplitAround(line, Newline, rest);
    assert IndexOf(line, Newline) == |line|;
    assert Split(line, Newline) == [line];
    assert TextLines(body) == [line] + lines;
    assert ChunkLines(body) == lines;
    LineEntriesSingle(line);
    LineEntriesAppend([line], lines);
    calc {
      TextEntries(body);
      LineEntries([line] + lines);
      LineEntries([line]) + LineEntries(lines);
      LineEntry(line) + TextEntries(rest);
    }
  }

  /** A line of three space-free pieces joined by single spaces has those three tokens. */
  lemma TokensOfThree(line: seq<Byte>, a: seq<Byte>, b: seq<Byte>, c: seq<Byte>)
    requires Space !in a && Space !in b && Space !in c
    requires line == a + [Space] + b + [Space] + c
    ensures Tokens(line) == [Chars(a), Chars(b), Chars(c)]
  {
    SplitAround(a + [Space] + b, Space, c);
    SplitAround(a, Space, b);
    assert IndexOf(a, Space) == |a|;
    assert IndexOf(b, Space) == |b|;
    assert IndexOf(c, Space) == |c|;
  }

  /** `"1"` is the 1-based index 1. */
  lemma IndexOne()
    ensures IsIndexToken("1") && ParseUsize("1") == 1
  {
    assert Magnitude("1") == "1";
    assert "1"[..0] == "";
  }

  /** A run of digits is an `f64` token. */
  lemma DigitTokenIsFloat(s: string)
    requires |s| > 0 && AllDigits(s)
    ensures IsFloatToken(s)
  {
    assert s[0] != '+' && s[0] != '-';
    assert ExponentStart(s) == |s|;
    assert PointAt(s) == |s|;
    assert s[..|s|] == s;
  }

  /** The entry line `1 1 <digits>`. */
  lemma CellOneOneLine(digits: seq<Byte>)
    requires |digits| > 0 && forall i :: 0 <= i < |digits| ==> 48 <= digits[i] <= 57
    ensures LineParses([49, 32, 49, 32] + digits)
    ensures LineEntry([49, 32, 49, 32] + digits) == [Entry(0, 0, Value(Chars(digits)))]
  {
    TokensOfThree([49, 32, 49, 32] + digits, [49], [49], digits);
    assert Chars([49]) == "1";
    IndexOne();
    DigitTokenIsFloat(Chars(digits));
  }

  /** An empty line has one (empty) token and yields nothing. */
  lemma EmptyLine()
    ensures LineParses([]) && LineEntry([]) == []
  {
    assert IndexOf([], Space) == 0;
    assert Split([], Space) == [[]];
  }

  /** `\n` followed by a line is an empty line and that line. */
  lemma SplitAfterEmptyLine(line: seq<Byte>)
    requires Newline !in line
    ensures Split([Newline] + line, Newline) == [[], line]
  {
    SplitAround([], Newline, line);
    assert [] + [Newline] + line == [Newline] + line;
    assert IndexOf(line, Newline) == |line|;
    assert IndexOf([], Newline) == 0;
  }

  /** A text that is an empty line followed by `line`. */
  lemma AfterEmptyLine(line: seq<Byte>)
    requires Newline !in line && LineParses(line)
    ensures TextParses([Newline] + line) && TextEntries([Newline] + line) == LineEntry(line)
    ensures ChunkParses([Newline] + line) && ChunkEntries([Newline] + line) == LineEntry(line)
  {
    SplitAfterEmptyLine(line);
    EmptyLine();
    LineEntriesSingle([]);
    LineEntriesSingle(line);
    LineEntriesAppend([[]], [line]);
    assert [[]] + [line] == Split([Newline] + line, Newline);
    assert [line] == Split([Newline] + line, Newline)[1..];
  }

  /** A line that straddles a chunk boundary is cut in two: the body
      `\n1 1 2500000` (an empty line, then one entry) split between two tasks
      gives chunk 0 = `\n1 1 2`, whose second piece is read as the entry
      `(0, 0, 2)`, and chunk 1 = `500000`, whose only piece is skipped. The
      file holds the entry `(0, 0, 2500000)`. */
  lemma AsWrittenCutsBoundaryLine()
    ensures var body: seq<Byte> := [10, 49, 32, 49, 32, 50, 53, 48, 48, 48, 48, 48];
      ChunkParses(Chunk(body, 2, 0)) && ChunkEntries(Chunk(body, 2, 0)) == [Entry(0, 0, Value("2"))] &&
      ChunkParses(Chunk(body, 2, 1)) && ChunkEntries(Chunk(body, 2, 1)) == [] &&
      TextParses(body) && TextEntries(body) == [Entry(0, 0, Value("2500000"))]
  {
    var body: seq<Byte> := [10, 49, 32, 49, 32, 50, 53, 48, 48, 48, 48, 48];
    ChunkLayout(12, 2, 0);
    ChunkLayout(12, 2, 1);
    assert Chunk(body, 2, 0) == [Newline] + ([49, 32, 49, 32] + [50]);
    assert Chunk(body, 2, 1) == [53, 48, 48, 48, 48, 48];
    CellOneOneLine([50]);
    AfterEmptyLine([49, 32, 49, 32] + [50]);
    NoNewlineNoEntries([53, 48, 48, 48, 48, 48]);
    SpelledDigits();
    BoundaryLineWhole();
  }

  /** Read as whole lines, the body of `AsWrittenCutsBoundaryLine` holds one
      entry, `(0, 0, 2500000)`. */
  lemma BoundaryLineWhole()
    ensures var body: seq<Byte> := [10, 49, 32, 49, 32, 50, 53, 48, 48, 48, 48, 48];
      TextParses(body) && TextEntries(body) == [Entry(0, 0, Value("2500000"))]
  {
    var body: seq<Byte> := [10, 49, 32, 49, 32, 50, 53, 48, 48, 48, 48, 48];
    assert body == [Newline] + ([49, 32, 49, 32] + [50, 53, 48, 48, 48, 48, 48]);
    CellOneOneLine([50, 53, 48, 48, 48, 48, 48]);
    AfterEmptyLine([49, 32, 49, 32] + [50, 53, 48, 48, 48, 48, 48]);
    SpelledDigits();
  }

  /** The text of the two value tokens of `AsWrittenCutsBoundaryLine`. */
  lemma SpelledDigits()
    ensures Chars([50]) == "2"
    ensures Chars([50, 53, 48, 48, 48, 48, 48]) == "2500000"
  {
  }

  /** The empty token is not an `f64`: `"".parse::<f64>()` fails. */
  lemma EmptyIsNotFloat()
    ensures !IsFloatToken("")
  {
    assert ExponentStart("") == 0;
    assert PointAt("") == 0;
  }

  /** A cut right after the second space of an entry line panics a task: the
      body `\n1 1 56789` split between two tasks gives chunk 0 = `\n1 1 `,
      whose second piece `1 1 ` has three tokens, the last one empty, so
      `parse::<f64>().unwrap()` panics and task 0 leaves nothing; chunk 1 =
      `56789` has no piece after its first. No entry reaches the matrix,
      although the file holds the entry `(0, 0, 56789)`. */
  lemma AsWrittenPanicDropsChunk()
    ensures var body: seq<Byte> := [10, 49, 32, 49, 32, 53, 54, 55, 56, 57];
      !ChunkParses(Chunk(body, 2, 0)) && TaskEntries(Chunk(body, 2, 0)) == [] &&
      ChunkParses(Chunk(body, 2, 1)) && TaskEntries(Chunk(body, 2, 1)) == [] &&
      TextParses(body) && TextEntries(body) == [Entry(0, 0, Value("56789"))]
  {
    var body: seq<Byte> := [10, 49, 32, 49, 32, 53, 54, 55, 56, 57];
    ChunkLayout(10, 2, 0);
    ChunkLayout(10, 2, 1);
    var fragment: seq<Byte> := [49, 32, 49, 32];
    assert Chunk(body, 2, 0) == [Newline] + fragment;
    assert Chunk(body, 2, 1) == [53, 54, 55, 56, 57];
    SplitAfterEmptyLine(fragment);
    assert ChunkLines(Chunk(body, 2, 0)) == [fragment];
    TokensOfThree(fragment, [49], [49], []);
    assert Chars([]) == "";
    EmptyIsNotFloat();
    assert !LineParses(ChunkLines(Chunk(body, 2, 0))[0]);
    NoNewlineNoEntries([53, 54, 55, 56, 57]);
    CutLineWhole();
  }

  /** Read as whole lines, the body of `AsWrittenPanicDropsChunk` holds one
      entry, `(0, 0, 56789)`. */
  lemma CutLineWhole()
    ensures var body: seq<Byte> := [10, 49, 32, 49, 32, 53, 54, 55, 56, 57];
      TextParses(body) && TextEntries(body) == [Entry(0, 0, Value("56789"))]
  {
    var body: seq<Byte> := [10, 49, 32, 49, 32, 53, 54, 55, 56, 57];
    assert body == [Newline] + ([49, 32, 49, 32] + [53, 54, 55, 56, 57]);
    CellOneOneLine([53, 54, 55, 56, 57]);
    AfterEmptyLine([49, 32, 49, 32] + [53, 54, 55, 56, 57]);
    SpelledValue();
  }

  /** The text of the value token of `AsWrittenPanicDropsChunk`. */
  lemma SpelledValue()
    ensures Chars([53, 54, 55, 56, 57]) == "56789"
  {
  }

  /** The aligned windows keep the line that panics a task as written: with
      two tasks on the body of `AsWrittenPanicDropsChunk` no window panics and
      the entry `(0, 0, 56789)` is stored. */
  lemma AlignedKeepsCutLine()
    ensures var body: seq<Byte> := [10, 49, 32, 49, 32, 53, 54, 55, 56, 57];
      TextParses(body) &&
      (forall i :: 0 <= i < 2 ==> TextParses(Window(body, 2, i))) &&
      Concat(WindowResults(body, 2)) == [Entry(0, 0, Value("56789"))]
  {
    var body: seq<Byte> := [10, 49, 32, 49, 32, 53, 54, 55, 56, 57];
    CutLineWhole();
    WholeLinesEverywhere(body, 2);
  }

  /** A body whose lines all tokenize: no window panics, and the windows
      together yield the body's entries. */
  lemma WholeLinesEverywhere(body: seq<Byte>, threads: nat)
    requires threads >= 1 && TextParses(body)
    ensures forall i :: 0 <= i < threads ==> TextParses(Window(body, threads, i))
    ensures Concat(WindowResults(body, threads)) == TextEntries(body)
  {
    forall i | 0 <= i < threads ensures TextParses(Window(body, threads, i)) {
      WindowParses(body, threads, i);
    }
    EveryLineOnce(body, threads);
  }
}
