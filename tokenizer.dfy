/** `process_chunk` (src/main.rs:10-27): the per-chunk tokenizer, and the
    three lock-step vectors it appends to. */
module Tokenizer {
  import opened Bytes
  import opened Slices
  import opened Numbers
  import opened Coordinates

  /** The space-separated tokens of one line, as text. */
  function Tokens(line: seq<Byte>): (tokens: seq<string>)
    ensures |tokens| == |Split(line, Space)|
  {
    var pieces := Split(line, Space);
    seq(|pieces|, i requires 0 <= i < |pieces| => Chars(pieces[i]))
  }

  /** A line can be tokenized without panic: if it has exactly three tokens,
      they parse. Other lines are skipped, whatever they hold. */
  predicate LineParses(line: seq<Byte>)
  {
    |Tokens(line)| == 3 ==> EntryTokensParse(Tokens(line))
  }

  predicate LinesParse(lines: seq<seq<Byte>>)
  {
    forall i {:trigger LineParses(lines[i])} :: 0 <= i < |lines| ==> LineParses(lines[i])
  }

  /** What one line yields: its entry if it has exactly three tokens,
      nothing otherwise. */
  function LineEntry(line: seq<Byte>): seq<Entry>
    requires LineParses(line)
  {
    if |Tokens(line)| == 3 then [ParseEntry(Tokens(line))] else []
  }

  /** The entries a sequence of lines yields, in line order. */
  function LineEntries(lines: seq<seq<Byte>>): seq<Entry>
    requires LinesParse(lines)
  {
    if lines == [] then []
    else LineEntries(lines[..|lines| - 1]) + LineEntry(lines[|lines| - 1])
  }

  /** Entries of concatenated line sequences are the concatenated entries. */
  lemma {:induction false} LineEntriesAppend(a: seq<seq<Byte>>, b: seq<seq<Byte>>)
    requires LinesParse(a) && LinesParse(b)
    ensures LinesParse(a + b)
    ensures LineEntries(a + b) == LineEntries(a) + LineEntries(b)
    decreases |b|
  {
    assert LinesParse(a + b) by {
      forall i | 0 <= i < |a + b| ensures LineParses((a + b)[i]) {
        if i >= |a| { assert (a + b)[i] == b[i - |a|]; }
      }
    }
    if b != [] {
      var b' := b[..|b| - 1];
      PrefixParses(b, |b| - 1);
      assert (a + b)[..|a + b| - 1] == a + b';
      assert (a + b)[|a + b| - 1] == b[|b| - 1];
      LineEntriesAppend(a, b');
      assert b[..|b| - 1] == b';
    } else {
      assert a + b == a;
    }
  }

  /** A single line yields what the line yields. */
  lemma LineEntriesSingle(line: seq<Byte>)
    requires LineParses(line)
    ensures LinesParse([line]) && LineEntries([line]) == LineEntry(line)
  {
    var lines := [line];
    assert lines[..0] == [] && lines[0] == line;
    assert LineEntries(lines) == LineEntries(lines[..0]) + LineEntry(line);
  }

  lemma PrefixParses(lines: seq<seq<Byte>>, k: nat)
    requires LinesParse(lines) && k <= |lines|
    ensures LinesParse(lines[..k])
  {
    forall i | 0 <= i < k ensures LineParses(lines[..k][i]) { assert lines[..k][i] == lines[i]; }
  }

  /** One more line, at most one more entry. */
  lemma LineEntriesSnoc(lines: seq<seq<Byte>>, i: nat)
    requires LinesParse(lines) && i < |lines|
    ensures LinesParse(lines[..i]) && LinesParse(lines[..i + 1]) && LineParses(lines[i])
    ensures LineEntries(lines[..i + 1]) == LineEntries(lines[..i]) + LineEntry(lines[i])
  {
    PrefixParses(lines, i);
    PrefixParses(lines, i + 1);
    assert lines[..i + 1][..i] == lines[..i];
    assert lines[..i + 1][i] == lines[i];
  }

  /** What one line yields, computed from its pieces as the source does:
      the entry `(row - 1, col - 1, value)` of a line with three pieces,
      whose index tokens then parse, and nothing for any other line. */
  lemma LineStep(line: seq<Byte>)
    requires LineParses(line)
    ensures var pieces := Split(line, Space);
      |pieces| == 3 ==>
        IsIndexToken(Chars(pieces[0])) && IsIndexToken(Chars(pieces[1])) &&
        LineEntry(line) == [Entry(ParseUsize(Chars(pieces[0])) - 1, ParseUsize(Chars(pieces[1])) - 1, Value(Chars(pieces[2])))]
    ensures |Split(line, Space)| != 3 ==> LineEntry(line) == []
  {
    var pieces, tokens := Split(line, Space), Tokens(line);
    if |pieces| == 3 {
      assert tokens[0] == Chars(pieces[0]) && tokens[1] == Chars(pieces[1]) && tokens[2] == Chars(pieces[2]);
    }
  }

  lemma EmptyAppend<T>(s: seq<T>)
    ensures [] + s == s
  {
  }

  lemma AppendAssociates<T>(a: seq<T>, b: seq<T>, c: seq<T>)
    ensures (a + b) + c == a + (b + c)
  {
  }

  /** Every entry comes from a line with three tokens, read as
      `(row - 1, col - 1, value)`. */
  lemma {:induction false} LineEntriesFromLines(lines: seq<seq<Byte>>, e: Entry)
    requires LinesParse(lines)
    requires e in LineEntries(lines)
    ensures exists i :: 0 <= i < |lines| && LineEntry(lines[i]) == [e]
  {
    var last := lines[|lines| - 1];
    var init := lines[..|lines| - 1];
    PrefixParses(lines, |lines| - 1);
    if e in LineEntries(init) {
      LineEntriesFromLines(init, e);
      var i :| 0 <= i < |init| && LineEntry(init[i]) == [e];
      assert init[i] == lines[i];
    } else {
      assert LineParses(lines[|lines| - 1]);
    }
  }

  /** At most one entry per line. */
  lemma {:induction false} LineEntriesLength(lines: seq<seq<Byte>>)
    requires LinesParse(lines)
    ensures |LineEntries(lines)| <= |lines|
  {
    if lines != [] {
      PrefixParses(lines, |lines| - 1);
      LineEntriesLength(lines[..|lines| - 1]);
    }
  }

  /** The pieces of a chunk that `process_chunk` looks at: all but the first. */
  function ChunkLines(chunk: seq<Byte>): seq<seq<Byte>>
  {
    Split(chunk, Newline)[1..]
  }

  predicate ChunkParses(chunk: seq<Byte>)
  {
    LinesParse(ChunkLines(chunk))
  }

  /** What `process_chunk` appends for one chunk. */
  function ChunkEntries(chunk: seq<Byte>): seq<Entry>
    requires ChunkParses(chunk)
  {
    LineEntries(ChunkLines(chunk))
  }

  /** What one task of src/main.rs:79-89 leaves in the shared vectors: the
      chunk's entries, or nothing when a `parse(..).unwrap()` panics. The
      panic unwinds the task before it takes the lock, its own vectors are
      dropped, and `join_all` discards the task's error. */
  function TaskEntries(chunk: seq<Byte>): seq<Entry>
  {
    if ChunkParses(chunk) then ChunkEntries(chunk) else []
  }

  /** A chunk without a newline yields nothing: its only piece is skipped. */
  lemma NoNewlineNoEntries(chunk: seq<Byte>)
    requires Newline !in chunk
    ensures ChunkParses(chunk) && ChunkEntries(chunk) == []
  {
    assert IndexOf(chunk, Newline) == |chunk|;
  }

  /** Every line of a text, the first included. */
  function TextLines(text: seq<Byte>): seq<seq<Byte>>
  {
    Split(text, Newline)
  }

  predicate TextParses(text: seq<Byte>)
  {
    LinesParse(TextLines(text))
  }

  /** The entries of a whole text: one per line with three tokens. */
  function TextEntries(text: seq<Byte>): seq<Entry>
    requires TextParses(text)
  {
    LineEntries(TextLines(text))
  }

  /** A position where a line begins (or the text ends). */
  predicate LineStart(text: seq<Byte>, q: nat)
  {
    q == 0 || q == |text| || (0 < q < |text| && text[q - 1] == Newline)
  }

  lemma LinesParseParts(a: seq<seq<Byte>>, b: seq<seq<Byte>>)
    requires LinesParse(a + b)
    ensures LinesParse(a) && LinesParse(b)
  {
    forall i | 0 <= i < |a| ensures LineParses(a[i]) { assert (a + b)[i] == a[i]; }
    forall i | 0 <= i < |b| ensures LineParses(b[i]) { assert (a + b)[|a| + i] == b[i]; }
  }

  /** The empty text is one empty line, which yields nothing. */
  lemma EmptyText()
    ensures TextLines([]) == [[]]
    ensures TextParses([]) && TextEntries([]) == []
  {
    assert |Tokens([])| == 1;
    assert LineEntries([[]]) == LineEntries([]) + LineEntry([]);
  }

  /** The lines on either side of a newline. */
  lemma TextEntriesAround(x: seq<Byte>, y: seq<Byte>)
    requires TextParses(x + [Newline] + y)
    ensures TextParses(x + [Newline]) && TextParses(y)
    ensures TextEntries(x + [Newline] + y) == TextEntries(x + [Newline]) + TextEntries(y)
  {
    var sx, sy := Split(x, Newline), Split(y, Newline);
    EmptyText();
    var empty: seq<seq<Byte>> := [[]];
    assert x + [Newline] == x + [Newline] + [];
    SplitAround(x, Newline, y);
    SplitAround(x, Newline, []);
    assert TextLines(x + [Newline] + y) == sx + sy;
    assert TextLines(x + [Newline]) == sx + empty;
    LinesParseParts(sx, sy);
    LineEntriesAppend(sx, sy);
    LineEntriesAppend(sx, empty);
    var ex := LineEntries(sx);
    assert LineEntries(empty) == [];
    assert ex + [] == ex;
    calc {
      TextEntries(x + [Newline] + y);
      LineEntries(sx + sy);
      ex + LineEntries(sy);
      (ex + LineEntries(empty)) + LineEntries(sy);
      LineEntries(sx + empty) + LineEntries(sy);
      TextEntries(x + [Newline]) + TextEntries(y);
    }
  }

  /** Cutting a text where a line begins cuts its entries in the same place. */
  lemma TextEntriesSplit(text: seq<Byte>, q: nat)
    requires q <= |text| && LineStart(text, q)
    requires TextParses(text)
    ensures TextParses(text[..q]) && TextParses(text[q..])
    ensures TextEntries(text) == TextEntries(text[..q]) + TextEntries(text[q..])
  {
    EmptyText();
    if q == 0 {
      assert text[..q] == [] && text[q..] == text;
    } else if q == |text| {
      assert text[..q] == text && text[q..] == [];
    } else {
      var x, y := text[..q - 1], text[q..];
      assert text == x + [Newline] + y;
      assert text[..q] == x + [Newline];
      TextEntriesAround(x, y);
    }
  }

  /** The `(Vec<usize>, Vec<usize>, Vec<f64>)` triple: three vectors that
      grow together, one slot per entry. */
  class Triplets {
    var rows: seq<nat>
    var cols: seq<nat>
    var values: seq<Value>

    ghost predicate Valid()
      reads this
    {
      |rows| == |cols| == |values|
    }

    /** The entries held, slot by slot. */
    function Entries(): seq<Entry>
      reads this
      requires Valid()
    {
      Zip(rows, cols, values)
    }

    /** `(Vec::new(), Vec::new(), Vec::new())` */
    constructor ()
      ensures Valid() && Entries() == []
    {
      rows, cols, values := [], [], [];
    }

    /** Appends one entry to all three vectors. */
    method Push(row: nat, col: nat, value: Value)
      requires Valid()
      modifies this
      ensures Valid()
      ensures Entries() == old(Entries()) + [Entry(row, col, value)]
    {
      rows := rows + [row];
      cols := cols + [col];
      values := values + [value];
    }

    /** The body of the loop of `process_chunk` for one line: split at single
        spaces and, when there are exactly three pieces, read
        `(row - 1, col - 1, value)` from them. */
    static method TokenizeLine(line: seq<Byte>) returns (found: bool, e: Entry)
      requires LineParses(line)
      ensures found <==> |Split(line, Space)| == 3
      ensures LineEntry(line) == if found then [e] else []
    {
      var entry := Split(line, Space);
      found := |entry| == 3;
      if found {
        LineStep(line);
        e := Entry(ParseUsize(Chars(entry[0])) - 1, ParseUsize(Chars(entry[1])) - 1, Value(Chars(entry[2])));
      } else {
        e := Entry(0, 0, Value([]));
      }
    }

    /** `process_chunk`: splits the chunk at `\n`, drops the first piece, and
        pushes `(row - 1, col - 1, value)` for every later piece that splits at
        single spaces into exactly three tokens. What was there before stays. */
    method ProcessChunk(chunk: seq<Byte>)
      requires Valid() && ChunkParses(chunk)
      modifies this
      ensures Valid()
      ensures Entries() == old(Entries()) + ChunkEntries(chunk)
    {
      var lines := Split(chunk, Newline);
      ghost var taken := ChunkLines(chunk);
      var i := 1;
      while i < |lines|
        invariant 1 <= i <= |lines|
        invariant Valid()
        invariant LinesParse(taken[..i - 1])
        invariant Entries() == old(Entries()) + LineEntries(taken[..i - 1])
      {
        assert taken[i - 1] == lines[i];
        LineEntriesSnoc(taken, i - 1);
        var found, e := TokenizeLine(lines[i]);
        ghost var before := LineEntries(taken[..i - 1]);
        if found {
          Push(e.row, e.col, e.value);
          AppendAssociates(old(Entries()), before, [e]);
        } else {
          assert before + [] == before;
        }
        i := i + 1;
      }
      assert taken[..i - 1] == taken;
    }

    /** `process_chunk` without the `lines.next()` that drops the first
        piece: every line of `text` is tokenized. */
    method ProcessLines(text: seq<Byte>)
      requires Valid() && TextParses(text)
      modifies this
      ensures Valid()
      ensures Entries() == old(Entries()) + TextEntries(text)
    {
      var lines := Split(text, Newline);
      var i := 0;
      while i < |lines|
        invariant 0 <= i <= |lines|
        invariant Valid()
        invariant LinesParse(lines[..i])
        invariant Entries() == old(Entries()) + LineEntries(lines[..i])
      {
        LineEntriesSnoc(lines, i);
        var found, e := TokenizeLine(lines[i]);
        ghost var before := LineEntries(lines[..i]);
        if found {
          Push(e.row, e.col, e.value);
          AppendAssociates(old(Entries()), before, [e]);
        } else {
          assert before + [] == before;
        }
        i := i + 1;
      }
      assert lines[..i] == lines;
    }

    /** `matrix.0.extend(rows); matrix.1.extend(cols); matrix.2.extend(values)` */
    method Extend(other: Triplets)
      requires Valid() && other.Valid() && other != this
      modifies this
      ensures Valid()
      ensures Entries() == old(Entries()) + other.Entries()
    {
      rows := rows + other.rows;
      cols := cols + other.cols;
      values := values + other.values;
    }
  }
}
