/** The sequential reader and writer of src/basic.rs. The file is read one
    line at a time with `read_line`; here the input is the sequence of lines
    those calls return, and a call past the end of the file reads the empty
    string. The program checks the banner and the dimension line, reads
    exactly `nz` entry lines into three `nz`-long vectors with 0-based
    indices, and writes the matrix back out with 1-based indices. Each
    `exit(1)` is a `Failure`; each `unwrap` that can panic on the input is a
    precondition. The output is the sequence of lines passed to `writeln!`,
    and the `{:.19}` formatting of a value is the parameter `format`. */
module Basic {
  import opened Slices
  import opened Numbers
  import opened Coordinates

  /** `char::is_whitespace`: the characters with the Unicode White_Space
      property. */
  predicate IsWhitespace(c: char)
  {
    ('\t' <= c <= '\r') || c == ' ' || c == '\U{85}' || c == '\U{A0}' || c == '\U{1680}'
    || ('\U{2000}' <= c <= '\U{200A}') || c == '\U{2028}' || c == '\U{2029}' || c == '\U{202F}'
    || c == '\U{205F}' || c == '\U{3000}'
  }

  /** A non-empty run of non-whitespace characters. */
  predicate IsWord(w: string)
  {
    |w| > 0 && forall i :: 0 <= i < |w| ==> !IsWhitespace(w[i])
  }

  /** Index of the first whitespace character, or `|s|`. */
  function WordEnd(s: string): (k: nat)
    ensures k <= |s|
    ensures forall j :: 0 <= j < k ==> !IsWhitespace(s[j])
    ensures k < |s| ==> IsWhitespace(s[k])
  {
    if s == [] || IsWhitespace(s[0]) then 0 else 1 + WordEnd(s[1..])
  }

  /** `str::split_whitespace`: the maximal runs of non-whitespace characters,
      in order. */
  function Words(s: string): seq<string>
    decreases |s|
  {
    if s == [] then []
    else if IsWhitespace(s[0]) then Words(s[1..])
    else
      var k := WordEnd(s);
      [s[..k]] + Words(s[k..])
  }

  /** `str::trim_start` */
  function TrimStart(s: string): string
  {
    if s != [] && IsWhitespace(s[0]) then TrimStart(s[1..]) else s
  }

  /** `str::trim_end` */
  function TrimEnd(s: string): string
  {
    if s != [] && IsWhitespace(s[|s| - 1]) then TrimEnd(s[..|s| - 1]) else s
  }

  /** `str::trim` */
  function Trim(s: string): string
  {
    TrimEnd(TrimStart(s))
  }

  /** Every piece `split_whitespace` yields is a word. */
  lemma {:induction false} WordsAreWords(s: string)
    ensures forall i :: 0 <= i < |Words(s)| ==> IsWord(Words(s)[i])
    decreases |s|
  {
    if s != [] {
      if IsWhitespace(s[0]) {
        WordsAreWords(s[1..]);
      } else {
        var k := WordEnd(s);
        WordsAreWords(s[k..]);
        assert IsWord(s[..k]);
      }
    }
  }

  /** A whitespace character at the end adds no word. */
  lemma {:induction false} WordsTrailingSpace(s: string, c: char)
    requires IsWhitespace(c)
    ensures Words(s + [c]) == Words(s)
    decreases |s|
  {
    var t := s + [c];
    if s == [] {
      assert t[1..] == [];
    } else if IsWhitespace(s[0]) {
      assert t[1..] == s[1..] + [c];
      WordsTrailingSpace(s[1..], c);
    } else {
      var k := WordEnd(s);
      assert WordEnd(t) == k by {
        WordEndPrefix(t, s);
      }
      assert t[..k] == s[..k];
      assert t[k..] == s[k..] + [c];
      WordsTrailingSpace(s[k..], c);
    }
  }

  /** The first word of `s + tail` ends where that of `s` does, when `s`
      already holds a whitespace character or `tail` starts with one. */
  lemma {:induction false} WordEndPrefix(t: string, s: string)
    requires |s| <= |t| && t[..|s|] == s
    requires WordEnd(s) < |s| || (|s| < |t| && IsWhitespace(t[|s|]))
    ensures WordEnd(t) == WordEnd(s)
    decreases |s|
  {
    if s != [] && !IsWhitespace(s[0]) {
      assert t[1..][..|s| - 1] == s[1..];
      WordEndPrefix(t[1..], s[1..]);
    }
  }

  /** Leading whitespace adds no word. */
  lemma {:induction false} WordsTrimStart(s: string)
    ensures Words(TrimStart(s)) == Words(s)
    decreases |s|
  {
    if s != [] && IsWhitespace(s[0]) {
      WordsTrimStart(s[1..]);
    }
  }

  /** Trailing whitespace adds no word. */
  lemma {:induction false} WordsTrimEnd(s: string)
    ensures Words(TrimEnd(s)) == Words(s)
    decreases |s|
  {
    if s != [] && IsWhitespace(s[|s| - 1]) {
      var init := s[..|s| - 1];
      WordsTrimEnd(init);
      assert s == init + [s[|s| - 1]];
      WordsTrailingSpace(init, s[|s| - 1]);
    }
  }

  /** The `trim()` before `split_whitespace()` never changes the tokens. */
  lemma TrimIsRedundant(s: string)
    ensures Words(Trim(s)) == Words(s)
  {
    WordsTrimEnd(TrimStart(s));
    WordsTrimStart(s);
  }

  /** A word followed by a space and more text reads as that word first. */
  lemma WordsAfterWord(w: string, rest: string)
    requires IsWord(w)
    ensures Words(w + " " + rest) == [w] + Words(rest)
  {
    var t := w + " " + rest;
    assert t[..|w|] == w;
    assert t[|w|] == ' ';
    WordEndWhole(w);
    WordEndPrefix(t, w);
    assert t[..|w|] == w;
    assert t[|w|..][1..] == rest;
    assert Words(t[|w|..]) == Words(rest);
  }

  lemma WordEndWhole(w: string)
    requires IsWord(w)
    ensures WordEnd(w) == |w|
  {
  }

  /** A word on its own reads as itself. */
  lemma WordsOfWord(w: string)
    requires IsWord(w)
    ensures Words(w) == [w]
  {
    WordEndWhole(w);
    assert w[..|w|] == w;
    assert w[|w|..] == [];
  }

  /** `s.starts_with(prefix)` */
  predicate StartsWith(s: string, prefix: string)
  {
    |prefix| <= |s| && s[..|prefix|] == prefix
  }

  /** Why the program stops with `exit(1)`. */
  datatype Failure =
    | BadBanner                          // "Could not process Matrix Market banner."
    | UnsupportedType(banner: string)    // "Unsupported Matrix Market type: [<trimmed banner>]"
    | BadDimensions                      // "Error reading matrix dimensions"
    | BadEntry                           // "Error reading matrix entry"

  datatype Outcome = Failed(failure: Failure) | Written(output: seq<string>)

  /** What the `k`-th `read_line` call leaves in its buffer. */
  function LineAt(lines: seq<string>, k: nat): string
  {
    if k < |lines| then lines[k] else ""
  }

  /** The banner must begin with `%%MatrixMarket`. */
  predicate BannerAccepted(banner: string)
  {
    StartsWith(banner, "%%MatrixMarket")
  }

  /** The banner must contain the three descriptor words, anywhere. */
  predicate Supported(banner: string)
  {
    ContainsSequence(banner, "matrix") && ContainsSequence(banner, "coordinate")
      && ContainsSequence(banner, "real")
  }

  /** The tokens of the dimension line. */
  function DimWords(lines: seq<string>): seq<string>
  {
    Words(Trim(LineAt(lines, 1)))
  }

  /** The tokens of entry line `i` (0-based). */
  function EntryWords(lines: seq<string>, i: nat): seq<string>
  {
    Words(Trim(LineAt(lines, 2 + i)))
  }

  /** The first of the `nz` entry lines, at or after `i`, that does not have
      three tokens, or `nz` when they all do. */
  function FirstBadFrom(lines: seq<string>, nz: nat, i: nat): (k: nat)
    requires i <= nz
    ensures i <= k <= nz
    ensures forall j :: i <= j < k ==> |EntryWords(lines, j)| == 3
    ensures k < nz ==> |EntryWords(lines, k)| != 3
    decreases nz - i
  {
    if i == nz || |EntryWords(lines, i)| != 3 then i else FirstBadFrom(lines, nz, i + 1)
  }

  /** The entry line the read loop stops at, or `nz` when it reads them all. */
  function FirstBadEntry(lines: seq<string>, nz: nat): (k: nat)
    ensures k <= nz
    ensures forall j :: 0 <= j < k ==> |EntryWords(lines, j)| == 3
    ensures k < nz ==> |EntryWords(lines, k)| != 3
  {
    FirstBadFrom(lines, nz, 0)
  }

  /** The entry lines the loop gets to parse all do: two 1-based indices
      (row or column 0 would underflow on `- 1`) and an `f64`. */
  predicate EntriesParse(lines: seq<string>, nz: nat)
  {
    forall i {:trigger EntryParses(lines, i)} :: 0 <= i < FirstBadEntry(lines, nz) ==> EntryParses(lines, i)
  }

  /** Entry line `i` has two 1-based indices and an `f64`. */
  predicate EntryParses(lines: seq<string>, i: nat)
  {
    EntryTokensParse(EntryWords(lines, i))
  }

  /** The dimension tokens parse once there are three of them. */
  predicate DimsParse(dims: seq<string>)
  {
    |dims| == 3 ==> IsUsizeToken(dims[0]) && IsUsizeToken(dims[1]) && IsUsizeToken(dims[2])
  }

  /** The program runs to its end or to an `exit(1)` without panic. */
  predicate RunDefined(lines: seq<string>)
  {
    var banner := LineAt(lines, 0);
    var dims := DimWords(lines);
    BannerAccepted(banner) && Supported(banner) ==>
      DimsParse(dims) && (|dims| == 3 ==> EntriesParse(lines, ParseUsize(dims[2])))
  }

  /** Entry line `i` as stored: `(row - 1, col - 1, value)`. */
  function EntryOf(lines: seq<string>, i: nat): Entry
    requires EntryParses(lines, i)
  {
    ParseEntry(EntryWords(lines, i))
  }

  /** `"{} {} {:.19}"` with the indices made 1-based again. */
  function EntryText(e: Entry, format: Value -> string): string
  {
    Decimal(e.row + 1) + " " + Decimal(e.col + 1) + " " + format(e.value)
  }

  /** The lines written: the trimmed banner, `m n nz`, one line per entry. */
  function Output(banner: string, m: nat, n: nat, nz: nat, entries: seq<Entry>, format: Value -> string)
    : (out: seq<string>)
    ensures |out| == |entries| + 2
  {
    [Trim(banner), Decimal(m) + " " + Decimal(n) + " " + Decimal(nz)]
      + seq(|entries|, i requires 0 <= i < |entries| => EntryText(entries[i], format))
  }

  /** The first `i` entries read, in input order. */
  function ReadPrefix(lines: seq<string>, nz: nat, i: nat): (entries: seq<Entry>)
    requires i <= FirstBadEntry(lines, nz) && EntriesParse(lines, nz)
    ensures |entries| == i
  {
    if i == 0 then [] else ReadPrefix(lines, nz, i - 1) + [EntryOf(lines, i - 1)]
  }

  /** The `nz` entries read, in input order. */
  function ReadEntries(lines: seq<string>, nz: nat): (entries: seq<Entry>)
    requires FirstBadEntry(lines, nz) == nz && EntriesParse(lines, nz)
    ensures |entries| == nz
  {
    ReadPrefix(lines, nz, nz)
  }

  /** Entry `k` of a prefix is the entry of line `k`. */
  lemma {:induction false} ReadPrefixAt(lines: seq<string>, nz: nat, i: nat, k: nat)
    requires i <= FirstBadEntry(lines, nz) && EntriesParse(lines, nz) && k < i
    ensures EntryParses(lines, k) && ReadPrefix(lines, nz, i)[k] == EntryOf(lines, k)
  {
    assert EntryParses(lines, k);
    var before := ReadPrefix(lines, nz, i - 1);
    assert ReadPrefix(lines, nz, i) == before + [EntryOf(lines, i - 1)];
    if k < i - 1 {
      ReadPrefixAt(lines, nz, i - 1, k);
      assert (before + [EntryOf(lines, i - 1)])[k] == before[k];
    }
  }

  /** One pass of the read loop: the tokens of entry line `i` and, when
      there are three, the entry they stand for. */
  method ReadEntry(lines: seq<string>, nz: nat, i: nat) returns (ok: bool, e: Entry)
    requires i < nz && i <= FirstBadEntry(lines, nz) && EntriesParse(lines, nz)
    ensures ok <==> i < FirstBadEntry(lines, nz)
    ensures ok ==> EntryParses(lines, i) && e == EntryOf(lines, i)
  {
    var line := LineAt(lines, 2 + i);
    var entry := Words(Trim(line));
    assert entry == EntryWords(lines, i);
    if |entry| != 3 {
      return false, Entry(0, 0, Value(""));
    }
    assert EntryParses(lines, i);
    ok, e := true, Entry(ParseUsize(entry[0]) - 1, ParseUsize(entry[1]) - 1, Value(entry[2]));
  }

  /** `rows[i] = ...; cols[i] = ...; values[i] = ...;` */
  method Store(rows: array<nat>, cols: array<nat>, values: array<Value>, i: nat, e: Entry,
               ghost read: seq<Entry>)
    requires rows != cols && i < rows.Length && i < cols.Length && i < values.Length
    requires rows[..i] == Rows(read) && cols[..i] == Cols(read) && values[..i] == Values(read)
    modifies rows, cols, values
    ensures rows[..i + 1] == Rows(read + [e]) && cols[..i + 1] == Cols(read + [e])
    ensures values[..i + 1] == Values(read + [e])
  {
    rows[i] := e.row;
    cols[i] := e.col;
    values[i] := e.value;
    assert rows[..i + 1] == rows[..i] + [e.row];
    assert cols[..i + 1] == cols[..i] + [e.col];
    assert values[..i + 1] == values[..i] + [e.value];
    ProjectionsSnoc(read, e);
  }

  /** The read loop of src/basic.rs:49-65: `nz`-long vectors filled by
      index; a line without exactly three tokens stops the program. */
  method ReadMatrix(lines: seq<string>, nz: nat)
    returns (ok: bool, rows: array<nat>, cols: array<nat>, values: array<Value>)
    requires EntriesParse(lines, nz)
    ensures rows.Length == nz && cols.Length == nz && values.Length == nz
    ensures ok <==> FirstBadEntry(lines, nz) == nz
    ensures ok ==> rows[..] == Rows(ReadEntries(lines, nz)) && cols[..] == Cols(ReadEntries(lines, nz))
    ensures ok ==> values[..] == Values(ReadEntries(lines, nz))
  {
    rows := new nat[nz](_ => 0);
    cols := new nat[nz](_ => 0);
    values := new Value[nz](_ => Value("0.0"));
    ghost var read: seq<Entry> := [];
    for i := 0 to nz
      invariant i <= FirstBadEntry(lines, nz)
      invariant read == ReadPrefix(lines, nz, i)
      invariant rows[..i] == Rows(read)
      invariant cols[..i] == Cols(read)
      invariant values[..i] == Values(read)
    {
      var found, e := ReadEntry(lines, nz, i);
      if !found {
        ok := false;
        return;
      }
      Store(rows, cols, values, i, e, read);
      read := read + [e];
    }
    ok := true;
    assert rows[..] == rows[..nz] && cols[..] == cols[..nz] && values[..] == values[..nz];
  }

  /** Appending an entry appends its row, column and value. */
  lemma ProjectionsSnoc(read: seq<Entry>, e: Entry)
    ensures Rows(read + [e]) == Rows(read) + [e.row]
    ensures Cols(read + [e]) == Cols(read) + [e.col]
    ensures Values(read + [e]) == Values(read) + [e.value]
  {
  }

  /** The write loop of src/basic.rs:71-75. */
  method WriteMatrix(banner: string, m: nat, n: nat, nz: nat, rows: array<nat>, cols: array<nat>,
                     values: array<Value>, format: Value -> string)
    returns (out: seq<string>)
    requires rows.Length == nz && cols.Length == nz && values.Length == nz
    ensures out == Output(banner, m, n, nz, Zip(rows[..], cols[..], values[..]), format)
  {
    ghost var entries := Zip(rows[..], cols[..], values[..]);
    out := [Trim(banner), Decimal(m) + " " + Decimal(n) + " " + Decimal(nz)];
    for i := 0 to nz
      invariant |out| == i + 2
      invariant out == Output(banner, m, n, nz, entries[..i], format)
    {
      assert entries[i] == Entry(rows[i], cols[i], values[i]);
      out := out + [Decimal(rows[i] + 1) + " " + Decimal(cols[i] + 1) + " " + format(values[i])];
    }
    assert entries[..nz] == entries;
  }

  /** `main` after the arguments and the file: the banner is checked for its
      prefix, then for the descriptor words, then the dimension line for
      exactly three tokens, then each of the `nz` entry lines for exactly
      three tokens; only then is anything written. */
  method Run(lines: seq<string>, format: Value -> string) returns (r: Outcome)
    requires RunDefined(lines)
    ensures !BannerAccepted(LineAt(lines, 0)) ==> r == Failed(BadBanner)
    ensures BannerAccepted(LineAt(lines, 0)) && !Supported(LineAt(lines, 0)) ==>
      r == Failed(UnsupportedType(Trim(LineAt(lines, 0))))
    ensures BannerAccepted(LineAt(lines, 0)) && Supported(LineAt(lines, 0)) && |DimWords(lines)| != 3 ==>
      r == Failed(BadDimensions)
    ensures BannerAccepted(LineAt(lines, 0)) && Supported(LineAt(lines, 0)) && |DimWords(lines)| == 3 ==>
      var dims := DimWords(lines);
      var nz := ParseUsize(dims[2]);
      (FirstBadEntry(lines, nz) < nz ==> r == Failed(BadEntry)) &&
      (FirstBadEntry(lines, nz) == nz ==>
         r == Written(Output(LineAt(lines, 0), ParseUsize(dims[0]), ParseUsize(dims[1]), nz,
                             ReadEntries(lines, nz), format)))
  {
    var banner := LineAt(lines, 0);
    if !StartsWith(banner, "%%MatrixMarket") {
      return Failed(BadBanner);
    }
    if !ContainsSequence(banner, "matrix") || !ContainsSequence(banner, "coordinate")
      || !ContainsSequence(banner, "real") {
      return Failed(UnsupportedType(Trim(banner)));
    }
    var line := LineAt(lines, 1);
    var dims := Words(Trim(line));
    if |dims| != 3 {
      return Failed(BadDimensions);
    }
    var m := ParseUsize(dims[0]);
    var n := ParseUsize(dims[1]);
    var nz := ParseUsize(dims[2]);
    var ok, rows, cols, values := ReadMatrix(lines, nz);
    if !ok {
      return Failed(BadEntry);
    }
    ZipProjections(ReadEntries(lines, nz));
    var out := WriteMatrix(banner, m, n, nz, rows, cols, values, format);
    r := Written(out);
  }

  /** A line of two words and a rest, joined by single spaces, reads as
      those two words followed by the words of the rest. */
  lemma TwoWordsThenRest(a: string, b: string, rest: string)
    requires IsWord(a) && IsWord(b)
    ensures Words(Trim(a + " " + b + " " + rest)) == [a, b] + Words(rest)
  {
    TrimIsRedundant(a + " " + b + " " + rest);
    assert a + " " + b + " " + rest == a + " " + (b + " " + rest);
    WordsAfterWord(a, b + " " + rest);
    WordsAfterWord(b, rest);
  }

  /** Three words joined by single spaces read as those three words. */
  lemma ThreeWords(a: string, b: string, c: string)
    requires IsWord(a) && IsWord(b) && IsWord(c)
    ensures Words(Trim(a + " " + b + " " + c)) == [a, b, c]
  {
    TwoWordsThenRest(a, b, c);
    WordsOfWord(c);
  }

  /** A decimal numeral is a word. */
  lemma DigitsAreWord(s: string)
    requires |s| > 0 && AllDigits(s)
    ensures IsWord(s)
  {
    forall i | 0 <= i < |s| ensures !IsWhitespace(s[i]) {
      assert IsDigit(s[i]);
    }
  }

  /** An entry line as written reads back, through the same `trim` and
      `split_whitespace`, as the two 1-based indices of the entry followed
      by the tokens of its formatted value. */
  lemma EntryTextReadsBack(e: Entry, format: Value -> string)
    requires e.row + 1 <= UsizeMax && e.col + 1 <= UsizeMax
    ensures var words := Words(Trim(EntryText(e, format)));
      words == [Decimal(e.row + 1), Decimal(e.col + 1)] + Words(format(e.value)) &&
      IsIndexToken(words[0]) && ParseUsize(words[0]) - 1 == e.row &&
      IsIndexToken(words[1]) && ParseUsize(words[1]) - 1 == e.col
  {
    DigitsAreWord(Decimal(e.row + 1));
    DigitsAreWord(Decimal(e.col + 1));
    TwoWordsThenRest(Decimal(e.row + 1), Decimal(e.col + 1), format(e.value));
    ParseDecimal(e.row + 1);
    ParseDecimal(e.col + 1);
  }

  /** The dimension line as written reads back as `m`, `n` and `nz`. */
  lemma DimsTextReadsBack(m: nat, n: nat, nz: nat)
    requires m <= UsizeMax && n <= UsizeMax && nz <= UsizeMax
    ensures var words := Words(Trim(Decimal(m) + " " + Decimal(n) + " " + Decimal(nz)));
      words == [Decimal(m), Decimal(n), Decimal(nz)] &&
      IsUsizeToken(words[0]) && IsUsizeToken(words[1]) && IsUsizeToken(words[2]) &&
      ParseUsize(words[0]) == m && ParseUsize(words[1]) == n && ParseUsize(words[2]) == nz
  {
    DigitsAreWord(Decimal(m));
    DigitsAreWord(Decimal(n));
    DigitsAreWord(Decimal(nz));
    ThreeWords(Decimal(m), Decimal(n), Decimal(nz));
    ParseDecimal(m);
    ParseDecimal(n);
    ParseDecimal(nz);
  }

  /** Writing reproduces the input's indices: the `i`-th written entry line
      reads back as the numbers on the `i`-th entry line read. */
  lemma WrittenIndicesMatchInput(lines: seq<string>, nz: nat, i: nat, banner: string, m: nat, n: nat,
                                 format: Value -> string)
    requires FirstBadEntry(lines, nz) == nz && EntriesParse(lines, nz) && i < nz
    ensures EntryParses(lines, i)
    ensures var words := Words(Trim(Output(banner, m, n, nz, ReadEntries(lines, nz), format)[2 + i]));
      var input := EntryWords(lines, i);
      |words| >= 2 && IsUsizeToken(words[0]) && IsUsizeToken(words[1]) &&
      ParseUsize(words[0]) == ParseUsize(input[0]) && ParseUsize(words[1]) == ParseUsize(input[1])
  {
    ReadPrefixAt(lines, nz, nz, i);
    var e := EntryOf(lines, i);
    assert Output(banner, m, n, nz, ReadEntries(lines, nz), format)[2 + i] == EntryText(e, format);
    EntryTextReadsBack(e, format);
  }
}
