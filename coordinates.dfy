/** One coordinate entry `row col value` of the file body, and how its three
    tokens are read. Shared by the parallel loader and the simple reader. */
module Coordinates {
  import opened Numbers

  /** A matrix value, kept as the text of its `f64` token: its floating-point
      reading is not modelled. */
  datatype Value = Value(token: string)

  /** A parsed entry with 0-based row and column. */
  datatype Entry = Entry(row: nat, col: nat, value: Value)

  /** A 1-based index token that can be parsed and decremented without panic. */
  predicate IsIndexToken(s: string)
  {
    IsUsizeToken(s) && ParseUsize(s) >= 1
  }

  /** The three tokens of an entry line parse: two 1-based indices and an `f64`. */
  predicate EntryTokensParse(tokens: seq<string>)
  {
    |tokens| == 3 && IsIndexToken(tokens[0]) && IsIndexToken(tokens[1]) && IsFloatToken(tokens[2])
  }

  /** `(row - 1, col - 1, value)`: the entry an entry line stands for. */
  function ParseEntry(tokens: seq<string>): (e: Entry)
    requires EntryTokensParse(tokens)
    ensures e.row + 1 == ParseUsize(tokens[0]) && e.col + 1 == ParseUsize(tokens[1])
    ensures e.value.token == tokens[2]
  {
    Entry(ParseUsize(tokens[0]) - 1, ParseUsize(tokens[1]) - 1, Value(tokens[2]))
  }

  /** `rows.zip(cols).zip(values)`: the entries the three parallel vectors hold. */
  function Zip(rows: seq<nat>, cols: seq<nat>, values: seq<Value>): (entries: seq<Entry>)
    requires |rows| == |cols| == |values|
    ensures |entries| == |rows|
    ensures forall i :: 0 <= i < |rows| ==> entries[i] == Entry(rows[i], cols[i], values[i])
  {
    if rows == [] then []
    else Zip(rows[..|rows| - 1], cols[..|cols| - 1], values[..|values| - 1])
         + [Entry(rows[|rows| - 1], cols[|cols| - 1], values[|values| - 1])]
  }

  function Rows(entries: seq<Entry>): (rows: seq<nat>)
    ensures |rows| == |entries| && forall i :: 0 <= i < |entries| ==> rows[i] == entries[i].row
  {
    seq(|entries|, i requires 0 <= i < |entries| => entries[i].row)
  }

  function Cols(entries: seq<Entry>): (cols: seq<nat>)
    ensures |cols| == |entries| && forall i :: 0 <= i < |entries| ==> cols[i] == entries[i].col
  {
    seq(|entries|, i requires 0 <= i < |entries| => entries[i].col)
  }

  function Values(entries: seq<Entry>): (values: seq<Value>)
    ensures |values| == |entries| && forall i :: 0 <= i < |entries| ==> values[i] == entries[i].value
  {
    seq(|entries|, i requires 0 <= i < |entries| => entries[i].value)
  }

  /** Zipping the three projections of a sequence of entries gives it back. */
  lemma ZipProjections(entries: seq<Entry>)
    ensures Zip(Rows(entries), Cols(entries), Values(entries)) == entries
  {
  }

  /** Projecting zipped vectors gives each vector back. */
  lemma ProjectionsOfZip(rows: seq<nat>, cols: seq<nat>, values: seq<Value>)
    requires |rows| == |cols| == |values|
    ensures Rows(Zip(rows, cols, values)) == rows
    ensures Cols(Zip(rows, cols, values)) == cols
    ensures Values(Zip(rows, cols, values)) == values
  {
  }
}
