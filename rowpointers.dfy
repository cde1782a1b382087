/** The CSR row-pointer builder of src/main.rs:116-126, which walks the sorted
    rows once and back-fills `indptr[current_row + 1]` with the running count
    each time the row number moves on. */
module RowPointers {

  /** Number of rows below `k`: the CSR meaning of `indptr[k]`. */
  function CountBelow(rows: seq<nat>, k: nat): nat
  {
    if rows == [] then 0 else (if rows[0] < k then 1 else 0) + CountBelow(rows[1..], k)
  }

  /** Length of the longest prefix of `rows` whose rows are all at most `k`:
      the count the walk has reached when it first moves past row `k`. */
  function PrefixAtMost(rows: seq<nat>, k: nat): nat
  {
    if rows == [] || rows[0] > k then 0 else 1 + PrefixAtMost(rows[1..], k)
  }

  /** The largest row seen (0 for no rows): where `current_row` ends up. */
  function MaxRow(rows: seq<nat>): (top: nat)
    ensures forall i :: 0 <= i < |rows| ==> rows[i] <= top
    ensures rows != [] ==> top in rows
  {
    if rows == [] then 0
    else
      var m := MaxRow(rows[..|rows| - 1]);
      if rows[|rows| - 1] > m then rows[|rows| - 1] else m
  }

  predicate NonDecreasing(rows: seq<nat>)
  {
    forall i, j :: 0 <= i < j < |rows| ==> rows[i] <= rows[j]
  }

  /** The prefix ends exactly where the first row above `k` stands. */
  lemma {:induction false} PrefixAtMostIs(rows: seq<nat>, k: nat, j: nat)
    requires j <= |rows|
    requires forall i :: 0 <= i < j ==> rows[i] <= k
    requires j < |rows| ==> rows[j] > k
    ensures PrefixAtMost(rows, k) == j
  {
    if j > 0 {
      PrefixAtMostIs(rows[1..], k, j - 1);
    }
  }

  /** In sorted rows the rows at most `k` form a prefix, so its length is the
      number of rows below `k + 1`. */
  lemma {:induction false} PrefixIsCount(rows: seq<nat>, k: nat)
    requires NonDecreasing(rows)
    ensures PrefixAtMost(rows, k) == CountBelow(rows, k + 1)
  {
    if rows != [] {
      PrefixIsCount(rows[1..], k);
      if rows[0] > k {
        ZeroBelow(rows, k + 1);
      }
    }
  }

  lemma {:induction false} ZeroBelow(rows: seq<nat>, k: nat)
    requires forall i :: 0 <= i < |rows| ==> rows[i] >= k
    ensures CountBelow(rows, k) == 0
  {
    if rows != [] {
      ZeroBelow(rows[1..], k);
    }
  }

  /** Counting rows below a larger bound counts no fewer, and counting below
      a bound above every row counts them all. */
  lemma {:induction false} CountBelowMonotone(rows: seq<nat>, k: nat, l: nat)
    requires k <= l
    ensures CountBelow(rows, k) <= CountBelow(rows, l) <= |rows|
  {
    if rows != [] {
      CountBelowMonotone(rows[1..], k, l);
    }
  }

  lemma {:induction false} CountBelowAll(rows: seq<nat>, k: nat)
    requires forall i :: 0 <= i < |rows| ==> rows[i] < k
    ensures CountBelow(rows, k) == |rows|
  {
    if rows != [] {
      CountBelowAll(rows[1..], k);
    }
  }

  /** The walk's `current_row` after one more row, and the rows it has passed. */
  lemma MaxRowStep(rows: seq<nat>, j: nat)
    requires j < |rows|
    ensures forall i :: 0 <= i < j ==> rows[i] <= MaxRow(rows[..j])
    ensures MaxRow(rows[..j + 1]) == if rows[j] > MaxRow(rows[..j]) then rows[j] else MaxRow(rows[..j])
  {
    assert rows[..j + 1][..j] == rows[..j];
    forall i | 0 <= i < j ensures rows[i] <= MaxRow(rows[..j]) {
      assert rows[..j][i] == rows[i];
    }
  }

  /** `indptr` once the walk has back-filled slots `1..reached`: slot `k`
      holds the count the walk had when it moved past row `k - 1`, and every
      other slot still holds its initial 0. */
  function Walked(rows: seq<nat>, reached: nat, m: nat): (indptr: seq<nat>)
    ensures |indptr| == m + 1
  {
    seq(m + 1, k requires 0 <= k <= m => if 1 <= k <= reached then PrefixAtMost(rows, k - 1) else 0)
  }

  /** Back-filling slot `reached + 1` with the count reached there. */
  lemma WalkedStep(rows: seq<nat>, reached: nat, m: nat)
    requires reached < m
    ensures Walked(rows, reached, m)[reached + 1 := PrefixAtMost(rows, reached)] == Walked(rows, reached + 1, m)
  {
  }

  /** The `indptr` vector the source builds, slot by slot: 0 at slot 0, the
      walk's count on moving past row `k - 1` at each slot `k` up to
      `current_row + 1`, and the initial 0 in every slot after that. */
  function IndptrAsWritten(rows: seq<nat>, m: nat): (indptr: seq<nat>)
    ensures |indptr| == m + 1
  {
    Walked(rows, MaxRow(rows) + 1, m)
  }

  /** src/main.rs:116-126. Rows at or above `m` (or `m == 0`) index past the
      end of `indptr` and panic, so they are excluded; sortedness is not
      needed for the walk to finish, only for the counts to mean anything
      (`AsWrittenCountsUpToTop`). */
  method BuildIndptr(rows: seq<nat>, m: nat) returns (indptr: array<nat>)
    requires m >= 1
    requires forall i :: 0 <= i < |rows| ==> rows[i] < m
    ensures fresh(indptr)
    ensures indptr[..] == IndptrAsWritten(rows, m)
  {
    indptr := new nat[m + 1](_ => 0);
    var currentRow := 0;
    var count := 0;
    assert indptr[..] == Walked(rows, 0, m);
    for j := 0 to |rows|
      invariant count == j
      invariant currentRow == MaxRow(rows[..j]) && currentRow < m
      invariant indptr[..] == Walked(rows, currentRow, m)
    {
      var row := rows[j];
      ghost var start := currentRow;
      MaxRowStep(rows, j);
      while currentRow < row
        invariant start <= currentRow < m
        invariant currentRow <= row || currentRow == start
        invariant indptr[..] == Walked(rows, currentRow, m)
      {
        PrefixAtMostIs(rows, currentRow, j);
        WalkedStep(rows, currentRow, m);
        indptr[currentRow + 1] := count;
        currentRow := currentRow + 1;
      }
      count := count + 1;
    }
    assert rows[..|rows|] == rows;
    PrefixAtMostIs(rows, currentRow, |rows|);
    WalkedStep(rows, currentRow, m);
    indptr[currentRow + 1] := count;
  }

  /** Up to slot `max_row + 1` the walk's counts are the CSR counts. */
  lemma AsWrittenCountsUpToTop(rows: seq<nat>, m: nat)
    requires NonDecreasing(rows)
    ensures forall k :: 0 <= k <= m && k <= MaxRow(rows) + 1 ==>
      IndptrAsWritten(rows, m)[k] == CountBelow(rows, k)
  {
    ZeroBelow(rows, 0);
    forall k | 1 <= k <= m && k <= MaxRow(rows) + 1
      ensures IndptrAsWritten(rows, m)[k] == CountBelow(rows, k)
    {
      PrefixIsCount(rows, k - 1);
    }
  }

  /** The row pointers a CSR matrix with these (sorted) rows needs:
      `indptr[k]` is the number of entries in rows before `k`. */
  function RowPointers(rows: seq<nat>, m: nat): (indptr: seq<nat>)
    ensures |indptr| == m + 1
    ensures forall k :: 0 <= k <= m ==> indptr[k] == CountBelow(rows, k)
  {
    seq(m + 1, k requires 0 <= k <= m => CountBelow(rows, k))
  }

  /** In sorted rows, no more entries lie before row `rows[i]` than `i`. */
  lemma {:induction false} CountBelowAtMost(rows: seq<nat>, k: nat, i: nat)
    requires NonDecreasing(rows) && i < |rows| && rows[i] >= k
    ensures CountBelow(rows, k) <= i
  {
    if i == 0 {
      ZeroBelow(rows, k);
    } else {
      CountBelowAtMost(rows[1..], k, i - 1);
    }
  }

  /** In sorted rows, entry `i` and every entry before it lie below `k` when
      `rows[i]` does. */
  lemma {:induction false} CountBelowAtLeast(rows: seq<nat>, k: nat, i: nat)
    requires NonDecreasing(rows) && i < |rows| && rows[i] < k
    ensures CountBelow(rows, k) > i
  {
    if i > 0 {
      CountBelowAtLeast(rows[1..], k, i - 1);
    }
  }

  /** `RowPointers` is a CSR row-pointer vector for the sorted rows: it starts
      at 0, ends at the number of entries, never decreases, and entry `i`
      lies in the slice `indptr[rows[i]]..indptr[rows[i] + 1]` of its row. */
  lemma RowPointersAreCsr(rows: seq<nat>, m: nat)
    requires NonDecreasing(rows)
    requires forall i :: 0 <= i < |rows| ==> rows[i] < m
    ensures RowPointers(rows, m)[0] == 0
    ensures RowPointers(rows, m)[m] == |rows|
    ensures forall k, l :: 0 <= k <= l <= m ==> RowPointers(rows, m)[k] <= RowPointers(rows, m)[l]
    ensures forall i :: 0 <= i < |rows| ==>
      RowPointers(rows, m)[rows[i]] <= i < RowPointers(rows, m)[rows[i] + 1]
  {
    var p := RowPointers(rows, m);
    ZeroBelow(rows, 0);
    CountBelowAll(rows, m);
    forall k, l | 0 <= k <= l <= m ensures p[k] <= p[l] {
      CountBelowMonotone(rows, k, l);
    }
    forall i | 0 <= i < |rows| ensures p[rows[i]] <= i < p[rows[i] + 1] {
      CountBelowAtMost(rows, rows[i], i);
      CountBelowAtLeast(rows, rows[i] + 1, i);
    }
  }

  /** The vector the source builds is the CSR one exactly when there are no
      entries or the last row holds one; otherwise every slot after
      `max_row + 1` keeps its initial 0 although entries lie before it. */
  lemma AsWrittenCorrectIff(rows: seq<nat>, m: nat)
    requires NonDecreasing(rows) && m >= 1
    requires forall i :: 0 <= i < |rows| ==> rows[i] < m
    ensures IndptrAsWritten(rows, m) == RowPointers(rows, m) <==> rows == [] || MaxRow(rows) == m - 1
  {
    var written, wanted := IndptrAsWritten(rows, m), RowPointers(rows, m);
    if rows == [] || MaxRow(rows) == m - 1 {
      AsWrittenCountsUpToTop(rows, m);
      assert forall k :: 0 <= k <= m ==> written[k] == wanted[k];
    } else {
      CountBelowAll(rows, m);
      assert written[m] == 0 != |rows| == wanted[m];
    }
  }

  /** The smallest input that shows the trailing zeros: one entry in row 0
      of a two-row matrix. */
  lemma AsWrittenTrailingZero()
    ensures IndptrAsWritten([0], 2) == [0, 1, 0]
    ensures RowPointers([0], 2) == [0, 1, 1]
  {
    assert MaxRow([0]) == 0;
    assert PrefixAtMost([0], 0) == 1;
    assert CountBelow([0], 1) == 1 && CountBelow([0], 2) == 1;
  }

  /** The walk of `BuildIndptr` followed by a fill of the slots it never
      reached with the final count, so that rows after the last occupied one
      are empty rows rather than slots reading 0. */
  method BuildIndptrFilled(rows: seq<nat>, m: nat) returns (indptr: array<nat>)
    requires m >= 1
    requires forall i :: 0 <= i < |rows| ==> rows[i] < m
    ensures fresh(indptr)
    ensures NonDecreasing(rows) ==> indptr[..] == RowPointers(rows, m)
  {
    indptr := BuildIndptr(rows, m);
    var last := MaxRow(rows) + 1;
    var count := |rows|;
    for k := last + 1 to m + 1
      invariant forall l :: 0 <= l < last + 1 ==> indptr[l] == IndptrAsWritten(rows, m)[l]
      invariant forall l :: last + 1 <= l < k ==> indptr[l] == count
    {
      indptr[k] := count;
    }
    if NonDecreasing(rows) {
      AsWrittenCountsUpToTop(rows, m);
      forall k | last < k <= m ensures indptr[k] == CountBelow(rows, k) {
        CountBelowAll(rows, k);
      }
    }
  }
}
