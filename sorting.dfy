/** The canonical order of src/main.rs:99-114: `entries.sort_by` on
    `(row, col)` and the fold that unzips the sorted entries again.

    `sort_by` belongs to Rust's standard library; only its contract is part of
    this model: it is a stable sort under the comparator. `StableSort` below is
    a reference stable sort (insertion of each element before every element
    with an equal or larger key), and `StableSortIsUnique` shows that every
    result meeting that contract is this one. */
module Sorting {
  import opened Coordinates

  datatype Ordering = Less | Equal | Greater

  /** `Ord::cmp` on `usize`. */
  function Cmp(x: nat, y: nat): Ordering
  {
    if x < y then Less else if x == y then Equal else Greater
  }

  /** `a.0.cmp(&b.0).then_with(|| a.1.cmp(&b.1))`: row first, then column;
      the value is never compared. */
  function CompareEntries(a: Entry, b: Entry): (o: Ordering)
    ensures o == Equal <==> a.row == b.row && a.col == b.col
    ensures o == Less <==> a.row < b.row || (a.row == b.row && a.col < b.col)
  {
    match Cmp(a.row, b.row)
    case Equal => Cmp(a.col, b.col)
    case other => other
  }

  /** `a` may stand before `b` in sorted order. */
  predicate KeyLe(a: Entry, b: Entry)
  {
    CompareEntries(a, b) != Greater
  }

  /** Non-decreasing in `(row, col)`. */
  predicate SortedByKey(s: seq<Entry>)
  {
    forall i, j :: 0 <= i < j < |s| ==> KeyLe(s[i], s[j])
  }

  /** The entries of `s` at coordinate `(row, col)`, in their order in `s`. */
  function WithKey(s: seq<Entry>, row: nat, col: nat): seq<Entry>
  {
    if s == [] then []
    else (if s[0].row == row && s[0].col == col then [s[0]] else []) + WithKey(s[1..], row, col)
  }

  /** Puts `x` before the first element whose key is not below its own. */
  function InsertFirst(x: Entry, t: seq<Entry>): seq<Entry>
  {
    if t == [] || KeyLe(x, t[0]) then [x] + t else [t[0]] + InsertFirst(x, t[1..])
  }

  /** Reference stable sort by `(row, col)`. */
  function StableSort(s: seq<Entry>): seq<Entry>
  {
    if s == [] then [] else InsertFirst(s[0], StableSort(s[1..]))
  }

  lemma {:induction false} InsertFirstPermutes(x: Entry, t: seq<Entry>)
    ensures multiset(InsertFirst(x, t)) == multiset(t) + multiset{x}
  {
    if t != [] && !KeyLe(x, t[0]) {
      InsertFirstPermutes(x, t[1..]);
      assert t == [t[0]] + t[1..];
    }
  }

  lemma {:induction false} InsertFirstSorted(x: Entry, t: seq<Entry>)
    requires SortedByKey(t)
    ensures SortedByKey(InsertFirst(x, t))
  {
    if t != [] && !KeyLe(x, t[0]) {
      var rest := InsertFirst(x, t[1..]);
      InsertFirstSorted(x, t[1..]);
      InsertFirstPermutes(x, t[1..]);
      forall j | 0 <= j < |rest| ensures KeyLe(t[0], rest[j]) {
        assert rest[j] in multiset(rest);
        if rest[j] != x {
          assert rest[j] in multiset(t[1..]);
          var k :| 0 <= k < |t[1..]| && t[1..][k] == rest[j];
          assert t[k + 1] == rest[j];
        }
      }
    }
  }

  /** Inserting `x` adds it in front of the entries with its own key and moves no other. */
  lemma {:induction false} InsertFirstWithKey(x: Entry, t: seq<Entry>, row: nat, col: nat)
    ensures WithKey(InsertFirst(x, t), row, col)
         == (if x.row == row && x.col == col then [x] else []) + WithKey(t, row, col)
  {
    if t != [] && !KeyLe(x, t[0]) {
      InsertFirstWithKey(x, t[1..], row, col);
    }
  }

  /** `sort_by` yields a non-decreasing sequence ... */
  lemma {:induction false} StableSortSorted(s: seq<Entry>)
    ensures SortedByKey(StableSort(s))
  {
    if s != [] {
      StableSortSorted(s[1..]);
      InsertFirstSorted(s[0], StableSort(s[1..]));
    }
  }

  /** ... that is a permutation of its input ... */
  lemma {:induction false} StableSortPermutes(s: seq<Entry>)
    ensures multiset(StableSort(s)) == multiset(s)
  {
    if s != [] {
      StableSortPermutes(s[1..]);
      InsertFirstPermutes(s[0], StableSort(s[1..]));
      assert s == [s[0]] + s[1..];
    }
  }

  /** ... and keeps entries with equal `(row, col)` in their prior relative order. */
  lemma {:induction false} StableSortStable(s: seq<Entry>, row: nat, col: nat)
    ensures WithKey(StableSort(s), row, col) == WithKey(s, row, col)
  {
    if s != [] {
      StableSortStable(s[1..], row, col);
      InsertFirstWithKey(s[0], StableSort(s[1..]), row, col);
    }
  }

  lemma {:induction false} WithKeyMembers(s: seq<Entry>, row: nat, col: nat, e: Entry)
    ensures e in WithKey(s, row, col) <==> e in s && e.row == row && e.col == col
  {
    if s != [] {
      WithKeyMembers(s[1..], row, col, e);
      assert s == [s[0]] + s[1..];
    }
  }

  lemma KeyOfHeadPresent(t: seq<Entry>)
    requires t != []
    ensures WithKey(t, t[0].row, t[0].col) != []
  {
  }

  /** The first entry of a sorted sequence is at or below every key it holds. */
  lemma HeadNotAbove(t: seq<Entry>, row: nat, col: nat)
    requires SortedByKey(t) && WithKey(t, row, col) != []
    ensures t[0].row < row || (t[0].row == row && t[0].col <= col)
  {
    var e := WithKey(t, row, col)[0];
    WithKeyMembers(t, row, col, e);
    var i :| 0 <= i < |t| && t[i] == e;
    if i > 0 {
      assert KeyLe(t[0], t[i]);
    }
  }

  /** Among sorted sequences holding the same entries of every key, the first entries agree. */
  lemma SameHead(t: seq<Entry>, u: seq<Entry>)
    requires t != [] && u != []
    requires SortedByKey(t) && SortedByKey(u)
    requires forall row, col :: WithKey(t, row, col) == WithKey(u, row, col)
    ensures t[0] == u[0]
  {
    var a, b := t[0], u[0];
    assert WithKey(u, b.row, b.col)[0] == b;
    HeadNotAbove(t, b.row, b.col);
    assert WithKey(t, a.row, a.col)[0] == a;
    HeadNotAbove(u, a.row, a.col);
    assert WithKey(t, a.row, a.col) == WithKey(u, a.row, a.col);
  }

  /** Removing equal heads keeps the entries of every key equal. */
  lemma SameTails(t: seq<Entry>, u: seq<Entry>, row: nat, col: nat)
    requires t != [] && u != [] && t[0] == u[0]
    requires WithKey(t, row, col) == WithKey(u, row, col)
    ensures WithKey(t[1..], row, col) == WithKey(u[1..], row, col)
  {
    var p := if t[0].row == row && t[0].col == col then [t[0]] else [];
    var x, y := WithKey(t[1..], row, col), WithKey(u[1..], row, col);
    assert p + x == p + y;
    assert (p + x)[|p|..] == x && (p + y)[|p|..] == y;
  }

  /** A stable sort is determined by its contract: two sorted sequences that
      hold the same entries of every key in the same order are equal. */
  lemma {:induction false} SortedWithSameKeysEqual(t: seq<Entry>, u: seq<Entry>)
    requires SortedByKey(t) && SortedByKey(u)
    requires forall row, col :: WithKey(t, row, col) == WithKey(u, row, col)
    ensures t == u
    decreases |t| + |u|
  {
    if t == [] || u == [] {
      if t != [] {
        KeyOfHeadPresent(t);
      } else if u != [] {
        KeyOfHeadPresent(u);
      }
    } else {
      SameHead(t, u);
      forall row, col ensures WithKey(t[1..], row, col) == WithKey(u[1..], row, col) {
        SameTails(t, u, row, col);
      }
      SortedWithSameKeysEqual(t[1..], u[1..]);
      assert t == [t[0]] + t[1..] && u == [u[0]] + u[1..];
    }
  }

  /** Any stable sort of `s` by `(row, col)` returns `StableSort(s)`. */
  lemma StableSortIsUnique(s: seq<Entry>, sorted: seq<Entry>)
    requires SortedByKey(sorted)
    requires forall row, col :: WithKey(sorted, row, col) == WithKey(s, row, col)
    ensures sorted == StableSort(s)
  {
    StableSortSorted(s);
    forall row, col ensures WithKey(sorted, row, col) == WithKey(StableSort(s), row, col) {
      StableSortStable(s, row, col);
    }
    SortedWithSameKeysEqual(sorted, StableSort(s));
  }

  /** The `(row, col)` coordinates of a sequence of entries, in order. */
  function Keys(s: seq<Entry>): (keys: seq<(nat, nat)>)
    ensures |keys| == |s|
    ensures forall i :: 0 <= i < |s| ==> keys[i] == (s[i].row, s[i].col)
  {
    seq(|s|, i requires 0 <= i < |s| => (s[i].row, s[i].col))
  }

  predicate PairLe(p: (nat, nat), q: (nat, nat))
  {
    p.0 < q.0 || (p.0 == q.0 && p.1 <= q.1)
  }

  predicate PairsSorted(x: seq<(nat, nat)>)
  {
    forall i, j :: 0 <= i < j < |x| ==> PairLe(x[i], x[j])
  }

  lemma KeysAppend(a: seq<Entry>, b: seq<Entry>)
    ensures Keys(a + b) == Keys(a) + Keys(b)
  {
  }

  lemma PairsSortedTail(x: seq<(nat, nat)>)
    requires PairsSorted(x) && x != []
    ensures PairsSorted(x[1..])
  {
  }

  lemma RemoveHead<T>(s: seq<T>)
    requires s != []
    ensures multiset(s[1..]) == multiset(s) - multiset{s[0]}
  {
    assert s == [s[0]] + s[1..];
  }

  lemma RemoveOne<T>(s: seq<T>, j: nat)
    requires j < |s|
    ensures multiset(s[..j] + s[j + 1..]) == multiset(s) - multiset{s[j]}
  {
    assert s == s[..j] + [s[j]] + s[j + 1..];
  }

  /** Rearranging entries rearranges their coordinates the same way. */
  lemma {:induction false} KeysPermute(s: seq<Entry>, t: seq<Entry>)
    requires multiset(s) == multiset(t)
    ensures multiset(Keys(s)) == multiset(Keys(t))
    decreases |s|
  {
    if s == [] {
      assert |t| == |multiset(t)| == 0;
    } else {
      var x := s[0];
      assert x in multiset(t);
      var j :| 0 <= j < |t| && t[j] == x;
      var rest := t[..j] + t[j + 1..];
      assert t == t[..j] + [x] + t[j + 1..];
      assert s == [x] + s[1..];
      RemoveHead(s);
      RemoveOne(t, j);
      KeysPermute(s[1..], rest);
      KeysAppend([x], s[1..]);
      KeysAppend(t[..j] + [x], t[j + 1..]);
      KeysAppend(t[..j], [x]);
      KeysAppend(t[..j], t[j + 1..]);
    }
  }

  /** A sorted sequence of coordinates is determined by its multiset. */
  lemma {:induction false} SortedPairsUnique(x: seq<(nat, nat)>, y: seq<(nat, nat)>)
    requires PairsSorted(x) && PairsSorted(y)
    requires multiset(x) == multiset(y)
    ensures x == y
    decreases |x|
  {
    if x == [] || y == [] {
      assert |x| == |multiset(x)| == |multiset(y)| == |y|;
    } else {
      assert x[0] in multiset(y);
      var j :| 0 <= j < |y| && y[j] == x[0];
      assert PairLe(y[0], x[0]) by { if j > 0 { assert PairLe(y[0], y[j]); } }
      assert y[0] in multiset(x);
      var i :| 0 <= i < |x| && x[i] == y[0];
      assert PairLe(x[0], y[0]) by { if i > 0 { assert PairLe(x[0], x[i]); } }
      assert x[0].0 == y[0].0 && x[0].1 == y[0].1;
      assert x[0] == y[0];
      RemoveHead(x);
      RemoveHead(y);
      PairsSortedTail(x);
      PairsSortedTail(y);
      SortedPairsUnique(x[1..], y[1..]);
    }
  }

  /** Sorting makes the coordinates independent of the input order: inputs
      that hold the same entries give the same coordinate sequence, and differ
      at most in the order of values that share a coordinate. */
  lemma SortedKeysIgnoreOrder(a: seq<Entry>, b: seq<Entry>)
    requires multiset(a) == multiset(b)
    ensures Keys(StableSort(a)) == Keys(StableSort(b))
  {
    StableSortSorted(a);
    StableSortSorted(b);
    StableSortPermutes(a);
    StableSortPermutes(b);
    KeysPermute(StableSort(a), StableSort(b));
    var x, y := StableSort(a), StableSort(b);
    assert PairsSorted(Keys(x)) by {
      forall i, j | 0 <= i < j < |x| ensures PairLe(Keys(x)[i], Keys(x)[j]) { assert KeyLe(x[i], x[j]); }
    }
    assert PairsSorted(Keys(y)) by {
      forall i, j | 0 <= i < j < |y| ensures PairLe(Keys(y)[i], Keys(y)[j]) { assert KeyLe(y[i], y[j]); }
    }
    SortedPairsUnique(Keys(x), Keys(y));
  }

  /** The fold of src/main.rs:107-114: pushes each sorted entry's row, column
      and value onto three vectors, which zip back to the entries. */
  method Unzip(entries: seq<Entry>) returns (rows: seq<nat>, cols: seq<nat>, values: seq<Value>)
    ensures |rows| == |cols| == |values| == |entries|
    ensures rows == Rows(entries) && cols == Cols(entries) && values == Values(entries)
    ensures Zip(rows, cols, values) == entries
  {
    rows, cols, values := [], [], [];
    for i := 0 to |entries|
      invariant |rows| == |cols| == |values| == i
      invariant forall k :: 0 <= k < i ==> entries[k] == Entry(rows[k], cols[k], values[k])
    {
      rows := rows + [entries[i].row];
      cols := cols + [entries[i].col];
      values := values + [entries[i].value];
    }
  }
}
