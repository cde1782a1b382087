/** The slice operations the loader is built from: `position`, `split` on a
    separator, and the `contains_sequence` window search. */
module Slices {

  /** `s.iter().position(|x| x == d).unwrap_or(s.len())`: the index of the first `d`. */
  function IndexOf<T(==)>(s: seq<T>, d: T): (k: nat)
    ensures k <= |s|
    ensures k < |s| ==> s[k] == d
    ensures forall j :: 0 <= j < k ==> s[j] != d
  {
    if s == [] then 0
    else if s[0] == d then 0
    else 1 + IndexOf(s[1..], d)
  }

  /** `s.split(|x| x == d)`: the maximal runs between separators, in order.
      There is always at least one piece; an empty slice has one empty piece. */
  function Split<T(==)>(s: seq<T>, d: T): (pieces: seq<seq<T>>)
    ensures |pieces| >= 1
    ensures forall i :: 0 <= i < |pieces| ==> d !in pieces[i]
    decreases |s|
  {
    var k := IndexOf(s, d);
    if k == |s| then [s] else [s[..k]] + Split(s[k + 1..], d)
  }

  /** The pieces put back together with one separator between neighbours. */
  function Join<T>(pieces: seq<seq<T>>, d: T): seq<T>
    requires |pieces| >= 1
  {
    if |pieces| == 1 then pieces[0] else pieces[0] + [d] + Join(pieces[1..], d)
  }

  /** Splitting loses nothing: the separators sit exactly between the pieces. */
  lemma {:induction false} JoinSplit<T>(s: seq<T>, d: T)
    ensures Join(Split(s, d), d) == s
    decreases |s|
  {
    var k := IndexOf(s, d);
    if k < |s| {
      var rest := Split(s[k + 1..], d);
      assert Split(s, d) == [s[..k]] + rest;
      JoinSplit(s[k + 1..], d);
      assert Join([s[..k]] + rest, d) == s[..k] + [d] + Join(rest, d);
      assert s == s[..k] + [d] + s[k + 1..];
    }
  }

  /** Splitting is determined by the pieces: separator-free pieces come back unchanged. */
  lemma {:induction false} SplitJoin<T>(pieces: seq<seq<T>>, d: T)
    requires |pieces| >= 1
    requires forall i :: 0 <= i < |pieces| ==> d !in pieces[i]
    ensures Split(Join(pieces, d), d) == pieces
  {
    if |pieces| == 1 {
      assert IndexOf(pieces[0], d) == |pieces[0]|;
    } else {
      var s := Join(pieces, d);
      var p := pieces[0];
      assert s == p + ([d] + Join(pieces[1..], d));
      assert s[|p|] == d;
      assert forall j :: 0 <= j < |p| ==> s[j] == p[j];
      var k := IndexOf(s, d);
      assert k == |p|;
      assert s[..k] == p;
      assert s[k + 1..] == Join(pieces[1..], d);
      SplitJoin(pieces[1..], d);
      assert pieces == [p] + pieces[1..];
    }
  }

  /** Cutting at one separator splits the pieces into those before and after it. */
  lemma {:induction false} SplitAround<T>(x: seq<T>, d: T, y: seq<T>)
    ensures Split(x + [d] + y, d) == Split(x, d) + Split(y, d)
    decreases |x|
  {
    var s := x + [d] + y;
    var k := IndexOf(x, d);
    var ks := IndexOf(s, d);
    assert forall j :: 0 <= j < |x| ==> s[j] == x[j];
    if k == |x| {
      assert s[|x|] == d;
      assert ks == |x|;
      assert s[..ks] == x;
      assert s[ks + 1..] == y;
    } else {
      assert ks == k;
      assert s[..ks] == x[..k];
      assert s[ks + 1..] == x[k + 1..] + [d] + y;
      SplitAround(x[k + 1..], d, y);
    }
  }

  /** All the pieces back to back, with nothing between them. */
  function Concat<T>(pieces: seq<seq<T>>): seq<T>
  {
    if pieces == [] then [] else Concat(pieces[..|pieces| - 1]) + pieces[|pieces| - 1]
  }

  /** A prefix extended by the slice that follows it. */
  lemma PrefixThenSlice<T>(s: seq<T>, i: nat, j: nat)
    requires i <= j <= |s|
    ensures s[..j] == s[..i] + s[i..j]
  {
  }

  /** A non-empty prefix is the shorter prefix and one more element. */
  lemma PrefixSnoc<T>(s: seq<T>, k: nat)
    requires 0 < k <= |s|
    ensures s[..k] == s[..k - 1] + [s[k - 1]]
  {
  }

  /** Appending a piece appends its elements. */
  lemma ConcatSnoc<T>(pieces: seq<seq<T>>, piece: seq<T>)
    ensures Concat(pieces + [piece]) == Concat(pieces) + piece
  {
    var next := pieces + [piece];
    assert next[..|next| - 1] == pieces;
  }

  /** `window == needle` for the window of `haystack` starting at `i`. */
  predicate OccursAt<T(==)>(haystack: seq<T>, needle: seq<T>, i: int)
  {
    0 <= i && i + |needle| <= |haystack| && haystack[i..i + |needle|] == needle
  }

  /** `contains_sequence`: some window of `haystack` equals `needle`.
      Rust's `windows(0)` panics, so the needle must be non-empty. */
  function ContainsSequence<T(==)>(haystack: seq<T>, needle: seq<T>): (found: bool)
    requires |needle| > 0
    ensures found <==> exists i :: OccursAt(haystack, needle, i)
    ensures |needle| > |haystack| ==> !found
    decreases |haystack|
  {
    if |needle| > |haystack| then false
    else if haystack[..|needle|] == needle then (assert OccursAt(haystack, needle, 0); true)
    else
      var rest := ContainsSequence(haystack[1..], needle);
      assert rest ==> exists i :: OccursAt(haystack, needle, i) by {
        if rest {
          var i :| OccursAt(haystack[1..], needle, i);
          assert haystack[1..][i..i + |needle|] == haystack[i + 1..i + 1 + |needle|];
          assert OccursAt(haystack, needle, i + 1);
        }
      }
      assert (exists i :: OccursAt(haystack, needle, i)) ==> rest by {
        if exists i :: OccursAt(haystack, needle, i) {
          var i :| OccursAt(haystack, needle, i);
          assert i != 0;
          assert haystack[1..][i - 1..i - 1 + |needle|] == haystack[i..i + |needle|];
          assert OccursAt(haystack[1..], needle, i - 1);
        }
      }
      rest
  }
}
