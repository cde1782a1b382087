/** The merge of the per-thread results under the write lock
    (src/main.rs:79-92): each task appends its own vectors to the shared ones
    when it gets the lock, so the shared vectors hold the per-chunk results
    in whatever order the tasks finished. That order is a parameter here. */
module Merge {
  import opened Slices

  /** `0..n` */
  function Range(n: nat): (r: seq<nat>)
    ensures |r| == n && forall i :: 0 <= i < n ==> r[i] == i
  {
    seq(n, i requires 0 <= i < n => i)
  }

  /** An order in which `n` tasks take the lock: each task exactly once. */
  predicate IsSchedule(schedule: seq<nat>, n: nat)
  {
    multiset(schedule) == multiset(Range(n))
  }

  /** A schedule names every task once and nothing else. */
  lemma ScheduleBounds(schedule: seq<nat>, n: nat)
    requires IsSchedule(schedule, n)
    ensures |schedule| == n
    ensures forall i :: 0 <= i < |schedule| ==> schedule[i] < n
  {
    assert |schedule| == |multiset(schedule)| == |multiset(Range(n))| == n;
    forall i | 0 <= i < |schedule| ensures schedule[i] < n {
      assert schedule[i] in multiset(Range(n));
    }
  }

  /** Every task named is one of the first `n`. */
  predicate TasksBelow(schedule: seq<nat>, n: nat)
  {
    forall i :: 0 <= i < |schedule| ==> schedule[i] < n
  }

  /** The shared vectors after the tasks in `schedule` have appended their
      results, one after another. */
  function Merged<T>(results: seq<seq<T>>, schedule: seq<nat>): seq<T>
    requires TasksBelow(schedule, |results|)
  {
    if schedule == [] then []
    else Merged(results, schedule[..|schedule| - 1]) + results[schedule[|schedule| - 1]]
  }

  lemma {:induction false} MergedAppend<T>(results: seq<seq<T>>, a: seq<nat>, b: seq<nat>)
    requires forall i :: 0 <= i < |a| ==> a[i] < |results|
    requires forall i :: 0 <= i < |b| ==> b[i] < |results|
    ensures Merged(results, a + b) == Merged(results, a) + Merged(results, b)
    decreases |b|
  {
    if b == [] {
      assert a + b == a;
    } else {
      var b' := b[..|b| - 1];
      assert (a + b)[..|a + b| - 1] == a + b';
      MergedAppend(results, a, b');
    }
  }

  /** Results no task in the schedule produced do not matter. */
  lemma {:induction false} MergedPrefix<T>(results: seq<seq<T>>, k: nat, schedule: seq<nat>)
    requires k <= |results|
    requires forall i :: 0 <= i < |schedule| ==> schedule[i] < k
    ensures Merged(results, schedule) == Merged(results[..k], schedule)
  {
    if schedule != [] {
      MergedPrefix(results, k, schedule[..|schedule| - 1]);
    }
  }

  /** Taking the last task out of a schedule leaves a schedule of the others. */
  lemma ScheduleWithoutLast(schedule: seq<nat>, n: nat, j: nat)
    requires n > 0 && IsSchedule(schedule, n)
    requires j < |schedule| && schedule[j] == n - 1
    ensures IsSchedule(schedule[..j] + schedule[j + 1..], n - 1)
  {
    var before, after := schedule[..j], schedule[j + 1..];
    var last: seq<nat> := [n - 1];
    assert schedule == before + last + after;
    MultisetMiddle(before, last, after);
    RangeSnoc(n - 1);
    MultisetCancel(multiset(before + after), multiset(Range(n - 1)), multiset(last));
  }

  lemma MultisetCancel<T>(a: multiset<T>, b: multiset<T>, c: multiset<T>)
    requires a + c == b + c
    ensures a == b
  {
    forall x ensures a[x] == b[x] {
      assert (a + c)[x] == (b + c)[x];
    }
  }

  lemma RangeSnoc(n: nat)
    ensures Range(n + 1) == Range(n) + [n]
  {
  }

  lemma ConcatLast<T>(results: seq<seq<T>>)
    requires results != []
    ensures multiset(Concat(results)) == multiset(Concat(results[..|results| - 1])) + multiset(results[|results| - 1])
  {
  }

  /** Whatever order the tasks take the lock in, the shared vectors end up
      holding the same elements as the results in task order. */
  lemma {:induction false} MergedPermutes<T>(results: seq<seq<T>>, schedule: seq<nat>)
    requires IsSchedule(schedule, |results|)
    ensures forall i :: 0 <= i < |schedule| ==> schedule[i] < |results|
    ensures multiset(Merged(results, schedule)) == multiset(Concat(results))
    decreases |results|
  {
    var n := |results|;
    ScheduleBounds(schedule, n);
    if n > 0 {
      assert Range(n)[n - 1] == n - 1;
      assert n - 1 in multiset(schedule);
      var j :| 0 <= j < |schedule| && schedule[j] == n - 1;
      ScheduleWithoutLast(schedule, n, j);
      var init, rest := results[..n - 1], schedule[..j] + schedule[j + 1..];
      ScheduleBounds(rest, n - 1);
      MergedWithLast(results, schedule, j, rest);
      MergedPermutes(init, rest);
      ConcatLast(results);
    }
  }

  /** The last task's results, taken wherever it falls in the schedule. */
  lemma MergedWithLast<T>(results: seq<seq<T>>, schedule: seq<nat>, j: nat, rest: seq<nat>)
    requires results != [] && j < |schedule| && schedule[j] == |results| - 1
    requires forall i :: 0 <= i < |schedule| ==> schedule[i] < |results|
    requires rest == schedule[..j] + schedule[j + 1..]
    requires forall i :: 0 <= i < |rest| ==> rest[i] < |results| - 1
    ensures multiset(Merged(results, schedule))
         == multiset(Merged(results[..|results| - 1], rest)) + multiset(results[|results| - 1])
  {
    var k := |results| - 1;
    var before, after := schedule[..j], schedule[j + 1..];
    assert schedule == before + [k] + after;
    assert forall i :: 0 <= i < |before| ==> before[i] == rest[i];
    assert forall i :: 0 <= i < |after| ==> after[i] == rest[|before| + i];
    MergedAround(results, before, k, after);
    MergedAppend(results, before, after);
    MergedPrefix(results, k, rest);
    MultisetMiddle(Merged(results, before), results[k], Merged(results, after));
  }

  /** Task `k`'s results sit between those of the tasks before and after it. */
  lemma MergedAround<T>(results: seq<seq<T>>, before: seq<nat>, k: nat, after: seq<nat>)
    requires k < |results|
    requires forall i :: 0 <= i < |before| ==> before[i] < |results|
    requires forall i :: 0 <= i < |after| ==> after[i] < |results|
    ensures Merged(results, before + [k] + after)
         == Merged(results, before) + results[k] + Merged(results, after)
  {
    MergedSingle(results, k);
    MergedAppend(results, before, [k]);
    Bounded(before, [k], |results|);
    MergedAppend(results, before + [k], after);
  }

  lemma Bounded(a: seq<nat>, b: seq<nat>, k: nat)
    requires forall i :: 0 <= i < |a| ==> a[i] < k
    requires forall i :: 0 <= i < |b| ==> b[i] < k
    ensures forall i :: 0 <= i < |a + b| ==> (a + b)[i] < k
  {
    forall i | 0 <= i < |a + b| ensures (a + b)[i] < k {
      if i >= |a| {
        assert (a + b)[i] == b[i - |a|];
      }
    }
  }

  lemma MergedSingle<T>(results: seq<seq<T>>, k: nat)
    requires k < |results|
    ensures Merged(results, [k]) == results[k]
  {
    assert [k][..0] == [];
  }

  lemma MultisetMiddle<T>(x: seq<T>, m: seq<T>, y: seq<T>)
    ensures multiset(x + m + y) == multiset(x + y) + multiset(m)
  {
    calc {
      multiset(x + m + y);
      multiset(x) + multiset(m) + multiset(y);
      multiset(x + y) + multiset(m);
    }
  }

  /** With the tasks taking the lock in task order, nothing is reordered. */
  lemma {:induction false} MergedInOrder<T>(results: seq<seq<T>>, k: nat)
    requires k <= |results|
    ensures Merged(results, Range(k)) == Concat(results[..k])
  {
    if k > 0 {
      assert Range(k)[..k - 1] == Range(k - 1);
      assert results[..k][..k - 1] == results[..k - 1];
      MergedInOrder(results, k - 1);
    }
  }
}
