/**
  Commit orders. `Promise.all` over the tasks of a batch lets each task run its
  commit step exactly once, in an order decided by I/O latency; a commit order
  is therefore a permutation of the task indices `0 .. n-1`.
 */
module Schedule {

  /** Every entry of `order` names one of `n` tasks. */
  predicate ValidIndices(order: seq<nat>, n: nat)
  {
    forall k :: 0 <= k < |order| ==> order[k] < n
  }

  /** No task appears twice in `order`. */
  predicate Distinct(order: seq<nat>)
  {
    forall j, k :: 0 <= j < k < |order| ==> order[j] != order[k]
  }

  /** `order` lists each of the `n` tasks exactly once. */
  predicate IsSchedule(order: seq<nat>, n: nat)
  {
    |order| == n && ValidIndices(order, n) && Distinct(order)
  }

  /** The set of task indices `0 .. n-1`. */
  function Tasks(n: nat): (s: set<nat>)
    ensures forall i :: i in s <==> 0 <= i < n
    ensures |s| == n
  {
    if n == 0 then {}
    else
      var smaller := Tasks(n - 1);
      assert n - 1 !in smaller;
      smaller + {n - 1}
  }

  /** The task indices a sequence mentions. */
  function Entries(order: seq<nat>): (s: set<nat>)
    ensures forall x :: x in s <==> x in order
  {
    set x | x in order
  }

  /** The entries of a sequence without repeats are as many as its length. */
  lemma {:induction false} DistinctCardinality(order: seq<nat>)
    requires Distinct(order)
    ensures |Entries(order)| == |order|
  {
    if |order| > 0 {
      var front := order[..|order| - 1];
      var last := order[|order| - 1];
      assert Distinct(front);
      DistinctCardinality(front);
      assert order == front + [last];
      assert Entries(order) == Entries(front) + {last};
      assert last !in Entries(front);
    }
  }

  /** A subset has no more elements than its superset. */
  lemma SubsetCardinality<T>(small: set<T>, big: set<T>)
    requires small <= big
    ensures |small| <= |big|
  {
    var rest := big - small;
    assert small + rest == big;
    assert small * rest == {};
  }

  /** Pigeonhole: a schedule of `n` distinct task indices below `n` contains
      every task, so every task of a batch commits. */
  lemma ScheduleCoversEveryTask(order: seq<nat>, n: nat)
    requires IsSchedule(order, n)
    ensures forall i :: 0 <= i < n ==> i in order
  {
    var seen := Entries(order);
    var all := Tasks(n);
    DistinctCardinality(order);
    var rest := all - seen;
    assert seen + rest == all;
    assert seen * rest == {};
    assert |rest| == 0;
  }

  /** Each task appears at exactly one position of a schedule. */
  lemma SchedulePositionUnique(order: seq<nat>, n: nat, i: nat)
    requires IsSchedule(order, n)
    requires i < n
    ensures exists k :: 0 <= k < n && order[k] == i
    ensures forall j, k :: 0 <= j < n && 0 <= k < n && order[j] == i && order[k] == i ==> j == k
  {
    ScheduleCoversEveryTask(order, n);
    assert i in order;
  }
}
