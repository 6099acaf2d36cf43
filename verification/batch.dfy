/**
  What a whole `loadAssets` batch guarantees, for every commit order and every
  settlement of the adapters' promises.
 */
module BatchProperties {
  import opened LoaderTypes
  import opened Dispatch
  import opened Schedule
  import opened AssetLoader

  /** A non-empty batch is its commits applied, in order, to the instance
      with reset counters. */
  lemma UnfoldBatch<H>(inst: Instance<H>, list: seq<Asset>, outcomes: seq<Settlement<H>>, order: seq<nat>)
    requires |outcomes| == |list| && 0 < |list|
    requires IsSchedule(order, |list|)
    ensures LoadAssets(inst, list, outcomes, order)
         == Commits(Instance(inst.assets, |list|, 0), list, TaskValues(list, outcomes), order)
  {
  }

  /** An empty list completes at once with the instance's current `assets`
      object, reports no progress, starts no task, and zeroes the counters. */
  lemma EmptyBatchShortCircuits<H>(inst: Instance<H>, list: seq<Asset>, outcomes: seq<Settlement<H>>, order: seq<nat>)
    requires |list| == 0 && |outcomes| == 0
    requires IsSchedule(order, 0)
    ensures var r := LoadAssets(inst, list, outcomes, order);
      && r.events == [Complete(inst.assets)]
      && Completions(r.events) == 1
      && r.instance == Instance(inst.assets, 0, 0)
  {
  }

  /** Progress numerators: the `k`-th callback of a batch of `T` reports
      `(k + 1, T)`, so across any commit order the numerators are `1 .. T`,
      each once and in increasing order; the counter never passes the total. */
  lemma ProgressNumerators<H>(inst: Instance<H>, list: seq<Asset>, outcomes: seq<Settlement<H>>, order: seq<nat>)
    requires |outcomes| == |list| && 0 < |list|
    requires IsSchedule(order, |list|)
    ensures var r := LoadAssets(inst, list, outcomes, order);
      && |r.events| == |list| + 1
      && (forall k :: 0 <= k < |list| ==>
            r.events[k].Progress? && r.events[k].loaded == k + 1 && r.events[k].total == |list|)
      && (forall j, k :: 0 <= j < k < |list| ==> r.events[j].loaded < r.events[k].loaded)
  {
    UnfoldBatch(inst, list, outcomes, order);
    CommitsTrace(Instance(inst.assets, |list|, 0), list, TaskValues(list, outcomes), order);
  }

  /** The loaded counter after each prefix of the commit order equals the
      number of commits so far and never exceeds the total. */
  lemma CounterBounded<H>(inst: Instance<H>, list: seq<Asset>, outcomes: seq<Settlement<H>>, order: seq<nat>, k: nat)
    requires |outcomes| == |list| && 0 < |list|
    requires IsSchedule(order, |list|)
    requires k <= |list|
    ensures var mid := Commits(Instance(inst.assets, |list|, 0), list, TaskValues(list, outcomes), order[..k]).instance;
      && mid.loadedAssets == k
      && mid.loadedAssets <= mid.totalAssets == |list|
  {
    assert ValidIndices(order[..k], |list|);
  }

  /** After the `k`-th commit, the `assets` object holds that commit's
      value under that commit's name. */
  lemma StoredAfterCommit<H>(inst: Instance<H>, list: seq<Asset>, values: seq<Value<H>>, order: seq<nat>, k: nat)
    requires |values| == |list|
    requires IsSchedule(order, |list|)
    requires k < |list|
    ensures var stored := Commits(inst, list, values, order[..k + 1]).instance.assets;
      list[order[k]].name in stored && stored[list[order[k]].name] == values[order[k]]
  {
    var prefix := order[..k + 1];
    assert ValidIndices(prefix, |list|);
    assert prefix[|prefix| - 1] == order[k];
    CommitsStoresLast(inst, list, values, prefix);
  }

  /** The `k`-th progress callback carries the name of the `k`-th committing
      task and its settled value. */
  lemma ProgressReportsTask<H>(inst: Instance<H>, list: seq<Asset>, outcomes: seq<Settlement<H>>, order: seq<nat>)
    requires |outcomes| == |list| && 0 < |list|
    requires IsSchedule(order, |list|)
    ensures var r := LoadAssets(inst, list, outcomes, order);
      forall k :: 0 <= k < |list| ==>
        r.events[k] == Progress(k + 1, |list|, list[order[k]].name, Settle(list[order[k]], outcomes[order[k]]))
  {
    UnfoldBatch(inst, list, outcomes, order);
    CommitsTrace(Instance(inst.assets, |list|, 0), list, TaskValues(list, outcomes), order);
  }

  /** The value the `k`-th progress callback reports is the value the `k`-th
      commit has just stored under the reported name. */
  lemma ProgressReportsStoredValue<H>(inst: Instance<H>, list: seq<Asset>, outcomes: seq<Settlement<H>>, order: seq<nat>, k: nat)
    requires |outcomes| == |list| && k < |list|
    requires IsSchedule(order, |list|)
    ensures var e := LoadAssets(inst, list, outcomes, order).events[k];
      var stored := Commits(Instance(inst.assets, |list|, 0), list, TaskValues(list, outcomes), order[..k + 1]).instance.assets;
      e.Progress? && e.name in stored && stored[e.name] == e.value
  {
    ProgressReportsTask(inst, list, outcomes, order);
    StoredAfterCommit(Instance(inst.assets, |list|, 0), list, TaskValues(list, outcomes), order, k);
  }

  /** `onComplete` fires exactly once, as the last callback, right after the
      progress callback of the `T`-th commit; it receives the `assets` object
      holding every task's name, the last commit's value included. */
  lemma CompletesOnce<H>(inst: Instance<H>, list: seq<Asset>, outcomes: seq<Settlement<H>>, order: seq<nat>)
    requires |outcomes| == |list| && 0 < |list|
    requires IsSchedule(order, |list|)
    ensures var r := LoadAssets(inst, list, outcomes, order);
      var last := order[|list| - 1];
      && Completions(r.events) == 1
      && r.events[|list|] == Complete(r.instance.assets)
      && r.events[|list| - 1] == Progress(|list|, |list|, list[last].name, Settle(list[last], outcomes[last]))
      && r.instance.assets[list[last].name] == Settle(list[last], outcomes[last])
      && (forall i :: 0 <= i < |list| ==> list[i].name in r.instance.assets)
  {
    var values := TaskValues(list, outcomes);
    var reset := Instance(inst.assets, |list|, 0);
    var r := LoadAssets(inst, list, outcomes, order);
    UnfoldBatch(inst, list, outcomes, order);
    CommitsTrace(reset, list, values, order);
    CommitsKeys(reset, list, values, order);
    CommitsLastWriter(reset, list, values, order);
    ScheduleWritesBatchNames(list, order);
    assert LastWriterAt(list, order, list[order[|list| - 1]].name, |list| - 1);
    var progress := r.events[..|list|];
    assert r.events[..|r.events| - 1] == progress;
    assert Completions(progress) == 0;
    forall i | 0 <= i < |list|
      ensures list[i].name in r.instance.assets
    {
      assert list[i].name in BatchNames(list);
    }
  }

  /** Failure isolation: every task commits exactly once, whatever its
      adapter did; its progress callback carries its settled value, which is
      `null` when the adapter rejected or the type is unknown. */
  lemma EveryTaskCommits<H>(inst: Instance<H>, list: seq<Asset>, outcomes: seq<Settlement<H>>, order: seq<nat>, i: nat)
    requires |outcomes| == |list| && i < |list|
    requires IsSchedule(order, |list|)
    ensures var r := LoadAssets(inst, list, outcomes, order);
      exists k :: 0 <= k < |list| && order[k] == i
        && r.events[k] == Progress(k + 1, |list|, list[i].name, Settle(list[i], outcomes[i]))
    ensures forall j, k :: 0 <= j < |list| && 0 <= k < |list| && order[j] == i && order[k] == i ==> j == k
    ensures outcomes[i].Rejected? || list[i].kind !in KnownTypes ==> Settle(list[i], outcomes[i]) == Null
  {
    var values := TaskValues(list, outcomes);
    UnfoldBatch(inst, list, outcomes, order);
    CommitsTrace(Instance(inst.assets, |list|, 0), list, values, order);
    SchedulePositionUnique(order, |list|, i);
    var k :| 0 <= k < |list| && order[k] == i;
  }

  /** An asset of unknown type is still committed as `null` and counted: its
      progress callback reports `null`, and the batch completes with `null`
      stored under its name unless a later task of the same name overwrote it. */
  lemma UnknownTypeCommitsNull<H>(inst: Instance<H>, list: seq<Asset>, outcomes: seq<Settlement<H>>, order: seq<nat>, i: nat)
    requires |outcomes| == |list| && i < |list|
    requires IsSchedule(order, |list|)
    requires list[i].kind !in KnownTypes
    ensures var r := LoadAssets(inst, list, outcomes, order);
      && (exists k :: 0 <= k < |list| && order[k] == i && r.events[k] == Progress(k + 1, |list|, list[i].name, Null))
      && Completions(r.events) == 1
      && (forall k :: LastWriterAt(list, order, list[i].name, k) && order[k] == i ==>
            r.instance.assets[list[i].name] == Null)
  {
    EveryTaskCommits(inst, list, outcomes, order, i);
    CompletesOnce(inst, list, outcomes, order);
    UnfoldBatch(inst, list, outcomes, order);
    CommitsLastWriter(Instance(inst.assets, |list|, 0), list, TaskValues(list, outcomes), order);
  }

  /** A batch stalls when some adapter promise never settles: with fewer
      than `T` tasks committed, the counter stays below the total, every
      callback so far is a progress callback, and `onComplete` has not fired. */
  lemma StallsWhileTaskPending<H>(inst: Instance<H>, list: seq<Asset>, outcomes: seq<Settlement<H>>, order: seq<nat>)
    requires |outcomes| == |list|
    requires ValidIndices(order, |list|) && Distinct(order) && |order| < |list|
    ensures var r := Commits(Instance(inst.assets, |list|, 0), list, TaskValues(list, outcomes), order);
      && r.instance.loadedAssets < r.instance.totalAssets
      && Completions(r.events) == 0
  {
    CommitsTrace(Instance(inst.assets, |list|, 0), list, TaskValues(list, outcomes), order);
  }

  /** A commit touches only its own key: the keys after a batch are the old
      keys plus the batch's names, and every entry the batch does not name —
      in particular every entry of an earlier batch — keeps its value. */
  lemma PriorEntriesSurvive<H>(inst: Instance<H>, list: seq<Asset>, outcomes: seq<Settlement<H>>, order: seq<nat>)
    requires |outcomes| == |list|
    requires IsSchedule(order, |list|)
    ensures var a := LoadAssets(inst, list, outcomes, order).instance.assets;
      && a.Keys == inst.assets.Keys + BatchNames(list)
      && (forall n :: n in inst.assets && n !in BatchNames(list) ==> a[n] == inst.assets[n])
  {
    if 0 < |list| {
      UnfoldBatch(inst, list, outcomes, order);
      CommitsKeys(Instance(inst.assets, |list|, 0), list, TaskValues(list, outcomes), order);
      ScheduleWritesBatchNames(list, order);
    } else {
      assert BatchNames(list) == {};
    }
  }

  /** Some position of `order` is the last commit to write name `n`, as soon
      as any position writes it. */
  lemma {:induction false} LastWriterExists(list: seq<Asset>, order: seq<nat>, n: string, k0: nat)
    requires ValidIndices(order, |list|)
    requires k0 < |order| && list[order[k0]].name == n
    ensures exists k :: LastWriterAt(list, order, n, k)
    decreases |order| - k0
  {
    if !LastWriterAt(list, order, n, k0) {
      var j :| k0 < j < |order| && list[order[j]].name == n;
      LastWriterExists(list, order, n, j);
    }
  }

  /** Duplicate names: each name of the batch ends holding the value of
      exactly one of its tasks, the one that committed last; there are still
      `T` commits. */
  lemma LastCommitWins<H>(inst: Instance<H>, list: seq<Asset>, outcomes: seq<Settlement<H>>, order: seq<nat>)
    requires |outcomes| == |list| && 0 < |list|
    requires IsSchedule(order, |list|)
    ensures var r := LoadAssets(inst, list, outcomes, order);
      && r.instance.loadedAssets == |list|
      && (forall n :: n in BatchNames(list) ==> exists k :: LastWriterAt(list, order, n, k))
      && (forall n, k :: LastWriterAt(list, order, n, k) ==>
            r.instance.assets[n] == Settle(list[order[k]], outcomes[order[k]]))
  {
    UnfoldBatch(inst, list, outcomes, order);
    CommitsLastWriter(Instance(inst.assets, |list|, 0), list, TaskValues(list, outcomes), order);
    ScheduleWritesBatchNames(list, order);
    forall n | n in BatchNames(list)
      ensures exists k :: LastWriterAt(list, order, n, k)
    {
      assert n in WrittenNames(list, order);
      var k0 :| 0 <= k0 < |order| && list[order[k0]].name == n;
      LastWriterExists(list, order, n, k0);
    }
  }

  /** A batch never names more assets than it has tasks, and names exactly as
      many when the names are pairwise distinct. */
  lemma {:induction false} BatchNamesCardinality(list: seq<Asset>)
    ensures |BatchNames(list)| <= |list|
    ensures (forall i, j :: 0 <= i < j < |list| ==> list[i].name != list[j].name) ==> |BatchNames(list)| == |list|
  {
    if 0 < |list| {
      var front := list[..|list| - 1];
      var last := list[|list| - 1];
      BatchNamesCardinality(front);
      assert BatchNames(list) == BatchNames(front) + {last.name} by {
        forall i | 0 <= i < |front| ensures front[i] == list[i] { }
      }
      if forall i, j :: 0 <= i < j < |list| ==> list[i].name != list[j].name {
        assert last.name !in BatchNames(front);
      }
    }
  }

  /** A batch of `T` tasks adds at most `T` new keys to `assets`: fewer when
      names collide with each other or with earlier entries. */
  lemma NewKeysBounded<H>(inst: Instance<H>, list: seq<Asset>, outcomes: seq<Settlement<H>>, order: seq<nat>)
    requires |outcomes| == |list|
    requires IsSchedule(order, |list|)
    ensures var a := LoadAssets(inst, list, outcomes, order).instance.assets;
      |a.Keys - inst.assets.Keys| <= |list|
  {
    var a := LoadAssets(inst, list, outcomes, order).instance.assets;
    PriorEntriesSurvive(inst, list, outcomes, order);
    BatchNamesCardinality(list);
    assert a.Keys - inst.assets.Keys <= BatchNames(list);
    SubsetCardinality(a.Keys - inst.assets.Keys, BatchNames(list));
  }

  /** With pairwise distinct names that are new to the instance, a batch of
      `T` tasks adds exactly `T` keys. */
  lemma DistinctNewNamesAddAll<H>(inst: Instance<H>, list: seq<Asset>, outcomes: seq<Settlement<H>>, order: seq<nat>)
    requires |outcomes| == |list|
    requires IsSchedule(order, |list|)
    requires forall i, j :: 0 <= i < j < |list| ==> list[i].name != list[j].name
    requires forall i :: 0 <= i < |list| ==> list[i].name !in inst.assets
    ensures var a := LoadAssets(inst, list, outcomes, order).instance.assets;
      |a.Keys - inst.assets.Keys| == |list|
  {
    var a := LoadAssets(inst, list, outcomes, order).instance.assets;
    PriorEntriesSurvive(inst, list, outcomes, order);
    BatchNamesCardinality(list);
    assert a.Keys - inst.assets.Keys == BatchNames(list);
  }

  /** Sequential reuse: an entry stored by one batch survives a later batch
      on the same instance that does not name it, and a later empty batch
      completes with the persisted `assets` object rather than an empty one. */
  lemma EntriesPersistAcrossBatches<H>(inst: Instance<H>,
                                       first: seq<Asset>, firstOutcomes: seq<Settlement<H>>, firstOrder: seq<nat>,
                                       second: seq<Asset>, secondOutcomes: seq<Settlement<H>>, secondOrder: seq<nat>)
    requires |firstOutcomes| == |first| && IsSchedule(firstOrder, |first|)
    requires |secondOutcomes| == |second| && IsSchedule(secondOrder, |second|)
    ensures var r1 := LoadAssets(inst, first, firstOutcomes, firstOrder);
      var r2 := LoadAssets(r1.instance, second, secondOutcomes, secondOrder);
      && (forall i :: 0 <= i < |first| && first[i].name !in BatchNames(second) ==>
            first[i].name in r2.instance.assets
            && r2.instance.assets[first[i].name] == r1.instance.assets[first[i].name])
      && (|second| == 0 ==> r2.events == [Complete(r1.instance.assets)])
  {
    var r1 := LoadAssets(inst, first, firstOutcomes, firstOrder);
    PriorEntriesSurvive(inst, first, firstOutcomes, firstOrder);
    PriorEntriesSurvive(r1.instance, second, secondOutcomes, secondOrder);
  }
}
