/**
  The batch bookkeeping of `AssetLoader`: `loadAssets` and the commit step at
  the end of `_loadAsset`.

  Between the write to `this.assets[asset.name]` and the completion check
  there is no `await`, so under the single-threaded event loop each task's
  commit is one atomic step. A batch of `T` tasks is therefore a fold of `T`
  commits over a commit order (a permutation of the task indices, see
  `Schedule`), and each task's value comes from the settlement of its
  adapter's promise (see `Dispatch.Settle`).
 */
module AssetLoader {
  import opened LoaderTypes
  import opened Dispatch
  import opened Schedule

  /** The commit step of one task: store the value under the task's name,
      count the task, report progress with the value just stored, and call
      `onComplete` when the counter has reached the batch size. */
  function Commit<H>(inst: Instance<H>, name: string, value: Value<H>): (r: Run<H>)
    ensures name in r.instance.assets && r.instance.assets[name] == value
    ensures forall n :: n != name ==> (n in r.instance.assets <==> n in inst.assets)
    ensures forall n :: n != name && n in inst.assets ==> r.instance.assets[n] == inst.assets[n]
    ensures r.instance.totalAssets == inst.totalAssets
    ensures r.instance.loadedAssets == inst.loadedAssets + 1
    ensures 1 <= |r.events| <= 2
    ensures r.events[0] == Progress(inst.loadedAssets + 1, inst.totalAssets, name, value)
    ensures |r.events| == 2 <==> inst.loadedAssets + 1 == inst.totalAssets
    ensures |r.events| == 2 ==> r.events[1] == Complete(r.instance.assets)
  {
    var assets := inst.assets[name := value];
    var loaded := inst.loadedAssets + 1;
    var progress := Progress(loaded, inst.totalAssets, name, assets[name]);
    var after := Instance(assets, inst.totalAssets, loaded);
    if loaded == inst.totalAssets then Run(after, [progress, Complete(assets)])
    else Run(after, [progress])
  }

  /** The commits of the tasks `order[0]`, `order[1]`, ... applied in that
      order to `inst`; task `i` stores `values[i]` under `list[i].name`. */
  function Commits<H>(inst: Instance<H>, list: seq<Asset>, values: seq<Value<H>>, order: seq<nat>): (r: Run<H>)
    requires |values| == |list|
    requires ValidIndices(order, |list|)
    ensures r.instance.totalAssets == inst.totalAssets
    ensures r.instance.loadedAssets == inst.loadedAssets + |order|
    ensures inst.assets.Keys <= r.instance.assets.Keys
    decreases |order|
  {
    if |order| == 0 then Run(inst, [])
    else
      var prev := Commits(inst, list, values, order[..|order| - 1]);
      var i := order[|order| - 1];
      var step := Commit(prev.instance, list[i].name, values[i]);
      Run(step.instance, prev.events + step.events)
  }

  /** `loadAssets(list, onProgress, onComplete)` run to the end on `inst`:
      the counters are reset, an empty list completes at once, and otherwise
      one task per asset commits, in the given order, the value its adapter's
      settlement yields. The `assets` object itself is not reset. */
  function LoadAssets<H>(inst: Instance<H>, list: seq<Asset>, outcomes: seq<Settlement<H>>, order: seq<nat>): (r: Run<H>)
    requires |outcomes| == |list|
    requires IsSchedule(order, |list|)
    ensures r.instance.totalAssets == |list| && r.instance.loadedAssets == |list|
    ensures inst.assets.Keys <= r.instance.assets.Keys
    ensures |r.events| == |list| + 1
    ensures r.events[|list|] == Complete(r.instance.assets)
    ensures forall i :: 0 <= i < |list| ==> list[i].name in r.instance.assets
  {
    var reset := Instance(inst.assets, |list|, 0);
    if |list| == 0 then Run(reset, [Complete(reset.assets)])
    else
      var values := TaskValues(list, outcomes);
      CommitsTrace(reset, list, values, order);
      CommitsKeys(reset, list, values, order);
      ScheduleWritesBatchNames(list, order);
      Commits(reset, list, values, order)
  }

  /** The names the first `|order|` commits write. */
  function WrittenNames(list: seq<Asset>, order: seq<nat>): set<string>
    requires ValidIndices(order, |list|)
  {
    set k | 0 <= k < |order| :: list[order[k]].name
  }

  /** The names of all assets of a batch. */
  function BatchNames(list: seq<Asset>): set<string>
  {
    set i | 0 <= i < |list| :: list[i].name
  }

  /** Under a schedule the commits of a batch write exactly the batch's names. */
  lemma ScheduleWritesBatchNames(list: seq<Asset>, order: seq<nat>)
    requires IsSchedule(order, |list|)
    ensures WrittenNames(list, order) == BatchNames(list)
  {
    ScheduleCoversEveryTask(order, |list|);
    forall n | n in BatchNames(list)
      ensures n in WrittenNames(list, order)
    {
      var i :| 0 <= i < |list| && list[i].name == n;
      assert i in order;
      var k :| 0 <= k < |order| && order[k] == i;
      assert list[order[k]].name == n;
    }
  }

  /** The last commit of a run stores its task's value under its name. */
  lemma CommitsStoresLast<H>(inst: Instance<H>, list: seq<Asset>, values: seq<Value<H>>, order: seq<nat>)
    requires |values| == |list|
    requires ValidIndices(order, |list|)
    requires 0 < |order|
    ensures var a := Commits(inst, list, values, order).instance.assets;
      var i := order[|order| - 1];
      list[i].name in a && a[list[i].name] == values[i]
  {
  }

  /** Position `k` of `order` holds the last commit that writes name `n`. */
  predicate LastWriterAt(list: seq<Asset>, order: seq<nat>, n: string, k: int)
    requires ValidIndices(order, |list|)
  {
    && 0 <= k < |order|
    && list[order[k]].name == n
    && forall j :: k < j < |order| ==> list[order[j]].name != n
  }

  /** The callback trace of a run of commits from a zeroed counter: the
      `k`-th commit reports `(k + 1, total)` with its own task's name and
      value, and `onComplete` follows the commit that reaches `total`. */
  lemma {:induction false} CommitsTrace<H>(inst: Instance<H>, list: seq<Asset>, values: seq<Value<H>>, order: seq<nat>)
    requires |values| == |list|
    requires ValidIndices(order, |list|)
    requires inst.loadedAssets == 0 && 0 < inst.totalAssets && |order| <= inst.totalAssets
    ensures var r := Commits(inst, list, values, order);
      && |r.events| == |order| + (if |order| == inst.totalAssets then 1 else 0)
      && (forall k :: 0 <= k < |order| ==>
            r.events[k] == Progress(k + 1, inst.totalAssets, list[order[k]].name, values[order[k]]))
      && (|order| == inst.totalAssets ==> r.events[|order|] == Complete(r.instance.assets))
    decreases |order|
  {
    if |order| > 0 {
      var front := order[..|order| - 1];
      var i := order[|order| - 1];
      CommitsTrace(inst, list, values, front);
      var prev := Commits(inst, list, values, front);
      var step := Commit(prev.instance, list[i].name, values[i]);
      var r := Commits(inst, list, values, order);
      assert r.events == prev.events + step.events;
      forall k | 0 <= k < |order|
        ensures r.events[k] == Progress(k + 1, inst.totalAssets, list[order[k]].name, values[order[k]])
      {
        if k < |front| {
          assert order[k] == front[k];
        }
      }
    }
  }

  /** The keys of `assets` after a run of commits are the old keys plus the
      written names; a name nobody wrote keeps its old value. */
  lemma {:induction false} CommitsKeys<H>(inst: Instance<H>, list: seq<Asset>, values: seq<Value<H>>, order: seq<nat>)
    requires |values| == |list|
    requires ValidIndices(order, |list|)
    ensures var a := Commits(inst, list, values, order).instance.assets;
      && a.Keys == inst.assets.Keys + WrittenNames(list, order)
      && (forall n :: n in inst.assets && n !in WrittenNames(list, order) ==> a[n] == inst.assets[n])
    decreases |order|
  {
    if |order| > 0 {
      var front := order[..|order| - 1];
      var i := order[|order| - 1];
      CommitsKeys(inst, list, values, front);
      assert WrittenNames(list, order) == WrittenNames(list, front) + {list[i].name} by {
        forall k | 0 <= k < |front| ensures front[k] == order[k] { }
      }
    }
  }

  /** A written name holds the value of the last commit that wrote it. */
  lemma {:induction false} CommitsLastWriter<H>(inst: Instance<H>, list: seq<Asset>, values: seq<Value<H>>, order: seq<nat>)
    requires |values| == |list|
    requires ValidIndices(order, |list|)
    ensures var a := Commits(inst, list, values, order).instance.assets;
      forall n, k :: LastWriterAt(list, order, n, k) ==> n in a && a[n] == values[order[k]]
    decreases |order|
  {
    if |order| > 0 {
      var front := order[..|order| - 1];
      var i := order[|order| - 1];
      CommitsLastWriter(inst, list, values, front);
      var a := Commits(inst, list, values, order).instance.assets;
      forall n, k | LastWriterAt(list, order, n, k)
        ensures n in a && a[n] == values[order[k]]
      {
        if k < |front| {
          assert list[i].name != n;
          assert LastWriterAt(list, front, n, k) by {
            forall j | k < j < |front| ensures list[front[j]].name != n {
              assert front[j] == order[j];
            }
          }
        }
      }
    }
  }
}
