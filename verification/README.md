# AssetLoader batch bookkeeping, in Dafny

This project models the core of `AssetLoader` (`assetLoader.mjs`): the
`loadAssets` call that starts one load task per requested asset, and the
commit step each task runs once its adapter's promise settles — store the
value (or `null` on rejection) under the asset's name, count the task, call
`onProgress`, and call `onComplete` when the count reaches the batch size.

Between the write to `this.assets[asset.name]` and the completion check
there is no `await`, so under JavaScript's single-threaded event loop each
commit is atomic. A batch of `T` assets is therefore modelled as a fold of `T`
commits over a commit order — any permutation of the task indices — and each
task's value comes from an oracle: the settlement of its adapter's promise.

- `types.dfy` (`LoaderTypes`): assets, JavaScript values (`Null` or an opaque
  handle), promise settlements, callback events, the instance's three fields.
- `dispatch.dfy` (`Dispatch`): the `switch (asset.type)` and the
  `try`/`catch` that turns a rejection into `null`.
- `schedule.dfy` (`Schedule`): commit orders as permutations, and the
  pigeonhole fact that a permutation contains every task.
- `loader.dfy` (`AssetLoader`): `Commit`, the fold `Commits`, `LoadAssets`,
  and the inductive facts about the fold.
- `batch.dfy` (`BatchProperties`): the guarantees of a whole batch, for every
  commit order and every settlement.
- `scenarios.dfy` (`Scenarios`): concrete batches over all commit orders.

Callbacks are not functions in the model: each invocation is an `Event` in
the trace a run returns, `Progress(loaded, total, name, value)` for
`onProgress(loaded / total, name, value)` and `Complete(assets)` for
`onComplete(assets)`.

Behaviour of the code that the model keeps as written:

- The `assets` object is created in the constructor only and is never reset
  by `loadAssets`; entries of earlier batches persist into later ones.
- An empty list calls `onComplete` with that persisted object, which holds
  whatever earlier batches on the instance stored
  (`Scenarios.ReusedInstanceEmptyBatch`).
- Duplicate names overwrite each other; the last commit of a name wins.
- An unknown type gets the loader `Promise.resolve(null)`: the loader promise
  fulfils with `null`, which is committed and counted like any other value.

## Model

| member | source | states |
|---|---|---|
| LoaderTypes.Fresh | assetLoader.mjs:2-6 | a new instance has an empty `assets` object and both counters 0 |
| Dispatch.TaskValues | assetLoader.mjs:17 | one value per asset, in list order: the value task i commits is what its own adapter settlement yields under the dispatch and `null`-on-failure rules |
| Dispatch.SelectAdapter | assetLoader.mjs:23-45 | exactly the six strings image, video, audio, json, css and js select an adapter, and the adapter selected is the one named by that string; every other type takes the default branch |
| Dispatch.SelectAdapterInvertsTypeName | assetLoader.mjs:24-41 | each adapter is selected by its own type string and by no other string |
| Dispatch.Settle | assetLoader.mjs:42-52 | the committed value is `null` for an unknown type (whatever the adapter would have done) and for a rejected promise; otherwise it is the fulfilled value; it is a handle only for a known type whose adapter fulfilled with a handle |
| AssetLoader.Commit | assetLoader.mjs:47-59 | a commit stores the value under its own name and changes no other key; it increments the loaded counter by one and keeps the total; it reports progress with the new count and the value just stored; it calls `onComplete` with the updated object exactly when the new count equals the total |
| AssetLoader.Commits | assetLoader.mjs:54 | after a run of commits the loaded counter has grown by the number of commits, the total is unchanged, and no key was removed |
| AssetLoader.LoadAssets | assetLoader.mjs:8-19 | at the end of any batch loaded == total == T; the trace has T + 1 callbacks, the last being `onComplete` with the final object; every asset's name is a key of it; no key present before the batch is removed |
| AssetLoader.CommitsTrace | assetLoader.mjs:54-59 | from a zeroed counter, the k-th commit reports (k + 1, total) with its own task's name and value, and `onComplete` comes right after the commit that reaches the total and not before |
| AssetLoader.CommitsKeys | assetLoader.mjs:47-52 | after a run of commits the keys are the old keys plus the written names, and a key no commit wrote keeps its old value |
| AssetLoader.CommitsLastWriter | assetLoader.mjs:49-51 | a written name holds the value of the last commit in the order that wrote it |
| AssetLoader.ScheduleWritesBatchNames | assetLoader.mjs:17-18 | when every task commits once, the names written are exactly the names of the batch |
| Schedule.ScheduleCoversEveryTask | assetLoader.mjs:17-18 | a commit order of T distinct task indices below T contains every task, so no task is skipped |
| Schedule.SchedulePositionUnique | assetLoader.mjs:17-18 | each task commits at exactly one position of the commit order |
| BatchProperties.EmptyBatchShortCircuits | assetLoader.mjs:12-15 | an empty list makes exactly one callback, `onComplete` with the instance's current `assets` object, reports no progress, starts no task, and leaves both counters 0 |
| BatchProperties.ProgressNumerators | assetLoader.mjs:54-55 | for every commit order, the progress numerators are 1..T over total T, each exactly once, in increasing order |
| BatchProperties.CounterBounded | assetLoader.mjs:54-57 | after the first k commits the loaded counter is k and never exceeds the total T |
| BatchProperties.StoredAfterCommit | assetLoader.mjs:49-51 | after the k-th commit the object holds that commit's value under that commit's name |
| BatchProperties.ProgressReportsTask | assetLoader.mjs:54-55 | the k-th progress callback names the k-th committing task and carries its settled value |
| BatchProperties.ProgressReportsStoredValue | assetLoader.mjs:49-55 | the value each progress callback reports is the value its commit has just stored under the reported name |
| BatchProperties.CompletesOnce | assetLoader.mjs:54-59 | for a non-empty list `onComplete` fires exactly once, as the last callback, right after the T-th commit's progress callback, with the object holding that commit's write and every asset's name |
| BatchProperties.EveryTaskCommits | assetLoader.mjs:47-55 | every task commits exactly once whatever its adapter did, and its progress callback carries its settled value, which is `null` after a rejection or for an unknown type |
| BatchProperties.UnknownTypeCommitsNull | assetLoader.mjs:42-55 | an unknown-type asset is committed as `null`, counted, reported as `null` in its own progress callback, and the batch still completes exactly once |
| BatchProperties.StallsWhileTaskPending | assetLoader.mjs:47-59 | while fewer than T tasks have committed (some adapter promise still pending), the counter is below the total and `onComplete` has not fired |
| BatchProperties.PriorEntriesSurvive | assetLoader.mjs:47-52 | the keys after a batch are the earlier keys plus the batch's names, and every entry the batch does not name keeps its value |
| BatchProperties.LastCommitWins | assetLoader.mjs:49-54 | with duplicate names there are still T commits; each batch name has a last committing task and ends holding that task's value |
| BatchProperties.NewKeysBounded | assetLoader.mjs:49-51 | a batch of T assets adds at most T new keys |
| BatchProperties.DistinctNewNamesAddAll | assetLoader.mjs:49-51 | a batch of T pairwise distinct names, none already present, adds exactly T keys |
| BatchProperties.EntriesPersistAcrossBatches | assetLoader.mjs:3-15 | sequential reuse: an entry of one batch survives a later batch that does not name it, and a later empty batch completes with the persisted object |
| Scenarios.JsonPairScenario | assetLoader.mjs:47-59 | JSON `a` fulfilled with a document and JSON `b` rejected: in either commit order a fresh instance ends with exactly `{a: document, b: null}` and completes once |
| Scenarios.UnsupportedTypeScenario | assetLoader.mjs:42-59 | a single asset of type `unsupported` yields exactly `onProgress(1/1, u, null)` then `onComplete({u: null})` |
| Scenarios.ReusedInstanceEmptyBatch | assetLoader.mjs:3-15 | an empty list on a reused instance completes with the entries an earlier batch left, not with an empty object |

## Left out

- The adapters `loadImage`, `loadVideo`, `loadAudio`, `loadJSON`, `loadCSS` and `loadJS` (assetLoader.mjs:62-117) are DOM, media and `fetch` I/O; each task's settlement is a parameter (`outcomes[i]`), consulted only when the type is known.
- `console.warn` for an unknown type is a diagnostic side effect and is not modelled.
- `Promise.all` and real scheduling are replaced by a commit order, any permutation of the task indices; the promises `loadAssets` and `_loadAsset` return are not modelled.
- Overlapping `loadAssets` calls on one instance share the counters and are not modelled; only sequential reuse is.
- The progress fraction `loadedAssets / totalAssets` is floating-point; the model reports the integer pair.
- A non-array list of non-zero length faults at `assetList.map` (line 17); one of length zero (`""`, `{length: 0}`) takes the empty-list path. An entry that is itself `null` or `undefined` throws in its task before it commits, and a sparse array starts fewer tasks than its length, so in both cases the batch never completes; such input is not modelled. An entry without `type` is modelled: `undefined` matches no case and takes the unknown-type path. An entry without `name` is stored under the key `"undefined"`, but `onProgress` receives `undefined` itself as the name; the model reports the string `"undefined"`.
- LoadAssets: assumes every adapter promise settles; the source has no timeout around `await loader`, and a request or media element that never signals leaves its task pending (`BatchProperties.StallsWhileTaskPending` states what holds then).
- CompletesOnce: "exactly once" holds only when every adapter promise settles; with a task pending `onComplete` never fires, so the source guarantees at most once in general.
- Callbacks are assumed to return normally without re-entering the loader or mutating `assets`; a throwing `onProgress` would skip that task's completion check.
- `onComplete` receives the live `assets` object, which later batches keep mutating; the model hands over its value at the time of the call.
- Names are plain string keys; JavaScript's special handling of keys such as `__proto__` is not modelled.
