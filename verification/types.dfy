/**
  The values an `AssetLoader` instance works with: the asset requests of a
  batch, the JavaScript values its `assets` object holds, the settlement of an
  adapter's promise, the callback invocations of a batch, and the instance's
  own three fields.

  Resource handles (an image element, a parsed JSON document, a `<script>`
  element, ...) are opaque: they are a type parameter `H` throughout.
 */
module LoaderTypes {

  /** The conventional optional value, used for the result of a lookup. */
  datatype Option<+T> = None | Some(value: T)

  /** One entry of the asset list handed to `loadAssets`. The source reads the
      entry's `type` field, here called `kind`. */
  datatype Asset = Asset(name: string, kind: string, src: string)

  /** A JavaScript value as stored in `this.assets[name]`: `null`, or a
      resource handle produced by an adapter. */
  datatype Value<+H> = Null | Handle(handle: H)

  /** How the promise returned by an adapter settles: fulfilled with a value
      (which may itself be `null`, e.g. a JSON document that is `null`), or
      rejected with an error whose payload the loader ignores. */
  datatype Settlement<+H> = Fulfilled(value: Value<H>) | Rejected

  /** The `assets` object of an instance, keyed by asset name. */
  type Assets<H> = map<string, Value<H>>

  /** One invocation of a caller's callback. `Progress(loaded, total, name, value)`
      is `onProgress(loaded / total, name, value)`; the fraction is kept as the
      integer pair. `Complete(assets)` is `onComplete(assets)`. */
  datatype Event<H> =
    | Progress(loaded: nat, total: nat, name: string, value: Value<H>)
    | Complete(assets: Assets<H>)

  /** The three fields of an `AssetLoader` instance. */
  datatype Instance<H> = Instance(assets: Assets<H>, totalAssets: nat, loadedAssets: nat)

  /** The instance after some steps, together with the callback invocations
      those steps made, in order. */
  datatype Run<H> = Run(instance: Instance<H>, events: seq<Event<H>>)

  /** The instance as the constructor leaves it. */
  function Fresh<H>(): (inst: Instance<H>)
    ensures inst.assets == map[]
    ensures inst.totalAssets == 0 && inst.loadedAssets == 0
  {
    Instance(map[], 0, 0)
  }

  /** The number of `onComplete` invocations in a trace. */
  function Completions<H>(events: seq<Event<H>>): (c: nat)
    ensures c <= |events|
    ensures c == 0 <==> forall k :: 0 <= k < |events| ==> events[k].Progress?
  {
    if |events| == 0 then 0
    else Completions(events[..|events| - 1]) + (if events[|events| - 1].Complete? then 1 else 0)
  }
}
