/**
  The `switch (asset.type)` of `_loadAsset` and the `try`/`catch` around the
  `await`: which adapter a task starts, and which value the task commits once
  that adapter's promise has settled.
 */
module Dispatch {
  import opened LoaderTypes

  /** The six adapters, `loadImage` ... `loadJS`. */
  datatype Adapter = Image | Video | Audio | Json | Css | Js

  /** The `type` string that selects an adapter. */
  function TypeName(a: Adapter): string
  {
    match a
    case Image => "image"
    case Video => "video"
    case Audio => "audio"
    case Json => "json"
    case Css => "css"
    case Js => "js"
  }

  /** The six `type` strings the switch recognises. */
  const KnownTypes: set<string> := {"image", "video", "audio", "json", "css", "js"}

  /** Selects the adapter for an asset type; `None` is the `default:` branch,
      whose loader is `Promise.resolve(null)`. */
  function SelectAdapter(kind: string): (r: Option<Adapter>)
    ensures r.Some? <==> kind in KnownTypes
    ensures r.Some? ==> TypeName(r.value) == kind
  {
    match kind
    case "image" => Some(Image)
    case "video" => Some(Video)
    case "audio" => Some(Audio)
    case "json" => Some(Json)
    case "css" => Some(Css)
    case "js" => Some(Js)
    case _ => None
  }

  /** Every adapter is reachable, and only through its own type string. */
  lemma SelectAdapterInvertsTypeName(a: Adapter, kind: string)
    ensures SelectAdapter(TypeName(a)) == Some(a)
    ensures SelectAdapter(kind) == Some(a) <==> kind == TypeName(a)
  {
  }

  /** The value a task writes to `assets[name]`. For a known type it is what
      the adapter's promise fulfilled with, or `null` when it rejected; for an
      unknown type the adapter oracle is never consulted and the value is the
      `null` of `Promise.resolve(null)`. */
  function Settle<H>(asset: Asset, outcome: Settlement<H>): (v: Value<H>)
    ensures SelectAdapter(asset.kind).None? ==> v == Null
    ensures outcome.Rejected? ==> v == Null
    ensures SelectAdapter(asset.kind).Some? && outcome.Fulfilled? ==> v == outcome.value
    ensures v.Handle? <==> asset.kind in KnownTypes && outcome.Fulfilled? && outcome.value.Handle?
  {
    match SelectAdapter(asset.kind)
    case None => Null
    case Some(_) =>
      match outcome
      case Fulfilled(value) => value
      case Rejected => Null
  }

  /** The value each task of a batch commits, given each task's settlement. */
  function TaskValues<H>(list: seq<Asset>, outcomes: seq<Settlement<H>>): (vs: seq<Value<H>>)
    requires |outcomes| == |list|
    ensures |vs| == |list|
    ensures forall i :: 0 <= i < |list| ==> vs[i] == Settle(list[i], outcomes[i])
  {
    seq(|list|, i requires 0 <= i < |list| => Settle(list[i], outcomes[i]))
  }
}
