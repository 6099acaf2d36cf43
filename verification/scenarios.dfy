/**
  Concrete batches, each stated for every commit order the event loop may
  produce.
 */
module Scenarios {
  import opened LoaderTypes
  import opened Dispatch
  import opened Schedule
  import opened AssetLoader
  import opened BatchProperties

  /** Two JSON assets, the first fetched and parsed to `doc`, the second
      answered with a failure status: whichever settles first, the batch
      completes once with `{a: doc, b: null}` on a fresh instance. */
  lemma JsonPairScenario<H>(doc: H, order: seq<nat>)
    requires IsSchedule(order, 2)
    ensures var list := [Asset("a", "json", "ok.json"), Asset("b", "json", "bad.json")];
      var r := LoadAssets(Fresh(), list, [Fulfilled(Handle(doc)), Rejected], order);
      && r.instance.assets == map["a" := Handle(doc), "b" := Null]
      && Completions(r.events) == 1
      && r.events[2] == Complete(map["a" := Handle(doc), "b" := Null])
  {
    var list := [Asset("a", "json", "ok.json"), Asset("b", "json", "bad.json")];
    var outcomes: seq<Settlement<H>> := [Fulfilled(Handle(doc)), Rejected];
    var r := LoadAssets(Fresh(), list, outcomes, order);
    var a := r.instance.assets;
    assert Settle(list[0], outcomes[0]) == Handle(doc) && Settle(list[1], outcomes[1]) == Null by {
      assert SelectAdapter("json") == Some(Json);
    }
    PriorEntriesSurvive(Fresh(), list, outcomes, order);
    LastCommitWins(Fresh(), list, outcomes, order);
    CompletesOnce(Fresh(), list, outcomes, order);
    assert BatchNames(list) == {"a", "b"} by {
      assert list[0].name == "a" && list[1].name == "b";
    }
    var ka := if order[0] == 0 then 0 else 1;
    var kb := 1 - ka;
    assert order[ka] == 0 && order[kb] == 1;
    assert LastWriterAt(list, order, "a", ka);
    assert LastWriterAt(list, order, "b", kb);
    assert a["a"] == Handle(doc) && a["b"] == Null;
    assert a.Keys == {"a", "b"};
  }

  /** One asset of a type the loader does not know: its single commit reports
      `(1, 1)` with `null`, then the batch completes with `{u: null}`. */
  lemma UnsupportedTypeScenario<H>(outcome: Settlement<H>)
    ensures var r := LoadAssets(Fresh(), [Asset("u", "unsupported", "x.bin")], [outcome], [0]);
      r.events == [Progress(1, 1, "u", Null), Complete(map["u" := Null])]
  {
    assert "unsupported" !in KnownTypes;
  }

  /** Reusing that instance for an empty list completes at once with the
      entry the earlier batch left behind, not with an empty object. */
  lemma ReusedInstanceEmptyBatch<H>(outcome: Settlement<H>)
    ensures var r1 := LoadAssets(Fresh(), [Asset("u", "unsupported", "x.bin")], [outcome], [0]);
      var r2 := LoadAssets(r1.instance, [], [], []);
      r2.events == [Complete(map["u" := Null])] && r2.events != [Complete(map[])]
  {
    UnsupportedTypeScenario(outcome);
  }
}
