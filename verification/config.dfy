/**
 The plugin configuration the orchestrator passes in: the `registries` object,
 and every other option, which is shared by all registries. Each registry's
 callback receives its own fragment with the shared options spread over it.
 */
module ConfigMerge {
  import opened JsValues

  const RegistriesKey: string := "registries"

  /** The `registries` property, `undefined` when the configuration has none. */
  function Registries(config: Record): (v: Value)
    ensures RegistriesKey !in config ==> v == Undefined
  {
    if RegistriesKey in config then config[RegistriesKey] else Undefined
  }

  /** The rest of the configuration once `registries` is destructured out. */
  function Shared(config: Record): (r: Record)
    ensures r.Keys == config.Keys - {RegistriesKey}
    ensures forall k :: k in r ==> r[k] == config[k]
  {
    config - {RegistriesKey}
  }

  /** Destructuring loses nothing: putting `registries` back into the shared
      options rebuilds the configuration. */
  lemma SplitRoundTrip(config: Record)
    ensures RegistriesKey in config ==> Shared(config)[RegistriesKey := Registries(config)] == config
    ensures RegistriesKey !in config ==> Shared(config) == config
  {
  }

  /** `{ ...fragment, ...shared }`: the configuration one registry's callback
      receives. */
  function Merge(fragment: Value, shared: Record): Record
  {
    Spread(fragment) + shared
  }

  /** The merged configuration has exactly the options of the fragment and of
      the shared part; where both define an option the SHARED value is the one
      kept, and every other option keeps the fragment's value. */
  lemma MergeSharedWins(fragment: Value, shared: Record)
    ensures Merge(fragment, shared).Keys == Spread(fragment).Keys + shared.Keys
    ensures forall k :: k in shared ==> Merge(fragment, shared)[k] == shared[k]
    ensures forall k :: k in Spread(fragment) && k !in shared ==> Merge(fragment, shared)[k] == Spread(fragment)[k]
  {
  }

  /** The merged configuration holds a `registries` option only when the
      registry's own fragment defines one; the shared part never brings it. */
  lemma MergeHasRegistriesOnlyFromFragment(fragment: Value, config: Record)
    ensures RegistriesKey in Merge(fragment, Shared(config)) <==> RegistriesKey in Spread(fragment)
  {
  }

  /** A registry fragment that is not an object or a string contributes nothing:
      the callback receives the shared options alone. */
  lemma PrimitiveFragmentGivesShared(fragment: Value, shared: Record)
    requires !fragment.Obj? && !fragment.Str?
    ensures Merge(fragment, shared) == shared
  {
  }

  /** The configuration of the example below:
      `{ registries: { g: { x: 1 }, p: {} }, x: 0, y: 2 }`. */
  function ExampleConfig(): Record
  {
    map[RegistriesKey := Obj([("g", Obj([("x", Num(1))])), ("p", Obj([]))]),
        "x" := Num(0), "y" := Num(2)]
  }

  /** On that configuration both registries receive `{ x: 0, y: 2 }`: the shared `x`
      overrides `g`'s own `x: 1`. */
  lemma ExampleSharedWins()
    ensures Merge(Obj([("x", Num(1))]), Shared(ExampleConfig())) == map["x" := Num(0), "y" := Num(2)]
    ensures Merge(Obj([]), Shared(ExampleConfig())) == map["x" := Num(0), "y" := Num(2)]
  {
    var shared := Shared(ExampleConfig());
    assert shared == map["x" := Num(0), "y" := Num(2)];
    var g: seq<(string, Value)> := [("x", Num(1))];
    assert g[0].0 == "x";
    assert Names(g) == {"x"};
    assert Names([]) == {};
  }
}
