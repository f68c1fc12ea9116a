/**
 The module's default export: one wrapper per lifecycle callback of the
 underlying plugin, under that callback's own name.
 */
module PluginExport {
  import opened Optional
  import opened PluginShape

  /** The property names of the default export, in declaration order. */
  const ExportedNames: seq<string> := ["addChannel", "prepare", "publish", "verifyConditions"]

  /** The callback whose wrapper the default export holds under `name`, if any.
      Only the four lifecycle names are exported; any other property is absent. */
  function Lifecycle(name: string): (r: Option<Callback>)
    ensures r.Some? <==> name in ExportedNames
    ensures r.Some? ==> r.value.Name() == name
  {
    if name == "addChannel" then Some(AddChannel)
    else if name == "prepare" then Some(Prepare)
    else if name == "publish" then Some(Publish)
    else if name == "verifyConditions" then Some(VerifyConditions)
    else None
  }

  /** Every callback is exported under its own name, so the wrapper exported
      as `name` performs the callback called `name` on each registry. */
  lemma LifecycleRoundTrip(cb: Callback)
    ensures cb.Name() in ExportedNames
    ensures Lifecycle(cb.Name()) == Some(cb)
  {
  }

  /** No two callbacks share a name: the export has exactly four entries. */
  lemma CallbackNamesDistinct(a: Callback, b: Callback)
    ensures a.Name() == b.Name() <==> a == b
  {
    LifecycleRoundTrip(a);
    LifecycleRoundTrip(b);
  }
}
