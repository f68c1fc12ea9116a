# semantic-release-npm-multiple, modelled in Dafny

The package is a fan-out adapter for semantic-release. It lets one release
step publish a package to several npm registries by running one isolated copy
of the `@semantic-release/npm` plugin per registry. This project models its
whole core, `index.js`, which has three parts.

- **The instance cache** (`getChildPlugin`). It maps each registry name to
  the pending import of that registry's own copy of the plugin. The import is
  stored before it is awaited, so every later lookup of the name gets the same
  copy. This is module `InstanceCache`, and `PluginShape` describes what the
  adapter can see of a copy.
- **The callback multiplexer** (`createCallbackWrapper`). It is modelled in
  four modules:
  - `Multiplexer` models the walk over the `registries` entries and the halt
    on a misconfigured registry.
  - `ConfigMerge` models the split of the configuration into `registries` and
    shared options, and the `{ ...fragment, ...shared }` merge.
  - `EnvScoping` models the per-registry environment, where
    `<REGISTRY>_<VAR>` overrides `<VAR>` for six credential variables.
  - `JsValues` models the JavaScript values the wrapper enumerates and spreads.
- **The default export**: one wrapper per lifecycle callback, in module
  `PluginExport`.

A wrapper call is a pure function, `Multiplexer.Run`. It takes the registry
entries, the shared options, the context, the cache and a `World`, and returns
an `Outcome`:
- the trace of log lines and invocations, in order;
- the cache it leaves behind;
- whether the call completed, halted on a misconfigured registry, or threw.

The `World` is a parameter standing for what the model cannot compute: what
loading a copy of the plugin yields, and whether an underlying callback throws.

On a valid cache, the walk has a closed form. `Plan` lists the invocation each
registry would receive. The trace is the "Performing …" line and invocation of
every registry before the first registry that stops the walk, followed by that
registry's own events. The main properties, `InvocationsInOrder`,
`HaltLogsOneError` and `ThrowLogsNothing`, are proved through that closed form.

The cache in the source is a plain `{}`, so a lookup also sees the names an
object inherits from `Object.prototype` (see "## Findings"). `Run` uses the
corrected, own-key lookup. `Multiplexer.RunAsWritten` is the walk with the
lookup as written. The two agree on every walk in which no registry is named
like an inherited member (`Multiplexer.RunAsWrittenAgrees`). A walk as written
that reaches such a registry halts there without importing anything
(`Multiplexer.InheritedRegistryHaltsAsWritten`).

The merge `{ ...childConfig, ...pluginConfig }` (index.js:106) lets the shared
options win over a registry's own fragment (`ConfigMerge.MergeSharedWins`,
`ConfigMerge.ExampleSharedWins`). Likewise, the code removes `registries` only
from the shared part. A fragment that itself has a `registries` property
therefore passes it on (`ConfigMerge.MergeHasRegistriesOnlyFromFragment`).

## Model

| member | source | states |
|---|---|---|
| `JsValues.CharEntries` | index.js:66-68 | `Object.entries` of a string enumerates each character, in order, under its decimal index |
| `JsValues.ToRecord` | index.js:106 | defining entries one after another gives an object with exactly their names, each holding its last definition |
| `JsValues.Spread` | index.js:106 | `{ ...v }` has exactly the names `Object.entries(v)` enumerates; `null`, `undefined`, booleans and numbers spread to `{}` |
| `InstanceCache.Resolve` | index.js:19-48 | a lookup adds at most the looked-up name to the cache and changes no existing entry; a present name returns its stored handle, an absent one gets and stores a fresh handle issued for that name |
| `InstanceCache.ResolveValid` | index.js:42-45 | on a cache whose entries are their own names' imports, the handle returned is the name's own copy and the cache stays so |
| `InstanceCache.ResolveIdempotent` | index.js:20-21 | resolving a name a second time returns the identical handle and leaves the cache as the first lookup left it |
| `InstanceCache.DistinctNamesDistinctHandles` | index.js:42-45 | two different registry names never share a copy of the plugin |
| `InstanceCache.ResolveAsWritten` | index.js:15-21 | the lookup on a plain `{}` agrees with the corrected lookup except on names inherited from `Object.prototype`, which read a built-in and are never stored; a valid cache stays valid |
| `InstanceCache.ConstructorNameNeverImported` | index.js:15-21 | a registry named `constructor` gets the built-in `Object` function instead of an import, while the corrected lookup stores and returns its own copy |
| `InstanceCache.ResolveAsWrittenInherited` | index.js:15-21 | on a plain `{}`, `__proto__` reads `Object.prototype`, an object with no callbacks, and every other inherited name reads a function; nothing is stored |
| `InstanceCache.SettleAsWritten` | index.js:19-48 | awaiting the lookup as written yields the loaded import of the corrected lookup, except for an unstored inherited name, which yields `Object.prototype` for `__proto__` and a function for every other name |
| `EnvScoping.Upper` | index.js:87 | upper-casing keeps the length and maps each ASCII lower-case letter to upper case, leaving other characters alone |
| `EnvScoping.ScopedOverLaws` | index.js:91-103 | for any list of variables, a listed variable with an override holds it, and every other variable is exactly the ambient one |
| `EnvScoping.ScopedEnvOverrides` | index.js:87-103 | in the scoped environment the six credential variables take their non-empty overrides; without one they keep the ambient value or stay absent; every other variable, the prefixed ones included, is unchanged |
| `EnvScoping.ScopeEnv` | index.js:87-103 | the source's copy-then-override loop computes the scoped environment |
| `EnvScoping.GithubGetsItsToken` | index.js:91-103 | with a shared token and a `GITHUB_NPM_TOKEN`, registry `github` sees its own token, and the prefixed variable stays visible |
| `EnvScoping.PublicKeepsSharedToken` | index.js:91-103 | in the same environment registry `public` sees the ambient environment unchanged |
| `ConfigMerge.Shared` | index.js:65 | the shared options are every option but `registries`, with their values |
| `ConfigMerge.SplitRoundTrip` | index.js:65 | putting `registries` back into the shared options rebuilds the configuration |
| `ConfigMerge.MergeSharedWins` | index.js:106 | the merged configuration has exactly the fragment's and the shared options; the shared value wins a conflict, and any other option keeps the fragment's value |
| `ConfigMerge.MergeHasRegistriesOnlyFromFragment` | index.js:65-106 | the merged configuration holds `registries` exactly when the registry's own fragment defines it |
| `ConfigMerge.PrimitiveFragmentGivesShared` | index.js:106 | a fragment that is not an object or a string contributes nothing |
| `ConfigMerge.ExampleSharedWins` | index.js:106 | for `{ registries: { g: { x: 1 }, p: {} }, x: 0, y: 2 }` both registries receive `{ x: 0, y: 2 }` |
| `Multiplexer.ScopedContextOnlyChangesEnv` | index.js:88-107 | the context a registry receives differs from the ambient one only in `env`; outside the six credential variables its environment is the ambient one, and a missing ambient environment gives `{}` |
| `Multiplexer.Run` | index.js:66-110 | a walk adds to the cache only names of the registries it walks, changes no existing entry, and keeps the cache valid |
| `Multiplexer.Wrapper` | index.js:64-69 | with absent or empty `registries` a wrapper logs nothing, invokes nothing, leaves the cache alone and returns normally |
| `Multiplexer.FirstStop` | index.js:69-108 | the first registry that stops the walk: every registry before it goes on, and it stops the walk |
| `Multiplexer.RunClosedForm` | index.js:66-110 | on a valid cache the walk's trace is the segments of the registries before the first stop followed by that stop's events, and its ending is the stop's |
| `Multiplexer.RunCacheClosedForm` | index.js:42-45 | on a valid cache the walk adds to the cache exactly the registries it reaches, up to and including the one that stops it |
| `Multiplexer.SegmentsCalls` | index.js:105-108 | every registry the walk goes on after is invoked, in order, once |
| `Multiplexer.SegmentsInfo` | index.js:83-85 | each of those registries is announced with its own "Performing …" line, in order |
| `Multiplexer.SegmentsErrors` | index.js:70-81 | a registry the walk goes on after logs no error line |
| `Multiplexer.StopEventsProjections` | index.js:70-81 | a misconfigured registry logs exactly one error line and is neither announced nor invoked; a rejected import leaves no event; a throwing callback was announced and invoked |
| `Multiplexer.StoppedCallsPrefix` | index.js:69-108 | the invocations of a stopped walk are a prefix of the plan, one longer exactly when the stop threw |
| `Multiplexer.TraceCalls` | index.js:66-108 | the expected trace invokes the whole plan when nothing stops it, and otherwise the plan up to the first stop plus the stop's own invocation exactly when it threw; it completes exactly when nothing stops it, and then logs no error |
| `Multiplexer.RunCalls` | index.js:66-108 | the same for the walk: the invocations are the plan up to the first stop, plus the stop's own exactly when it threw; the walk completes exactly when nothing stops it, and then logs no error |
| `Multiplexer.EntriesTraceCalls` | index.js:66-108 | the invocations of the expected trace are those of a prefix of the registry entries, in order |
| `Multiplexer.EntriesTraceCompletes` | index.js:66-108 | the expected trace completes exactly when no registry stops it, and then invokes every registry and logs no error |
| `Multiplexer.InvocationsInOrder` | index.js:66-108 | registries are invoked in entry order, at most one invocation per entry, with their own copy, their merged configuration and their scoped context; the walk completes exactly when no registry stops it, and then every registry was invoked and no error was logged |
| `Multiplexer.TraceHalted` | index.js:70-85 | a halted expected trace invokes and announces, in order, exactly the registries before the stop, then logs one error line naming the reason as its last event |
| `Multiplexer.EntriesTraceHalted` | index.js:70-85 | the same in terms of the registry entries: the i-th invocation and "Performing …" line are those of the i-th entry, and the error names the halting entry's reason |
| `Multiplexer.HaltLogsOneError` | index.js:70-85 | a halted walk logs exactly one error line, as its last event, naming the reason; every earlier registry was announced with its own "Performing …" line and invoked, in order; the halting registry is not announced or invoked; no later registry is reached or cached |
| `Multiplexer.ThrowLogsNothing` | index.js:69-108 | a walk ended by an exception logs no error line |
| `Multiplexer.RunAsWritten` | index.js:15-110 | a walk with the lookup as written adds to the cache only names of the registries it walks, changes no existing entry, and keeps every entry its own name's import, so a valid cache stays valid |
| `Multiplexer.RunAsWrittenAgrees` | index.js:15-110 | when no registry is named like a member of `Object.prototype`, the walk as written is exactly `Run`, on any cache |
| `Multiplexer.RunAsWrittenFunctionStep` | index.js:69-75 | a walk as written whose first lookup reads a built-in function stops there with "plugin is null or undefined or is not an object." and an untouched cache |
| `Multiplexer.RunAsWrittenPrototypeStep` | index.js:69-81 | a walk as written whose first lookup reads `Object.prototype` stops there with "`<callback>` does not exist in plugin!" and an untouched cache |
| `Multiplexer.InheritedRegistryHaltsAsWritten` | index.js:15-81 | a walk as written reaching an unstored registry named like an inherited member halts there with one error line and no import: the missing-callback line for `__proto__`, the not-an-object line for the rest |
| `Multiplexer.ConstructorRegistryHaltsAsWritten` | index.js:69-75 | with the lookup as written, a registry named `constructor` halts the walk as "not an object" whatever is installed |
| `Multiplexer.PublishMessages` | index.js:78-85 | the error and announcement lines of a publish walk, spelled out |
| `Multiplexer.HaltExample` | index.js:66-108 | publishing to a registry that can publish and then to one that cannot: one announcement, one invocation, one error line, halted, both registries cached |
| `PluginExport.Lifecycle` | index.js:113-118 | the default export has a wrapper exactly under the four lifecycle names, each performing the callback of that name |
| `PluginExport.LifecycleRoundTrip` | index.js:113-118 | every lifecycle callback is exported under its own name |
| `PluginExport.CallbackNamesDistinct` | index.js:113-118 | no two callbacks share a name |

## Left out

- Module loading is a parameter of the model. This covers dynamic `import()`, `import.meta.resolve`, the query-string specifier and `encodeURIComponent` (index.js:2-6, 42-44). A handle stands for the import issued for one registry name, and `World.load` says what awaiting it yields. A rejected import stays in the cache and rejects again, because the same handle is loaded again.
- Promises and concurrency are not modelled. The walk is sequential in the source (two `await`s per registry: the lookup at index.js:69 and the callback at index.js:105), so the model is a sequential function. Two wrapper calls racing on the cache are not modelled.
- The underlying plugin's behaviour is not modelled. The underlying callbacks' side effects are not modelled; whether a callback throws is `World.throws`, one boolean per invocation. The throw ends the walk with status `Threw`, and the value it throws is not modelled.
- The logger is not real I/O: log lines are events in the trace.
- Sharing between registries is not modelled. The spreads at index.js:89, 106 and 107 are shallow, so every registry receives the same nested objects: the logger, the other context fields and the nested values of the shared options. `context.env` is read again for each registry (index.js:88), from the object the caller passed. A change a callback makes to such a nested value, or to that env object, is seen by the later registries in the source. The model cannot express it: `Multiplexer.Context` and `ConfigMerge.Merge` build value records, and the ambient environment is fixed for the whole walk.
- `EnvScoping.Upper`: it covers ASCII only, not the full Unicode `toUpperCase`.
- Numbers are integers; floating-point values in configurations are not modelled.
- Key order is not modelled in two places:
  - JavaScript enumerates integer-like keys first. The model takes an object's fields in the enumeration order it is given.
  - The key order of the merged object is not modelled: records are maps.
- Function-valued configurations are not modelled. The index.test.js smoke tests pass the factory functions themselves as configuration and context (index.test.js:58). Such a function has no `registries`, which is the `Multiplexer.Wrapper` no-op case.
- Accessor properties and getters on configuration objects are not modelled.
- index.test.js and release.config.js hold only scaffolding and static configuration, so they are not modelled.
- `InstanceCache.Resolve`: it is the own-key lookup, not the lookup on a plain `{}` that index.js:15-21 performs. On the twelve names in `InstanceCache.InheritedNames` the source reads a built-in and stores nothing, where `Resolve` issues and stores an import. `InstanceCache.ResolveAsWritten` models the lookup as written.
- `Multiplexer.Run`: it walks with `InstanceCache.Resolve`, so a registry named like a member of `Object.prototype` is imported and invoked, where the source halts at it (`Multiplexer.InheritedRegistryHaltsAsWritten`). All the walk properties (`InvocationsInOrder`, `HaltLogsOneError`, …) therefore describe the corrected program. On walks without such names they hold for the source too, because `Multiplexer.RunAsWrittenAgrees` proves the two walks equal there on any cache. Their `Valid` precondition holds for the cache the source keeps, because a walk as written keeps a valid cache valid (`Multiplexer.RunAsWritten`), whichever names it reached.
- `JsValues.CharEntries`: a Dafny string is a sequence of Unicode scalar values, while a JavaScript string is a sequence of UTF-16 code units. `Object.entries` of a string with a character outside the Basic Multilingual Plane yields two entries, one per surrogate, where the model yields one. Names holding a lone surrogate cannot be represented at all; in the source such a name makes `encodeURIComponent` throw at index.js:42, before the cache write at index.js:45.
- `JsValues.Value`: an `Obj` may list the same property name twice, which no JavaScript object does. `Multiplexer.InvocationsInOrder` promises at most one invocation per entry, so a repeated registry name in such a value is invoked once per entry.
- `ConfigMerge.MergeHasRegistriesOnlyFromFragment`: it does not claim that `registries` never reaches a callback, because a fragment that has its own `registries` property passes it on.

## Findings

| source | as written | input that shows it | evidently intended | confidence | as-written member | corrected member |
|---|---|---|---|---|---|---|
| index.js:15-21 | the cache is a plain `{}`, so a lookup also sees names inherited from `Object.prototype` | no import for `constructor`, `toString` or another inherited function: the walk halts with "plugin is null or undefined or is not an object."; `__proto__` reads `Object.prototype` and halts with "`<callback>` does not exist in plugin!" | a registry of any name gets its own copy of the plugin (an own-property lookup, or `Object.create(null)` / a `Map`) | medium; not executed | `InstanceCache.ConstructorNameNeverImported` | `InstanceCache.DistinctNamesDistinctHandles` |
