/**
 The callback multiplexer: one wrapper per lifecycle callback that walks the
 configured registries in order, one at a time, checks that the registry's
 copy of the plugin can perform the callback, and invokes it with the merged
 configuration and a registry-scoped environment. A misconfigured registry is
 reported on the logger and ends the walk without an exception.
 */
module Multiplexer {
  import opened Optional
  import opened JsValues
  import opened PluginShape
  import opened InstanceCache
  import opened EnvScoping
  import opened ConfigMerge

  /** The context the orchestrator passes: its environment, absent when `env`
      is `null` or `undefined`, and every other field (logger, working
      directory, release metadata), which is passed through untouched. */
  datatype Context = Context(env: Option<Env>, others: Record)

  /** `context.env ?? {}` */
  function AmbientEnv(ctx: Context): Env
  {
    match ctx.env
    case Some(env) => env
    case None => map[]
  }

  /** `{ ...context, env: childEnv }`: the context handed to one registry's
      callback. */
  function ScopedContext(ctx: Context, registry: string): Context
  {
    ctx.(env := Some(ScopedEnv(AmbientEnv(ctx), registry)))
  }

  /** A scoped context is a copy of the ambient one whose only change is its
      environment: every field but `env` is passed through, every variable
      outside the credential list is the ambient one, and with no ambient
      environment the registry gets an empty one. */
  lemma ScopedContextOnlyChangesEnv(ctx: Context, registry: string)
    ensures ScopedContext(ctx, registry).others == ctx.others
    ensures ScopedContext(ctx, registry).env.Some?
    ensures ctx.env.None? ==> ScopedContext(ctx, registry).env.value == map[]
    ensures forall k :: k !in CredentialVars ==>
      var env := ScopedContext(ctx, registry).env.value;
      (k in env <==> k in AmbientEnv(ctx)) && (k in AmbientEnv(ctx) ==> env[k] == AmbientEnv(ctx)[k])
  {
    ScopedEnvOverrides(AmbientEnv(ctx), registry);
    if ctx.env.None? {
      forall v | v in CredentialVars ensures Override(map[], registry, v).None? { }
      assert ScopedEnv(map[], registry).Keys == {};
    }
  }

  /** One invocation of an underlying callback. */
  datatype Invocation = Invocation(instance: Handle, callback: Callback, config: Record, context: Context)

  /** What the wrapper does, in order: log lines and invocations. */
  datatype Event = Info(message: string) | Error(message: string) | Invoke(call: Invocation)

  /** How a wrapper call ends: normally after every registry, normally after a
      misconfigured registry, or with an exception that escapes it. */
  datatype Status = Completed | Halted | Threw

  /** The trace of one wrapper call and the instance cache it leaves behind. */
  datatype Outcome = Outcome(events: seq<Event>, cache: Cache, status: Status)

  /** What the model does not compute: the result of loading a copy of the
      plugin module, and whether the underlying callback throws. */
  datatype World = World(load: Handle -> Loaded, throws: Invocation -> bool)

  const NotObjectMessage: string := "plugin is null or undefined or is not an object."

  function MissingMessage(cb: Callback): string
  {
    cb.Name() + " does not exist in plugin!"
  }

  function PerformingMessage(cb: Callback, registry: string): string
  {
    "Performing " + cb.Name() + " for registry " + registry
  }

  /** Why the walk over the registries ends early. */
  datatype Stop = ImportRejected | NotAnObject | MissingCallback | CallbackThrew

  /** The checks made for one registry, in the source's order: the awaited
      handle, that it is an object, that it holds the callback, and then the
      call itself. `None` means the walk goes on. */
  function Check(loaded: Loaded, call: Invocation, world: World): Option<Stop>
  {
    match loaded
    case Rejected => Some(ImportRejected)
    case Resolved(NotObject) => Some(NotAnObject)
    case Resolved(Object(callbacks)) =>
      if call.callback !in callbacks then Some(MissingCallback)
      else if world.throws(call) then Some(CallbackThrew)
      else None
  }

  /** The events of a registry that the walk goes on after. */
  function Segment(registry: string, call: Invocation): seq<Event>
  {
    [Info(PerformingMessage(call.callback, registry)), Invoke(call)]
  }

  /** The events of the registry the walk stops at: a rejected import escapes
      before anything is logged, a misconfiguration logs one error line, and a
      throwing callback was announced and invoked. */
  function StopEvents(stop: Stop, registry: string, call: Invocation): seq<Event>
  {
    match stop
    case ImportRejected => []
    case NotAnObject => [Error(NotObjectMessage)]
    case MissingCallback => [Error(MissingMessage(call.callback))]
    case CallbackThrew => Segment(registry, call)
  }

  function StopStatus(stop: Stop): Status
  {
    if stop == NotAnObject || stop == MissingCallback then Halted else Threw
  }

  /** The walk over the registries for callback `cb`. Only the registries it
      reaches get an entry in the cache, and no entry is changed. */
  function Run(cb: Callback, entries: seq<(string, Value)>, shared: Record, ctx: Context,
               cache: Cache, world: World): (r: Outcome)
    ensures cache.Keys <= r.cache.Keys <= cache.Keys + Names(entries)
    ensures forall k :: k in cache ==> r.cache[k] == cache[k]
    ensures Valid(cache) ==> Valid(r.cache)
    decreases |entries|
  {
    if entries == [] then Outcome([], cache, Completed)
    else
      var (name, fragment) := entries[0];
      var (cache', handle) := Resolve(cache, name);
      var call := Invocation(handle, cb, Merge(fragment, shared), ScopedContext(ctx, name));
      NamesCons(entries);
      match Check(world.load(handle), call, world)
      case Some(stop) => Outcome(StopEvents(stop, name, call), cache', StopStatus(stop))
      case None =>
        var rest := Run(cb, entries[1..], shared, ctx, cache', world);
        Outcome(Segment(name, call) + rest.events, rest.cache, rest.status)
  }

  /** The wrapper for callback `cb`: split the configuration and walk the
      entries of `registries || {}`. Without registries it does nothing and
      returns normally. */
  function Wrapper(cb: Callback, config: Record, ctx: Context, cache: Cache, world: World): (r: Outcome)
    ensures Entries(Registries(config)) == [] ==> r == Outcome([], cache, Completed)
    ensures RegistriesKey !in config ==> r.events == [] && r.status == Completed
    ensures cache.Keys <= r.cache.Keys <= cache.Keys + Names(Entries(Registries(config)))
  {
    Run(cb, Entries(Registries(config)), Shared(config), ctx, cache, world)
  }

  // ---------------------------------------------------------------------------
  // The walk in closed form, for a valid cache.

  /** The invocation a registry receives: its own copy of the plugin, its
      fragment merged with the shared options, and the scoped context. */
  function CallFor(cb: Callback, entry: (string, Value), shared: Record, ctx: Context): Invocation
  {
    Invocation(Instance(entry.0), cb, Merge(entry.1, shared), ScopedContext(ctx, entry.0))
  }

  /** The invocation every registry would receive, in entry order. */
  function Plan(cb: Callback, entries: seq<(string, Value)>, shared: Record, ctx: Context): (calls: seq<Invocation>)
    ensures |calls| == |entries|
    decreases |entries|
  {
    if entries == [] then [] else [CallFor(cb, entries[0], shared, ctx)] + Plan(cb, entries[1..], shared, ctx)
  }

  /** The plan holds, at each position, that registry's own invocation. */
  lemma {:induction false} PlanAt(cb: Callback, entries: seq<(string, Value)>, shared: Record, ctx: Context, i: nat)
    requires i < |entries|
    ensures Plan(cb, entries, shared, ctx)[i] == CallFor(cb, entries[i], shared, ctx)
    decreases i
  {
    if i > 0 {
      PlanAt(cb, entries[1..], shared, ctx, i - 1);
    }
  }

  /** Whether, and why, the walk stops at a planned invocation. */
  function StopOf(call: Invocation, world: World): Option<Stop>
  {
    Check(world.load(call.instance), call, world)
  }

  /** The position of the first planned invocation the walk stops at, or the
      number of invocations when it stops at none. */
  function FirstStop(calls: seq<Invocation>, world: World): (k: nat)
    ensures k <= |calls|
    ensures forall i :: 0 <= i < k ==> StopOf(calls[i], world).None?
    ensures k < |calls| ==> StopOf(calls[k], world).Some?
    decreases |calls|
  {
    if calls == [] then 0
    else if StopOf(calls[0], world).Some? then 0
    else
      var k := FirstStop(calls[1..], world);
      assert forall i :: 1 <= i < k + 1 ==> calls[i] == calls[1..][i - 1];
      1 + k
  }

  /** The events of the invocations the walk goes on after, in order. */
  function Segments(calls: seq<Invocation>): seq<Event>
    decreases |calls|
  {
    if calls == [] then [] else Segment(calls[0].instance.registry, calls[0]) + Segments(calls[1..])
  }

  /** The trace the walk should leave: the segments of every invocation before
      the first stop, then the stop's own events. */
  function Trace(calls: seq<Invocation>, world: World): seq<Event>
  {
    var k := FirstStop(calls, world);
    if k == |calls| then Segments(calls)
    else Segments(calls[..k]) + StopEvents(StopOf(calls[k], world).value, calls[k].instance.registry, calls[k])
  }

  /** How the walk should end: normally when nothing stops it, otherwise as the
      first stop dictates. */
  function Ending(calls: seq<Invocation>, world: World): Status
  {
    var k := FirstStop(calls, world);
    if k == |calls| then Completed else StopStatus(StopOf(calls[k], world).value)
  }

  /** The number of registries the walk reaches: all of them, or up to and
      including the one it stops at. */
  function Reached(calls: seq<Invocation>, world: World): (n: nat)
    ensures n <= |calls|
  {
    var k := FirstStop(calls, world);
    if k < |calls| then k + 1 else k
  }

  /** The expected trace of a walk the first invocation does not stop is that
      invocation's segment followed by the expected trace of the rest. */
  lemma TraceCons(calls: seq<Invocation>, world: World)
    requires calls != []
    requires StopOf(calls[0], world).None?
    ensures Trace(calls, world) == Segment(calls[0].instance.registry, calls[0]) + Trace(calls[1..], world)
    ensures Ending(calls, world) == Ending(calls[1..], world)
    ensures Reached(calls, world) == 1 + Reached(calls[1..], world)
  {
    var rest := calls[1..];
    var k := FirstStop(calls, world);
    var k' := FirstStop(rest, world);
    assert k == k' + 1;
    if k' < |rest| {
      assert calls[k] == rest[k'];
      assert calls[..k][1..] == rest[..k'];
    }
  }

  /** One step of the walk on a valid cache: the first registry gets its
      planned invocation and its own copy is added to the cache. */
  lemma RunStep(cb: Callback, entries: seq<(string, Value)>, shared: Record,
                ctx: Context, cache: Cache, world: World)
    requires Valid(cache)
    requires entries != []
    ensures var r := Run(cb, entries, shared, ctx, cache, world);
            var calls := Plan(cb, entries, shared, ctx);
            var cache' := cache[entries[0].0 := Instance(entries[0].0)];
            && Valid(cache')
            && calls[1..] == Plan(cb, entries[1..], shared, ctx)
            && calls[0].instance.registry == entries[0].0
            && (StopOf(calls[0], world).Some? ==>
                  var stop := StopOf(calls[0], world).value;
                  r == Outcome(StopEvents(stop, entries[0].0, calls[0]), cache', StopStatus(stop)))
            && (StopOf(calls[0], world).None? ==>
                  var rest := Run(cb, entries[1..], shared, ctx, cache', world);
                  r == Outcome(Segment(entries[0].0, calls[0]) + rest.events, rest.cache, rest.status))
  {
    var name := entries[0].0;
    ResolveValid(cache, name);
    assert Resolve(cache, name).0 == cache[name := Instance(name)];
  }

  /** On a valid cache the walk leaves exactly the expected trace of its plan
      and ends as expected. */
  lemma {:induction false} RunClosedForm(cb: Callback, entries: seq<(string, Value)>, shared: Record,
                                         ctx: Context, cache: Cache, world: World)
    requires Valid(cache)
    ensures var r := Run(cb, entries, shared, ctx, cache, world);
            var calls := Plan(cb, entries, shared, ctx);
            r.events == Trace(calls, world) && r.status == Ending(calls, world)
    decreases |entries|
  {
    if entries != [] {
      var calls := Plan(cb, entries, shared, ctx);
      RunStep(cb, entries, shared, ctx, cache, world);
      if StopOf(calls[0], world).Some? {
        assert FirstStop(calls, world) == 0;
        assert calls[..0] == [];
      } else {
        var e := entries[0];
        RunClosedForm(cb, entries[1..], shared, ctx, cache[e.0 := Instance(e.0)], world);
        TraceCons(calls, world);
      }
    }
  }

  /** One step of the walk on a valid cache, as far as the cache goes. */
  lemma RunStepCache(cb: Callback, entries: seq<(string, Value)>, shared: Record,
                     ctx: Context, cache: Cache, world: World)
    requires Valid(cache)
    requires entries != []
    ensures var calls := Plan(cb, entries, shared, ctx);
            var cache' := cache[entries[0].0 := Instance(entries[0].0)];
            var c := Run(cb, entries, shared, ctx, cache, world).cache;
            && Valid(cache')
            && calls[1..] == Plan(cb, entries[1..], shared, ctx)
            && (StopOf(calls[0], world).Some? ==> c == cache')
            && (StopOf(calls[0], world).None? ==> c == Run(cb, entries[1..], shared, ctx, cache', world).cache)
  {
    RunStep(cb, entries, shared, ctx, cache, world);
  }

  /** The walk reaches the first registry, and goes on from there when that
      registry does not stop it. */
  lemma ReachedCons(calls: seq<Invocation>, world: World)
    requires calls != []
    ensures StopOf(calls[0], world).Some? ==> Reached(calls, world) == 1
    ensures StopOf(calls[0], world).None? ==> Reached(calls, world) == 1 + Reached(calls[1..], world)
  {
  }

  /** The cache a walk stopped by its first registry leaves: that registry's
      copy is the only addition. */
  lemma RunCacheFirstStops(cb: Callback, entries: seq<(string, Value)>, shared: Record,
                           ctx: Context, cache: Cache, world: World)
    requires Valid(cache)
    requires entries != []
    requires StopOf(Plan(cb, entries, shared, ctx)[0], world).Some?
    ensures Run(cb, entries, shared, ctx, cache, world).cache.Keys
            == cache.Keys + Names(entries[..Reached(Plan(cb, entries, shared, ctx), world)])
  {
    RunStepCache(cb, entries, shared, ctx, cache, world);
    ReachedCons(Plan(cb, entries, shared, ctx), world);
    NamesPrefixCons(entries, 1);
    assert entries[1..][..0] == [];
    assert Names(entries[1..][..0]) == {};
  }

  /** The cache a walk leaves when its first registry does not stop it, in
      terms of the rest of the walk. */
  lemma RunCacheFirstGoesOn(cb: Callback, entries: seq<(string, Value)>, shared: Record,
                            ctx: Context, cache: Cache, world: World)
    requires Valid(cache)
    requires entries != []
    requires StopOf(Plan(cb, entries, shared, ctx)[0], world).None?
    requires var cache' := cache[entries[0].0 := Instance(entries[0].0)];
             Run(cb, entries[1..], shared, ctx, cache', world).cache.Keys
             == cache'.Keys + Names(entries[1..][..Reached(Plan(cb, entries[1..], shared, ctx), world)])
    ensures Run(cb, entries, shared, ctx, cache, world).cache.Keys
            == cache.Keys + Names(entries[..Reached(Plan(cb, entries, shared, ctx), world)])
  {
    RunStepCache(cb, entries, shared, ctx, cache, world);
    ReachedCons(Plan(cb, entries, shared, ctx), world);
    NamesPrefixCons(entries, Reached(Plan(cb, entries, shared, ctx), world));
  }

  /** On a valid cache the walk adds to the cache exactly the registries it
      reaches, each under its own copy. */
  lemma {:induction false} RunCacheClosedForm(cb: Callback, entries: seq<(string, Value)>, shared: Record,
                                              ctx: Context, cache: Cache, world: World)
    requires Valid(cache)
    ensures Run(cb, entries, shared, ctx, cache, world).cache.Keys
            == cache.Keys + Names(entries[..Reached(Plan(cb, entries, shared, ctx), world)])
    decreases |entries|
  {
    if entries == [] {
      assert entries[..0] == [];
    } else if StopOf(Plan(cb, entries, shared, ctx)[0], world).Some? {
      RunCacheFirstStops(cb, entries, shared, ctx, cache, world);
    } else {
      var e := entries[0];
      var cache' := cache[e.0 := Instance(e.0)];
      RunStepCache(cb, entries, shared, ctx, cache, world);
      RunCacheClosedForm(cb, entries[1..], shared, ctx, cache', world);
      RunCacheFirstGoesOn(cb, entries, shared, ctx, cache, world);
    }
  }

  lemma NamesPrefixCons(entries: seq<(string, Value)>, n: nat)
    requires 1 <= n <= |entries|
    ensures Names(entries[..n]) == {entries[0].0} + Names(entries[1..][..n - 1])
  {
    NamesCons(entries[..n]);
    assert entries[..n][1..] == entries[1..][..n - 1];
  }

  // ---------------------------------------------------------------------------
  // What a trace shows: its invocations, its error lines and its info lines.

  function Calls(events: seq<Event>): seq<Invocation>
  {
    if events == [] then []
    else (if events[0].Invoke? then [events[0].call] else []) + Calls(events[1..])
  }

  function ErrorLines(events: seq<Event>): seq<string>
  {
    if events == [] then []
    else (if events[0].Error? then [events[0].message] else []) + ErrorLines(events[1..])
  }

  function InfoLines(events: seq<Event>): seq<string>
  {
    if events == [] then []
    else (if events[0].Info? then [events[0].message] else []) + InfoLines(events[1..])
  }

  /** The projections of a trace distribute over concatenation. */
  lemma {:induction false} CallsAppend(a: seq<Event>, b: seq<Event>)
    ensures Calls(a + b) == Calls(a) + Calls(b)
    decreases |a|
  {
    if a == [] {
      assert a + b == b;
    } else {
      assert (a + b)[0] == a[0];
      assert (a + b)[1..] == a[1..] + b;
      CallsAppend(a[1..], b);
    }
  }

  lemma {:induction false} ErrorLinesAppend(a: seq<Event>, b: seq<Event>)
    ensures ErrorLines(a + b) == ErrorLines(a) + ErrorLines(b)
    decreases |a|
  {
    if a == [] {
      assert a + b == b;
    } else {
      assert (a + b)[0] == a[0];
      assert (a + b)[1..] == a[1..] + b;
      ErrorLinesAppend(a[1..], b);
    }
  }

  lemma {:induction false} InfoLinesAppend(a: seq<Event>, b: seq<Event>)
    ensures InfoLines(a + b) == InfoLines(a) + InfoLines(b)
    decreases |a|
  {
    if a == [] {
      assert a + b == b;
    } else {
      assert (a + b)[0] == a[0];
      assert (a + b)[1..] == a[1..] + b;
      InfoLinesAppend(a[1..], b);
    }
  }

  /** The segments of invocations the walk goes on after hold those
      invocations, in order. */
  lemma {:induction false} SegmentsCalls(calls: seq<Invocation>)
    ensures Calls(Segments(calls)) == calls
    decreases |calls|
  {
    if calls != [] {
      var head := Segment(calls[0].instance.registry, calls[0]);
      SegmentsCalls(calls[1..]);
      CallsAppend(head, Segments(calls[1..]));
      assert Calls(head) == [calls[0]];
      assert calls == [calls[0]] + calls[1..];
    }
  }

  /** They announce each invocation before making it, in order. */
  lemma {:induction false} SegmentsInfo(calls: seq<Invocation>)
    ensures |InfoLines(Segments(calls))| == |calls|
    ensures forall i :: 0 <= i < |calls| ==>
      InfoLines(Segments(calls))[i] == PerformingMessage(calls[i].callback, calls[i].instance.registry)
    decreases |calls|
  {
    if calls != [] {
      var head := Segment(calls[0].instance.registry, calls[0]);
      SegmentsInfo(calls[1..]);
      InfoLinesAppend(head, Segments(calls[1..]));
      assert InfoLines(head) == [PerformingMessage(calls[0].callback, calls[0].instance.registry)];
      forall i | 1 <= i < |calls|
        ensures InfoLines(Segments(calls))[i] == PerformingMessage(calls[i].callback, calls[i].instance.registry)
      {
        assert calls[1..][i - 1] == calls[i];
      }
    }
  }

  /** They log no error line. */
  lemma {:induction false} SegmentsErrors(calls: seq<Invocation>)
    ensures ErrorLines(Segments(calls)) == []
    decreases |calls|
  {
    if calls != [] {
      var head := Segment(calls[0].instance.registry, calls[0]);
      SegmentsErrors(calls[1..]);
      ErrorLinesAppend(head, Segments(calls[1..]));
      assert ErrorLines(head) == [];
    }
  }

  /** The segments of invocations the walk goes on after hold those
      invocations, in order, one announcement each, and no error line. */
  lemma SegmentsProjections(calls: seq<Invocation>)
    ensures Calls(Segments(calls)) == calls
    ensures |InfoLines(Segments(calls))| == |calls|
    ensures forall i :: 0 <= i < |calls| ==>
      InfoLines(Segments(calls))[i] == PerformingMessage(calls[i].callback, calls[i].instance.registry)
    ensures ErrorLines(Segments(calls)) == []
  {
    SegmentsCalls(calls);
    SegmentsInfo(calls);
    SegmentsErrors(calls);
  }

  /** The projections of the expected trace: the invocations made are a prefix
      of the plan, and the error lines are those of the stop. */
  lemma TraceProjections(calls: seq<Invocation>, world: World)
    ensures var k := FirstStop(calls, world);
            var t := Trace(calls, world);
            && (k == |calls| ==> Calls(t) == calls && ErrorLines(t) == [] && |InfoLines(t)| == k)
            && (k < |calls| ==>
                  var stop := StopOf(calls[k], world).value;
                  var last := StopEvents(stop, calls[k].instance.registry, calls[k]);
                  && Calls(t) == calls[..k] + Calls(last)
                  && ErrorLines(t) == ErrorLines(last)
                  && |InfoLines(t)| == k + |InfoLines(last)|)
  {
    var k := FirstStop(calls, world);
    if k == |calls| {
      SegmentsProjections(calls);
    } else {
      var stop := StopOf(calls[k], world).value;
      var last := StopEvents(stop, calls[k].instance.registry, calls[k]);
      SegmentsProjections(calls[..k]);
      CallsAppend(Segments(calls[..k]), last);
      InfoLinesAppend(Segments(calls[..k]), last);
      ErrorLinesAppend(Segments(calls[..k]), last);
    }
  }

  /** The projections of the stop's own events. */
  lemma StopEventsProjections(stop: Stop, registry: string, call: Invocation)
    ensures Calls(StopEvents(stop, registry, call)) == if stop == CallbackThrew then [call] else []
    ensures ErrorLines(StopEvents(stop, registry, call))
            == match stop
               case NotAnObject => [NotObjectMessage]
               case MissingCallback => [MissingMessage(call.callback)]
               case _ => []
    ensures |InfoLines(StopEvents(stop, registry, call))| == if stop == CallbackThrew then 1 else 0
  {
    var events := StopEvents(stop, registry, call);
    if stop == CallbackThrew {
      var tail := events[1..];
      assert tail == [Invoke(call)] && tail[1..] == [];
      assert Calls(tail) == [call] && ErrorLines(tail) == [] && InfoLines(tail) == [];
      assert Calls(events) == Calls(tail);
      assert ErrorLines(events) == ErrorLines(tail);
      assert InfoLines(events) == [PerformingMessage(call.callback, registry)] + InfoLines(tail);
    } else if stop != ImportRejected {
      assert events[1..] == [];
    }
  }

  // ---------------------------------------------------------------------------
  // The properties of a walk, on a valid cache.

  /** Whether, and why, the walk stops at a registry. */
  function StopAt(cb: Callback, entry: (string, Value), shared: Record, ctx: Context, world: World): Option<Stop>
  {
    StopOf(CallFor(cb, entry, shared, ctx), world)
  }

  /** The position of the first registry the walk stops at, in terms of the
      registries themselves. */
  lemma FirstStopAt(cb: Callback, entries: seq<(string, Value)>, shared: Record, ctx: Context, world: World)
    ensures var k := FirstStop(Plan(cb, entries, shared, ctx), world);
            && (forall i :: 0 <= i < k ==> StopAt(cb, entries[i], shared, ctx, world).None?)
            && (k < |entries| ==> StopAt(cb, entries[k], shared, ctx, world).Some?)
  {
    var calls := Plan(cb, entries, shared, ctx);
    forall i | 0 <= i < |entries| ensures calls[i] == CallFor(cb, entries[i], shared, ctx) {
      PlanAt(cb, entries, shared, ctx, i);
    }
  }

  /** The invocations of the segments of `pre` followed by a stop's events are
      `pre`, and the stop's invocation when it threw. */
  lemma SegmentsThenStopCalls(pre: seq<Invocation>, stop: Stop, registry: string, call: Invocation)
    ensures Calls(Segments(pre) + StopEvents(stop, registry, call))
            == if stop == CallbackThrew then pre + [call] else pre
  {
    SegmentsCalls(pre);
    CallsAppend(Segments(pre), StopEvents(stop, registry, call));
    StopEventsProjections(stop, registry, call);
    assert pre + [] == pre;
  }

  /** The invocations the expected trace of a stopped walk holds, given where
      it stops: the plan up to the stop, and the stop's invocation exactly when
      it threw. */
  function StoppedCalls(calls: seq<Invocation>, k: nat, world: World): seq<Invocation>
    requires k < |calls|
  {
    calls[..k] + (if StopOf(calls[k], world) == Some(CallbackThrew) then [calls[k]] else [])
  }

  /** Those invocations are a prefix of the plan. */
  lemma StoppedCallsPrefix(calls: seq<Invocation>, k: nat, world: World)
    requires k < |calls|
    ensures StoppedCalls(calls, k, world)
            == calls[..if StopOf(calls[k], world) == Some(CallbackThrew) then k + 1 else k]
  {
    assert calls[..k] + [calls[k]] == calls[..k + 1];
    assert calls[..k] + [] == calls[..k];
  }

  /** The invocations of the expected trace of a stopped walk are the plan up
      to the stop, and the stop's invocation exactly when it threw. */
  lemma TraceCallsStopped(calls: seq<Invocation>, world: World)
    requires FirstStop(calls, world) < |calls|
    ensures Calls(Trace(calls, world)) == StoppedCalls(calls, FirstStop(calls, world), world)
  {
    var k := FirstStop(calls, world);
    var stop := StopOf(calls[k], world).value;
    assert Trace(calls, world) == Segments(calls[..k]) + StopEvents(stop, calls[k].instance.registry, calls[k]);
    SegmentsThenStopCalls(calls[..k], stop, calls[k].instance.registry, calls[k]);
  }

  /** The invocations of the expected trace are the whole plan when nothing
      stops the walk, and otherwise the plan up to the first stop followed by
      the stop's invocation exactly when it threw; the walk completes exactly
      when nothing stops it, and then it logs no error line. */
  lemma TraceCalls(calls: seq<Invocation>, world: World)
    ensures var k := FirstStop(calls, world);
            var t := Trace(calls, world);
            && (k == |calls| ==> Calls(t) == calls && ErrorLines(t) == [])
            && (k < |calls| ==> Calls(t) == StoppedCalls(calls, k, world))
            && (Ending(calls, world) == Completed <==> k == |calls|)
  {
    if FirstStop(calls, world) == |calls| {
      SegmentsCalls(calls);
      SegmentsErrors(calls);
    } else {
      TraceCallsStopped(calls, world);
    }
  }

  /** The same, for a walk on a valid cache. */
  lemma RunCalls(cb: Callback, entries: seq<(string, Value)>, shared: Record,
                 ctx: Context, cache: Cache, world: World)
    requires Valid(cache)
    ensures var r := Run(cb, entries, shared, ctx, cache, world);
            var plan := Plan(cb, entries, shared, ctx);
            var k := FirstStop(plan, world);
            && (k == |plan| ==> Calls(r.events) == plan && ErrorLines(r.events) == [])
            && (k < |plan| ==>
                  Calls(r.events)
                  == plan[..k] + (if StopOf(plan[k], world) == Some(CallbackThrew) then [plan[k]] else []))
            && (r.status == Completed <==> k == |plan|)
  {
    RunClosedForm(cb, entries, shared, ctx, cache, world);
    TraceCalls(Plan(cb, entries, shared, ctx), world);
  }

  /** The first `n` planned invocations are those of the first `n` entries. */
  lemma PlanPrefix(cb: Callback, entries: seq<(string, Value)>, shared: Record, ctx: Context, n: nat)
    requires n <= |entries|
    ensures forall i :: 0 <= i < n ==> Plan(cb, entries, shared, ctx)[i] == CallFor(cb, entries[i], shared, ctx)
  {
    forall i | 0 <= i < n ensures Plan(cb, entries, shared, ctx)[i] == CallFor(cb, entries[i], shared, ctx) {
      PlanAt(cb, entries, shared, ctx, i);
    }
  }

  /** The invocations of the expected trace of a walk over registry entries
      are those of a prefix of the entries, in order. */
  lemma EntriesTraceCalls(cb: Callback, entries: seq<(string, Value)>, shared: Record,
                          ctx: Context, world: World)
    ensures var calls := Calls(Trace(Plan(cb, entries, shared, ctx), world));
            && |calls| <= |entries|
            && (forall i :: 0 <= i < |calls| ==> calls[i] == CallFor(cb, entries[i], shared, ctx))
  {
    var plan := Plan(cb, entries, shared, ctx);
    var k := FirstStop(plan, world);
    TraceCalls(plan, world);
    PlanPrefix(cb, entries, shared, ctx, |entries|);
    if k < |plan| {
      StoppedCallsPrefix(plan, k, world);
    } else {
      assert plan[..|plan|] == plan;
    }
  }

  /** The walk over registry entries is expected to complete exactly when no
      registry stops it, and then to invoke every registry and log no error. */
  lemma EntriesTraceCompletes(cb: Callback, entries: seq<(string, Value)>, shared: Record,
                              ctx: Context, world: World)
    ensures var plan := Plan(cb, entries, shared, ctx);
            var t := Trace(plan, world);
            && (Ending(plan, world) == Completed <==>
                  forall i :: 0 <= i < |entries| ==> StopAt(cb, entries[i], shared, ctx, world).None?)
            && (Ending(plan, world) == Completed ==> |Calls(t)| == |entries| && ErrorLines(t) == [])
  {
    TraceCalls(Plan(cb, entries, shared, ctx), world);
    FirstStopAt(cb, entries, shared, ctx, world);
  }

  /** Registries are invoked in the order of their entries, at most one
      invocation per entry, each with its own copy of the plugin, its merged
      configuration and its scoped context. The walk completes normally
      exactly when no registry stops it, and then every registry was invoked
      and no error was logged. */
  lemma InvocationsInOrder(cb: Callback, entries: seq<(string, Value)>, shared: Record,
                           ctx: Context, cache: Cache, world: World)
    requires Valid(cache)
    ensures var r := Run(cb, entries, shared, ctx, cache, world);
            var calls := Calls(r.events);
            && |calls| <= |entries|
            && (forall i :: 0 <= i < |calls| ==> calls[i] == CallFor(cb, entries[i], shared, ctx))
            && (r.status == Completed <==>
                  forall i :: 0 <= i < |entries| ==> StopAt(cb, entries[i], shared, ctx, world).None?)
            && (r.status == Completed ==> |calls| == |entries| && ErrorLines(r.events) == [])
  {
    RunClosedForm(cb, entries, shared, ctx, cache, world);
    EntriesTraceCalls(cb, entries, shared, ctx, world);
    EntriesTraceCompletes(cb, entries, shared, ctx, world);
  }

  /** The projections of the segments of `pre` followed by one error line. */
  lemma SegmentsThenErrorProjections(pre: seq<Invocation>, message: string)
    ensures var t := Segments(pre) + [Error(message)];
            && Calls(t) == pre
            && |InfoLines(t)| == |pre|
            && (forall i :: 0 <= i < |pre| ==>
                  InfoLines(t)[i] == PerformingMessage(pre[i].callback, pre[i].instance.registry))
            && ErrorLines(t) == [message]
            && t[|t| - 1] == Error(message)
  {
    var last := [Error(message)];
    SegmentsCalls(pre);
    SegmentsInfo(pre);
    SegmentsErrors(pre);
    CallsAppend(Segments(pre), last);
    InfoLinesAppend(Segments(pre), last);
    ErrorLinesAppend(Segments(pre), last);
    assert last[1..] == [];
    assert Calls(last) == [] && InfoLines(last) == [] && ErrorLines(last) == [message];
    assert pre + [] == pre;
    assert InfoLines(Segments(pre)) + [] == InfoLines(Segments(pre));
  }

  /** The error line a halting stop logs. */
  function HaltMessage(stop: Stop, call: Invocation): string
  {
    if stop == NotAnObject then NotObjectMessage else MissingMessage(call.callback)
  }

  /** The expected trace of a halted walk: the segments of the invocations
      before the stop, announced in order, then exactly one error line, naming
      the reason, as the last event. */
  lemma TraceHalted(calls: seq<Invocation>, world: World)
    requires Ending(calls, world) == Halted
    ensures var k := FirstStop(calls, world);
            var t := Trace(calls, world);
            && k < |calls|
            && Calls(t) == calls[..k]
            && |InfoLines(t)| == k
            && (forall i :: 0 <= i < k ==>
                  InfoLines(t)[i] == PerformingMessage(calls[i].callback, calls[i].instance.registry))
            && (|| (StopOf(calls[k], world) == Some(NotAnObject) && ErrorLines(t) == [NotObjectMessage])
                || (StopOf(calls[k], world) == Some(MissingCallback)
                    && ErrorLines(t) == [MissingMessage(calls[k].callback)]))
            && t[|t| - 1].Error?
  {
    var k := FirstStop(calls, world);
    var stop := StopOf(calls[k], world).value;
    assert stop == NotAnObject || stop == MissingCallback;
    var message := HaltMessage(stop, calls[k]);
    assert StopEvents(stop, calls[k].instance.registry, calls[k]) == [Error(message)];
    assert Trace(calls, world) == Segments(calls[..k]) + [Error(message)];
    SegmentsThenErrorProjections(calls[..k], message);
    assert forall i :: 0 <= i < k ==> calls[..k][i] == calls[i];
  }

  /** The same, in terms of the registry entries. */
  lemma EntriesTraceHalted(cb: Callback, entries: seq<(string, Value)>, shared: Record,
                           ctx: Context, world: World)
    requires Ending(Plan(cb, entries, shared, ctx), world) == Halted
    ensures var plan := Plan(cb, entries, shared, ctx);
            var t := Trace(plan, world);
            var k := |Calls(t)|;
            && k == FirstStop(plan, world) < |entries|
            && (forall i :: 0 <= i < k ==> Calls(t)[i] == CallFor(cb, entries[i], shared, ctx))
            && |InfoLines(t)| == k
            && (forall i :: 0 <= i < k ==> InfoLines(t)[i] == PerformingMessage(cb, entries[i].0))
            && (|| (StopAt(cb, entries[k], shared, ctx, world) == Some(NotAnObject)
                    && ErrorLines(t) == [NotObjectMessage])
                || (StopAt(cb, entries[k], shared, ctx, world) == Some(MissingCallback)
                    && ErrorLines(t) == [MissingMessage(cb)]))
            && t[|t| - 1].Error?
  {
    var plan := Plan(cb, entries, shared, ctx);
    var k := FirstStop(plan, world);
    TraceHalted(plan, world);
    PlanPrefix(cb, entries, shared, ctx, k + 1);
  }

  /** A misconfigured registry, whose copy of the plugin is not an object or
      lacks the callback, ends the walk normally with exactly one error line,
      the last event of the trace. Every earlier registry was announced, in
      order, and invoked; the halting registry is neither announced nor
      invoked; no later registry is processed or given a copy of the plugin. */
  lemma HaltLogsOneError(cb: Callback, entries: seq<(string, Value)>, shared: Record,
                         ctx: Context, cache: Cache, world: World)
    requires Valid(cache)
    ensures var r := Run(cb, entries, shared, ctx, cache, world);
            var k := |Calls(r.events)|;
            r.status == Halted ==>
              && k < |entries|
              && (forall i :: 0 <= i < k ==> Calls(r.events)[i] == CallFor(cb, entries[i], shared, ctx))
              && |InfoLines(r.events)| == k
              && (forall i :: 0 <= i < k ==> InfoLines(r.events)[i] == PerformingMessage(cb, entries[i].0))
              && (|| (StopAt(cb, entries[k], shared, ctx, world) == Some(NotAnObject)
                      && ErrorLines(r.events) == [NotObjectMessage])
                  || (StopAt(cb, entries[k], shared, ctx, world) == Some(MissingCallback)
                      && ErrorLines(r.events) == [MissingMessage(cb)]))
              && r.events[|r.events| - 1].Error?
              && r.cache.Keys == cache.Keys + Names(entries[..k + 1])
  {
    RunClosedForm(cb, entries, shared, ctx, cache, world);
    if Run(cb, entries, shared, ctx, cache, world).status == Halted {
      EntriesTraceHalted(cb, entries, shared, ctx, world);
      RunCacheClosedForm(cb, entries, shared, ctx, cache, world);
    }
  }

  /** A walk that ends with an exception logs no error line: the exception is
      the only report. */
  lemma ThrowLogsNothing(cb: Callback, entries: seq<(string, Value)>, shared: Record,
                         ctx: Context, cache: Cache, world: World)
    requires Valid(cache)
    ensures var r := Run(cb, entries, shared, ctx, cache, world);
            r.status == Threw ==> ErrorLines(r.events) == []
  {
    var plan := Plan(cb, entries, shared, ctx);
    var k := FirstStop(plan, world);
    RunClosedForm(cb, entries, shared, ctx, cache, world);
    TraceProjections(plan, world);
    if k < |plan| {
      StopEventsProjections(StopOf(plan[k], world).value, plan[k].instance.registry, plan[k]);
    }
  }

  // ---------------------------------------------------------------------------
  // The walk with the cache lookup as the source writes it.

  /** The walk over the registries with the lookup on a plain `{}`. A name
      inherited from `Object.prototype` gets no import: awaiting what the
      lookup read yields the built-in itself. The call built for such a name
      carries the name's own handle, but a built-in never passes the checks,
      so that call is never announced or invoked. */
  function RunAsWritten(cb: Callback, entries: seq<(string, Value)>, shared: Record, ctx: Context,
                        cache: Cache, world: World): (r: Outcome)
    ensures cache.Keys <= r.cache.Keys <= cache.Keys + Names(entries)
    ensures forall k :: k in cache ==> r.cache[k] == cache[k]
    ensures Valid(cache) ==> Valid(r.cache)
    decreases |entries|
  {
    if entries == [] then Outcome([], cache, Completed)
    else
      var (name, fragment) := entries[0];
      var (cache', stored) := ResolveAsWritten(cache, name);
      var handle := match stored case Pending(h) => h case Inherited(_) => Instance(name);
      var call := Invocation(handle, cb, Merge(fragment, shared), ScopedContext(ctx, name));
      NamesCons(entries);
      match Check(Settle(stored, world.load), call, world)
      case Some(stop) => Outcome(StopEvents(stop, name, call), cache', StopStatus(stop))
      case None =>
        var rest := RunAsWritten(cb, entries[1..], shared, ctx, cache', world);
        Outcome(Segment(name, call) + rest.events, rest.cache, rest.status)
  }

  /** When no registry is named like a member of `Object.prototype`, the walk as
      written is exactly the modelled walk, whatever the cache. */
  lemma {:induction false} RunAsWrittenAgrees(cb: Callback, entries: seq<(string, Value)>, shared: Record,
                                              ctx: Context, cache: Cache, world: World)
    requires forall i :: 0 <= i < |entries| ==> entries[i].0 !in InheritedNames
    ensures RunAsWritten(cb, entries, shared, ctx, cache, world) == Run(cb, entries, shared, ctx, cache, world)
    decreases |entries|
  {
    if entries != [] {
      var name := entries[0].0;
      assert name !in InheritedNames;
      var cache' := Resolve(cache, name).0;
      assert ResolveAsWritten(cache, name) == (cache', Pending(Resolve(cache, name).1));
      assert forall i :: 0 <= i < |entries[1..]| ==> entries[1..][i] == entries[i + 1];
      RunAsWrittenAgrees(cb, entries[1..], shared, ctx, cache', world);
    }
  }

  /** The first step of the walk as written, when the first registry's lookup
      reads a built-in function: the walk stops there as "not an object", and
      the cache is untouched. */
  lemma RunAsWrittenFunctionStep(cb: Callback, entries: seq<(string, Value)>, shared: Record,
                                 ctx: Context, cache: Cache, world: World)
    requires entries != []
    requires ResolveAsWritten(cache, entries[0].0) == (cache, Inherited(NotObject))
    ensures RunAsWritten(cb, entries, shared, ctx, cache, world) == Outcome([Error(NotObjectMessage)], cache, Halted)
  {
  }

  /** The first step of the walk as written, when the first registry's lookup
      reads `Object.prototype`: the walk stops there because the callback is
      missing, and the cache is untouched. */
  lemma RunAsWrittenPrototypeStep(cb: Callback, entries: seq<(string, Value)>, shared: Record,
                                  ctx: Context, cache: Cache, world: World)
    requires entries != []
    requires ResolveAsWritten(cache, entries[0].0) == (cache, Inherited(Object({})))
    ensures RunAsWritten(cb, entries, shared, ctx, cache, world) == Outcome([Error(MissingMessage(cb))], cache, Halted)
  {
  }

  /** A walk as written that reaches a registry named like a member of
      `Object.prototype` stops there with one error line and no import: the
      plugin is "not an object" for the inherited functions, and lacks the
      callback for `__proto__`, which reads `Object.prototype` itself. */
  lemma InheritedRegistryHaltsAsWritten(cb: Callback, name: string, fragment: Value,
                                        rest: seq<(string, Value)>, shared: Record,
                                        ctx: Context, cache: Cache, world: World)
    requires name in InheritedNames && name !in cache
    ensures RunAsWritten(cb, [(name, fragment)] + rest, shared, ctx, cache, world)
            == Outcome([Error(if name == "__proto__" then MissingMessage(cb) else NotObjectMessage)],
                       cache, Halted)
  {
    ResolveAsWrittenInherited(cache, name);
    if name == "__proto__" {
      RunAsWrittenPrototypeStep(cb, [(name, fragment)] + rest, shared, ctx, cache, world);
    } else {
      RunAsWrittenFunctionStep(cb, [(name, fragment)] + rest, shared, ctx, cache, world);
    }
  }

  // ---------------------------------------------------------------------------
  // Examples.

  /** A registry named `constructor`, looked up as the source writes the
      lookup, reads a built-in function instead of a copy of the plugin, so the
      walk reports the plugin as not an object whatever is installed. */
  lemma ConstructorRegistryHaltsAsWritten(cache: Cache, call: Invocation, world: World)
    requires "constructor" !in cache
    ensures Check(Settle(ResolveAsWritten(cache, "constructor").1, world.load), call, world) == Some(NotAnObject)
  {
  }

  /** The lines the source logs for a publish walk, spelled out. */
  lemma PublishMessages(registry: string)
    ensures MissingMessage(Publish) == "publish does not exist in plugin!"
    ensures PerformingMessage(Publish, registry) == "Performing publish for registry " + registry
  {
  }

  /** A registry whose copy of the plugin lacks the callback halts a walk at
      once: one error line, and its own copy added to the cache. */
  lemma HaltExampleLast(b: string, p: Value, shared: Record, ctx: Context, cache: Cache, world: World)
    requires Valid(cache)
    requires world.load(Instance(b)) == Resolved(Object({Prepare}))
    ensures Run(Publish, [(b, p)], shared, ctx, cache, world)
            == Outcome([Error(MissingMessage(Publish))], cache[b := Instance(b)], Halted)
  {
    var entries := [(b, p)];
    var call := Plan(Publish, entries, shared, ctx)[0];
    RunStep(Publish, entries, shared, ctx, cache, world);
    assert call.instance == Instance(b) && call.callback == Publish;
    assert StopOf(call, world) == Some(MissingCallback);
  }

  /** A registry whose copy can perform the callback, and whose invocation does
      not throw, is announced and invoked, and the walk goes on from there with
      its copy in the cache. */
  lemma GoesOnExampleFirst(a: string, g: Value, rest: seq<(string, Value)>, shared: Record,
                           ctx: Context, world: World)
    requires world.load(Instance(a)) == Resolved(Object({Publish}))
    requires !world.throws(CallFor(Publish, (a, g), shared, ctx))
    ensures var tail := Run(Publish, rest, shared, ctx, map[a := Instance(a)], world);
            Run(Publish, [(a, g)] + rest, shared, ctx, map[], world)
            == Outcome(Segment(a, CallFor(Publish, (a, g), shared, ctx)) + tail.events, tail.cache, tail.status)
  {
    var entries := [(a, g)] + rest;
    var call := Plan(Publish, entries, shared, ctx)[0];
    RunStep(Publish, entries, shared, ctx, map[], world);
    assert call == CallFor(Publish, (a, g), shared, ctx);
    assert StopOf(call, world) == None;
    assert entries[1..] == rest;
  }

  /** Publishing to registry `a`, whose copy can publish, then to `b`, whose copy
      can only prepare, from an empty cache: `a` is announced and invoked, then
      `b` halts the walk with one error line; both registries have their own
      copy in the cache. */
  lemma HaltExample(a: string, g: Value, b: string, p: Value, shared: Record, ctx: Context, world: World)
    requires world.load(Instance(a)) == Resolved(Object({Publish}))
    requires world.load(Instance(b)) == Resolved(Object({Prepare}))
    requires !world.throws(CallFor(Publish, (a, g), shared, ctx))
    ensures Run(Publish, [(a, g), (b, p)], shared, ctx, map[], world)
            == Outcome([Info(PerformingMessage(Publish, a)),
                        Invoke(CallFor(Publish, (a, g), shared, ctx)),
                        Error(MissingMessage(Publish))],
                       map[a := Instance(a), b := Instance(b)],
                       Halted)
  {
    assert [(a, g), (b, p)] == [(a, g)] + [(b, p)];
    GoesOnExampleFirst(a, g, [(b, p)], shared, ctx, world);
    HaltExampleLast(b, p, shared, ctx, map[a := Instance(a)], world);
  }
}
