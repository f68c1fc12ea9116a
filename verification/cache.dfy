/**
 What the adapter can observe of an instance of the underlying publishing
 plugin: whether it is an object, and which of the four lifecycle callbacks
 it exposes.
 */
module PluginShape {

  /** The four lifecycle callbacks of the underlying plugin. */
  datatype Callback = AddChannel | Prepare | Publish | VerifyConditions {

    /** The property name under which a plugin exports the callback. */
    function Name(): string
    {
      match this
      case AddChannel => "addChannel"
      case Prepare => "prepare"
      case Publish => "publish"
      case VerifyConditions => "verifyConditions"
    }
  }

  /** The settled value of a plugin handle. `NotObject` covers `null`,
      `undefined`, primitives and functions (`typeof` other than "object");
      an object is described by the callbacks it holds a truthy value for. */
  datatype PluginValue = NotObject | Object(callbacks: set<Callback>)

  /** Awaiting a handle either rejects or yields a value. */
  datatype Loaded = Rejected | Resolved(value: PluginValue)
}

/**
 The per-registry instance cache: one isolated copy of the underlying plugin
 module per registry name, recorded under that name before it is awaited, so
 that every later lookup of the name gets the same copy.
 */
module InstanceCache {
  import opened PluginShape

  /** The pending import of the copy of the plugin module dedicated to one
      registry. Its specifier carries the registry name, so two names never
      share a copy and one name always denotes the same copy. */
  datatype Handle = Instance(registry: string)

  type Cache = map<string, Handle>

  /** Every entry is the import issued for its own key: the only writes to the
      cache store a fresh import under the name it was issued for. */
  predicate Valid(c: Cache)
  {
    forall name :: name in c ==> c[name] == Instance(name)
  }

  /** Look `name` up and, when it has no entry, store a fresh import under it.
      Every other entry is left as it was. */
  function Resolve(c: Cache, name: string): (r: (Cache, Handle))
    ensures r.0.Keys == c.Keys + {name}
    ensures forall k :: k in c ==> r.0[k] == c[k]
    ensures r.0[name] == r.1
    ensures name in c ==> r.0 == c
    ensures name !in c ==> r.1 == Instance(name)
  {
    if name in c then (c, c[name])
    else
      var h := Instance(name);
      (c[name := h], h)
  }

  /** On a valid cache the handle for a name is that name's own copy, and the
      cache stays valid. */
  lemma ResolveValid(c: Cache, name: string)
    requires Valid(c)
    ensures Valid(Resolve(c, name).0)
    ensures Resolve(c, name).1 == Instance(name)
  {
  }

  /** Resolving a name a second time returns the identical handle and creates
      nothing new. */
  lemma ResolveIdempotent(c: Cache, name: string)
    ensures var (c1, h1) := Resolve(c, name);
            Resolve(c1, name) == (c1, h1)
  {
  }

  /** Distinct registry names resolve to distinct copies of the plugin, whatever
      order they are resolved in. */
  lemma DistinctNamesDistinctHandles(c: Cache, a: string, b: string)
    requires Valid(c)
    requires a != b
    ensures var (c1, ha) := Resolve(c, a);
            var (_, hb) := Resolve(c1, b);
            ha != hb
  {
    ResolveValid(c, a);
    ResolveValid(Resolve(c, a).0, b);
  }

  /** The property names a fresh `{}` inherits from `Object.prototype`. */
  const InheritedNames: set<string> :=
    {"constructor", "hasOwnProperty", "isPrototypeOf", "propertyIsEnumerable",
     "toLocaleString", "toString", "valueOf", "__proto__",
     "__defineGetter__", "__defineSetter__", "__lookupGetter__", "__lookupSetter__"}

  /** What a lookup in the source's cache object finds: an import it stored, or
      a built-in inherited from `Object.prototype`. */
  datatype Stored = Pending(handle: Handle) | Inherited(value: PluginValue)

  /** The cache lookup as the source writes it, on a plain `{}`: a name the
      object inherits reads a truthy built-in, so no import is issued or stored
      for it. `__proto__` reads `Object.prototype`, an object with no callbacks;
      the other inherited names read functions, which are not objects. */
  function ResolveAsWritten(c: Cache, name: string): (r: (Cache, Stored))
    ensures c.Keys <= r.0.Keys <= c.Keys + {name}
    ensures forall k :: k in c ==> r.0[k] == c[k]
    ensures name !in InheritedNames ==> r == (Resolve(c, name).0, Pending(Resolve(c, name).1))
    ensures name in InheritedNames && name !in c ==> r.0 == c && r.1.Inherited?
    ensures Valid(c) ==> Valid(r.0)
  {
    if name in c then (c, Pending(c[name]))
    else if name == "__proto__" then (c, Inherited(Object({})))
    else if name in InheritedNames then (c, Inherited(NotObject))
    else
      var h := Instance(name);
      (c[name := h], Pending(h))
  }

  /** A registry named `constructor` never gets a copy of the plugin in the
      source: the lookup reads `Object`, a function, and the cache is untouched,
      while the corrected lookup stores and returns the registry's own copy. */
  lemma ConstructorNameNeverImported(c: Cache)
    requires "constructor" !in c
    ensures ResolveAsWritten(c, "constructor") == (c, Inherited(NotObject))
    ensures Resolve(c, "constructor") == (c["constructor" := Instance("constructor")], Instance("constructor"))
  {
  }

  /** The built-in an inherited name reads, when the cache has no entry of that
      name: `Object.prototype` itself for `__proto__`, a function otherwise. */
  lemma ResolveAsWrittenInherited(c: Cache, name: string)
    requires name in InheritedNames && name !in c
    ensures ResolveAsWritten(c, name) == (c, Inherited(if name == "__proto__" then Object({}) else NotObject))
  {
  }

  /** What awaiting the looked-up entry yields, given the module loader. */
  function Settle(s: Stored, load: Handle -> Loaded): (r: Loaded)
    ensures s.Inherited? ==> r == Resolved(s.value)
  {
    match s
    case Pending(h) => load(h)
    case Inherited(v) => Resolved(v)
  }

  /** What a lookup as written yields once awaited: the corrected lookup's
      import, loaded, unless the name is an unstored inherited one, which
      yields the built-in itself — `Object.prototype` for `__proto__`, a
      function for every other name. */
  lemma SettleAsWritten(c: Cache, name: string, load: Handle -> Loaded)
    ensures name !in InheritedNames || name in c ==>
              Settle(ResolveAsWritten(c, name).1, load) == load(Resolve(c, name).1)
    ensures name in InheritedNames && name !in c ==>
              Settle(ResolveAsWritten(c, name).1, load)
              == Resolved(if name == "__proto__" then Object({}) else NotObject)
  {
  }
}
