/** The conventional Some/None datatype, for values the source leaves `undefined`. */
module Optional {

  datatype Option<+T> = None | Some(value: T)
}

/**
 JavaScript values as far as the adapter looks into them: the plugin
 configuration object, the per-registry fragments inside `registries`, and
 the objects built from them by spreading (`{ ...v }`).
 */
module JsValues {

  /** An object is its own enumerable properties, in enumeration order. */
  datatype Value =
    | Undefined
    | Null
    | Bool(b: bool)
    | Num(n: int)
    | Str(s: string)
    | Obj(fields: seq<(string, Value)>)

  /** A plain object seen as a dictionary from property name to value. */
  type Record = map<string, Value>

  function Digit(d: nat): char
    requires d < 10
  {
    "0123456789"[d]
  }

  /** The decimal spelling of an array index, the property name of a string's
      `i`-th character. */
  function IndexKey(i: nat): (r: string)
    ensures |r| > 0
    ensures forall j :: 0 <= j < |r| ==> '0' <= r[j] <= '9'
  {
    if i < 10 then [Digit(i)] else IndexKey(i / 10) + [Digit(i % 10)]
  }

  /** `Object.entries(v || {})`: the own enumerable properties of `v`. A string
      enumerates its characters under their indices, every other primitive has
      none, and `null`/`undefined` are replaced by `{}` before the call. */
  function Entries(v: Value): seq<(string, Value)>
  {
    match v
    case Obj(fields) => fields
    case Str(s) => CharEntries(s, 0)
    case _ => []
  }

  /** The entries of a string's characters from index `from` on, each under its
      index. */
  function CharEntries(s: string, from: nat): (r: seq<(string, Value)>)
    requires from <= |s|
    ensures |r| == |s| - from
    ensures forall i :: 0 <= i < |r| ==> r[i] == (IndexKey(from + i), Str([s[from + i]]))
    decreases |s| - from
  {
    if from == |s| then [] else [(IndexKey(from), Str([s[from]]))] + CharEntries(s, from + 1)
  }

  /** The names a sequence of entries defines. */
  function Names(entries: seq<(string, Value)>): (r: set<string>)
    ensures forall i :: 0 <= i < |entries| ==> entries[i].0 in r
  {
    if entries == [] then {}
    else
      var rest := Names(entries[1..]);
      assert forall i :: 1 <= i < |entries| ==> entries[i] == entries[1..][i - 1];
      {entries[0].0} + rest
  }

  /** True when no entry after position `i` redefines the name of entry `i`. */
  predicate LastWith(entries: seq<(string, Value)>, i: int)
    requires 0 <= i < |entries|
  {
    forall j :: i < j < |entries| ==> entries[j].0 != entries[i].0
  }

  /** The names of a non-empty sequence are its first name and the names of the rest. */
  lemma NamesCons(entries: seq<(string, Value)>)
    requires |entries| > 0
    ensures Names(entries) == {entries[0].0} + Names(entries[1..])
  {
  }

  /** The names of a non-empty sequence are the names of all but its last entry
      and the last name. */
  lemma {:induction false} NamesSnoc(entries: seq<(string, Value)>)
    requires |entries| > 0
    ensures Names(entries) == Names(entries[..|entries| - 1]) + {entries[|entries| - 1].0}
    decreases |entries|
  {
    if |entries| > 1 {
      var rest := entries[1..];
      NamesSnoc(rest);
      assert rest[..|rest| - 1] == entries[..|entries| - 1][1..];
      assert entries[..|entries| - 1][0] == entries[0];
    } else {
      assert entries[..0] == [];
    }
  }

  /** The object built by defining the entries one after another: every name the
      entries define is present, and it holds the value of its LAST definition. */
  function ToRecord(entries: seq<(string, Value)>): (r: Record)
    ensures r.Keys == Names(entries)
    ensures forall i :: 0 <= i < |entries| && LastWith(entries, i) ==> r[entries[i].0] == entries[i].1
  {
    if entries == [] then map[]
    else
      var init := entries[..|entries| - 1];
      var last := entries[|entries| - 1];
      var prev := ToRecord(init);
      var r := prev[last.0 := last.1];
      NamesSnoc(entries);
      assert forall i :: 0 <= i < |entries| - 1 && LastWith(entries, i) ==>
        init[i] == entries[i] && entries[i].0 != last.0 && LastWith(init, i);
      r
  }

  /** `{ ...v }`: the own enumerable properties of `v` copied into a fresh object. */
  function Spread(v: Value): (r: Record)
    ensures r.Keys == Names(Entries(v))
    ensures v.Undefined? || v.Null? || v.Bool? || v.Num? ==> r == map[]
  {
    ToRecord(Entries(v))
  }
}
