/**
 * The documents a YAML loader hands back, and the handful of Python
 * built-ins the template code applies to them: truthiness, `len`, and
 * `dict.get` with a default.
 */
module Yaml {
  import opened Wrappers

  /** Leaf values a YAML document can hold. */
  datatype Atom = Null | Bool(b: bool) | Int(i: int) | Str(s: string)

  /** A parsed YAML value: a scalar, a sequence or a mapping with string keys. */
  datatype Value =
    | Scalar(atom: Atom)
    | List(items: seq<Value>)
    | Map(entries: map<string, Value>)

  /** A configuration tree: the top-level mapping of a template. */
  type Tree = map<string, Value>

  /** Python's `{}`. */
  const EmptyMap: Value := Map(map[])

  /** Python's `[]`. */
  const EmptyList: Value := List([])

  /** Python's `None`. */
  const None_: Value := Scalar(Null)

  /** `d.get(k, default)` on a dictionary. */
  function Get(d: Tree, k: string, default: Value): (v: Value)
    ensures k in d ==> v == d[k]
    ensures k !in d ==> v == default
  {
    if k in d then d[k] else default
  }

  /** `d.get(k)` as an optional lookup. */
  function Lookup(d: Tree, k: string): (v: Option<Value>)
    ensures v.Some? <==> k in d
    ensures v.Some? ==> v.value == d[k]
  {
    if k in d then Some(d[k]) else None
  }

  /** Python's `bool(v)`: false exactly for None, False, 0, "" and empty containers. */
  predicate Truthy(v: Value) {
    match v
    case Scalar(a) =>
      (match a
       case Null => false
       case Bool(b) => b
       case Int(i) => i != 0
       case Str(s) => s != "")
    case List(xs) => xs != []
    case Map(m) => m != map[]
  }

  /** Python's `len(v)`: defined on strings, lists and dicts; `None` models the TypeError. */
  function Len(v: Value): (n: Option<nat>)
    ensures n.Some? <==> v.List? || v.Map? || (v.Scalar? && v.atom.Str?)
  {
    match v
    case Scalar(a) => if a.Str? then Some(|a.s|) else None
    case List(xs) => Some(|xs|)
    case Map(m) => Some(|m|)
  }

  /** A sized value is truthy exactly when its length is non-zero. */
  lemma TruthyIffNonEmpty(v: Value)
    requires Len(v).Some?
    ensures Truthy(v) <==> Len(v).value > 0
  {
    match v
    case Scalar(a) =>
    case List(xs) =>
    case Map(m) =>
      if m != map[] {
        var k :| k in m;
        assert k in m.Keys;
      }
  }
}
