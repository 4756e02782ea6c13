/**
 * The values the storage holds, modelled as JSON-like trees, and the lodash
 * helpers (`get`, `has`, `set`, `unset`, `isObject`) the scoped storage applies
 * to them with a single key segment.
 */
module JsValues {
  import opened Options

  /** `Undefined` is JavaScript's `undefined`: what a missing key reads as. */
  datatype Value =
    | Undefined
    | Null
    | Bool(b: bool)
    | Num(n: int)
    | Str(s: string)
    | Obj(fields: map<string, Value>)

  /** JavaScript truthiness: undefined, null, false, 0 and "" are falsy; every object is truthy. */
  predicate Truthy(v: Value) {
    match v
    case Undefined => false
    case Null => false
    case Bool(b) => b
    case Num(n) => n != 0
    case Str(s) => s != ""
    case Obj(_) => true
  }

  /** lodash `isObject` (arrays and functions are not modelled). */
  predicate IsObject(v: Value) {
    v.Obj?
  }

  /** lodash `get(v, key)`: the own field, or undefined when `v` is not an object or lacks it. */
  function Get(v: Value, key: string): (r: Value)
    ensures Has(v, key) ==> r == v.fields[key]
    ensures !Has(v, key) ==> r == Undefined
  {
    if v.Obj? && key in v.fields then v.fields[key] else Undefined
  }

  /** lodash `has(v, key)`: `key` is an own field of the object `v`. */
  predicate Has(v: Value, key: string) {
    v.Obj? && key in v.fields
  }

  /** lodash `set(v, key, x)`: assigns the field on an object and leaves any other value as it is. */
  function SetField(v: Value, key: string, x: Value): (r: Value)
    ensures v.Obj? ==> r.Obj? && Get(r, key) == x
    ensures v.Obj? ==> forall other :: other != key ==> Get(r, other) == Get(v, other)
    ensures v.Obj? ==> r.fields.Keys == v.fields.Keys + {key}
    ensures !v.Obj? ==> r == v
  {
    if v.Obj? then Obj(v.fields[key := x]) else v
  }

  /** lodash `unset(v, key)`: deletes the field on an object and leaves any other value as it is. */
  function Unset(v: Value, key: string): (r: Value)
    ensures !Has(r, key)
    ensures v.Obj? ==> r.Obj? && r.fields.Keys == v.fields.Keys - {key}
    ensures v.Obj? ==> forall other :: other != key ==> Get(r, other) == Get(v, other)
    ensures !v.Obj? ==> r == v
  {
    if v.Obj? then Obj(v.fields - {key}) else v
  }

  /**
   * The property access `v[key]`: throws (here `None`) on undefined and
   * null, and otherwise reads like `Get`.
   */
  function Member(v: Value, key: string): (r: Option<Value>)
    ensures r.None? <==> v == Undefined || v == Null
    ensures r.Some? ==> r.value == Get(v, key)
  {
    if v.Undefined? || v.Null? then None else Some(Get(v, key))
  }

  /** lodash `get(v, path)` with an array path: follows the segments from the outside in. */
  function GetPath(v: Value, path: seq<string>): Value
    decreases |path|
  {
    if path == [] then v else GetPath(Get(v, path[0]), path[1..])
  }

  /** Following `path + [key]` is following `path`, then reading `key`. */
  lemma {:induction false} GetPathSnoc(v: Value, path: seq<string>, key: string)
    ensures GetPath(v, path + [key]) == Get(GetPath(v, path), key)
    decreases |path|
  {
    if path == [] {
      assert [] + [key] == [key];
      assert [key][1..] == [];
    } else {
      assert (path + [key])[0] == path[0];
      assert (path + [key])[1..] == path[1..] + [key];
      GetPathSnoc(Get(v, path[0]), path[1..], key);
    }
  }
}
