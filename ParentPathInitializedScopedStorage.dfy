/**
 * Scoped storages initialized from a parent scope's state: the storage at
 * `path` takes its initial value from the parent initializer's first
 * snapshot, reading the part of `path` below its first key.
 */
module ParentPath {
  import opened Options
  import opened JsValues
  import opened Scoped

  /** What the `path` property holds: an array of keys, or the bare key string `scope` passes. */
  datatype PathValue = Segments(keys: seq<string>) | Text(s: string)

  /** `path.slice(1)`: drops the first key of an array, or the first character of a string. */
  function SliceOne(p: PathValue): (r: PathValue)
    ensures p.Segments? ==> r.Segments? && r.keys == (if p.keys == [] then [] else p.keys[1..])
    ensures p.Text? ==> r.Text? && r.s == (if p.s == "" then "" else p.s[1..])
  {
    match p
    case Segments(keys) => Segments(if keys == [] then [] else keys[1..])
    case Text(s) => Text(if s == "" then "" else s[1..])
  }

  /**
   * lodash `get(x, p)` with the keys taken as single segments: an array
   * path is followed key by key, and an empty one yields undefined; a
   * string path is one key.
   */
  function LodashGet(x: Value, p: PathValue): (r: Value)
    ensures p.Segments? && p.keys == [] ==> r == Undefined
    ensures p.Segments? && p.keys != [] ==> r == GetPath(x, p.keys)
    ensures p.Text? ==> r == Get(x, p.s)
  {
    match p
    case Segments(keys) => if keys == [] then Undefined else GetPath(x, keys)
    case Text(s) => Get(x, s)
  }

  datatype ParentPathInitialized = ParentPathInitialized(path: PathValue, parentInitializer: RecurringScopedStorage)

  /**
   * `getFromState(x)`: the value at `path` minus its first key inside `x`,
   * or an empty object when that lookup gives undefined. A storage at a
   * one-key path therefore always starts from `{}`.
   */
  function GetFromState(storage: ParentPathInitialized, x: Value): (r: Value)
    ensures r != Undefined
    ensures LodashGet(x, SliceOne(storage.path)) != Undefined ==> r == LodashGet(x, SliceOne(storage.path))
    ensures LodashGet(x, SliceOne(storage.path)) == Undefined ==> r == Obj(map[])
  {
    var found := LodashGet(x, SliceOne(storage.path));
    if found == Undefined then Obj(map[]) else found
  }

  /** What `initialize` hands on: the state taken from the snapshot, and the fallback read from the initial state. */
  datatype Initialization = Initialization(state: Value, fallback: Value)

  /**
   * `initialize()`: takes the parent initializer's first snapshot only.
   * `snapshots` are the values that snapshot stream emits, in order, and
   * `parentInitial` what the parent initializer's initial state reads as;
   * a stream that ends before emitting yields nothing.
   */
  function Initialize(storage: ParentPathInitialized, snapshots: seq<Value>, parentInitial: Value): (r: Option<Initialization>)
    ensures r.Some? <==> snapshots != []
  {
    if snapshots == [] then None
    else Some(Initialization(GetFromState(storage, snapshots[0]), GetFromState(storage, parentInitial)))
  }

  /** Only the first snapshot matters: later snapshots cannot change the initialization. */
  lemma InitializeUsesFirstSnapshot(storage: ParentPathInitialized, first: Value, later: seq<Value>, parentInitial: Value)
    ensures Initialize(storage, [first] + later, parentInitial) == Initialize(storage, [first], parentInitial)
    ensures Initialize(storage, [first] + later, parentInitial).value.state == GetFromState(storage, first)
  {
  }

  /** The fallback reads the same sub-path from the parent initializer's initial state as the state reads from the snapshot. */
  lemma FallbackReadsSamePath(storage: ParentPathInitialized, snapshots: seq<Value>, parentInitial: Value)
    requires snapshots != []
    ensures Initialize(storage, snapshots, parentInitial).value.fallback == GetFromState(storage, parentInitial)
    ensures Initialize(storage, snapshots, parentInitial).value.state == GetFromState(storage, snapshots[0])
    ensures parentInitial == snapshots[0] ==>
              Initialize(storage, snapshots, parentInitial).value.fallback == Initialize(storage, snapshots, parentInitial).value.state
  {
  }

  /**
   * `scope(key)` as written: the factory receives the key where the
   * child's path goes, so the child's path is the key string and its
   * `path.slice(1)` drops the key's first character.
   */
  function ScopeAsWritten(storage: ParentPathInitialized, key: string): (child: ParentPathInitialized)
    ensures child.parentInitializer == storage.parentInitializer
    ensures child.path == Text(key)
  {
    ParentPathInitialized(Text(key), storage.parentInitializer)
  }

  /** The child at `"test"` below `["app"]` reads the key `"est"` of the parent state instead of `"test"`. */
  lemma AsWrittenScopeReadsWrongKey(parent: RecurringScopedStorage)
    ensures var storage := ParentPathInitialized(Segments(["app"]), parent);
            var state := Obj(map["test" := Obj(map["id" := Str("1")])]);
            && GetFromState(ScopeAsWritten(storage, "test"), state) == Obj(map[])
            && GetFromState(Scope(storage, "test"), state) == Obj(map["id" := Str("1")])
  {
    var storage := ParentPathInitialized(Segments(["app"]), parent);
    var state := Obj(map["test" := Obj(map["id" := Str("1")])]);
    assert "test"[1..] == "est";
    assert "est" !in state.fields;
    assert SliceOne(Scope(storage, "test").path) == Segments(["test"]);
    assert GetPath(state, ["test"]) == GetPath(Get(state, "test"), []);
  }

  /** `scope(key)` as intended: the child's path extends this one by `key`, with the same parent initializer. */
  function Scope(storage: ParentPathInitialized, key: string): (child: ParentPathInitialized)
    requires storage.path.Segments?
    ensures child.parentInitializer == storage.parentInitializer
    ensures child.path == Segments(storage.path.keys + [key])
  {
    ParentPathInitialized(Segments(storage.path.keys + [key]), storage.parentInitializer)
  }

  /**
   * The corrected child reads one key further into the parent state than
   * its parent: below the first key, its lookup is its parent's lookup
   * followed by `key`.
   */
  lemma ScopeReadsOneKeyDeeper(storage: ParentPathInitialized, key: string, x: Value)
    requires storage.path.Segments? && storage.path.keys != []
    ensures LodashGet(x, SliceOne(Scope(storage, key).path)) == GetPath(x, storage.path.keys[1..] + [key])
    ensures LodashGet(x, SliceOne(Scope(storage, key).path)) == Get(GetPath(x, storage.path.keys[1..]), key)
  {
    assert (storage.path.keys + [key])[1..] == storage.path.keys[1..] + [key];
    GetPathSnoc(x, storage.path.keys[1..], key);
  }

  /**
   * Scoping down along `keys`, one `scope` call per key: the path grows by
   * the keys, and every descendant resolves against the same parent
   * initializer as the storage it was scoped from.
   */
  function Descend(storage: ParentPathInitialized, keys: seq<string>): (r: ParentPathInitialized)
    requires storage.path.Segments?
    ensures r.path == Segments(storage.path.keys + keys)
    ensures r.parentInitializer == storage.parentInitializer
  {
    if keys == [] then storage
    else Scope(Descend(storage, keys[..|keys| - 1]), keys[|keys| - 1])
  }
}
