/**
 * What a chain of scoped storages does to the root container, stated on
 * values. A scoped storage sits at a path of keys below the root: the first
 * key names a container entry, each further key a field inside it. Reading
 * follows the path; writing at a path reads the parent's object, sets one
 * field and writes the whole object back one level up, until a container
 * entry is written.
 */
module ScopedState {
  import opened Options
  import opened JsValues
  import opened StorageContainer

  /** The scoped object at `path` in the container contents `st`. */
  function ItemAt(st: map<string, Value>, path: seq<string>): Value
  {
    GetPath(Obj(st), path)
  }

  function Parent(path: seq<string>): seq<string>
    requires path != []
  {
    path[..|path| - 1]
  }

  function Last(path: seq<string>): string
    requires path != []
  {
    path[|path| - 1]
  }

  /**
   * The value a write of `v` at `path` stores under the container key
   * `path[0]`, or `None` when some ancestor object is falsy and the write
   * stops there.
   */
  function TopWrite(st: map<string, Value>, path: seq<string>, v: Value): (w: Option<Value>)
    requires path != []
    ensures |path| == 1 ==> w == Some(v)
    decreases |path|
  {
    if |path| == 1 then Some(v)
    else
      var item := ItemAt(st, Parent(path));
      if Truthy(item) then TopWrite(st, Parent(path), SetField(item, Last(path), v)) else None
  }

  /** The container contents after a write of `v` at `path`: at most the entry `path[0]` changes. */
  function WriteAt(st: map<string, Value>, path: seq<string>, v: Value): (r: map<string, Value>)
    requires path != []
    ensures r.Keys <= st.Keys + {path[0]}
    ensures forall key :: key in st && key != path[0] ==> key in r && r[key] == st[key]
    ensures TopWrite(st, path, v).None? ==> r == st
  {
    match TopWrite(st, path, v)
    case Some(t) => st[path[0] := t]
    case None => st
  }

  /** The changes the root storage republishes for a write at `path`: one UPDATE of the entry, or none. */
  function TopChanges(st: map<string, Value>, path: seq<string>, v: Value): (changes: seq<Change>)
    requires path != []
    ensures |changes| <= 1
    ensures changes != [] <==> TopWrite(st, path, v).Some?
    ensures changes != [] ==> changes[0].kind == Update && changes[0].key == path[0]
                              && WriteAt(st, path, v)[path[0]] == changes[0].value
  {
    match TopWrite(st, path, v)
    case Some(t) => [Change(Update, path[0], t)]
    case None => []
  }

  /** Reading `path + [key]` is reading `key` in the object at `path`. */
  lemma ItemAtChild(st: map<string, Value>, path: seq<string>, key: string)
    ensures ItemAt(st, path + [key]) == Get(ItemAt(st, path), key)
  {
    GetPathSnoc(Obj(st), path, key);
  }

  /** Anything truthy below the top level hangs off an object. */
  lemma TruthyHasObjectParent(st: map<string, Value>, path: seq<string>)
    requires |path| >= 2 && Truthy(ItemAt(st, path))
    ensures ItemAt(st, Parent(path)).Obj?
  {
    assert Parent(path) + [Last(path)] == path;
    ItemAtChild(st, Parent(path), Last(path));
  }

  /**
   * A write at a path whose parent is an object lands: the write reaches
   * the container, and reading the path afterwards gives the written value.
   */
  lemma {:induction false} WriteLands(st: map<string, Value>, path: seq<string>, v: Value)
    requires path != []
    requires |path| == 1 || ItemAt(st, Parent(path)).Obj?
    ensures TopWrite(st, path, v).Some?
    ensures ItemAt(WriteAt(st, path, v), path) == v
    decreases |path|
  {
    if |path| == 1 {
      assert path == [] + [path[0]];
      ItemAtChild(WriteAt(st, path, v), [], path[0]);
    } else {
      var q, k := Parent(path), Last(path);
      var w := SetField(ItemAt(st, q), k, v);
      assert q[0] == path[0];
      if |q| >= 2 {
        TruthyHasObjectParent(st, q);
      }
      WriteLands(st, q, w);
      assert q + [k] == path;
      ItemAtChild(WriteAt(st, path, v), q, k);
    }
  }

  /**
   * Rewriting a truthy scoped object: afterwards the scope reads exactly
   * the written object. This is what each scoped write relies on, since
   * each writes only after reading a truthy object.
   */
  lemma RewriteTruthy(st: map<string, Value>, path: seq<string>, v: Value)
    requires path != [] && Truthy(ItemAt(st, path))
    ensures TopWrite(st, path, v).Some?
    ensures ItemAt(WriteAt(st, path, v), path) == v
  {
    if |path| >= 2 {
      TruthyHasObjectParent(st, path);
    }
    WriteLands(st, path, v);
  }

  /**
   * Setting field `k` of a scoped object: reading `k` afterwards gives `v`,
   * and every other field reads as before. The scoped object must be a
   * truthy value for the write to happen and an object to hold fields.
   */
  lemma SetThenGet(st: map<string, Value>, path: seq<string>, k: string, v: Value)
    requires path != [] && ItemAt(st, path).Obj?
    ensures ItemAt(WriteAt(st, path + [k], v), path + [k]) == v
    ensures forall j :: j != k ==> ItemAt(WriteAt(st, path + [k], v), path + [j]) == ItemAt(st, path + [j])
  {
    WriteLands(st, path + [k], v);
    assert Parent(path + [k]) == path;
    var after := WriteAt(st, path + [k], v);
    RewriteTruthy(st, path, SetField(ItemAt(st, path), k, v));
    forall j | j != k
      ensures ItemAt(after, path + [j]) == ItemAt(st, path + [j])
    {
      ItemAtChild(after, path, j);
      ItemAtChild(st, path, j);
    }
  }

  /**
   * Writing field `k` below the scoped object at `path` is writing the
   * whole object with `k` set, when the object is truthy.
   */
  lemma WriteField(st: map<string, Value>, path: seq<string>, k: string, v: Value)
    requires path != [] && Truthy(ItemAt(st, path))
    ensures WriteAt(st, path + [k], v) == WriteAt(st, path, SetField(ItemAt(st, path), k, v))
    ensures TopChanges(st, path + [k], v) == TopChanges(st, path, SetField(ItemAt(st, path), k, v))
  {
    assert Parent(path + [k]) == path && Last(path + [k]) == k;
  }

  /**
   * A write below a falsy scoped object does nothing: the container and the
   * root storage's changes stay as they were.
   */
  lemma WriteBelowFalsy(st: map<string, Value>, path: seq<string>, k: string, v: Value)
    requires path != [] && !Truthy(ItemAt(st, path))
    ensures WriteAt(st, path + [k], v) == st
    ensures TopChanges(st, path + [k], v) == []
  {
    assert Parent(path + [k]) == path;
  }

  /** lodash `set` of each pair in turn. */
  function SetAll(item: Value, values: seq<(string, Value)>): (r: Value)
    ensures item.Obj? ==> r.Obj?
    ensures !item.Obj? ==> r == item
  {
    if values == [] then item
    else SetField(SetAll(item, values[..|values| - 1]), values[|values| - 1].0, values[|values| - 1].1)
  }

  /** The keys of `values` are pairwise distinct, as an object's own keys are. */
  predicate DistinctKeys(values: seq<(string, Value)>) {
    forall i, j :: 0 <= i < j < |values| ==> values[i].0 != values[j].0
  }

  /**
   * Setting all of `values` into an object: each given key reads its given
   * value, and every key not given reads as before.
   */
  lemma {:induction false} SetAllFields(item: Value, values: seq<(string, Value)>)
    requires item.Obj? && DistinctKeys(values)
    ensures forall i :: 0 <= i < |values| ==> Get(SetAll(item, values), values[i].0) == values[i].1
    ensures forall k :: (forall i :: 0 <= i < |values| ==> values[i].0 != k) ==> Get(SetAll(item, values), k) == Get(item, k)
    decreases |values|
  {
    if values != [] {
      var init := values[..|values| - 1];
      assert DistinctKeys(init);
      SetAllFields(item, init);
      forall k | (forall i :: 0 <= i < |values| ==> values[i].0 != k)
        ensures Get(SetAll(item, values), k) == Get(item, k)
      {
        assert forall i :: 0 <= i < |init| ==> init[i].0 != k by {
          forall i | 0 <= i < |init| ensures init[i].0 != k {
            assert init[i] == values[i];
          }
        }
      }
      forall i | 0 <= i < |values|
        ensures Get(SetAll(item, values), values[i].0) == values[i].1
      {
        if i < |values| - 1 {
          assert init[i] == values[i];
        }
      }
    }
  }

  /**
   * The scoped object's initialized flag for the child at `key`: the parent
   * snapshot holds `key` and its value there is an object.
   */
  predicate ChildInitialized(parentSnapshot: Value, key: string)
    ensures ChildInitialized(parentSnapshot, key) ==> parentSnapshot.Obj? && key in parentSnapshot.fields
    ensures ChildInitialized(parentSnapshot, key) ==> parentSnapshot.fields[key].Obj?
  {
    Has(parentSnapshot, key) && IsObject(Get(parentSnapshot, key))
  }

  /** The child's snapshot source: parent snapshots that are objects, projected to `key`. */
  function ChildSource(parentSnapshot: Value, key: string): (o: Option<Value>)
    ensures o.Some? <==> IsObject(parentSnapshot)
  {
    if IsObject(parentSnapshot) then Some(Get(parentSnapshot, key)) else None
  }

  /**
   * A parent snapshot initializes the child exactly when the child's own
   * source yields an object from it.
   */
  lemma ChildInitializedIffObject(parentSnapshot: Value, key: string)
    ensures ChildInitialized(parentSnapshot, key) <==>
            (ChildSource(parentSnapshot, key).Some? && ChildSource(parentSnapshot, key).value.Obj?)
  {
  }

  /** What reaches an adapter's snapshot gate: a new initialized flag, or a value from the snapshot source. */
  datatype GateInput = Flag(on: bool) | Source(v: Value)

  /** The flag after `inputs`, starting from `on`. */
  function FlagAfter(on: bool, inputs: seq<GateInput>): bool
  {
    if inputs == [] then on
    else if inputs[|inputs| - 1].Flag? then inputs[|inputs| - 1].on
    else FlagAfter(on, inputs[..|inputs| - 1])
  }

  /** The adapter's snapshot stream: source values that arrive while the flag is on. */
  function GateOutput(on: bool, inputs: seq<GateInput>): (out: seq<Value>)
    ensures |out| <= |inputs|
  {
    if inputs == [] then []
    else
      var prior := GateOutput(on, inputs[..|inputs| - 1]);
      match inputs[|inputs| - 1]
      case Flag(_) => prior
      case Source(v) => if FlagAfter(on, inputs[..|inputs| - 1]) then prior + [v] else prior
  }

  /** Until the flag is first set on, the gate lets nothing through. */
  lemma {:induction false} SilentUntilInitialized(inputs: seq<GateInput>)
    requires forall i :: 0 <= i < |inputs| ==> inputs[i] != Flag(true)
    ensures !FlagAfter(false, inputs)
    ensures GateOutput(false, inputs) == []
  {
    if inputs != [] {
      var init := inputs[..|inputs| - 1];
      assert forall i :: 0 <= i < |init| ==> init[i] == inputs[i];
      SilentUntilInitialized(init);
    }
  }

  /** While the flag stays on, the gate forwards every source value, in order. */
  lemma {:induction false} ForwardsWhileInitialized(on: bool, before: seq<GateInput>, values: seq<Value>)
    requires FlagAfter(on, before)
    ensures FlagAfter(on, before + Sources(values))
    ensures GateOutput(on, before + Sources(values)) == GateOutput(on, before) + values
    decreases |values|
  {
    if values == [] {
      assert before + Sources(values) == before;
    } else {
      var init := values[..|values| - 1];
      ForwardsWhileInitialized(on, before, init);
      assert (before + Sources(values))[..|before + Sources(values)| - 1] == before + Sources(init);
      assert values == init + [values[|values| - 1]];
    }
  }

  /** A run of source values reaching the gate. */
  function Sources(values: seq<Value>): (inputs: seq<GateInput>)
    ensures |inputs| == |values|
    ensures forall i :: 0 <= i < |values| ==> inputs[i] == Source(values[i])
  {
    if values == [] then [] else Sources(values[..|values| - 1]) + [Source(values[|values| - 1])]
  }
}
