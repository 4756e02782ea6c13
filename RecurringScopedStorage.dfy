/**
 * Scoped storages and their adapters. A scoped storage reads and writes one
 * nested object through its adapter; the adapter's getter and setter lead
 * either to a container entry of the root storage (a top-level scope) or to
 * the parent scope's field read and field write (a child scope made by
 * `scope`). Every scoped storage reports its own changes; the model keeps
 * all of them, tagged with the reporting scope, in one shared log.
 */
module Scoped {
  import opened Options
  import opened JsValues
  import opened StorageContainer
  import opened Memory
  import opened RootStorage
  import opened ScopedState

  /** Where an adapter's getter and setter lead. */
  datatype Link =
    | RootEntry(storage: RecurringStorage, key: string, initial: Value)
    | ParentEntry(parent: RecurringScopedStorage, key: string)

  /** One change event a scoped storage emitted on its change stream. */
  datatype Emission = Emission(from: RecurringScopedStorage, change: Change)

  /** The change streams of all scopes over one root storage, merged in emission order. */
  class EmissionLog {
    var entries: seq<Emission>

    constructor ()
      ensures entries == []
    {
      entries := [];
    }
  }

  class ScopedStorageAdapter {
    const link: Link
    const root: RecurringStorage
    const bus: EmissionLog
    /** The keys from the root container down to this adapter's object. */
    ghost const path: seq<string>
    /** The state initializer of the top-level scope this adapter descends from. */
    ghost const base: Value
    var initialized: bool
    /** The snapshot stream: what the gate let through. */
    var snapshots: seq<Value>
    ghost var gateInputs: seq<GateInput>

    /** The sink's wiring: the getter, setter and initializer registered at construction. */
    ghost predicate Wired()
      ensures Wired() ==> path != []
      decreases |path|
    {
      match link
      case RootEntry(r, k, init) => r == root && path == [k] && base == init
      case ParentEntry(p, k) =>
        && p.adapter.path + [k] == path
        && p.adapter.root == root && p.adapter.bus == bus && p.adapter.base == base
        && p.adapter.Wired()
        && p.key == Last(p.adapter.path)
    }

    /** The snapshot gate has seen `gateInputs` since construction, starting closed. */
    ghost predicate GateValid()
      reads this
    {
      initialized == FlagAfter(false, gateInputs) && snapshots == GateOutput(false, gateInputs)
    }

    /** A top-level adapter: its getter and setter are the root storage's entry `key`. */
    constructor AtRoot(root: RecurringStorage, key: string, initial: Value, bus: EmissionLog)
      ensures Wired() && GateValid() && !initialized
      ensures this.link == RootEntry(root, key, initial) && this.root == root && this.bus == bus
      ensures path == [key] && base == initial && snapshots == []
    {
      link := RootEntry(root, key, initial);
      this.root := root;
      this.bus := bus;
      path := [key];
      base := initial;
      initialized := false;
      snapshots := [];
      gateInputs := [];
    }

    /** The adapter `scopeWith(key)` builds: getter, setter and initializer are the parent's at `key`. */
    constructor Below(parent: RecurringScopedStorage, key: string)
      requires parent.Wired()
      ensures Wired() && GateValid() && !initialized
      ensures link == ParentEntry(parent, key) && root == parent.adapter.root && bus == parent.adapter.bus
      ensures path == parent.adapter.path + [key] && snapshots == []
    {
      link := ParentEntry(parent, key);
      root := parent.adapter.root;
      bus := parent.adapter.bus;
      path := parent.adapter.path + [key];
      base := parent.adapter.base;
      initialized := false;
      snapshots := [];
      gateInputs := [];
    }

    /** The object the getter chain yields: the lookup of `path` in the active container. */
    function Item(): (v: Value)
      requires Wired() && root.container != null
      reads root, root.container
      ensures v == ItemAt(root.container.storage, path)
      decreases |path|
    {
      match link
      case RootEntry(r, k, _) =>
        ItemAtChild(root.container.storage, [], k);
        assert [] + [k] == path;
        r.container.Get(k)
      case ParentEntry(p, k) =>
        ItemAtChild(root.container.storage, p.adapter.path, k);
        Get(p.adapter.Item(), k)
    }

    /** `getItem()`: the registered getter's result. */
    method GetItem() returns (v: Value)
      requires Wired() && root.container != null
      ensures v == ItemAt(root.container.storage, path)
      decreases |path|, 0
    {
      match link
      case RootEntry(r, k, _) =>
        v := r.GetItem(k);
        ItemAtChild(root.container.storage, [], k);
        assert [] + [k] == path;
      case ParentEntry(p, k) =>
        v := p.GetItem(k);
    }

    /**
     * `setItem(v)`: calls the registered setter once with `v`. The write
     * climbs the parents to one container entry, which the root storage
     * republishes; every parent on the way reports its field UPDATE.
     */
    method SetItem(v: Value)
      requires Wired() && root.Valid() && root.container != null
      modifies root, root.container, bus
      ensures root.Valid() && root.container == old(root.container) && root.calls == old(root.calls)
      ensures root.container.storage == WriteAt(old(root.container.storage), path, v)
      ensures root.changes == old(root.changes) + TopChanges(old(root.container.storage), path, v)
      ensures root.sources == old(root.sources) + Repeat(root.container, |TopChanges(old(root.container.storage), path, v)|)
      ensures bus.entries == old(bus.entries) + WriteEmissions(old(root.container.storage), v)
      decreases |path|, 0
    {
      match link
      case RootEntry(r, k, _) =>
        r.SetItem(k, v);
      case ParentEntry(p, k) =>
        p.SetItem(k, v);
    }

    /** The events the parents emit while the setter writes `v`, innermost parent last. */
    ghost function WriteEmissions(st: map<string, Value>, v: Value): seq<Emission>
      requires Wired()
      decreases |path|, 0
    {
      match link
      case RootEntry(_, _, _) => []
      case ParentEntry(p, k) => p.SetEmissions(st, k, v)
    }

    /**
     * `getInitialState()`: the initializer's value, read afresh each call;
     * for a child, the parent's initial state at the child's key. Where
     * every ancestor in the top-level initial state is an object, this is
     * the lookup of the path below the top-level key.
     */
    function InitialState(): (r: Option<Value>)
      requires Wired()
      ensures (|path| == 1 || GetPath(base, path[1..|path| - 1]).Obj?) ==> r == Some(GetPath(base, path[1..]))
      decreases |path|
    {
      match link
      case RootEntry(_, _, init) => Some(init)
      case ParentEntry(p, k) =>
        var q := p.adapter.path;
        InitialBelow(base, q, k);
        match p.adapter.InitialState()
        case None => None
        case Some(s) => Member(s, k)
    }

    /** `setInitialized(b)` through the context: the flag becomes `b`, in either direction. */
    method SetInitialized(b: bool)
      requires GateValid()
      modifies this`initialized, this`gateInputs
      ensures GateValid() && initialized == b && snapshots == old(snapshots)
      ensures gateInputs == old(gateInputs) + [Flag(b)]
    {
      gateInputs := gateInputs + [Flag(b)];
      initialized := b;
    }

    /** The snapshot source emits `v`: the gate forwards it only while initialized. */
    method SourceEmits(v: Value)
      requires GateValid()
      modifies this`snapshots, this`gateInputs
      ensures GateValid() && initialized == old(initialized)
      ensures snapshots == old(snapshots) + (if initialized then [v] else [])
      ensures gateInputs == old(gateInputs) + [Source(v)]
    {
      assert (gateInputs + [Source(v)])[..|gateInputs|] == gateInputs;
      gateInputs := gateInputs + [Source(v)];
      if initialized {
        snapshots := snapshots + [v];
      }
    }

    /**
     * The parent scope emits snapshot `s`: the child's flag follows
     * whether `s` holds an object at the child's key, and the child's
     * source yields the projection of `s` when `s` is an object.
     */
    method ParentSnapshot(s: Value)
      requires GateValid() && link.ParentEntry?
      modifies this`initialized, this`snapshots, this`gateInputs
      ensures GateValid() && initialized == ChildInitialized(s, link.key)
      ensures snapshots == old(snapshots) + (if ChildInitialized(s, link.key) then [Get(s, link.key)] else [])
    {
      SetInitialized(ChildInitialized(s, link.key));
      var projected := ChildSource(s, link.key);
      if projected.Some? {
        SourceEmits(projected.value);
      }
    }
  }

  /** Reading a child's initial state is reading one key further into the top-level initial state. */
  lemma InitialBelow(base: Value, q: seq<string>, k: string)
    requires q != []
    ensures (q + [k])[1..] == q[1..] + [k]
    ensures (q + [k])[1..|q + [k]| - 1] == q[1..]
    ensures GetPath(base, q[1..] + [k]) == Get(GetPath(base, q[1..]), k)
    ensures |q| >= 2 && GetPath(base, q[1..]).Obj? ==> GetPath(base, q[1..|q| - 1]).Obj?
  {
    GetPathSnoc(base, q[1..], k);
    if |q| >= 2 {
      assert q[1..] == q[1..|q| - 1] + [q[|q| - 1]];
      GetPathSnoc(base, q[1..|q| - 1], q[|q| - 1]);
    }
  }

  class RecurringScopedStorage {
    const key: string
    const adapter: ScopedStorageAdapter

    ghost predicate Wired() {
      adapter.Wired() && key == Last(adapter.path)
    }

    /** The scope's path from the root container. */
    ghost function Path(): seq<string> {
      adapter.path
    }

    /** `root.scope(key)` with the state initializer `initial`. */
    constructor Top(root: RecurringStorage, key: string, initial: Value, bus: EmissionLog)
      ensures Wired() && fresh(adapter) && adapter.GateValid() && !adapter.initialized
      ensures this.key == key && adapter.link == RootEntry(root, key, initial)
      ensures adapter.root == root && adapter.bus == bus && Path() == [key]
    {
      this.key := key;
      adapter := new ScopedStorageAdapter.AtRoot(root, key, initial, bus);
    }

    /** The storage `scope(key)` returns: its adapter reads and writes this scope's field `key`. */
    method Scope(k: string) returns (child: RecurringScopedStorage)
      requires Wired()
      ensures fresh(child) && fresh(child.adapter) && child.Wired()
      ensures child.key == k && child.adapter.link == ParentEntry(this, k)
      ensures child.Path() == Path() + [k] && child.adapter.root == adapter.root && child.adapter.bus == adapter.bus
      ensures child.adapter.GateValid() && !child.adapter.initialized
    {
      child := new RecurringScopedStorage.Child(this, k);
    }

    constructor Child(parent: RecurringScopedStorage, k: string)
      requires parent.Wired()
      ensures fresh(adapter) && Wired() && key == k && adapter.link == ParentEntry(parent, k)
      ensures adapter.path == parent.Path() + [k] && adapter.root == parent.adapter.root && adapter.bus == parent.adapter.bus
      ensures adapter.GateValid() && !adapter.initialized
    {
      key := k;
      adapter := new ScopedStorageAdapter.Below(parent, k);
    }

    /** `getItem(k)`: field `k` of the scoped object, that is, the lookup of one key further down. */
    method GetItem(k: string) returns (v: Value)
      requires Wired() && adapter.root.container != null
      ensures v == Get(adapter.Item(), k)
      ensures v == ItemAt(adapter.root.container.storage, Path() + [k])
      decreases |adapter.path|, 1
    {
      var item := adapter.GetItem();
      v := Get(item, k);
      ItemAtChild(adapter.root.container.storage, Path(), k);
    }

    /** `hasItem(k)`: whether the scoped object has field `k`. */
    function HasItem(k: string): (b: bool)
      requires Wired() && adapter.root.container != null
      reads adapter.root, adapter.root.container
      ensures b <==> ItemAt(adapter.root.container.storage, Path()).Obj? && k in ItemAt(adapter.root.container.storage, Path()).fields
    {
      Has(adapter.Item(), k)
    }

    /** `getAll()`: the whole scoped object. */
    function GetAll(): (v: Value)
      requires Wired() && adapter.root.container != null
      reads adapter.root, adapter.root.container
      ensures v == ItemAt(adapter.root.container.storage, Path())
    {
      adapter.Item()
    }

    /** The events one `setItem(k, v)` on this scope emits, its parents' first. */
    ghost function SetEmissions(st: map<string, Value>, k: string, v: Value): seq<Emission>
      requires Wired()
      decreases |adapter.path|, 1
    {
      var item := ItemAt(st, adapter.path);
      if Truthy(item) then adapter.WriteEmissions(st, SetField(item, k, v)) + [Emission(this, Change(Update, k, v))]
      else []
    }

    /**
     * `setItem(k, v)`: reads the scoped object and, when it is truthy, sets
     * field `k`, writes the whole object back and emits UPDATE `k` `v`. A
     * falsy object means no write and no event.
     */
    method SetItem(k: string, v: Value)
      requires Wired() && adapter.root.Valid() && adapter.root.container != null
      modifies adapter.root, adapter.root.container, adapter.bus
      ensures adapter.root.Valid() && adapter.root.container == old(adapter.root.container)
      ensures adapter.root.calls == old(adapter.root.calls)
      ensures adapter.root.container.storage == WriteAt(old(adapter.root.container.storage), Path() + [k], v)
      ensures adapter.root.changes == old(adapter.root.changes) + TopChanges(old(adapter.root.container.storage), Path() + [k], v)
      ensures adapter.root.sources == old(adapter.root.sources)
                                      + Repeat(adapter.root.container, |TopChanges(old(adapter.root.container.storage), Path() + [k], v)|)
      ensures adapter.bus.entries == old(adapter.bus.entries) + SetEmissions(old(adapter.root.container.storage), k, v)
      ensures old(GetAll()).Obj? ==> Get(GetAll(), k) == v
      decreases |adapter.path|, 1
    {
      ghost var st := adapter.root.container.storage;
      var item := adapter.GetItem();
      if Truthy(item) {
        WriteField(st, Path(), k, v);
        adapter.SetItem(SetField(item, k, v));
        adapter.bus.entries := adapter.bus.entries + [Emission(this, Change(Update, k, v))];
      } else {
        WriteBelowFalsy(st, Path(), k, v);
      }
      if item.Obj? {
        SetThenGet(st, Path(), k, v);
        ItemAtChild(adapter.root.container.storage, Path(), k);
      }
    }

    /** One UPDATE event per pair of `values`, in order, emitted by this scope. */
    function UpdateEmissions(values: seq<(string, Value)>): (events: seq<Emission>)
      ensures |events| == |values|
      ensures forall i :: 0 <= i < |values| ==> events[i] == Emission(this, Change(Update, values[i].0, values[i].1))
    {
      if values == [] then []
      else UpdateEmissions(values[..|values| - 1]) + [Emission(this, Change(Update, values[|values| - 1].0, values[|values| - 1].1))]
    }

    /**
     * `setItems(values)`: when the scoped object is truthy, sets every pair
     * into it, writes it back once, then emits one UPDATE per pair in key
     * order. Afterwards each given key reads its given value and every
     * other field reads as before.
     */
    method SetItems(values: seq<(string, Value)>)
      requires Wired() && adapter.root.Valid() && adapter.root.container != null
      requires DistinctKeys(values)
      modifies adapter.root, adapter.root.container, adapter.bus
      ensures adapter.root.Valid() && adapter.root.container == old(adapter.root.container)
      ensures adapter.root.calls == old(adapter.root.calls)
      ensures !Truthy(old(GetAll())) ==>
                && adapter.root.container.storage == old(adapter.root.container.storage)
                && adapter.root.changes == old(adapter.root.changes)
                && adapter.root.sources == old(adapter.root.sources)
                && adapter.bus.entries == old(adapter.bus.entries)
      ensures Truthy(old(GetAll())) ==>
                && adapter.root.container.storage == WriteAt(old(adapter.root.container.storage), Path(), SetAll(old(GetAll()), values))
                && adapter.root.changes == old(adapter.root.changes) + TopChanges(old(adapter.root.container.storage), Path(), SetAll(old(GetAll()), values))
                && adapter.root.sources == old(adapter.root.sources) + [adapter.root.container]
                && |adapter.root.changes| == |old(adapter.root.changes)| + 1
                && adapter.bus.entries == old(adapter.bus.entries)
                     + adapter.WriteEmissions(old(adapter.root.container.storage), SetAll(old(GetAll()), values))
                     + UpdateEmissions(values)
      ensures old(GetAll()).Obj? ==> forall i :: 0 <= i < |values| ==> Get(GetAll(), values[i].0) == values[i].1
      ensures old(GetAll()).Obj? ==> forall k :: (forall i :: 0 <= i < |values| ==> values[i].0 != k) ==> Get(GetAll(), k) == Get(old(GetAll()), k)
    {
      ghost var st := adapter.root.container.storage;
      var item := adapter.GetItem();
      if Truthy(item) {
        var updated := SetEach(item, values);
        RewriteTruthy(st, Path(), updated);
        adapter.SetItem(updated);
        EmitUpdates(values);
        if item.Obj? {
          SetAllFields(item, values);
        }
      }
    }

    /** The first loop of `setItems`: `set` of each pair into the fetched object, in key order. */
    static method SetEach(item: Value, values: seq<(string, Value)>) returns (updated: Value)
      ensures updated == SetAll(item, values)
    {
      updated := item;
      var i := 0;
      while i < |values|
        invariant 0 <= i <= |values|
        invariant updated == SetAll(item, values[..i])
      {
        assert values[..i + 1][..i] == values[..i];
        updated := SetField(updated, values[i].0, values[i].1);
        i := i + 1;
      }
      assert values[..|values|] == values;
    }

    /** The second loop of `setItems`: one UPDATE event per pair, in key order. */
    method EmitUpdates(values: seq<(string, Value)>)
      modifies adapter.bus
      ensures adapter.bus.entries == old(adapter.bus.entries) + UpdateEmissions(values)
    {
      var i := 0;
      while i < |values|
        invariant 0 <= i <= |values|
        invariant adapter.bus.entries == old(adapter.bus.entries) + UpdateEmissions(values[..i])
      {
        assert values[..i + 1][..i] == values[..i];
        adapter.bus.entries := adapter.bus.entries + [Emission(this, Change(Update, values[i].0, values[i].1))];
        i := i + 1;
      }
      assert values[..|values|] == values;
    }

    /**
     * `removeItem(k)`: when the scoped object is truthy, unsets field `k`,
     * writes it back and emits DELETE `k` with an undefined value.
     * Afterwards the scope has no field `k`, whatever it held before.
     */
    method RemoveItem(k: string)
      requires Wired() && adapter.root.Valid() && adapter.root.container != null
      modifies adapter.root, adapter.root.container, adapter.bus
      ensures adapter.root.Valid() && adapter.root.container == old(adapter.root.container)
      ensures adapter.root.calls == old(adapter.root.calls)
      ensures !Truthy(old(GetAll())) ==>
                && adapter.root.container.storage == old(adapter.root.container.storage)
                && adapter.root.changes == old(adapter.root.changes)
                && adapter.root.sources == old(adapter.root.sources)
                && adapter.bus.entries == old(adapter.bus.entries)
      ensures Truthy(old(GetAll())) ==>
                && adapter.root.container.storage == WriteAt(old(adapter.root.container.storage), Path(), Unset(old(GetAll()), k))
                && adapter.root.changes == old(adapter.root.changes) + TopChanges(old(adapter.root.container.storage), Path(), Unset(old(GetAll()), k))
                && adapter.root.sources == old(adapter.root.sources) + [adapter.root.container]
                && adapter.bus.entries == old(adapter.bus.entries)
                     + adapter.WriteEmissions(old(adapter.root.container.storage), Unset(old(GetAll()), k))
                     + [Emission(this, Change(Delete, k, Undefined))]
      ensures !HasItem(k)
      ensures old(GetAll()).Obj? ==> forall j :: j != k ==> Get(GetAll(), j) == Get(old(GetAll()), j)
    {
      ghost var st := adapter.root.container.storage;
      var item := adapter.GetItem();
      if Truthy(item) {
        RewriteTruthy(st, Path(), Unset(item, k));
        adapter.SetItem(Unset(item, k));
        adapter.bus.entries := adapter.bus.entries + [Emission(this, Change(Delete, k, Undefined))];
      }
    }

    /**
     * `clear()`: writes the adapter's initial state (not an empty object)
     * and emits CLEARED with the empty key. When the initial state cannot
     * be read (a parent initial state is undefined or null) nothing is
     * written and nothing is emitted.
     */
    method Clear()
      requires Wired() && adapter.root.Valid() && adapter.root.container != null
      modifies adapter.root, adapter.root.container, adapter.bus
      ensures adapter.root.Valid() && adapter.root.container == old(adapter.root.container)
      ensures adapter.root.calls == old(adapter.root.calls)
      ensures adapter.InitialState().None? ==>
                && adapter.root.container.storage == old(adapter.root.container.storage)
                && adapter.root.changes == old(adapter.root.changes)
                && adapter.root.sources == old(adapter.root.sources)
                && adapter.bus.entries == old(adapter.bus.entries)
      ensures adapter.InitialState().Some? ==>
                && adapter.root.container.storage == WriteAt(old(adapter.root.container.storage), Path(), adapter.InitialState().value)
                && adapter.root.changes == old(adapter.root.changes) + TopChanges(old(adapter.root.container.storage), Path(), adapter.InitialState().value)
                && adapter.root.sources == old(adapter.root.sources)
                     + Repeat(adapter.root.container, |TopChanges(old(adapter.root.container.storage), Path(), adapter.InitialState().value)|)
                && adapter.bus.entries == old(adapter.bus.entries)
                     + adapter.WriteEmissions(old(adapter.root.container.storage), adapter.InitialState().value)
                     + [Emission(this, Change(Cleared, "", Undefined))]
      ensures adapter.InitialState().Some? && (|Path()| == 1 || ItemAt(old(adapter.root.container.storage), Parent(Path())).Obj?) ==>
                GetAll() == adapter.InitialState().value
    {
      ghost var st := adapter.root.container.storage;
      var initial := adapter.InitialState();
      if initial.Some? {
        if |Path()| == 1 || ItemAt(st, Parent(Path())).Obj? {
          WriteLands(st, Path(), initial.value);
        }
        adapter.SetItem(initial.value);
        adapter.bus.entries := adapter.bus.entries + [Emission(this, Change(Cleared, "", Undefined))];
      }
    }
  }
}

/** The scoped storage test suite's sequences, run against a root storage over a memory container. */
module ScopedScenario {
  import opened JsValues
  import opened StorageContainer
  import opened Memory
  import opened RootStorage
  import opened ScopedState
  import opened Scoped

  /** Clearing writes the initial state and emits CLEARED; a set item then reads back and can be removed. */
  method ScopedStorageScenario()
  {
    var memory := new MemoryContainer();
    var app := RecurringStorage.WithContainer(memory);
    var bus := new EmissionLog();
    var initial := Obj(map["test" := Obj(map["id" := Str("")])]);
    var storage := new RecurringScopedStorage.Top(app, "value", initial, bus);

    storage.Clear();
    assert storage.GetAll() == initial;
    assert bus.entries == [Emission(storage, Change(Cleared, "", Undefined))];

    var item := Obj(map["id" := Str("123")]);
    storage.SetItem("test", item);
    var got := storage.GetItem("test");
    assert got == item;

    storage.RemoveItem("test");
    assert !storage.HasItem("test");
  }

  /** Clearing after a write restores the initial state's field. */
  method ClearAfterWriteScenario()
  {
    var memory := new MemoryContainer();
    var app := RecurringStorage.WithContainer(memory);
    var bus := new EmissionLog();
    var initial := Obj(map["test" := Obj(map["id" := Str("")])]);
    var storage := new RecurringScopedStorage.Top(app, "value", initial, bus);

    storage.Clear();
    storage.SetItem("test", Obj(map["id" := Str("123")]));
    storage.Clear();
    var got := storage.GetItem("test");
    assert got == Obj(map["id" := Str("")]);
  }

  /** A child scope's write goes through its parent's field write and lands in the parent's object. */
  method ChildScopeScenario()
  {
    var memory := new MemoryContainer();
    var app := RecurringStorage.WithContainer(memory);
    var bus := new EmissionLog();
    var storage := new RecurringScopedStorage.Top(app, "value", Obj(map["test" := Obj(map[])]), bus);
    storage.Clear();
    var child := storage.Scope("test");
    assert child.GetAll() == Obj(map[]);
    child.SetItem("id", Str("9"));
    var got := storage.GetItem("test");
    assert Get(got, "id") == Str("9");
  }
}
