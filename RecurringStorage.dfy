/**
 * The root storage: owns the active container (swappable at run time),
 * forwards the flat key-value operations to it, and republishes the
 * container's change reports on its own change stream.
 */
module RootStorage {
  import opened JsValues
  import opened StorageContainer
  import opened ChangeEvents
  import opened Memory

  /** A lifecycle call the root storage made on a container. */
  datatype ContainerCall =
    | Detached(container: MemoryContainer)
    | Registered(container: MemoryContainer)
    | Attached(container: MemoryContainer)

  /** The changes the relay republishes for a run of container reports: the same type, key and value. */
  function Relayed(notices: seq<Notice>): (changes: seq<Change>)
    ensures |changes| == |notices|
    ensures forall i :: 0 <= i < |notices| ==> changes[i] == notices[i].change
  {
    if notices == [] then [] else Relayed(notices[..|notices| - 1]) + [notices[|notices| - 1].change]
  }

  lemma {:induction false} RelayedAppend(a: seq<Notice>, b: seq<Notice>)
    ensures Relayed(a + b) == Relayed(a) + Relayed(b)
    decreases |b|
  {
    if b != [] {
      assert (a + b)[..|a + b| - 1] == a + b[..|b| - 1];
      RelayedAppend(a, b[..|b| - 1]);
    } else {
      assert a + b == a;
    }
  }

  /** Republishing the reports after position `from` keeps the relayed suffix in step with the log. */
  lemma RelayExtends(changes: seq<Change>, changeMark: nat, log: seq<Notice>, logMark: nat, from: nat)
    requires logMark <= from <= |log| && changeMark <= |changes|
    requires changes[changeMark..] == Relayed(log[logMark..from])
    ensures (changes + Relayed(log[from..]))[changeMark..] == Relayed(log[logMark..])
  {
    RelayedAppend(log[logMark..from], log[from..]);
    assert log[logMark..] == log[logMark..from] + log[from..];
    assert (changes + Relayed(log[from..]))[changeMark..] == changes[changeMark..] + Relayed(log[from..]);
  }

  class RecurringStorage {
    var container: MemoryContainer?
    var changes: seq<Change>
    var sources: seq<MemoryContainer>
    var calls: seq<ContainerCall>
    ghost var logMark: nat
    ghost var changeMark: nat

    /**
     * The relay registered on the active container is this storage, and
     * every report the container has made since it was attached appears on
     * the change stream, in order, with the same type, key and value.
     * `sources[i]` is the container the i-th event on the stream was created
     * with (the one its snapshot reads); every event since the attach was
     * created with the active container.
     */
    ghost predicate Valid()
      reads this, container
    {
      && |sources| == |changes|
      && (container != null ==>
            && container.onChange == this
            && logMark <= |container.log|
            && changeMark <= |changes|
            && changes[changeMark..] == Relayed(container.log[logMark..])
            && FromContainer(sources, changeMark, container))
    }

    constructor ()
      ensures Valid() && container == null && changes == [] && sources == [] && calls == []
    {
      container := null;
      changes := [];
      sources := [];
      calls := [];
    }

    /** `getContainer()`: the container most recently set (none before the first `setContainer`). */
    method GetContainer() returns (c: MemoryContainer?)
      ensures c == container
    {
      c := container;
    }

    /**
     * `setContainer(c)`: detaches the previous container if there is one,
     * registers the relay on `c`, attaches `c`, then emits one
     * CONTAINER_CHANGE event with the empty key and an undefined value,
     * created with `c`. The event's snapshot has not been read; reading it
     * reads `c`, whose contents attaching left as they were.
     */
    method SetContainer(c: MemoryContainer) returns (event: ChangeEvent)
      requires Valid()
      modifies this, c
      ensures Valid() && container == c
      ensures calls == old(calls) + (if old(container) != null then [Detached(old(container))] else [])
                                  + [Registered(c), Attached(c)]
      ensures changes == old(changes) + [Change(ContainerChange, "", Undefined)]
      ensures sources == old(sources) + [c]
      ensures c.storage == old(c.storage) && c.log == old(c.log) && c.onChange == this
      ensures fresh(event) && event.Valid() && event.snapshot.None?
      ensures event.kind == ContainerChange && event.key == "" && event.value == Undefined
      ensures event.source == c
    {
      if container != null {
        container.Detach();
        calls := calls + [Detached(container)];
      }
      c.RegisterOnChange(this);
      calls := calls + [Registered(c)];
      c.Attach();
      calls := calls + [Attached(c)];
      event := new ChangeEvent.Create(ContainerChange, "", Undefined, c);
      changes := changes + [Change(event.kind, event.key, event.value)];
      sources := sources + [event.source];
      container := c;
      logMark := |c.log|;
      changeMark := |changes|;
    }

    /**
     * The relay: republishes the active container's reports made since
     * position `from` of its log, each as an event created with that
     * container.
     */
    method Republish(from: nat)
      requires container != null && container.onChange == this
      requires logMark <= from <= |container.log| && changeMark <= |changes|
      requires changes[changeMark..] == Relayed(container.log[logMark..from])
      requires |sources| == |changes| && FromContainer(sources, changeMark, container)
      modifies this`changes, this`sources
      ensures Valid()
      ensures changes == old(changes) + Relayed(container.log[from..])
      ensures sources == old(sources) + Repeat(container, |container.log| - from)
    {
      RelayExtends(changes, changeMark, container.log, logMark, from);
      changes := changes + Relayed(container.log[from..]);
      sources := sources + Repeat(container, |container.log| - from);
    }

    /** `getItem(key)` on the active container. */
    method GetItem(key: string) returns (v: Value)
      requires container != null
      ensures key in container.storage ==> v == container.storage[key]
      ensures key !in container.storage ==> v == Undefined
    {
      v := container.GetItem(key);
    }

    /** `setItem(key, value)` on the active container; its UPDATE report is republished. */
    method SetItem(key: string, value: Value)
      requires Valid() && container != null
      modifies this, container
      ensures Valid() && container == old(container) && calls == old(calls)
      ensures container.storage == old(container.storage)[key := value]
      ensures container.log == old(container.log) + [Notice(this, Change(Update, key, value))]
      ensures changes == old(changes) + [Change(Update, key, value)]
      ensures sources == old(sources) + [container]
    {
      var from := |container.log|;
      ghost var before := container.log;
      container.SetItem(key, value);
      assert container.log[logMark..from] == before[logMark..];
      assert container.log[from..] == [Notice(this, Change(Update, key, value))];
      Republish(from);
    }

    /** `removeItem(key)` on the active container; a DELETE is republished only if the key was present. */
    method RemoveItem(key: string)
      requires Valid() && container != null
      modifies this, container
      ensures Valid() && container == old(container) && calls == old(calls)
      ensures container.storage == old(container.storage) - {key}
      ensures container.log == old(container.log) + (if key in old(container.storage) then [Notice(this, Change(Delete, key, Undefined))] else [])
      ensures changes == old(changes) + (if key in old(container.storage) then [Change(Delete, key, Undefined)] else [])
      ensures sources == old(sources) + (if key in old(container.storage) then [container] else [])
    {
      var from := |container.log|;
      ghost var before := container.log;
      ghost var reported := if key in container.storage then [Notice(this, Change(Delete, key, Undefined))] else [];
      container.RemoveItem(key);
      assert container.log == before + reported;
      assert container.log[logMark..from] == before[logMark..];
      assert container.log[from..] == reported;
      Republish(from);
      assert Relayed(reported) == if reported == [] then [] else [Change(Delete, key, Undefined)];
      assert Repeat(container, |reported|) == if reported == [] then [] else [container];
    }

    /** `clear()` on the active container; its CLEARED report is republished. */
    method Clear()
      requires Valid() && container != null
      modifies this, container
      ensures Valid() && container == old(container) && calls == old(calls)
      ensures container.storage == map[]
      ensures container.log == old(container.log) + [Notice(this, Change(Cleared, "", Undefined))]
      ensures changes == old(changes) + [Change(Cleared, "", Undefined)]
      ensures sources == old(sources) + [container]
    {
      var from := |container.log|;
      ghost var before := container.log;
      container.Clear();
      assert container.log[logMark..from] == before[logMark..];
      assert container.log[from..] == [Notice(this, Change(Cleared, "", Undefined))];
      Republish(from);
    }

    /** `getAll()` on the active container. */
    method GetAll() returns (all: map<string, Value>)
      requires container != null
      ensures all == container.storage
    {
      all := container.GetAll();
    }

    /** `hasItem(key)` on the active container. */
    method HasItem(key: string) returns (b: bool)
      requires container != null
      ensures b <==> key in container.storage
    {
      b := container.HasItem(key);
    }

    /** `withContainer(c)`: a new root storage using `c`. */
    static method WithContainer(c: MemoryContainer) returns (storage: RecurringStorage)
      modifies c
      ensures fresh(storage) && storage.Valid() && storage.container == c
      ensures c.storage == old(c.storage)
    {
      storage := new RecurringStorage();
      var _ := storage.SetContainer(c);
    }

    /**
     * `copy(src, dest)`: reads everything from `src` and sets each key on
     * `dest`, so `dest` becomes `dest` overridden by `src`. `order` is the
     * order `Object.keys` gave (each key of `src` once); `dest` reports one
     * UPDATE per copied key, in that order.
     */
    static method Copy(src: MemoryContainer, dest: MemoryContainer) returns (ghost order: seq<string>)
      modifies dest
      ensures dest.storage == old(dest.storage) + old(src.storage)
      ensures forall k :: k in order ==> k in old(src.storage)
      ensures forall k :: k in old(src.storage) ==> k in order
      ensures forall i, j :: 0 <= i < j < |order| ==> order[i] != order[j]
      ensures dest.log == old(dest.log) + Updates(dest.onChange, order, old(src.storage))
      ensures dest.onChange == old(dest.onChange)
    {
      var items := src.GetAll();
      var pending := items.Keys;
      ghost var base, log, to := dest.storage, dest.log, dest.onChange;
      ghost var copied: map<string, Value> := map[];
      order := [];
      while pending != {}
        modifies dest`storage, dest`log
        invariant CopyProgress(items, pending, order, copied)
        invariant dest.onChange == to
        invariant dest.storage == base + copied
        invariant dest.log == log + Updates(to, order, items)
        decreases pending
      {
        var k :| k in pending;
        dest.SetItem(k, items[k]);
        CopyAdvance(base, log, to, items, pending, order, copied, k);
        order := order + [k];
        copied := copied[k := items[k]];
        pending := pending - {k};
      }
      CopyDone(items, order, copied);
    }

    /** `clone(src, dest)`: clears `dest`, then copies `src` into it. */
    static method Clone(src: MemoryContainer, dest: MemoryContainer) returns (ghost order: seq<string>)
      modifies dest
      ensures dest.storage == if src == dest then map[] else old(src.storage)
      ensures forall k :: k in order ==> k in (if src == dest then map[] else old(src.storage))
      ensures forall k :: k in (if src == dest then map[] else old(src.storage)) ==> k in order
      ensures forall i, j :: 0 <= i < j < |order| ==> order[i] != order[j]
      ensures dest.log == old(dest.log) + [Notice(dest.onChange, Change(Cleared, "", Undefined))]
                          + Updates(dest.onChange, order, if src == dest then map[] else old(src.storage))
      ensures dest.onChange == old(dest.onChange)
    {
      dest.Clear();
      order := Copy(src, dest);
    }
  }

  /** `n` copies of `c`: the sources of `n` events the relay of `c` creates. */
  function Repeat(c: MemoryContainer, n: nat): (r: seq<MemoryContainer>)
    ensures |r| == n && forall i :: 0 <= i < n ==> r[i] == c
  {
    if n == 0 then [] else Repeat(c, n - 1) + [c]
  }

  /** Every entry of `sources` from position `from` on is `c`. */
  ghost predicate FromContainer(sources: seq<MemoryContainer>, from: nat, c: MemoryContainer)
  {
    forall i :: from <= i < |sources| ==> sources[i] == c
  }

  /** The reports `dest` makes while `copy` sets each key of `order` to its value in `items`. */
  function Updates(to: object?, order: seq<string>, items: map<string, Value>): seq<Notice>
    requires forall k :: k in order ==> k in items
  {
    if order == [] then []
    else Updates(to, order[..|order| - 1], items) + [Notice(to, Change(Update, order[|order| - 1], items[order[|order| - 1]]))]
  }

  /**
   * Where `copy` stands: the keys already copied are those of `items` no
   * longer pending, each once in `order`, each with its value from `items`.
   */
  ghost predicate CopyProgress(items: map<string, Value>, pending: set<string>, order: seq<string>, copied: map<string, Value>)
  {
    && pending <= items.Keys
    && (forall k :: k in order ==> k in items && k !in pending)
    && (forall k :: k in items && k !in pending ==> k in order)
    && (forall i, j :: 0 <= i < j < |order| ==> order[i] != order[j])
    && copied.Keys == items.Keys - pending
    && (forall k :: k in copied ==> copied[k] == items[k])
  }

  /** One step of `copy`: the progress relation, the merged map and the report list all advance by key `k`. */
  lemma CopyAdvance(base: map<string, Value>, log: seq<Notice>, to: object?, items: map<string, Value>,
                    pending: set<string>, order: seq<string>, copied: map<string, Value>, k: string)
    requires CopyProgress(items, pending, order, copied) && k in pending
    ensures CopyProgress(items, pending - {k}, order + [k], copied[k := items[k]])
    ensures (base + copied)[k := items[k]] == base + copied[k := items[k]]
    ensures log + Updates(to, order, items) + [Notice(to, Change(Update, k, items[k]))] == log + Updates(to, order + [k], items)
  {
    CopyStep(items, pending, order, copied, k);
    MergeUpdate(base, copied, k, items[k]);
    UpdatesSnoc(to, order, k, items);
  }

  lemma CopyStep(items: map<string, Value>, pending: set<string>, order: seq<string>, copied: map<string, Value>, k: string)
    requires CopyProgress(items, pending, order, copied) && k in pending
    ensures CopyProgress(items, pending - {k}, order + [k], copied[k := items[k]])
  {
  }

  lemma CopyDone(items: map<string, Value>, order: seq<string>, copied: map<string, Value>)
    requires CopyProgress(items, {}, order, copied)
    ensures copied == items
    ensures forall k :: k in order <==> k in items
  {
  }

  /** Setting a key after merging is merging the set key. */
  lemma MergeUpdate(base: map<string, Value>, over: map<string, Value>, k: string, v: Value)
    ensures base + over[k := v] == (base + over)[k := v]
  {
  }

  lemma UpdatesSnoc(to: object?, order: seq<string>, k: string, items: map<string, Value>)
    requires forall j :: j in order ==> j in items
    requires k in items
    ensures Updates(to, order + [k], items) == Updates(to, order, items) + [Notice(to, Change(Update, k, items[k]))]
  {
    assert (order + [k])[..|order|] == order;
  }

  /** The root storage test suite's container swap: detach, register, attach, and a snapshot of the new container. */
  method SwapScenario()
  {
    var storage := new RecurringStorage();
    var a := new MemoryContainer();
    a.SetItem("x", Num(1));
    var first := storage.SetContainer(a);
    var b := new MemoryContainer();
    var second := storage.SetContainer(b);
    assert storage.calls == [Registered(a), Attached(a), Detached(a), Registered(b), Attached(b)];
    assert second.source == b && storage.sources == [a, b];
    var snapshot := second.Snapshot();
    assert snapshot == map[];
  }

  /**
   * The root storage test suite's relay test: a write made directly on the
   * active container reaches the root's change stream once the handler the
   * root registered has run (`Republish`), as an UPDATE created with that
   * container, whose snapshot holds the write.
   */
  method RelayScenario()
  {
    var c := new MemoryContainer();
    var storage := RecurringStorage.WithContainer(c);
    var from := |c.log|;
    ghost var before := c.log;
    c.SetItem("test", Num(123));
    assert c.log == before + [Notice(storage, Change(Update, "test", Num(123)))];
    assert c.log[storage.logMark..from] == before[storage.logMark..];
    assert c.log[from..] == [Notice(storage, Change(Update, "test", Num(123)))];
    storage.Republish(from);
    var n := |storage.changes|;
    assert storage.changes[n - 1] == Change(Update, "test", Num(123));
    assert storage.sources[n - 1] == c;
    var event := new ChangeEvent.Create(Update, "test", Num(123), c);
    var snapshot := event.Snapshot();
    assert snapshot == map["test" := Num(123)];
  }

  /**
   * `copy` into the active container: the container reports one UPDATE per
   * copied key, and once the root's handler has run on those reports, the
   * relay invariant holds again and the root's stream ends with them.
   */
  method CopyRelayScenario(src: MemoryContainer)
  {
    var c := new MemoryContainer();
    var storage := RecurringStorage.WithContainer(c);
    var from := |c.log|;
    ghost var before := c.log;
    ghost var beforeChanges := storage.changes;
    ghost var order := RecurringStorage.Copy(src, c);
    assert c.storage == src.storage;
    assert c.log[storage.logMark..from] == before[storage.logMark..];
    storage.Republish(from);
    assert storage.Valid();
    assert storage.changes == beforeChanges + Relayed(Updates(storage, order, src.storage));
  }

  /** The root storage test suite's forwarding tests: writes, reads, removal and clearing through the root. */
  method ForwardingScenario()
  {
    var c := new MemoryContainer();
    var storage := RecurringStorage.WithContainer(c);
    storage.SetItem("test", Num(123));
    var v := storage.GetItem("test");
    assert v == Num(123);
    storage.RemoveItem("test");
    var present := storage.HasItem("test");
    assert !present;
    storage.SetItem("test", Num(123));
    storage.Clear();
    var all := storage.GetAll();
    assert all == map[];
    assert storage.changes[|storage.changes| - 1] == Change(Cleared, "", Undefined);
  }
}
