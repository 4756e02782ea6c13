/**
 * The in-memory reference container: a flat map from keys to values. Every
 * mutation reports itself to the registered change handler; the model keeps
 * those reports, in order, in `log`, each tagged with the handler it went to.
 */
module Memory {
  import opened JsValues
  import opened StorageContainer

  /** One call of the change handler: the handler registered at the time (null for the default no-op) and the change. */
  datatype Notice = Notice(to: object?, change: Change)

  class MemoryContainer {
    var storage: map<string, Value>
    var onChange: object?
    var log: seq<Notice>

    constructor ()
      ensures storage == map[] && onChange == null && log == []
    {
      storage := map[];
      onChange := null;
      log := [];
    }

    /** `registerOnChange(handler)`: later changes are reported to `handler`. */
    method RegisterOnChange(handler: object)
      modifies this`onChange
      ensures onChange == handler
    {
      onChange := handler;
    }

    /** `attach()` does nothing to the stored map or the reports. */
    method Attach()
      ensures storage == old(storage) && log == old(log)
    {
    }

    /** `detach()` does nothing to the stored map or the reports. */
    method Detach()
      ensures storage == old(storage) && log == old(log)
    {
    }

    /** What `storage[key]` reads as: the stored value, or undefined for a missing key. */
    function Get(key: string): (v: Value)
      reads this
      ensures key in storage ==> v == storage[key]
      ensures key !in storage ==> v == Undefined
    {
      if key in storage then storage[key] else Undefined
    }

    /** `getItem(key)`: a missing key reads as undefined, never as a failure. */
    method GetItem(key: string) returns (v: Value)
      ensures key in storage ==> v == storage[key]
      ensures key !in storage ==> v == Undefined
    {
      v := Get(key);
    }

    /** `setItem(key, value)`: stores the value, then reports UPDATE. */
    method SetItem(key: string, value: Value)
      modifies this`storage, this`log
      ensures storage == old(storage)[key := value]
      ensures log == old(log) + [Notice(onChange, Change(Update, key, value))]
    {
      storage := storage[key := value];
      log := log + [Notice(onChange, Change(Update, key, value))];
    }

    /** `removeItem(key)`: deletes and reports DELETE only when the key is present. */
    method RemoveItem(key: string)
      modifies this`storage, this`log
      ensures storage == old(storage) - {key}
      ensures key in old(storage) ==> log == old(log) + [Notice(onChange, Change(Delete, key, Undefined))]
      ensures key !in old(storage) ==> log == old(log) && storage == old(storage)
    {
      if key in storage {
        storage := storage - {key};
        log := log + [Notice(onChange, Change(Delete, key, Undefined))];
      }
    }

    /** `clear()`: empties the storage, then reports CLEARED with the empty key. */
    method Clear()
      modifies this`storage, this`log
      ensures storage == map[]
      ensures log == old(log) + [Notice(onChange, Change(Cleared, "", Undefined))]
    {
      storage := map[];
      log := log + [Notice(onChange, Change(Cleared, "", Undefined))];
    }

    /** `getAll()`: a copy of the storage; a map is a value, so changing the copy cannot change the storage. */
    method GetAll() returns (all: map<string, Value>)
      ensures all == storage
    {
      all := storage;
    }

    /** `hasItem(key)`: whether the key is stored. */
    method HasItem(key: string) returns (b: bool)
      ensures b <==> key in storage
    {
      b := key in storage;
    }
  }

  /** The container test suite's sequence: set, read back, remove, clear. */
  method ContainerScenario(handler: object)
  {
    var c := new MemoryContainer();
    c.RegisterOnChange(handler);
    c.Attach();
    c.SetItem("test", Bool(true));
    var v := c.GetItem("test");
    assert v == Bool(true);
    assert c.log == [Notice(handler, Change(Update, "test", Bool(true)))];
    var present := c.HasItem("test");
    assert present;
    c.RemoveItem("test");
    present := c.HasItem("test");
    assert !present;
    assert c.log[1] == Notice(handler, Change(Delete, "test", Undefined));
    c.RemoveItem("test");
    assert |c.log| == 2;
    c.SetItem("test", Obj(map[]));
    c.Clear();
    var all := c.GetAll();
    assert all == map[];
    assert c.log[3] == Notice(handler, Change(Cleared, "", Undefined));
    c.Detach();
  }
}
