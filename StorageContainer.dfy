/**
 * The change notifications shared by every storage layer: the four change
 * types and the (type, key, value) triple a container reports.
 */
module StorageContainer {
  import opened Options
  import opened JsValues

  /** The kinds of change a storage layer reports. */
  datatype ChangeType = Delete | Update | Cleared | ContainerChange

  /** The string each change type carries. */
  function ChangeTypeName(t: ChangeType): (name: string)
    ensures name in {"DELETE", "UPDATE", "CLEARED", "CONTAINER_CHANGE"}
  {
    match t
    case Delete => "DELETE"
    case Update => "UPDATE"
    case Cleared => "CLEARED"
    case ContainerChange => "CONTAINER_CHANGE"
  }

  /** Distinct change types carry distinct names, so a name identifies its type. */
  lemma ChangeTypeNamesDistinct(s: ChangeType, t: ChangeType)
    requires ChangeTypeName(s) == ChangeTypeName(t)
    ensures s == t
  {
    match s
    case Delete => assert ChangeTypeName(s)[0] == 'D';
    case Update => assert ChangeTypeName(s)[0] == 'U';
    case Cleared => assert ChangeTypeName(s)[1] == 'L';
    case ContainerChange => assert ChangeTypeName(s)[1] == 'O';
  }

  /** What a change reports: its type, the key changed and the new value (undefined for deletions). */
  datatype Change = Change(kind: ChangeType, key: string, value: Value)
}

/**
 * The change event `createChangeEvent` builds. It keeps the container it was
 * created with, and its snapshot is that container's contents, computed
 * lazily and at most once.
 */
module ChangeEvents {
  import opened Options
  import opened JsValues
  import opened StorageContainer
  import opened Memory

  /**
   * A change event as `createChangeEvent` builds it. The snapshot is a
   * compute-once cell: nothing is computed when the event is created, the
   * first read takes `source`'s contents at that moment, and every later
   * read returns that same value. `getAllCalls` counts the calls made to
   * `source.getAll()`.
   */
  class ChangeEvent {
    const kind: ChangeType
    const key: string
    const value: Value
    const source: MemoryContainer
    var snapshot: Option<map<string, Value>>
    ghost var getAllCalls: nat

    ghost predicate Valid()
      reads this
    {
      && getAllCalls <= 1
      && (snapshot.None? <==> getAllCalls == 0)
    }

    /** `createChangeEvent(kind, key, value, source)`. */
    constructor Create(kind: ChangeType, key: string, value: Value, source: MemoryContainer)
      ensures Valid()
      ensures this.kind == kind && this.key == key && this.value == value && this.source == source
      ensures snapshot == None && getAllCalls == 0
    {
      this.kind := kind;
      this.key := key;
      this.value := value;
      this.source := source;
      snapshot := None;
      getAllCalls := 0;
    }

    /** Reads the `snapshot` property: `source.getAll()` on the first read, the stored value afterwards. */
    method Snapshot() returns (s: map<string, Value>)
      requires Valid()
      modifies this
      ensures Valid()
      ensures old(snapshot).None? ==> s == source.storage && getAllCalls == 1
      ensures old(snapshot).Some? ==> s == old(snapshot).value && getAllCalls == old(getAllCalls)
      ensures snapshot == Some(s)
    {
      if snapshot.Some? {
        s := snapshot.value;
      } else {
        s := source.GetAll();
        snapshot := Some(s);
        getAllCalls := getAllCalls + 1;
      }
    }
  }

  /**
   * Two reads of one event with a write to its container in between: both
   * give the contents before the write.
   */
  method ReadSnapshotTwice(e: ChangeEvent, key: string, v: Value) returns (first: map<string, Value>, second: map<string, Value>)
    requires e.Valid() && e.snapshot.None?
    modifies e, e.source
    ensures first == old(e.source.storage) && second == first
    ensures e.source.storage == old(e.source.storage)[key := v]
    ensures e.Valid() && e.getAllCalls == 1
  {
    first := e.Snapshot();
    e.source.SetItem(key, v);
    second := e.Snapshot();
  }
}
