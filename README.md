# recur storage core, modelled in Dafny

recur puts hierarchically scoped key-value storage in front of a swappable
storage container. This project models its core and proves what the code
promises:

- **Transaction queue** (`TransactionQueue`, StorageTransactionQueue.dfy).
  - The backlog is split into units: a write alone, or a maximal run of reads.
  - The subscriber takes one unit at a time.
  - An idle flag keeps a single `run` chain alive.
  - Each caller gets the result carrying its own id.
- **Memory container** (`Memory`, MemoryContainer.dfy).
  - A flat map from keys to values.
  - Every mutation reports `(type, key, value)` to the registered handler, kept as a log.
- **Change events** (`StorageContainer`, StorageContainer.dfy).
  - The four change types.
  - A change event whose snapshot is computed on first read and then fixed.
- **Root storage** (`RootStorage`, RecurringStorage.dfy).
  - The container swap: detach the old container, register the relay, attach the new one, emit CONTAINER_CHANGE.
  - The relay republishes the container's reports unchanged.
  - The data operations are forwarded to the active container.
  - `copy` is a map merge and `clone` a map replace.
- **Scoped storages** (`ScopedState`, ScopedState.dfy; `Scoped`, RecurringScopedStorage.dfy).
  - A scoped storage reads and writes one nested object through an adapter.
  - A child scope's getter and setter are its parent's field read and field write.
  - Each write therefore climbs to exactly one container entry, or stops at a falsy ancestor.
  - `ScopedState` states this on values: the path lookup `ItemAt` and the write `WriteAt`.
  - The classes are proved against those functions.
- **Parent-path initialization** (`ParentPath`, ParentPathInitializedScopedStorage.dfy).
  - `getFromState`, `initialize` and `scope` as pure functions.

How the model is built:

- Values are JSON-like trees with JavaScript truthiness (`JsValues`, Values.dfy).
- The lodash helpers `get`, `has`, `set` and `unset` are applied with one key segment.
- rxjs streams and promises are replaced by explicit logs: `log`, `changes`, `calls`, `EmissionLog.entries` and `snapshots`.
- Each asynchronous step is one atomic method call.

## Model

| member | source | states |
|---|---|---|
| TransactionQueue.LeadingReads | src/StorageTransactionQueue.ts:125-133 | the read-collecting loop stops within the backlog (its exact stopping point is `LeadingReadsIff`) |
| TransactionQueue.Units | src/StorageTransactionQueue.ts:113-141 | the batches `run` works through, one per pass: never more batches than transactions, and none only for an empty backlog |
| TransactionQueue.NextUnit | src/StorageTransactionQueue.ts:113-133 | the unit taken is a non-empty prefix of the backlog |
| TransactionQueue.LeadingReadsIff | src/StorageTransactionQueue.ts:125-133 | the read batch has length n iff its first n transactions are reads and the (n+1)-th is a write or absent (both directions) |
| TransactionQueue.NextUnitShape | src/StorageTransactionQueue.ts:113-133 | the unit starts with the head of the backlog; it is one write or a run of reads; a read batch stops only at a write or at the end |
| TransactionQueue.UnitsFlatten | src/StorageTransactionQueue.ts:113-141 | concatenating the units in processing order gives back the backlog: nothing is dropped, duplicated or reordered |
| TransactionQueue.UnitsAreUnits | src/StorageTransactionQueue.ts:116-133 | every unit is a single write (length 1) or a non-empty run of reads |
| TransactionQueue.ReadUnitsMaximal | src/StorageTransactionQueue.ts:129-133 | a read unit is always followed by a write unit, so read batches are maximal |
| TransactionQueue.FlattenAppend | src/StorageTransactionQueue.ts:113-141 | joining units distributes over concatenation |
| TransactionQueue.ResultsAppend | src/StorageTransactionQueue.ts:135-139 | emitting two runs of results in turn is emitting the results of the joined run |
| TransactionQueue.ResultsAt | src/StorageTransactionQueue.ts:135-139 | the i-th emitted result is that of the i-th transaction, so `Promise.all` keeps submission order |
| TransactionQueue.Delivered | src/StorageTransactionQueue.ts:60-64 | a caller receives a result exactly when some emitted result carries its id, and then the result of one such emission |
| TransactionQueue.DeliveredExactlyOnce | src/StorageTransactionQueue.ts:57-74 | with distinct ids, the caller of a finished transaction receives its own work's result, and exactly one emitted result carries its id |
| TransactionQueue.AbsentIdNotCounted | src/StorageTransactionQueue.ts:60-64 | a caller whose id was never run receives nothing |
| TransactionQueue.TakeUnitKeepsInvariant | src/StorageTransactionQueue.ts:111-133 | taking the next unit keeps the queue invariant: units, then backlog, equal the submitted transactions |
| TransactionQueue.FinishUnitKeepsInvariant | src/StorageTransactionQueue.ts:117-124 | emitting the finished unit's results keeps the invariant: emitted equals the results of all finished units in order |
| TransactionQueue.QueueSubscriber.constructor | src/StorageTransactionQueue.ts:89-92 | starts idle with an empty backlog |
| TransactionQueue.QueueSubscriber.Next | src/StorageTransactionQueue.ts:98-104 | appends the transaction to the backlog; takes it at once only when idle; otherwise leaves the unit in flight alone |
| TransactionQueue.QueueSubscriber.Run | src/StorageTransactionQueue.ts:110-146 | takes `NextUnit` of the backlog (a write alone, or every read up to the first write, which stays at the head); sets idle again only when the backlog is empty |
| TransactionQueue.QueueSubscriber.CollectReads | src/StorageTransactionQueue.ts:126-133 | after a read was shifted off, shifts every following read up to the first write, which stays at the head; the batch is exactly `NextUnit` of the backlog as it stood before the shift |
| TransactionQueue.QueueSubscriber.Complete | src/StorageTransactionQueue.ts:117-124 | emits the finished unit's results in submission order before the next unit is taken |
| TransactionQueue.QueueSubscriber.DeliveredOnceWhenFinished | src/StorageTransactionQueue.ts:57-74 | in any reachable state, every transaction of a finished unit has been delivered its own result exactly once |
| TransactionQueue.QueueSubscriber.IdleMeansAllEmitted | src/StorageTransactionQueue.ts:143-145 | when idle, every submitted transaction's result has been emitted, in submission order |
| TransactionQueue.StorageTransactionQueue.Queue | src/StorageTransactionQueue.ts:57-74 | each queued transaction gets a fresh id, larger than every earlier one, and is handed to the subscriber |
| TransactionQueue.StorageTransactionQueue.QueueRead | src/StorageTransactionQueue.ts:41-47 | queues a READ with an id no earlier transaction has |
| TransactionQueue.StorageTransactionQueue.QueueWrite | src/StorageTransactionQueue.ts:49-55 | queues a WRITE with an id no earlier transaction has |
| StorageContainer.ChangeTypeName | src/StorageContainer.ts:10-15 | the change types are named exactly DELETE, UPDATE, CLEARED and CONTAINER_CHANGE |
| StorageContainer.ChangeTypeNamesDistinct | src/StorageContainer.ts:10-15 | distinct change types have distinct names |
| ChangeEvents.ChangeEvent.Create | src/StorageContainer.ts:17-27 | the event carries the given type, key, value and container; no snapshot has been computed |
| ChangeEvents.ChangeEvent.Snapshot | src/StorageContainer.ts:28-37 | the first read takes the event's own container's contents at that moment; later reads return the same value; `getAll` runs at most once |
| ChangeEvents.ReadSnapshotTwice | src/StorageContainer.ts:28-37 | with a write to the event's container between two reads, both reads give the contents from before the write |
| Memory.MemoryContainer.constructor | src/MemoryContainer.ts:16-17 | starts empty, with the no-op handler |
| Memory.MemoryContainer.RegisterOnChange | src/MemoryContainer.ts:19-21 | later reports go to the new handler |
| Memory.MemoryContainer.Attach | src/MemoryContainer.ts:23-25 | the stored map and the reports are unchanged |
| Memory.MemoryContainer.Detach | src/MemoryContainer.ts:27-29 | the stored map and the reports are unchanged |
| Memory.MemoryContainer.Get | src/MemoryContainer.ts:31-33 | a missing key reads as undefined, a present one as its value |
| Memory.MemoryContainer.GetItem | src/MemoryContainer.ts:31-33 | returns the stored value, or undefined for a missing key, never a failure |
| Memory.MemoryContainer.SetItem | src/MemoryContainer.ts:35-38 | stores the value at the key, other keys unchanged, then reports (UPDATE, key, value) |
| Memory.MemoryContainer.RemoveItem | src/MemoryContainer.ts:40-45 | deletes the key and reports (DELETE, key, undefined) only if it was present; otherwise neither state nor reports change |
| Memory.MemoryContainer.Clear | src/MemoryContainer.ts:47-50 | leaves storage empty and reports (CLEARED, "", undefined) |
| Memory.MemoryContainer.GetAll | src/MemoryContainer.ts:52-54 | returns a map equal to the storage; a map is a value, so changing it cannot change the storage |
| Memory.MemoryContainer.HasItem | src/MemoryContainer.ts:56-58 | true iff the key is stored |
| RootStorage.Relayed | src/RecurringStorage.ts:50-52 | the relay republishes each report with the same type, key and value, in order |
| RootStorage.RelayedAppend | src/RecurringStorage.ts:50-52 | relaying two runs of reports in turn is relaying their concatenation |
| RootStorage.RelayExtends | src/RecurringStorage.ts:50-52 | republishing the new reports keeps the change stream in step with the container's log |
| RootStorage.RecurringStorage.constructor | src/RecurringStorage.ts:21-23 | no container and no changes yet |
| RootStorage.RecurringStorage.GetContainer | src/RecurringStorage.ts:35-37 | the container most recently set |
| RootStorage.RecurringStorage.SetContainer | src/RecurringStorage.ts:44-69 | detaches the previous container if any, then registers the relay on the new one, then attaches it; emits exactly one CONTAINER_CHANGE with key "" and value undefined, created with the new container, so its snapshot reads that container; the snapshot is unread; attaching leaves the new container's contents unchanged; the relay invariant holds for the new container |
| RootStorage.RecurringStorage.Republish | src/RecurringStorage.ts:50-52 | appends the relayed reports made since the given log position, each as an event created with the active container |
| RootStorage.RecurringStorage.GetItem | src/RecurringStorage.ts:77-79 | the active container's value at the key, or undefined |
| RootStorage.RecurringStorage.SetItem | src/RecurringStorage.ts:88-90 | the active container stores the value and reports (UPDATE, key, value) to this root's relay; exactly that UPDATE is republished, created with that container |
| RootStorage.RecurringStorage.RemoveItem | src/RecurringStorage.ts:97-99 | the active container drops the key; only if the key was present does it report DELETE to this root's relay, and exactly that DELETE is republished, created with that container |
| RootStorage.RecurringStorage.Clear | src/RecurringStorage.ts:105-107 | the active container is empty and reports CLEARED to this root's relay; exactly that CLEARED is republished, created with that container |
| RootStorage.RecurringStorage.GetAll | src/RecurringStorage.ts:114-116 | the active container's contents |
| RootStorage.RecurringStorage.HasItem | src/RecurringStorage.ts:123-125 | true iff the active container holds the key |
| RootStorage.RecurringStorage.WithContainer | src/RecurringStorage.ts:134-140 | a new root storage whose active container is the given one, with its contents unchanged |
| RootStorage.RecurringStorage.Copy | src/RecurringStorage.ts:166-175 | dest becomes dest overridden by src: every src key has src's value, keys only in dest are untouched; each src key is set once, so dest reports one UPDATE per key |
| RootStorage.RecurringStorage.Clone | src/RecurringStorage.ts:183-189 | dest is cleared, then equals src (empty when src is dest); dest reports CLEARED, then one UPDATE per key of src, each key exactly once; dest's handler is unchanged |
| RootStorage.CopyStep | src/RecurringStorage.ts:172-174 | copying one more pending key keeps the copy's progress invariant |
| RootStorage.CopyDone | src/RecurringStorage.ts:172-174 | with no key pending, everything in src has been copied, each key once |
| RootStorage.UpdatesSnoc | src/RecurringStorage.ts:172-174 | one more copied key adds exactly its UPDATE report |
| ScopedState.TopWrite | src/RecurringScopedStorage.ts:188-207 | a write at a top-level path stores the value itself |
| ScopedState.WriteAt | src/RecurringScopedStorage.ts:188-207 | a scoped write changes at most the container entry named by the path's first key; when an ancestor is falsy it changes nothing |
| ScopedState.TopChanges | src/RecurringScopedStorage.ts:188-207 | a scoped write makes at most one container write: an UPDATE of the first key with the entry's new value, exactly when the write reaches the container |
| ScopedState.TruthyHasObjectParent | src/RecurringScopedStorage.ts:209-211 | below the top level, anything truthy hangs off an object |
| ScopedState.WriteLands | src/RecurringScopedStorage.ts:188-207 | a write at a path whose parent is an object reaches the container, and reading the path afterwards gives the written value |
| ScopedState.RewriteTruthy | src/RecurringScopedStorage.ts:192-196 | writing back over a truthy scoped object always lands |
| ScopedState.SetThenGet | src/RecurringScopedStorage.ts:188-211 | after setting field k of an object scope, getItem(k) gives v and every other field reads as before |
| ScopedState.WriteField | src/RecurringScopedStorage.ts:192-196 | writing field k of a truthy scoped object is writing the whole object with k set, one level up |
| ScopedState.WriteBelowFalsy | src/RecurringScopedStorage.ts:194 | below a falsy scoped object, a write changes nothing and republishes nothing |
| ScopedState.SetAll | src/RecurringScopedStorage.ts:79-81 | setting fields into an object keeps an object; on a primitive it changes nothing |
| ScopedState.SetAllFields | src/RecurringScopedStorage.ts:79-81 | after setting all pairs, each given key reads its value and every other key reads as before |
| ScopedState.ChildInitialized | src/RecurringScopedStorage.ts:176-180 | the child's initialized flag: only an object parent snapshot whose field at the key is itself an object sets it |
| ScopedState.ChildSource | src/RecurringScopedStorage.ts:166-171 | the child's source yields a value exactly for parent snapshots that are objects |
| ScopedState.ChildInitializedIffObject | src/RecurringScopedStorage.ts:166-180 | the child is initialized by a parent snapshot iff its own source projects that snapshot to an object (both directions) |
| ScopedState.GateOutput | src/ScopedStorageAdapter.ts:24-26 | the gate lets out no more values than it receives |
| ScopedState.SilentUntilInitialized | src/ScopedStorageAdapter.ts:17-26 | starting uninitialized, the snapshot stream emits nothing until the flag is set to true |
| ScopedState.ForwardsWhileInitialized | src/ScopedStorageAdapter.ts:24-26 | while the flag is on, every source value is forwarded, in order |
| ScopedState.Sources | src/ScopedStorageAdapter.ts:24-26 | a run of source values arrives at the gate one by one, in order |
| Scoped.ScopedStorageAdapter.AtRoot | src/RecurringStorage.ts:148-152 | a top-level adapter reads and writes one root-storage entry; it starts uninitialized |
| Scoped.ScopedStorageAdapter.Below | src/RecurringScopedStorage.ts:160-184 | the sink wires the getter, setter and initializer to the parent's, at construction; it starts uninitialized |
| Scoped.ScopedStorageAdapter.Item | src/RecurringScopedStorage.ts:164 | the getter chain yields the lookup of the adapter's path in the active container |
| Scoped.ScopedStorageAdapter.GetItem | src/ScopedStorageAdapter.ts:49-51 | returns the registered getter's result, which is the lookup of the path |
| Scoped.ScopedStorageAdapter.SetItem | src/ScopedStorageAdapter.ts:45-47 | calls the registered setter once: the container becomes `WriteAt` of the path; the root republishes `TopChanges`, each event created with the active container, and earlier events keep their containers; each parent on the way emits its UPDATE |
| JsValues.Member | src/RecurringScopedStorage.ts:183 | the property access `getInitialState()[key]`: fails exactly when the parent's initial state is undefined or null, and otherwise reads the own field, undefined when it is missing |
| Scoped.ScopedStorageAdapter.InitialState | src/ScopedStorageAdapter.ts:53-55 | the initial state, read afresh each call; for a child, the parent's initial state at the child's key; where the ancestors are objects, the lookup of the path below the top-level key in the top-level initial state |
| Scoped.ScopedStorageAdapter.SetInitialized | src/ScopedStorageAdapter.ts:38 | the flag becomes the given value, in either direction |
| Scoped.ScopedStorageAdapter.SourceEmits | src/ScopedStorageAdapter.ts:24-26 | a source value is forwarded to the snapshot stream only while initialized |
| Scoped.ScopedStorageAdapter.ParentSnapshot | src/RecurringScopedStorage.ts:166-180 | a parent snapshot sets the child's flag to "has the key and its value is an object", and forwards the projected value exactly then |
| Scoped.InitialBelow | src/RecurringScopedStorage.ts:183 | a child's initial-state path is its parent's, one key further |
| Scoped.RecurringScopedStorage.Top | src/RecurringStorage.ts:148-152 | a top-level scope over one entry of the root storage |
| Scoped.RecurringScopedStorage.Scope | src/RecurringScopedStorage.ts:144-186 | the child's getter and setter are this scope's field read and write at the key; the path extends by the key; it shares the root and the change log; it starts uninitialized |
| Scoped.RecurringScopedStorage.Child | src/RecurringScopedStorage.ts:156-186 | the child's adapter is linked to this scope at the key |
| Scoped.RecurringScopedStorage.GetItem | src/RecurringScopedStorage.ts:209-211 | field k of the scoped object, which is the lookup of the path one key further |
| Scoped.RecurringScopedStorage.HasItem | src/RecurringScopedStorage.ts:134-138 | true iff the scoped object is an object with field k |
| Scoped.RecurringScopedStorage.GetAll | src/RecurringScopedStorage.ts:130-132 | the whole scoped object |
| Scoped.RecurringScopedStorage.UpdateEmissions | src/RecurringScopedStorage.ts:85-94 | one UPDATE per pair, in the given key order, with that pair's key and value |
| Scoped.RecurringScopedStorage.SetItem | src/RecurringScopedStorage.ts:188-207 | on a truthy object: sets field k, writes the whole object back once, then emits UPDATE k v; the root's republished event is created with the active container; afterwards getItem(k) is v when the object was an object; on a falsy object: no write, no event |
| Scoped.RecurringScopedStorage.SetItems | src/RecurringScopedStorage.ts:73-97 | on a truthy object: exactly one container write holding all pairs, republished once by the root as an event created with the active container, then one UPDATE per pair in key order; each given key then reads its value and other fields are unchanged; on a falsy object: nothing |
| Scoped.RecurringScopedStorage.SetEach | src/RecurringScopedStorage.ts:79-81 | the loop sets every pair into the fetched object, in order |
| Scoped.RecurringScopedStorage.EmitUpdates | src/RecurringScopedStorage.ts:85-94 | the loop emits one UPDATE per pair, in order |
| Scoped.RecurringScopedStorage.RemoveItem | src/RecurringScopedStorage.ts:99-118 | on a truthy object: unsets k, writes back (republished by the root as one event created with the active container), emits DELETE k undefined; afterwards hasItem(k) is false in every case, and other fields are unchanged |
| Scoped.RecurringScopedStorage.Clear | src/RecurringScopedStorage.ts:120-128 | writes the adapter's initial state (not `{}`), whose root event, if any, is created with the active container, and emits CLEARED with key ""; getAll then returns the initial state when the parent is an object; when the initial state cannot be read, nothing happens |
| ParentPath.SliceOne | src/ParentPathInitializedScopedStorage.ts:53 | `slice(1)` drops the first key of an array, or the first character of a string |
| ParentPath.LodashGet | src/ParentPathInitializedScopedStorage.ts:51-55 | lodash `get` follows an array path key by key (undefined for the empty path); a string path is one key |
| ParentPath.GetFromState | src/ParentPathInitializedScopedStorage.ts:50-56 | the value at the path minus its first key, or `{}` when that lookup is undefined; never undefined |
| ParentPath.Initialize | src/ParentPathInitializedScopedStorage.ts:21-36 | yields an initialization exactly when the parent initializer's snapshot stream emits at all |
| ParentPath.InitializeUsesFirstSnapshot | src/ParentPathInitializedScopedStorage.ts:32 | only the first snapshot is used; later snapshots change nothing |
| ParentPath.FallbackReadsSamePath | src/ParentPathInitializedScopedStorage.ts:27-30 | the fallback reads the same sub-path from the parent initializer's initial state as the state reads from the snapshot |
| ParentPath.ScopeAsWritten | src/ParentPathInitializedScopedStorage.ts:38-48 | as written, the child's path is the bare key, with the same parent initializer |
| ParentPath.AsWrittenScopeReadsWrongKey | src/ParentPathInitializedScopedStorage.ts:38-56 | the as-written child at "test" below ["app"] reads "est" and starts from `{}`; the corrected child reads the object at "test" |
| ParentPath.Scope | src/ParentPathInitializedScopedStorage.ts:38-48 | the child's path extends the parent's by the key, with the same parent initializer |
| ParentPath.ScopeReadsOneKeyDeeper | src/ParentPathInitializedScopedStorage.ts:38-56 | the corrected child's lookup is the parent's lookup followed by the key |
| ParentPath.Descend | src/ParentPathInitializedScopedStorage.ts:38-48 | scoping along a list of keys extends the path by those keys; every descendant, at any depth, resolves against the same parent initializer |

## Left out

- Promises, rxjs Subjects, `share`, `switchMap` and Subscription teardown are not modelled as such.
  - Each asynchronous operation is one atomic call.
  - Each stream is a log field.
  - `destroy` (src/RecurringStorage.ts:157-159) and the scoped storage's `_changes.complete()` teardown are not modelled, for the same reason.
- Concurrency is not modelled.
  - The parallel execution inside `Promise.all` is one step (`QueueSubscriber.Complete`).
  - Overlapping `setContainer` calls do not interleave.
  - `detach()` is not awaited in the source. The model records only that detach is called before register and attach, not that it finishes first.
- Failure is not modelled.
  - Every transaction's work is assumed to succeed.
  - The queue's `run` has no catch: a failing work would leave the queue busy for good.
  - The one failure the model keeps is reading a child's initial state below an undefined or null parent initial state (`InitialState` returns `None`, and `Clear` then does nothing).
- TransactionQueue.QueueSubscriber.Run: `run` is split into two atomic steps.
  - `Run` is the part before the first `await`.
  - `Complete` is the continuation after the unit's work has finished.
  - The work itself is a function from id to result.
- TransactionQueue.QueueSubscriber.Next: it requires the transaction's id to be fresh. Only `StorageTransactionQueue.Queue` calls it, and its counter guarantees that (lodash `uniqueId` is a counter).
- `readTransaction`, `writeTransaction`, `transaction` and `whenInitialized` are called on the adapter but not defined in its class.
  - The scoped operations are modelled from their inner bodies, without the transaction wrapper.
  - `delegateInitialization`, `initialize(initializer)`, `setInitializerStrategy`, the initializer registry and the merge strategy are not defined in the code either and are not modelled.
- ParentPath.Initialize: its `parentInitial` argument stands for `this.parentInitializer.getInitialState()` (src/ParentPathInitializedScopedStorage.ts:29). The parent initializer is a `RecurringScopedStorage`, and that class defines no `getInitialState`; only `ScopedStorageAdapter` does (src/ScopedStorageAdapter.ts:53-55). As written, the fallback calls a method the class does not have. The model supplies the value that call would return, and `ParentPath.FallbackReadsSamePath` holds only under that reading.
- `RecurringStorage.scope` passes the root storage where an adapter is expected. The top-level adapter is not defined in this code.
  - `Scoped.RecurringScopedStorage.Top` stands for it.
  - Its getter and setter are the root storage's entry at the key.
  - Its initial state is a fixed value.
  - How a top-level snapshot source is fed is not modelled.
- Scoped change events are logged as `(scope, type, key, value)` entries in `EmissionLog`. Their lazy snapshots are not modelled again; `ChangeEvents.ChangeEvent` models that mechanism once.
- The root storage's change stream keeps each event's type, key and value in `changes` and the container it was created with in `sources`. Only the CONTAINER_CHANGE event of `SetContainer` is returned as a `ChangeEvent` object; the relayed events are not objects, so their lazy snapshots are not modelled.
- `lastSnapshot` of a scoped storage (src/RecurringScopedStorage.ts:37, 45, 52-54) is not modelled. It only caches the last snapshot the stream emitted.
- Scoped.ScopedStorageAdapter.ParentSnapshot: the model fixes one delivery order, flag first, then source value. rxjs may deliver a parent snapshot to the two subscriptions in `scopeWith` in either order.
- lodash path syntax is not modelled. `get`, `has`, `set` and `unset` treat each key as one segment, never a dotted or bracketed path.
- JavaScript numbers are doubles, but `Num` holds an integer. Fractions, NaN, the infinities and -0 cannot be represented. NaN and -0 are falsy, so the `if (item)` tests of the scoped writes are modelled only for integer numbers, where 0 is the one falsy number.
- Values are modelled on objects only.
  - Arrays, functions and prototype-inherited properties are left out.
  - Primitives have no own properties: `get` on them reads undefined, `has` is false, and `set`/`unset` leave them as they are.
- The containers hold the values themselves, so aliasing is not modelled. In the source, `getItem` hands out the stored object and the caller mutates it in place before writing it back. The model writes the updated value explicitly.
- RootStorage.RecurringStorage.Republish: the handler the root registers runs as an explicit step. In the source it runs on every report of the container. In the model it runs when `Republish(from)` is called. The root's own `SetItem`, `RemoveItem` and `Clear` call it themselves. A write made directly on the active container, or a `copy`/`clone` into it, leaves `Valid()` false until `Republish` runs on the reports made since. `RelayScenario` and `CopyRelayScenario` show this: after `Republish`, the stream ends with the relayed reports, each created with the active container.
- The relay a detached container keeps is not modelled after a swap. In the source the old container's handler is never cleared, so a later write to it still pushes an event onto this root's change stream. Such a write happens, for example, when the old container is `dest` of `copy` or `clone`. The model states the relay invariant (`RootStorage.RecurringStorage.Valid`) for the active container only, and says nothing about events from a detached container.
- The IndexedDB and local-storage containers are not part of this model: they wrap browser storage and JSON serialisation.

## Findings

| source | as written | input that shows it | evidently intended | confidence | as-written member | corrected member |
|---|---|---|---|---|---|---|
| src/ParentPathInitializedScopedStorage.ts:38-48 | `scopeWith` hands the factory the child's key, and `scope` passes it on as the child's `path`. `getFromState` then applies `path.slice(1)` to the key string and reads the key minus its first character. | parent path `["app"]`, `scope("test")`, parent state `{test: {id: "1"}}`: the child reads property `"est"` and starts from `{}` | the child's path is the parent's path followed by the key, so it starts from `{id: "1"}` | medium, not executed; `path` is not defined in `RecurringScopedStorage` | ParentPath.ScopeAsWritten, ParentPath.AsWrittenScopeReadsWrongKey | ParentPath.Scope, ParentPath.ScopeReadsOneKeyDeeper |
