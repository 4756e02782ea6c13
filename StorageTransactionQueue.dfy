/**
 * The transaction queue that orders storage reads and writes. Transactions
 * are appended to a backlog and taken from its head one unit at a time: a
 * write alone, or a read together with every read that directly follows it.
 * Each transaction's work is abstracted to a function of its id, and the
 * asynchronous `run` chain to two atomic steps: `Run` (up to the first
 * `await`) and `Complete` (the continuation after the unit's work finished).
 */
module TransactionQueue {
  import opened Options

  datatype Kind = Read | Write

  datatype Tx = Tx(id: nat, kind: Kind)

  /** A transaction together with the result of its work, as the queue emits it. */
  datatype TxResult<R> = TxResult(id: nat, kind: Kind, result: R)

  // ---------------------------------------------------------------------------
  // Units of a backlog

  /** The units in order, joined back into one sequence. */
  function Flatten(units: seq<seq<Tx>>): seq<Tx>
  {
    if units == [] then [] else units[0] + Flatten(units[1..])
  }

  lemma {:induction false} FlattenAppend(a: seq<seq<Tx>>, b: seq<seq<Tx>>)
    ensures Flatten(a + b) == Flatten(a) + Flatten(b)
    decreases |a|
  {
    if a == [] {
      assert a + b == b;
    } else {
      assert (a + b)[0] == a[0];
      assert (a + b)[1..] == a[1..] + b;
      FlattenAppend(a[1..], b);
    }
  }

  /** How many reads stand at the head of the backlog before the first write or the end. */
  function LeadingReads(b: seq<Tx>): (n: nat)
    ensures n <= |b|
  {
    if b == [] || b[0].kind == Write then 0 else 1 + LeadingReads(b[1..])
  }

  /** `LeadingReads` is the one count whose prefix is all reads and that stops at a write or the end. */
  lemma {:induction false} LeadingReadsIff(b: seq<Tx>, n: nat)
    requires n <= |b|
    ensures LeadingReads(b) == n <==>
              (forall i :: 0 <= i < n ==> b[i].kind == Read) && (n == |b| || b[n].kind == Write)
    decreases |b|
  {
    if b != [] && b[0].kind == Read && n > 0 {
      LeadingReadsIff(b[1..], n - 1);
      if (forall i :: 0 <= i < n - 1 ==> b[1..][i].kind == Read) {
        forall i | 0 <= i < n ensures b[i].kind == Read {
          if i > 0 { assert b[i] == b[1..][i - 1]; }
        }
      }
    } else if b != [] && b[0].kind == Read {
      assert LeadingReads(b) != 0;
    }
  }

  /** The unit `run` takes from a non-empty backlog: the head write alone, or the run of leading reads. */
  function NextUnit(b: seq<Tx>): (u: seq<Tx>)
    requires b != []
    ensures 1 <= |u| <= |b| && u == b[..|u|]
  {
    if b[0].kind == Write then [b[0]] else b[..LeadingReads(b)]
  }

  /** A unit as the queue processes it: one write, or a non-empty run of reads. */
  predicate IsUnit(u: seq<Tx>)
  {
    || (|u| == 1 && u[0].kind == Write)
    || (|u| >= 1 && forall i :: 0 <= i < |u| ==> u[i].kind == Read)
  }

  /** The units a backlog splits into when no transaction arrives in between. */
  function Units(b: seq<Tx>): (us: seq<seq<Tx>>)
    ensures |us| <= |b|
    ensures us == [] <==> b == []
    decreases |b|
  {
    if b == [] then [] else [NextUnit(b)] + Units(b[|NextUnit(b)|..])
  }

  /** Taking units in turn drops, duplicates and reorders nothing. */
  lemma {:induction false} UnitsFlatten(b: seq<Tx>)
    ensures Flatten(Units(b)) == b
    decreases |b|
  {
    if b != [] {
      var u := NextUnit(b);
      var rest := b[|u|..];
      UnitsFlatten(rest);
      var us := Units(b);
      assert us == [u] + Units(rest);
      assert us[0] == u && us[1..] == Units(rest);
      assert Flatten(us) == u + Flatten(Units(rest));
      assert u + rest == b;
    }
  }

  /** The unit taken from a non-empty backlog is a unit, and a read unit takes every read up to the next write. */
  lemma NextUnitShape(b: seq<Tx>)
    requires b != []
    ensures IsUnit(NextUnit(b))
    ensures NextUnit(b)[0] == b[0]
    ensures b[0].kind == Read ==> |NextUnit(b)| == |b| || b[|NextUnit(b)|].kind == Write
  {
    if b[0].kind == Read {
      LeadingReadsIff(b, LeadingReads(b));
    }
  }

  /** Every unit is a single write or a run of reads; in particular a write unit has length 1. */
  lemma {:induction false} UnitsAreUnits(b: seq<Tx>)
    ensures forall i :: 0 <= i < |Units(b)| ==> IsUnit(Units(b)[i])
    decreases |b|
  {
    if b != [] {
      var u := NextUnit(b);
      NextUnitShape(b);
      UnitsAreUnits(b[|u|..]);
      forall i | 0 <= i < |Units(b)| ensures IsUnit(Units(b)[i]) {
        if i > 0 { assert Units(b)[i] == Units(b[|u|..])[i - 1]; }
      }
    }
  }

  /** The unit starts with a transaction of the given kind. */
  predicate StartsWith(u: seq<Tx>, k: Kind)
  {
    u != [] && u[0].kind == k
  }

  /** Read units are maximal: the unit after a read unit starts with a write. */
  lemma {:induction false} ReadUnitsMaximal(b: seq<Tx>)
    ensures forall i :: 0 <= i < |Units(b)| - 1 && StartsWith(Units(b)[i], Read) ==> StartsWith(Units(b)[i + 1], Write)
    decreases |b|
  {
    if b != [] {
      var u := NextUnit(b);
      var rest := b[|u|..];
      NextUnitShape(b);
      ReadUnitsMaximal(rest);
      forall i | 0 <= i < |Units(b)| - 1 && StartsWith(Units(b)[i], Read)
        ensures StartsWith(Units(b)[i + 1], Write)
      {
        if i == 0 {
          NextUnitShape(rest);
          assert Units(b)[1] == NextUnit(rest);
        } else {
          assert Units(b)[i] == Units(rest)[i - 1];
          assert Units(b)[i + 1] == Units(rest)[i];
        }
      }
    }
  }

  // ---------------------------------------------------------------------------
  // Results and their delivery to callers

  /** The results of running `txs` in order. */
  function Results<R>(txs: seq<Tx>, work: nat -> R): seq<TxResult<R>>
  {
    if txs == [] then [] else Results(txs[..|txs| - 1], work) + [Result(txs[|txs| - 1], work)]
  }

  function Result<R>(t: Tx, work: nat -> R): TxResult<R>
  {
    TxResult(t.id, t.kind, work(t.id))
  }

  /** Emitting one more result of a run extends the emitted prefix by that result. */
  lemma ResultsPrefixSnoc<R>(txs: seq<Tx>, i: nat, work: nat -> R)
    requires i < |txs|
    ensures Results(txs[..i + 1], work) == Results(txs[..i], work) + [Result(txs[i], work)]
  {
    assert txs[..i + 1][..i] == txs[..i];
  }

  lemma {:induction false} ResultsAppend<R>(a: seq<Tx>, b: seq<Tx>, work: nat -> R)
    ensures Results(a + b, work) == Results(a, work) + Results(b, work)
    decreases |b|
  {
    if b == [] {
      assert a + b == a;
    } else {
      assert (a + b)[..|a + b| - 1] == a + b[..|b| - 1];
      ResultsAppend(a, b[..|b| - 1], work);
    }
  }

  lemma {:induction false} ResultsAt<R>(txs: seq<Tx>, work: nat -> R, i: nat)
    requires i < |txs|
    ensures |Results(txs, work)| == |txs| && Results(txs, work)[i] == Result(txs[i], work)
    decreases |txs|
  {
    if i < |txs| - 1 {
      ResultsAt(txs[..|txs| - 1], work, i);
    } else if |txs| > 1 {
      ResultsAt(txs[..|txs| - 1], work, 0);
    }
  }

  /** No two transactions share an id. */
  ghost predicate DistinctIds(txs: seq<Tx>)
  {
    forall i, j :: 0 <= i < |txs| && 0 <= j < |txs| && txs[i].id == txs[j].id ==> i == j
  }

  /** What a caller subscribed for transaction `id` receives: the first emitted result carrying that id. */
  function Delivered<R>(emitted: seq<TxResult<R>>, id: nat): (d: Option<R>)
    ensures d.Some? <==> exists i :: 0 <= i < |emitted| && emitted[i].id == id
    ensures d.Some? ==> exists i :: 0 <= i < |emitted| && emitted[i].id == id && emitted[i].result == d.value
  {
    if emitted == [] then None
    else if emitted[0].id == id then Some(emitted[0].result)
    else Delivered(emitted[1..], id)
  }

  /** How many emitted results carry the id. */
  function CountId<R>(emitted: seq<TxResult<R>>, id: nat): nat
  {
    if emitted == [] then 0 else (if emitted[0].id == id then 1 else 0) + CountId(emitted[1..], id)
  }

  /**
   * Once transaction `t` has run, the caller that queued it is delivered the
   * result of its own work, and exactly one emitted result carries its id.
   */
  lemma {:induction false} DeliveredExactlyOnce<R>(txs: seq<Tx>, work: nat -> R, t: Tx)
    requires DistinctIds(txs) && t in txs
    ensures Delivered(Results(txs, work), t.id) == Some(work(t.id))
    ensures CountId(Results(txs, work), t.id) == 1
    decreases |txs|
  {
    var head := Results([txs[0]], work);
    var tail := txs[1..];
    assert txs == [txs[0]] + tail;
    ResultsAppend([txs[0]], tail, work);
    assert Results([txs[0]], work) == [Result(txs[0], work)] by {
      assert [txs[0]][..0] == [];
    }
    assert Results(txs, work)[1..] == Results(tail, work);
    if txs[0] == t {
      assert forall u :: u in tail ==> u.id != t.id by {
        forall u | u in tail ensures u.id != t.id {
          var j :| 0 <= j < |tail| && tail[j] == u;
          assert txs[j + 1] == u;
        }
      }
      AbsentIdNotCounted(tail, work, t.id);
    } else {
      assert t in tail;
      assert txs[0].id != t.id by {
        var j :| 0 <= j < |txs| && txs[j] == t;
        assert j != 0;
      }
      DeliveredExactlyOnce(tail, work, t);
    }
  }

  lemma {:induction false} AbsentIdNotCounted<R>(txs: seq<Tx>, work: nat -> R, id: nat)
    requires forall u :: u in txs ==> u.id != id
    ensures CountId(Results(txs, work), id) == 0
    ensures Delivered(Results(txs, work), id) == None
    decreases |txs|
  {
    if txs != [] {
      var tail := txs[1..];
      assert txs == [txs[0]] + tail;
      ResultsAppend([txs[0]], tail, work);
      assert [txs[0]][..0] == [];
      assert Results(txs, work)[1..] == Results(tail, work);
      AbsentIdNotCounted(tail, work, id);
    }
  }

  // ---------------------------------------------------------------------------
  // The queue's invariant, on values

  /** The units whose results have been emitted: all taken units but the one in flight. */
  function Finished(units: seq<seq<Tx>>, inFlight: seq<Tx>): seq<seq<Tx>>
  {
    if inFlight == [] || units == [] then units else units[..|units| - 1]
  }

  /**
   * Every unit taken is a unit; the units taken, in order, followed by the
   * backlog, are exactly the transactions received; ids are distinct; and
   * the results emitted are those of the finished units, in submission order.
   */
  ghost predicate QueueInvariant<R>(units: seq<seq<Tx>>, inFlight: seq<Tx>, backlog: seq<Tx>,
                                    submitted: seq<Tx>, emitted: seq<TxResult<R>>, work: nat -> R)
  {
    && (inFlight != [] ==> units != [] && units[|units| - 1] == inFlight)
    && (forall i :: 0 <= i < |units| ==> IsUnit(units[i]))
    && Flatten(units) + backlog == submitted
    && DistinctIds(submitted)
    && emitted == Results(Flatten(Finished(units, inFlight)), work)
  }

  /** Taking the next unit from the backlog keeps the invariant. */
  lemma TakeUnitKeepsInvariant<R>(units: seq<seq<Tx>>, backlog: seq<Tx>, submitted: seq<Tx>,
                                  emitted: seq<TxResult<R>>, work: nat -> R)
    requires QueueInvariant(units, [], backlog, submitted, emitted, work) && backlog != []
    ensures var u := NextUnit(backlog);
            QueueInvariant(units + [u], u, backlog[|u|..], submitted, emitted, work)
  {
    var u := NextUnit(backlog);
    NextUnitShape(backlog);
    FlattenAppend(units, [u]);
    assert Flatten([u]) == u;
    assert (units + [u])[..|units|] == units;
    assert u + backlog[|u|..] == backlog;
  }

  /** Emitting the results of the unit in flight and clearing it keeps the invariant. */
  lemma FinishUnitKeepsInvariant<R>(units: seq<seq<Tx>>, inFlight: seq<Tx>, backlog: seq<Tx>,
                                    submitted: seq<Tx>, emitted: seq<TxResult<R>>, work: nat -> R)
    requires QueueInvariant(units, inFlight, backlog, submitted, emitted, work) && inFlight != []
    ensures QueueInvariant(units, [], backlog, submitted, emitted + Results(inFlight, work), work)
  {
    var done := units[..|units| - 1];
    assert units == done + [inFlight];
    FlattenAppend(done, [inFlight]);
    assert Flatten([inFlight]) == inFlight;
    ResultsAppend(Flatten(done), inFlight, work);
  }

  // ---------------------------------------------------------------------------
  // The subscriber that owns the backlog

  /**
   * `StorageTransactionQueueSubscriber`. `inFlight` is the unit whose work
   * the current `run` is awaiting (empty when none), `emitted` what it has
   * passed on to its subscriber. The ghost `submitted` and `units` record
   * every transaction received and every unit taken, in order.
   */
  class QueueSubscriber<R> {
    var backlog: seq<Tx>
    var isIdle: bool
    var inFlight: seq<Tx>
    var emitted: seq<TxResult<R>>
    const work: nat -> R
    ghost var submitted: seq<Tx>
    ghost var units: seq<seq<Tx>>

    /** What holds between the steps of the queue, apart from the idle flag. */
    ghost predicate Consistent()
      reads this
    {
      QueueInvariant(units, inFlight, backlog, submitted, emitted, work)
    }

    /** At most one `run` chain is active: the queue is idle exactly when no unit is in flight, and then nothing waits. */
    ghost predicate Valid()
      reads this
    {
      && Consistent()
      && (isIdle <==> inFlight == [])
      && (isIdle ==> backlog == [])
    }

    constructor (work: nat -> R)
      ensures Valid() && isIdle
      ensures backlog == [] && emitted == [] && submitted == [] && units == []
      ensures this.work == work
    {
      this.work := work;
      backlog := [];
      isIdle := true;
      inFlight := [];
      emitted := [];
      submitted := [];
      units := [];
    }

    /** `next(transaction)`: appends to the backlog and starts `run` only if the queue is idle. */
    method Next(tx: Tx)
      requires Valid()
      requires forall t :: t in submitted ==> t.id != tx.id
      modifies this
      ensures Valid()
      ensures submitted == old(submitted) + [tx] && emitted == old(emitted)
      ensures old(isIdle) ==> inFlight == [tx] && backlog == [] && units == old(units) + [[tx]]
      ensures !old(isIdle) ==> inFlight == old(inFlight) && backlog == old(backlog) + [tx] && units == old(units)
    {
      backlog := backlog + [tx];
      submitted := submitted + [tx];
      assert DistinctIds(submitted) by {
        forall i, j | 0 <= i < |submitted| && 0 <= j < |submitted| && submitted[i].id == submitted[j].id
          ensures i == j
        {
          if i < |submitted| - 1 && j < |submitted| - 1 {
            assert submitted[i] == old(submitted)[i] && submitted[j] == old(submitted)[j];
          }
        }
      }
      if isIdle {
        Run();
      }
    }

    /**
     * The synchronous part of `run`, up to its first `await`: marks the queue
     * busy and takes the next unit from the head of the backlog, or marks it
     * idle again when the backlog is empty.
     */
    method Run()
      requires Consistent() && inFlight == []
      modifies this
      ensures Valid()
      ensures submitted == old(submitted) && emitted == old(emitted)
      ensures old(backlog) == [] ==> isIdle && units == old(units)
      ensures old(backlog) != [] ==>
                && !isIdle
                && inFlight == NextUnit(old(backlog))
                && backlog == old(backlog)[|inFlight|..]
                && units == old(units) + [inFlight]
      ensures inFlight != [] && inFlight[0].kind == Read ==> backlog == [] || backlog[0].kind == Write
    {
      isIdle := false;
      if backlog == [] {
        isIdle := true;
        return;
      }
      ghost var b := backlog;
      var next := backlog[0];
      backlog := backlog[1..];
      assert [next] + backlog == b;
      if next.kind == Write {
        inFlight := [next];
      } else {
        inFlight := CollectReads(next);
      }
      assert inFlight == NextUnit(b) && backlog == b[|inFlight|..];
      NextUnitShape(b);
      TakeUnitKeepsInvariant(units, b, submitted, emitted, work);
      units := units + [inFlight];
    }

    /**
     * The read-collecting loop of `run`: after the read `next` was shifted
     * off, shifts every following read up to the first write (which stays
     * at the head) and returns them as one batch, the unit `NextUnit` names.
     */
    method CollectReads(next: Tx) returns (batch: seq<Tx>)
      requires next.kind == Read
      modifies this`backlog
      ensures batch == NextUnit([next] + old(backlog))
      ensures backlog == ([next] + old(backlog))[|batch|..]
    {
      ghost var b := [next] + backlog;
      batch := [next];
      while backlog != [] && backlog[0].kind != Write
        invariant batch + backlog == b
        invariant 1 <= |batch| && forall i :: 0 <= i < |batch| ==> batch[i].kind == Read
        decreases |backlog|
      {
        batch := batch + [backlog[0]];
        backlog := backlog[1..];
      }
      assert batch == b[..|batch|];
      LeadingReadsIff(b, |batch|);
    }

    /**
     * The continuation of `run` once the unit in flight has finished: emits
     * the unit's results in submission order, then calls `run` again.
     */
    method Complete()
      requires Valid() && !isIdle
      modifies this
      ensures Valid()
      ensures submitted == old(submitted)
      ensures emitted == old(emitted) + Results(old(inFlight), work)
      ensures old(backlog) == [] ==> isIdle
      ensures old(backlog) != [] ==> inFlight == NextUnit(old(backlog)) && backlog == old(backlog)[|inFlight|..]
    {
      var i := 0;
      while i < |inFlight|
        modifies this`emitted
        invariant 0 <= i <= |inFlight|
        invariant emitted == old(emitted) + Results(inFlight[..i], work)
      {
        ResultsPrefixSnoc(inFlight, i, work);
        emitted := emitted + [Result(inFlight[i], work)];
        i := i + 1;
      }
      assert inFlight[..i] == inFlight;
      FinishUnitKeepsInvariant(units, inFlight, backlog, submitted, old(emitted), work);
      inFlight := [];
      Run();
    }

    /** Every transaction whose unit has finished is delivered its own result, exactly once. */
    lemma DeliveredOnceWhenFinished(t: Tx)
      requires Valid() && t in Flatten(Finished(units, inFlight))
      ensures Delivered(emitted, t.id) == Some(work(t.id))
      ensures CountId(emitted, t.id) == 1
    {
      var done := Flatten(Finished(units, inFlight));
      var rest := if inFlight == [] then backlog else inFlight + backlog;
      if inFlight != [] {
        assert units == Finished(units, inFlight) + [inFlight];
        FlattenAppend(Finished(units, inFlight), [inFlight]);
        assert Flatten([inFlight]) == inFlight;
      }
      assert done + rest == submitted;
      assert DistinctIds(done) by {
        forall i, j | 0 <= i < |done| && 0 <= j < |done| && done[i].id == done[j].id ensures i == j {
          assert done[i] == submitted[i] && done[j] == submitted[j];
        }
      }
      DeliveredExactlyOnce(done, work, t);
    }

    /** When the queue is idle, every submitted transaction has been emitted, in submission order. */
    lemma IdleMeansAllEmitted()
      requires Valid() && isIdle
      ensures emitted == Results(submitted, work)
    {
      assert Flatten(units) + [] == Flatten(units);
    }
  }

  // ---------------------------------------------------------------------------
  // The queue callers use

  /**
   * `StorageTransactionQueue`: gives every transaction a fresh id (lodash
   * `uniqueId` is a counter) and hands it to the subscriber. A caller's
   * result is `Delivered(subscriber.emitted, id)`.
   */
  class StorageTransactionQueue<R> {
    const subscriber: QueueSubscriber<R>
    var lastId: nat

    ghost predicate Valid()
      reads this, subscriber
    {
      && subscriber.Valid()
      && forall t :: t in subscriber.submitted ==> t.id <= lastId
    }

    constructor (work: nat -> R)
      ensures Valid() && fresh(subscriber) && subscriber.work == work
      ensures subscriber.submitted == [] && subscriber.emitted == []
    {
      subscriber := new QueueSubscriber(work);
      lastId := 0;
    }

    /** `queue(transaction)` with a freshly numbered transaction of the given kind. */
    method Queue(kind: Kind) returns (id: nat)
      requires Valid()
      modifies this, subscriber
      ensures Valid()
      ensures id == old(lastId) + 1 && lastId == id
      ensures forall t :: t in old(subscriber.submitted) ==> t.id < id
      ensures subscriber.submitted == old(subscriber.submitted) + [Tx(id, kind)]
      ensures subscriber.emitted == old(subscriber.emitted)
    {
      lastId := lastId + 1;
      id := lastId;
      subscriber.Next(Tx(id, kind));
    }

    /** `queueRead(work)`. */
    method QueueRead() returns (id: nat)
      requires Valid()
      modifies this, subscriber
      ensures Valid()
      ensures subscriber.submitted == old(subscriber.submitted) + [Tx(id, Read)]
      ensures forall t :: t in old(subscriber.submitted) ==> t.id != id
    {
      id := Queue(Read);
    }

    /** `queueWrite(work)`. */
    method QueueWrite() returns (id: nat)
      requires Valid()
      modifies this, subscriber
      ensures Valid()
      ensures subscriber.submitted == old(subscriber.submitted) + [Tx(id, Write)]
      ensures forall t :: t in old(subscriber.submitted) ==> t.id != id
    {
      id := Queue(Write);
    }
  }
}
