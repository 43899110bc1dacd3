/**
 * The Go side's process-wide worker table (worker.go): a map from table
 * index to the internal `worker` record, the counter that hands out the
 * next index, the `sync.Once` that guards `v8_init`, and the `recvCb`
 * bridge through which the native shim hands a message to the worker's
 * Go callback.
 *
 * The record holds the native worker, whose module depends on this one,
 * so the table is generic in the type `Ctx` of that native context.
 */
module Registry {
  import opened Wrappers

  /**
   * A `ReceiveMessageCallback`, as an opaque token: what the callback does
   * with a message is the host program's business, so the model records
   * each invocation instead.
   */
  datatype Callback = Callback(id: nat)

  /** The internal `worker` record: native context, callback, table index. */
  datatype WorkerRec<Ctx> = WorkerRec(cWorker: Ctx, cb: Callback, tableIndex: int)

  /** One invocation of a Go callback by `recvCb`: the index looked up, the callback found there, the bytes handed over. */
  datatype Delivery = Delivery(index: int, cb: Callback, msg: seq<byte>)

  /** The invocations that handing each of `msgs` in turn to `cb`, found under `index`, makes. */
  function Deliveries(index: int, cb: Callback, msgs: seq<seq<byte>>): (r: seq<Delivery>)
    ensures |r| == |msgs|
    ensures forall k :: 0 <= k < |r| ==> r[k] == Delivery(index, cb, msgs[k])
  {
    if msgs == [] then [] else Deliveries(index, cb, msgs[..|msgs| - 1]) + [Delivery(index, cb, msgs[|msgs| - 1])]
  }

  /** Deliveries of two batches in turn are the deliveries of one after the other. */
  lemma {:induction false} DeliveriesConcat(index: int, cb: Callback, a: seq<seq<byte>>, b: seq<seq<byte>>)
    ensures Deliveries(index, cb, a + b) == Deliveries(index, cb, a) + Deliveries(index, cb, b)
  {
    var l := Deliveries(index, cb, a + b);
    var r := Deliveries(index, cb, a) + Deliveries(index, cb, b);
    assert |l| == |r|;
    forall k | 0 <= k < |l|
      ensures l[k] == r[k]
    {
      if k < |a| {
        assert (a + b)[k] == a[k];
      } else {
        assert (a + b)[k] == b[k - |a|];
      }
    }
  }

  class WorkerTable<Ctx> {
    /** `workerTable`: the records of the workers not yet disposed. */
    var table: map<int, WorkerRec<Ctx>>
    /** `workerTableNextAvailable`: the index the next `New` hands out. */
    var nextAvailable: int
    /** Whether `initV8Once` has run its function. */
    var v8Initialized: bool
    /** How many times `v8_init` has been called. */
    ghost var v8Inits: nat
    /** Every callback invocation `recvCb` has made, oldest first. */
    var delivered: seq<Delivery>

    /**
     * Every key was handed out by the counter and names its own record,
     * and `v8_init` has run exactly when the once-flag is set.
     */
    ghost predicate Valid()
      reads this
    {
      && 0 <= nextAvailable
      && (forall i :: i in table ==> 0 <= i < nextAvailable && table[i].tableIndex == i)
      && v8Inits == (if v8Initialized then 1 else 0)
    }

    /** The package's initial state: an empty table, the counter at zero, V8 not started. */
    constructor ()
      ensures Valid()
      ensures table == map[] && nextAvailable == 0 && !v8Initialized && delivered == []
    {
      table := map[];
      nextAvailable := 0;
      v8Initialized := false;
      v8Inits := 0;
      delivered := [];
    }

    /** `workerTableLookup`: the record under `index`, or nil when there is none. */
    function Lookup(index: int): (r: Option<WorkerRec<Ctx>>)
      reads this
      ensures r.Some? <==> index in table
      ensures r.Some? ==> r.value == table[index]
      ensures Valid() && r.Some? ==> r.value.tableIndex == index
    {
      if index in table then Some(table[index]) else None
    }

    /**
     * The first half of `New`'s critical section: the new record takes the
     * counter's value as its index and the counter moves on by one.
     */
    method Claim() returns (index: int)
      requires Valid()
      modifies this`nextAvailable
      ensures Valid()
      ensures index == old(nextAvailable) && nextAvailable == index + 1
      ensures index !in table
    {
      index := nextAvailable;
      nextAvailable := nextAvailable + 1;
    }

    /** The second half: the record is stored under its own index. */
    method Insert(rec: WorkerRec<Ctx>)
      requires Valid()
      requires 0 <= rec.tableIndex < nextAvailable
      modifies this`table
      ensures Valid()
      ensures table == old(table)[rec.tableIndex := rec]
    {
      table := table[rec.tableIndex := rec];
    }

    /** `delete(workerTable, index)` in `Dispose`. */
    method Remove(index: int)
      requires Valid()
      modifies this`table
      ensures Valid()
      ensures table == old(table) - {index}
    {
      table := table - {index};
    }

    /** `initV8Once.Do(v8_init)`: starts V8 on the first call and does nothing afterwards. */
    method InitV8Once()
      requires Valid()
      modifies this`v8Initialized, this`v8Inits
      ensures Valid()
      ensures v8Initialized && v8Inits == 1
      ensures old(v8Initialized) ==> v8Inits == old(v8Inits)
    {
      if !v8Initialized {
        v8Initialized := true;
        v8Inits := v8Inits + 1;
      }
    }

    /**
     * `recvCb`: copies the buffer and hands it to the callback of the worker
     * registered under `index`. The source dereferences the lookup result
     * without a check, so an absent index is the caller's fault.
     */
    method RecvCb(buf: seq<byte>, index: int)
      requires index in table
      modifies this`delivered
      ensures delivered == old(delivered) + [Delivery(index, table[index].cb, buf)]
    {
      var w := Lookup(index);
      delivered := delivered + [Delivery(index, w.value.cb, buf)];
    }
  }
}
