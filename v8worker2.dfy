/**
 * The Go package's public face (worker.go): `New`, `Worker.Dispose`,
 * `Worker.Load` and `Worker.SendBytes`, over the worker table of `Registry`
 * and the native workers of `Binding`.
 *
 * `Tracks(reg, ws)` is the invariant that ties the table to the set `ws`
 * of every `Worker` handed out so far: indices are distinct, the table
 * holds exactly the workers not yet disposed, and each native worker
 * carries its own table index.
 */
module V8Worker2 {
  import opened Wrappers
  import opened CStrings
  import opened Exceptions
  import opened Registry
  import opened Binding

  /** An `error` value made by `errors.New`. */
  datatype Error = Error(text: string)

  /** How `Dispose` ends: normally, or with a panic. */
  datatype DisposeResult = Disposed | Panicked(reason: string)

  const AlreadyDisposed: string := "worker already disposed"

  /** The exported `Worker`: the embedded internal record and the `disposed` flag. */
  class Worker {
    const rec: WorkerRec<NativeWorker>
    var disposed: bool

    constructor (rec: WorkerRec<NativeWorker>)
      ensures this.rec == rec && !disposed
    {
      this.rec := rec;
      disposed := false;
    }

    /**
     * `Dispose`: panics on a second call; otherwise marks the worker
     * disposed, removes its table entry and frees its native worker.
     */
    method Dispose(reg: WorkerTable<NativeWorker>, ghost ws: set<Worker>) returns (r: DisposeResult)
      requires Tracks(reg, ws) && this in ws
      modifies this`disposed, reg`table, rec.cWorker`live
      ensures Tracks(reg, ws)
      ensures old(disposed) ==> r == Panicked(AlreadyDisposed) && disposed && reg.table == old(reg.table)
      ensures !old(disposed) ==> r == Disposed && disposed && reg.table == old(reg.table) - {rec.tableIndex}
      ensures !rec.cWorker.live
    {
      if disposed {
        return Panicked(AlreadyDisposed);
      }
      disposed := true;
      reg.Remove(rec.tableIndex);
      rec.cWorker.Dispose();
      return Disposed;
    }

    /**
     * `Load`: runs a script; `nil` exactly when `worker_load` returns 0,
     * otherwise an error whose text is the worker's last exception.
     */
    method Load(reg: WorkerTable<NativeWorker>, ghost ws: set<Worker>, scriptName: string, code: string, outcome: ScriptOutcome)
      returns (err: Option<Error>)
      requires Tracks(reg, ws) && this in ws && !disposed
      modifies rec.cWorker`recv, rec.cWorker`lastException, reg`delivered
      ensures Tracks(reg, ws)
      ensures err.None? <==> LoadStatus(outcome) == 0
      ensures err.Some? ==> err.value == Error(rec.cWorker.lastException) && LoadFault(outcome) == Some(rec.cWorker.lastException)
      ensures err.None? ==> rec.cWorker.lastException == old(rec.cWorker.lastException)
      ensures rec.cWorker.recv == LastRegistered(old(rec.cWorker.recv), ScriptSteps(outcome))
      ensures reg.delivered == old(reg.delivered) + Deliveries(rec.tableIndex, rec.cb, Outbound(ScriptSteps(outcome)))
    {
      var status := rec.cWorker.Load(reg, CStr(scriptName), CStr(code), outcome);
      DispatchedToOwner(reg, ws, this, ScriptSteps(outcome));
      if status != 0 {
        var errStr := CStr(rec.cWorker.LastException());
        return Some(Error(errStr));
      }
      return None;
    }

    /**
     * `SendBytes`: hands a message to the worker's `recv` function; `nil`
     * exactly when `worker_send_bytes` returns 0, otherwise an error whose
     * text is the worker's last exception.
     */
    method SendBytes(reg: WorkerTable<NativeWorker>, ghost ws: set<Worker>, msg: seq<byte>, behaviour: Behaviour)
      returns (err: Option<Error>)
      requires Tracks(reg, ws) && this in ws && !disposed
      modifies rec.cWorker`recv, rec.cWorker`lastException, reg`delivered
      ensures Tracks(reg, ws)
      ensures var r := Reaction(old(rec.cWorker.recv), msg, behaviour);
              && (err.None? <==> SendStatus(r) == 0)
              && (err.Some? ==> err.value == Error(rec.cWorker.lastException) && SendFault(r) == Some(rec.cWorker.lastException))
              && (err.None? ==> rec.cWorker.lastException == old(rec.cWorker.lastException))
              && rec.cWorker.recv == LastRegistered(old(rec.cWorker.recv), ReactionSteps(r))
              && reg.delivered == old(reg.delivered) + Deliveries(rec.tableIndex, rec.cb, Outbound(ReactionSteps(r)))
    {
      ghost var r := Reaction(rec.cWorker.recv, msg, behaviour);
      var status := rec.cWorker.SendBytes(reg, msg, behaviour);
      DispatchedToOwner(reg, ws, this, ReactionSteps(r));
      if status != 0 {
        var errStr := CStr(rec.cWorker.LastException());
        return Some(Error(errStr));
      }
      return None;
    }
  }

  /**
   * The table and the handed-out workers agree: every worker has its own
   * index below the counter and its native worker carries that index; a
   * worker is in the table, under its index and with a live native worker,
   * exactly when it is not disposed; and every table entry is some worker's.
   */
  ghost predicate Tracks(reg: WorkerTable<NativeWorker>, ws: set<Worker>)
    reads reg, ws, set w | w in ws :: w.rec.cWorker
  {
    && reg.Valid()
    && (forall w :: w in ws ==> 0 <= w.rec.tableIndex < reg.nextAvailable)
    && (forall w :: w in ws ==> w.rec.cWorker.tableIndex == w.rec.tableIndex)
    && (forall w, v :: w in ws && v in ws && w != v ==> w.rec.tableIndex != v.rec.tableIndex)
    && (forall w :: w in ws ==> (w.disposed <==> w.rec.tableIndex !in reg.table))
    && (forall w :: w in ws ==> (w.disposed <==> !w.rec.cWorker.live))
    && (forall w :: w in ws && !w.disposed ==> reg.table[w.rec.tableIndex] == w.rec)
    && (forall i :: i in reg.table ==> exists w :: w in ws && w.rec.tableIndex == i)
  }

  /** What a run of a live worker's code sends goes to that worker's own callback, under its own index. */
  lemma DispatchedToOwner(reg: WorkerTable<NativeWorker>, ws: set<Worker>, w: Worker, steps: seq<ScriptStep>)
    requires Tracks(reg, ws) && w in ws && !w.disposed
    ensures w.rec.cWorker.tableIndex in reg.table
    ensures Dispatched(reg.table, w.rec.cWorker.tableIndex, steps) == Deliveries(w.rec.tableIndex, w.rec.cb, Outbound(steps))
  {
  }

  /**
   * `New`: takes the counter's value as the index, moves the counter on,
   * registers the record, starts V8 if no earlier `New` has, and creates
   * the native worker with the worker's table index.
   */
  method New(reg: WorkerTable<NativeWorker>, cb: Callback, ghost ws: set<Worker>) returns (w: Worker)
    requires Tracks(reg, ws)
    modifies reg`nextAvailable, reg`table, reg`v8Initialized, reg`v8Inits
    ensures fresh(w) && fresh(w.rec.cWorker)
    ensures Tracks(reg, ws + {w})
    ensures w.rec.tableIndex == old(reg.nextAvailable) && reg.nextAvailable == old(reg.nextAvailable) + 1
    ensures forall v :: v in ws ==> v.rec.tableIndex != w.rec.tableIndex
    ensures w.rec.cb == cb && !w.disposed
    ensures w.rec.cWorker.tableIndex == w.rec.tableIndex
    ensures w.rec.tableIndex !in old(reg.table) && reg.table == old(reg.table)[w.rec.tableIndex := w.rec]
    ensures reg.v8Initialized && reg.v8Inits == 1
  {
    var index := reg.Claim();
    reg.InitV8Once();
    var cWorker := new NativeWorker(index);
    var rec := WorkerRec(cWorker, cb, index);
    reg.Insert(rec);
    w := new Worker(rec);
  }

  /** Go's `C.int(x)`: the low 32 bits of `x`, read as a two's-complement number. */
  function CInt(x: int): (r: int)
    ensures -0x8000_0000 <= r < 0x8000_0000
    ensures (x - r) % 0x1_0000_0000 == 0
    ensures -0x8000_0000 <= x < 0x8000_0000 ==> r == x
  {
    var low := x % 0x1_0000_0000;
    if low < 0x8000_0000 then low else low - 0x1_0000_0000
  }

  /**
   * `New` exactly as written: the native worker is created with
   * `C.int(w.tableIndex)`, a 32-bit truncation of the index.
   */
  method NewAsWritten(reg: WorkerTable<NativeWorker>, cb: Callback) returns (w: Worker)
    requires reg.Valid()
    modifies reg`nextAvailable, reg`table, reg`v8Initialized, reg`v8Inits
    ensures fresh(w) && fresh(w.rec.cWorker)
    ensures w.rec.tableIndex == old(reg.nextAvailable) && reg.table == old(reg.table)[w.rec.tableIndex := w.rec]
    ensures w.rec.cWorker.tableIndex == CInt(w.rec.tableIndex)
  {
    var index := reg.Claim();
    reg.InitV8Once();
    var cWorker := new NativeWorker(CInt(index));
    var rec := WorkerRec(cWorker, cb, index);
    reg.Insert(rec);
    w := new Worker(rec);
  }

  /**
   * The truncation misroutes messages once the counter passes 2^31. The
   * worker with index 2^31 is given native index -2^31, never a key, so the
   * first message its script sends makes `recvCb` dereference nil.
   */
  lemma TruncatedIndexMissing(reg: WorkerTable<NativeWorker>, w: Worker)
    requires reg.Valid()
    requires w.rec.tableIndex == 0x8000_0000 && w.rec.cWorker.tableIndex == CInt(w.rec.tableIndex)
    ensures w.rec.cWorker.tableIndex == -0x8000_0000
    ensures w.rec.cWorker.tableIndex !in reg.table
  {
  }

  /**
   * The worker with index 2^32 is given native index 0, so while worker 0
   * is registered the messages its script sends reach worker 0's record.
   */
  lemma TruncatedIndexAliases(reg: WorkerTable<NativeWorker>, w: Worker)
    requires reg.Valid() && 0 in reg.table
    requires w.rec.tableIndex == 0x1_0000_0000 && w.rec.cWorker.tableIndex == CInt(w.rec.tableIndex)
    ensures w.rec.cWorker.tableIndex in reg.table
    ensures reg.table[w.rec.cWorker.tableIndex].tableIndex == 0 != w.rec.tableIndex
  {
  }

  /**
   * A worker loading a script whose one effect is to send `m`: the load
   * succeeds and `m` reaches this worker's callback, and only it.
   */
  method LoadSending(w: Worker, reg: WorkerTable<NativeWorker>, ghost ws: set<Worker>, name: string, code: string, m: seq<byte>)
    returns (err: Option<Error>)
    requires Tracks(reg, ws) && w in ws && !w.disposed
    modifies w.rec.cWorker`recv, w.rec.cWorker`lastException, reg`delivered
    ensures Tracks(reg, ws) && err.None?
    ensures reg.delivered == old(reg.delivered) + [Delivery(w.rec.tableIndex, w.rec.cb, m)]
  {
    SingleSend(m);
    err := w.Load(reg, ws, name, code, Compiled(Execution([CallSend(m)], Returned)));
  }

  /** A run whose only step sends `m` sends exactly `m`, to one callback. */
  lemma SingleSend(m: seq<byte>)
    ensures Outbound([CallSend(m)]) == [m]
    ensures forall i, cb :: Deliveries(i, cb, Outbound([CallSend(m)])) == [Delivery(i, cb, m)]
  {
    assert [CallSend(m)][..0] == [];
  }

  /**
   * Two live workers, each loading a script that sends one message, as in
   * the package's test of several workers: each message reaches the
   * callback of the worker whose script sent it, under that worker's own
   * index, and nothing else is delivered.
   */
  method TwoWorkersSend(reg: WorkerTable<NativeWorker>, ghost ws: set<Worker>, w1: Worker, w2: Worker, m1: seq<byte>, m2: seq<byte>)
    requires Tracks(reg, ws) && w1 in ws && w2 in ws && w1 != w2 && !w1.disposed && !w2.disposed
    requires |m1| == 5 && |m2| == 3  // the buffers `new ArrayBuffer(5)` and `new ArrayBuffer(3)`
    modifies w1.rec.cWorker`recv, w1.rec.cWorker`lastException, w2.rec.cWorker`recv, w2.rec.cWorker`lastException, reg`delivered
    ensures Tracks(reg, ws)
    ensures w1.rec.tableIndex != w2.rec.tableIndex
    ensures reg.delivered == old(reg.delivered) + [Delivery(w1.rec.tableIndex, w1.rec.cb, m1)] + [Delivery(w2.rec.tableIndex, w2.rec.cb, m2)]
  {
    var e1 := LoadSending(w1, reg, ws, "1.js", "V8Worker2.send(new ArrayBuffer(5))", m1);
    var e2 := LoadSending(w2, reg, ws, "2.js", "V8Worker2.send(new ArrayBuffer(3))", m2);
  }
}
