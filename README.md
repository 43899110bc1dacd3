# v8worker2: the worker registry and the native shim, in Dafny

v8worker2 binds Go to the V8 JavaScript engine. A Go program calls `New` to
create a worker, which is one V8 isolate, and gives it a callback. It then
calls `Load` to run scripts and `SendBytes` to hand the script's `recv`
function a message. Script code calls `V8Worker2.send` to pass bytes back
to the worker's Go callback. `Dispose` frees the worker.

Go cannot hand C a Go pointer, so the Go side keeps a process-wide table
from an integer index to the worker record. The native side is given only
the index, and `recvCb` uses it to find the Go callback again.

This project models two files:
- worker.go: the table, its counter, the V8 once-flag and the public
  operations.
- binding.cc: the native shim. This covers the per-worker state
  (`last_exception`, the `recv` function, the module cache), the status
  codes of `worker_load`, `worker_send_bytes` and `worker_load_module`,
  `ResolveCallback`, and the `ExceptionString` formatter.

## Modules, one per file, in import order

- `Wrappers` (wrappers.dfy) holds `Option` and `byte`.
- `CStrings` (cstrings.dfy) covers text as it passes through `char*`.
  - `CStr` cuts a string at its first NUL.
  - `ToCString` is binding.cc's `ToCString`.
  - `Decimal` is what the `%i` format writes. A round trip reads it back to
    the same number, and a lemma shows it fits the 20-byte scratch buffer.
- `Exceptions` (exceptions.dfy) holds the `ExceptionString` method, with its
  two underline loops. It is proved against the function `ExceptionReport`,
  and four lemmas describe the layout of that text.
- `Registry` (registry.dfy) is the Go table, as the class `WorkerTable`.
  - It holds the `workerTable` map, the `workerTableNextAvailable` counter
    and the `initV8Once` flag.
  - Its methods are `Lookup` and `RecvCb`, plus `Claim`, `Insert` and
    `Remove`, which are the table updates inside `New` and `Dispose`.
  - It is generic in the type of the native context, which breaks the
    import cycle with `Binding`.
- `Binding` (binding.dfy) is the native shim, as the class `NativeWorker`.
  Each entry point is proved against a status function and a fault
  function. The fault function gives the text the entry point stores in
  `last_exception`, if it stores any.
- `V8Worker2` (v8worker2.dfy) is the Go `Worker` class, with `New`,
  `Dispose`, `Load` and `SendBytes`.
  - The ghost predicate `Tracks(reg, ws)` relates the table to `ws`, the
    set of every worker handed out so far.
  - It states these facts:
    - indices are distinct;
    - the table holds exactly the workers not yet disposed, each under its
      own index;
    - a worker's native context is live exactly while it is not disposed;
    - each native worker carries its worker's index.
  - Every operation keeps `Tracks`. Because of it, a message sent by a
    worker's script reaches that worker's callback and no other.

## How V8 is represented

V8's decisions are inputs to the model:
- whether code compiles;
- what running it does;
- which specifiers a module requests;
- which names `InstantiateModule` asks `ResolveCallback` for.

Running code is an `Execution`. It is the sequence of calls the code makes
into the `V8Worker2` object, each a `CallRecv(f)` or a `CallSend(bytes)`,
followed by how the code ends: it returns, or it throws a `Caught` value.
A `Caught` value carries what a `TryCatch` would hold: the exception text,
the `Message` fields and the stack trace.

`NativeWorker.Execute` plays such a run against the worker, calling `Recv`
or `Send` for each step in order.

Go callbacks are opaque `Callback` tokens. Each time `recvCb` invokes one,
it appends a `Delivery(index, callback, bytes)` to the table's `delivered`
log. With that log, "messages from worker A never reach worker B's
callback" can be stated and proved.

Two details of how a message reaches Go are modelled as the code has them:
- `recvCb` has no nil check on the lookup result (worker.go:82-83), so the
  model requires that the index is present rather than dropping the
  message.
- The Go callback's return value is discarded (worker.go:83-84), so no
  reply reaches script.

## Model

| member | source | states |
|---|---|---|
| CStrings.CStr | worker.go:141 | A reader of a `char*` sees the text up to the first NUL. That result is a prefix of the input and holds no NUL. Text without NUL comes through whole. |
| CStrings.ToCString | binding.cc:46-48 | A failed UTF-8 conversion gives exactly `"<string conversion failed>"`. Otherwise the result is the converted text as a C string, and NUL-free text is unchanged. |
| CStrings.NatDigitsRoundTrip | binding.cc:144 | Reading back the digits printed for a natural number gives that number. |
| CStrings.DecimalRoundTrip | binding.cc:142-147 | The `%i` text of the line number is non-empty and parses back to the same integer, sign included. |
| CStrings.DecimalFitsScratch | binding.cc:123-144 | The text of every 32-bit line number, plus its NUL, fits the 20-byte scratch buffer, so `snprintf` never truncates it. |
| Exceptions.Repeat | binding.cc:159-165 | The result is `n` copies of the character, or none when `n` is not positive. |
| Exceptions.AppendColumns | binding.cc:159-165 | Each underline loop appends exactly `to - from` copies of its character, and none when `to <= from`. |
| Exceptions.ExceptionReport | binding.cc:121-178 | The exception report never contains a NUL, so `last_exception` can carry all of it through `c_str()`. |
| Exceptions.AppendUnderlined | binding.cc:139-166 | The message branch builds the header lines and the underline, loops included, to exactly `Underlined(m)`. The 32-bit line number always fits the 20-byte scratch buffer, so `snprintf` writes it whole. |
| Exceptions.UnderlinedColumns | binding.cc:157-166 | Right after the header come `max(0, start)` spaces, then `max(0, end - start)` carets, then a final newline. |
| Exceptions.ExceptionString | binding.cc:121-178 | The piece-by-piece method, loops included, builds exactly the text of `ExceptionReport`. |
| Exceptions.ReportWithoutMessage | binding.cc:133-137 | With no message, the text is the exception text followed by a newline. |
| Exceptions.ReportHeader | binding.cc:139-155 | With a message, the text starts with the file name, `:`, the decimal line number, a newline, the source line and a newline. |
| Exceptions.ReportUnderline | binding.cc:157-166 | Right after the header come `max(0, start)` spaces, then `max(0, end - start)` carets, then a newline. |
| Exceptions.ReportNamesResource | binding.cc:139-147 | When the message's resource name is `name`, the report opens with `name` and a colon. |
| Exceptions.ReportLastLine | binding.cc:167-175 | The text ends with the stack trace and a newline when the stack trace is non-empty. Otherwise it ends with the exception text and a newline. |
| Registry.Deliveries | worker.go:80-84 | Handing each message to one callback under one index gives one delivery per message, in order. Each delivery carries that index, that callback and that message. |
| Registry.WorkerTable.constructor | worker.go:43-52 | The process starts with an empty table, the counter at 0 and V8 not initialised. |
| Registry.WorkerTable.Lookup | worker.go:73-77 | The lookup finds a record exactly when the index is a key, and then it is the record stored there. Under the table invariant, that record carries the index it was looked up by. |
| Registry.WorkerTable.Claim | worker.go:90-96 | The new index is the counter's old value, and the counter grows by exactly one. The index is not yet a key, and the table invariant still holds. |
| Registry.WorkerTable.Insert | worker.go:97 | The table maps the new index to the new record, and every other entry is unchanged. |
| Registry.WorkerTable.Remove | worker.go:124-127 | The index is no longer a key, and every other entry is unchanged. |
| Registry.WorkerTable.InitV8Once | worker.go:100-102 | After the call V8 is initialised, and `v8_init` has run exactly once in total. A call after the first adds no `v8_init`. |
| Registry.WorkerTable.RecvCb | worker.go:80-85 | From all the table's records, the log gains exactly one delivery: the callback of the record under the given index, with the given bytes. The index must be present. |
| Binding.Outbound | binding.cc:345-364 | A run makes at most one send per step, and a run of only `recv` calls sends nothing. |
| Binding.MostRecentRecvWins | binding.cc:328-342 | After a run, the stored `recv` function is the one from the run's last `recv` call. |
| Binding.NoRecvKeepsHandle | binding.cc:328-342 | A run with no `recv` call leaves the stored function as it was. |
| Binding.Dispatched | binding.cc:345-364 | A run makes one `recvCb` delivery per message it sends. Every delivery carries this worker's index, the callback registered under that index, and the message itself. |
| Binding.LoadFaultNamesScript | binding.cc:202-214 | A load fault whose message carries the script origin `name` stores a text that opens with `name` and a colon, as worker_test.go:53 and :101 expect. |
| Binding.LoadFailsIffFault | binding.cc:207-223 | `worker_load` returns 1 exactly when compilation fails and 2 exactly when the run throws. It stores a new `last_exception` exactly when it returns non-zero. |
| Binding.SendFailsIffFault | binding.cc:391-410 | `worker_send_bytes` returns 1 exactly when no `recv` function is set, and then stores `"V8Worker2.recv has not been called."` and runs nothing. It stores a text exactly when it returns non-zero. |
| Binding.FirstRefusalIsFirst | binding.cc:260-283 | The dependency loop finds no refusal exactly when every dependency is cached or accepted by `ResolveModule`. Otherwise it stops at the earliest one that is neither, and gives that one's name and status. |
| Binding.CachedDependenciesSkipped | binding.cc:265-270 | `ResolveModule`'s answers for names already cached never change the outcome of the dependency loop. |
| Binding.FirstUnknown | binding.cc:107-117 | During instantiation the lookup fails exactly when some queried name is not cached. The name it reports is not cached and is the earliest such query: every query before it is cached. |
| Binding.RefusedDependencyLeavesCache | binding.cc:272-282 | A refused dependency makes `worker_load_module` return that non-zero status and store `"Module (" + name + ") has not been loaded\n"`. The module cache is unchanged and nothing is evaluated. |
| Binding.SettledModuleIsCached | binding.cc:285-297 | Once every dependency is settled, the module is cached under its own name before instantiation, whatever instantiation does next. A missing name during instantiation gives status 2 and a text naming it. |
| Binding.ModuleSucceedsIffEvaluated | binding.cc:288-307 | `worker_load_module` returns 0 exactly when the module links and its evaluation returns normally, and then it stores no text. |
| Binding.NativeWorker.constructor | binding.cc:419-460 | `worker_new` gives a live worker that holds its table index, an empty `last_exception`, no `recv` function and no modules. |
| Binding.NativeWorker.Dispose | binding.cc:462-465 | `worker_dispose` frees a live worker, and only a live one. |
| Binding.NativeWorker.LastException | binding.cc:188-190 | A reader of the returned `char*` gets back the whole stored text. |
| Binding.NativeWorker.Recv | binding.cc:328-342 | The stored `recv` function is replaced by the new one. |
| Binding.NativeWorker.Send | binding.cc:345-364 | A script's send becomes exactly one `recvCb` delivery, under this worker's table index. |
| Binding.NativeWorker.Execute | binding.cc:215 | Running code leaves in `recv` the function of its last `recv` call. The log gains the deliveries of its sends, in order and under this worker's index. |
| Binding.NativeWorker.Fail | binding.cc:211 | `last_exception` becomes the exception report of what was caught. |
| Binding.NativeWorker.Load | binding.cc:192-224 | The status is `LoadStatus`. `last_exception` becomes the fault text when there is one and is unchanged otherwise. `recv` and the log change as the script's run dictates. |
| Binding.NativeWorker.SendBytes | binding.cc:382-411 | The status is `SendStatus` of the stored function's reaction. `last_exception` follows `SendFault`. `recv` and the log change as that reaction dictates. |
| Binding.NativeWorker.ResolveCallback | binding.cc:96-118 | A known specifier yields the cached module and leaves `last_exception` alone. An unknown one yields nothing and stores `"Module (" + name + ") has not been loaded\n"`. |
| Binding.NativeWorker.Instantiate | binding.cc:288 | Instantiation succeeds exactly when every queried name is cached and the verdict is positive. When a name is unknown, that name's text is stored and nothing counts as caught. |
| Binding.NativeWorker.ResolveDependencies | binding.cc:260-283 | The loop returns 0 with `last_exception` untouched when every dependency is settled. Otherwise it returns the first refusal's non-zero status and stores its name. |
| Binding.NativeWorker.LinkAndEvaluate | binding.cc:288-307 | After caching, the status is 2 when linking fails or evaluation throws, and 0 otherwise. The caught exception is stored only when the `TryCatch` holds one. |
| Binding.NativeWorker.LoadModule | binding.cc:226-308 | Status, stored text, module cache, `recv` and log are exactly `ModuleStatus`, `ModuleFault`, `ModuleCache` and `ModuleSteps` of the outcome and the old cache. |
| V8Worker2.Worker.constructor | worker.go:106-109 | A new `Worker` wraps its record and is not disposed. |
| V8Worker2.Worker.Dispose | worker.go:119-129 | On a disposed worker, `Dispose` panics with `"worker already disposed"` and the table is unchanged. Otherwise it sets `disposed`, removes exactly this worker's index, frees the native worker and keeps `Tracks`. |
| V8Worker2.Worker.Load | worker.go:133-145 | The error is nil exactly when `worker_load` returns 0. Otherwise its text equals the new `last_exception`, which is the fault text. Every message the script sends reaches this worker's own callback, and `Tracks` still holds. |
| V8Worker2.Worker.SendBytes | worker.go:148-159 | The error is nil exactly when `worker_send_bytes` returns 0. Otherwise its text equals the new `last_exception`. Every message sent in reaction reaches this worker's own callback, and `Tracks` still holds. |
| V8Worker2.DispatchedToOwner | worker.go:80-84 | For a live worker, the native index is a key, and the deliveries its code makes all go to its own callback under its own index. |
| V8Worker2.New | worker.go:89-115 | The new worker's index is the old counter, and the counter grows by exactly one. The index differs from every earlier worker's, and the table only gains the new record. V8 has been initialised exactly once. The native worker carries the same index, and `Tracks` extends to the new worker. |
| V8Worker2.CInt | worker.go:104 | `C.int` keeps the value modulo 2^32, in the signed 32-bit range, and leaves values already in that range unchanged. |
| V8Worker2.NewAsWritten | worker.go:89-104 | As written, `New` gives the native worker `C.int` of the table index rather than the index itself. |
| V8Worker2.TruncatedIndexMissing | worker.go:104 | The worker with index 2^31 gets native index -2^31, which is never a key, so `recvCb` would find no worker for its messages. |
| V8Worker2.TruncatedIndexAliases | worker.go:104 | The worker with index 2^32 gets native index 0. While worker 0 is registered, its messages would reach worker 0's record. |
| V8Worker2.LoadSending | worker_test.go:167-181 | A script whose only effect is one send loads without error. Exactly that message reaches this worker's own callback. |
| V8Worker2.TwoWorkersSend | worker_test.go:135-165 | With two live workers sending a 5-byte and a 3-byte message, the log gains exactly two deliveries, in order. Each goes to the callback of the worker that sent it, under that worker's distinct index. |

## Left out

- The V8 engine is not modelled. Isolates, contexts, compilation, running, instantiation, evaluation and ArrayBuffer allocation are foreign calls. Their results are inputs: `ScriptOutcome`, `ModuleOutcome`, `Behaviour` and `Linking`.
- `workerTableLock`, V8's `Locker`, and `TerminateExecution` (worker.go:162-164, binding.cc:467) are left out. The model is sequential, so there is no locking and no interruption from another thread.
- V8Worker2.New: the table insert is modelled after `worker_new` rather than before it (worker.go:97, 104). The record is a value, so it is stored once complete. Nothing can observe the difference sequentially.
- `runtime.SetFinalizer` (worker.go:111-113) is left out. It depends on garbage-collector timing.
- `Print` (binding.cc:310-325) is left out because it is standard-output I/O.
- `ExitOnPromiseRejectCallback` (binding.cc:64-94) is left out. It calls into script and exits the process.
- `Version`, `worker_version`, `worker_set_flags` and the body of `v8_init` are pass-throughs to V8. Only the number of `v8_init` calls is kept.
- Binding.NativeWorker.Send: the reply-buffer path (binding.cc:364-377) is not modelled. The Go `recvCb` returns nothing, so it never supplies a reply.
- Binding.NativeWorker.Send: the `int` cast of the buffer length (binding.cc:362) is not modelled. Messages are finite sequences, and buffers of 2 GiB or more are out of scope.
- `ResolveModule` is a Go export that `worker_load_module` calls (binding.cc:272). It is not part of this model, because this worker.go defines no `LoadModule` or `ResolveModule`. Its status is an input, the `Resolver`. Its effects, which in practice are a nested module load, are not modelled.
- Binding.NativeWorker.Recv and Binding.NativeWorker.Send: a `recv` argument that is not a function and a `send` argument that is not an ArrayBuffer are guarded only by `assert` (binding.cc:338, 356). A debug build aborts there, and a release build has undefined behaviour. `ScriptStep` therefore carries only well-typed calls, and that error path is not modelled.
- Binding.NativeWorker.ResolveDependencies assumes every module request converts to UTF-8. On a failed conversion the source uses a null `char*` as the name (binding.cc:262-268), which it does not handle.
- Exceptions.ReportNamesResource and Binding.LoadFaultNamesScript are conditional: which resource name V8 puts in a message is V8's input. The model does not tie it to the name given to `worker_load`. That name is the `ScriptOrigin` (binding.cc:205), but a fault raised inside a function from another script carries that script's name.
- Binding.NativeWorker.ResolveCallback assumes every specifier converts to UTF-8. The source passes a null `char*` on a failed conversion, which it does not handle.
- Binding.NativeWorker.Instantiate: the order in which V8 asks `ResolveCallback` for names, and V8's verdict, are inputs. The model assumes V8 stops at the first name the callback refuses.
- Go callbacks are opaque tokens. What they compute, and any re-entrant call they make into the package, is not modelled.
- V8Worker2.Worker.Load requires a worker that is not disposed. So does `SendBytes`. The source does not check this: such a call would use freed native memory.
- Registry.WorkerTable.RecvCb requires the index to be present. The source panics on a nil record rather than dropping the message.
- Registry.WorkerTable.Claim treats Go's 64-bit `int` counter as unbounded. Wrap-around after 2^63 workers is not modelled.
- The lifecycle states "Created" and "Loaded" are only a description. The source keeps no state for them: only `disposed` exists, and loading is allowed any number of times before disposal.
- V8Worker2.Worker.Dispose returns the panic as a `Panicked` value instead of unwinding. Nothing has changed when it is returned.

## Findings

| source | as written | input that shows it | evidently intended | confidence | as-written member | corrected member |
|---|---|---|---|---|---|---|
| worker.go:104 | The 64-bit table index is converted with `C.int` before it reaches `worker_new`. The native side hands the truncated value back to `recvCb` (binding.cc:364). | The worker with index 2^31 gets native index -2^31, which is never a table key, so its first `send` makes `recvCb` dereference nil. The worker with index 2^32 gets native index 0, so its messages go to worker 0's callback. | The native worker carries the same index as its Go record, so messages reach only their own worker. | not executed; needs more than 2^31 calls to `New` in one process | V8Worker2.NewAsWritten, V8Worker2.TruncatedIndexMissing, V8Worker2.TruncatedIndexAliases | V8Worker2.New, V8Worker2.DispatchedToOwner |
