/**
 * The native shim (binding.cc): the per-worker state `worker_s` and the
 * entry points that load scripts and modules, deliver messages to script,
 * and route messages from script back to Go.
 *
 * Everything V8 decides (whether code compiles, what running it does,
 * which specifiers a module requests) is an input: running code is an
 * `Execution`, the native functions it calls in order and how it ends.
 */
module Binding {
  import opened Wrappers
  import opened CStrings
  import opened Exceptions
  import opened Registry

  /** A script function, as stored in the `recv` handle. */
  datatype JsFunction = JsFunction(id: nat)

  /** A compiled module, as kept in the module cache. */
  datatype ModuleHandle = ModuleHandle(id: nat)

  /** A call that running code makes into the `V8Worker2` object. */
  datatype ScriptStep =
    | CallRecv(f: JsFunction)     // V8Worker2.recv(f)
    | CallSend(msg: seq<byte>)    // V8Worker2.send(buffer)

  datatype Completion = Returned | Threw(caught: Caught)

  /** What running some code does: the native calls it makes, in order, then how it ends. */
  datatype Execution = Execution(steps: seq<ScriptStep>, completion: Completion)

  /** What `Script::Compile` and `Run` do with a classic script. */
  datatype ScriptOutcome = CompileFailed(caught: Caught) | Compiled(run: Execution)

  /**
   * What `InstantiateModule` does: the specifiers it passes to
   * `ResolveCallback`, in order, stopping at the first one the callback
   * refuses (the callback raises no exception, so nothing is caught then),
   * and its verdict when every one resolves.
   */
  datatype LinkVerdict = Instantiated | NotInstantiated(caught: Option<Caught>)
  datatype Linking = Linking(queries: seq<string>, verdict: LinkVerdict)

  /** What V8 does with a module: compile it, list its requests, link it, evaluate it. */
  datatype ModuleOutcome =
    | ModuleCompileFailed(caught: Caught)
    | ModuleCompiled(compiled: ModuleHandle, requests: seq<string>, link: Linking, evaluation: Execution)

  /** What the stored `recv` function does when called with a message. */
  type Behaviour = (JsFunction, seq<byte>) -> Execution

  /** Go's `ResolveModule(specifier, referrer, callback index)`: its status. */
  type Resolver = (CString, CString, int) -> int

  const RecvNotCalled: CString := "V8Worker2.recv has not been called."

  /** The text left when a module name cannot be resolved. */
  function NotLoaded(name: CString): CString {
    "Module (" + name + ") has not been loaded\n"
  }

  /** The messages that `steps` pass to `V8Worker2.send`, in order. */
  function Outbound(steps: seq<ScriptStep>): (r: seq<seq<byte>>)
    ensures |r| <= |steps|
    ensures (forall k :: 0 <= k < |steps| ==> steps[k].CallRecv?) ==> r == []
  {
    if steps == [] then []
    else
      var last := steps[|steps| - 1];
      Outbound(steps[..|steps| - 1]) + (if last.CallSend? then [last.msg] else [])
  }

  /** The `recv` handle after `steps`, starting from `prev`. */
  function LastRegistered(prev: Option<JsFunction>, steps: seq<ScriptStep>): Option<JsFunction> {
    if steps == [] then prev
    else if steps[|steps| - 1].CallRecv? then Some(steps[|steps| - 1].f)
    else LastRegistered(prev, steps[..|steps| - 1])
  }

  /** Messages sent by two runs in turn are those of the first, then those of the second. */
  lemma {:induction false} OutboundConcat(a: seq<ScriptStep>, b: seq<ScriptStep>)
    ensures Outbound(a + b) == Outbound(a) + Outbound(b)
    decreases |b|
  {
    if b == [] {
      assert a + b == a;
    } else {
      var b' := b[..|b| - 1];
      assert (a + b)[..|a + b| - 1] == a + b';
      OutboundConcat(a, b');
    }
  }

  /**
   * `Recv` overwrites the handle, so the function of the last `recv` call
   * in a run is the one stored; a run with no `recv` call keeps the old one.
   */
  lemma {:induction false} MostRecentRecvWins(prev: Option<JsFunction>, steps: seq<ScriptStep>, k: int)
    requires 0 <= k < |steps| && steps[k].CallRecv?
    requires forall j :: k < j < |steps| ==> steps[j].CallSend?
    ensures LastRegistered(prev, steps) == Some(steps[k].f)
    decreases |steps|
  {
    if k < |steps| - 1 {
      MostRecentRecvWins(prev, steps[..|steps| - 1], k);
    }
  }

  /** A run that never calls `recv` leaves the handle as it was. */
  lemma {:induction false} NoRecvKeepsHandle(prev: Option<JsFunction>, steps: seq<ScriptStep>)
    requires forall j :: 0 <= j < |steps| ==> steps[j].CallSend?
    ensures LastRegistered(prev, steps) == prev
    decreases |steps|
  {
    if steps != [] {
      NoRecvKeepsHandle(prev, steps[..|steps| - 1]);
    }
  }

  /**
   * The `recvCb` invocations a run makes from the worker registered under
   * `index`: one per message it sends, each to that worker's callback.
   */
  function Dispatched(table: map<int, WorkerRec<NativeWorker>>, index: int, steps: seq<ScriptStep>): (r: seq<Delivery>)
    requires Outbound(steps) != [] ==> index in table
    ensures |r| == |Outbound(steps)|
    ensures forall k :: 0 <= k < |r| ==> r[k].index == index && r[k].cb == table[index].cb && r[k].msg == Outbound(steps)[k]
  {
    if Outbound(steps) == [] then [] else Deliveries(index, table[index].cb, Outbound(steps))
  }

  /** One more step of a run sends one more message exactly when the step is a send; a prefix sends no more than the whole run. */
  lemma OutboundStep(steps: seq<ScriptStep>, i: int)
    requires 0 <= i < |steps|
    ensures Outbound(steps[..i + 1]) == Outbound(steps[..i]) + (if steps[i].CallSend? then [steps[i].msg] else [])
    ensures |Outbound(steps[..i])| <= |Outbound(steps[..i + 1])| <= |Outbound(steps)|
  {
    assert steps[..i + 1][..i] == steps[..i];
    OutboundConcat(steps[..i + 1], steps[i + 1..]);
    assert steps[..i + 1] + steps[i + 1..] == steps;
  }

  /** One more step of a run: a `recv` call replaces the handle, a send keeps it. */
  lemma RegisteredStep(prev: Option<JsFunction>, steps: seq<ScriptStep>, i: int)
    requires 0 <= i < |steps|
    ensures LastRegistered(prev, steps[..i + 1]) == if steps[i].CallRecv? then Some(steps[i].f) else LastRegistered(prev, steps[..i])
  {
    assert steps[..i + 1][..i] == steps[..i];
  }

  /**
   * One more step of a run: a `recv` call dispatches nothing; a send
   * dispatches one delivery to the callback registered under `index`.
   */
  lemma StepPrefix(table: map<int, WorkerRec<NativeWorker>>, index: int, steps: seq<ScriptStep>, i: int)
    requires 0 <= i < |steps|
    requires Outbound(steps) != [] ==> index in table
    ensures Outbound(steps[..i]) != [] ==> index in table
    ensures Outbound(steps[..i + 1]) != [] ==> index in table
    ensures steps[i].CallRecv? ==> Dispatched(table, index, steps[..i + 1]) == Dispatched(table, index, steps[..i])
    ensures steps[i].CallSend? ==> (index in table &&
              Dispatched(table, index, steps[..i + 1]) == Dispatched(table, index, steps[..i]) + [Delivery(index, table[index].cb, steps[i].msg)])
  {
    OutboundStep(steps, i);
    if steps[i].CallSend? && Outbound(steps[..i]) != [] {
      DeliveriesConcat(index, table[index].cb, Outbound(steps[..i]), [steps[i].msg]);
    }
  }

  /**
   * The log after step `i` of a run: a delivery more than before it when
   * the step is a send, the same log when it is a `recv` call.
   */
  lemma DispatchStep(table: map<int, WorkerRec<NativeWorker>>, index: int, steps: seq<ScriptStep>, i: int, start: seq<Delivery>, before: seq<Delivery>, after: seq<Delivery>)
    requires 0 <= i < |steps|
    requires Outbound(steps) != [] ==> index in table
    requires Outbound(steps[..i]) != [] ==> index in table
    requires before == start + Dispatched(table, index, steps[..i])
    requires steps[i].CallRecv? ==> after == before
    requires steps[i].CallSend? ==> index in table && after == before + [Delivery(index, table[index].cb, steps[i].msg)]
    ensures Outbound(steps[..i + 1]) != [] ==> index in table
    ensures after == start + Dispatched(table, index, steps[..i + 1])
  {
    StepPrefix(table, index, steps, i);
    if steps[i].CallSend? {
      AppendAssoc(start, Dispatched(table, index, steps[..i]), [Delivery(index, table[index].cb, steps[i].msg)]);
    }
  }

  /** Concatenation is associative. */
  lemma AppendAssoc<T>(a: seq<T>, b: seq<T>, c: seq<T>)
    ensures a + b + c == a + (b + c)
  {
  }

  // ---- worker_load --------------------------------------------------

  /** The steps a classic script runs: none when it does not compile. */
  function ScriptSteps(o: ScriptOutcome): seq<ScriptStep> {
    if o.Compiled? then o.run.steps else []
  }

  /** `worker_load`'s status: 1 when compiling fails, 2 when running throws, 0 otherwise. */
  function LoadStatus(o: ScriptOutcome): int {
    match o
    case CompileFailed(_) => 1
    case Compiled(run) => if run.completion.Threw? then 2 else 0
  }

  /** The text `worker_load` stores in `last_exception`, if it stores one. */
  function LoadFault(o: ScriptOutcome): Option<CString> {
    match o
    case CompileFailed(c) => Some(ExceptionReport(c))
    case Compiled(run) => if run.completion.Threw? then Some(ExceptionReport(run.completion.caught)) else None
  }

  /** What the `TryCatch` of `worker_load` caught, if anything. */
  function LoadCaught(o: ScriptOutcome): Option<Caught> {
    match o
    case CompileFailed(c) => Some(c)
    case Compiled(run) => if run.completion.Threw? then Some(run.completion.caught) else None
  }

  /**
   * A load fault that V8 attributes to the script under `name` (its message
   * carries the script origin `worker_load` set) stores a text that opens
   * with `name` and a colon.
   */
  lemma LoadFaultNamesScript(o: ScriptOutcome, name: CString)
    requires LoadCaught(o).Some? && LoadCaught(o).value.message.Some?
    requires LoadCaught(o).value.message.value.resourceName == Some(name)
    ensures LoadFault(o).Some? && name + ":" <= LoadFault(o).value
  {
    ReportNamesResource(LoadCaught(o).value, name);
  }

  /** `worker_load` fails exactly when it stores a new `last_exception`. */
  lemma LoadFailsIffFault(o: ScriptOutcome)
    ensures LoadStatus(o) in {0, 1, 2}
    ensures LoadStatus(o) != 0 <==> LoadFault(o).Some?
    ensures LoadStatus(o) == 1 <==> o.CompileFailed?
    ensures LoadStatus(o) == 2 <==> o.Compiled? && o.run.completion.Threw?
  {
  }

  // ---- worker_send_bytes --------------------------------------------

  /** The run `worker_send_bytes` makes: the stored `recv` function called with the message, if one is stored. */
  function Reaction(recv: Option<JsFunction>, msg: seq<byte>, behaviour: Behaviour): Option<Execution> {
    if recv.None? then None else Some(behaviour(recv.value, msg))
  }

  function ReactionSteps(r: Option<Execution>): seq<ScriptStep> {
    if r.Some? then r.value.steps else []
  }

  /** `worker_send_bytes`'s status: 1 with no `recv` function, 2 when it throws, 0 otherwise. */
  function SendStatus(r: Option<Execution>): int {
    if r.None? then 1 else if r.value.completion.Threw? then 2 else 0
  }

  /** The text `worker_send_bytes` stores in `last_exception`, if it stores one. */
  function SendFault(r: Option<Execution>): Option<CString> {
    if r.None? then Some(RecvNotCalled)
    else if r.value.completion.Threw? then Some(ExceptionReport(r.value.completion.caught))
    else None
  }

  /** `worker_send_bytes` fails exactly when it stores a new `last_exception`, and 1 means no `recv` function. */
  lemma SendFailsIffFault(recv: Option<JsFunction>, msg: seq<byte>, behaviour: Behaviour)
    ensures var r := Reaction(recv, msg, behaviour);
            && SendStatus(r) in {0, 1, 2}
            && (SendStatus(r) != 0 <==> SendFault(r).Some?)
            && (SendStatus(r) == 1 <==> recv.None?)
            && (recv.None? ==> SendFault(r) == Some(RecvNotCalled) && ReactionSteps(r) == [])
  {
  }

  // ---- worker_load_module -------------------------------------------

  /** A dependency that `ResolveModule` refused, with the status it gave. */
  datatype Refusal = Refusal(dep: CString, code: int)

  /** A requested dependency needs nothing more: it is cached, or `ResolveModule` accepts it. */
  predicate Settled(dep: string, cached: map<CString, ModuleHandle>, referrer: CString, callbackIndex: int, resolve: Resolver) {
    CStr(dep) in cached || resolve(CStr(dep), referrer, callbackIndex) == 0
  }

  /** The first dependency in `deps` that is not cached and that `ResolveModule` refuses. */
  function FirstRefusal(deps: seq<string>, cached: map<CString, ModuleHandle>, referrer: CString, callbackIndex: int, resolve: Resolver): Option<Refusal> {
    if deps == [] then None
    else
      var earlier := FirstRefusal(deps[..|deps| - 1], cached, referrer, callbackIndex, resolve);
      var last := CStr(deps[|deps| - 1]);
      if earlier.Some? then earlier
      else if Settled(deps[|deps| - 1], cached, referrer, callbackIndex, resolve) then None
      else Some(Refusal(last, resolve(last, referrer, callbackIndex)))
  }

  /** A refusal among the first `k` dependencies is the refusal of them all. */
  lemma {:induction false} RefusalPrefix(deps: seq<string>, k: int, cached: map<CString, ModuleHandle>, referrer: CString, callbackIndex: int, resolve: Resolver)
    requires 0 <= k <= |deps|
    requires FirstRefusal(deps[..k], cached, referrer, callbackIndex, resolve).Some?
    ensures FirstRefusal(deps, cached, referrer, callbackIndex, resolve) == FirstRefusal(deps[..k], cached, referrer, callbackIndex, resolve)
    decreases |deps|
  {
    if k < |deps| {
      assert deps[..|deps| - 1][..k] == deps[..k];
      RefusalPrefix(deps[..|deps| - 1], k, cached, referrer, callbackIndex, resolve);
    } else {
      assert deps[..k] == deps;
    }
  }

  /**
   * `FirstRefusal` finds nothing exactly when every dependency is settled,
   * and otherwise names the earliest unsettled one with the status
   * `ResolveModule` gave it.
   */
  lemma {:induction false} FirstRefusalIsFirst(deps: seq<string>, cached: map<CString, ModuleHandle>, referrer: CString, callbackIndex: int, resolve: Resolver)
    ensures var r := FirstRefusal(deps, cached, referrer, callbackIndex, resolve);
            && (r.None? <==> forall k :: 0 <= k < |deps| ==> Settled(deps[k], cached, referrer, callbackIndex, resolve))
            && (r.Some? ==> exists k ::
                   && 0 <= k < |deps|
                   && !Settled(deps[k], cached, referrer, callbackIndex, resolve)
                   && (forall j :: 0 <= j < k ==> Settled(deps[j], cached, referrer, callbackIndex, resolve))
                   && r.value == Refusal(CStr(deps[k]), resolve(CStr(deps[k]), referrer, callbackIndex)))
    decreases |deps|
  {
    if deps != [] {
      var init := deps[..|deps| - 1];
      FirstRefusalIsFirst(init, cached, referrer, callbackIndex, resolve);
      assert forall k :: 0 <= k < |init| ==> init[k] == deps[k];
    }
  }

  /**
   * Dependencies already in the cache are skipped: `ResolveModule` is only
   * consulted about the others, so how it would answer for cached names
   * changes nothing.
   */
  lemma {:induction false} CachedDependenciesSkipped(deps: seq<string>, cached: map<CString, ModuleHandle>, referrer: CString, callbackIndex: int, resolve: Resolver, resolve': Resolver)
    requires forall k :: 0 <= k < |deps| && CStr(deps[k]) !in cached ==>
               resolve(CStr(deps[k]), referrer, callbackIndex) == resolve'(CStr(deps[k]), referrer, callbackIndex)
    ensures FirstRefusal(deps, cached, referrer, callbackIndex, resolve) == FirstRefusal(deps, cached, referrer, callbackIndex, resolve')
    decreases |deps|
  {
    if deps != [] {
      var init := deps[..|deps| - 1];
      assert forall k :: 0 <= k < |init| ==> init[k] == deps[k];
      CachedDependenciesSkipped(init, cached, referrer, callbackIndex, resolve, resolve');
    }
  }

  /** The first of `queries` that `ResolveCallback` does not find in `cached`. */
  function FirstUnknown(queries: seq<string>, cached: map<CString, ModuleHandle>): (r: Option<CString>)
    ensures r.None? <==> forall k :: 0 <= k < |queries| ==> CStr(queries[k]) in cached
    ensures r.Some? ==> r.value !in cached && exists k ::
              && 0 <= k < |queries|
              && r.value == CStr(queries[k])
              && (forall j :: 0 <= j < k ==> CStr(queries[j]) in cached)
  {
    if queries == [] then None
    else
      var init := queries[..|queries| - 1];
      var earlier := FirstUnknown(init, cached);
      var last := CStr(queries[|queries| - 1]);
      assert forall j :: 0 <= j < |init| ==> init[j] == queries[j];
      if earlier.Some? then earlier
      else if last in cached then None
      else Some(last)
  }

  /** An unknown name among the first `k` queries is the first unknown name of them all. */
  lemma {:induction false} UnknownPrefix(queries: seq<string>, k: int, cached: map<CString, ModuleHandle>)
    requires 0 <= k <= |queries|
    requires FirstUnknown(queries[..k], cached).Some?
    ensures FirstUnknown(queries, cached) == FirstUnknown(queries[..k], cached)
    decreases |queries|
  {
    if k < |queries| {
      assert queries[..|queries| - 1][..k] == queries[..k];
      UnknownPrefix(queries[..|queries| - 1], k, cached);
    } else {
      assert queries[..k] == queries;
    }
  }

  /** The cache once `worker_load_module` returns: grown by `name` exactly when every dependency was settled. */
  function ModuleCache(o: ModuleOutcome, cached: map<CString, ModuleHandle>, name: CString, callbackIndex: int, resolve: Resolver): map<CString, ModuleHandle> {
    match o
    case ModuleCompileFailed(_) => cached
    case ModuleCompiled(m, requests, _, _) =>
      if FirstRefusal(requests, cached, name, callbackIndex, resolve).Some? then cached else cached[name := m]
  }

  /** Whether `InstantiateModule` succeeds against `cache`: every query is found and the verdict is positive. */
  predicate Links(link: Linking, cache: map<CString, ModuleHandle>) {
    FirstUnknown(link.queries, cache).None? && link.verdict.Instantiated?
  }

  /** The steps run after the dependencies are settled: the evaluation, once the module links. */
  function LinkSteps(link: Linking, cache: map<CString, ModuleHandle>, evaluation: Execution): seq<ScriptStep> {
    if Links(link, cache) then evaluation.steps else []
  }

  /** The status once the dependencies are settled: 2 when linking fails or evaluation throws, 0 otherwise. */
  function LinkStatus(link: Linking, cache: map<CString, ModuleHandle>, evaluation: Execution): int {
    if Links(link, cache) && evaluation.completion.Returned? then 0 else 2
  }

  /**
   * The text stored once the dependencies are settled: the name the
   * callback did not find, what instantiation or evaluation threw, or
   * nothing (also when instantiation fails with nothing caught).
   */
  function LinkFault(link: Linking, cache: map<CString, ModuleHandle>, evaluation: Execution): Option<CString> {
    var unknown := FirstUnknown(link.queries, cache);
    if unknown.Some? then Some(NotLoaded(unknown.value))
    else if link.verdict.NotInstantiated? then
      (if link.verdict.caught.Some? then Some(ExceptionReport(link.verdict.caught.value)) else None)
    else if evaluation.completion.Threw? then Some(ExceptionReport(evaluation.completion.caught))
    else None
  }

  /** Whether the module gets as far as evaluation: it compiles, its dependencies settle and it links. */
  predicate ModuleLinks(o: ModuleOutcome, cached: map<CString, ModuleHandle>, name: CString, callbackIndex: int, resolve: Resolver) {
    && o.ModuleCompiled?
    && FirstRefusal(o.requests, cached, name, callbackIndex, resolve).None?
    && Links(o.link, cached[name := o.compiled])
  }

  /** The steps a module runs: its evaluation, once it links. */
  function ModuleSteps(o: ModuleOutcome, cached: map<CString, ModuleHandle>, name: CString, callbackIndex: int, resolve: Resolver): seq<ScriptStep> {
    if ModuleLinks(o, cached, name, callbackIndex, resolve) then o.evaluation.steps else []
  }

  /** `worker_load_module`'s status. */
  function ModuleStatus(o: ModuleOutcome, cached: map<CString, ModuleHandle>, name: CString, callbackIndex: int, resolve: Resolver): int {
    match o
    case ModuleCompileFailed(_) => 1
    case ModuleCompiled(m, requests, link, evaluation) =>
      var refusal := FirstRefusal(requests, cached, name, callbackIndex, resolve);
      if refusal.Some? then refusal.value.code else LinkStatus(link, cached[name := m], evaluation)
  }

  /** The text `worker_load_module` stores in `last_exception`, if it stores one. */
  function ModuleFault(o: ModuleOutcome, cached: map<CString, ModuleHandle>, name: CString, callbackIndex: int, resolve: Resolver): Option<CString> {
    match o
    case ModuleCompileFailed(c) => Some(ExceptionReport(c))
    case ModuleCompiled(m, requests, link, evaluation) =>
      var refusal := FirstRefusal(requests, cached, name, callbackIndex, resolve);
      if refusal.Some? then Some(NotLoaded(refusal.value.dep)) else LinkFault(link, cached[name := m], evaluation)
  }

  /**
   * The first refused dependency decides the call: its status is returned,
   * the text names it, and the cache is left as it was.
   */
  lemma RefusedDependencyLeavesCache(o: ModuleOutcome, cached: map<CString, ModuleHandle>, name: CString, callbackIndex: int, resolve: Resolver)
    requires o.ModuleCompiled?
    requires FirstRefusal(o.requests, cached, name, callbackIndex, resolve).Some?
    ensures var rf := FirstRefusal(o.requests, cached, name, callbackIndex, resolve).value;
            && ModuleStatus(o, cached, name, callbackIndex, resolve) == rf.code
            && rf.code != 0
            && ModuleFault(o, cached, name, callbackIndex, resolve) == Some("Module (" + rf.dep + ") has not been loaded\n")
            && ModuleCache(o, cached, name, callbackIndex, resolve) == cached
            && ModuleSteps(o, cached, name, callbackIndex, resolve) == []
  {
    FirstRefusalIsFirst(o.requests, cached, name, callbackIndex, resolve);
  }

  /**
   * Once every dependency is settled the module is cached under its name,
   * whatever instantiation and evaluation then do, so a module can resolve
   * itself; an unknown name during instantiation gives status 2 and names it.
   */
  lemma SettledModuleIsCached(o: ModuleOutcome, cached: map<CString, ModuleHandle>, name: CString, callbackIndex: int, resolve: Resolver)
    requires o.ModuleCompiled?
    requires forall k :: 0 <= k < |o.requests| ==> Settled(o.requests[k], cached, name, callbackIndex, resolve)
    ensures ModuleCache(o, cached, name, callbackIndex, resolve) == cached[name := o.compiled]
    ensures name in ModuleCache(o, cached, name, callbackIndex, resolve)
    ensures var u := FirstUnknown(o.link.queries, cached[name := o.compiled]);
            u.Some? ==> && ModuleStatus(o, cached, name, callbackIndex, resolve) == 2
                        && ModuleFault(o, cached, name, callbackIndex, resolve) == Some(NotLoaded(u.value))
                        && u.value != name
  {
    FirstRefusalIsFirst(o.requests, cached, name, callbackIndex, resolve);
  }

  /** `worker_load_module` returns 0 exactly when the module links and its evaluation does not throw. */
  lemma ModuleSucceedsIffEvaluated(o: ModuleOutcome, cached: map<CString, ModuleHandle>, name: CString, callbackIndex: int, resolve: Resolver)
    ensures ModuleStatus(o, cached, name, callbackIndex, resolve) == 0 <==>
              ModuleLinks(o, cached, name, callbackIndex, resolve) && o.evaluation.completion.Returned?
    ensures ModuleStatus(o, cached, name, callbackIndex, resolve) == 0 ==> ModuleFault(o, cached, name, callbackIndex, resolve).None?
  {
    if o.ModuleCompiled? {
      FirstRefusalIsFirst(o.requests, cached, name, callbackIndex, resolve);
    }
  }

  /** `worker_s`: the native state of one worker. The isolate and context are not modelled. */
  class NativeWorker {
    const tableIndex: int
    var lastException: CString
    var recv: Option<JsFunction>
    var modules: map<CString, ModuleHandle>
    /** False once `worker_dispose` has freed the worker. */
    ghost var live: bool

    /** `worker_new`: a fresh worker with its table index, no `recv` function, no modules. */
    constructor (tableIndex: int)
      ensures this.tableIndex == tableIndex
      ensures lastException == "" && recv == None && modules == map[] && live
    {
      this.tableIndex := tableIndex;
      lastException := "";
      recv := None;
      modules := map[];
      live := true;
    }

    /** `worker_dispose`: frees the worker; nothing may use it afterwards. */
    method Dispose()
      requires live
      modifies this`live
      ensures !live
    {
      live := false;
    }

    /** `worker_last_exception`: a `char*` from which a reader gets back the whole stored text. */
    function LastException(): (r: CString)
      reads this
      ensures CStr(r) == lastException
    {
      lastException
    }

    /** `Recv`: stores `f` as the `recv` function, replacing any earlier one. */
    method Recv(f: JsFunction)
      requires live
      modifies this`recv
      ensures recv == Some(f)
    {
      recv := Some(f);
    }

    /** `Send`: routes a message from script to `recvCb` under this worker's table index. */
    method Send(reg: WorkerTable<NativeWorker>, msg: seq<byte>)
      requires live
      requires tableIndex in reg.table
      modifies reg`delivered
      ensures reg.delivered == old(reg.delivered) + [Delivery(tableIndex, reg.table[tableIndex].cb, msg)]
    {
      reg.RecvCb(msg, tableIndex);
    }

    /** V8 running code in this worker: each call it makes into `V8Worker2`, in order. */
    method Execute(reg: WorkerTable<NativeWorker>, steps: seq<ScriptStep>)
      requires live
      requires Outbound(steps) != [] ==> tableIndex in reg.table
      modifies this`recv, reg`delivered
      ensures recv == LastRegistered(old(recv), steps)
      ensures reg.delivered == old(reg.delivered) + Dispatched(reg.table, tableIndex, steps)
    {
      var i := 0;
      while i < |steps|
        invariant 0 <= i <= |steps|
        invariant recv == LastRegistered(old(recv), steps[..i])
        invariant Outbound(steps[..i]) != [] ==> tableIndex in reg.table
        invariant reg.delivered == old(reg.delivered) + Dispatched(reg.table, tableIndex, steps[..i])
      {
        Step(reg, old(reg.delivered), old(recv), steps, i);
        i := i + 1;
      }
      assert steps[..i] == steps;
    }

    /** The call `steps[i]` of a run, taking the state of `Execute` from the first `i` steps to the first `i + 1`. */
    method Step(reg: WorkerTable<NativeWorker>, ghost start: seq<Delivery>, ghost prev: Option<JsFunction>, steps: seq<ScriptStep>, i: int)
      requires live
      requires 0 <= i < |steps|
      requires Outbound(steps) != [] ==> tableIndex in reg.table
      requires Outbound(steps[..i]) != [] ==> tableIndex in reg.table
      requires recv == LastRegistered(prev, steps[..i])
      requires reg.delivered == start + Dispatched(reg.table, tableIndex, steps[..i])
      modifies this`recv, reg`delivered
      ensures Outbound(steps[..i + 1]) != [] ==> tableIndex in reg.table
      ensures recv == LastRegistered(prev, steps[..i + 1])
      ensures reg.delivered == start + Dispatched(reg.table, tableIndex, steps[..i + 1])
    {
      RegisteredStep(prev, steps, i);
      ghost var before := reg.delivered;
      if steps[i].CallRecv? {
        Recv(steps[i].f);
      } else {
        OutboundStep(steps, i);
        Send(reg, steps[i].msg);
      }
      DispatchStep(reg.table, tableIndex, steps, i, start, before, reg.delivered);
    }

    /**
     * `ExceptionString`'s text stored as `last_exception`, as
     * `w->last_exception = ExceptionString(w, &try_catch)` does.
     */
    method Fail(c: Caught)
      requires live
      modifies this`lastException
      ensures lastException == ExceptionReport(c)
    {
      var text := ExceptionString(c);
      lastException := text;
    }

    /** `worker_load`: compiles and runs a classic script. */
    method Load(reg: WorkerTable<NativeWorker>, name: CString, source: CString, outcome: ScriptOutcome) returns (status: int)
      requires live
      requires Outbound(ScriptSteps(outcome)) != [] ==> tableIndex in reg.table
      modifies this`recv, this`lastException, reg`delivered
      ensures status == LoadStatus(outcome)
      ensures lastException == (if LoadFault(outcome).Some? then LoadFault(outcome).value else old(lastException))
      ensures recv == LastRegistered(old(recv), ScriptSteps(outcome))
      ensures reg.delivered == old(reg.delivered) + Dispatched(reg.table, tableIndex, ScriptSteps(outcome))
    {
      match outcome
      case CompileFailed(c) =>
        Fail(c);
        return 1;
      case Compiled(run) =>
        Execute(reg, run.steps);
        if run.completion.Threw? {
          Fail(run.completion.caught);
          return 2;
        }
        return 0;
    }

    /** `worker_send_bytes`: hands a message to the stored `recv` function. */
    method SendBytes(reg: WorkerTable<NativeWorker>, msg: seq<byte>, behaviour: Behaviour) returns (status: int)
      requires live
      requires Outbound(ReactionSteps(Reaction(recv, msg, behaviour))) != [] ==> tableIndex in reg.table
      modifies this`recv, this`lastException, reg`delivered
      ensures var r := Reaction(old(recv), msg, behaviour);
              && status == SendStatus(r)
              && lastException == (if SendFault(r).Some? then SendFault(r).value else old(lastException))
              && recv == LastRegistered(old(recv), ReactionSteps(r))
              && reg.delivered == old(reg.delivered) + Dispatched(reg.table, tableIndex, ReactionSteps(r))
    {
      if recv.None? {
        lastException := RecvNotCalled;
        return 1;
      }
      var run := behaviour(recv.value, msg);
      Execute(reg, run.steps);
      if run.completion.Threw? {
        Fail(run.completion.caught);
        return 2;
      }
      return 0;
    }

    /**
     * `ResolveCallback`: the cached module under the specifier's name; for
     * an unknown name, nothing, with the "has not been loaded" text stored.
     */
    method ResolveCallback(specifier: string) returns (r: Option<ModuleHandle>)
      requires live
      modifies this`lastException
      ensures CStr(specifier) in modules ==> r == Some(modules[CStr(specifier)]) && lastException == old(lastException)
      ensures CStr(specifier) !in modules ==> r == None && lastException == NotLoaded(CStr(specifier))
    {
      var moduleName := CStr(specifier);
      if moduleName !in modules {
        lastException := NotLoaded(moduleName);
        return None;
      }
      return Some(modules[moduleName]);
    }

    /**
     * `InstantiateModule(context, ResolveCallback)`: V8 asks for each of
     * `link.queries` in turn and gives up at the first the callback refuses.
     */
    method Instantiate(link: Linking) returns (ok: bool, caught: Option<Caught>)
      requires live
      modifies this`lastException
      ensures ok <==> Links(link, modules)
      ensures caught == (if FirstUnknown(link.queries, modules).None? && link.verdict.NotInstantiated? then link.verdict.caught else None)
      ensures var u := FirstUnknown(link.queries, modules);
              lastException == (if u.Some? then NotLoaded(u.value) else old(lastException))
    {
      var k := 0;
      while k < |link.queries|
        invariant 0 <= k <= |link.queries|
        invariant FirstUnknown(link.queries[..k], modules).None?
        invariant lastException == old(lastException)
      {
        assert link.queries[..k + 1][..k] == link.queries[..k];
        var found := ResolveCallback(link.queries[k]);
        if found.None? {
          UnknownPrefix(link.queries, k + 1, modules);
          return false, None;
        }
        k := k + 1;
      }
      assert link.queries[..k] == link.queries;
      if link.verdict.NotInstantiated? {
        return false, link.verdict.caught;
      }
      return true, None;
    }

    /**
     * The rest of `worker_load_module` once the module is cached:
     * instantiate it, storing what the `TryCatch` caught when that fails,
     * then evaluate it.
     */
    method LinkAndEvaluate(reg: WorkerTable<NativeWorker>, link: Linking, evaluation: Execution) returns (status: int)
      requires live
      requires Outbound(LinkSteps(link, modules, evaluation)) != [] ==> tableIndex in reg.table
      modifies this`recv, this`lastException, reg`delivered
      ensures status == LinkStatus(link, modules, evaluation)
      ensures var fault := LinkFault(link, modules, evaluation);
              lastException == (if fault.Some? then fault.value else old(lastException))
      ensures recv == LastRegistered(old(recv), LinkSteps(link, modules, evaluation))
      ensures reg.delivered == old(reg.delivered) + Dispatched(reg.table, tableIndex, LinkSteps(link, modules, evaluation))
    {
      var ok, caught := Instantiate(link);
      if !ok {
        if caught.Some? {
          Fail(caught.value);
        }
        return 2;
      }
      Execute(reg, evaluation.steps);
      if evaluation.completion.Threw? {
        Fail(evaluation.completion.caught);
        return 2;
      }
      return 0;
    }

    /**
     * The loop over the module's requests: names already cached are
     * skipped, the others go to `ResolveModule`, and the first nonzero
     * status is stored as a "has not been loaded" text and returned.
     */
    method ResolveDependencies(requests: seq<string>, name: CString, callbackIndex: int, resolve: Resolver) returns (ret: int)
      requires live
      modifies this`lastException
      ensures var rf := FirstRefusal(requests, modules, name, callbackIndex, resolve);
              && (rf.None? ==> ret == 0 && lastException == old(lastException))
              && (rf.Some? ==> ret == rf.value.code && ret != 0 && lastException == NotLoaded(rf.value.dep))
    {
      var i := 0;
      while i < |requests|
        invariant 0 <= i <= |requests|
        invariant FirstRefusal(requests[..i], modules, name, callbackIndex, resolve).None?
        invariant lastException == old(lastException)
      {
        assert requests[..i + 1][..i] == requests[..i];
        var dependencySpecifier := CStr(requests[i]);
        if dependencySpecifier !in modules {
          ret := resolve(dependencySpecifier, name, callbackIndex);
          if ret != 0 {
            RefusalPrefix(requests, i + 1, modules, name, callbackIndex, resolve);
            lastException := NotLoaded(dependencySpecifier);
            return;
          }
        }
        i := i + 1;
      }
      assert requests[..i] == requests;
      return 0;
    }

    /** `worker_load_module`: compiles a module, settles its dependencies, caches, links and evaluates it. */
    method LoadModule(reg: WorkerTable<NativeWorker>, name: CString, source: CString, callbackIndex: int, outcome: ModuleOutcome, resolve: Resolver)
      returns (status: int)
      requires live
      requires Outbound(ModuleSteps(outcome, modules, name, callbackIndex, resolve)) != [] ==> tableIndex in reg.table
      modifies this`recv, this`lastException, this`modules, reg`delivered
      ensures status == ModuleStatus(outcome, old(modules), name, callbackIndex, resolve)
      ensures var fault := ModuleFault(outcome, old(modules), name, callbackIndex, resolve);
              lastException == (if fault.Some? then fault.value else old(lastException))
      ensures modules == ModuleCache(outcome, old(modules), name, callbackIndex, resolve)
      ensures var steps := ModuleSteps(outcome, old(modules), name, callbackIndex, resolve);
              && recv == LastRegistered(old(recv), steps)
              && reg.delivered == old(reg.delivered) + Dispatched(reg.table, tableIndex, steps)
    {
      if outcome.ModuleCompileFailed? {
        Fail(outcome.caught);
        return 1;
      }
      var ret := ResolveDependencies(outcome.requests, name, callbackIndex, resolve);
      if ret != 0 {
        return ret;
      }
      modules := modules[name := outcome.compiled];
      status := LinkAndEvaluate(reg, outcome.link, outcome.evaluation);
    }
  }
}
