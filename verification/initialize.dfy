/** CoreClrEmbedding::Initialize as a short-circuiting step machine.

    Both platform variants run the same steps after building their
    property tables: start the runtime, create seven delegates through
    coreclr_create_delegate, call the managed Initialize, then hand the
    host callback to the managed side through setCallV8Function.  The first
    step that fails decides the result and nothing after it runs.  The
    runtime's answers are a parameter: what coreclr_initialize returns,
    what coreclr_create_delegate does for each name, and which exception
    handle each managed call writes. */
module Initialization {
  import opened Wrappers
  import opened TpaList
  import opened StartupProperties
  import opened ClrHost
  import Bridge

  /** The HRESULT Initialize returns. */
  datatype Status =
    | Ok                        // S_OK
    | Fail                      // E_FAIL
    | CoreClrInitFailure        // StatusCode::CoreClrInitFailure
    | DelegateRefused(hr: int)  // the failing create_delegate HRESULT, passed through

  /** What Initialize raised in the host engine through throwV8Exception
      before returning. */
  datatype Thrown =
    | DelegateLoadError(delegate: string, hr: int)
    | ManagedException(value: V8Value)

  /** An HRESULT for which FAILED holds. */
  type FailureCode = hr: int | hr < 0 witness -1

  /** A delegate pointer coreclr_create_delegate hands back on success. */
  type Address = a: nat | a > 0 witness 1

  /** coreclr_create_delegate's answer for one method name. */
  datatype DelegateResolution = Created(address: Address) | Refused(hr: FailureCode)

  /** The managed runtime as Initialize observes it. */
  datatype Runtime = Runtime(
    initializeHr: int,
    createDelegate: string -> DelegateResolution,
    initializeException: Handle,
    setCallV8FunctionException: Handle)

  /** Where a created delegate is stored: one of the globals, or the local
      setCallV8Function.  No step stores to compileFunc. */
  datatype Slot =
    | GetFuncSlot
    | CallFuncSlot
    | ContinueTaskSlot
    | FreeHandleSlot
    | FreeMarshalDataSlot
    | SetCallV8FunctionSlot
    | InitializeSlot

  /** A CREATE_DELEGATE use: the managed method's name and its slot. */
  datatype Delegate = Delegate(name: string, slot: Slot)

  datatype Step =
    | InitializeRuntime(exePath: string, keys: seq<string>, values: seq<string>)
    | CreateDelegateStep(delegate: Delegate)
    | CallInitialize(context: BootstrapperContext)
    | CallSetCallV8Function

  /** How Initialize ended: a returned status, or a call through a null
      delegate pointer. */
  datatype Outcome = Returned(status: Status) | Faulted(fault: CallFault)

  /** The state between steps.  `outcome` is None while the steps run on. */
  datatype Machine = Machine(
    table: DelegateTable,
    setCallV8Function: nat,
    trace: seq<Event>,
    outcome: Option<Outcome>,
    thrown: Option<Thrown>)

  function SlotValue(m: Machine, s: Slot): nat {
    match s
    case GetFuncSlot => m.table.getFunc
    case CallFuncSlot => m.table.callFunc
    case ContinueTaskSlot => m.table.continueTask
    case FreeHandleSlot => m.table.freeHandle
    case FreeMarshalDataSlot => m.table.freeMarshalData
    case SetCallV8FunctionSlot => m.setCallV8Function
    case InitializeSlot => m.table.initialize
  }

  /** Store a delegate pointer; every other slot, compileFunc and the rest
      of the state stay as they were. */
  function WriteSlot(m: Machine, s: Slot, a: nat): (r: Machine)
    ensures SlotValue(r, s) == a
    ensures forall s' :: s' != s ==> SlotValue(r, s') == SlotValue(m, s')
    ensures r.table.compileFunc == m.table.compileFunc
    ensures r.trace == m.trace && r.outcome == m.outcome && r.thrown == m.thrown
  {
    match s
    case GetFuncSlot => m.(table := m.table.(getFunc := a))
    case CallFuncSlot => m.(table := m.table.(callFunc := a))
    case ContinueTaskSlot => m.(table := m.table.(continueTask := a))
    case FreeHandleSlot => m.(table := m.table.(freeHandle := a))
    case FreeMarshalDataSlot => m.(table := m.table.(freeMarshalData := a))
    case SetCallV8FunctionSlot => m.(setCallV8Function := a)
    case InitializeSlot => m.(table := m.table.(initialize := a))
  }

  /** A managed call followed by the exception check the bridge entry
      points share (Bridge.CheckException): on an exception, marshal it,
      free its marshal data, raise it in the host engine and return E_FAIL. */
  function ManagedCall(m: Machine, call: Event, ex: Handle): (r: Machine)
    requires m.outcome.None? && !call.FreeMarshalData?
    ensures r.table == m.table && r.setCallV8Function == m.setCallV8Function
    ensures m.trace + [call] <= r.trace
    ensures ex == Null ==> r.trace == m.trace + [call] && r.outcome.None? && r.thrown == m.thrown
    ensures ex != Null && m.table.freeMarshalData == 0 ==>
      && r.outcome == Some(Faulted(NullDelegateCall("FreeMarshalData")))
      && r.trace == m.trace + [call] && r.thrown == m.thrown
    ensures ex != Null && m.table.freeMarshalData != 0 ==>
      && r.outcome == Some(Returned(Fail))
      && r.thrown == Some(ManagedException(V8FromClr(ex, V8TypeException)))
      && FreeCount(r.trace, ex) == FreeCount(m.trace, ex) + 1
      && (forall h :: h != ex ==> FreeCount(r.trace, h) == FreeCount(m.trace, h))
      && exists i, j :: |m.trace| <= i < j < |r.trace| && r.trace[i] == MarshalToV8(ex, V8TypeException)
                                                      && r.trace[j] == FreeMarshalData(ex, V8TypeException)
  {
    match Bridge.CheckException(m.table, call, Bridge.DelegateReturn(Null, ex))
    case Failure(fault) => m.(trace := m.trace + [call], outcome := Some(Faulted(fault)))
    case Success(w) =>
      if w.v8Exception.None? then
        m.(trace := m.trace + w.trace)
      else
        assert ex != Null ==> Bridge.HandledException(w, ex);
        assert ex != Null ==> Bridge.HandledAfter(m.trace, w, ex) by {
          if ex != Null { Bridge.HandledExceptionAfter(m.trace, w, ex); }
        }
        m.(trace := m.trace + w.trace, outcome := Some(Returned(Fail)), thrown := Some(ManagedException(w.v8Exception.value)))
  }

  /** One step.  A refused delegate leaves its slot as it was, raises the
      load error and returns the runtime's HRESULT; a created one is stored
      before the next step runs. */
  function RunStep(rt: Runtime, step: Step, m: Machine): (r: Machine)
    requires m.outcome.None?
    ensures m.trace <= r.trace
    ensures r.table.compileFunc == m.table.compileFunc
  {
    match step
    case InitializeRuntime(exe, keys, values) =>
      var m' := m.(trace := m.trace + [RuntimeInitialize(exe, "Edge", keys, values)]);
      if rt.initializeHr < 0 then m'.(outcome := Some(Returned(CoreClrInitFailure))) else m'
    case CreateDelegateStep(d) =>
      var m' := m.(trace := m.trace + [CreateDelegate(d.name)]);
      (match rt.createDelegate(d.name)
       case Created(a) => WriteSlot(m', d.slot, a)
       case Refused(hr) =>
         m'.(outcome := Some(Returned(DelegateRefused(hr))), thrown := Some(DelegateLoadError(d.name, hr))))
    case CallInitialize(context) =>
      if m.table.initialize == 0 then m.(outcome := Some(Faulted(NullDelegateCall("Initialize"))))
      else ManagedCall(m, InvokeInitialize(context), rt.initializeException)
    case CallSetCallV8Function =>
      if m.setCallV8Function == 0 then m.(outcome := Some(Faulted(NullDelegateCall("SetCallV8FunctionDelegate"))))
      else ManagedCall(m, InvokeSetCallV8Function, rt.setCallV8FunctionException)
  }

  /** Run the steps in order until one decides the outcome. */
  function Execute(rt: Runtime, steps: seq<Step>, m: Machine): (r: Machine)
    ensures m.outcome.Some? ==> r == m
    ensures m.trace <= r.trace
    ensures r.table.compileFunc == m.table.compileFunc
    decreases |steps|
  {
    if steps == [] || m.outcome.Some? then m
    else Execute(rt, steps[1..], RunStep(rt, steps[0], m))
  }

  /** Running `a` then `b` is running `a + b`. */
  lemma {:induction false} ExecuteAppend(rt: Runtime, a: seq<Step>, b: seq<Step>, m: Machine)
    ensures Execute(rt, a + b, m) == Execute(rt, b, Execute(rt, a, m))
    decreases |a|
  {
    if a == [] {
      assert a + b == b;
    } else if m.outcome.None? {
      assert (a + b)[0] == a[0] && (a + b)[1..] == a[1..] + b;
      ExecuteAppend(rt, a[1..], b, RunStep(rt, a[0], m));
    }
  }

  /** The first failure decides: when the steps before position k run
      through and step k ends the run, the whole sequence ends exactly
      where step k left it, and nothing after step k runs. */
  lemma FirstFailureDecides(rt: Runtime, steps: seq<Step>, k: nat, m: Machine)
    requires k < |steps|
    requires Execute(rt, steps[..k], m).outcome.None?
    requires RunStep(rt, steps[k], Execute(rt, steps[..k], m)).outcome.Some?
    ensures Execute(rt, steps, m) == RunStep(rt, steps[k], Execute(rt, steps[..k], m))
  {
    var before := Execute(rt, steps[..k], m);
    assert steps == steps[..k] + steps[k..];
    ExecuteAppend(rt, steps[..k], steps[k..], m);
    assert steps[k..][0] == steps[k];
  }

  // ----- The create-delegate phase -----

  /** The CREATE_DELEGATE steps for `ds`, in order. */
  function Creates(ds: seq<Delegate>): (steps: seq<Step>)
    ensures |steps| == |ds|
    decreases |ds|
  {
    if ds == [] then [] else [CreateDelegateStep(ds[0])] + Creates(ds[1..])
  }

  /** The events those steps record, in order. */
  function CreateEvents(ds: seq<Delegate>): (evs: seq<Event>)
    ensures |evs| == |ds|
    decreases |ds|
  {
    if ds == [] then [] else [CreateDelegate(ds[0].name)] + CreateEvents(ds[1..])
  }

  /** How many delegates at the front of `ds` the runtime creates before it
      refuses one (all of them if it refuses none). */
  function CreatedCount(rt: Runtime, ds: seq<Delegate>): (k: nat)
    ensures k <= |ds|
    ensures forall j :: 0 <= j < k ==> rt.createDelegate(ds[j].name).Created?
    ensures k < |ds| ==> rt.createDelegate(ds[k].name).Refused?
    decreases |ds|
  {
    if ds == [] || rt.createDelegate(ds[0].name).Refused? then 0
    else 1 + CreatedCount(rt, ds[1..])
  }

  /** The number of create steps that run: the created ones and the
      refused one, if any. */
  function Reached(rt: Runtime, ds: seq<Delegate>): (n: nat)
    ensures n <= |ds|
  {
    var k := CreatedCount(rt, ds);
    if k < |ds| then k + 1 else k
  }

  /** Every create step that runs records its event, and only those run. */
  lemma {:induction false} CreatesTrace(rt: Runtime, ds: seq<Delegate>, m: Machine)
    requires m.outcome.None?
    ensures Execute(rt, Creates(ds), m).trace == m.trace + CreateEvents(ds[..Reached(rt, ds)])
    decreases |ds|
  {
    if ds == [] {
      assert ds[..0] == [];
    } else {
      var ev := CreateDelegate(ds[0].name);
      var m1 := RunStep(rt, CreateDelegateStep(ds[0]), m);
      assert Creates(ds)[0] == CreateDelegateStep(ds[0]) && Creates(ds)[1..] == Creates(ds[1..]);
      assert CreateEvents(ds[..1]) == [ev];
      if rt.createDelegate(ds[0].name).Created? {
        var n := Reached(rt, ds[1..]);
        CreatesTrace(rt, ds[1..], m1);
        assert ds[..n + 1][1..] == ds[1..][..n];
        AppendAssoc(m.trace, [ev], CreateEvents(ds[1..][..n]));
      }
    }
  }

  /** The run through the create steps stops at the first refusal, which
      returns the runtime's HRESULT and raises the load error; if there is
      none, the run goes on with nothing decided or raised. */
  lemma {:induction false} CreatesOutcome(rt: Runtime, ds: seq<Delegate>, m: Machine)
    requires m.outcome.None?
    ensures var r := Execute(rt, Creates(ds), m);
      var k := CreatedCount(rt, ds);
      if k < |ds| then
        var hr := rt.createDelegate(ds[k].name).hr;
        r.outcome == Some(Returned(DelegateRefused(hr))) && r.thrown == Some(DelegateLoadError(ds[k].name, hr))
      else
        r.outcome.None? && r.thrown == m.thrown
    decreases |ds|
  {
    if ds != [] {
      assert Creates(ds)[0] == CreateDelegateStep(ds[0]) && Creates(ds)[1..] == Creates(ds[1..]);
      if rt.createDelegate(ds[0].name).Created? {
        CreatesOutcome(rt, ds[1..], RunStep(rt, CreateDelegateStep(ds[0]), m));
      }
    }
  }

  /** Only the slots of the delegates created change. */
  lemma {:induction false} CreatesFrame(rt: Runtime, ds: seq<Delegate>, m: Machine, s: Slot)
    requires m.outcome.None?
    requires forall j :: 0 <= j < CreatedCount(rt, ds) ==> ds[j].slot != s
    ensures SlotValue(Execute(rt, Creates(ds), m), s) == SlotValue(m, s)
    decreases |ds|
  {
    if ds != [] {
      assert Creates(ds)[0] == CreateDelegateStep(ds[0]) && Creates(ds)[1..] == Creates(ds[1..]);
      if rt.createDelegate(ds[0].name).Created? {
        var m1 := RunStep(rt, CreateDelegateStep(ds[0]), m);
        assert SlotValue(m1, s) == SlotValue(m, s) by {
          assert ds[0].slot != s;
        }
        forall j | 0 <= j < CreatedCount(rt, ds[1..]) ensures ds[1..][j].slot != s {
          assert ds[1..][j] == ds[j + 1];
        }
        CreatesFrame(rt, ds[1..], m1, s);
      }
    }
  }

  predicate DistinctSlots(ds: seq<Delegate>) {
    forall i, j :: 0 <= i < j < |ds| ==> ds[i].slot != ds[j].slot
  }

  /** Each created delegate is stored in its own slot and stays there. */
  lemma {:induction false} CreatesStore(rt: Runtime, ds: seq<Delegate>, m: Machine, i: nat)
    requires m.outcome.None?
    requires DistinctSlots(ds)
    requires i < CreatedCount(rt, ds)
    ensures SlotValue(Execute(rt, Creates(ds), m), ds[i].slot) == rt.createDelegate(ds[i].name).address
    decreases |ds|
  {
    assert Creates(ds)[0] == CreateDelegateStep(ds[0]) && Creates(ds)[1..] == Creates(ds[1..]);
    var m1 := RunStep(rt, CreateDelegateStep(ds[0]), m);
    if i == 0 {
      forall j | 0 <= j < CreatedCount(rt, ds[1..]) ensures ds[1..][j].slot != ds[0].slot {
        assert ds[1..][j] == ds[j + 1];
      }
      CreatesFrame(rt, ds[1..], m1, ds[0].slot);
    } else {
      assert ds[1..][i - 1] == ds[i];
      CreatesStore(rt, ds[1..], m1, i - 1);
    }
  }

  // ----- The start-up sequence shared by both platforms -----

  /** The CREATE_DELEGATE uses, in source order. */
  const DelegateOrder: seq<Delegate> := [
    Delegate("GetFunc", GetFuncSlot),
    Delegate("CallFunc", CallFuncSlot),
    Delegate("ContinueTask", ContinueTaskSlot),
    Delegate("FreeHandle", FreeHandleSlot),
    Delegate("FreeMarshalData", FreeMarshalDataSlot),
    Delegate("SetCallV8FunctionDelegate", SetCallV8FunctionSlot),
    Delegate("Initialize", InitializeSlot)]

  lemma DelegateOrderSlots()
    ensures |DelegateOrder| == 7 && DistinctSlots(DelegateOrder)
  {
    assert DelegateOrder[0].slot == GetFuncSlot && DelegateOrder[1].slot == CallFuncSlot;
    assert DelegateOrder[2].slot == ContinueTaskSlot && DelegateOrder[3].slot == FreeHandleSlot;
    assert DelegateOrder[4].slot == FreeMarshalDataSlot && DelegateOrder[5].slot == SetCallV8FunctionSlot;
    assert DelegateOrder[6].slot == InitializeSlot;
  }

  /** Everything after the property table is built: start the runtime,
      create the delegates, call the managed Initialize, register the host
      callback. */
  function BootSteps(exe: string, keys: seq<string>, values: seq<string>, context: BootstrapperContext): seq<Step> {
    [InitializeRuntime(exe, keys, values)] + Creates(DelegateOrder) + [CallInitialize(context), CallSetCallV8Function]
  }

  /** The runtime starts, creates every delegate, and neither managed call
      throws. */
  predicate Cooperates(rt: Runtime) {
    && rt.initializeHr >= 0
    && CreatedCount(rt, DelegateOrder) == |DelegateOrder|
    && rt.initializeException == Null
    && rt.setCallV8FunctionException == Null
  }

  /** The sequence runs as its three phases in turn. */
  lemma BootPhases(rt: Runtime, exe: string, keys: seq<string>, values: seq<string>, context: BootstrapperContext, m: Machine)
    requires m.outcome.None?
    ensures Execute(rt, BootSteps(exe, keys, values, context), m)
         == Execute(rt, [CallInitialize(context), CallSetCallV8Function],
                    Execute(rt, Creates(DelegateOrder), RunStep(rt, InitializeRuntime(exe, keys, values), m)))
  {
    var a := [InitializeRuntime(exe, keys, values)];
    var c := Creates(DelegateOrder);
    var d := [CallInitialize(context), CallSetCallV8Function];
    ExecuteAppend(rt, a + c, d, m);
    ExecuteAppend(rt, a, c, m);
    assert Execute(rt, a, m) == RunStep(rt, a[0], m) by {
      assert a[1..] == [];
    }
  }

  /** The runtime fails to start: CoreClrInitFailure, with no delegate
      created, nothing raised and nothing else recorded. */
  lemma BootRuntimeFailure(rt: Runtime, exe: string, keys: seq<string>, values: seq<string>, context: BootstrapperContext, m: Machine)
    requires m.outcome.None?
    requires rt.initializeHr < 0
    ensures Execute(rt, BootSteps(exe, keys, values, context), m)
         == m.(trace := m.trace + [RuntimeInitialize(exe, "Edge", keys, values)], outcome := Some(Returned(CoreClrInitFailure)))
  {
    BootPhases(rt, exe, keys, values, context, m);
  }

  /** The runtime refuses delegate k: its HRESULT is returned, the load
      error names it, and no managed code runs. */
  lemma BootDelegateRefused(rt: Runtime, exe: string, keys: seq<string>, values: seq<string>, context: BootstrapperContext, m: Machine)
    requires m.outcome.None?
    requires rt.initializeHr >= 0
    requires CreatedCount(rt, DelegateOrder) < |DelegateOrder|
    ensures var r := Execute(rt, BootSteps(exe, keys, values, context), m);
      var k := CreatedCount(rt, DelegateOrder);
      var hr := rt.createDelegate(DelegateOrder[k].name).hr;
      && r.outcome == Some(Returned(DelegateRefused(hr)))
      && r.thrown == Some(DelegateLoadError(DelegateOrder[k].name, hr))
      && r.trace == m.trace + [RuntimeInitialize(exe, "Edge", keys, values)] + CreateEvents(DelegateOrder[..k + 1])
  {
    var m1 := RunStep(rt, InitializeRuntime(exe, keys, values), m);
    BootPhases(rt, exe, keys, values, context, m);
    CreatesOutcome(rt, DelegateOrder, m1);
    CreatesTrace(rt, DelegateOrder, m1);
  }

  /** Delegates are not installed atomically: when delegate k is refused,
      every delegate before it is already stored in its slot. */
  lemma BootDelegateRefusedStored(rt: Runtime, exe: string, keys: seq<string>, values: seq<string>, context: BootstrapperContext,
                                  m: Machine, j: nat)
    requires m.outcome.None?
    requires rt.initializeHr >= 0
    requires j < CreatedCount(rt, DelegateOrder) < |DelegateOrder|
    ensures SlotValue(Execute(rt, BootSteps(exe, keys, values, context), m), DelegateOrder[j].slot)
         == rt.createDelegate(DelegateOrder[j].name).address
  {
    var m1 := RunStep(rt, InitializeRuntime(exe, keys, values), m);
    BootPhases(rt, exe, keys, values, context, m);
    CreatesOutcome(rt, DelegateOrder, m1);
    DelegateOrderSlots();
    CreatesStore(rt, DelegateOrder, m1, j);
  }

  /** When delegate k is refused, the slots of the delegates after it keep
      the values they had, since no later create runs. Its own slot keeps
      its value only because a failed create is modelled as writing nothing. */
  lemma BootDelegateRefusedUntouched(rt: Runtime, exe: string, keys: seq<string>, values: seq<string>, context: BootstrapperContext,
                                     m: Machine, j: nat)
    requires m.outcome.None?
    requires rt.initializeHr >= 0
    requires CreatedCount(rt, DelegateOrder) <= j < |DelegateOrder|
    ensures SlotValue(Execute(rt, BootSteps(exe, keys, values, context), m), DelegateOrder[j].slot)
         == SlotValue(m, DelegateOrder[j].slot)
  {
    var m1 := RunStep(rt, InitializeRuntime(exe, keys, values), m);
    BootPhases(rt, exe, keys, values, context, m);
    CreatesOutcome(rt, DelegateOrder, m1);
    DelegateOrderSlots();
    CreatesFrame(rt, DelegateOrder, m1, DelegateOrder[j].slot);
  }

  /** After every delegate is created, each slot holds its delegate. */
  lemma AllCreated(rt: Runtime, exe: string, keys: seq<string>, values: seq<string>, m: Machine)
    requires m.outcome.None?
    requires rt.initializeHr >= 0
    requires CreatedCount(rt, DelegateOrder) == |DelegateOrder|
    ensures var r := Execute(rt, Creates(DelegateOrder), RunStep(rt, InitializeRuntime(exe, keys, values), m));
      && r.outcome.None? && r.thrown == m.thrown
      && r.trace == m.trace + [RuntimeInitialize(exe, "Edge", keys, values)] + CreateEvents(DelegateOrder)
      && forall j :: 0 <= j < |DelegateOrder| ==>
           SlotValue(r, DelegateOrder[j].slot) == rt.createDelegate(DelegateOrder[j].name).address
  {
    var m1 := RunStep(rt, InitializeRuntime(exe, keys, values), m);
    CreatesOutcome(rt, DelegateOrder, m1);
    CreatesTrace(rt, DelegateOrder, m1);
    assert DelegateOrder[..|DelegateOrder|] == DelegateOrder;
    DelegateOrderSlots();
    forall j | 0 <= j < |DelegateOrder|
      ensures SlotValue(Execute(rt, Creates(DelegateOrder), m1), DelegateOrder[j].slot)
           == rt.createDelegate(DelegateOrder[j].name).address
    {
      CreatesStore(rt, DelegateOrder, m1, j);
    }
  }

  /** The managed Initialize throws: its exception is marshalled, freed
      once and raised, E_FAIL is returned, and the host callback is never
      registered. */
  lemma BootInitializeThrows(rt: Runtime, exe: string, keys: seq<string>, values: seq<string>, context: BootstrapperContext, m: Machine)
    requires m.outcome.None?
    requires rt.initializeHr >= 0
    requires CreatedCount(rt, DelegateOrder) == |DelegateOrder|
    requires rt.initializeException != Null
    ensures var r := Execute(rt, BootSteps(exe, keys, values, context), m);
      var ex := rt.initializeException;
      && r.outcome == Some(Returned(Fail))
      && r.thrown == Some(ManagedException(V8FromClr(ex, V8TypeException)))
      && r.trace == m.trace + [RuntimeInitialize(exe, "Edge", keys, values)] + CreateEvents(DelegateOrder)
                    + [InvokeInitialize(context)] + ExceptionEvents(ex)
  {
    BootPhases(rt, exe, keys, values, context, m);
    AllCreated(rt, exe, keys, values, m);
    DelegateOrderSlots();
    var m2 := Execute(rt, Creates(DelegateOrder), RunStep(rt, InitializeRuntime(exe, keys, values), m));
    assert m2.table.initialize != 0 && m2.table.freeMarshalData != 0 by {
      assert DelegateOrder[6].slot == InitializeSlot && DelegateOrder[4].slot == FreeMarshalDataSlot;
    }
    InitializeThrowsAfterCreates(rt, context, m2);
  }

  /** setCallV8Function throws: the same exception path, after the managed
      Initialize has run. */
  lemma BootSetCallV8FunctionThrows(rt: Runtime, exe: string, keys: seq<string>, values: seq<string>, context: BootstrapperContext,
                                    m: Machine)
    requires m.outcome.None?
    requires rt.initializeHr >= 0
    requires CreatedCount(rt, DelegateOrder) == |DelegateOrder|
    requires rt.initializeException == Null
    requires rt.setCallV8FunctionException != Null
    ensures var r := Execute(rt, BootSteps(exe, keys, values, context), m);
      var ex := rt.setCallV8FunctionException;
      && r.outcome == Some(Returned(Fail))
      && r.thrown == Some(ManagedException(V8FromClr(ex, V8TypeException)))
      && r.trace == m.trace + [RuntimeInitialize(exe, "Edge", keys, values)] + CreateEvents(DelegateOrder)
                    + [InvokeInitialize(context), InvokeSetCallV8Function] + ExceptionEvents(ex)
  {
    BootPhases(rt, exe, keys, values, context, m);
    AllCreated(rt, exe, keys, values, m);
    DelegateOrderSlots();
    var m2 := Execute(rt, Creates(DelegateOrder), RunStep(rt, InitializeRuntime(exe, keys, values), m));
    assert m2.table.initialize != 0 && m2.table.freeMarshalData != 0 && m2.setCallV8Function != 0 by {
      assert DelegateOrder[6].slot == InitializeSlot && DelegateOrder[4].slot == FreeMarshalDataSlot;
      assert DelegateOrder[5].slot == SetCallV8FunctionSlot;
    }
    SetCallV8FunctionThrowsAfterInitialize(rt, context, m2);
  }

  /** The exception path of one managed call, event by event. */
  lemma ManagedCallRaises(m: Machine, call: Event, ex: Handle)
    requires m.outcome.None? && !call.FreeMarshalData?
    requires ex != Null && m.table.freeMarshalData != 0
    ensures ManagedCall(m, call, ex)
         == m.(trace := m.trace + [call] + ExceptionEvents(ex),
               outcome := Some(Returned(Fail)),
               thrown := Some(ManagedException(V8FromClr(ex, V8TypeException))))
  {
    AppendAssoc(m.trace, [call], ExceptionEvents(ex));
  }

  /** The managed Initialize throws: setCallV8Function is never reached. */
  lemma InitializeThrowsAfterCreates(rt: Runtime, context: BootstrapperContext, m: Machine)
    requires m.outcome.None?
    requires m.table.initialize != 0 && m.table.freeMarshalData != 0
    requires rt.initializeException != Null
    ensures var ex := rt.initializeException;
      Execute(rt, [CallInitialize(context), CallSetCallV8Function], m)
         == m.(trace := m.trace + [InvokeInitialize(context)] + ExceptionEvents(ex),
               outcome := Some(Returned(Fail)),
               thrown := Some(ManagedException(V8FromClr(ex, V8TypeException))))
  {
    var d := [CallInitialize(context), CallSetCallV8Function];
    ManagedCallRaises(m, InvokeInitialize(context), rt.initializeException);
    var m3 := RunStep(rt, CallInitialize(context), m);
    assert m3.outcome.Some?;
    assert Execute(rt, d, m) == Execute(rt, d[1..], m3);
  }

  /** The managed Initialize passes and setCallV8Function throws. */
  lemma SetCallV8FunctionThrowsAfterInitialize(rt: Runtime, context: BootstrapperContext, m: Machine)
    requires m.outcome.None?
    requires m.table.initialize != 0 && m.setCallV8Function != 0 && m.table.freeMarshalData != 0
    requires rt.initializeException == Null && rt.setCallV8FunctionException != Null
    ensures var ex := rt.setCallV8FunctionException;
      Execute(rt, [CallInitialize(context), CallSetCallV8Function], m)
         == m.(trace := m.trace + [InvokeInitialize(context), InvokeSetCallV8Function] + ExceptionEvents(ex),
               outcome := Some(Returned(Fail)),
               thrown := Some(ManagedException(V8FromClr(ex, V8TypeException))))
  {
    var d := [CallInitialize(context), CallSetCallV8Function];
    var m3 := RunStep(rt, CallInitialize(context), m);
    assert m3 == m.(trace := m.trace + [InvokeInitialize(context)]);
    assert d[1..] == [CallSetCallV8Function];
    assert Execute(rt, d, m) == Execute(rt, [CallSetCallV8Function], m3);
    assert Execute(rt, [CallSetCallV8Function], m3) == RunStep(rt, CallSetCallV8Function, m3) by {
      assert [CallSetCallV8Function][1..] == [];
    }
    ManagedCallRaises(m3, InvokeSetCallV8Function, rt.setCallV8FunctionException);
    AppendAssoc(m.trace, [InvokeInitialize(context)], [InvokeSetCallV8Function]);
  }

  /** The two managed calls without an exception record their calls and
      change nothing else. */
  lemma ManagedCallsPass(rt: Runtime, context: BootstrapperContext, m: Machine)
    requires m.outcome.None?
    requires m.table.initialize != 0 && m.setCallV8Function != 0
    requires rt.initializeException == Null && rt.setCallV8FunctionException == Null
    ensures Execute(rt, [CallInitialize(context), CallSetCallV8Function], m)
         == m.(trace := m.trace + [InvokeInitialize(context), InvokeSetCallV8Function])
  {
    var d := [CallInitialize(context), CallSetCallV8Function];
    var m3 := RunStep(rt, CallInitialize(context), m);
    assert m3 == m.(trace := m.trace + [InvokeInitialize(context)]);
    assert d[1..] == [CallSetCallV8Function];
    assert Execute(rt, d, m) == Execute(rt, [CallSetCallV8Function], m3);
    assert Execute(rt, [CallSetCallV8Function], m3) == RunStep(rt, CallSetCallV8Function, m3) by {
      assert [CallSetCallV8Function][1..] == [];
    }
    AppendAssoc(m.trace, [InvokeInitialize(context)], [InvokeSetCallV8Function]);
  }

  /** A cooperating runtime: nothing is decided or raised, so Initialize
      goes on to return S_OK, and every delegate is stored. */
  lemma BootSucceeds(rt: Runtime, exe: string, keys: seq<string>, values: seq<string>, context: BootstrapperContext, m: Machine)
    requires m.outcome.None?
    requires Cooperates(rt)
    ensures var r := Execute(rt, BootSteps(exe, keys, values, context), m);
      && r.outcome.None? && r.thrown == m.thrown
      && r.trace == m.trace + [RuntimeInitialize(exe, "Edge", keys, values)] + CreateEvents(DelegateOrder)
                    + [InvokeInitialize(context), InvokeSetCallV8Function]
      && forall j :: 0 <= j < |DelegateOrder| ==>
           SlotValue(r, DelegateOrder[j].slot) == rt.createDelegate(DelegateOrder[j].name).address
  {
    BootPhases(rt, exe, keys, values, context, m);
    AllCreated(rt, exe, keys, values, m);
    DelegateOrderSlots();
    var m2 := Execute(rt, Creates(DelegateOrder), RunStep(rt, InitializeRuntime(exe, keys, values), m));
    assert m2.table.initialize != 0 && m2.setCallV8Function != 0 by {
      assert DelegateOrder[6].slot == InitializeSlot && DelegateOrder[5].slot == SetCallV8FunctionSlot;
    }
    ManagedCallsPass(rt, context, m2);
  }

  /** How the sequence ends, whatever the runtime does: it runs through
      exactly when the runtime cooperates; otherwise a failure status is
      returned; a null delegate is never called.  Starting the runtime is
      always recorded first. */
  lemma BootOutcome(rt: Runtime, exe: string, keys: seq<string>, values: seq<string>, context: BootstrapperContext, m: Machine)
    requires m.outcome.None?
    ensures var r := Execute(rt, BootSteps(exe, keys, values, context), m);
      && (r.outcome.None? <==> Cooperates(rt))
      && (r.outcome.Some? ==> r.outcome.value.Returned? && r.outcome.value.status != Ok)
      && m.trace + [RuntimeInitialize(exe, "Edge", keys, values)] <= r.trace
  {
    BootPhases(rt, exe, keys, values, context, m);
    if rt.initializeHr < 0 {
      BootRuntimeFailure(rt, exe, keys, values, context, m);
    } else if CreatedCount(rt, DelegateOrder) < |DelegateOrder| {
      BootDelegateRefused(rt, exe, keys, values, context, m);
    } else if rt.initializeException != Null {
      BootInitializeThrows(rt, exe, keys, values, context, m);
    } else if rt.setCallV8FunctionException != Null {
      BootSetCallV8FunctionThrows(rt, exe, keys, values, context, m);
    } else {
      BootSucceeds(rt, exe, keys, values, context, m);
    }
  }

  /** A cooperating runtime leaves every global Initialize assigns
      holding a delegate. */
  lemma BootReady(rt: Runtime, exe: string, keys: seq<string>, values: seq<string>, context: BootstrapperContext, m: Machine)
    requires m.outcome.None?
    requires Cooperates(rt)
    ensures Ready(Execute(rt, BootSteps(exe, keys, values, context), m).table)
  {
    BootSucceeds(rt, exe, keys, values, context, m);
    DelegateOrderSlots();
    assert DelegateOrder[0].slot == GetFuncSlot && DelegateOrder[1].slot == CallFuncSlot;
    assert DelegateOrder[2].slot == ContinueTaskSlot && DelegateOrder[3].slot == FreeHandleSlot;
    assert DelegateOrder[4].slot == FreeMarshalDataSlot && DelegateOrder[6].slot == InitializeSlot;
  }

  /** Whether `h` is the managed exception the run raised in the host engine. */
  predicate RaisedException(thrown: Option<Thrown>, h: Handle) {
    thrown == Some(ManagedException(V8FromClr(h, V8TypeException)))
  }

  /** One step frees the marshal data of the managed exception it raises,
      once, and nothing else; a step that decides nothing raises nothing. */
  lemma StepFreesRaisedException(rt: Runtime, step: Step, m: Machine, h: Handle)
    requires m.outcome.None? && m.thrown.None?
    ensures var r := RunStep(rt, step, m);
      && FreeCount(r.trace, h) == FreeCount(m.trace, h) + (if RaisedException(r.thrown, h) then 1 else 0)
      && (r.outcome.None? ==> r.thrown.None?)
  {
    var r := RunStep(rt, step, m);
    match step
    case InitializeRuntime(exe, keys, values) =>
      FreeCountAppend(m.trace, [RuntimeInitialize(exe, "Edge", keys, values)], h);
    case CreateDelegateStep(d) =>
      FreeCountAppend(m.trace, [CreateDelegate(d.name)], h);
    case CallInitialize(context) =>
      if m.table.initialize != 0 {
        ManagedCallFreesRaisedException(m, InvokeInitialize(context), rt.initializeException, h);
      }
    case CallSetCallV8Function =>
      if m.setCallV8Function != 0 {
        ManagedCallFreesRaisedException(m, InvokeSetCallV8Function, rt.setCallV8FunctionException, h);
      }
  }

  /** The managed-call part of StepFreesRaisedException. */
  lemma ManagedCallFreesRaisedException(m: Machine, call: Event, ex: Handle, h: Handle)
    requires m.outcome.None? && m.thrown.None? && !call.FreeMarshalData?
    ensures var r := ManagedCall(m, call, ex);
      && FreeCount(r.trace, h) == FreeCount(m.trace, h) + (if RaisedException(r.thrown, h) then 1 else 0)
      && (r.outcome.None? ==> r.thrown.None?)
  {
    FreeCountAppend(m.trace, [call], h);
  }

  /** Any run of steps from a state that has raised nothing frees the
      marshal data of the managed exception it raises, once, and nothing
      else. */
  lemma {:induction false} ExecuteFreesRaisedException(rt: Runtime, steps: seq<Step>, m: Machine, h: Handle)
    requires m.outcome.None? && m.thrown.None?
    ensures var r := Execute(rt, steps, m);
      FreeCount(r.trace, h) == FreeCount(m.trace, h) + (if RaisedException(r.thrown, h) then 1 else 0)
    decreases |steps|
  {
    if steps != [] {
      var m1 := RunStep(rt, steps[0], m);
      StepFreesRaisedException(rt, steps[0], m, h);
      if m1.outcome.None? {
        ExecuteFreesRaisedException(rt, steps[1..], m1, h);
      }
    }
  }

  // ----- The two platform variants -----

  /** What Initialize leaves behind: the HRESULT it returns, the delegate
      globals, what it did, and what it raised in the host engine. */
  datatype InitRun = InitRun(status: Status, table: DelegateTable, trace: seq<Event>, thrown: Option<Thrown>)

  /** The six globals Initialize assigns all hold a delegate. */
  predicate Ready(t: DelegateTable) {
    t.getFunc != 0 && t.callFunc != 0 && t.continueTask != 0 && t.freeHandle != 0
    && t.freeMarshalData != 0 && t.initialize != 0
  }

  /** The process state when the steps start: the globals as they are, the
      local setCallV8Function not yet created, and the runtime library
      bound to its directory. */
  function Start(globals: DelegateTable, clrDirectory: string): Machine {
    Machine(globals, 0, [Bind(clrDirectory)], None, None)
  }

  /** Binding the runtime library comes first, starting the runtime second. */
  lemma BootTraceStart(rt: Runtime, globals: DelegateTable, clrDirectory: string, exe: string, keys: seq<string>,
                       values: seq<string>, context: BootstrapperContext)
    ensures var r := Execute(rt, BootSteps(exe, keys, values, context), Start(globals, clrDirectory));
      |r.trace| >= 2 && r.trace[0] == Bind(clrDirectory) && r.trace[1] == RuntimeInitialize(exe, "Edge", keys, values)
  {
    var m0 := Start(globals, clrDirectory);
    var r := Execute(rt, BootSteps(exe, keys, values, context), m0);
    var p := m0.trace + [RuntimeInitialize(exe, "Edge", keys, values)];
    assert p <= r.trace by {
      BootOutcome(rt, exe, keys, values, context, m0);
    }
    assert |p| == 2 && p[0] == Bind(clrDirectory) && p[1] == RuntimeInitialize(exe, "Edge", keys, values);
  }

  /** The result of a run that decided nothing is S_OK. */
  function Report(m: Machine): InitRun
    requires m.outcome.None? || m.outcome.value.Returned?
  {
    InitRun(if m.outcome.None? then Ok else m.outcome.value.status, m.table, m.trace, m.thrown)
  }

  /** The common ending of both variants: run the steps from `Start`. */
  function Run(rt: Runtime, globals: DelegateTable, clrDirectory: string, exe: string, t: PropertyTable,
               context: BootstrapperContext): (r: InitRun)
    requires |t.keys| == |t.values|
    ensures r.table.compileFunc == globals.compileFunc
    ensures r.status == Ok <==> Cooperates(rt)
    ensures r.status == Ok ==> Ready(r.table)
    ensures |r.trace| >= 2 && r.trace[0] == Bind(clrDirectory)
    ensures r.trace[1] == RuntimeInitialize(exe, "Edge", KeyNames(t.keys), t.values)
  {
    var m0 := Start(globals, clrDirectory);
    var m := Execute(rt, BootSteps(exe, KeyNames(t.keys), t.values, context), m0);
    assert (m.outcome.None? <==> Cooperates(rt)) && (m.outcome.Some? ==> m.outcome.value.Returned? && m.outcome.value.status != Ok) by {
      BootOutcome(rt, exe, KeyNames(t.keys), t.values, context, m0);
    }
    assert |m.trace| >= 2 && m.trace[0] == Bind(clrDirectory)
        && m.trace[1] == RuntimeInitialize(exe, "Edge", KeyNames(t.keys), t.values) by {
      BootTraceStart(rt, globals, clrDirectory, exe, KeyNames(t.keys), t.values, context);
    }
    assert Cooperates(rt) ==> Ready(m.table) by {
      if Cooperates(rt) {
        BootReady(rt, exe, KeyNames(t.keys), t.values, context, m0);
      }
    }
    Report(m)
  }

  /** Initialize frees the marshal data of exactly the managed exception it
      raises in the host engine, once, and frees nothing else. */
  lemma RunFreesRaisedException(rt: Runtime, globals: DelegateTable, clrDirectory: string, exe: string, t: PropertyTable,
                                context: BootstrapperContext, h: Handle)
    requires |t.keys| == |t.values|
    ensures var r := Run(rt, globals, clrDirectory, exe, t, context);
      FreeCount(r.trace, h) == if RaisedException(r.thrown, h) then 1 else 0
  {
    var m0 := Start(globals, clrDirectory);
    assert FreeCount(m0.trace, h) == 0 by {
      assert m0.trace[..0] == [];
    }
    ExecuteFreesRaisedException(rt, BootSteps(exe, KeyNames(t.keys), t.values, context), m0, h);
  }

  /** The context the POSIX variant hands to the managed Initialize. */
  const PosixContext := BootstrapperContext("a", "b", PosixDepsFile)

  /** CoreClrEmbedding::Initialize on POSIX: scan the hard-coded runtime
      directory, build the POSIX table, bind the runtime library, then run
      the steps with the bootstrapper path from N_EDGE_BOOTSTRAPPER_PATH. */
  function InitializePosix(env: map<string, string>, listing: Option<seq<DirEntry>>, rt: Runtime, globals: DelegateTable): (r: InitRun)
    ensures r.table.compileFunc == globals.compileFunc
    ensures r.status == Ok <==> Cooperates(rt)
    ensures r.status == Ok ==> Ready(r.table)
    ensures |r.trace| >= 2 && r.trace[0] == Bind(PosixClrDirectory)
    ensures var t := PosixProperties(AddToTpaList(Posix, PosixClrDirectory, listing, ""));
      r.trace[1] == RuntimeInitialize(GetEnvVar(env, BootstrapperPathVar), "Edge", KeyNames(t.keys), t.values)
  {
    var t := PosixProperties(AddToTpaList(Posix, PosixClrDirectory, listing, ""));
    Run(rt, globals, PosixClrDirectory, GetEnvVar(env, BootstrapperPathVar), t, PosixContext)
  }

  /** CoreClrEmbedding::Initialize on Windows: without a working directory
      it returns E_FAIL before anything else; otherwise it scans the
      directory named by N_EDGE_CLR_DIR, builds the Windows table, binds the
      runtime library, then runs the steps with the bootstrapper path from
      N_EDGE_BOOTSTRAPPER_PATH. */
  function InitializeWindows(env: map<string, string>, cwd: Option<string>, listing: Option<seq<DirEntry>>, rt: Runtime,
                             globals: DelegateTable): (r: InitRun)
    ensures cwd.None? ==> r == InitRun(Fail, globals, [], None)
    ensures r.table.compileFunc == globals.compileFunc
    ensures cwd.Some? ==> (r.status == Ok <==> Cooperates(rt))
    ensures r.status == Ok ==> Ready(r.table)
    ensures cwd.Some? ==>
      var clrdir := GetEnvVar(env, ClrDirVar);
      var t := WindowsProperties(env, cwd.value, AddToTpaList(Windows, clrdir, listing, ""));
      && |r.trace| >= 2 && r.trace[0] == Bind(clrdir)
      && r.trace[1] == RuntimeInitialize(GetEnvVar(env, BootstrapperPathVar), "Edge", KeyNames(t.keys), t.values)
  {
    if cwd.None? then InitRun(Fail, globals, [], None)
    else
      var clrdir := GetEnvVar(env, ClrDirVar);
      var t := WindowsProperties(env, cwd.value, AddToTpaList(Windows, clrdir, listing, ""));
      Run(rt, globals, clrdir, GetEnvVar(env, BootstrapperPathVar), t, BootstrapperContext("a", "b", WindowsDepsFile(env)))
  }

  /** Initialize never resolves compileFunc: started from the process's
      null globals, CompileFunc afterwards calls through a null pointer on
      either platform, whatever the runtime does. */
  lemma CompileFuncNeverResolved(env: map<string, string>, cwd: Option<string>, listing: Option<seq<DirEntry>>, rt: Runtime,
                                 options: nat, payloadType: int, out: Bridge.DelegateReturn)
    ensures Bridge.CompileFunc(InitializePosix(env, listing, rt, Unassigned).table, options, payloadType, out)
         == Failure(NullDelegateCall("CompileFunc"))
    ensures Bridge.CompileFunc(InitializeWindows(env, cwd, listing, rt, Unassigned).table, options, payloadType, out)
         == Failure(NullDelegateCall("CompileFunc"))
  {
  }

  /** After a successful Initialize, GetClrFuncReflectionWrapFunc calls a
      real delegate: it either passes the function handle through or
      handles the managed exception. */
  lemma GetFuncReadyAfterSuccess(r: InitRun, assemblyFile: string, typeName: string, methodName: string,
                                 out: Bridge.DelegateReturn)
    requires r.status == Ok && Ready(r.table)
    ensures var w := Bridge.GetClrFuncReflectionWrapFunc(r.table, assemblyFile, typeName, methodName, out);
      && w.Success?
      && (out.exception == Null ==> Bridge.PassedThrough(w.value, out.functionHandle))
      && (out.exception != Null ==> Bridge.HandledException(w.value, out.exception))
  {
  }
}
