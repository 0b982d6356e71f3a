/** Values that cross the boundary between the host engine and the managed
    runtime, the process-wide delegate pointers, and the observable events
    (foreign calls, marshalling, frees) the bridge performs. */
module ClrHost {

  /** CoreClrGcHandle: an opaque reference to a managed object; 0 is NULL. */
  type Handle = nat

  const Null: Handle := 0

  /** The marshal-data type tag; the bridge only ever passes the exception
      tag (V8TypeException, whose numeric value is declared in edge.h). */
  datatype MarshalType = V8TypeException

  /** The host-engine value MarshalCLRToV8 builds from a managed handle. */
  datatype V8Value = V8FromClr(source: Handle, kind: MarshalType)

  /** The context record handed to the managed Initialize delegate. */
  datatype BootstrapperContext = BootstrapperContext(runtimeDirectory: string, applicationDirectory: string, dependencyManifestFile: string)

  /** The delegate pointers with static storage duration: zero (null) until
      create_delegate writes them. */
  datatype DelegateTable = DelegateTable(
    getFunc: nat,
    callFunc: nat,
    continueTask: nat,
    freeHandle: nat,
    freeMarshalData: nat,
    compileFunc: nat,
    initialize: nat)

  /** The table as the process starts. */
  const Unassigned: DelegateTable := DelegateTable(0, 0, 0, 0, 0, 0, 0)

  /** A call through a delegate pointer that is still null, naming the
      delegate: undefined behaviour in the source, a fault here. */
  datatype CallFault = NullDelegateCall(delegate: string)

  /** What the bridge does that a caller can observe. */
  datatype Event =
    | InvokeGetFunc(assemblyFile: string, typeName: string, methodName: string)
    | InvokeCompileFunc(options: nat, payloadType: int)
    | MarshalToV8(handle: Handle, kind: MarshalType)
    | FreeMarshalData(handle: Handle, kind: MarshalType)
    | Bind(clrDirectory: string)
    | RuntimeInitialize(exePath: string, appDomainFriendlyName: string, keys: seq<string>, values: seq<string>)
    | CreateDelegate(name: string)
    | InvokeInitialize(context: BootstrapperContext)
    | InvokeSetCallV8Function

  /** The exception path shared by every caller: marshal the managed
      exception into a host value, then release its marshal data. */
  function ExceptionEvents(ex: Handle): seq<Event> {
    [MarshalToV8(ex, V8TypeException), FreeMarshalData(ex, V8TypeException)]
  }

  /** How many times `h` is released through FreeMarshalData in `trace`. */
  function FreeCount(trace: seq<Event>, h: Handle): nat
    decreases |trace|
  {
    if trace == [] then 0
    else FreeCount(trace[..|trace| - 1], h) + (if trace[|trace| - 1] == FreeMarshalData(h, V8TypeException) then 1 else 0)
  }

  lemma {:induction false} FreeCountAppend(a: seq<Event>, b: seq<Event>, h: Handle)
    ensures FreeCount(a + b, h) == FreeCount(a, h) + FreeCount(b, h)
    decreases |b|
  {
    if b == [] {
      assert a + b == a;
    } else {
      var b' := b[..|b| - 1];
      assert (a + b)[..|a + b| - 1] == a + b';
      FreeCountAppend(a, b', h);
    }
  }

  /** A trace without FreeMarshalData releases nothing. */
  predicate FreesNothing(trace: seq<Event>) {
    forall i :: 0 <= i < |trace| ==> !trace[i].FreeMarshalData?
  }

  lemma {:induction false} FreesNothingCount(trace: seq<Event>, h: Handle)
    requires FreesNothing(trace)
    ensures FreeCount(trace, h) == 0
    decreases |trace|
  {
    if trace != [] {
      FreesNothingCount(trace[..|trace| - 1], h);
    }
  }

  /** The exception events release exactly the exception, exactly once. */
  lemma ExceptionEventsFreeOnce(ex: Handle, h: Handle)
    ensures FreeCount(ExceptionEvents(ex), h) == (if h == ex then 1 else 0)
  {
    var t := ExceptionEvents(ex);
    assert t[..1] == [MarshalToV8(ex, V8TypeException)];
    assert t[..1][..0] == [];
    assert FreeCount(t[..1], h) == 0;
  }

  /** Events that free nothing, then the exception path: exactly the
      exception is freed, exactly once. */
  lemma FreedOnlyByExceptionPath(before: seq<Event>, ex: Handle, h: Handle)
    requires FreesNothing(before)
    ensures FreeCount(before + ExceptionEvents(ex), h) == (if h == ex then 1 else 0)
  {
    FreeCountAppend(before, ExceptionEvents(ex), h);
    FreesNothingCount(before, h);
    ExceptionEventsFreeOnce(ex, h);
  }
}
