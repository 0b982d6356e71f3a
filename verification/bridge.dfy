/** The two bridge entry points with logic of their own:
    GetClrFuncReflectionWrapFunc and CompileFunc.  Each calls one managed
    delegate, which returns a function handle and writes an exception
    handle; on an exception the wrapper marshals it into a host value,
    frees its marshal data once and returns NULL.

    The delegate itself is foreign: its outcome for the given arguments is
    a parameter.  Calling through a delegate pointer that was never
    assigned is a null-pointer call, modelled as a fault. */
module Bridge {
  import opened Wrappers
  import opened ClrHost

  /** What the managed delegate returned: the function handle and the
      exception handle it wrote to its out-parameter. */
  datatype DelegateReturn = DelegateReturn(functionHandle: Handle, exception: Handle)

  /** What a wrapper returns, what it stored through its `v8Exception`
      out-parameter (None when it left it untouched), and what it did. */
  datatype Wrapped = Wrapped(returned: Handle, v8Exception: Option<V8Value>, trace: seq<Event>)

  /** The exception was handled: NULL returned, the exception marshalled
      before its data was freed, and freed exactly once; nothing else freed. */
  ghost predicate HandledException(w: Wrapped, ex: Handle) {
    && w.returned == Null
    && w.v8Exception == Some(V8FromClr(ex, V8TypeException))
    && FreeCount(w.trace, ex) == 1
    && (forall h :: h != ex ==> FreeCount(w.trace, h) == 0)
    && exists i, j :: 0 <= i < j < |w.trace| && w.trace[i] == MarshalToV8(ex, V8TypeException)
                                              && w.trace[j] == FreeMarshalData(ex, V8TypeException)
  }

  /** The function handle passed through and nothing freed or written. */
  predicate PassedThrough(w: Wrapped, functionHandle: Handle) {
    && w.returned == functionHandle
    && w.v8Exception.None?
    && FreesNothing(w.trace)
  }

  /** What HandledException says about the wrapper's own events, stated
      for the whole trace once `before` precedes them. */
  ghost predicate HandledAfter(before: seq<Event>, w: Wrapped, ex: Handle) {
    var t := before + w.trace;
    && FreeCount(t, ex) == FreeCount(before, ex) + 1
    && (forall h :: h != ex ==> FreeCount(t, h) == FreeCount(before, h))
    && exists i, j :: |before| <= i < j < |t| && t[i] == MarshalToV8(ex, V8TypeException)
                                                && t[j] == FreeMarshalData(ex, V8TypeException)
  }

  /** A handled exception stays handled after any earlier events: the one
      free is added to whatever was freed before, after its marshal. */
  lemma HandledExceptionAfter(before: seq<Event>, w: Wrapped, ex: Handle)
    requires HandledException(w, ex)
    ensures HandledAfter(before, w, ex)
  {
    var t := before + w.trace;
    forall h ensures FreeCount(t, h) == FreeCount(before, h) + FreeCount(w.trace, h) {
      FreeCountAppend(before, w.trace, h);
    }
    var i, j :| 0 <= i < j < |w.trace| && w.trace[i] == MarshalToV8(ex, V8TypeException)
                                       && w.trace[j] == FreeMarshalData(ex, V8TypeException);
    assert t[|before| + i] == w.trace[i] && t[|before| + j] == w.trace[j];
  }

  /** The check both wrappers perform after the delegate returns. */
  function CheckException(table: DelegateTable, call: Event, out: DelegateReturn): (r: Result<Wrapped, CallFault>)
    requires !call.FreeMarshalData?
    ensures out.exception != Null ==>
      if table.freeMarshalData == 0 then r == Failure(NullDelegateCall("FreeMarshalData"))
      else r.Success? && HandledException(r.value, out.exception) && |r.value.trace| > 0 && r.value.trace[0] == call
    ensures out.exception == Null ==> r.Success? && PassedThrough(r.value, out.functionHandle) && r.value.trace == [call]
  {
    if out.exception != Null then
      if table.freeMarshalData == 0 then Failure(NullDelegateCall("FreeMarshalData"))
      else
        var ex := out.exception;
        var trace := [call] + ExceptionEvents(ex);
        assert trace[1] == MarshalToV8(ex, V8TypeException) && trace[2] == FreeMarshalData(ex, V8TypeException);
        assert forall h :: FreeCount(trace, h) == (if h == ex then 1 else 0) by {
          forall h ensures FreeCount(trace, h) == (if h == ex then 1 else 0) {
            FreedOnlyByExceptionPath([call], ex, h);
          }
        }
        Success(Wrapped(Null, Some(V8FromClr(ex, V8TypeException)), trace))
    else
      Success(Wrapped(out.functionHandle, None, [call]))
  }

  /** CoreClrEmbedding::GetClrFuncReflectionWrapFunc: resolve
      assemblyFile/typeName/methodName through the GetFunc delegate. */
  function GetClrFuncReflectionWrapFunc(table: DelegateTable, assemblyFile: string, typeName: string, methodName: string,
                                        out: DelegateReturn): (r: Result<Wrapped, CallFault>)
    ensures table.getFunc == 0 ==> r == Failure(NullDelegateCall("GetFunc"))
    ensures table.getFunc != 0 && out.exception != Null && table.freeMarshalData != 0 ==>
      r.Success? && HandledException(r.value, out.exception)
    ensures table.getFunc != 0 && out.exception != Null && table.freeMarshalData == 0 ==>
      r == Failure(NullDelegateCall("FreeMarshalData"))
    ensures table.getFunc != 0 && out.exception == Null ==> r.Success? && PassedThrough(r.value, out.functionHandle)
    ensures r.Success? ==> |r.value.trace| > 0 && r.value.trace[0] == InvokeGetFunc(assemblyFile, typeName, methodName)
  {
    if table.getFunc == 0 then Failure(NullDelegateCall("GetFunc"))
    else CheckException(table, InvokeGetFunc(assemblyFile, typeName, methodName), out)
  }

  /** CoreClrEmbedding::CompileFunc: compile through the CompileFunc
      delegate. */
  function CompileFunc(table: DelegateTable, options: nat, payloadType: int, out: DelegateReturn): (r: Result<Wrapped, CallFault>)
    ensures table.compileFunc == 0 ==> r == Failure(NullDelegateCall("CompileFunc"))
    ensures table.compileFunc != 0 && out.exception != Null && table.freeMarshalData != 0 ==>
      r.Success? && HandledException(r.value, out.exception)
    ensures table.compileFunc != 0 && out.exception != Null && table.freeMarshalData == 0 ==>
      r == Failure(NullDelegateCall("FreeMarshalData"))
    ensures table.compileFunc != 0 && out.exception == Null ==> r.Success? && PassedThrough(r.value, out.functionHandle)
    ensures r.Success? ==> |r.value.trace| > 0 && r.value.trace[0] == InvokeCompileFunc(options, payloadType)
  {
    if table.compileFunc == 0 then Failure(NullDelegateCall("CompileFunc"))
    else CheckException(table, InvokeCompileFunc(options, payloadType), out)
  }
}
