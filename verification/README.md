# edge.js CoreCLR embedding: start-up and bridge model

This project models the native side of the edge.js CoreCLR embedding
(`src/CoreCLREmbedding/coreclrembedding.cpp`). That code boots a .NET Core
runtime inside a Node.js or Electron process and wires up the delegates
through which JavaScript calls managed code. The model covers four parts:

- **The TPA builder `AddToTpaList`** (module `TpaList`). It scans the
  runtime directory once for each of the extensions `.ni.dll`, `.dll`,
  `.ni.exe` and `.exe`. Each accepted file adds `dir + separator + name +
  delimiter` to the trusted-platform-assembly list. A file is accepted
  unless the name without the matched extension was already recorded.
  - The fold is proved equal to a reference definition: every
    (pass, entry) match in visit order, keeping the first one for each key.
  - The Windows variant as written is modelled separately (module
    `TpaListWindows`), including its unsigned extension position.
- **The start-up property tables and `get_env_var`** (module
  `StartupProperties`). These are the two parallel key/value vectors
  handed to `coreclr_initialize` on POSIX and on Windows.
- **`CoreClrEmbedding::Initialize`** (module `Initialization`). It is a
  short-circuiting step machine:
  1. Start the runtime.
  2. Run the seven `CREATE_DELEGATE` uses.
  3. Call the managed `Initialize`.
  4. Call `setCallV8Function`.

  The first failing step decides the status and the value raised in the
  host engine, and no later step runs. The runtime's answers are a
  parameter (`Runtime`).
- **The two bridge entry points with logic of their own:**
  `GetClrFuncReflectionWrapFunc` and `CompileFunc` (module `Bridge`). Each
  one checks the managed exception, marshals it, frees its marshal data
  once and returns NULL. Otherwise it passes the function handle through.

Observable effects are recorded as a trace of `ClrHost.Event`s. These are
binding the runtime, `coreclr_initialize`, each `create_delegate`, each
managed call, marshalling and `FreeMarshalData`. The process-wide delegate
pointers are a `ClrHost.DelegateTable`, where 0 is a null pointer. A call
through a null pointer is undefined behaviour in C++; here it is a
`CallFault`.

## Model

All source cells refer to `src/CoreCLREmbedding/coreclrembedding.cpp`.

| member | source | states |
|---|---|---|
| TpaList.AddToTpaList | src/CoreCLREmbedding/coreclrembedding.cpp:466-556 | A directory that cannot be opened leaves the list unchanged. Otherwise the list only grows: the old list is a prefix of the new one. |
| TpaList.StripExtension | src/CoreCLREmbedding/coreclrembedding.cpp:530-536 | The de-duplication key plus the matched extension gives back the file name, and the key is never empty (the `extPos <= 0` guard). |
| TpaList.AddToTpaListAppendsAccepted | src/CoreCLREmbedding/coreclrembedding.cpp:466-556 | The four-pass scan appends, after the old list, exactly one chunk for each accepted file, in the order given by the reference definition `Accepted`. |
| TpaList.AcceptedAreAdmittedMatches | src/CoreCLREmbedding/coreclrembedding.cpp:495-536 | Every accepted file passes these checks: it is a listing entry that is a regular file (or stats as one), its name is longer than its pass's extension and ends in it, and its key is the name without that extension. |
| TpaList.AcceptedInVisitOrder | src/CoreCLREmbedding/coreclrembedding.cpp:484-553 | Files are appended in visit order: an earlier extension pass comes first, and within a pass the order is the listing order. |
| TpaList.AcceptedKeysDistinct | src/CoreCLREmbedding/coreclrembedding.cpp:480-548 | No two appended files share a key (the name without the matched extension). |
| TpaList.AcceptedIsEarliestPerKey | src/CoreCLREmbedding/coreclrembedding.cpp:467-548 | Every key that any admitted entry yields in any pass is appended once. The file appended for it is the first one with that key: earliest pass (native images first), then earliest in the listing. |
| TpaList.NativeImageAppendedTwice | src/CoreCLREmbedding/coreclrembedding.cpp:467-548 | `foo.ni.dll` is appended twice: once under key `foo` in the `.ni.dll` pass and once under key `foo.ni` in the `.dll` pass. |
| TpaList.FirstByKeyCovers | src/CoreCLREmbedding/coreclrembedding.cpp:540-548 | De-duplication drops no key: the kept matches cover every key of the input that was not seen before. |
| TpaList.FirstByKeyEarliest | src/CoreCLREmbedding/coreclrembedding.cpp:540-548 | For every key, the match kept is never preceded in visit order by another match with the same key. |
| TpaList.ScanPassesIsFirstByKey | src/CoreCLREmbedding/coreclrembedding.cpp:480-553 | The pass loop with its persistent set of recorded keys equals the reference definition: the first match per key over all passes, with the set holding exactly the keys seen. |
| TpaList.AllMatchesComplete | src/CoreCLREmbedding/coreclrembedding.cpp:492-534 | Every admitted entry carrying a pass's extension is a match of that pass: no file is skipped. |
| TpaListWindows.AsWrittenThrowsIffShortName | src/CoreCLREmbedding/coreclrembedding.cpp:179-252 | The Windows builder as written throws exactly when some non-directory entry has a name shorter than `.ni.dll`. Otherwise it returns what the corrected builder returns. |
| TpaListWindows.ExtensionPosition | src/CoreCLREmbedding/coreclrembedding.cpp:221 | The `size_t` extension position is the length difference when the name is long enough. Otherwise it wraps to a value past the end of the name. |
| TpaListWindows.WinScanPassesAgree | src/CoreCLREmbedding/coreclrembedding.cpp:210-248 | Without too-short names, the Windows pass loop computes exactly what the shared pass loop computes with `\` and `;`. |
| TpaListWindows.WinScanPassThrows | src/CoreCLREmbedding/coreclrembedding.cpp:221-226 | A pass over a listing that holds a non-directory entry shorter than the pass's extension ends in the exception. |
| TpaListWindows.ShortAssemblyNameThrows | src/CoreCLREmbedding/coreclrembedding.cpp:221-226 | With `a.dll` in the runtime directory, the Windows builder as written throws. |
| TpaListWindows.ShortAssemblyNameAccepted | src/CoreCLREmbedding/coreclrembedding.cpp:221-239 | With the signed position, `a.dll` is appended once, in the `.dll` pass. |
| StartupProperties.GetEnvVar | src/CoreCLREmbedding/coreclrembedding.cpp:706-714 | A set variable yields its value; an unset one yields the empty string. |
| StartupProperties.ValueOf | src/CoreCLREmbedding/coreclrembedding.cpp:393-398 | Reading a key back from the parallel vectors gives nothing exactly when the key is absent. Otherwise it gives the value at the key's position. |
| StartupProperties.PosixProperties | src/CoreCLREmbedding/coreclrembedding.cpp:582-610 | The POSIX table has six distinct keys. TPA reads back as the scanned list; the three path keys read back as the hard-coded application directory; both runtime flags read back as "false"; no other key is present. |
| StartupProperties.WindowsProperties | src/CoreCLREmbedding/coreclrembedding.cpp:327-379 | The Windows table has nine distinct keys, each reading back as follows. TPA is the scan followed by N_EDGE_NUGET_DLLS. The app paths and base directory are N_EDGE_APP_DIR, the native-image path is the working directory, and the native search path is N_EDGE_CLR_DIR. The resource roots are empty, and the compatibility switch is set. The two manifest paths are built from the environment. |
| StartupProperties.PlatformsDiffer | src/CoreCLREmbedding/coreclrembedding.cpp:343-610 | Both tables pair TRUSTED_PLATFORM_ASSEMBLIES with the scanned list: it reads back as the scan on POSIX and as the scan followed by N_EDGE_NUGET_DLLS on Windows. Only the POSIX key vector holds System.GC.Server, and only the Windows key vector holds FX_DEPS_FILE. Which entries the runtime reads depends on the count argument, which is left out. |
| StartupProperties.UnsetEnvironment | src/CoreCLREmbedding/coreclrembedding.cpp:316-379 | With N_EDGE_CLR_DIR, N_EDGE_APP_DIR and N_EDGE_NUGET_DLLS unset, the TPA value is exactly the scan, and the application and native search paths are empty. |
| StartupProperties.UnsetEnvironmentManifests | src/CoreCLREmbedding/coreclrembedding.cpp:336-340 | With the directory variables unset, both dependency manifests lose their directory part. The application manifest becomes `\NugetTest.deps.json`, a path from the root of the current drive. The framework manifest becomes `Microsoft.NETCore.App.deps.json`, relative to the working directory. |
| StartupProperties.KeyNamesDistinct | src/CoreCLREmbedding/coreclrembedding.cpp:343-354 | Different property keys are different strings to the runtime. |
| Initialization.WriteSlot | src/CoreCLREmbedding/coreclrembedding.cpp:42-50 | A created delegate is stored in its own slot. Every other slot, compileFunc and the rest of the state are unchanged. |
| Initialization.ManagedCall | src/CoreCLREmbedding/coreclrembedding.cpp:428-437 | Built on the bridge's exception check. With no exception, the call is recorded and nothing is decided, raised or freed. With an exception, E_FAIL is returned and the marshalled exception is raised. Its marshal data is freed exactly once more than before, after its marshal event, and no other handle is freed. If freeMarshalData is still null, that free is a null call. |
| Initialization.StepFreesRaisedException | src/CoreCLREmbedding/coreclrembedding.cpp:393-454 | Every start-up step frees the marshal data of the managed exception it raises, once, and nothing else. A step that decides nothing raises nothing. |
| Initialization.ExecuteFreesRaisedException | src/CoreCLREmbedding/coreclrembedding.cpp:393-463 | Any run of start-up steps from a state that has raised nothing frees exactly the managed exception it raises, once, on top of what was freed before. |
| Initialization.RunFreesRaisedException | src/CoreCLREmbedding/coreclrembedding.cpp:423-454 | However Initialize ends, its trace frees the marshal data of exactly the managed exception it raised in the host engine, once, and frees nothing else. |
| Initialization.Execute | src/CoreCLREmbedding/coreclrembedding.cpp:393-463 | Once a step has decided the outcome, nothing more runs. The trace only grows, and compileFunc is never written. |
| Initialization.ExecuteAppend | src/CoreCLREmbedding/coreclrembedding.cpp:393-463 | Running two step sequences one after the other equals running their concatenation. |
| Initialization.FirstFailureDecides | src/CoreCLREmbedding/coreclrembedding.cpp:393-419 | If step k is the first to decide the outcome, the whole run ends in exactly the state step k left, and no later step runs. |
| Initialization.CreatedCount | src/CoreCLREmbedding/coreclrembedding.cpp:413-419 | Counts the delegates the runtime creates before the first refusal. Each counted delegate is created, and the delegate after them, if any, is refused. |
| Initialization.CreatesTrace | src/CoreCLREmbedding/coreclrembedding.cpp:42-58 | The create steps record one create_delegate event for each delegate reached (the created ones and the refused one) and nothing else. |
| Initialization.CreatesOutcome | src/CoreCLREmbedding/coreclrembedding.cpp:51-55 | The first refusal returns the runtime's HRESULT and raises a load error naming that delegate and HRESULT. Without a refusal, nothing is decided or raised. |
| Initialization.CreatesStore | src/CoreCLREmbedding/coreclrembedding.cpp:42-50 | Each created delegate ends up in its own slot. |
| Initialization.CreatesFrame | src/CoreCLREmbedding/coreclrembedding.cpp:42-50 | A slot that no created delegate owns keeps its value. |
| Initialization.BootRuntimeFailure | src/CoreCLREmbedding/coreclrembedding.cpp:393-406 | When coreclr_initialize fails: CoreClrInitFailure, no delegate created, nothing raised, and only the initialize call recorded. |
| Initialization.BootDelegateRefused | src/CoreCLREmbedding/coreclrembedding.cpp:413-419 | When delegate k is refused, its HRESULT is returned and the raised error names it. The trace stops at that delegate, so no managed code runs. |
| Initialization.BootDelegateRefusedStored | src/CoreCLREmbedding/coreclrembedding.cpp:413-419 | Delegates are not installed atomically: the delegates before the refused one stay stored. |
| Initialization.BootDelegateRefusedUntouched | src/CoreCLREmbedding/coreclrembedding.cpp:413-419 | The slots of the delegates after the refused one keep their previous values, since no later `CREATE_DELEGATE` runs. The refused delegate's own slot also keeps its value, but only by the no-write-on-failure assumption under "## Left out". |
| Initialization.BootInitializeThrows | src/CoreCLREmbedding/coreclrembedding.cpp:423-437 | An exception from the managed Initialize is marshalled, freed once and raised, E_FAIL is returned, and setCallV8Function is never called. |
| Initialization.BootSetCallV8FunctionThrows | src/CoreCLREmbedding/coreclrembedding.cpp:444-454 | An exception from setCallV8Function takes the same path, after the managed Initialize has run. |
| Initialization.BootSucceeds | src/CoreCLREmbedding/coreclrembedding.cpp:393-463 | A cooperating runtime leads to the full trace with nothing decided or raised, and every delegate is stored in its slot. |
| Initialization.BootOutcome | src/CoreCLREmbedding/coreclrembedding.cpp:393-463 | The run reaches the end exactly when the runtime cooperates. Otherwise a failure status is returned and no null delegate is called. The initialize call is always recorded first. |
| Initialization.BootTraceStart | src/CoreCLREmbedding/coreclrembedding.cpp:382-400 | Binding the runtime library is recorded first and coreclr_initialize second. |
| Initialization.Run | src/CoreCLREmbedding/coreclrembedding.cpp:382-463 | S_OK is returned exactly when the runtime cooperates, and then all six globals hold delegates. compileFunc is never written. The trace starts with the bind, then coreclr_initialize with "Edge" and the table's key names and values. |
| Initialization.InitializePosix | src/CoreCLREmbedding/coreclrembedding.cpp:557-702 | POSIX start-up: it scans the hard-coded runtime directory and passes the POSIX table and the N_EDGE_BOOTSTRAPPER_PATH executable. S_OK is returned exactly when the runtime cooperates. |
| Initialization.InitializeWindows | src/CoreCLREmbedding/coreclrembedding.cpp:274-464 | Windows start-up. With no working directory it returns E_FAIL before doing anything. Otherwise it scans N_EDGE_CLR_DIR, binds it, and passes the Windows table; S_OK is returned exactly when the runtime cooperates. |
| Initialization.CompileFuncNeverResolved | src/CoreCLREmbedding/coreclrembedding.cpp:764-769 | Initialize never assigns compileFunc. From the process's null globals, CompileFunc therefore calls through a null pointer after start-up on either platform. |
| Initialization.GetFuncReadyAfterSuccess | src/CoreCLREmbedding/coreclrembedding.cpp:718-738 | After a successful start-up, GetClrFuncReflectionWrapFunc reaches a real delegate. It passes the function handle through or handles the exception. |
| Bridge.CheckException | src/CoreCLREmbedding/coreclrembedding.cpp:725-737 | With an exception: NULL returned, the host value stored, and the exception marshalled before its data is freed exactly once, with nothing else freed. Without one: the handle is passed through and nothing is freed or stored. |
| Bridge.GetClrFuncReflectionWrapFunc | src/CoreCLREmbedding/coreclrembedding.cpp:718-738 | A null getFunc is a null call. Otherwise the GetFunc call comes first, and the exception is either handled or passed through as in the exception check above. An exception with freeMarshalData still null is a null call to FreeMarshalData. |
| Bridge.CompileFunc | src/CoreCLREmbedding/coreclrembedding.cpp:764-784 | A null compileFunc is a null call. Otherwise the CompileFunc call comes first, and the exception is either handled or passed through. An exception with freeMarshalData still null is a null call to FreeMarshalData. |
| Bridge.HandledExceptionAfter | src/CoreCLREmbedding/coreclrembedding.cpp:725-731 | A handled exception stays handled after any earlier events: its one free adds to what was freed before, after its marshal, and no other count changes. |
| ClrHost.FreeCountAppend | src/CoreCLREmbedding/coreclrembedding.cpp:725-731 | Frees counted over two traces add up. |
| ClrHost.FreedOnlyByExceptionPath | src/CoreCLREmbedding/coreclrembedding.cpp:722-728 | Events that free nothing, followed by the exception path, free exactly the exception, exactly once. |
| ClrHost.ExceptionEventsFreeOnce | src/CoreCLREmbedding/coreclrembedding.cpp:727-728 | The exception path frees the exception's marshal data exactly once and frees nothing else. |

## Left out

- I/O and system calls are parameters, not modelled effects:
  - `opendir`/`readdir`/`stat` and `FindFirstFile`/`FindNextFile` become an optional listing, with `None` for a directory that cannot be opened.
  - The working directory becomes an optional string.
  - The environment becomes a map.
  - The runtime's answers become `Runtime`.
- The listing is assumed to be the same on every pass. The source rewinds the directory, and a directory changing between passes is not modelled.
- `EDGE_DEBUG`, the tracing calls and the `std::cout` output are not modelled; they have no effect on results.
- The managed-code pass-throughs `CallClrFunc`, `ContinueTask`, `FreeHandle` and `FreeMarshalData` (lines 740-762) are not modelled. They only forward to a delegate. `FreeMarshalData` appears as an event.
- `GetOSName`, `GetOSArchitecture`, `GetOSVersion`, `GetPathToBootstrapper` and the module-path lookups are not modelled. They are OS queries whose results Initialize does not use for control flow.
- The bootstrapper path is read as the environment variable through `get_env_var`. `pal::getenv` and `pal::pal_clrstring` are taken to return the same text.
- The count argument `sizeof(property_keys) / sizeof(property_keys[0])` of `coreclr_initialize` (lines 398 and 634) is not modelled. It divides the size of the `std::vector` object by the size of a pointer, so it is not the number of keys. The runtime may be told of fewer properties than the vectors hold. The model records the key and value vectors themselves, and no statement about the tables says which entries the runtime reads.
- `strcpy` of N_EDGE_CLR_DIR into a `MAX_PATH` buffer is not modelled; the model assumes the value fits.
- The result of `coreclr::bind` is recorded as an event and otherwise ignored, as the source ignores it.
- What `create_delegate` writes through its out-pointer when it fails is unspecified. The model leaves the slot as it was.
- The `CreateDelegate` event records only the delegate's name. The assembly `"EdgeJs"` and type `"CoreCLREmbedding"` arguments (lines 46-47) are the same for every use of `CREATE_DELEGATE`, so the model leaves them implicit.
- The uninitialised local `setCallV8Function` is modelled as null (0) before it is created.
- HRESULTs are unbounded integers. `FAILED` is modelled as a negative value, and the 32-bit representation is not modelled.
- Initialization.ManagedCall: when freeMarshalData is still null, the fault is recorded without the `MarshalToV8` event that precedes the null call in the source.
- Bridge.GetClrFuncReflectionWrapFunc: when freeMarshalData is still null, the result is only the fault. The host value already written through `v8Exception` and the events before the null call are not kept.
- Bridge.CompileFunc: the same as for GetClrFuncReflectionWrapFunc: a null freeMarshalData yields only the fault, without the value written through `v8Exception` or the earlier events.
- Initialization.InitializeWindows: the start-up scans N_EDGE_CLR_DIR with the signed-position builder (`TpaList.AddToTpaList`). A non-directory name shorter than seven characters therefore does not throw. In the source, the `std::out_of_range` from lines 221-226 escapes Initialize before the runtime is bound or started. `TpaListWindows.AsWrittenThrowsIffShortName` states exactly when that happens.
- Initialization.BootOutcome: `coreclr_create_delegate` is assumed never to report success with a null pointer (`Address` is positive). The claim that no null delegate is called rests on that assumption.
- V8 values, handles and marshalling are opaque: `V8FromClr(handle, kind)` stands for whatever `MarshalCLRToV8` builds.
- The file names, directories and delegate names are ASCII strings with no case folding, as the byte-wise comparisons in the source treat them.

The source differs from the expected behaviour in a few places, and the model follows the source:

- A native image `foo.ni.dll` is appended twice (`TpaList.NativeImageAppendedTwice`).
- On POSIX, the NuGet list is not appended to the TPA value.
- An unset N_EDGE_CLR_DIR is not reported: the scan and the start attempt go ahead with an empty directory name.
- A failed delegate creation leaves the earlier delegates installed.
- compileFunc is never resolved.

## Findings

| source | as written | input that shows it | evidently intended | confidence | as-written member | corrected member |
|---|---|---|---|---|---|---|
| src/CoreCLREmbedding/coreclrembedding.cpp:221-226 | The Windows `AddToTpaList` computes the extension position as an unsigned `size_t`. For a name shorter than the extension the subtraction wraps, so the `<= 0` guard misses it and `std::string::compare` throws `std::out_of_range`. | A runtime directory holding a file named `a.dll`, which is shorter than `.ni.dll` in the first pass. | Skip names no longer than the extension, as the POSIX variant's signed `int extPos` does (line 530). `a.dll` is then appended in the `.dll` pass. | medium; not executed | TpaListWindows.ShortAssemblyNameThrows | TpaListWindows.ShortAssemblyNameAccepted |
