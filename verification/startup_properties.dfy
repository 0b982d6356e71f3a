/** The environment reader and the startup property tables handed to
    coreclr_initialize: two parallel vectors, keys and values, paired by
    position.  The Windows table is filled from environment variables; the
    POSIX table from hard-coded deployment paths. */
module StartupProperties {
  import opened Wrappers

  /** get_env_var: the variable's value, or the empty string when the
      variable is not set. */
  function GetEnvVar(env: map<string, string>, key: string): (r: string)
    ensures key in env ==> r == env[key]
    ensures key !in env ==> r == ""
  {
    if key in env then env[key] else ""
  }

  // Environment variables the Windows start-up reads.
  const ClrDirVar := "N_EDGE_CLR_DIR"
  const AppDirVar := "N_EDGE_APP_DIR"
  const NugetDllsVar := "N_EDGE_NUGET_DLLS"
  const BootstrapperPathVar := "N_EDGE_BOOTSTRAPPER_PATH"

  /** The property keys either platform passes. */
  datatype PropertyKey =
    | TrustedPlatformAssemblies
    | AppPaths
    | AppNiPaths
    | NativeDllSearchDirectories
    | PlatformResourceRoots
    | AppDomainCompatSwitch
    | AppContextBaseDirectory
    | AppContextDepsFiles
    | FxDepsFile
    | GcServer
    | GlobalizationInvariant

  /** The key as the runtime reads it. */
  function KeyName(k: PropertyKey): string {
    match k
    case TrustedPlatformAssemblies => "TRUSTED_PLATFORM_ASSEMBLIES"
    case AppPaths => "APP_PATHS"
    case AppNiPaths => "APP_NI_PATHS"
    case NativeDllSearchDirectories => "NATIVE_DLL_SEARCH_DIRECTORIES"
    case PlatformResourceRoots => "PLATFORM_RESOURCE_ROOTS"
    case AppDomainCompatSwitch => "AppDomainCompatSwitch"
    case AppContextBaseDirectory => "APP_CONTEXT_BASE_DIRECTORY"
    case AppContextDepsFiles => "APP_CONTEXT_DEPS_FILES"
    case FxDepsFile => "FX_DEPS_FILE"
    case GcServer => "System.GC.Server"
    case GlobalizationInvariant => "System.Globalization.Invariant"
  }

  // The deployment the POSIX start-up is hard-wired to.
  const PosixClrDirectory := "/usr/share/dotnet/shared/Microsoft.NETCore.App/2.0.0-preview2-25407-01"
  const PosixAppPath := "/home/rasika/Work/electronintegration.sample/edge-dotnet-proxy/bin/Debug/netstandard2.0/publish/"
  const PosixDepsFile := "/home/rasika/Work/electronintegration.sample/edge-dotnet-proxy/bin/Debug/netstandard2.0/publish/NugetTest.deps.json"

  /** The two vectors passed to coreclr_initialize. */
  datatype PropertyTable = PropertyTable(keys: seq<PropertyKey>, values: seq<string>)

  predicate DistinctKeys(keys: seq<PropertyKey>) {
    forall i, j :: 0 <= i < j < |keys| ==> keys[i] != keys[j]
  }

  /** Every key has a value and no key is given twice. */
  predicate WellFormed(t: PropertyTable) {
    |t.keys| == |t.values| && DistinctKeys(t.keys)
  }

  /** The first position at or after `from` holding `key`, or `|keys|`. */
  function Position(keys: seq<PropertyKey>, key: PropertyKey, from: nat): (i: nat)
    requires from <= |keys|
    ensures from <= i <= |keys|
    ensures i < |keys| ==> keys[i] == key
    ensures forall j :: from <= j < i ==> keys[j] != key
    decreases |keys| - from
  {
    if from == |keys| then from
    else if keys[from] == key then from
    else Position(keys, key, from + 1)
  }

  /** The value a table pairs with `key`, if the key is present. */
  function ValueOf(t: PropertyTable, key: PropertyKey): (r: Option<string>)
    requires |t.keys| == |t.values|
    ensures r.None? <==> key !in t.keys
    ensures r.Some? ==> exists i :: 0 <= i < |t.keys| && t.keys[i] == key && t.values[i] == r.value
  {
    var i := Position(t.keys, key, 0);
    if i < |t.keys| then Some(t.values[i]) else None
  }

  /** Name lengths: all differ except for the two twelve-letter keys. */
  function NameLength(k: PropertyKey): (n: nat)
    ensures n == |KeyName(k)|
  {
    match k
    case TrustedPlatformAssemblies => 27
    case AppPaths => 9
    case AppNiPaths => 12
    case NativeDllSearchDirectories => 29
    case PlatformResourceRoots => 23
    case AppDomainCompatSwitch => 21
    case AppContextBaseDirectory => 26
    case AppContextDepsFiles => 22
    case FxDepsFile => 12
    case GcServer => 16
    case GlobalizationInvariant => 30
  }

  /** Distinct keys have distinct names, so the vectors handed to the
      runtime carry no name twice either. */
  lemma KeyNamesDistinct(a: PropertyKey, b: PropertyKey)
    requires a != b
    ensures KeyName(a) != KeyName(b)
  {
    if NameLength(a) == NameLength(b) {
      assert KeyName(a)[0] != KeyName(b)[0];
    }
  }

  /** The key vector as passed to coreclr_initialize. */
  function KeyNames(keys: seq<PropertyKey>): (names: seq<string>)
    ensures |names| == |keys|
    ensures forall i :: 0 <= i < |keys| ==> names[i] == KeyName(keys[i])
  {
    seq(|keys|, i requires 0 <= i < |keys| => KeyName(keys[i]))
  }

  /** The table listing `keys` in order, each with the value `value`
      assigns it. */
  function Tabulate(keys: seq<PropertyKey>, value: PropertyKey -> Option<string>): (t: PropertyTable)
    requires forall i :: 0 <= i < |keys| ==> value(keys[i]).Some?
    ensures t.keys == keys && |t.values| == |keys|
  {
    PropertyTable(keys, seq(|keys|, i requires 0 <= i < |keys| => value(keys[i]).value))
  }

  /** Reading a tabulated key gives back the assigned value; any other key
      is absent. */
  lemma TabulatedValueOf(keys: seq<PropertyKey>, value: PropertyKey -> Option<string>, k: PropertyKey)
    requires forall i :: 0 <= i < |keys| ==> value(keys[i]).Some?
    ensures ValueOf(Tabulate(keys, value), k) == if k in keys then value(k) else None
  {
    var t := Tabulate(keys, value);
    var p := Position(keys, k, 0);
    if p < |keys| {
      assert t.values[p] == value(keys[p]).value;
    }
  }

  const PosixKeys: seq<PropertyKey> :=
    [TrustedPlatformAssemblies, AppPaths, AppNiPaths, NativeDllSearchDirectories, GcServer, GlobalizationInvariant]

  const WindowsKeys: seq<PropertyKey> :=
    [TrustedPlatformAssemblies, AppPaths, AppNiPaths, NativeDllSearchDirectories, PlatformResourceRoots,
     AppDomainCompatSwitch, AppContextBaseDirectory, AppContextDepsFiles, FxDepsFile]

  lemma KeyListsDistinct()
    ensures DistinctKeys(PosixKeys) && DistinctKeys(WindowsKeys)
  {
  }

  /** What POSIX passes for each key: the scanned TPA list, the hard-coded
      application directory for the three path keys, both runtime flags
      off, and nothing for the Windows-only keys. */
  function PosixValue(tpa: string, k: PropertyKey): Option<string> {
    match k
    case TrustedPlatformAssemblies => Some(tpa)
    case AppPaths => Some(PosixAppPath)
    case AppNiPaths => Some(PosixAppPath)
    case NativeDllSearchDirectories => Some(PosixAppPath)
    case GcServer => Some("false")
    case GlobalizationInvariant => Some("false")
    case _ => None
  }

  /** What Windows passes for each key: the scanned TPA list followed by
      N_EDGE_NUGET_DLLS, the application directory from N_EDGE_APP_DIR, the
      working directory as the native-image path, the runtime directory
      from N_EDGE_CLR_DIR as the native search path, no resource roots, the
      compatibility switch, and the two dependency manifests: one under the
      application directory, one appended to the runtime directory without
      a separator.  Neither runtime flag is passed. */
  function WindowsValue(env: map<string, string>, cwd: string, tpaScan: string, k: PropertyKey): Option<string> {
    match k
    case TrustedPlatformAssemblies => Some(tpaScan + GetEnvVar(env, NugetDllsVar))
    case AppPaths => Some(GetEnvVar(env, AppDirVar))
    case AppNiPaths => Some(cwd)
    case NativeDllSearchDirectories => Some(GetEnvVar(env, ClrDirVar))
    case PlatformResourceRoots => Some("")
    case AppDomainCompatSwitch => Some("UseLatestBehaviorWhenTFMNotSpecified")
    case AppContextBaseDirectory => Some(GetEnvVar(env, AppDirVar))
    case AppContextDepsFiles => Some(WindowsDepsFile(env))
    case FxDepsFile => Some(GetEnvVar(env, ClrDirVar) + "Microsoft.NETCore.App.deps.json")
    case _ => None
  }

  /** The application's dependency manifest on Windows, also handed to the
      managed Initialize. */
  function WindowsDepsFile(env: map<string, string>): string {
    GetEnvVar(env, AppDirVar) + "\\NugetTest.deps.json"
  }

  /** The POSIX table: six distinct keys, each read back as PosixValue
      assigns it, and no other key present. */
  function PosixProperties(tpa: string): (t: PropertyTable)
    ensures WellFormed(t) && |t.keys| == 6
    ensures forall k :: ValueOf(t, k) == PosixValue(tpa, k)
  {
    var value := k => PosixValue(tpa, k);
    var t := Tabulate(PosixKeys, value);
    assert DistinctKeys(t.keys) by { KeyListsDistinct(); }
    assert forall k :: ValueOf(t, k) == PosixValue(tpa, k) by {
      forall k ensures ValueOf(t, k) == PosixValue(tpa, k) {
        TabulatedValueOf(PosixKeys, value, k);
      }
    }
    t
  }

  /** The Windows table: nine distinct keys, each read back as WindowsValue
      assigns it, and no other key present. */
  function WindowsProperties(env: map<string, string>, cwd: string, tpaScan: string): (t: PropertyTable)
    ensures WellFormed(t) && |t.keys| == 9
    ensures forall k :: ValueOf(t, k) == WindowsValue(env, cwd, tpaScan, k)
  {
    var value := k => WindowsValue(env, cwd, tpaScan, k);
    var t := Tabulate(WindowsKeys, value);
    assert DistinctKeys(t.keys) by { KeyListsDistinct(); }
    assert forall k :: ValueOf(t, k) == WindowsValue(env, cwd, tpaScan, k) by {
      forall k ensures ValueOf(t, k) == WindowsValue(env, cwd, tpaScan, k) {
        TabulatedValueOf(WindowsKeys, value, k);
      }
    }
    t
  }

  /** Both tables pair TRUSTED_PLATFORM_ASSEMBLIES with the scanned list;
      only the Windows value has the N_EDGE_NUGET_DLLS list appended to it.
      Only the POSIX key vector holds System.GC.Server, and only the
      Windows key vector holds FX_DEPS_FILE.
      Which entries the runtime reads depends on the count passed with the
      vectors, which this model does not follow. */
  lemma PlatformsDiffer(env: map<string, string>, cwd: string, tpa: string)
    ensures ValueOf(PosixProperties(tpa), TrustedPlatformAssemblies) == Some(tpa)
    ensures ValueOf(WindowsProperties(env, cwd, tpa), TrustedPlatformAssemblies) == Some(tpa + GetEnvVar(env, NugetDllsVar))
    ensures ValueOf(PosixProperties(tpa), GcServer).Some? && ValueOf(WindowsProperties(env, cwd, tpa), GcServer).None?
    ensures ValueOf(PosixProperties(tpa), FxDepsFile).None? && ValueOf(WindowsProperties(env, cwd, tpa), FxDepsFile).Some?
  {
  }

  /** With none of the variables set, every environment-derived value is
      empty and the TPA value is exactly the scan. */
  lemma UnsetEnvironment(env: map<string, string>, cwd: string, tpaScan: string)
    requires ClrDirVar !in env && AppDirVar !in env && NugetDllsVar !in env
    ensures var t := WindowsProperties(env, cwd, tpaScan);
      && ValueOf(t, TrustedPlatformAssemblies) == Some(tpaScan)
      && ValueOf(t, AppPaths) == Some("")
      && ValueOf(t, NativeDllSearchDirectories) == Some("")
  {
    assert tpaScan + "" == tpaScan;
  }

  /** With none of the variables set, the two dependency manifests lose
      their directory part: the application manifest becomes a path from the
      root of the current drive, the framework manifest a name relative to
      the working directory. */
  lemma UnsetEnvironmentManifests(env: map<string, string>, cwd: string, tpaScan: string)
    requires ClrDirVar !in env && AppDirVar !in env
    ensures var t := WindowsProperties(env, cwd, tpaScan);
      && ValueOf(t, AppContextDepsFiles) == Some("\\NugetTest.deps.json")
      && ValueOf(t, FxDepsFile) == Some("Microsoft.NETCore.App.deps.json")
  {
    EmptyPrefix("Microsoft.NETCore.App.deps.json");
    EmptyPrefix("\\NugetTest.deps.json");
  }

  lemma EmptyPrefix(s: string)
    ensures "" + s == s
  {
  }
}
