/** Installed containers: their runtime state, the checks that a directory holds a
    deployable container, dependency availability and circular-dependency detection. */
module ContainerService {
  import opened Errors
  import opened Text
  import FeaturesVersion
  import opened Manifest
  import HostFs
  import opened DependencyGraph

  /** A `DateTime<Utc>` read from the clock, passed in by the caller. */
  type Timestamp = nat

  /** A UUID drawn by `Uuid::new_v4`, passed in by the caller. */
  type Uuid = nat

  /** Rust's `i32`. */
  type I32 = x: int | -0x8000_0000 <= x < 0x8000_0000

  datatype ContainerStatus = Ready | Running | Stopped | Error | Installing | Removing

  class ContainerRuntime {
    var id: Uuid
    var status: ContainerStatus
    var pid: Option<U32>
    var startedAt: Option<Timestamp>
    var stoppedAt: Option<Timestamp>
    var exitCode: Option<I32>
    var errors: seq<string>

    /** `ContainerRuntime::default`: ready, no process, no timestamps, no errors. */
    constructor Default(id: Uuid)
      ensures this.id == id && status == Ready
      ensures pid == None && startedAt == None && stoppedAt == None && exitCode == None
      ensures errors == []
    {
      this.id := id;
      status := Ready;
      pid := None;
      startedAt := None;
      stoppedAt := None;
      exitCode := None;
      errors := [];
    }
  }

  class Container {
    const manifest: ContainerManifest
    const path: string
    const runtime: ContainerRuntime
    const installedAt: Timestamp
    var lastAccessed: Timestamp

    /** The record built by `create_container`. */
    constructor (manifest: ContainerManifest, path: string, runtime: ContainerRuntime, now: Timestamp)
      ensures this.manifest == manifest && this.path == path && this.runtime == runtime
      ensures installedAt == now && lastAccessed == now
    {
      this.manifest := manifest;
      this.path := path;
      this.runtime := runtime;
      installedAt := now;
      lastAccessed := now;
    }

    /** `is_running`. */
    predicate IsRunning()
      reads runtime
    {
      runtime.status == Running
    }

    /** `get_script_path`: the script's relative path joined onto the container path. */
    function GetScriptPath(script: string): (r: Result<string>)
      reads manifest
      ensures r.Ok? <==> script in manifest.scripts
      ensures r.Ok? ==> r.value == HostFs.Join(path, manifest.scripts[script])
      ensures r.Err? ==> r.error == ScriptNotFound(manifest.name, script)
    {
      var relative :- manifest.GetScript(script);
      Ok(HostFs.Join(path, relative))
    }

    /** `get_default_script_path`: a missing `default` script is reported as
        `ScriptNotFound`, not as `MissingDefaultScript`. */
    function GetDefaultScriptPath(): (r: Result<string>)
      reads manifest
      ensures r.Ok? <==> manifest.DefaultScript().Ok?
      ensures r.Ok? ==> r.value == HostFs.Join(path, manifest.DefaultScript().value)
      ensures r.Err? ==> r.error == ScriptNotFound(manifest.name, DefaultScriptName)
    {
      GetScriptPath(DefaultScriptName)
    }

    /** `update_last_accessed`, with the clock reading passed in. */
    method UpdateLastAccessed(now: Timestamp)
      modifies this
      ensures lastAccessed == now
    {
      lastAccessed := now;
    }

    /** `mark_running`: running with the given process, started and accessed now. */
    method MarkRunning(pid: U32, now: Timestamp)
      modifies this, runtime
      ensures runtime.status == Running && IsRunning()
      ensures runtime.pid == Some(pid) && runtime.startedAt == Some(now)
      ensures lastAccessed == now
      ensures runtime.id == old(runtime.id) && runtime.stoppedAt == old(runtime.stoppedAt)
      ensures runtime.exitCode == old(runtime.exitCode) && runtime.errors == old(runtime.errors)
    {
      runtime.status := Running;
      runtime.pid := Some(pid);
      runtime.startedAt := Some(now);
      UpdateLastAccessed(now);
    }

    /** `mark_stopped`: stopped with the exit code, no process, stopped now. */
    method MarkStopped(exitCode: I32, now: Timestamp)
      modifies runtime
      ensures runtime.status == Stopped && !IsRunning()
      ensures runtime.pid == None && runtime.stoppedAt == Some(now) && runtime.exitCode == Some(exitCode)
      ensures runtime.id == old(runtime.id) && runtime.startedAt == old(runtime.startedAt)
      ensures runtime.errors == old(runtime.errors)
    {
      runtime.status := Stopped;
      runtime.pid := None;
      runtime.stoppedAt := Some(now);
      runtime.exitCode := Some(exitCode);
    }

    /** `mark_error`: the message is appended to the error log, the process is kept. */
    method MarkError(error: string, now: Timestamp)
      modifies runtime
      ensures runtime.status == Error && !IsRunning()
      ensures runtime.errors == old(runtime.errors) + [error]
      ensures runtime.stoppedAt == Some(now)
      ensures runtime.id == old(runtime.id) && runtime.pid == old(runtime.pid)
      ensures runtime.startedAt == old(runtime.startedAt) && runtime.exitCode == old(runtime.exitCode)
    {
      runtime.status := Error;
      runtime.errors := runtime.errors + [error];
      runtime.stoppedAt := Some(now);
    }
  }

  // ---------------------------------------------------------------------------
  // Structure validation

  const RequiredDirectories: seq<string> := ["scripts", "content", "config"]
  const ManifestFileName: string := "manifest.json"
  const PermissionsFile: string := "config/permissions.json"
  const EnvironmentFile: string := "config/environment.json"

  const PathMissingReason: string := "Path does not exist"
  const NotADirectoryMessage: string := "Container path must be a directory"
  const ManifestMissingMessage: string := "manifest.json not found"
  const PermissionsMissingMessage: string := "config/permissions.json not found"
  const EnvironmentMissingMessage: string := "config/environment.json not found"

  function MissingDirectoryMessage(dir: string): string
  {
    "Required directory '" + dir + "' not found"
  }

  /** `validate_path_exists`: the path must exist and be a directory. */
  function ValidatePathExists(fs: HostFs.FileSystem, path: string): (r: Result<()>)
    ensures r.Ok? <==> HostFs.IsDir(fs, path)
    ensures !HostFs.Exists(fs, path) ==> r == Err(InvalidPath(path, PathMissingReason))
    ensures HostFs.Exists(fs, path) && !HostFs.IsDir(fs, path) ==>
      r == Err(InvalidStructure(NotADirectoryMessage))
  {
    if !HostFs.Exists(fs, path) then Err(InvalidPath(path, PathMissingReason))
    else if !HostFs.IsDir(fs, path) then Err(InvalidStructure(NotADirectoryMessage))
    else Ok(())
  }

  /** The check for one required directory. */
  function DirectoryPresent(fs: HostFs.FileSystem, path: string, dir: string): Result<()>
  {
    if HostFs.Exists(fs, HostFs.Join(path, dir)) then Ok(())
    else Err(InvalidStructure(MissingDirectoryMessage(dir)))
  }

  /** `validate_required_directories`: `scripts`, `content`, `config`, in that order. */
  method ValidateRequiredDirectories(fs: HostFs.FileSystem, path: string) returns (r: Result<()>)
    ensures r == FirstError(d => DirectoryPresent(fs, path, d), RequiredDirectories)
    ensures r.Ok? <==> forall i :: 0 <= i < |RequiredDirectories| ==>
      HostFs.Exists(fs, HostFs.Join(path, RequiredDirectories[i]))
  {
    var check := d => DirectoryPresent(fs, path, d);
    var i := 0;
    while i < |RequiredDirectories|
      invariant 0 <= i <= |RequiredDirectories|
      invariant FirstError(check, RequiredDirectories) == FirstError(check, RequiredDirectories[i..])
    {
      assert RequiredDirectories[i..][0] == RequiredDirectories[i];
      assert RequiredDirectories[i..][1..] == RequiredDirectories[i + 1..];
      var dir := RequiredDirectories[i];
      if !HostFs.Exists(fs, HostFs.Join(path, dir)) {
        return Err(InvalidStructure(MissingDirectoryMessage(dir)));
      }
      i := i + 1;
    }
    return Ok(());
  }

  /** `validate_manifest_file_exists`. */
  function ValidateManifestFileExists(fs: HostFs.FileSystem, path: string): (r: Result<()>)
    ensures r.Ok? <==> HostFs.Exists(fs, HostFs.Join(path, ManifestFileName))
    ensures r.Err? ==> r.error == InvalidStructure(ManifestMissingMessage)
  {
    if !HostFs.Exists(fs, HostFs.Join(path, ManifestFileName)) then
      Err(InvalidStructure(ManifestMissingMessage))
    else Ok(())
  }

  /** `validate_default_script_exists`: a missing key and a missing file are both
      `MissingDefaultScript`. */
  function ValidateDefaultScriptExists(fs: HostFs.FileSystem, path: string, m: ContainerManifest): (r: Result<()>)
    reads m
    ensures r.Ok? <==> (DefaultScriptName in m.scripts
      && HostFs.Exists(fs, HostFs.Join(path, m.scripts[DefaultScriptName])))
    ensures r.Err? ==> r.error == MissingDefaultScript
  {
    var script :- m.DefaultScript();
    if !HostFs.Exists(fs, HostFs.Join(path, script)) then Err(MissingDefaultScript)
    else Ok(())
  }

  /** Every script of the manifest is present under the container path. */
  ghost predicate AllScriptsPresent(fs: HostFs.FileSystem, path: string, m: ContainerManifest)
    reads m
  {
    forall k :: k in m.scripts ==> HostFs.Exists(fs, HostFs.Join(path, m.scripts[k]))
  }

  /** `validate_all_scripts_exist`: scripts are visited in hash-map order, so with
      several missing any one of them may be reported. */
  method ValidateAllScriptsExist(fs: HostFs.FileSystem, path: string, m: ContainerManifest)
    returns (r: Result<()>)
    ensures r.Ok? <==> AllScriptsPresent(fs, path, m)
    ensures r.Err? ==> exists k :: (k in m.scripts && !HostFs.Exists(fs, HostFs.Join(path, m.scripts[k]))
      && r.error == ScriptNotFound(m.name, k))
  {
    var pending := m.scripts.Keys;
    while pending != {}
      invariant pending <= m.scripts.Keys
      invariant forall k :: k in m.scripts && k !in pending ==> HostFs.Exists(fs, HostFs.Join(path, m.scripts[k]))
      decreases pending
    {
      var k :| k in pending;
      if !HostFs.Exists(fs, HostFs.Join(path, m.scripts[k])) {
        return Err(ScriptNotFound(m.name, k));
      }
      pending := pending - {k};
    }
    return Ok(());
  }

  /** `validate_scripts_exist`: the default script first, then all of them. */
  method ValidateScriptsExist(fs: HostFs.FileSystem, path: string, m: ContainerManifest)
    returns (r: Result<()>)
    ensures ScriptsValidateTo(fs, path, m, r)
    ensures r.Ok? <==> DefaultScriptName in m.scripts && AllScriptsPresent(fs, path, m)
  {
    r := ValidateDefaultScriptExists(fs, path, m);
    if r.Err? {
      return;
    }
    r := ValidateAllScriptsExist(fs, path, m);
  }

  /** The outcomes of the script checks. */
  ghost predicate ScriptsValidateTo(fs: HostFs.FileSystem, path: string, m: ContainerManifest, r: Result<()>)
    reads m
  {
    if ValidateDefaultScriptExists(fs, path, m).Err? then r == Err(MissingDefaultScript)
    else if !AllScriptsPresent(fs, path, m) then
      exists k :: k in m.scripts && !HostFs.Exists(fs, HostFs.Join(path, m.scripts[k]))
        && r == Err(ScriptNotFound(m.name, k))
    else r.Ok?
  }

  /** `validate_config_files_exist`: permissions before environment. */
  function ValidateConfigFilesExist(fs: HostFs.FileSystem, path: string): (r: Result<()>)
    ensures r.Ok? <==> (HostFs.Exists(fs, HostFs.Join(path, PermissionsFile))
      && HostFs.Exists(fs, HostFs.Join(path, EnvironmentFile)))
    ensures !HostFs.Exists(fs, HostFs.Join(path, PermissionsFile)) ==>
      r == Err(InvalidStructure(PermissionsMissingMessage))
    ensures (HostFs.Exists(fs, HostFs.Join(path, PermissionsFile))
      && !HostFs.Exists(fs, HostFs.Join(path, EnvironmentFile))) ==>
      r == Err(InvalidStructure(EnvironmentMissingMessage))
  {
    if !HostFs.Exists(fs, HostFs.Join(path, PermissionsFile)) then
      Err(InvalidStructure(PermissionsMissingMessage))
    else if !HostFs.Exists(fs, HostFs.Join(path, EnvironmentFile)) then
      Err(InvalidStructure(EnvironmentMissingMessage))
    else Ok(())
  }

  /** Every structural requirement holds. */
  ghost predicate StructureSound(fs: HostFs.FileSystem, path: string, m: ContainerManifest)
    reads m
  {
    HostFs.IsDir(fs, path)
    && (forall i :: 0 <= i < |RequiredDirectories| ==>
          HostFs.Exists(fs, HostFs.Join(path, RequiredDirectories[i])))
    && HostFs.Exists(fs, HostFs.Join(path, ManifestFileName))
    && DefaultScriptName in m.scripts
    && AllScriptsPresent(fs, path, m)
    && HostFs.Exists(fs, HostFs.Join(path, PermissionsFile))
    && HostFs.Exists(fs, HostFs.Join(path, EnvironmentFile))
  }

  /** The outcomes of `validate_structure`, check by check in its fixed order. */
  ghost predicate StructureValidatesTo(fs: HostFs.FileSystem, path: string, m: ContainerManifest, r: Result<()>)
    reads m
  {
    var dirs := FirstError(d => DirectoryPresent(fs, path, d), RequiredDirectories);
    if !HostFs.IsDir(fs, path) then r == ValidatePathExists(fs, path)
    else if dirs.Err? then r == dirs
    else if ValidateManifestFileExists(fs, path).Err? then r == ValidateManifestFileExists(fs, path)
    else if !(DefaultScriptName in m.scripts && AllScriptsPresent(fs, path, m)) then
      ScriptsValidateTo(fs, path, m, r)
    else r == ValidateConfigFilesExist(fs, path)
  }

  /** `validate_structure`: the path, the directories, the manifest file, the scripts
      and the configuration files; the first failing check decides the error. */
  method ValidateStructure(fs: HostFs.FileSystem, path: string, m: ContainerManifest)
    returns (r: Result<()>)
    ensures StructureValidatesTo(fs, path, m, r)
    ensures r.Ok? <==> StructureSound(fs, path, m)
  {
    r := ValidatePathExists(fs, path);
    if r.Err? {
      return;
    }
    r := ValidateRequiredDirectories(fs, path);
    if r.Err? {
      return;
    }
    r := ValidateManifestFileExists(fs, path);
    if r.Err? {
      return;
    }
    r := ValidateScriptsExist(fs, path, m);
    if r.Err? {
      return;
    }
    r := ValidateConfigFilesExist(fs, path);
  }

  /** A runtime as `ContainerRuntime::default` leaves it. */
  ghost predicate IsDefaultRuntime(rt: ContainerRuntime, id: Uuid)
    reads rt
  {
    rt.id == id && rt.status == Ready && rt.pid == None && rt.startedAt == None
    && rt.stoppedAt == None && rt.exitCode == None && rt.errors == []
  }

  /** `create_container`: the manifest is validated, then the structure; either error is
      returned unchanged, otherwise a ready container installed and accessed `now`. */
  method CreateContainer(m: ContainerManifest, path: string, fs: HostFs.FileSystem, now: Timestamp, id: Uuid)
    returns (r: Result<Container>)
    ensures r.Ok? <==> m.WellFormed() && StructureSound(fs, path, m)
    ensures r.Err? && !m.WellFormed() ==> m.ValidatesTo(Err(r.error))
    ensures r.Err? && m.WellFormed() ==> StructureValidatesTo(fs, path, m, Err(r.error))
    ensures r.Ok? ==> (fresh(r.value) && fresh(r.value.runtime)
      && r.value.manifest == m && r.value.path == path
      && r.value.installedAt == now && r.value.lastAccessed == now
      && IsDefaultRuntime(r.value.runtime, id) && !r.value.IsRunning())
  {
    var valid := m.Validate();
    if valid.Err? {
      return Err(valid.error);
    }
    var sound := ValidateStructure(fs, path, m);
    if sound.Err? {
      return Err(sound.error);
    }
    var runtime := new ContainerRuntime.Default(id);
    var container := new Container(m, path, runtime, now);
    return Ok(container);
  }

  /** `load_from_directory`: the path check comes first; then the manifest read from
      `manifest.json` (the outcome of reading and deserialising it is passed in as
      `parsed`), which `from_file` validates; then `create_container`. A manifest that
      was read means `manifest.json` is on the file system. */
  method LoadFromDirectory(fs: HostFs.FileSystem, path: string, parsed: Result<ContainerManifest>,
                           now: Timestamp, id: Uuid)
    returns (r: Result<Container>)
    requires parsed.Ok? ==> HostFs.Exists(fs, HostFs.Join(path, ManifestFileName))
    ensures !HostFs.IsDir(fs, path) ==> r == Err(ValidatePathExists(fs, path).error)
    ensures HostFs.IsDir(fs, path) && parsed.Err? ==> r == Err(parsed.error)
    ensures HostFs.IsDir(fs, path) && parsed.Ok? ==>
      (r.Ok? <==> parsed.value.WellFormed() && StructureSound(fs, path, parsed.value))
    ensures HostFs.IsDir(fs, path) && parsed.Ok? && !parsed.value.WellFormed() ==>
      r.Err? && parsed.value.ValidatesTo(Err(r.error))
    ensures (HostFs.IsDir(fs, path) && parsed.Ok? && parsed.value.WellFormed() && r.Err?) ==>
      StructureValidatesTo(fs, path, parsed.value, Err(r.error))
    ensures r.Ok? ==> (fresh(r.value) && fresh(r.value.runtime)
      && r.value.manifest == parsed.value && r.value.path == path
      && r.value.installedAt == now && r.value.lastAccessed == now
      && IsDefaultRuntime(r.value.runtime, id) && !r.value.IsRunning())
  {
    var exists_ := ValidatePathExists(fs, path);
    if exists_.Err? {
      return Err(exists_.error);
    }
    if parsed.Err? {
      return Err(parsed.error);
    }
    var m := parsed.value;
    var valid := m.Validate();
    if valid.Err? {
      return Err(valid.error);
    }
    r := CreateContainer(m, path, fs, now, id);
  }

  // ---------------------------------------------------------------------------
  // Dependencies

  function ConflictMessage(package: string, available: FeaturesVersion.Version, required: FeaturesVersion.Version): string
  {
    "Package '" + package + "' version " + FeaturesVersion.Display(available)
      + " is not compatible with required version " + FeaturesVersion.Display(required)
  }

  /** `validate_single_dependency`: the package must be available, the required version
      must parse, and the available version must be compatible with it. The
      `optional` flag plays no part. */
  function ValidateSingleDependency(d: Dependency, available: map<string, FeaturesVersion.Version>): (r: Result<()>)
    ensures r.Ok? <==> (d.name in available && FeaturesVersion.SemverFormat(d.version)
      && FeaturesVersion.IsCompatibleWith(available[d.name], FeaturesVersion.Version(d.version)))
    ensures d.name !in available ==> r == Err(PackageNotFound(d.name))
    ensures d.name in available && !FeaturesVersion.SemverFormat(d.version) ==>
      r == Err(InvalidVersion(d.version))
    ensures (d.name in available && FeaturesVersion.SemverFormat(d.version)
      && !FeaturesVersion.IsCompatibleWith(available[d.name], FeaturesVersion.Version(d.version))) ==>
      r == Err(VersionConflict(ConflictMessage(d.name, available[d.name], FeaturesVersion.Version(d.version))))
  {
    if d.name !in available then Err(PackageNotFound(d.name))
    else
      var required :- FeaturesVersion.FromStr(d.version);
      if !FeaturesVersion.IsCompatibleWith(available[d.name], required) then
        Err(VersionConflict(ConflictMessage(d.name, available[d.name], required)))
      else Ok(())
  }

  /** `validate_dependencies`: each dependency of the manifest in list order. */
  method ValidateDependencies(container: Container, available: map<string, FeaturesVersion.Version>)
    returns (r: Result<()>)
    ensures r == FirstError(d => ValidateSingleDependency(d, available), container.manifest.dependencies)
    ensures r.Ok? <==> forall i :: 0 <= i < |container.manifest.dependencies| ==>
      ValidateSingleDependency(container.manifest.dependencies[i], available).Ok?
  {
    var deps := container.manifest.dependencies;
    var check := d => ValidateSingleDependency(d, available);
    var i := 0;
    while i < |deps|
      invariant 0 <= i <= |deps|
      invariant FirstError(check, deps) == FirstError(check, deps[i..])
    {
      assert deps[i..][0] == deps[i];
      assert deps[i..][1..] == deps[i + 1..];
      var single := ValidateSingleDependency(deps[i], available);
      if single.Err? {
        return single;
      }
      i := i + 1;
    }
    return Ok(());
  }

  // ---------------------------------------------------------------------------
  // Circular dependencies

  /** The names of the dependencies, in manifest order. */
  function DependencyNames(deps: seq<Dependency>): (names: seq<string>)
    ensures |names| == |deps|
    ensures forall i :: 0 <= i < |deps| ==> names[i] == deps[i].name
  {
    if |deps| == 0 then [] else [deps[0].name] + DependencyNames(deps[1..])
  }

  /** The dependency graph of the installed containers. */
  function Registry(containers: map<string, Container>): (g: Graph)
    reads set n | n in containers :: containers[n].manifest
    ensures g.Keys == containers.Keys
    ensures forall n :: n in containers ==> g[n] == DependencyNames(containers[n].manifest.dependencies)
  {
    map n | n in containers :: DependencyNames(containers[n].manifest.dependencies)
  }

  /** How a call of the search ends, given what the specification `Dfs` reports:
      nothing, with the stack as on entry, or the cycle, with the stack at detection. */
  predicate CircularCheckOutcome(found: Option<seq<string>>, entry: seq<string>, r: Result<()>, after: seq<string>)
  {
    match found
    case None => r == Ok(()) && after == entry
    case Some(stack) => r == Err(CircularDependency(Join(stack, " -> "))) && after == stack
  }

  /** `check_circular_dependencies`: a name already on the stack is a cycle, reported as
      the stack joined by " -> "; a known name is pushed, its dependencies searched in
      order, and popped again only when none of them found a cycle. The stack is taken
      in as `visited` and handed back as `after`. */
  method CheckCircularDependencies(containers: map<string, Container>, visited: seq<string>, current: string)
    returns (r: Result<()>, after: seq<string>)
    ensures CircularCheckOutcome(Dfs(Registry(containers), visited, current), visited, r, after)
    decreases |containers.Keys - Elems(visited)|, 0
  {
    ghost var g := Registry(containers);
    DfsEntryCases(g, visited, current);
    if current in visited {
      return Err(CircularDependency(Join(visited, " -> "))), visited;
    }
    if current !in containers {
      return Ok(()), visited;
    }
    var deps := containers[current].manifest.dependencies;
    assert g[current] == DependencyNames(deps);
    DfsPush(g, visited, current);
    r, after := CheckDependenciesOf(containers, visited + [current], deps);
    if r.Ok? {
      after := after[..|after| - 1];
      assert after == visited;
    }
  }

  /** The loop of `check_circular_dependencies` over one container's dependencies, in
      manifest order, stopping at the first cycle found. */
  method CheckDependenciesOf(containers: map<string, Container>, visited: seq<string>, deps: seq<Dependency>)
    returns (r: Result<()>, after: seq<string>)
    ensures CircularCheckOutcome(DfsAll(Registry(containers), visited, DependencyNames(deps)), visited, r, after)
    decreases |containers.Keys - Elems(visited)|, |deps|
  {
    ghost var g := Registry(containers);
    ghost var names := DependencyNames(deps);
    var i := 0;
    while i < |deps|
      invariant 0 <= i <= |deps|
      invariant DfsAll(g, visited, names) == DfsAll(g, visited, names[i..])
    {
      assert names[i..][0] == deps[i].name;
      assert names[i..][1..] == names[i + 1..];
      var sub, stack := CheckCircularDependencies(containers, visited, deps[i].name);
      if sub.Err? {
        return sub, stack;
      }
      i := i + 1;
    }
    return Ok(()), visited;
  }

  /** The cycle `A -> B -> A` is reported as "A -> B". */
  lemma TwoCycleChain()
    ensures var stack := Dfs(map["A" := ["B"], "B" := ["A"]], [], "A");
      stack.Some? && Join(stack.value, " -> ") == "A -> B"
  {
    TwoCycleExample();
    assert ["A", "B"][1..] == ["B"];
  }
}
