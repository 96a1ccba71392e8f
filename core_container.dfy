/** The older container type: the same structure checks, run inline, with a missing
    path reported without a reason, and dependencies checked against the triple
    version. The runtime transitions and the circular-dependency search are the
    ones of `ContainerService`. */
module CoreContainer {
  import opened Errors
  import opened Text
  import CoreVersion
  import FeaturesVersion
  import opened Manifest
  import HostFs
  import ContainerService

  /** The older `InvalidPath` carries only the path; its reason is left empty. */
  const NoReason: string := ""

  /** The inline `validate_structure`: the checks of the service in the same order;
      only a missing path is reported differently. */
  method ValidateStructure(fs: HostFs.FileSystem, path: string, m: ContainerManifest)
    returns (r: Result<()>)
    ensures r.Ok? <==> ContainerService.StructureSound(fs, path, m)
    ensures !HostFs.Exists(fs, path) ==> r == Err(InvalidPath(path, NoReason))
    ensures HostFs.Exists(fs, path) ==> ContainerService.StructureValidatesTo(fs, path, m, r)
  {
    if !HostFs.Exists(fs, path) {
      return Err(InvalidPath(path, NoReason));
    }
    r := ContainerService.ValidateStructure(fs, path, m);
  }

  /** `Container::new`: the manifest is validated before the structure; either error is
      returned unchanged, otherwise a ready container installed and accessed `now`. */
  method New(m: ContainerManifest, path: string, fs: HostFs.FileSystem, now: ContainerService.Timestamp,
             id: ContainerService.Uuid)
    returns (r: Result<ContainerService.Container>)
    ensures r.Ok? <==> m.WellFormed() && ContainerService.StructureSound(fs, path, m)
    ensures r.Err? && !m.WellFormed() ==> m.ValidatesTo(Err(r.error))
    ensures r.Err? && m.WellFormed() && !HostFs.Exists(fs, path) ==> r.error == InvalidPath(path, NoReason)
    ensures r.Err? && m.WellFormed() && HostFs.Exists(fs, path) ==>
      ContainerService.StructureValidatesTo(fs, path, m, Err(r.error))
    ensures r.Ok? ==> (fresh(r.value) && fresh(r.value.runtime)
      && r.value.manifest == m && r.value.path == path
      && r.value.installedAt == now && r.value.lastAccessed == now
      && ContainerService.IsDefaultRuntime(r.value.runtime, id) && !r.value.IsRunning())
  {
    var valid := m.Validate();
    if valid.Err? {
      return Err(valid.error);
    }
    var sound := ValidateStructure(fs, path, m);
    if sound.Err? {
      return Err(sound.error);
    }
    var runtime := new ContainerService.ContainerRuntime.Default(id);
    var container := new ContainerService.Container(m, path, runtime, now);
    return Ok(container);
  }

  /** `from_directory`: a missing path and a path that is not a directory are rejected
      before the manifest is read; the outcome of reading `manifest.json` is passed in
      as `parsed` and validated, then `new` runs. A manifest that was read means
      `manifest.json` is on the file system. */
  method FromDirectory(fs: HostFs.FileSystem, path: string, parsed: Result<ContainerManifest>,
                       now: ContainerService.Timestamp, id: ContainerService.Uuid)
    returns (r: Result<ContainerService.Container>)
    requires parsed.Ok? ==> HostFs.Exists(fs, HostFs.Join(path, ContainerService.ManifestFileName))
    ensures !HostFs.Exists(fs, path) ==> r == Err(InvalidPath(path, NoReason))
    ensures HostFs.Exists(fs, path) && !HostFs.IsDir(fs, path) ==>
      r == Err(InvalidStructure(ContainerService.NotADirectoryMessage))
    ensures HostFs.IsDir(fs, path) && parsed.Err? ==> r == Err(parsed.error)
    ensures HostFs.IsDir(fs, path) && parsed.Ok? ==>
      (r.Ok? <==> parsed.value.WellFormed() && ContainerService.StructureSound(fs, path, parsed.value))
    ensures HostFs.IsDir(fs, path) && parsed.Ok? && !parsed.value.WellFormed() ==>
      r.Err? && parsed.value.ValidatesTo(Err(r.error))
    ensures (HostFs.IsDir(fs, path) && parsed.Ok? && parsed.value.WellFormed() && r.Err?) ==>
      ContainerService.StructureValidatesTo(fs, path, parsed.value, Err(r.error))
    ensures r.Ok? ==> (fresh(r.value) && fresh(r.value.runtime)
      && r.value.manifest == parsed.value && r.value.path == path
      && r.value.installedAt == now && r.value.lastAccessed == now
      && ContainerService.IsDefaultRuntime(r.value.runtime, id) && !r.value.IsRunning())
  {
    if !HostFs.Exists(fs, path) {
      return Err(InvalidPath(path, NoReason));
    }
    if !HostFs.IsDir(fs, path) {
      return Err(InvalidStructure(ContainerService.NotADirectoryMessage));
    }
    if parsed.Err? {
      return Err(parsed.error);
    }
    var m := parsed.value;
    var valid := m.Validate();
    if valid.Err? {
      return Err(valid.error);
    }
    r := New(m, path, fs, now, id);
  }

  function ConflictMessage(package: string, available: CoreVersion.Version, required: CoreVersion.Version): string
  {
    "Package '" + package + "' version " + CoreVersion.Display(available)
      + " is not compatible with required version " + CoreVersion.Display(required)
  }

  /** The body of the loop of `validate_dependencies`: the package must be available,
      the required version must parse as a triple, and the available version must be
      compatible with it. */
  function CheckAvailable(d: Dependency, available: map<string, CoreVersion.Version>): (r: Result<()>)
    ensures r.Ok? <==> (d.name in available && CoreVersion.FromStr(d.version).Ok?
      && CoreVersion.IsCompatibleWith(available[d.name], CoreVersion.FromStr(d.version).value))
    ensures d.name !in available ==> r == Err(PackageNotFound(d.name))
    ensures d.name in available && CoreVersion.FromStr(d.version).Err? ==> r == Err(InvalidVersion(d.version))
    ensures (d.name in available && CoreVersion.FromStr(d.version).Ok?
      && !CoreVersion.IsCompatibleWith(available[d.name], CoreVersion.FromStr(d.version).value)) ==>
      r == Err(VersionConflict(ConflictMessage(d.name, available[d.name], CoreVersion.FromStr(d.version).value)))
  {
    if d.name !in available then Err(PackageNotFound(d.name))
    else
      var required :- CoreVersion.FromStr(d.version);
      if !CoreVersion.IsCompatibleWith(available[d.name], required) then
        Err(VersionConflict(ConflictMessage(d.name, available[d.name], required)))
      else Ok(())
  }

  /** `validate_dependencies`: each dependency of the manifest in list order; the first
      one that fails decides the error. */
  method ValidateDependencies(container: ContainerService.Container, available: map<string, CoreVersion.Version>)
    returns (r: Result<()>)
    ensures r == FirstError(d => CheckAvailable(d, available), container.manifest.dependencies)
    ensures r.Ok? <==> forall i :: 0 <= i < |container.manifest.dependencies| ==>
      CheckAvailable(container.manifest.dependencies[i], available).Ok?
  {
    var deps := container.manifest.dependencies;
    var check := d => CheckAvailable(d, available);
    var i := 0;
    while i < |deps|
      invariant 0 <= i <= |deps|
      invariant FirstError(check, deps) == FirstError(check, deps[i..])
    {
      assert deps[i..][0] == deps[i];
      assert deps[i..][1..] == deps[i + 1..];
      var single := CheckAvailable(deps[i], available);
      if single.Err? {
        return single;
      }
      i := i + 1;
    }
    return Ok(());
  }
}
