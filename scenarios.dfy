/** The behaviour the repository's own tests describe, stated over a fresh
    `test-app` manifest, the directory layouts the tests create and small
    registries. */
module Scenarios {
  import opened Errors
  import opened Text
  import CoreVersion
  import FeaturesVersion
  import opened Manifest
  import HostFs
  import ContainerService
  import CoreContainer
  import DependencyGraph

  /** The temporary directory the tests install into. */
  const Base: string := "/tmp/test-app"

  /** A path under the temporary directory, as `temp_dir.path().join(rel)`. */
  function Under(rel: string): string
  {
    HostFs.Join(Base, rel)
  }

  /** `create_test_container_structure`: the three directories, the manifest, the
      default script and both configuration files. */
  function FullLayout(): (fs: HostFs.FileSystem)
    ensures HostFs.IsDir(fs, Base)
  {
    HostFs.FileSystem(
      {Under("manifest.json"), Under("scripts/default.sh"),
       Under("config/permissions.json"), Under("config/environment.json")},
      {Base, Under("scripts"), Under("content"), Under("config")})
  }

  /** The same layout without `scripts/default.sh`. */
  function LayoutWithoutDefaultScript(): HostFs.FileSystem
  {
    HostFs.FileSystem(
      {Under("manifest.json"), Under("config/permissions.json"), Under("config/environment.json")},
      {Base, Under("scripts"), Under("content"), Under("config")})
  }

  /** A directory holding nothing but `manifest.json`. */
  function OnlyManifest(): HostFs.FileSystem
  {
    HostFs.FileSystem({Under("manifest.json")}, {Base})
  }

  /** The version `1.0.0` built with `from_parts`. */
  function V100(): (v: FeaturesVersion.Version)
    ensures FeaturesVersion.SemverFormat(v.text)
  {
    FeaturesVersion.FromParts(1, 0, 0).value
  }

  /** Relative paths that differ name different files under the directory. */
  lemma UnderDistinct(a: string, b: string)
    requires |a| > 0 && a[0] != '/' && |b| > 0 && b[0] != '/'
    ensures Under(a) == Under(b) <==> a == b
  {
    HostFs.JoinInjectiveInRel(Base, a, b);
  }

  /** The temporary directory itself is not one of the files under it. */
  lemma UnderIsNotBase(rel: string)
    requires |rel| > 0 && rel[0] != '/'
    ensures Under(rel) != Base
  {
    assert |Under(rel)| > |Base|;
  }

  /** A manifest as `new("test-app", 1.0.0)` leaves it passes `validate`. */
  lemma FreshManifestWellFormed(m: ContainerManifest)
    requires m.name == "test-app" && m.version == V100()
    requires m.scripts == map[DefaultScriptName := DefaultScriptPath] && m.dependencies == []
    ensures m.WellFormed()
  {
    NameExamples();
  }

  /** The full layout satisfies every structural check for a manifest whose only
      script is the default one. */
  lemma FullLayoutSound(m: ContainerManifest)
    requires m.scripts == map[DefaultScriptName := DefaultScriptPath]
    ensures ContainerService.StructureSound(FullLayout(), Base, m)
  {
    var fs := FullLayout();
    assert forall i :: 0 <= i < |ContainerService.RequiredDirectories| ==>
      HostFs.Exists(fs, Under(ContainerService.RequiredDirectories[i]));
    assert ContainerService.AllScriptsPresent(fs, Base, m);
  }

  /** Without `scripts` the first directory check fails, whatever the manifest. */
  lemma OnlyManifestOutcome(m: ContainerManifest, r: Result<()>)
    requires ContainerService.StructureValidatesTo(OnlyManifest(), Base, m, r)
    ensures r == Err(InvalidStructure(ContainerService.MissingDirectoryMessage("scripts")))
  {
    UnderDistinct("scripts", "manifest.json");
    UnderIsNotBase("scripts");
    assert ContainerService.RequiredDirectories[0] == "scripts";
    assert ContainerService.DirectoryPresent(OnlyManifest(), Base, "scripts")
      == Err(InvalidStructure(ContainerService.MissingDirectoryMessage("scripts")));
  }

  /** A directory with nothing but the manifest is not a sound container. */
  lemma OnlyManifestUnsound(m: ContainerManifest)
    ensures !ContainerService.StructureSound(OnlyManifest(), Base, m)
  {
    UnderDistinct("scripts", "manifest.json");
    UnderIsNotBase("scripts");
    assert ContainerService.RequiredDirectories[0] == "scripts";
  }

  /** Without the script file every check before the scripts passes and the
      default-script check fails. */
  lemma MissingDefaultOutcome(m: ContainerManifest, r: Result<()>)
    requires m.scripts == map[DefaultScriptName := DefaultScriptPath]
    requires ContainerService.StructureValidatesTo(LayoutWithoutDefaultScript(), Base, m, r)
    ensures r == Err(MissingDefaultScript)
  {
    var fs := LayoutWithoutDefaultScript();
    UnderDistinct(DefaultScriptPath, "manifest.json");
    UnderDistinct(DefaultScriptPath, "config/permissions.json");
    UnderDistinct(DefaultScriptPath, "config/environment.json");
    UnderDistinct(DefaultScriptPath, "scripts");
    UnderDistinct(DefaultScriptPath, "content");
    UnderDistinct(DefaultScriptPath, "config");
    UnderIsNotBase(DefaultScriptPath);
    assert forall i :: 0 <= i < |ContainerService.RequiredDirectories| ==>
      HostFs.Exists(fs, Under(ContainerService.RequiredDirectories[i]));
    assert ContainerService.ValidateDefaultScriptExists(fs, Base, m) == Err(MissingDefaultScript);
  }

  /** The layout without the default script file is not a sound container. */
  lemma MissingDefaultUnsound(m: ContainerManifest)
    requires m.scripts == map[DefaultScriptName := DefaultScriptPath]
    ensures !ContainerService.StructureSound(LayoutWithoutDefaultScript(), Base, m)
  {
    UnderDistinct(DefaultScriptPath, "manifest.json");
    UnderDistinct(DefaultScriptPath, "config/permissions.json");
    UnderDistinct(DefaultScriptPath, "config/environment.json");
    UnderDistinct(DefaultScriptPath, "scripts");
    UnderDistinct(DefaultScriptPath, "content");
    UnderDistinct(DefaultScriptPath, "config");
    UnderIsNotBase(DefaultScriptPath);
    assert DefaultScriptName in m.scripts
      && !HostFs.Exists(LayoutWithoutDefaultScript(), Under(m.scripts[DefaultScriptName]));
  }

  /** `test_container_creation`: a fresh manifest in the full layout gives a ready
      container with the manifest's name and version. */
  method CreationScenario() returns (r: Result<ContainerService.Container>)
    ensures r.Ok?
    ensures r.Ok? ==> r.value.manifest.name == "test-app" && r.value.manifest.version == V100()
    ensures r.Ok? ==> r.value.runtime.status == ContainerService.Ready && !r.value.IsRunning()
  {
    var m := new ContainerManifest("test-app", V100());
    FreshManifestWellFormed(m);
    FullLayoutSound(m);
    r := CoreContainer.New(m, Base, FullLayout(), 0, 0);
  }

  /** `test_invalid_container_structure`: only `manifest.json` is present, so the
      first required directory is reported missing. */
  method OnlyManifestScenario() returns (r: Result<ContainerService.Container>)
    ensures r == Err(InvalidStructure(ContainerService.MissingDirectoryMessage("scripts")))
  {
    var m := new ContainerManifest("test-app", V100());
    FreshManifestWellFormed(m);
    OnlyManifestUnsound(m);
    r := CoreContainer.New(m, Base, OnlyManifest(), 0, 0);
    OnlyManifestOutcome(m, Err(r.error));
  }

  /** `test_missing_default_script`: the full layout without the script file fails with
      exactly `MissingDefaultScript`. */
  method MissingDefaultScriptScenario() returns (r: Result<ContainerService.Container>)
    ensures r == Err(MissingDefaultScript)
  {
    var m := new ContainerManifest("test-app", V100());
    FreshManifestWellFormed(m);
    MissingDefaultUnsound(m);
    r := CoreContainer.New(m, Base, LayoutWithoutDefaultScript(), 0, 0);
    MissingDefaultOutcome(m, Err(r.error));
  }

  /** `test_container_runtime_operations`: not running when created, running with pid
      1234 and a start time after `mark_running`, stopped with exit code 0 and a stop
      time after `mark_stopped`. */
  method RuntimeScenario() returns (before: bool, running: bool, pid: Option<U32>, started: bool,
                                    stopped: bool, exitCode: Option<ContainerService.I32>, stoppedAt: bool)
    ensures !before
    ensures running && pid == Some(1234) && started
    ensures !stopped && exitCode == Some(0) && stoppedAt
  {
    var m := new ContainerManifest("test-app", V100());
    FreshManifestWellFormed(m);
    FullLayoutSound(m);
    var r := CoreContainer.New(m, Base, FullLayout(), 0, 0);
    var c := r.value;
    before := c.IsRunning();
    c.MarkRunning(1234, 1);
    running, pid, started := c.IsRunning(), c.runtime.pid, c.runtime.startedAt.Some?;
    c.MarkStopped(0, 2);
    stopped, exitCode, stoppedAt := c.IsRunning(), c.runtime.exitCode, c.runtime.stoppedAt.Some?;
  }

  /** `test_script_path_operations`: with a `build` script added, both script paths
      resolve under the container path, and an unknown script does not. */
  lemma ScriptPaths(c: ContainerService.Container)
    requires c.path == Base && c.manifest.name == "test-app"
    requires c.manifest.scripts == BuildScripts()
    ensures c.GetDefaultScriptPath() == Ok(Under("scripts/default.sh"))
    ensures c.GetScriptPath("build") == Ok(Under("scripts/build.sh"))
    ensures c.GetScriptPath("nonexistent") == Err(ScriptNotFound("test-app", "nonexistent"))
  {
  }

  /** The scripts of that test's manifest, after `add_script("build", ...)`. */
  function BuildScripts(): map<string, string>
  {
    map[DefaultScriptName := DefaultScriptPath]["build" := "scripts/build.sh"]
  }

  /** The full layout with `scripts/build.sh` written as well. */
  function LayoutWithBuildScript(): (fs: HostFs.FileSystem)
    ensures HostFs.IsDir(fs, Base)
  {
    HostFs.FileSystem(FullLayout().paths + {Under("scripts/build.sh")}, FullLayout().dirs)
  }

  /** The `test-app` manifest with the `build` script passes `validate`. */
  lemma BuildManifestWellFormed(m: ContainerManifest)
    requires m.name == "test-app" && m.version == V100()
    requires m.scripts == BuildScripts() && m.dependencies == []
    ensures m.WellFormed()
  {
    NameExamples();
    BuildScriptsDefined(m.scripts);
  }

  /** Both scripts have a path, and one of them is the default. */
  lemma BuildScriptsDefined(scripts: map<string, string>)
    requires scripts == BuildScripts()
    ensures DefaultScriptName in scripts
    ensures forall k :: k in scripts ==> scripts[k] != ""
  {
  }

  /** The layout with the build script is sound for the manifest with both scripts. */
  lemma BuildLayoutSound(m: ContainerManifest)
    requires m.scripts == BuildScripts()
    ensures ContainerService.StructureSound(LayoutWithBuildScript(), Base, m)
  {
    var fs := LayoutWithBuildScript();
    assert forall i :: 0 <= i < |ContainerService.RequiredDirectories| ==>
      HostFs.Exists(fs, Under(ContainerService.RequiredDirectories[i]));
    assert ContainerService.AllScriptsPresent(fs, Base, m);
  }

  /** That test's container: `new` over the layout with both script files succeeds,
      and the two scripts resolve under the container path while an unknown one does
      not. */
  method ScriptPathScenario() returns (r: Result<ContainerService.Container>)
    ensures r.Ok?
    ensures r.Ok? ==> r.value.GetDefaultScriptPath() == Ok(Under("scripts/default.sh"))
    ensures r.Ok? ==> r.value.GetScriptPath("build") == Ok(Under("scripts/build.sh"))
    ensures r.Ok? ==> r.value.GetScriptPath("nonexistent") == Err(ScriptNotFound("test-app", "nonexistent"))
  {
    var m := new ContainerManifest("test-app", V100());
    m.AddScript("build", "scripts/build.sh");
    BuildManifestWellFormed(m);
    BuildLayoutSound(m);
    r := CoreContainer.New(m, Base, LayoutWithBuildScript(), 0, 0);
    ScriptPaths(r.value);
  }

  lemma Split18()
    ensures Split("18.0.0", '.') == ["18", "0", "0"]
  {
    SplitThree("18", "0", "0", '.');
    assert "18.0.0" == "18" + ['.'] + "0" + ['.'] + "0";
  }

  lemma Fields18()
    ensures ParseU32("18") == Some(18) && ParseU32("0") == Some(0)
  {
    assert DecimalValue("1") == 1 by { assert "1"[..0] == ""; }
    assert DecimalValue("18") == 18 by { assert "18"[..1] == "1"; }
    assert DecimalValue("0") == 0 by { assert "0"[..0] == ""; }
  }

  /** `"18.0.0"` parses as the triple 18.0.0. */
  lemma Parses18()
    ensures CoreVersion.FromStr("18.0.0") == Ok(CoreVersion.Version(18, 0, 0))
  {
    Split18();
    Fields18();
  }

  /** `test_dependency_validation` of the container: a container requiring
      `node-runtime 18.0.0` is satisfied exactly when the available version is
      compatible with 18.0.0, and a missing package is reported by name. */
  method NodeRuntimeScenario(available: map<string, CoreVersion.Version>) returns (r: Result<()>)
    ensures r.Ok? <==> ("node-runtime" in available
      && CoreVersion.IsCompatibleWith(available["node-runtime"], CoreVersion.Version(18, 0, 0)))
    ensures "node-runtime" !in available ==> r == Err(PackageNotFound("node-runtime"))
  {
    var m := new ContainerManifest("test-app", V100());
    m.AddDependency(Dependency("node-runtime", "18.0.0", false));
    NodeManifestWellFormed(m);
    FullLayoutSound(m);
    var created := CoreContainer.New(m, Base, FullLayout(), 0, 0);
    var c := created.value;
    Parses18();
    r := CoreContainer.ValidateDependencies(c, available);
    assert c.manifest.dependencies == [Dependency("node-runtime", "18.0.0", false)];
  }

  /** The `test-app` manifest requiring `node-runtime 18.0.0` passes `validate`. */
  lemma NodeManifestWellFormed(m: ContainerManifest)
    requires m.name == "test-app" && m.version == V100()
    requires m.scripts == map[DefaultScriptName := DefaultScriptPath]
    requires m.dependencies == [Dependency("node-runtime", "18.0.0", false)]
    ensures m.WellFormed()
  {
    NameExamples();
    NodeListPasses(m.dependencies);
  }

  /** Every dependency of `[node-runtime 18.0.0]` passes its check. */
  lemma NodeListPasses(deps: seq<Dependency>)
    requires deps == [Dependency("node-runtime", "18.0.0", false)]
    ensures forall i :: 0 <= i < |deps| ==> CheckDependency(deps[i]).Ok?
  {
    NodeDependencyPasses();
  }

  /** The three versions the test offers: 18.0.0 and 18.1.0 satisfy 18.0.0, 17.0.0 does not. */
  lemma NodeRuntimeVersions()
    ensures CoreVersion.IsCompatibleWith(CoreVersion.Version(18, 0, 0), CoreVersion.Version(18, 0, 0))
    ensures CoreVersion.IsCompatibleWith(CoreVersion.Version(18, 1, 0), CoreVersion.Version(18, 0, 0))
    ensures !CoreVersion.IsCompatibleWith(CoreVersion.Version(17, 0, 0), CoreVersion.Version(18, 0, 0))
  {
  }

  /** `"18.0.0"` matches the version pattern. */
  lemma Matches18()
    ensures FeaturesVersion.SemverFormat("18.0.0")
  {
    FeaturesVersion.FieldsMatchPattern("18", "0", "0");
    assert "18" + "." + "0" + "." + "0" == "18.0.0";
  }

  /** `test_manifest_validation`: for a manifest that is otherwise as `new` leaves it,
      the outcome of `validate` depends on the name alone. */
  method NameScenario(name: string) returns (r: Result<()>)
    ensures name == "" ==> r == Err(ManifestValidation(EmptyNameMessage))
    ensures name != "" && !ValidName(name) ==> r == Err(ManifestValidation(InvalidNameMessage))
    ensures name != "" && ValidName(name) ==> r == Ok(())
  {
    var m := new ContainerManifest(name, V100());
    r := m.Validate();
  }

  /** The names of the test: "test@app" is rejected, "test-app" and "test-app_123"
      are accepted. */
  lemma NameExamples()
    ensures !ValidName("test@app")
    ensures ValidName("test-app") && ValidName("test-app_123")
  {
    assert !NameChar("test@app"[4]);
  }

  /** `test_missing_default_script` of the manifest: with a valid name and version but
      no `default` key the error is exactly `MissingDefaultScript`. */
  lemma NoDefaultOutcome(m: ContainerManifest, r: Result<()>)
    requires m.name == "test-app" && m.version == V100() && DefaultScriptName !in m.scripts
    requires m.ValidatesTo(r)
    ensures r == Err(MissingDefaultScript)
  {
    NameExamples();
  }

  /** The dependency lists of the manifest test: `node-runtime 18.0.0` alone passes;
      with a nameless dependency after it, that one is the first failure. */
  lemma ManifestDependencyLists()
    ensures FirstError(CheckDependency, [Dependency("node-runtime", "18.0.0", false)]) == Ok(())
    ensures FirstError(CheckDependency,
      [Dependency("node-runtime", "18.0.0", false), Dependency("", "1.0.0", false)])
      == Err(InvalidDependency("", EmptyDependencyNameReason))
  {
    var node, nameless := Dependency("node-runtime", "18.0.0", false), Dependency("", "1.0.0", false);
    NodeDependencyPasses();
    assert [node, nameless][1..] == [nameless];
    assert [node][1..] == [];
    assert CheckDependency(nameless) == Err(InvalidDependency("", EmptyDependencyNameReason));
  }

  lemma NodeDependencyPasses()
    ensures CheckDependency(Dependency("node-runtime", "18.0.0", false)) == Ok(())
  {
    Matches18();
  }

  /** For the fresh `test-app` manifest with the given dependencies, `validate`
      reports what the dependency checks report. */
  lemma DependenciesDecide(m: ContainerManifest, r: Result<()>)
    requires m.name == "test-app" && m.version == V100()
    requires m.scripts == map[DefaultScriptName := DefaultScriptPath]
    requires m.ValidatesTo(r)
    ensures r == FirstError(CheckDependency, m.dependencies)
  {
    NameExamples();
  }

  /** `test_dependency_validation` of the manifest: `node-runtime 18.0.0` passes; a
      second dependency with an empty name is then the first failure. */
  method ManifestDependencyScenario() returns (one: Result<()>, two: Result<()>)
    ensures one == Ok(())
    ensures two == Err(InvalidDependency("", EmptyDependencyNameReason))
  {
    var m := new ContainerManifest("test-app", V100());
    m.AddDependency(Dependency("node-runtime", "18.0.0", false));
    one := m.Validate();
    DependenciesDecide(m, one);
    m.AddDependency(Dependency("", "1.0.0", false));
    two := m.Validate();
    DependenciesDecide(m, two);
    ManifestDependencyLists();
  }

  /** Two containers that depend on each other make the graph `A -> B, B -> A`. */
  lemma CycleRegistry(ca: ContainerService.Container, cb: ContainerService.Container)
    requires ca.manifest.dependencies == [Dependency("B", "1.0.0", false)]
    requires cb.manifest.dependencies == [Dependency("A", "1.0.0", false)]
    ensures ContainerService.Registry(map["A" := ca, "B" := cb]) == map["A" := ["B"], "B" := ["A"]]
  {
    var g := ContainerService.Registry(map["A" := ca, "B" := cb]);
    assert g["A"] == ["B"] && g["B"] == ["A"];
  }

  /** On the graph `A -> B, B -> A` the search from `A` with an empty stack reports
      "A -> B" and leaves the stack `[A, B]`. */
  lemma CycleOutcome(containers: map<string, ContainerService.Container>, r: Result<()>, after: seq<string>)
    requires ContainerService.Registry(containers) == map["A" := ["B"], "B" := ["A"]]
    requires ContainerService.CircularCheckOutcome(
      DependencyGraph.Dfs(ContainerService.Registry(containers), [], "A"), [], r, after)
    ensures r == Err(CircularDependency("A -> B")) && after == ["A", "B"]
  {
    DependencyGraph.TwoCycleExample();
    ContainerService.TwoCycleChain();
  }

  /** Two installed containers that depend on each other: the search from `A` reports
      the chain "A -> B" and leaves both names on the stack. */
  method CycleScenario() returns (r: Result<()>, after: seq<string>)
    ensures r == Err(CircularDependency("A -> B"))
    ensures after == ["A", "B"]
  {
    var a := new ContainerManifest("A", V100());
    a.AddDependency(Dependency("B", "1.0.0", false));
    var b := new ContainerManifest("B", V100());
    b.AddDependency(Dependency("A", "1.0.0", false));
    var rta := new ContainerService.ContainerRuntime.Default(0);
    var ca := new ContainerService.Container(a, "/srv/A", rta, 0);
    var rtb := new ContainerService.ContainerRuntime.Default(1);
    var cb := new ContainerService.Container(b, "/srv/B", rtb, 0);
    var containers := map["A" := ca, "B" := cb];
    r, after := ContainerService.CheckCircularDependencies(containers, [], "A");
    CycleRegistry(ca, cb);
    CycleOutcome(containers, r, after);
  }
}
