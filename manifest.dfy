/** The container manifest: name, version, scripts, dependencies, environment and
    bindings, with the ordered validation that stops at the first failure. */
module Manifest {
  import opened Errors
  import opened Text
  import FeaturesVersion
  import Bindings

  /** A required package: its name and the version string it asks for. */
  datatype Dependency = Dependency(name: string, version: string, optional: bool)

  const DefaultScriptName: string := "default"
  const DefaultScriptPath: string := "scripts/default.sh"

  const EmptyNameMessage: string := "Container name cannot be empty"
  const InvalidNameMessage: string :=
    "Container name can only contain alphanumeric characters, hyphens, and underscores"
  const EmptyDependencyNameReason: string := "Dependency name cannot be empty"
  const EmptyDependencyVersionReason: string := "Dependency version cannot be empty"

  function EmptyScriptMessage(script: string): string
  {
    "Script '" + script + "' has empty path"
  }

  function InvalidVersionFormatReason(version: string): string
  {
    "Invalid version format: " + version
  }

  /** Rust's `char::is_alphanumeric` (Unicode Alphabetic or Numeric): ASCII letters and
      digits plus a sample of Latin, Greek, Cyrillic, CJK and Arabic-Indic ranges. */
  predicate IsAlphanumeric(c: char)
  {
    ('a' <= c <= 'z') || ('A' <= c <= 'Z') || ('0' <= c <= '9')
    || ('\U{00C0}' <= c <= '\U{00D6}') || ('\U{00D8}' <= c <= '\U{00F6}')
    || ('\U{00F8}' <= c <= '\U{024F}')
    || ('\U{0391}' <= c <= '\U{03A9}' && c != '\U{03A2}') || ('\U{03B1}' <= c <= '\U{03C9}')
    || ('\U{0410}' <= c <= '\U{044F}')
    || ('\U{0660}' <= c <= '\U{0669}')
    || ('\U{4E00}' <= c <= '\U{9FFF}')
  }

  /** A character allowed in a container name. */
  predicate NameChar(c: char)
  {
    IsAlphanumeric(c) || c == '-' || c == '_'
  }

  predicate ValidName(name: string)
  {
    forall i :: 0 <= i < |name| ==> NameChar(name[i])
  }

  /** The dependency check of `validate`: a name, a version, and a version that parses. */
  function CheckDependency(d: Dependency): (r: Result<()>)
    ensures r.Ok? <==> d.name != "" && FeaturesVersion.SemverFormat(d.version)
    ensures d.name == "" ==> r == Err(InvalidDependency("", EmptyDependencyNameReason))
    ensures d.name != "" && d.version == "" ==>
      r == Err(InvalidDependency(d.name, EmptyDependencyVersionReason))
    ensures d.name != "" && d.version != "" && !FeaturesVersion.SemverFormat(d.version) ==>
      r == Err(InvalidDependency(d.name, InvalidVersionFormatReason(d.version)))
  {
    if d.name == "" then Err(InvalidDependency("", EmptyDependencyNameReason))
    else if d.version == "" then Err(InvalidDependency(d.name, EmptyDependencyVersionReason))
    else if FeaturesVersion.FromStr(d.version).Err? then
      Err(InvalidDependency(d.name, InvalidVersionFormatReason(d.version)))
    else Ok(())
  }

  class ContainerManifest {
    var name: string
    var version: FeaturesVersion.Version
    var description: string
    var author: string
    var scripts: map<string, string>
    var dependencies: seq<Dependency>
    var environment: map<string, string>
    var bindings: Bindings.BindingsConfig

    /** `new`: the single script `default -> scripts/default.sh`, nothing else. */
    constructor (name: string, version: FeaturesVersion.Version)
      ensures this.name == name && this.version == version
      ensures description == "" && author == ""
      ensures scripts == map[DefaultScriptName := DefaultScriptPath]
      ensures dependencies == [] && environment == map[]
      ensures fresh(bindings) && bindings.IsEmpty()
    {
      this.name := name;
      this.version := version;
      description := "";
      author := "";
      scripts := map[DefaultScriptName := DefaultScriptPath];
      dependencies := [];
      environment := map[];
      bindings := new Bindings.BindingsConfig();
    }

    /** Every check of `validate` passes. */
    ghost predicate WellFormed()
      reads this
    {
      name != "" && ValidName(name)
      && FeaturesVersion.SemverFormat(version.text)
      && DefaultScriptName in scripts
      && (forall k :: k in scripts ==> scripts[k] != "")
      && forall i :: 0 <= i < |dependencies| ==> CheckDependency(dependencies[i]).Ok?
    }

    /** The outcomes `validate` may produce, check by check in order. The scripts are a
        hash map visited in no fixed order, so with several empty script paths any one
        of them may be reported. */
    ghost predicate ValidatesTo(r: Result<()>)
      reads this
    {
      if name == "" then r == Err(ManifestValidation(EmptyNameMessage))
      else if !ValidName(name) then r == Err(ManifestValidation(InvalidNameMessage))
      else if !FeaturesVersion.SemverFormat(version.text) then r == Err(InvalidVersion(version.text))
      else if DefaultScriptName !in scripts then r == Err(MissingDefaultScript)
      else if exists k :: k in scripts && scripts[k] == "" then
        exists k :: k in scripts && scripts[k] == "" && r == Err(ManifestValidation(EmptyScriptMessage(k)))
      else r == FirstError(CheckDependency, dependencies)
    }

    /** `validate`: name, version, the default script, every script path, then every
        dependency; the first failing check decides the error. */
    method Validate() returns (r: Result<()>)
      ensures ValidatesTo(r)
      ensures r.Ok? <==> WellFormed()
    {
      if name == "" {
        return Err(ManifestValidation(EmptyNameMessage));
      }
      if !ValidName(name) {
        return Err(ManifestValidation(InvalidNameMessage));
      }
      var versionCheck := FeaturesVersion.Validate(version);
      if versionCheck.Err? {
        return Err(versionCheck.error);
      }
      if DefaultScriptName !in scripts {
        return Err(MissingDefaultScript);
      }
      var pending := scripts.Keys;
      while pending != {}
        invariant pending <= scripts.Keys
        invariant forall k :: k in scripts && k !in pending ==> scripts[k] != ""
        decreases pending
      {
        var k :| k in pending;
        if scripts[k] == "" {
          return Err(ManifestValidation(EmptyScriptMessage(k)));
        }
        pending := pending - {k};
      }
      var i := 0;
      while i < |dependencies|
        invariant 0 <= i <= |dependencies|
        invariant FirstError(CheckDependency, dependencies) == FirstError(CheckDependency, dependencies[i..])
      {
        assert dependencies[i..][0] == dependencies[i];
        assert dependencies[i..][1..] == dependencies[i + 1..];
        var check := CheckDependency(dependencies[i]);
        if check.Err? {
          return check;
        }
        i := i + 1;
      }
      return Ok(());
    }

    /** `default_script`: the path of the `default` script. */
    function DefaultScript(): (r: Result<string>)
      reads this
      ensures r.Ok? <==> DefaultScriptName in scripts
      ensures r.Ok? ==> r.value == scripts[DefaultScriptName]
      ensures r.Err? ==> r.error == MissingDefaultScript
    {
      if DefaultScriptName in scripts then Ok(scripts[DefaultScriptName]) else Err(MissingDefaultScript)
    }

    /** `get_script`: the path of the named script, or `ScriptNotFound` naming the
        container and the script. */
    function GetScript(script: string): (r: Result<string>)
      reads this
      ensures r.Ok? <==> script in scripts
      ensures r.Ok? ==> r.value == scripts[script]
      ensures r.Err? ==> r.error == ScriptNotFound(name, script)
    {
      if script in scripts then Ok(scripts[script]) else Err(ScriptNotFound(name, script))
    }

    /** The default script is the script named `default`, with `get_script`'s error
        replaced by `MissingDefaultScript`. */
    lemma DefaultScriptIsGetScript()
      ensures GetScript(DefaultScriptName).Ok? == DefaultScript().Ok?
      ensures DefaultScript().Ok? ==> DefaultScript() == GetScript(DefaultScriptName)
    {
    }

    /** `add_script`: inserts or overwrites one key, nothing else changes. */
    method AddScript(script: string, path: string)
      modifies this
      ensures scripts == old(scripts)[script := path]
      ensures GetScript(script) == Ok(path)
      ensures forall k :: k in old(scripts) && k != script ==> k in scripts && scripts[k] == old(scripts)[k]
      ensures name == old(name) && version == old(version) && dependencies == old(dependencies)
      ensures description == old(description) && author == old(author)
      ensures environment == old(environment) && bindings == old(bindings)
    {
      scripts := scripts[script := path];
    }

    /** `add_dependency`: appends at the end, earlier entries unchanged. */
    method AddDependency(dependency: Dependency)
      modifies this
      ensures dependencies == old(dependencies) + [dependency]
      ensures name == old(name) && version == old(version) && scripts == old(scripts)
      ensures description == old(description) && author == old(author)
      ensures environment == old(environment) && bindings == old(bindings)
    {
      dependencies := dependencies + [dependency];
    }
  }
}
