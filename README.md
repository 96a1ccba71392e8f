# wrappy container validation and dependency consistency, in Dafny

wrappy installs applications as *containers*: a directory with `scripts/`,
`content/` and `config/`, a `manifest.json`, `config/permissions.json` and
`config/environment.json`. The manifest names the container and gives its
version, its scripts and the packages it depends on. This project models the
part of wrappy that decides whether such a container is acceptable and
consistent. It also proves what those decisions mean.

- **Manifest** (`Manifest`): `ContainerManifest::new` and `validate`. Validation
  checks the name, then the version, then the default script, then every script
  path, then every dependency. The scripts are a hash map, so when several
  script paths are empty, any one of them may be reported. `default_script`,
  `get_script`, `add_script` and `add_dependency` are modelled as well.
- **Versions.** There are two version types:
  - `CoreVersion` is the `u32` triple `Version(major, minor, patch)`, with
    `FromStr`, `Display`, its comparison and `is_compatible_with`.
  - `FeaturesVersion` is the string-backed version. A string is accepted when
    it matches the anchored pattern `(0|[1-9]\d*)\.(0|[1-9]\d*)\.(0|[1-9]\d*)`.
    It is read back as a `u32` triple by `split('.')` and `u32::from_str`
    whenever it is compared.
- **Text** (`Text`):
  - `str::split` and `Vec::join`;
  - the decimal rendering of `{}`;
  - Rust's `u32::from_str`, which accepts a leading `+` and leading zeros and
    rejects values above `u32::MAX`.
- **Host file system** (`HostFs`): a set of paths and a set of directories,
  plus `PathBuf::join`, where an absolute right-hand side replaces the base.
- **Container service** (`ContainerService`):
  - the runtime record and its transitions (`mark_running`, `mark_stopped`,
    `mark_error`, `update_last_accessed`);
  - script path resolution;
  - the structure checks, in their order and with their exact error messages;
  - `create_container` and `load_from_directory`;
  - dependency availability against a table of installed versions;
  - the recursive circular-dependency search.
- **Older container type** (`CoreContainer`): the same structure checks run
  inline. A missing path is reported without a reason, and dependencies are
  checked against the triple version.
- **Bindings** (`Bindings`): the bindings configuration: empty on creation, and
  it grows by one binding per `add_*`.

The circular-dependency search is specified by the pure functions
`DependencyGraph.Dfs`/`DfsAll`:

- They return the search stack at the moment a name already on the stack is
  reached again.
- They are proved to report a cycle from an empty stack exactly when some walk
  from the start closes on itself (`DfsFindsExactlyReachableCycles`).
- The imperative search proves that it returns exactly what they describe, and
  that the stack it hands back is the one it was given whenever no cycle is
  found.

Clocks, UUIDs, the file system and the parsed manifest file are parameters;
nothing is read from the host.

## Model

| member | source | states |
|---|---|---|
| `Errors.FirstError` | src/features/container/service.rs:214-217 | a `for` loop of `?` checks succeeds iff every item passes; otherwise its error is that of an item all of whose predecessors pass |
| `Errors.FirstErrorHead` | src/features/container/service.rs:214-217 | an item that fails at the head of the list decides the outcome |
| `Errors.FirstErrorAppend` | src/features/manifest/mod.rs:152-174 | appending an item changes the outcome only when all earlier items pass, and then the outcome is that of the new item |
| `Text.IndexOf` | src/features/version/mod.rs:55 | the index of the first occurrence of the separator, or the length when it is absent |
| `Text.Split` | src/features/version/mod.rs:55 | `split` gives at least one piece and no piece contains the separator |
| `Text.JoinSplit` | src/features/version/mod.rs:55 | joining the pieces of `split` with the separator gives back the string |
| `Text.SplitJoin` | src/features/container/service.rs:254 | splitting a join of separator-free pieces gives back the pieces |
| `Text.SplitThree` | src/core/version/mod.rs:48-54 | three separator-free fields joined by two separators split into exactly those three |
| `Text.SplitThreeJoin` | src/core/version/mod.rs:48-54 | a string that splits into three pieces is those pieces joined by the separator |
| `Text.DigitChar` | src/core/version/mod.rs:40 | a digit below ten renders as the ASCII digit of that value |
| `Text.NatToString` | src/core/version/mod.rs:40 | `{}` of a number is canonical decimal (no leading zero) whose value is the number |
| `Text.CanonicalRoundTrip` | src/core/version/mod.rs:40 | a canonical decimal string is the rendering of its own value |
| `Text.NatToStringHasNoDot` | src/features/version/mod.rs:28 | a rendered number contains no `.` |
| `Text.ParseU32OfNatToString` | src/core/version/mod.rs:56-72 | `u32::from_str` reads the rendering of any `u32` back as that number |
| `Text.ParseU32RejectsOverflow` | src/core/version/mod.rs:56-72 | `u32::from_str` rejects the rendering of any number above `u32::MAX` |
| `Text.ParseU32LeadingZero` | src/core/version/mod.rs:56-72 | `u32::from_str` ignores a leading zero |
| `Text.ParseU32LeadingPlus` | src/core/version/mod.rs:56-72 | `u32::from_str` accepts one leading `+` |
| `Text.ParseU32Digits` | src/core/version/mod.rs:56-72 | an accepted string is an optional `+` followed by ASCII digits whose decimal value is the result |
| `CoreVersion.New` | src/core/version/mod.rs:17-23 | the version holds the three components given |
| `CoreVersion.Validate` | src/core/version/mod.rs:31-35 | every triple is valid |
| `CoreVersion.FromStr` | src/core/version/mod.rs:47-77 | parsing succeeds iff the string splits into three pieces that are each a `u32`; every failure is `InvalidVersion` of the whole string |
| `CoreVersion.FromStrDisplay` | src/core/version/mod.rs:38-77 | parsing the display of a version gives back that version |
| `CoreVersion.FromStrAcceptsNonCanonical` | src/core/version/mod.rs:47-77 | `"01.+2.3"` parses as `1.2.3`, which displays differently, so display does not invert parsing |
| `CoreVersion.FromStrRejectsTwoPieces` | src/features/version/tests.rs:27-29 | `"1.2"` is rejected with `InvalidVersion("1.2")` |
| `CoreVersion.FromStrRejectsFourPieces` | src/features/version/tests.rs:31-32 | `"1.2.3.4"` is rejected with `InvalidVersion("1.2.3.4")` |
| `CoreVersion.FromStrRejectsNonNumeric` | src/features/version/tests.rs:34-35 | `"1.a.3"` is rejected with `InvalidVersion("1.a.3")` |
| `CoreVersion.SplitExample` | src/core/version/mod.rs:48 | `"01.+2.3"` splits into `"01"`, `"+2"`, `"3"` |
| `CoreVersion.ParseU32Examples` | src/core/version/mod.rs:56-72 | `u32::from_str` reads `"01"`, `"+2"` and `"3"` as 1, 2 and 3 |
| `CoreVersion.CmpIsTotalOrder` | src/core/version/mod.rs:8 | the derived lexicographic order is total: `Equal` iff identical, antisymmetric and transitive |
| `CoreVersion.OrderingExamples` | src/features/version/tests.rs:53-62 | `1.0.0 < 1.0.1 < 1.1.0 < 2.0.0` |
| `CoreVersion.CompatibilityLaws` | src/core/version/mod.rs:27-29 | compatibility is reflexive and transitive, never holds across major versions, and holds both ways only between equal versions |
| `CoreVersion.CompatibilityExamples` | src/features/version/tests.rs:39-50 | the five compatibility cases of the version tests |
| `FeaturesVersion.SemverFormatIsThreeFields` | src/features/version/mod.rs:39-48 | the anchored pattern matches iff the string splits on `.` into exactly three pattern fields |
| `FeaturesVersion.ValidateVersionFormat` | src/features/version/mod.rs:38-51 | the format check passes iff the string splits into three fields of the pattern; otherwise `InvalidVersion` of the string |
| `FeaturesVersion.Validate` | src/features/version/mod.rs:33-35 | a version is valid iff its text matches the pattern; otherwise `InvalidVersion` of the text |
| `FeaturesVersion.New` | src/features/version/mod.rs:18-24 | construction succeeds iff the string matches the pattern, and keeps the string verbatim |
| `FeaturesVersion.ParseComponents` | src/features/version/mod.rs:54-82 | every failure to read the triple is `InvalidVersion` of the text |
| `FeaturesVersion.ParseComponentsAgreesWithCore` | src/features/version/mod.rs:54-82 | reading the triple succeeds exactly when the triple version's `from_str` does, and gives the same components |
| `FeaturesVersion.FromParts` | src/features/version/mod.rs:27-30 | formatting three `u32`s always gives a valid version whose triple reads back as those three numbers |
| `FeaturesVersion.FormattedParts` | src/features/version/mod.rs:27-30 | the `{}.{}.{}` rendering matches the pattern and reads back as its components |
| `FeaturesVersion.FormattedSplits` | src/features/version/mod.rs:55 | three canonical numbers joined by dots split back into those numbers |
| `FeaturesVersion.CanonicalIsNumericField` | src/features/version/mod.rs:39 | a canonical decimal is one field of the pattern |
| `FeaturesVersion.ParsedFieldIsCanonical` | src/features/version/mod.rs:39-82 | a pattern field that `u32::from_str` accepts is canonical ASCII decimal with that value |
| `FeaturesVersion.NumericFieldHasNoDot` | src/features/version/mod.rs:39 | a field of the pattern contains no `.` |
| `FeaturesVersion.Major` | src/features/version/mod.rs:101-105 | the major component when the triple reads, otherwise `InvalidVersion` |
| `FeaturesVersion.Minor` | src/features/version/mod.rs:107-111 | the minor component when the triple reads, otherwise `InvalidVersion` |
| `FeaturesVersion.Patch` | src/features/version/mod.rs:113-116 | the patch component when the triple reads, otherwise `InvalidVersion` |
| `FeaturesVersion.FromStr` | src/features/version/mod.rs:125-131 | `parse` accepts exactly the strings matching the pattern; otherwise `InvalidVersion` of the string |
| `FeaturesVersion.DisplayFromStrRoundTrip` | src/features/version/mod.rs:119-131 | display and `parse` are mutually inverse on valid versions |
| `FeaturesVersion.CanonicalComponents` | src/features/version/mod.rs:39-82 | a valid version whose triple reads is the `{}.{}.{}` rendering of that triple |
| `FeaturesVersion.CmpEqualIffSame` | src/features/version/mod.rs:139-150 | on valid, readable versions the order says `Equal` exactly for equal versions |
| `FeaturesVersion.CmpIsTotalPreorder` | src/features/version/mod.rs:139-150 | the order is antisymmetric, transitive and reflexive over all strings, unreadable ones included |
| `FeaturesVersion.CompareTriplesLaws` | src/features/version/mod.rs:143 | lexicographic comparison of triples is antisymmetric, transitive and reflexive |
| `FeaturesVersion.CompareTriplesEqual` | src/features/version/mod.rs:143 | triples compare `Equal` exactly when they are identical |
| `FeaturesVersion.CompatibilityLaws` | src/features/version/mod.rs:86-93 | compatible iff both read, with equal majors and not less; reflexive exactly on readable versions; transitive |
| `FeaturesVersion.FromPartsAgreesWithCore` | src/features/version/mod.rs:27-30 | versions built from parts are compatible, ordered and displayed as the triple versions are |
| `FeaturesVersion.OverflowIsValidButUnparseable` | src/features/version/mod.rs:38-93 | `4294967296.0.0` passes validation, but its triple does not read; it is compatible with nothing, not even itself, and it sorts below every readable version |
| `FeaturesVersion.UnicodeDigitIsValidButUnparseable` | src/features/version/mod.rs:38-82 | a non-ASCII decimal digit passes the Unicode-aware `\d`, but `u32::from_str` rejects it |
| `FeaturesVersion.UnicodeField` | src/features/version/mod.rs:39 | `"1"` followed by an Arabic-Indic digit is a pattern field that `u32::from_str` rejects |
| `FeaturesVersion.UnicodeFieldSplit` | src/features/version/mod.rs:55 | `"1.0.1"` followed by an Arabic-Indic digit splits into three pieces |
| `FeaturesVersion.UnparseableComparedEqual` | src/features/version/mod.rs:147 | two different unreadable versions compare `Equal` |
| `FeaturesVersion.FromStrExamples` | src/features/version/tests.rs:21-36 | `"1.2.3"` parses with major 1; `"1.2"`, `"1.2.3.4"`, `"1.a.3"` and `"01.2.3"` are rejected |
| `FeaturesVersion.Accepts123` | src/features/version/tests.rs:21-24 | `"1.2.3"` matches the pattern and reads as `(1, 2, 3)` |
| `FeaturesVersion.RejectsTwoPieces` | src/features/version/tests.rs:27-29 | `"1.2"` does not match the pattern |
| `FeaturesVersion.RejectsFourPieces` | src/features/version/tests.rs:31-32 | `"1.2.3.4"` does not match the pattern |
| `FeaturesVersion.RejectsNonNumeric` | src/features/version/tests.rs:34-35 | `"1.a.3"` does not match the pattern |
| `FeaturesVersion.RejectsLeadingZero` | src/features/version/mod.rs:39 | `"01.2.3"` does not match the pattern |
| `HostFs.DirExists` | src/features/container/service.rs:94-101 | a directory exists |
| `HostFs.Join` | src/features/container/service.rs:177 | `PathBuf::join`: an absolute right-hand side replaces the base; otherwise it is appended with at most one separator |
| `HostFs.JoinInjectiveInRel` | src/features/container/service.rs:177 | joining distinct relative paths onto one base gives distinct paths |
| `Bindings.DefaultBindingType` | src/features/bindings/types.rs:16-20 | the default binding type is `Wrapper` |
| `Bindings.BindingsConfig.IsEmptyIffNoBindings` | src/features/bindings/types.rs:97-99 | the configuration is empty exactly when it holds no binding |
| `Bindings.BindingsConfig.constructor` | src/features/bindings/types.rs:81-83 | a new configuration has no bindings and is empty |
| `Bindings.BindingsConfig.AddExecutable` | src/features/bindings/types.rs:85-87 | appends the binding to the executables, leaves the other lists alone, and the configuration becomes non-empty |
| `Bindings.BindingsConfig.AddConfig` | src/features/bindings/types.rs:89-91 | appends the binding to the configs, leaves the other lists alone, and the configuration becomes non-empty |
| `Bindings.BindingsConfig.AddData` | src/features/bindings/types.rs:93-95 | appends the binding to the data list, leaves the other lists alone, and the configuration becomes non-empty |
| `Manifest.CheckDependency` | src/features/manifest/mod.rs:152-173 | a dependency passes iff its name is non-empty and its version matches the pattern; each of the three failures has its own reason |
| `Manifest.ContainerManifest.constructor` | src/features/manifest/mod.rs:67-81 | a new manifest has the given name and version, only the default script `scripts/default.sh`, empty bindings and nothing else |
| `Manifest.ContainerManifest.Validate` | src/features/manifest/mod.rs:114-177 | validation passes iff the manifest is well formed; any error is one that the checks in their order allow |
| `Manifest.ContainerManifest.DefaultScript` | src/features/manifest/mod.rs:179-183 | the default script's path when there is one, otherwise `MissingDefaultScript` |
| `Manifest.ContainerManifest.GetScript` | src/features/manifest/mod.rs:185-192 | the script's path when it is defined, otherwise `ScriptNotFound` naming the container and the script |
| `Manifest.ContainerManifest.DefaultScriptIsGetScript` | src/features/manifest/mod.rs:179-192 | looking up the default script directly and by name agree on success |
| `Manifest.ContainerManifest.AddScript` | src/features/manifest/mod.rs:194-196 | inserts or overwrites one script, after which it can be looked up; every other script and field is unchanged |
| `Manifest.ContainerManifest.AddDependency` | src/features/manifest/mod.rs:198-200 | appends the dependency; every other field is unchanged |
| `ContainerService.ContainerRuntime.Default` | src/features/container/service.rs:35-47 | a fresh runtime is `Ready` with the given id, no process, no timestamps, no exit code and no errors |
| `ContainerService.Container.constructor` | src/features/container/service.rs:72-78 | a container records its manifest, path and runtime, installed and last accessed now |
| `ContainerService.Container.GetScriptPath` | src/features/container/service.rs:296-299 | the script's path joined onto the container path, or `ScriptNotFound` when the script is undefined (also src/core/container/mod.rs:193-196) |
| `ContainerService.Container.GetDefaultScriptPath` | src/features/container/service.rs:301-303 | the default script's path joined onto the container path; when it is absent, `ScriptNotFound` for `default` (not `MissingDefaultScript`) (also src/core/container/mod.rs:198-200) |
| `ContainerService.Container.UpdateLastAccessed` | src/features/container/service.rs:306-308 | the access time becomes now |
| `ContainerService.Container.MarkRunning` | src/features/container/service.rs:312-317 | status `Running` with the pid, started and accessed now, the rest of the runtime unchanged, so `is_running` (src/features/container/service.rs:291-293) holds; the older copies are src/core/container/mod.rs:188-190 and 209-214 |
| `ContainerService.Container.MarkStopped` | src/features/container/service.rs:321-326 | status `Stopped`, no pid, stopped now with the exit code, the start time and errors unchanged, so `is_running` no longer holds (also src/core/container/mod.rs:218-223) |
| `ContainerService.Container.MarkError` | src/features/container/service.rs:330-334 | status `Error`, the error appended to the history, stopped now, pid and exit code unchanged (also src/core/container/mod.rs:227-231) |
| `ContainerService.ValidatePathExists` | src/features/container/service.rs:93-108 | passes iff the path is a directory; a missing path and a non-directory each give their own error |
| `ContainerService.ValidateRequiredDirectories` | src/features/container/service.rs:134-145 | passes iff `scripts`, `content` and `config` all exist; otherwise the first missing one in that order is named |
| `ContainerService.ValidateManifestFileExists` | src/features/container/service.rs:148-156 | passes iff `manifest.json` exists |
| `ContainerService.ValidateDefaultScriptExists` | src/features/container/service.rs:166-172 | passes iff the default script is defined and its file exists; otherwise `MissingDefaultScript` |
| `ContainerService.ValidateAllScriptsExist` | src/features/container/service.rs:175-186 | passes iff every script file exists; otherwise `ScriptNotFound` for some script whose file is missing |
| `ContainerService.ValidateScriptsExist` | src/features/container/service.rs:159-163 | the default script check, then the check of every script |
| `ContainerService.ValidateConfigFilesExist` | src/features/container/service.rs:189-206 | passes iff both config files exist; the permissions file is checked first |
| `ContainerService.ValidateStructure` | src/features/container/service.rs:123-131 | passes iff the directory is structurally sound; any error is one that the five checks in their order allow |
| `ContainerService.CreateContainer` | src/features/container/service.rs:66-79 | succeeds iff the manifest is well formed and the structure sound; the manifest error comes first; a new container is ready, not running, installed and accessed now |
| `ContainerService.LoadFromDirectory` | src/features/container/service.rs:83-90 | a path that is not a directory is rejected before the manifest is read; a parse error is passed through; otherwise the outcome is that of `create_container`: an invalid manifest's error, else the structure check's error, else a fresh container with a fresh `Ready` runtime of the given id, installed and accessed now |
| `ContainerService.ValidateSingleDependency` | src/features/container/service.rs:221-243 | passes iff the package is installed, the required version parses and the installed one is compatible with it; each failure has its own error |
| `ContainerService.ValidateDependencies` | src/features/container/service.rs:210-218 | the first dependency that fails, in manifest order, decides; it passes iff every one does |
| `ContainerService.DependencyNames` | src/features/container/service.rs:261-262 | the names of the dependencies, in order |
| `ContainerService.Registry` | src/features/container/service.rs:258-261 | the dependency graph of the installed containers: each container mapped to its dependency names |
| `ContainerService.CheckCircularDependencies` | src/features/container/service.rs:247-269 | fails with the stack joined by ` -> ` exactly when the reference search finds a cycle; when it finds none, the stack is handed back unchanged (the same search is src/core/container/mod.rs:275-297) |
| `ContainerService.CheckDependenciesOf` | src/features/container/service.rs:261-263 | the inner loop: the first dependency whose search finds a cycle decides |
| `ContainerService.TwoCycleChain` | src/features/container/service.rs:252-255 | `A -> B -> A` is reported with the chain `A -> B` |
| `DependencyGraph.PushShrinks` | src/features/container/service.rs:258-259 | pushing an installed name that is not yet on the stack leaves fewer names that can be pushed, so the search terminates |
| `DependencyGraph.DfsSound` | src/features/container/service.rs:247-269 | a reported stack extends the stack on entry, and some walk from the start closes on it |
| `DependencyGraph.DfsComplete` | src/features/container/service.rs:247-269 | every walk that closes on the stack makes the search report a cycle |
| `DependencyGraph.DfsFindsExactlyReachableCycles` | src/features/container/service.rs:247-269 | from an empty stack, a cycle is reported iff one is reachable from the start |
| `DependencyGraph.DfsEntryCases` | src/features/container/service.rs:252-258 | a name already on the stack is reported with the stack as it is; a name that is not installed is a leaf |
| `DependencyGraph.DfsPush` | src/features/container/service.rs:258-263 | an installed name not on the stack is pushed, and its dependencies are searched in order |
| `DependencyGraph.TwoCycleExample` | src/features/container/service.rs:247-269 | `A -> B, B -> A` from `A` stops with the stack `[A, B]` |
| `DependencyGraph.DiamondExample` | src/features/container/service.rs:247-269 | a diamond reaches a name twice, never while that name is on the stack, so it has no cycle |
| `CoreContainer.ValidateStructure` | src/core/container/mod.rs:107-174 | the same checks and verdict as the service; a missing path is `InvalidPath` without a reason |
| `CoreContainer.New` | src/core/container/mod.rs:63-79 | succeeds iff the manifest is well formed and the structure sound; the manifest error comes first; a new container is ready and not running |
| `CoreContainer.FromDirectory` | src/core/container/mod.rs:83-103 | a missing path and a non-directory are rejected first; then a parse error, then the manifest check, then `new`: the structure check's error for a valid manifest, else a fresh container with a fresh `Ready` runtime of the given id, installed and accessed now |
| `CoreContainer.CheckAvailable` | src/core/container/mod.rs:248-267 | passes iff the package is installed, the required triple parses and the installed triple is compatible; each failure has its own error |
| `CoreContainer.ValidateDependencies` | src/core/container/mod.rs:247-271 | the first dependency that fails, in manifest order, decides; it passes iff every one does |
| `Scenarios.FullLayout` | src/core/container/tests.rs:11-26 | the layout of the test helper has its base as a directory |
| `Scenarios.V100` | src/core/container/tests.rs:33 | `1.0.0` matches the version pattern |
| `Scenarios.FreshManifestWellFormed` | src/core/manifest/tests.rs:23-31 | a new `test-app` manifest at `1.0.0` validates |
| `Scenarios.FullLayoutSound` | src/core/container/tests.rs:11-26 | the full test layout is structurally sound for a manifest with only the default script |
| `Scenarios.OnlyManifestUnsound` | src/core/container/tests.rs:65-78 | a directory holding only `manifest.json` is not sound |
| `Scenarios.OnlyManifestOutcome` | src/core/container/tests.rs:65-78 | and its error names the missing `scripts` directory |
| `Scenarios.MissingDefaultUnsound` | src/core/container/tests.rs:81-100 | the layout without `scripts/default.sh` is not sound |
| `Scenarios.MissingDefaultOutcome` | src/core/container/tests.rs:81-100 | and its error is `MissingDefaultScript` |
| `Scenarios.CreationScenario` | src/core/container/tests.rs:29-45 | creation succeeds with name `test-app`, version `1.0.0`, status `Ready` |
| `Scenarios.OnlyManifestScenario` | src/core/container/tests.rs:65-78 | creating from only a manifest fails, naming the missing `scripts` directory |
| `Scenarios.MissingDefaultScriptScenario` | src/core/container/tests.rs:81-100 | creating without the default script fails with `MissingDefaultScript` |
| `Scenarios.RuntimeScenario` | src/core/container/tests.rs:103-128 | not running at first; running with pid 1234 and a start time; then stopped with exit code 0 and a stop time |
| `Scenarios.ScriptPaths` | src/core/container/tests.rs:131-157 | the default and `build` scripts resolve under the container path; `nonexistent` is `ScriptNotFound` |
| `Scenarios.LayoutWithBuildScript` | src/core/container/tests.rs:140-143 | the full test layout plus `scripts/build.sh`, with its base as a directory |
| `Scenarios.BuildManifestWellFormed` | src/core/container/tests.rs:133-139 | the `test-app` manifest with the added `build` script validates |
| `Scenarios.BuildScriptsDefined` | src/core/container/tests.rs:139 | both scripts of that manifest have a path, and one is the default |
| `Scenarios.BuildLayoutSound` | src/core/container/tests.rs:140-145 | the layout with the build script is structurally sound for that manifest |
| `Scenarios.ScriptPathScenario` | src/core/container/tests.rs:131-157 | `Container::new` over that layout succeeds; the default and `build` scripts resolve under the container path and `nonexistent` is `ScriptNotFound` |
| `Scenarios.NodeManifestWellFormed` | src/core/container/tests.rs:162-175 | the `test-app` manifest requiring `node-runtime 18.0.0` validates, so `Container::new` accepts it |
| `Scenarios.NodeListPasses` | src/core/container/tests.rs:168-172 | the single `node-runtime 18.0.0` dependency passes its check |
| `Scenarios.Parses18` | src/core/container/tests.rs:168-172 | `"18.0.0"` parses as the triple `18.0.0` |
| `Scenarios.NodeRuntimeScenario` | src/core/container/tests.rs:160-194 | a container made by `Container::new` with the `node-runtime 18.0.0` dependency passes iff an installed compatible version exists; a missing package is `PackageNotFound` |
| `Scenarios.NodeRuntimeVersions` | src/core/container/tests.rs:177-189 | 18.0.0 and 18.1.0 satisfy `18.0.0`; 17.0.0 does not |
| `Scenarios.NameScenario` | src/core/manifest/tests.rs:23-44 | an empty name, an invalid name and a valid name each meet the outcome their checks give |
| `Scenarios.NameExamples` | src/core/manifest/tests.rs:37-43 | `test@app` is invalid; `test-app` and `test-app_123` are valid |
| `Scenarios.NoDefaultOutcome` | src/core/manifest/tests.rs:47-63 | a manifest without the default script fails with `MissingDefaultScript` |
| `Scenarios.ManifestDependencyLists` | src/core/manifest/tests.rs:88-112 | `[node-runtime 18.0.0]` passes; adding a nameless dependency gives `InvalidDependency` with the empty-name reason |
| `Scenarios.NodeDependencyPasses` | src/core/manifest/tests.rs:96-102 | the `node-runtime 18.0.0` dependency passes its check |
| `Scenarios.DependenciesDecide` | src/core/manifest/tests.rs:88-112 | for the test manifest, validation is decided by its dependency list |
| `Scenarios.ManifestDependencyScenario` | src/core/manifest/tests.rs:88-112 | validating with one good dependency passes; adding a nameless one fails with the empty-name reason |
| `Scenarios.CycleRegistry` | src/features/container/service.rs:258-262 | two containers that depend on each other form the graph `A -> B, B -> A` |
| `Scenarios.CycleOutcome` | src/features/container/service.rs:247-269 | on that graph the search from `A` reports `A -> B` and leaves `[A, B]` on the stack |
| `Scenarios.CycleScenario` | src/features/container/service.rs:247-269 | two installed containers that depend on each other are reported as `A -> B`; the stack is left as `[A, B]` |

## Left out

- Reading and writing files, and JSON (`from_file`, `to_file`, `to_json`,
  `from_json`, serde defaults): `serde_json` and `std::fs` are foreign. The
  outcome of reading `manifest.json` is the parameter `parsed` of
  `LoadFromDirectory` and `FromDirectory`.
- `LoadFromDirectory` and `FromDirectory` require that a successfully read
  manifest means `manifest.json` exists on the file system parameter. A missing
  file is a read failure, and the caller passes it as the `Err` of `parsed`
  (the `IoError` of `from_file`). Only the caller keeps the two consistent.
- `CoreContainer.FromDirectory`: `ContainerManifest::from_file` validates the
  manifest it reads. That validation is modelled as the `Validate` call that
  follows the parse.
- The clock (`Utc::now`) and `Uuid::new_v4`: they are parameters `now` and `id`.
  `mark_running` reads the clock twice; the model uses one `now` for both reads.
- The host file system: it is the `FileSystem` parameter, a set of paths and a
  set of directories. Symbolic links, permissions, and files that change while
  being checked are not modelled.
- `\d` of the version pattern: the regex crate reads it as any Unicode decimal
  digit. `IsUnicodeDigit` covers ASCII and four other digit blocks, not the
  whole Unicode table. `char::is_alphanumeric`, used for container names, is
  likewise represented by a sample of letter and digit ranges.
- `src/core/manifest/mod.rs` is not part of this model. The older container
  type is modelled on the manifest of `src/features/manifest/mod.rs`, whose
  `validate` it calls. `ContainerType` and `container_type()` therefore have no
  counterpart.
- The older `InvalidPath` error carries only a path. The model uses the
  service's `InvalidPath(path, reason)` with an empty reason.
- `CheckCircularDependencies`: the `&mut Vec<String>` stack is passed in and
  handed back as `after` rather than updated in place. On an error the stack is
  left as it was at the moment of detection, as in the source.
- The exponential running time of the circular-dependency search on shared
  dependencies: the model states what it returns, not how long it takes.
- The accessors `name`, `version`, `as_str`, `content_path`, `config_path` and
  `scripts_path`: they only read a field or join a constant.
- `Container::new`, `Container::from_directory`, `Container::validate_dependencies`
  and `Container::check_circular_dependencies` of the features service only
  forward to `ContainerService`. Their models are the service members.
- The human-readable `Display` texts of the errors (the `#[error]` strings): the
  model keeps the error variants and their fields.
- `IsolationConfig`, `environment`, `description` and `author`: they are only
  carried along; no check reads them.
- The bindings manager, the wrapper generator, the command-line interface and
  the commands: they perform I/O around the core.
- Manifest scripts are a hash map, so `validate` and `validate_all_scripts_exist`
  report some failing script, not a particular one. A specific iteration order
  is not modelled.
