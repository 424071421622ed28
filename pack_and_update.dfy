/**
 * `src/packAndUpdate.ts`: the `run` workflow. A linear sequence
 * sweep, bump, build, pack, dependency rewrite and install, in which any
 * fatal step ends the run with every later step skipped.
 */
module PackAndUpdate {
  import opened Options
  import opened JsString
  import opened Versions
  import opened Manifests
  import opened Tarballs
  import opened Paths
  import opened Filesystem
  import opened Utils

  /** What the package manager's commands do, decided outside the tool:
      whether `run build` succeeds, the output of `pack` (`None` when it
      fails), and whether `install` succeeds. */
  datatype Oracles = Oracles(buildSucceeds: bool, packOutput: Option<string>, installSucceeds: bool)

  datatype Stage = Sweep | BumpVersion | Build | Pack | Rewrite | Install

  /** The fixed order of the stages. */
  const Stages: seq<Stage> := [Sweep, BumpVersion, Build, Pack, Rewrite, Install]

  /** How a run ended, the stages it completed in order, and the files. */
  datatype Report = Report(outcome: Outcome, completed: seq<Stage>, fs: Fs)

  /** How many stages complete before a failure stops the run. */
  function StagesBefore(f: Failure): nat {
    match f
    case ConfigMissing => 0
    case LibraryManifestMissing => 1
    case BuildFailed => 2
    case PackFailed => 3
    case ConsumerManifestMissing => 4
    case DependencyNotFound => 4
    case InstallFailed => 5
  }

  /** The `run` command over a snapshot of the files, run from `cwd`. */
  function RunEffect(fs: Fs, cwd: string, o: Oracles): Report {
    match fs.config
    case None => Report(Fatal(ConfigMissing), [], fs)
    case Some(config) =>
      var packagePath := Resolve(cwd, config.packagePath);
      var swept := SweepEffect(fs);
      var bumped := BumpEffect(swept);
      if bumped.outcome.Fatal? then Report(bumped.outcome, [Sweep], bumped.fs)
      else if !o.buildSucceeds then Report(Fatal(BuildFailed), [Sweep, BumpVersion], bumped.fs)
      else
        var packed := PackEffect(bumped.fs, o.packOutput);
        if packed.outcome.Fatal? then Report(packed.outcome, [Sweep, BumpVersion, Build], packed.fs)
        else
          var tarballPath := ArtifactPath(packagePath, o.packOutput.value);
          var updated := UpdateEffect(packed.fs, packed.fs.library.value.name, tarballPath, o.installSucceeds);
          var completed := [Sweep, BumpVersion, Build, Pack] +
            if updated.outcome.Done? then [Rewrite, Install]
            else if updated.outcome == Fatal(InstallFailed) then [Rewrite]
            else [];
          Report(updated.outcome, completed, updated.fs)
  }

  method PackAndUpdate(ws: Workspace, o: Oracles) returns (outcome: Outcome, completed: seq<Stage>)
    modifies ws
    ensures Report(outcome, completed, ws.State()) == RunEffect(old(ws.State()), ws.cwd, o)
  {
    completed := [];
    if ws.config.None? {
      return Fatal(ConfigMissing), completed;
    }
    var config := ws.config.value;
    var packagePath := Resolve(ws.cwd, config.packagePath);

    var _ := RemoveOldTarballs(ws);
    completed := completed + [Sweep];
    var newVersion;
    outcome, newVersion := BumpPackVersion(ws);
    if outcome.Fatal? {
      return;
    }
    completed := completed + [BumpVersion];

    if !o.buildSucceeds {
      return Fatal(BuildFailed), completed;
    }
    completed := completed + [Build];

    var tarballPath;
    outcome, tarballPath := PackPackage(ws, packagePath, o.packOutput);
    if outcome.Fatal? {
      return;
    }
    completed := completed + [Pack];

    var packageName := ws.library.value.name;
    outcome := UpdateConsumingApp(ws, packageName, tarballPath, o.installSucceeds);
    if outcome.Done? {
      completed := completed + [Rewrite, Install];
    } else if outcome == Fatal(InstallFailed) {
      completed := completed + [Rewrite];
    }
  }

  /** A run without a configuration fails before touching any file. */
  lemma RunWithoutConfig(fs: Fs, cwd: string, o: Oracles)
    requires fs.config.None?
    ensures RunEffect(fs, cwd, o) == Report(Fatal(ConfigMissing), [], fs)
  {
  }

  /** The completed stages are always a prefix of the fixed order: all of it
      on success, and on a failure exactly the stages before the failing one. */
  lemma RunStages(fs: Fs, cwd: string, o: Oracles)
    ensures var r := RunEffect(fs, cwd, o);
      (r.outcome.Done? ==> r.completed == Stages) &&
      (r.outcome.Fatal? ==> r.completed == Stages[..StagesBefore(r.outcome.failure)])
  {
    if fs.config.Some? {
      var bumped := BumpEffect(SweepEffect(fs));
      if bumped.outcome.Done? && o.buildSucceeds {
        var packed := PackEffect(bumped.fs, o.packOutput);
        if packed.outcome.Done? {
          var tarballPath := ArtifactPath(Resolve(cwd, fs.config.value.packagePath), o.packOutput.value);
          var u := UpdateEffect(packed.fs, packed.fs.library.value.name, tarballPath, o.installSucceeds);
          assert RunEffect(fs, cwd, o).outcome == u.outcome;
        }
      }
    }
  }

  /** A successful run: the library version is the bump of the one before and
      its name is unchanged; no tarball other than the new artifact is left;
      the consumer's entry for the library's name is rewritten to
      `file:` + the artifact path under the resolved package path. */
  lemma RunSucceeded(fs: Fs, cwd: string, o: Oracles)
    requires RunEffect(fs, cwd, o).outcome.Done?
    ensures fs.config.Some? && fs.library.Some? && fs.consumer.Some? && o.packOutput.Some?
    ensures var r := RunEffect(fs, cwd, o); var lib := fs.library.value;
      var artifact := TarballName(o.packOutput.value);
      var path := Join(Resolve(cwd, fs.config.value.packagePath), artifact);
      r.fs.config == fs.config &&
      r.fs.library == Some(lib.(version := Some(Bump(lib.version)))) &&
      (forall f :: f in r.fs.libraryFiles && IsTarball(f) ==> f == artifact) &&
      (forall f :: f in fs.libraryFiles && !IsTarball(f) ==> f in r.fs.libraryFiles) &&
      Some(r.fs.consumer.value) == RewriteDependency(fs.consumer.value, lib.name, "file:" + path) &&
      r.fs.consumer.Some? &&
      (Truthy(fs.consumer.value.dependencies, lib.name) ==>
        Lookup(r.fs.consumer.value.dependencies, lib.name) == Some("file:" + path))
  {
  }

  /** Conversely, when every oracle succeeds and the consumer declares the
      library, the run completes every stage, with these files after it. */
  lemma RunAllStagesSucceed(fs: Fs, cwd: string, o: Oracles)
    requires fs.config.Some? && fs.library.Some? && fs.consumer.Some?
    requires o.buildSucceeds && o.packOutput.Some? && o.installSucceeds
    requires var path := ArtifactPath(Resolve(cwd, fs.config.value.packagePath), o.packOutput.value);
      RewriteDependency(fs.consumer.value, fs.library.value.name, FileSpecifier(path)).Some?
    ensures var lib := fs.library.value; var artifact := TarballName(o.packOutput.value);
      var path := ArtifactPath(Resolve(cwd, fs.config.value.packagePath), o.packOutput.value);
      RunEffect(fs, cwd, o) == Report(Done, Stages, Fs(
        fs.config,
        RewriteDependency(fs.consumer.value, lib.name, FileSpecifier(path)),
        if artifact == "" then Swept(fs.libraryFiles) else Swept(fs.libraryFiles) + {artifact},
        Some(lib.(version := Some(Bump(lib.version))))))
  {
  }

  /** A failing run never leaves the consumer manifest changed, except when
      the install itself failed after the rewrite was written; a failure past
      the bump leaves the library version bumped; and the files are exactly
      those of the steps before the failing one: a failed build or pack
      leaves the swept and bumped files, a failed dependency update the
      packed ones, a failed install the rewritten ones. */
  lemma RunFailed(fs: Fs, cwd: string, o: Oracles)
    requires RunEffect(fs, cwd, o).outcome.Fatal?
    ensures var r := RunEffect(fs, cwd, o);
      (r.outcome != Fatal(InstallFailed) ==> r.fs.consumer == fs.consumer) &&
      (r.outcome == Fatal(ConfigMissing) ==> r.fs == fs) &&
      (r.outcome == Fatal(LibraryManifestMissing) ==> r.fs == SweepEffect(fs)) &&
      (StagesBefore(r.outcome.failure) >= 2 ==>
        fs.library.Some? && r.fs.library == Some(fs.library.value.(version := Some(Bump(fs.library.value.version))))) &&
      (r.outcome == Fatal(BuildFailed) || r.outcome == Fatal(PackFailed) ==>
        r.fs == BumpEffect(SweepEffect(fs)).fs) &&
      (r.outcome == Fatal(DependencyNotFound) || r.outcome == Fatal(ConsumerManifestMissing) ==>
        r.fs == PackEffect(BumpEffect(SweepEffect(fs)).fs, o.packOutput).fs) &&
      (r.outcome == Fatal(InstallFailed) ==>
        r.fs == UpdateEffect(PackEffect(BumpEffect(SweepEffect(fs)).fs, o.packOutput).fs,
                             fs.library.value.name,
                             ArtifactPath(Resolve(cwd, fs.config.value.packagePath), o.packOutput.value),
                             false).fs)
  {
  }

  /** A dependency declared in neither table is fatal and the consumer
      manifest is left as it was, though the library's version has already
      been bumped. */
  lemma RunDependencyNotFound(fs: Fs, cwd: string, o: Oracles)
    requires fs.config.Some? && fs.library.Some? && fs.consumer.Some?
    requires o.buildSucceeds && o.packOutput.Some?
    requires !Truthy(fs.consumer.value.dependencies, fs.library.value.name)
    requires !Truthy(fs.consumer.value.devDependencies, fs.library.value.name)
    ensures var r := RunEffect(fs, cwd, o);
      r.outcome == Fatal(DependencyNotFound) && r.fs.consumer == fs.consumer &&
      r.fs.library.value.version == Some(Bump(fs.library.value.version))
  {
  }

  /** Whatever the oracles do, a run with a configuration and a library
      manifest keeps the configuration, bumps the version, keeps every
      non-tarball file and the consumer manifest's presence. */
  lemma RunPastBump(fs: Fs, cwd: string, o: Oracles)
    requires fs.config.Some? && fs.library.Some?
    ensures var r := RunEffect(fs, cwd, o).fs; var lib := fs.library.value;
      r.config == fs.config && r.consumer.Some? == fs.consumer.Some? &&
      r.library == Some(lib.(version := Some(Bump(lib.version)))) &&
      Swept(fs.libraryFiles) <= r.libraryFiles
  {
  }

  /** A run that got past the bump, followed by cleanup: the configuration is
      gone, no tarball is left, the `pack-local` script is gone and the
      library version is back at the base the bump kept. */
  lemma RunThenCleanup(fs: Fs, cwd: string, o: Oracles)
    requires fs.config.Some? && fs.library.Some? && fs.consumer.Some?
    ensures var c := CleanupEffect(RunEffect(fs, cwd, o).fs);
      c.outcome == Done && c.fs.config.None? && c.fs.consumer.Some? &&
      TarballsIn(c.fs.libraryFiles) == {} &&
      Swept(fs.libraryFiles) <= c.fs.libraryFiles &&
      !Truthy(c.fs.consumer.value.scripts, PackLocalKey) &&
      c.fs.library.Some? && c.fs.library.value.name == fs.library.value.name &&
      c.fs.library.value.version == Some(BaseOrFallback(fs.library.value.version))
  {
    var r := RunEffect(fs, cwd, o).fs;
    RunPastBump(fs, cwd, o);
    CleanupResult(r);
    ResetBump(fs.library.value.version);
  }

  /** A library `mylib` at version `2.1.0` in `./lib`, declared as a
      dependency of the consumer at `/app`, with one stale tarball. */
  function ScenarioFiles(): Fs {
    Fs(Some(Config("./lib", "npm")),
       Some(ConsumerManifest(Some(map["pack-local" := "pack-local run"]),
                             Some(map["mylib" := "2.1.0"]), None, map[])),
       {"package.json", "index.js", "mylib-2.1.0-pack.3.tgz"},
       Some(LibraryManifest("mylib", Some("2.1.0"), map[])))
  }

  const ScenarioOutput := "mylib-2.1.0-pack.1.tgz\n"
  const ScenarioArtifact := "mylib-2.1.0-pack.1.tgz"
  /** `/app/./lib/mylib-2.1.0-pack.1.tgz` */
  const ScenarioPath := Join("/app/./lib", ScenarioArtifact)

  lemma ScenarioArtifactPath(cwd: string, dir: string, output: string)
    requires cwd == "/app" && dir == "./lib" && output == ScenarioOutput
    ensures ArtifactPath(Resolve(cwd, dir), output) == ScenarioPath
  {
    assert !StartsWith(dir, "/") by { assert dir[..1] == "."; }
    assert Resolve(cwd, dir) == "/app/./lib";
    ScenarioArtifactName();
  }

  lemma ScenarioArtifactName()
    ensures TarballName(ScenarioOutput) == ScenarioArtifact
  {
    var t := ScenarioArtifact;
    assert TrimStart(ScenarioOutput) == ScenarioOutput;
    assert ScenarioOutput[..|ScenarioOutput| - 1] == t;
    assert TrimEnd(t) == t;
    assert Trim(ScenarioOutput) == t;
    assert '\n' !in t;
    LastPartSpec(t, '\n');
  }

  lemma ScenarioBump()
    ensures Bump(Some("2.1.0")) == "2.1.0-pack.1"
  {
    var v := Version("2", "1", "0", None);
    assert Render(v) == "2.1.0";
    BumpBare(v);
  }

  lemma ScenarioReset()
    ensures Reset(Some("2.1.0-pack.1")) == Some("2.1.0")
  {
    var w := Version("2", "1", "0", Some("1"));
    assert Base(w) == "2.1.0";
    assert Render(w) == "2.1.0-pack.1";
    ResetRender(w);
  }

  lemma ScenarioSweep()
    ensures Swept({"package.json", "index.js", "mylib-2.1.0-pack.3.tgz"}) == {"package.json", "index.js"}
    ensures Swept({"package.json", "index.js", ScenarioArtifact}) == {"package.json", "index.js"}
  {
    assert IsTarball("mylib-2.1.0-pack.3.tgz");
    assert IsTarball(ScenarioArtifact);
    assert !IsTarball("index.js");
    ManifestIsNoTarball();
  }

  /** `run` on the scenario: the version becomes `2.1.0-pack.1`, the stale
      tarball is gone, the new one is there, and the dependency points at it. */
  lemma ScenarioRun(fs: Fs, o: Oracles)
    requires fs == ScenarioFiles() && o == Oracles(true, Some(ScenarioOutput), true)
    ensures var r := RunEffect(fs, "/app", o);
      r.outcome == Done && r.completed == Stages && r.fs.config == fs.config &&
      r.fs.consumer.Some? && r.fs.consumer.value.scripts == fs.consumer.value.scripts &&
      r.fs.library == Some(LibraryManifest("mylib", Some("2.1.0-pack.1"), map[])) &&
      r.fs.libraryFiles == {"package.json", "index.js", ScenarioArtifact} &&
      r.fs.consumer.value.dependencies == Some(map["mylib" := FileSpecifier(ScenarioPath)])
  {
    ScenarioArtifactName();
    ScenarioArtifactPath("/app", "./lib", ScenarioOutput);
    ScenarioBump();
    ScenarioSweep();
    ScenarioRewrite(fs.consumer.value, ScenarioPath);
    RunAllStagesSucceed(fs, "/app", o);
  }

  lemma ScenarioRewrite(c: ConsumerManifest, path: string)
    requires c == ScenarioFiles().consumer.value
    ensures RewriteDependency(c, "mylib", FileSpecifier(path)) ==
      Some(c.(dependencies := Some(map["mylib" := FileSpecifier(path)])))
  {
    assert Truthy(c.dependencies, "mylib");
    assert map["mylib" := "2.1.0"]["mylib" := FileSpecifier(path)] == map["mylib" := FileSpecifier(path)];
  }

  /** `cleanup` on the files the scenario's run leaves behind. */
  lemma ScenarioCleanup(fs: Fs)
    requires fs.config.Some? && fs.consumer.Some?
    requires fs.consumer.value.scripts == Some(map[PackLocalKey := PackLocalCommand])
    requires fs.library == Some(LibraryManifest("mylib", Some("2.1.0-pack.1"), map[]))
    requires fs.libraryFiles == {"package.json", "index.js", ScenarioArtifact}
    ensures var c := CleanupEffect(fs);
      c.outcome == Done && c.fs.config.None? &&
      c.fs.library == Some(LibraryManifest("mylib", Some("2.1.0"), map[])) &&
      c.fs.libraryFiles == {"package.json", "index.js"} &&
      c.fs.consumer.value.scripts == Some(map[]) &&
      c.fs.consumer.value.dependencies == fs.consumer.value.dependencies
  {
    ScenarioReset();
    ScenarioSweep();
    CleanupResult(fs);
    assert Truthy(fs.consumer.value.scripts, PackLocalKey);
    assert map[PackLocalKey := PackLocalCommand] - {PackLocalKey} == map[];
  }

  /** `cleanup` after that run: the version is back at `2.1.0`, no tarball and
      no configuration is left, the `pack-local` script is gone; the
      dependency still points at the removed tarball. */
  lemma ScenarioRunThenCleanup(fs: Fs, o: Oracles)
    requires fs == ScenarioFiles() && o == Oracles(true, Some(ScenarioOutput), true)
    ensures var c := CleanupEffect(RunEffect(fs, "/app", o).fs);
      c.outcome == Done && c.fs.config.None? &&
      c.fs.library == Some(LibraryManifest("mylib", Some("2.1.0"), map[])) &&
      c.fs.libraryFiles == {"package.json", "index.js"} &&
      c.fs.consumer.value.scripts == Some(map[]) &&
      c.fs.consumer.value.dependencies == Some(map["mylib" := FileSpecifier(ScenarioPath)])
  {
    ScenarioRun(fs, o);
    ScenarioCleanup(RunEffect(fs, "/app", o).fs);
  }
}
