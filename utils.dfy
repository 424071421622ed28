/**
 * The steps of `src/utils.ts`: the stale-artifact sweep, the version bump,
 * the pack step, the consumer's dependency rewrite and install, and cleanup.
 * Each step is a method on the workspace whose new state is given by an
 * effect function over snapshots; the lemmas state what those effects keep.
 */
module Utils {
  import opened Options
  import opened Versions
  import opened Manifests
  import opened Tarballs
  import opened Paths
  import opened Filesystem

  /** The files after `removeOldTarballs`. */
  function SweepEffect(fs: Fs): Fs {
    fs.(libraryFiles := Swept(fs.libraryFiles))
  }

  /** Unlinks every `.tgz` entry of the library directory, one at a time,
      and returns the names it removed. */
  method RemoveOldTarballs(ws: Workspace) returns (removed: set<string>)
    modifies ws
    ensures removed == TarballsIn(old(ws.libraryFiles))
    ensures ws.State() == SweepEffect(old(ws.State()))
  {
    removed := set f | f in ws.libraryFiles && IsTarball(f);
    var pending := removed;
    while pending != {}
      invariant pending <= removed
      invariant ws.libraryFiles == old(ws.libraryFiles) - (removed - pending)
      invariant ws.config == old(ws.config) && ws.consumer == old(ws.consumer)
      invariant ws.library == old(ws.library)
      decreases pending
    {
      var file :| file in pending;
      ws.libraryFiles := ws.libraryFiles - {file};
      pending := pending - {file};
    }
  }

  /** The files after `bumpPackVersion`: the library version replaced by its
      bump, or a fatal exit when the manifest cannot be read. */
  function BumpEffect(fs: Fs): Effect {
    match fs.library
    case None => Effect(Fatal(LibraryManifestMissing), fs)
    case Some(m) => Effect(Done, fs.(library := Some(m.(version := Some(Bump(m.version))))))
  }

  /** Overwrites the library's version with its bump and returns it. */
  method BumpPackVersion(ws: Workspace) returns (outcome: Outcome, newVersion: string)
    modifies ws
    ensures Effect(outcome, ws.State()) == BumpEffect(old(ws.State()))
    ensures outcome.Done? ==> newVersion == Bump(old(ws.library).value.version)
  {
    if ws.library.None? {
      return Fatal(LibraryManifestMissing), "";
    }
    var manifest := ws.library.value;
    newVersion := Bump(manifest.version);
    ws.library := Some(manifest.(version := Some(newVersion)));
    outcome := Done;
  }

  /** The files after `packPackage`, given the output of the pack command
      (`None` when it exited non-zero). The command creates the artifact it
      names on its last line. */
  function PackEffect(fs: Fs, packOutput: Option<string>): Effect {
    match packOutput
    case None => Effect(Fatal(PackFailed), fs)
    case Some(output) =>
      var name := TarballName(output);
      Effect(Done, fs.(libraryFiles := if name == "" then fs.libraryFiles else fs.libraryFiles + {name}))
  }

  /** Runs the pack oracle and returns the artifact's path under
      `packagePath`. */
  method PackPackage(ws: Workspace, packagePath: string, packOutput: Option<string>)
    returns (outcome: Outcome, tarballPath: string)
    modifies ws
    ensures Effect(outcome, ws.State()) == PackEffect(old(ws.State()), packOutput)
    ensures outcome.Done? ==> tarballPath == ArtifactPath(packagePath, packOutput.value)
  {
    if packOutput.None? {
      return Fatal(PackFailed), "";
    }
    var tarballName := TarballName(packOutput.value);
    if tarballName != "" {
      ws.libraryFiles := ws.libraryFiles + {tarballName};
    }
    outcome, tarballPath := Done, Join(packagePath, tarballName);
  }

  /** The local-file specifier the dependency is pointed at. */
  function FileSpecifier(tarballPath: string): string {
    "file:" + tarballPath
  }

  /** The files after `updateConsumingApp`: the consumer manifest with the
      library's entry rewritten, written before the install runs; nothing
      written when the entry is not declared. */
  function UpdateEffect(fs: Fs, packageName: string, tarballPath: string, installSucceeds: bool): Effect {
    match fs.consumer
    case None => Effect(Fatal(ConsumerManifestMissing), fs)
    case Some(c) =>
      match RewriteDependency(c, packageName, FileSpecifier(tarballPath))
      case None => Effect(Fatal(DependencyNotFound), fs)
      case Some(rewritten) =>
        Effect(if installSucceeds then Done else Fatal(InstallFailed), fs.(consumer := Some(rewritten)))
  }

  /** Points the consumer's entry for `packageName` at the artifact, then
      runs the install oracle. */
  method UpdateConsumingApp(ws: Workspace, packageName: string, tarballPath: string, installSucceeds: bool)
    returns (outcome: Outcome)
    modifies ws
    ensures Effect(outcome, ws.State()) == UpdateEffect(old(ws.State()), packageName, tarballPath, installSucceeds)
  {
    if ws.consumer.None? {
      return Fatal(ConsumerManifestMissing);
    }
    var consumer := ws.consumer.value;
    var section := FindDependency(consumer, packageName);
    if section == Some(Dependencies) {
      consumer := consumer.(dependencies := Some(consumer.dependencies.value[packageName := FileSpecifier(tarballPath)]));
    } else if section == Some(DevDependencies) {
      consumer := consumer.(devDependencies := Some(consumer.devDependencies.value[packageName := FileSpecifier(tarballPath)]));
    } else {
      return Fatal(DependencyNotFound);
    }
    ws.consumer := Some(consumer);
    outcome := if installSucceeds then Done else Fatal(InstallFailed);
  }

  /** The files after `cleanup`. Without a configuration nothing happens.
      Otherwise: the configuration is deleted; an unreadable consumer manifest
      ends the command there; the `pack-local` script is removed; the
      library's tarballs are swept; a library version in the pack-version
      language is reset to its base. A library manifest that exists but
      cannot be read ends the command after the sweep; one that does not
      exist is skipped. */
  function CleanupEffect(fs: Fs): Effect {
    if fs.config.None? then Effect(Done, fs)
    else
      var unconfigured := fs.(config := None);
      match unconfigured.consumer
      case None => Effect(Fatal(ConsumerManifestMissing), unconfigured)
      case Some(c) =>
        var unscripted := unconfigured.(consumer := Some(c.(scripts := RemoveScript(c.scripts))));
        var swept := SweepEffect(unscripted);
        match swept.library
        case None =>
          if ManifestFile in swept.libraryFiles then Effect(Fatal(LibraryManifestMissing), swept)
          else Effect(Done, swept)
        case Some(m) => Effect(Done, swept.(library := Some(m.(version := Reset(m.version)))))
  }

  method Cleanup(ws: Workspace) returns (outcome: Outcome)
    modifies ws
    ensures Effect(outcome, ws.State()) == CleanupEffect(old(ws.State()))
  {
    if ws.config.None? {
      return Done;
    }
    ws.config := None;
    if ws.consumer.None? {
      return Fatal(ConsumerManifestMissing);
    }
    var consumer := ws.consumer.value;
    if Truthy(consumer.scripts, PackLocalKey) {
      ws.consumer := Some(consumer.(scripts := Some(consumer.scripts.value - {PackLocalKey})));
    }
    var _ := RemoveOldTarballs(ws);
    if ws.library.Some? {
      var manifest := ws.library.value;
      var m := Match(manifest.version);
      if m.Some? {
        ws.library := Some(manifest.(version := Some(Base(m.value))));
      }
    } else if ManifestFile in ws.libraryFiles {
      return Fatal(LibraryManifestMissing);
    }
    outcome := Done;
  }

  /** A bump keeps the manifest's name and other fields, and leaves a version
      in the pack-version language whose base is the old base (or `1.0.0`). */
  lemma BumpEffectChangesOnlyVersion(fs: Fs)
    requires fs.library.Some?
    ensures var e := BumpEffect(fs); var m := fs.library.value;
      e.outcome == Done && e.fs.library.Some? &&
      e.fs.library.value.name == m.name && e.fs.library.value.other == m.other &&
      e.fs.(library := fs.library) == fs &&
      Parse(e.fs.library.value.version.value).Some? &&
      Base(Parse(e.fs.library.value.version.value).value) == BaseOrFallback(m.version)
  {
    BumpMatches(fs.library.value.version);
  }

  /** A dependency that neither table declares ends the update with nothing
      written; an install failure comes after the manifest is written. */
  lemma UpdateFailures(fs: Fs, packageName: string, tarballPath: string, installSucceeds: bool)
    ensures var e := UpdateEffect(fs, packageName, tarballPath, installSucceeds);
      (e.outcome == Fatal(DependencyNotFound) || e.outcome == Fatal(ConsumerManifestMissing) ==> e.fs == fs) &&
      (e.outcome == Fatal(DependencyNotFound) <==>
        fs.consumer.Some? && !Truthy(fs.consumer.value.dependencies, packageName) &&
        !Truthy(fs.consumer.value.devDependencies, packageName)) &&
      (e.outcome.Done? || e.outcome == Fatal(InstallFailed) ==>
        e.fs.consumer.Some? &&
        e.fs.consumer == RewriteDependency(fs.consumer.value, packageName, FileSpecifier(tarballPath)) &&
        e.fs.(consumer := fs.consumer) == fs)
  {
  }

  /** Cleanup without a configuration file returns before any change. */
  lemma CleanupWithoutConfig(fs: Fs)
    requires fs.config.None?
    ensures CleanupEffect(fs) == Effect(Done, fs)
  {
  }

  /** Cleanup with a configuration deletes it; it removes only a truthy
      `pack-local` script; it leaves no tarball and every other file; it
      leaves the library version without a pack suffix when it matched. */
  lemma CleanupResult(fs: Fs)
    requires fs.config.Some? && fs.consumer.Some?
    ensures var e := CleanupEffect(fs); var c := fs.consumer.value;
      e.outcome == (if fs.library.None? && ManifestFile in fs.libraryFiles
                    then Fatal(LibraryManifestMissing) else Done) &&
      e.fs.config.None? && e.fs.consumer.Some? &&
      !Truthy(e.fs.consumer.value.scripts, PackLocalKey) &&
      (forall k :: k != PackLocalKey ==> Lookup(e.fs.consumer.value.scripts, k) == Lookup(c.scripts, k)) &&
      e.fs.consumer.value.(scripts := c.scripts) == c &&
      (forall f :: f in e.fs.libraryFiles <==> f in fs.libraryFiles && !IsTarball(f)) &&
      e.fs.libraryFiles == Swept(fs.libraryFiles) &&
      e.fs.library.Some? == fs.library.Some? &&
      (fs.library.Some? ==>
        e.fs.library.value.(version := fs.library.value.version) == fs.library.value &&
        e.fs.library.value.version == Reset(fs.library.value.version))
  {
  }

  /** A cleanup whose consumer manifest is missing stops after deleting the
      configuration. */
  lemma CleanupWithoutConsumer(fs: Fs)
    requires fs.config.Some? && fs.consumer.None?
    ensures CleanupEffect(fs) == Effect(Fatal(ConsumerManifestMissing), fs.(config := None))
  {
  }

  /** No step removes the library's `package.json` from its directory, and no
      step makes a readable library manifest unreadable or the reverse. */
  lemma StepsKeepManifest(fs: Fs, packOutput: Option<string>, packageName: string,
                          tarballPath: string, installSucceeds: bool)
    requires ManifestFile in fs.libraryFiles
    ensures ManifestFile in SweepEffect(fs).libraryFiles
    ensures ManifestFile in BumpEffect(fs).fs.libraryFiles
    ensures ManifestFile in PackEffect(fs, packOutput).fs.libraryFiles
    ensures ManifestFile in UpdateEffect(fs, packageName, tarballPath, installSucceeds).fs.libraryFiles
    ensures ManifestFile in CleanupEffect(fs).fs.libraryFiles
    ensures SweepEffect(fs).library.Some? == fs.library.Some?
    ensures BumpEffect(fs).fs.library.Some? == fs.library.Some?
    ensures PackEffect(fs, packOutput).fs.library == fs.library
    ensures UpdateEffect(fs, packageName, tarballPath, installSucceeds).fs.library == fs.library
    ensures CleanupEffect(fs).fs.library.Some? == fs.library.Some?
  {
    ManifestIsNoTarball();
  }
}
