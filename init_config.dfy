/**
 * `src/initConfig.ts`: writes the default configuration unless one exists,
 * then injects the `pack-local` script into the consumer manifest.
 */
module InitConfig {
  import opened Options
  import opened Manifests
  import opened Filesystem
  import opened Utils

  /** The files after `initConfig`. An existing configuration ends the
      command with no change. Otherwise the default configuration is written
      first, and a missing consumer manifest is fatal after that. */
  function InitEffect(fs: Fs): Effect {
    if fs.config.Some? then Effect(Done, fs)
    else
      var configured := fs.(config := Some(DefaultConfig));
      match configured.consumer
      case None => Effect(Fatal(ConsumerManifestMissing), configured)
      case Some(c) => Effect(Done, configured.(consumer := Some(c.(scripts := InjectScript(c.scripts)))))
  }

  method InitConfig(ws: Workspace) returns (outcome: Outcome)
    modifies ws
    ensures Effect(outcome, ws.State()) == InitEffect(old(ws.State()))
  {
    if ws.config.Some? {
      return Done;
    }
    ws.config := Some(DefaultConfig);
    if ws.consumer.None? {
      return Fatal(ConsumerManifestMissing);
    }
    var consumer := ws.consumer.value;
    if !Truthy(consumer.scripts, PackLocalKey) {
      ws.consumer := Some(consumer.(scripts := Some(Entries(consumer.scripts)[PackLocalKey := PackLocalCommand])));
    }
    outcome := Done;
  }

  /** With a configuration already present, init changes nothing. */
  lemma InitWhenConfigured(fs: Fs)
    requires fs.config.Some?
    ensures InitEffect(fs) == Effect(Done, fs)
  {
  }

  /** Without one, init writes `{packagePath: './', packageManager: 'npm'}`;
      it fails on a missing consumer manifest only after that write; it
      otherwise makes `pack-local` truthy, keeps every other script and
      touches nothing else. */
  lemma InitFromScratch(fs: Fs)
    requires fs.config.None?
    ensures var e := InitEffect(fs);
      e.fs.config == Some(Config("./", "npm")) &&
      (fs.consumer.None? ==> e.outcome == Fatal(ConsumerManifestMissing) && e.fs == fs.(config := e.fs.config)) &&
      (fs.consumer.Some? ==>
        e.outcome == Done && e.fs.consumer.Some? &&
        Truthy(e.fs.consumer.value.scripts, PackLocalKey) &&
        (forall k :: k != PackLocalKey ==>
          Lookup(e.fs.consumer.value.scripts, k) == Lookup(fs.consumer.value.scripts, k)) &&
        e.fs.consumer.value.(scripts := fs.consumer.value.scripts) == fs.consumer.value &&
        e.fs.(config := fs.config, consumer := fs.consumer) == fs)
  {
  }

  /** Running init twice is running it once. */
  lemma InitIdempotent(fs: Fs)
    ensures var once := InitEffect(fs).fs; InitEffect(once) == Effect(Done, once)
  {
  }

  /** Init followed by cleanup leaves no configuration and no `pack-local`
      key, and every other script as it was before init; it fails only on a
      library manifest that exists but cannot be read. */
  lemma InitThenCleanup(fs: Fs)
    requires fs.config.None? && fs.consumer.Some?
    ensures var e := CleanupEffect(InitEffect(fs).fs);
      e.outcome == (if fs.library.None? && ManifestFile in fs.libraryFiles
                    then Fatal(LibraryManifestMissing) else Done) &&
      e.fs.config.None? && e.fs.consumer.Some? &&
      e.fs.consumer.value.scripts == Some(Entries(fs.consumer.value.scripts) - {PackLocalKey}) &&
      e.fs.consumer.value.(scripts := fs.consumer.value.scripts) == fs.consumer.value
  {
    InjectThenRemove(fs.consumer.value.scripts);
  }
}
