/**
 * The part of the filesystem the tool works on: the configuration file and
 * the consumer manifest in the current directory, and the listing and
 * manifest of the library directory. Fatal exits are tagged outcomes.
 */
module Filesystem {
  import opened Options
  import opened Manifests
  import opened JsString
  import opened Tarballs

  /** The manifest's file name inside the library directory. */
  const ManifestFile := "package.json"

  /** Every reason the tool ends a command with a non-zero exit. */
  datatype Failure =
    | ConfigMissing             // pack-local.config.json absent at `run`
    | LibraryManifestMissing    // the library's package.json cannot be read
    | ConsumerManifestMissing   // the consumer's package.json is absent or cannot be read
    | BuildFailed               // `<manager> run build` exited non-zero
    | PackFailed                // `<manager> pack` exited non-zero
    | DependencyNotFound        // the library is in neither dependency table
    | InstallFailed             // `<manager> install` exited non-zero

  datatype Outcome = Done | Fatal(failure: Failure)

  /** A snapshot of the files the tool reads and writes. `library` is the
      library manifest as read, `None` when it cannot be read; whether the file
      exists at all is whether `libraryFiles` lists `package.json`. */
  datatype Fs = Fs(
    config: Option<Config>,
    consumer: Option<ConsumerManifest>,
    libraryFiles: set<string>,
    library: Option<LibraryManifest>)

  /** What one step leaves behind: how it ended and the files after it. */
  datatype Effect = Effect(outcome: Outcome, fs: Fs)

  /** The manifest is never swept. */
  lemma ManifestIsNoTarball()
    ensures !IsTarball(ManifestFile)
  {
    assert ManifestFile[|ManifestFile| - 4..] == "json";
  }

  /** The workspace the commands change in place. */
  class Workspace {
    var config: Option<Config>
    var consumer: Option<ConsumerManifest>
    var libraryFiles: set<string>
    var library: Option<LibraryManifest>
    /** The directory the tool is run from: the consumer's root. */
    const cwd: string

    function State(): Fs
      reads this
    {
      Fs(config, consumer, libraryFiles, library)
    }

    constructor (cwd: string, fs: Fs)
      ensures this.cwd == cwd && State() == fs
    {
      this.cwd := cwd;
      config := fs.config;
      consumer := fs.consumer;
      libraryFiles := fs.libraryFiles;
      library := fs.library;
    }
  }
}
