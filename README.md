# pack-local, modelled in Dafny

`pack-local` is a command-line tool for trying a library inside a consuming
application without publishing it. `pack-local init` writes a configuration
file and adds a `pack-local` script to the consumer's `package.json`.
`pack-local run` does these steps in order:

- deletes stale `.tgz` artifacts from the library directory;
- bumps the library version to a `-pack.N` pre-release;
- builds and packs the library;
- points the consumer's dependency at the new tarball (`file:<path>`);
- installs.

`pack-local cleanup` deletes the configuration, removes the script, sweeps
the tarballs and resets the library version to its base.

The model treats the files the tool touches as one state:

- the configuration file;
- the consumer manifest, with its `scripts`, `dependencies` and
  `devDependencies` tables;
- the library directory's listing, which also says whether the library's
  `package.json` exists;
- the library manifest as read (`name`, `version`, other fields opaque), or
  none when it cannot be read.

Each command changes that state in place: `Filesystem.Workspace` is a class
with those four fields. Every step of the source is a method that `modifies`
the workspace. Its postcondition ties the new `State()` to an effect function
of the old one (`SweepEffect`, `BumpEffect`, `PackEffect`, `UpdateEffect`,
`CleanupEffect`, `InitEffect`, `RunEffect`).

The lemmas about those effect functions carry the tool's promises:

- which files and keys change, and which do not;
- that the version language round-trips;
- that bump and reset invert each other;
- how the stages are ordered;
- what each fatal exit leaves behind.

A fatal `process.exit(1)` is a tagged `Outcome` (`Fatal(failure)`) that stops
every later step. The package manager's `run build`, `pack` and `install`
commands are oracles passed in as parameters (`PackAndUpdate.Oracles`). The
pack oracle supplies the command's output text (or fails), and the artifact it
names on its last line appears in the library listing.

Modules, one concept each:

- `Options`: the option type.
- `JsString`: `trim`, with the ECMAScript whitespace set; `split` / `join` /
  `pop` on one separator character; `startsWith` / `endsWith`.
- `Decimal`: decimal digit strings, `parseInt` of them, and the rendering of a
  natural as a template literal does it.
- `Versions`: a recogniser for `^(\d+\.\d+\.\d+)(-pack\.(\d+))?$`, the bump of
  `bumpPackVersion` and the reset inside `cleanup`.
- `Paths`: `path.join` and `path.resolve` as concatenation.
- `Manifests`: the three JSON documents as values, and the script and
  dependency edits.
- `Tarballs`: the `.tgz` filter and the artifact name read from pack output.
- `Filesystem`: failures, outcomes, the state snapshot `Fs` and the
  `Workspace` class.
- `Utils`, `InitConfig`, `PackAndUpdate`: the methods of `src/utils.ts`,
  `src/initConfig.ts` and `src/packAndUpdate.ts`, with their effect functions
  and lemmas.

Three behaviours of the code worth knowing, because a reader might expect
otherwise:

- A dependency declared in neither table ends the run after the library
  version has been bumped and written (src/utils.ts:162-169 runs after
  src/packAndUpdate.ts:28). So the library manifest has changed, though the
  consumer manifest has not (`PackAndUpdate.RunDependencyNotFound`).
- `cleanup` does not restore the consumer's dependency entry: nothing in
  src/utils.ts:65-146 touches `dependencies` or `devDependencies`
  (`PackAndUpdate.RunThenCleanup`, `PackAndUpdate.ScenarioRunThenCleanup`).
- Without a configuration file, `cleanup` simply returns
  (src/utils.ts:68-71). It does not fall back to the current directory
  (`Utils.CleanupWithoutConfig`).

## Model

| member | source | states |
|---|---|---|
| JsString.TrimStartSpec | src/utils.ts:56 | the start-trimmed string is the longest suffix not starting with whitespace, and what is dropped is all whitespace |
| JsString.TrimEndSpec | src/utils.ts:56 | the end-trimmed string is the longest prefix not ending with whitespace, and what is dropped is all whitespace |
| JsString.TrimSpec | src/utils.ts:56 | `trim()` returns the infix between an all-whitespace lead and tail; it neither starts nor ends with whitespace; a blank string trims to empty |
| JsString.Split | src/utils.ts:56 | `split` always yields at least one part, so `pop()` always has a last part |
| JsString.SplitJoin | src/utils.ts:56 | no part of `split(sep)` holds the separator, and joining the parts on it gives back the input |
| JsString.LastPartSpec | src/utils.ts:56 | `split(sep).pop()` is the suffix after the last separator: it holds no separator, is preceded by one when shorter than the input, and is the whole input when there is none |
| JsString.LastPartAfter | src/utils.ts:56 | the text after a separator, holding none itself, is exactly the last part |
| Decimal.NatToString | src/utils.ts:26-28 | the rendering of a counter is a canonical digit string (no leading zero) whose decimal value is the counter |
| Decimal.NatToStringOfValue | src/utils.ts:26-28 | rendering the parsed value of a canonical digit string gives the string back, so parse and render are inverse |
| Versions.SpanDigitsSpec | src/utils.ts:21 | a greedy `\d` run is all digits, stops at a non-digit, and with the rest makes up the input |
| Versions.SpanDigitsOf | src/utils.ts:21 | a greedy digit run stops exactly where the digits stop |
| Versions.ParseSuffixSpec | src/utils.ts:21 | the optional group matches exactly the empty text or `-pack.` followed by one or more digits |
| Versions.Parse | src/utils.ts:21-24 | the recogniser for the version pattern; `Versions.ParseRender` and `Versions.RenderParse` show it accepts exactly the renderings of well-formed captures, returning those captures |
| Versions.ParseRender | src/utils.ts:21-24 | every well-formed version is in the language, with its own three base captures and counter |
| Versions.RenderParse | src/utils.ts:21-24 | only well-formed versions match, and the captures rebuild the input exactly: the language is the image of rendering |
| Versions.Bump | src/utils.ts:23-28 | the version `bumpPackVersion` writes, the rendering of `Versions.Bumped`; characterised by `Versions.BumpBare`, `Versions.BumpPacked`, `Versions.BumpFallback`, `Versions.BumpMatches`, `Versions.BumpIncrements` and, with reset, `Versions.ResetBump` |
| Versions.Bumped | src/utils.ts:23-28 | the captures of a bumped version are well formed, carry a canonical counter, and keep the matched base or `1.0.0` |
| Versions.BumpMatches | src/utils.ts:21-28 | a bump always yields a version in the language, with a suffix and with the old base (or `1.0.0`) |
| Versions.BumpBare | src/utils.ts:21-28 | `X.Y.Z` bumps to `X.Y.Z-pack.1` |
| Versions.BumpPacked | src/utils.ts:23-28 | `X.Y.Z-pack.N` bumps to `X.Y.Z-pack.(N+1)`, with the base kept verbatim and `N` read as a decimal natural |
| Versions.BumpFallback | src/utils.ts:23-28 | a missing version, or one outside the language, bumps to exactly `1.0.0-pack.1` |
| Versions.BumpIncrements | src/utils.ts:26 | every bump moves the counter from none to 1, or from `N` to `N+1` |
| Versions.BumpTwice | src/utils.ts:18-31 | two successive bumps of `X.Y.Z` give `X.Y.Z-pack.1` and then `X.Y.Z-pack.2` |
| Versions.Reset | src/utils.ts:121-125 | the version `cleanup` writes; characterised by `Versions.ResetRender`, `Versions.ResetNonMatching`, `Versions.ResetIdempotent` and `Versions.ResetBump` |
| Versions.ResetRender | src/utils.ts:121-125 | reset maps `X.Y.Z-pack.N` and `X.Y.Z` alike to `X.Y.Z` |
| Versions.ResetNonMatching | src/utils.ts:122-138 | a missing version, or one outside the language, is not rewritten by reset |
| Versions.ResetBump | src/utils.ts:121-125 | round trip: resetting a bumped version gives the base the bump kept |
| Versions.ResetIdempotent | src/utils.ts:121-125 | a reset version carries no pack suffix, and resetting twice is resetting once |
| Manifests.InjectScript | src/initConfig.ts:35-46 | after injection `pack-local` is truthy; an already truthy entry leaves the table as it was; otherwise the entry becomes `pack-local run`; every other script is unchanged |
| Manifests.InjectIdempotent | src/initConfig.ts:35-46 | a second injection changes nothing |
| Manifests.RemoveScript | src/utils.ts:84-99 | after removal `pack-local` is not truthy; only a truthy entry is deleted; the table is unchanged exactly when the entry was not truthy; every other script is unchanged |
| Manifests.InjectThenRemove | src/utils.ts:84-91 | injection followed by removal leaves the original scripts without the `pack-local` key |
| Manifests.FindDependency | src/utils.ts:158-162 | `dependencies` is chosen exactly when its entry is truthy, and `devDependencies` exactly when its entry is truthy and the former's is not |
| Manifests.RewriteDependency | src/utils.ts:158-169 | a rewrite happens exactly when one of the tables has a truthy entry; only that entry, in the chosen table, becomes the specifier; every other key, the other table and the other fields are unchanged |
| Manifests.RewriteIdempotent | src/utils.ts:158-161 | rewriting again with the same non-empty specifier changes nothing |
| Tarballs.Swept | src/utils.ts:102-110 | the listing after the `.tgz` entries are unlinked; characterised by `Tarballs.SweptExactly` |
| Tarballs.SweptExactly | src/utils.ts:8-15 | the sweep removes exactly the entries ending in `.tgz`, keeps every other, leaves no tarball, and changes nothing when none matches |
| Tarballs.TarballName | src/utils.ts:56 | the artifact name read from pack output; characterised by `Tarballs.TarballNameIsLastLine` and `Tarballs.TarballNameOfLastLine` |
| Tarballs.ArtifactPath | src/utils.ts:56-58 | the path `packPackage` returns: the package path joined to that name (the package path itself for an empty name); it is the path `Utils.PackPackage` returns and `PackAndUpdate.RunSucceeded` writes |
| Tarballs.TarballNameIsLastLine | src/utils.ts:56 | the artifact name is the text after the last line break of the trimmed output, holds no line break, and is empty for a blank output |
| Tarballs.TarballNameOfLastLine | src/utils.ts:56 | when the trimmed output ends with a line `name` after earlier lines, the artifact name is `name` |
| Filesystem.ManifestIsNoTarball | src/utils.ts:102-104 | `package.json` is never swept |
| Utils.SweepEffect | src/utils.ts:6-16 | the state after `removeOldTarballs`: the listing swept, nothing else changed; `Utils.RemoveOldTarballs` is proved to reach it |
| Utils.BumpEffect | src/utils.ts:18-32 | the state after `bumpPackVersion`; characterised by `Utils.BumpEffectChangesOnlyVersion`, reached by `Utils.BumpPackVersion` |
| Utils.PackEffect | src/utils.ts:48-63 | the state after `packPackage`: fatal on a failed pack, else the named artifact added; reached by `Utils.PackPackage` |
| Utils.UpdateEffect | src/utils.ts:148-191 | the state after `updateConsumingApp`; characterised by `Utils.UpdateFailures`, reached by `Utils.UpdateConsumingApp` |
| Utils.CleanupEffect | src/utils.ts:65-146 | the state after `cleanup`; characterised by `Utils.CleanupWithoutConfig`, `Utils.CleanupWithoutConsumer` and `Utils.CleanupResult`, reached by `Utils.Cleanup` |
| Utils.RemoveOldTarballs | src/utils.ts:6-16 | unlinks tarballs one at a time; returns exactly the `.tgz` entries of the old listing; the new state is the sweep of the old one |
| Utils.BumpPackVersion | src/utils.ts:18-32 | the new state is the bump effect on the old one (fatal when the manifest cannot be read); the returned version is the bump of the old one |
| Utils.PackPackage | src/utils.ts:48-63 | fatal when pack fails; otherwise the named artifact is in the listing and the returned path is the package path joined to the artifact name |
| Utils.UpdateConsumingApp | src/utils.ts:148-191 | the new state is the update effect: the chosen entry is rewritten to `file:` + path before the install runs, and nothing is written when the key is in neither table |
| Utils.Cleanup | src/utils.ts:65-146 | the new state is the cleanup effect: no change without a configuration; otherwise the configuration is deleted, the script removed, the tarballs swept and the version reset; a library manifest that exists but cannot be read is fatal after the sweep |
| Utils.BumpEffectChangesOnlyVersion | src/utils.ts:18-31 | a bump changes only the library version, which ends up in the language with the old base (or `1.0.0`) |
| Utils.UpdateFailures | src/utils.ts:158-190 | "not found" happens exactly when neither table has a truthy entry, and then nothing is written; an install failure comes after the rewrite is written |
| Utils.CleanupWithoutConfig | src/utils.ts:67-71 | cleanup without a configuration file returns before any change |
| Utils.CleanupResult | src/utils.ts:73-138 | cleanup deletes the configuration; it removes only a truthy `pack-local` script, leaving every other script and field; it removes exactly the tarballs; it resets only the library version; it fails exactly when the library manifest exists but cannot be read |
| Utils.CleanupWithoutConsumer | src/utils.ts:77-82 | an unreadable consumer manifest ends cleanup right after the configuration is deleted |
| Utils.StepsKeepManifest | src/utils.ts:102-104 | no step removes the library's `package.json` from its directory or changes whether its manifest can be read |
| InitConfig.InitEffect | src/initConfig.ts:5-47 | the state after `initConfig`; characterised by `InitConfig.InitWhenConfigured`, `InitConfig.InitFromScratch`, `InitConfig.InitIdempotent` and `InitConfig.InitThenCleanup`, reached by `InitConfig.InitConfig` |
| InitConfig.InitConfig | src/initConfig.ts:5-47 | the new state is the init effect on the old one |
| InitConfig.InitWhenConfigured | src/initConfig.ts:13-19 | with a configuration present, init changes nothing |
| InitConfig.InitFromScratch | src/initConfig.ts:7-46 | without one, init writes `{packagePath: './', packageManager: 'npm'}`; a missing consumer manifest is fatal only after that write; otherwise `pack-local` becomes truthy and every other script and field is kept |
| InitConfig.InitIdempotent | src/initConfig.ts:13-19 | running init twice is running it once |
| InitConfig.InitThenCleanup | src/initConfig.ts:40-43 | init followed by cleanup leaves no configuration, no `pack-local` key, and every other script and consumer field as it was before init; it fails only on a library manifest that exists but cannot be read |
| PackAndUpdate.RunEffect | src/packAndUpdate.ts:12-38 | the report of `packAndUpdate`: outcome, completed stages and state; characterised by the `PackAndUpdate.Run…` lemmas below, reached by `PackAndUpdate.PackAndUpdate` |
| PackAndUpdate.PackAndUpdate | src/packAndUpdate.ts:12-38 | the outcome, the completed stages and the new state are the run effect on the old state |
| PackAndUpdate.RunWithoutConfig | src/packAndUpdate.ts:13-21 | a missing configuration is fatal before any change, with no stage completed |
| PackAndUpdate.RunStages | src/packAndUpdate.ts:27-36 | the completed stages are all of sweep, bump, build, pack, rewrite, install on success, and exactly those before the failing stage on a failure |
| PackAndUpdate.RunSucceeded | src/packAndUpdate.ts:23-36 | after a successful run the version is the bump of the old one; no tarball but the new artifact is left; every other file is kept; the dependency for the library's name is `file:` + the artifact path under the resolved package path |
| PackAndUpdate.RunAllStagesSucceed | src/packAndUpdate.ts:23-37 | conversely, when every oracle succeeds and the consumer declares the library, the run completes every stage and leaves exactly the rewritten consumer, the swept listing plus the artifact, and the bumped version |
| PackAndUpdate.RunFailed | src/packAndUpdate.ts:27-36 | a failed run leaves exactly the state of the steps before the failing one: nothing for a missing configuration, the sweep for an unreadable manifest, sweep and bump for a failed build or pack, those plus the artifact for a failed dependency update, and the rewrite as well for a failed install; so the consumer manifest changes only when the install failed |
| PackAndUpdate.RunDependencyNotFound | src/utils.ts:158-169 | a library declared in neither table ends the run fatally, with the consumer manifest unchanged and the library version already bumped |
| PackAndUpdate.RunPastBump | src/packAndUpdate.ts:27-28 | whatever the oracles do, a configured run bumps the version and keeps the configuration, every non-tarball file and the consumer manifest's presence |
| PackAndUpdate.RunThenCleanup | src/utils.ts:65-146 | a run followed by cleanup leaves no configuration, no tarball, no truthy `pack-local` script, every non-tarball file, and the version at the base the bump kept |
| PackAndUpdate.ScenarioArtifactPath | src/utils.ts:56-58 | for pack output `mylib-2.1.0-pack.1.tgz\n` and package path `./lib` resolved in `/app`, the artifact path is `/app/./lib/mylib-2.1.0-pack.1.tgz` |
| PackAndUpdate.ScenarioArtifactName | src/utils.ts:56 | the output `mylib-2.1.0-pack.1.tgz\n` names the artifact `mylib-2.1.0-pack.1.tgz` |
| PackAndUpdate.ScenarioBump | src/utils.ts:21-28 | `2.1.0` bumps to `2.1.0-pack.1` |
| PackAndUpdate.ScenarioReset | src/utils.ts:121-125 | `2.1.0-pack.1` resets to `2.1.0` |
| PackAndUpdate.ScenarioSweep | src/utils.ts:8-10 | the sweep of a listing with `package.json`, `index.js` and a stale tarball keeps only the first two |
| PackAndUpdate.ScenarioRewrite | src/utils.ts:158-159 | the scenario's `mylib` dependency is rewritten to the file specifier, with nothing else changed |
| PackAndUpdate.ScenarioRun | src/packAndUpdate.ts:12-38 | on the scenario the run completes every stage, the version becomes `2.1.0-pack.1`, the stale tarball is replaced by the new one, and the dependency points at it |
| PackAndUpdate.ScenarioCleanup | src/utils.ts:65-146 | cleanup on the state the scenario's run leaves behind gives version `2.1.0`, no tarball, no configuration, an empty scripts table, and the dependency unchanged |
| PackAndUpdate.ScenarioRunThenCleanup | src/utils.ts:65-146 | after run and cleanup on the scenario, the dependency still points at the deleted tarball: cleanup does not restore it |

## Left out

- The package manager's `run build`, `pack` and `install` commands are foreign calls. They are oracles: a success flag each, and the text `pack` prints. What the build changes on disk is not modelled, and the pack command is taken to create the artifact it names.
- JSON reading and writing through fs-extra is not modelled: manifests are values, not text, so key order and the two-space pretty-printing are not captured. A manifest that cannot be read (absent or malformed) is one failure per document.
- JSON values are strings. Non-string values are not modelled, nor the truthiness of numbers, booleans or objects, nor a `version` or `name` of another type. JavaScript prototype keys such as `constructor` in a lookup are not modelled either.
- `path.resolve` and `path.join` are concatenation with `/` (an empty name joins to the directory itself), so `.`, `..` and repeated separators are not normalised. A package path that is not a directory is not modelled.
- The library directory and the consumer's root are kept apart. When `packagePath` is `./` they are the same directory in the source, and that aliasing (the consumer's `package.json` being the library's) is not modelled.
- InitConfig.InitThenCleanup: init always writes `packagePath: './'` (src/initConfig.ts:7-10), so in the source a cleanup right after init sweeps the tarballs next to the consumer's manifest and resets the consumer manifest's own `version` (src/utils.ts:102-126). The model's separate library keeps the consumer's other fields unchanged, and the lemma's last clause holds only under that separation.
- Versions.BumpPacked: numbers are unbounded. `parseInt` losing precision above 2^53, and exponent notation in the rendered counter from 10^21 up, are not modelled.
- Logging through chalk and `console`, `src/logger.ts`, the command registration in `src/index.ts`, the `cli.cjs` bootstrap and `tsup.config.ts` are outside this model.
- How `process.exit` ends the process is not modelled: a fatal exit is an `Outcome` that stops every later step. An unhandled exception from a failed read is modelled the same way.
- `config.packageManager` only selects the command the oracles stand for, so the model carries it and never reads it.
- `buildPackage` (src/utils.ts:34-46) has no method of its own: its effect is the build oracle's flag inside `PackAndUpdate.PackAndUpdate`.
- Restoring the consumer's dependency in cleanup, an install flag for legacy peer dependencies, and a current-directory fallback in cleanup do not exist in the source, so the model has none of them.
