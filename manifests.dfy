/**
 * The JSON documents the core reads and writes, as values: the configuration
 * file, the library manifest and the consumer manifest; and the edits made to
 * the consumer's `scripts`, `dependencies` and `devDependencies` tables.
 */
module Manifests {
  import opened Options

  /** A string-valued JSON object that may be absent from its manifest. */
  type Table = Option<map<string, string>>

  /** `table?.[key]`. */
  function Lookup(t: Table, key: string): Option<string> {
    if t.Some? && key in t.value then Some(t.value[key]) else None
  }

  /** The entries of a table; spreading an absent table gives none. */
  function Entries(t: Table): map<string, string> {
    if t.Some? then t.value else map[]
  }

  /** `table && table[key]` is truthy: the key is there and its string is
      not empty. */
  predicate Truthy(t: Table, key: string) {
    Lookup(t, key).Some? && Lookup(t, key).value != ""
  }

  /** `pack-local.config.json`. */
  datatype Config = Config(packagePath: string, packageManager: string)

  /** The configuration `initConfig` writes. */
  const DefaultConfig := Config("./", "npm")

  /** The library's `package.json`: its name, its version (absent or a
      string), and every other field, which the core never reads. */
  datatype LibraryManifest = LibraryManifest(name: string, version: Option<string>, other: map<string, string>)

  /** The consumer's `package.json`: the three tables the core edits and
      every other field, which it writes back as it read them. */
  datatype ConsumerManifest = ConsumerManifest(
    scripts: Table, dependencies: Table, devDependencies: Table, other: map<string, string>)

  /** The script key and command the tool owns. */
  const PackLocalKey := "pack-local"
  const PackLocalCommand := "pack-local run"

  /** The scripts table after `initConfig`: a truthy `pack-local` entry is
      kept as it is; otherwise the entry is set to `pack-local run` on top of
      the existing scripts. */
  function InjectScript(scripts: Table): (r: Table)
    ensures Truthy(r, PackLocalKey)
    ensures Truthy(scripts, PackLocalKey) ==> r == scripts
    ensures !Truthy(scripts, PackLocalKey) ==> Lookup(r, PackLocalKey) == Some(PackLocalCommand)
    ensures forall k :: k != PackLocalKey ==> Lookup(r, k) == Lookup(scripts, k)
  {
    if Truthy(scripts, PackLocalKey) then scripts
    else Some(Entries(scripts)[PackLocalKey := PackLocalCommand])
  }

  /** The scripts table after `cleanup`: a truthy `pack-local` entry is
      deleted; a falsy or absent one leaves the table as it was. */
  function RemoveScript(scripts: Table): (r: Table)
    ensures !Truthy(r, PackLocalKey)
    ensures r.Some? == scripts.Some?
    ensures forall k :: k != PackLocalKey ==> Lookup(r, k) == Lookup(scripts, k)
    ensures Lookup(r, PackLocalKey).Some? ==> r == scripts
    ensures r == scripts <==> !Truthy(scripts, PackLocalKey)
  {
    if Truthy(scripts, PackLocalKey) then
      assert PackLocalKey in scripts.value;
      Some(scripts.value - {PackLocalKey})
    else scripts
  }

  /** A second injection changes nothing. */
  lemma InjectIdempotent(scripts: Table)
    ensures InjectScript(InjectScript(scripts)) == InjectScript(scripts)
  {
  }

  /** Injection followed by removal leaves no `pack-local` key and every
      other script as it was before the injection. */
  lemma InjectThenRemove(scripts: Table)
    ensures RemoveScript(InjectScript(scripts)) == Some(Entries(scripts) - {PackLocalKey})
  {
    if !Truthy(scripts, PackLocalKey) {
      var e := Entries(scripts);
      assert e[PackLocalKey := PackLocalCommand] - {PackLocalKey} == e - {PackLocalKey};
    }
  }

  /** Which table `updateConsumingApp` rewrites for `name`: `dependencies`
      when its entry is truthy, else `devDependencies` when its entry is. */
  datatype Section = Dependencies | DevDependencies

  function FindDependency(c: ConsumerManifest, name: string): (s: Option<Section>)
    ensures s == Some(Dependencies) <==> Truthy(c.dependencies, name)
    ensures s == Some(DevDependencies) <==> !Truthy(c.dependencies, name) && Truthy(c.devDependencies, name)
  {
    if Truthy(c.dependencies, name) then Some(Dependencies)
    else if Truthy(c.devDependencies, name) then Some(DevDependencies)
    else None
  }

  function TableOf(c: ConsumerManifest, s: Section): Table {
    if s == Dependencies then c.dependencies else c.devDependencies
  }

  /** The consumer manifest after `updateConsumingApp` points `name` at
      `spec`, or `None` (fatal, nothing written) when neither table has a
      truthy entry for it. Only that one entry changes. */
  function RewriteDependency(c: ConsumerManifest, name: string, spec: string): (r: Option<ConsumerManifest>)
    ensures r.Some? <==> Truthy(c.dependencies, name) || Truthy(c.devDependencies, name)
    ensures r.Some? ==> r.value.scripts == c.scripts && r.value.other == c.other
    ensures r.Some? ==> var s := FindDependency(c, name).value;
      Lookup(TableOf(r.value, s), name) == Some(spec) &&
      (forall k :: k != name ==> Lookup(TableOf(r.value, s), k) == Lookup(TableOf(c, s), k)) &&
      TableOf(r.value, s).Some? &&
      (forall o :: o != s ==> TableOf(r.value, o) == TableOf(c, o))
  {
    match FindDependency(c, name)
    case None => None
    case Some(Dependencies) =>
      Some(c.(dependencies := Some(c.dependencies.value[name := spec])))
    case Some(DevDependencies) =>
      Some(c.(devDependencies := Some(c.devDependencies.value[name := spec])))
  }

  /** Rewriting again with the same non-empty specifier changes nothing more:
      the first rewrite leaves the entry truthy in the same table. */
  lemma RewriteIdempotent(c: ConsumerManifest, name: string, spec: string)
    requires spec != ""
    requires RewriteDependency(c, name, spec).Some?
    ensures var once := RewriteDependency(c, name, spec).value;
      RewriteDependency(once, name, spec) == Some(once)
  {
    var once := RewriteDependency(c, name, spec).value;
    if FindDependency(c, name) == Some(Dependencies) {
      assert once.dependencies.value[name := spec] == once.dependencies.value;
    } else {
      assert once.devDependencies.value[name := spec] == once.devDependencies.value;
    }
  }
}
