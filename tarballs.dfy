/**
 * Pack artifacts: which directory entries the sweep deletes, and the artifact
 * name read from the output of the package manager's `pack` command.
 */
module Tarballs {
  import opened JsString
  import opened Paths

  const TarballExtension := ".tgz"

  predicate IsTarball(file: string) {
    EndsWith(file, TarballExtension)
  }

  /** `readdirSync(dir).filter(file => file.endsWith('.tgz'))`, as a set. */
  function TarballsIn(files: set<string>): set<string> {
    set f | f in files && IsTarball(f)
  }

  /** The listing after every tarball in it is unlinked. */
  function Swept(files: set<string>): set<string> {
    files - TarballsIn(files)
  }

  /** The sweep removes exactly the `.tgz` entries, keeps every other entry,
      and removes nothing when no entry matches. */
  lemma SweptExactly(files: set<string>)
    ensures forall f :: f in Swept(files) <==> f in files && !IsTarball(f)
    ensures TarballsIn(files) == {} ==> Swept(files) == files
    ensures TarballsIn(Swept(files)) == {}
  {
  }

  /** The artifact name `packPackage` extracts: the last line of the trimmed
      output, or the empty name when the output is blank. */
  function TarballName(output: string): string {
    LastPart(Trim(output), '\n')
  }

  /** The name is the text after the last line break of the trimmed output,
      holds no line break, and is empty for a blank output. */
  lemma TarballNameIsLastLine(output: string)
    ensures var t := Trim(output); var n := TarballName(output);
      '\n' !in n && EndsWith(t, n) && (|n| < |t| ==> t[|t| - |n| - 1] == '\n') &&
      (n == [] || !IsWhitespace(n[|n| - 1]))
    ensures AllWhitespace(output) ==> TarballName(output) == ""
  {
    var t := Trim(output);
    var n := TarballName(output);
    TrimSpec(output);
    LastPartSpec(t, '\n');
    if n != [] {
      assert n[|n| - 1] == t[|t| - 1];
    }
  }

  /** `packPackage`'s result: the artifact name joined to the package path. */
  function ArtifactPath(packagePath: string, output: string): string {
    Join(packagePath, TarballName(output))
  }

  /** When the trimmed output ends with a line `name` after some earlier
      lines, the artifact name is exactly `name`. */
  lemma TarballNameOfLastLine(output: string, lines: string, name: string)
    requires '\n' !in name
    requires Trim(output) == lines + "\n" + name
    ensures TarballName(output) == name
  {
    LastPartAfter(lines, '\n', name);
  }
}
