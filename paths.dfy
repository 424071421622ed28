/**
 * Paths, as plain strings. `path.join` and `path.resolve` are modelled as
 * concatenation with a separator; no normalisation of `.`, `..` or repeated
 * separators.
 */
module Paths {
  import opened JsString

  /** `path.join(dir, name)`; an empty `name` adds nothing. */
  function Join(dir: string, name: string): string {
    if name == "" then dir else dir + "/" + name
  }

  /** `path.resolve(p)` against the current directory `cwd`: an absolute `p`
      stands as it is, a relative one is joined to `cwd`. */
  function Resolve(cwd: string, p: string): string {
    if StartsWith(p, "/") then p else Join(cwd, p)
  }
}
