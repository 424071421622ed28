/**
 * Pack versions: the language `^(\d+\.\d+\.\d+)(-pack\.(\d+))?$` that
 * `bumpPackVersion` and `cleanup` match a library version against, a
 * hand-written recogniser for it, and the bump and reset rewrites built on it.
 */
module Versions {
  import opened Options
  import opened Decimal

  /** The pre-release tag that marks a locally packed revision. */
  const PackTag := "-pack."

  /** What a match captures: the three digit runs of the base version,
      verbatim, and the digits of the pack counter when the suffix is there. */
  datatype Version = Version(major: string, minor: string, patch: string, pack: Option<string>)

  predicate WellFormed(v: Version) {
    IsDigits(v.major) && IsDigits(v.minor) && IsDigits(v.patch) &&
    (v.pack.Some? ==> IsDigits(v.pack.value))
  }

  /** Capture group 1: `MAJOR.MINOR.PATCH`. */
  function Base(v: Version): string {
    v.major + "." + v.minor + "." + v.patch
  }

  /** The version string a `Version` stands for. */
  function Render(v: Version): string {
    Base(v) + Suffix(v.pack)
  }

  /** Splits off the longest prefix of digits (greedy `\d*`). */
  function SpanDigits(s: string): (string, string) {
    if s != [] && IsDigit(s[0]) then
      var (d, rest) := SpanDigits(s[1..]);
      ([s[0]] + d, rest)
    else ([], s)
  }

  /** The run and the rest make up `s`; the run is all digits and the rest
      does not start with one. */
  lemma {:induction false} SpanDigitsSpec(s: string)
    ensures var r := SpanDigits(s);
      r.0 + r.1 == s && AllDigits(r.0) && (r.1 == [] || !IsDigit(r.1[0]))
  {
    if s != [] && IsDigit(s[0]) {
      SpanDigitsSpec(s[1..]);
    }
  }

  /** A greedy digit run stops exactly where the digits stop. */
  lemma {:induction false} SpanDigitsOf(d: string, rest: string)
    requires AllDigits(d)
    requires rest == [] || !IsDigit(rest[0])
    ensures SpanDigits(d + rest) == (d, rest)
  {
    if d != [] {
      assert (d + rest)[0] == d[0] && (d + rest)[1..] == d[1..] + rest;
      SpanDigitsOf(d[1..], rest);
      assert [d[0]] + d[1..] == d;
    } else {
      assert d + rest == rest;
    }
  }

  /** The optional `-pack.N` group after the base: `Some(None)` when there is
      no suffix, `Some(Some(N))` for a well-formed one, `None` otherwise. */
  function ParseSuffix(rest: string): Option<Option<string>> {
    if rest == [] then Some(None)
    else if |rest| > |PackTag| && rest[..|PackTag|] == PackTag && AllDigits(rest[|PackTag|..]) then
      Some(Some(rest[|PackTag|..]))
    else None
  }

  /** The text a pack group stands for. */
  function Suffix(pack: Option<string>): string {
    if pack.Some? then PackTag + pack.value else ""
  }

  /** The recogniser: `Some` of the captures when `s` is in the language,
      `None` otherwise. `\d+` can only stop at a non-digit, so greedy runs
      need no backtracking. */
  function Parse(s: string): Option<Version> {
    var (major, r1) := SpanDigits(s);
    if major == [] || r1 == [] || r1[0] != '.' then None
    else
      var (minor, r2) := SpanDigits(r1[1..]);
      if minor == [] || r2 == [] || r2[0] != '.' then None
      else
        var (patch, r3) := SpanDigits(r2[1..]);
        if patch == [] then None
        else
          match ParseSuffix(r3)
          case None => None
          case Some(pack) => Some(Version(major, minor, patch, pack))
  }

  /** The suffix group is recognised exactly when it is `-pack.` and digits. */
  lemma ParseSuffixSpec(rest: string, pack: Option<string>)
    ensures ParseSuffix(rest) == Some(pack) <==>
      rest == Suffix(pack) && (pack.Some? ==> IsDigits(pack.value))
  {
    if pack.Some? && rest == Suffix(pack) {
      assert rest[..|PackTag|] == PackTag && rest[|PackTag|..] == pack.value;
    }
    if ParseSuffix(rest) == Some(pack) && pack.Some? {
      assert rest == rest[..|PackTag|] + rest[|PackTag|..];
    }
  }

  /** Every well-formed version is recognised, with its own captures. */
  lemma ParseRender(v: Version)
    requires WellFormed(v)
    ensures Parse(Render(v)) == Some(v)
  {
    var r3 := Suffix(v.pack);
    var r2 := "." + v.patch + r3;
    var r1 := "." + v.minor + r2;
    assert Render(v) == v.major + r1;
    SpanDigitsOf(v.major, r1);
    assert r1[1..] == v.minor + r2;
    SpanDigitsOf(v.minor, r2);
    assert r2[1..] == v.patch + r3;
    assert r3 == [] || r3[0] == '-';
    SpanDigitsOf(v.patch, r3);
    ParseSuffixSpec(r3, v.pack);
  }

  /** Only well-formed versions are recognised, and the captures rebuild the
      input exactly: with `ParseRender`, the language is exactly the image of
      `Render` on well-formed versions. */
  lemma RenderParse(s: string)
    ensures Parse(s).Some? ==> WellFormed(Parse(s).value) && Render(Parse(s).value) == s
  {
    var (major, r1) := SpanDigits(s);
    SpanDigitsSpec(s);
    if major == [] || r1 == [] || r1[0] != '.' {
      return;
    }
    var (minor, r2) := SpanDigits(r1[1..]);
    SpanDigitsSpec(r1[1..]);
    if minor == [] || r2 == [] || r2[0] != '.' {
      return;
    }
    var (patch, r3) := SpanDigits(r2[1..]);
    SpanDigitsSpec(r2[1..]);
    if patch == [] || ParseSuffix(r3).None? {
      return;
    }
    var pack := ParseSuffix(r3).value;
    ParseSuffixSpec(r3, pack);
    var v := Version(major, minor, patch, pack);
    assert Parse(s) == Some(v);
    Reassemble(s, major, r1, minor, r2, patch, r3);
  }

  /** Three digit runs, each split off before a '.', put back together. */
  lemma Reassemble(s: string, major: string, r1: string, minor: string, r2: string,
                   patch: string, r3: string)
    requires s == major + r1 && r1 != [] && r1[0] == '.' && r1[1..] == minor + r2
    requires r2 != [] && r2[0] == '.' && r2[1..] == patch + r3
    ensures s == major + "." + minor + "." + patch + r3
  {
    assert r2 == [r2[0]] + r2[1..];
    assert r1 == [r1[0]] + r1[1..];
  }

  /** `packageJson.version?.match(versionPattern)`. */
  function Match(version: Option<string>): Option<Version> {
    if version.Some? then Parse(version.value) else None
  }

  /** The counter that follows a match: one more than the captured decimal
      counter, or 1 when there is none. */
  function NextPackNumber(pack: Option<string>): nat
    requires pack.Some? ==> AllDigits(pack.value)
  {
    if pack.Some? then DecimalValue(pack.value) + 1 else 1
  }

  /** The version field after `cleanup`: the base when the version matches,
      the field unchanged otherwise. */
  function Reset(version: Option<string>): Option<string> {
    var m := Match(version);
    if m.Some? then Some(Base(m.value)) else version
  }

  /** The base a bump keeps: the matched base, or the fallback `1.0.0`. */
  function BaseOrFallback(version: Option<string>): string {
    var m := Match(version);
    if m.Some? then Base(m.value) else "1.0.0"
  }

  /** The counter of a version, when it has a pack suffix. */
  function PackNumber(version: string): Option<nat> {
    var m := Parse(version);
    if m.Some? && m.value.pack.Some? then
      RenderParse(version);
      Some(DecimalValue(m.value.pack.value))
    else None
  }

  /** The captures of a bumped version: the matched base (or `1.0.0`) with
      the next counter. */
  function Bumped(version: Option<string>): (w: Version)
    ensures WellFormed(w) && w.pack.Some? && Canonical(w.pack.value)
    ensures Base(w) == BaseOrFallback(version)
  {
    var m := Match(version);
    if m.Some? then
      RenderParse(version.value);
      m.value.(pack := Some(NatToString(NextPackNumber(m.value.pack))))
    else Version("1", "0", "0", Some(NatToString(1)))
  }

  /** The version `bumpPackVersion` writes: the bumped captures, rendered as
      the base followed by `-pack.` and the next counter. */
  function Bump(version: Option<string>): string {
    Render(Bumped(version))
  }

  /** A bump always produces a version in the language, with a suffix whose
      counter is the next counter, and keeps the base. */
  lemma BumpMatches(version: Option<string>)
    ensures var m := Parse(Bump(version));
      m.Some? && m.value.pack.Some? && Canonical(m.value.pack.value) &&
      Base(m.value) == BaseOrFallback(version)
  {
    ParseRender(Bumped(version));
  }

  /** `X.Y.Z` with no suffix bumps to `X.Y.Z-pack.1`. */
  lemma BumpBare(v: Version)
    requires WellFormed(v) && v.pack.None?
    ensures Bump(Some(Render(v))) == Render(v) + "-pack.1"
  {
    ParseRender(v);
  }

  /** `X.Y.Z-pack.N` bumps to `X.Y.Z-pack.(N+1)`: the base is kept verbatim and
      the counter is read as a decimal natural. */
  lemma BumpPacked(v: Version)
    requires WellFormed(v) && v.pack.Some?
    ensures Bump(Some(Render(v))) == Base(v) + "-pack." + NatToString(DecimalValue(v.pack.value) + 1)
    ensures PackNumber(Bump(Some(Render(v)))) == Some(DecimalValue(v.pack.value) + 1)
  {
    ParseRender(v);
    var w := v.(pack := Some(NatToString(DecimalValue(v.pack.value) + 1)));
    assert Bumped(Some(Render(v))) == w;
    ParseRender(w);
  }

  /** A missing version, or one outside the language, bumps to exactly
      `1.0.0-pack.1`. */
  lemma BumpFallback(version: Option<string>)
    requires version.None? || Parse(version.value).None?
    ensures Bump(version) == "1.0.0-pack.1"
  {
    assert NatToString(1) == "1";
  }

  /** Every bump moves the counter up by one: from none to 1, from N to N+1. */
  lemma BumpIncrements(version: Option<string>)
    ensures PackNumber(Bump(version)) ==
      if version.Some? && PackNumber(version.value).Some? then Some(PackNumber(version.value).value + 1)
      else Some(1)
  {
    var w := Bumped(version);
    ParseRender(w);
    if version.Some? && Parse(version.value).Some? {
      RenderParse(version.value);
    }
  }

  /** Two successive bumps of a bare `X.Y.Z` give `-pack.1` and then `-pack.2`. */
  lemma BumpTwice(v: Version)
    requires WellFormed(v) && v.pack.None?
    ensures Bump(Some(Render(v))) == Base(v) + "-pack.1"
    ensures Bump(Some(Bump(Some(Render(v))))) == Base(v) + "-pack.2"
  {
    BumpBare(v);
    assert Render(v) == Base(v);
    var w := v.(pack := Some("1"));
    assert NatToString(1) == "1";
    assert Render(w) == Base(v) + "-pack.1";
    BumpPackedAt(Bump(Some(Render(v))), w, 1);
  }

  /** `BumpPacked` for a version string known to render `w`. */
  lemma BumpPackedAt(s: string, w: Version, n: nat)
    requires WellFormed(w) && w.pack == Some(NatToString(n)) && s == Render(w)
    ensures Bump(Some(s)) == Base(w) + "-pack." + NatToString(n + 1)
  {
    var d := w.pack.value;
    assert DecimalValue(d) == n;
    BumpPacked(w);
  }

  /** Reset maps `X.Y.Z-pack.N` and `X.Y.Z` alike to `X.Y.Z`. */
  lemma ResetRender(v: Version)
    requires WellFormed(v)
    ensures Reset(Some(Render(v))) == Some(Base(v))
  {
    ParseRender(v);
  }

  /** A version outside the language is not rewritten by reset. */
  lemma ResetNonMatching(version: Option<string>)
    requires version.None? || Parse(version.value).None?
    ensures Reset(version) == version
  {
  }

  /** The round-trip law: resetting a bumped version gives the base the bump
      kept (the original base, or `1.0.0` after the fallback). */
  lemma ResetBump(version: Option<string>)
    ensures Reset(Some(Bump(version))) == Some(BaseOrFallback(version))
  {
    BumpMatches(version);
  }

  /** A reset version never carries a pack suffix, and resetting twice is
      resetting once. */
  lemma ResetIdempotent(version: Option<string>)
    ensures Reset(Reset(version)) == Reset(version)
    ensures Reset(version).Some? && Parse(Reset(version).value).Some? ==>
      Parse(Reset(version).value).value.pack.None?
  {
    var m := Match(version);
    if m.Some? {
      RenderParse(version.value);
      var b := m.value.(pack := None);
      assert Render(b) == Base(m.value);
      ParseRender(b);
    }
  }
}
