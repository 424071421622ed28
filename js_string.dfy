/**
 * The JavaScript string built-ins the core relies on: `trim`, `split` on one
 * character with `pop` of the last part, `endsWith` and `startsWith`. The
 * functions are plain definitions; what they compute is stated by the lemmas
 * after each of them.
 */
module JsString {

  /** The characters `String.prototype.trim` strips: ECMAScript WhiteSpace
      (tab, vertical tab, form feed, space, no-break space, byte order mark and
      every space separator) and LineTerminator (LF, CR, LS, PS). */
  predicate IsWhitespace(c: char) {
    c == '\t' || c == '\n' || c == '\U{000B}' || c == '\U{000C}' || c == '\r' ||
    c == ' ' || c == '\U{00A0}' || c == '\U{1680}' ||
    ('\U{2000}' <= c <= '\U{200A}') ||
    c == '\U{2028}' || c == '\U{2029}' || c == '\U{202F}' || c == '\U{205F}' ||
    c == '\U{3000}' || c == '\U{FEFF}'
  }

  predicate AllWhitespace(s: string) {
    forall i :: 0 <= i < |s| ==> IsWhitespace(s[i])
  }

  /** `s.endsWith(suffix)`. */
  predicate EndsWith(s: string, suffix: string) {
    |suffix| <= |s| && s[|s| - |suffix|..] == suffix
  }

  /** `s.startsWith(prefix)`. */
  predicate StartsWith(s: string, prefix: string) {
    |prefix| <= |s| && s[..|prefix|] == prefix
  }

  /** Drops leading whitespace. */
  function TrimStart(s: string): string {
    if s != [] && IsWhitespace(s[0]) then TrimStart(s[1..]) else s
  }

  /** The result is the longest suffix of `s` that does not start with
      whitespace. */
  lemma {:induction false} TrimStartSpec(s: string)
    ensures var r := TrimStart(s);
      |r| <= |s| && r == s[|s| - |r|..] &&
      AllWhitespace(s[..|s| - |r|]) && (r == [] || !IsWhitespace(r[0]))
  {
    if s != [] && IsWhitespace(s[0]) {
      TrimStartSpec(s[1..]);
      var r := TrimStart(s);
      assert s[..|s| - |r|] == [s[0]] + s[1..][..|s| - 1 - |r|];
    }
  }

  /** Drops trailing whitespace. */
  function TrimEnd(s: string): string {
    if s != [] && IsWhitespace(s[|s| - 1]) then TrimEnd(s[..|s| - 1]) else s
  }

  /** The result is the longest prefix of `s` that does not end with
      whitespace. */
  lemma {:induction false} TrimEndSpec(s: string)
    ensures var r := TrimEnd(s);
      |r| <= |s| && r == s[..|r|] &&
      AllWhitespace(s[|r|..]) && (r == [] || !IsWhitespace(r[|r| - 1]))
  {
    if s != [] && IsWhitespace(s[|s| - 1]) {
      var p := s[..|s| - 1];
      TrimEndSpec(p);
      var r := TrimEnd(s);
      assert s[|r|..] == p[|r|..] + [s[|s| - 1]];
    }
  }

  /** `s.trim()`. */
  function Trim(s: string): string {
    TrimEnd(TrimStart(s))
  }

  /** The trimmed text is the infix of `s` between a whitespace lead and a
      whitespace tail, and neither starts nor ends with whitespace; a blank
      string trims to the empty one. */
  lemma TrimSpec(s: string)
    ensures var r := Trim(s); var i := |s| - |TrimStart(s)|;
      0 <= i && i + |r| <= |s| && s[i..i + |r|] == r &&
      AllWhitespace(s[..i]) && AllWhitespace(s[i + |r|..]) &&
      (r == [] || (!IsWhitespace(r[0]) && !IsWhitespace(r[|r| - 1]))) &&
      (AllWhitespace(s) ==> r == [])
  {
    var t := TrimStart(s);
    TrimStartSpec(s);
    TrimEndSpec(t);
    var r := TrimEnd(t);
    var i := |s| - |t|;
    assert s[i + |r|..] == t[|r|..];
    assert t != [] ==> t[0] == s[i];
    assert r != [] ==> r[0] == t[0];
  }

  /** `parts.join(sep)`. */
  function JoinWith(parts: seq<string>, sep: char): string
    requires |parts| >= 1
  {
    if |parts| == 1 then parts[0] else parts[0] + [sep] + JoinWith(parts[1..], sep)
  }

  /** `s.split(sep)`: the runs of characters between the separators, in
      order; there is always at least one (possibly empty) part. */
  function Split(s: string, sep: char): (parts: seq<string>)
    ensures |parts| >= 1
  {
    if s == [] then [""]
    else
      var rest := Split(s[1..], sep);
      if s[0] == sep then [""] + rest
      else [[s[0]] + rest[0]] + rest[1..]
  }

  /** No part holds the separator, and joining the parts back on it gives
      the input. */
  lemma {:induction false} SplitJoin(s: string, sep: char)
    ensures forall k :: 0 <= k < |Split(s, sep)| ==> sep !in Split(s, sep)[k]
    ensures JoinWith(Split(s, sep), sep) == s
  {
    if s != [] {
      var rest := Split(s[1..], sep);
      SplitJoin(s[1..], sep);
      if s[0] != sep && |rest| > 1 {
        assert Split(s, sep)[1..] == rest[1..];
      }
    }
  }

  /** Joining at least two parts puts the separator right before the last. */
  lemma {:induction false} JoinWithLast(parts: seq<string>, sep: char)
    requires |parts| >= 2
    ensures JoinWith(parts, sep) ==
      JoinWith(parts[..|parts| - 1], sep) + [sep] + parts[|parts| - 1]
  {
    if |parts| > 2 {
      JoinWithLast(parts[1..], sep);
      assert parts[1..][..|parts| - 2] == parts[..|parts| - 1][1..];
    }
  }

  /** `s.split(sep).pop()`. */
  function LastPart(s: string, sep: char): string {
    var parts := Split(s, sep);
    parts[|parts| - 1]
  }

  /** The last part is the suffix of `s` after its last separator, or all of
      `s` when it holds none. */
  lemma LastPartSpec(s: string, sep: char)
    ensures var r := LastPart(s, sep);
      sep !in r && EndsWith(s, r) && (|r| < |s| ==> s[|s| - |r| - 1] == sep) &&
      (sep !in s ==> r == s)
  {
    var parts := Split(s, sep);
    SplitJoin(s, sep);
    if |parts| >= 2 {
      JoinWithLast(parts, sep);
    }
  }

  /** The text after a separator is the last part when it holds none. */
  lemma LastPartAfter(before: string, sep: char, after: string)
    requires sep !in after
    ensures LastPart(before + [sep] + after, sep) == after
  {
    var s := before + [sep] + after;
    var n := LastPart(s, sep);
    LastPartSpec(s, sep);
    assert s[|s| - |after| - 1] == sep;
    assert |n| == |after|;
    assert s[|s| - |after|..] == after;
  }
}
