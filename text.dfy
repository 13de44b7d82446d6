/**
 * Character classes and small string helpers shared by the editor services:
 * the JavaScript regular-expression classes `\s` and `\w`, the ASCII letters of
 * `[A-Za-z]`, `String.prototype.trim` and `String.prototype.endsWith`.
 */
module Text {

  /** JavaScript's `\s`, which is also the set `trim()` removes (WhiteSpace and LineTerminator). */
  const Whitespace: set<char> := {
    '\t', '\n', '\U{B}', '\U{C}', '\r', ' ', '\U{A0}', '\U{1680}',
    '\U{2000}', '\U{2001}', '\U{2002}', '\U{2003}', '\U{2004}', '\U{2005}',
    '\U{2006}', '\U{2007}', '\U{2008}', '\U{2009}', '\U{200A}',
    '\U{2028}', '\U{2029}', '\U{202F}', '\U{205F}', '\U{3000}', '\U{FEFF}'
  }

  predicate IsWhitespace(c: char) {
    c in Whitespace
  }

  /** The class `[A-Za-z]`. */
  predicate IsAsciiLetter(c: char) {
    ('A' <= c <= 'Z') || ('a' <= c <= 'z')
  }

  /** JavaScript's `\w` without the `u` flag: `[A-Za-z0-9_]`. */
  predicate IsWordChar(c: char) {
    IsAsciiLetter(c) || ('0' <= c <= '9') || c == '_'
  }

  predicate All(s: string, p: char -> bool) {
    forall i :: 0 <= i < |s| ==> p(s[i])
  }

  /** Length of the longest prefix of `s` whose characters all satisfy `p`. */
  function Run(s: string, p: char -> bool): (n: nat)
    ensures n <= |s|
  {
    if |s| == 0 || !p(s[0]) then 0 else 1 + Run(s[1..], p)
  }

  /** The run is a prefix of `p`-characters that stops at the end or at a character failing `p`. */
  lemma {:induction false} RunSpec(s: string, p: char -> bool)
    ensures All(s[..Run(s, p)], p)
    ensures Run(s, p) < |s| ==> !p(s[Run(s, p)])
  {
    if |s| > 0 && p(s[0]) {
      var n := Run(s, p);
      RunSpec(s[1..], p);
      assert s[..n] == [s[0]] + s[1..][..n - 1];
    }
  }

  /** Length of the longest suffix of `s` whose characters all satisfy `p`. */
  function RunBack(s: string, p: char -> bool): (n: nat)
    ensures n <= |s|
  {
    if |s| == 0 || !p(s[|s| - 1]) then 0 else 1 + RunBack(s[..|s| - 1], p)
  }

  /** The backward run is a suffix of `p`-characters that starts at the beginning or after a character failing `p`. */
  lemma {:induction false} RunBackSpec(s: string, p: char -> bool)
    ensures All(s[|s| - RunBack(s, p)..], p)
    ensures RunBack(s, p) < |s| ==> !p(s[|s| - RunBack(s, p) - 1])
  {
    if |s| > 0 && p(s[|s| - 1]) {
      var u := s[..|s| - 1];
      var m := RunBack(u, p);
      RunBackSpec(u, p);
      assert RunBack(s, p) == m + 1;
      SuffixGrows(s, p, m);
      if m < |u| {
        assert s[|u| - m - 1] == u[|u| - m - 1];
      }
    }
  }

  /** A suffix of `p`-characters of `s` without its last character grows by that character when it satisfies `p`. */
  lemma SuffixGrows(s: string, p: char -> bool, m: nat)
    requires m < |s| && p(s[|s| - 1])
    requires All(s[..|s| - 1][|s| - 1 - m..], p)
    ensures All(s[|s| - (m + 1)..], p)
  {
    var u := s[..|s| - 1];
    assert s[|s| - (m + 1)..] == u[|u| - m..] + [s[|s| - 1]];
  }

  /** A run is determined by where it stops: any prefix of `p`-characters followed by a non-`p` one (or the end) is the run. */
  lemma {:induction false} RunIsUnique(s: string, p: char -> bool, k: nat)
    requires k <= |s| && All(s[..k], p)
    requires k < |s| ==> !p(s[k])
    ensures Run(s, p) == k
  {
    if k > 0 {
      assert s[..k][0] == s[0];
      assert s[1..][..k - 1] == s[..k][1..];
      RunIsUnique(s[1..], p, k - 1);
    }
  }

  /** A run stops at or before the first character that fails `p`. */
  lemma {:induction false} RunStopsBefore(s: string, p: char -> bool, k: nat)
    requires k < |s| && !p(s[k])
    ensures Run(s, p) <= k
  {
    if k > 0 && p(s[0]) {
      assert s[1..][k - 1] == s[k];
      RunStopsBefore(s[1..], p, k - 1);
    }
  }

  /** The run that starts at offset `i`, in terms of `s` itself. */
  lemma {:induction false} RunFrom(s: string, p: char -> bool, i: nat)
    requires i <= |s|
    ensures i + Run(s[i..], p) <= |s|
    ensures All(s[i..i + Run(s[i..], p)], p)
    ensures i + Run(s[i..], p) < |s| ==> !p(s[i + Run(s[i..], p)])
  {
    var n := Run(s[i..], p);
    RunSpec(s[i..], p);
    assert s[i..][..n] == s[i..i + n];
    if i + n < |s| {
      assert s[i..][n] == s[i + n];
    }
  }

  /** `String.prototype.trim`: drops the leading and the trailing whitespace. */
  function Trim(s: string): (t: string)
    ensures |t| <= |s|
  {
    var i := Run(s, IsWhitespace);
    var j := RunBack(s[i..], IsWhitespace);
    s[i..|s| - j]
  }

  /**
   * What `trim` keeps: the segment of `s` that starts after the leading
   * whitespace run and is followed by whitespace only.
   */
  lemma {:induction false} TrimIsSegment(s: string)
    ensures var i := Run(s, IsWhitespace); var t := Trim(s);
      && i + |t| <= |s| && t == s[i..i + |t|]
      && All(s[..i], IsWhitespace) && All(s[i + |t|..], IsWhitespace)
  {
    RunSpec(s, IsWhitespace);
    TrimIsSlice(s);
    TrimTailIsWhitespace(s);
  }

  lemma TrimIsSlice(s: string)
    ensures var i := Run(s, IsWhitespace); var t := Trim(s);
      i + |t| <= |s| && t == s[i..i + |t|] && |t| == |s[i..]| - RunBack(s[i..], IsWhitespace)
  {
  }

  lemma {:induction false} TrimTailIsWhitespace(s: string)
    ensures var i := Run(s, IsWhitespace); i + |Trim(s)| <= |s| && All(s[i + |Trim(s)|..], IsWhitespace)
  {
    var i := Run(s, IsWhitespace);
    var u := s[i..];
    var j := RunBack(u, IsWhitespace);
    RunBackSpec(u, IsWhitespace);
    TrimIsSlice(s);
    DropOfDrop(s, i, |u| - j);
  }

  lemma DropOfDrop(s: string, i: nat, k: nat)
    requires i + k <= |s|
    ensures s[i + k..] == s[i..][k..]
  {
  }

  /** `trim` yields the empty string exactly on all-whitespace input, and otherwise a string with non-whitespace ends. */
  lemma {:induction false} TrimEnds(s: string)
    ensures Trim(s) == [] <==> All(s, IsWhitespace)
    ensures Trim(s) != [] ==> !IsWhitespace(Trim(s)[0]) && !IsWhitespace(Trim(s)[|Trim(s)| - 1])
  {
    TrimIsSegment(s);
    var i := Run(s, IsWhitespace);
    var t := Trim(s);
    RunSpec(s, IsWhitespace);
    RunBackSpec(s[i..], IsWhitespace);
    if t == [] {
      assert s == s[..i] + s[i..];
    } else {
      assert t[0] == s[i];
      assert s[i..][|s[i..]| - RunBack(s[i..], IsWhitespace) - 1] == t[|t| - 1];
    }
  }

  /** A string that neither starts nor ends with whitespace is its own trim. */
  lemma {:induction false} UnpaddedTrim(s: string)
    requires s != [] && !IsWhitespace(s[0]) && !IsWhitespace(s[|s| - 1])
    ensures Trim(s) == s
  {
    RunIsUnique(s, IsWhitespace, 0);
    assert s[0..] == s;
    assert s[|s|..] == [];
    RunBackIsEmpty(s, IsWhitespace);
  }

  /** Trimming a string that does not start with whitespace only drops a suffix. */
  lemma {:induction false} TrimOfUnpaddedStart(s: string)
    requires s != [] && !IsWhitespace(s[0])
    ensures Trim(s) == s[..|Trim(s)|]
  {
    RunIsUnique(s, IsWhitespace, 0);
    TrimIsSegment(s);
  }

  /** Leading whitespace does not change the trim. */
  lemma {:induction false} TrimAfterPadding(pad: string, s: string)
    requires All(pad, IsWhitespace)
    ensures Trim(pad + s) == Trim(s)
  {
    var c := pad + s;
    PaddedRun(pad, s, IsWhitespace);
    assert c[|pad| + Run(s, IsWhitespace)..] == s[Run(s, IsWhitespace)..];
  }

  /** A prefix that satisfies `p` throughout lengthens the run by its own length. */
  lemma {:induction false} PaddedRun(pad: string, s: string, p: char -> bool)
    requires All(pad, p)
    ensures Run(pad + s, p) == |pad| + Run(s, p)
  {
    if pad == [] {
      assert pad + s == s;
    } else {
      assert (pad + s)[0] == pad[0];
      assert (pad + s)[1..] == pad[1..] + s;
      PaddedRun(pad[1..], s, p);
    }
  }

  /** A run backwards is empty when the last character fails `p`. */
  lemma RunBackIsEmpty(s: string, p: char -> bool)
    requires s != [] && !p(s[|s| - 1])
    ensures RunBack(s, p) == 0
  {
  }

  /** Slices of a prefix are slices of the whole string. */
  lemma PrefixSlices(s: string, n: nat, a: nat, b: nat)
    requires a <= b <= n <= |s|
    ensures s[..n][..a] == s[..a] && s[..n][a..b] == s[a..b]
  {
  }

  /** `String.prototype.endsWith`. */
  predicate EndsWith(s: string, suffix: string) {
    |suffix| <= |s| && s[|s| - |suffix|..] == suffix
  }
}
