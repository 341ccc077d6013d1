/** The handful of ECMAScript string operations the modelled code relies on:
    substring search, trimming, lower-casing and decimal rendering of an index. */
module Strings {

  /** ECMAScript WhiteSpace and LineTerminator code points: the characters
      string trimming removes. */
  predicate IsWhitespace(c: char) {
    || c == '\U{0009}' || c == '\U{000A}' || c == '\U{000B}' || c == '\U{000C}'
    || c == '\U{000D}' || c == '\U{0020}' || c == '\U{00A0}' || c == '\U{1680}'
    || ('\U{2000}' <= c <= '\U{200A}')
    || c == '\U{2028}' || c == '\U{2029}' || c == '\U{202F}' || c == '\U{205F}'
    || c == '\U{3000}' || c == '\U{FEFF}'
  }

  /** A string made of whitespace only (the empty string included): the strings
      whose trimmed form is falsy. */
  predicate IsBlank(s: string) {
    forall k :: 0 <= k < |s| ==> IsWhitespace(s[k])
  }

  /** `sub` occurs in `s` as a contiguous piece. */
  ghost predicate Contains(s: string, sub: string) {
    exists i :: OccursAt(s, sub, i)
  }

  /** `sub` occurs in `s` starting at position `i`. */
  ghost predicate OccursAt(s: string, sub: string, i: int) {
    0 <= i && i + |sub| <= |s| && s[i..i + |sub|] == sub
  }

  predicate StartsWith(s: string, prefix: string) {
    |prefix| <= |s| && s[..|prefix|] == prefix
  }

  lemma ContainsStep(s: string, sub: string)
    ensures Contains(s, sub) <==> StartsWith(s, sub) || (|s| > 0 && Contains(s[1..], sub))
  {
    if StartsWith(s, sub) {
      assert OccursAt(s, sub, 0);
    } else if |s| > 0 && Contains(s[1..], sub) {
      var i :| OccursAt(s[1..], sub, i);
      assert s[i + 1..i + 1 + |sub|] == s[1..][i..i + |sub|];
      assert OccursAt(s, sub, i + 1);
    } else if Contains(s, sub) {
      var i :| OccursAt(s, sub, i);
      if i > 0 {
        assert s[1..][i - 1..i - 1 + |sub|] == s[i..i + |sub|];
        assert OccursAt(s[1..], sub, i - 1);
      }
    }
  }

  /** Substring search: a left-to-right scan for an occurrence of `sub`. */
  function Includes(s: string, sub: string): (r: bool)
    ensures r <==> Contains(s, sub)
    decreases |s|
  {
    ContainsStep(s, sub);
    if StartsWith(s, sub) then true
    else if |s| == 0 then false
    else Includes(s[1..], sub)
  }

  /** A character of `sub` that `s` lacks rules out every occurrence. */
  lemma MissingCharNotContained(s: string, sub: string, c: char)
    requires c in sub && c !in s
    ensures !Contains(s, sub)
  {
  }

  /** Drops leading whitespace. */
  function TrimStart(s: string): (r: string)
    ensures |r| <= |s| && r == s[|s| - |r|..]
    ensures forall k :: 0 <= k < |s| - |r| ==> IsWhitespace(s[k])
    ensures r == [] || !IsWhitespace(r[0])
  {
    if |s| > 0 && IsWhitespace(s[0]) then TrimStart(s[1..]) else s
  }

  /** Drops trailing whitespace. */
  function TrimEnd(s: string): (r: string)
    ensures |r| <= |s| && r == s[..|r|]
    ensures forall k :: |r| <= k < |s| ==> IsWhitespace(s[k])
    ensures r == [] || !IsWhitespace(r[|r| - 1])
  {
    if |s| > 0 && IsWhitespace(s[|s| - 1]) then TrimEnd(s[..|s| - 1]) else s
  }

  /** Neither end is whitespace (vacuous for the empty string). */
  predicate EndsClean(s: string) {
    s == [] || (!IsWhitespace(s[0]) && !IsWhitespace(s[|s| - 1]))
  }

  /** Drops leading and trailing whitespace. The result is empty
      exactly for blank strings, is a piece of the input, and starts and ends
      with a non-whitespace character otherwise. */
  function Trim(s: string): (t: string)
    ensures t == [] <==> IsBlank(s)
    ensures Contains(s, t)
    ensures PaddedPiece(s, t)
    ensures EndsClean(t)
  {
    TrimBothEnds(s);
    TrimEnd(TrimStart(s))
  }

  /** `t` occurs in `s` with nothing but whitespace before and after it. */
  ghost predicate PaddedPiece(s: string, t: string) {
    exists i :: OccursAt(s, t, i) && IsBlank(s[..i]) && IsBlank(s[i + |t|..])
  }

  lemma TrimBothEnds(s: string)
    ensures var t := TrimEnd(TrimStart(s));
      && (t == [] <==> IsBlank(s))
      && Contains(s, t)
      && PaddedPiece(s, t)
      && EndsClean(t)
  {
    var a := TrimStart(s);
    TrimPieces(s, a, TrimEnd(a));
  }

  /** What trimming each end promises, combined: `a` is `s` without leading
      whitespace and `t` is `a` without trailing whitespace. */
  lemma TrimPieces(s: string, a: string, t: string)
    requires |a| <= |s| && a == s[|s| - |a|..]
    requires forall k :: 0 <= k < |s| - |a| ==> IsWhitespace(s[k])
    requires a == [] || !IsWhitespace(a[0])
    requires |t| <= |a| && t == a[..|t|]
    requires forall k :: |t| <= k < |a| ==> IsWhitespace(a[k])
    requires t == [] || !IsWhitespace(t[|t| - 1])
    ensures t == [] <==> IsBlank(s)
    ensures Contains(s, t) && PaddedPiece(s, t) && EndsClean(t)
  {
    var i := |s| - |a|;
    TrimPadded(s, a, t);
    if t == [] {
      assert a == [];
    } else {
      assert s[i + |t| - 1] == t[|t| - 1];
      assert t[0] == a[0];
    }
  }

  /** Only whitespace lies around the trimmed piece: `a` is a suffix of `s`
      preceded by whitespace only, and `t` a prefix of `a` followed by
      whitespace only. */
  lemma TrimPadded(s: string, a: string, t: string)
    requires |a| <= |s| && a == s[|s| - |a|..]
    requires forall k :: 0 <= k < |s| - |a| ==> IsWhitespace(s[k])
    requires |t| <= |a| && t == a[..|t|]
    requires forall k :: |t| <= k < |a| ==> IsWhitespace(a[k])
    ensures OccursAt(s, t, |s| - |a|)
    ensures IsBlank(s[..|s| - |a|]) && IsBlank(s[|s| - |a| + |t|..])
  {
    var i := |s| - |a|;
    assert s[i..][..|t|] == s[i..i + |t|];
    BlankPrefix(s, i);
    BlankSuffix(a, |t|);
    assert s[i + |t|..] == a[|t|..];
  }

  /** The three promises of `Trim` pin its result down: any piece of `s`
      padded only by whitespace, with clean ends, and empty exactly for blank
      strings, is the trimmed string. */
  lemma TrimUnique(s: string, u: string)
    requires u == [] <==> IsBlank(s)
    requires PaddedPiece(s, u) && EndsClean(u)
    ensures u == Trim(s)
  {
    var t := Trim(s);
    if u != [] {
      PaddedPiecesEqual(s, t, u);
    }
  }

  /** Two non-empty clean-ended pieces of `s`, each padded by whitespace only,
      are the same piece. */
  lemma PaddedPiecesEqual(s: string, t: string, u: string)
    requires t != [] && PaddedPiece(s, t) && EndsClean(t)
    requires u != [] && PaddedPiece(s, u) && EndsClean(u)
    ensures t == u
  {
    var j :| OccursAt(s, u, j) && IsBlank(s[..j]) && IsBlank(s[j + |u|..]);
    var i :| OccursAt(s, t, i) && IsBlank(s[..i]) && IsBlank(s[i + |t|..]);
    PieceBounds(s, t, i, u, j);
    PieceBounds(s, u, j, t, i);
  }

  /** A clean-ended piece `t` at `i` cannot start before, or end after, another
      whitespace-padded piece `u` at `j`. */
  lemma PieceBounds(s: string, t: string, i: int, u: string, j: int)
    requires t != [] && EndsClean(t) && OccursAt(s, t, i)
    requires OccursAt(s, u, j) && IsBlank(s[..j]) && IsBlank(s[j + |u|..])
    ensures j <= i && i + |t| <= j + |u|
  {
    assert s[i] == t[0];
    assert s[i + |t| - 1] == t[|t| - 1];
    forall k | 0 <= k < j
      ensures IsWhitespace(s[k])
    {
      assert s[..j][k] == s[k];
    }
    var rest := s[j + |u|..];
    forall k | j + |u| <= k < |s|
      ensures IsWhitespace(s[k])
    {
      assert rest[k - (j + |u|)] == s[k];
    }
  }

  lemma BlankPrefix(s: string, n: nat)
    requires n <= |s| && forall k :: 0 <= k < n ==> IsWhitespace(s[k])
    ensures IsBlank(s[..n])
  {
    var p := s[..n];
    forall k | 0 <= k < n
      ensures IsWhitespace(p[k])
    {
      assert p[k] == s[k];
    }
  }

  lemma BlankSuffix(s: string, n: nat)
    requires n <= |s| && forall k :: n <= k < |s| ==> IsWhitespace(s[k])
    ensures IsBlank(s[n..])
  {
    var p := s[n..];
    forall k | 0 <= k < |p|
      ensures IsWhitespace(p[k])
    {
      assert p[k] == s[n + k];
    }
  }

  /** A string without surrounding whitespace is its own trimmed form. */
  lemma TrimTrimmed(s: string)
    requires EndsClean(s)
    ensures Trim(s) == s
  {
  }

  lemma TrimIdempotent(s: string)
    ensures Trim(Trim(s)) == Trim(s)
  {
    TrimTrimmed(Trim(s));
  }

  /** Lower-cases ASCII letters and leaves every other character alone. */
  function LowerChar(c: char): char {
    if 'A' <= c <= 'Z' then (c as int + 32) as char else c
  }

  /** Lower-casing, restricted to ASCII letters: the result has no upper-case
      letter, each upper-case letter becomes its lower-case partner, and every
      other character is kept in place. */
  function ToLower(s: string): (r: string)
    ensures |r| == |s|
    ensures forall k :: 0 <= k < |s| ==> r[k] == LowerChar(s[k])
    ensures forall k :: 0 <= k < |r| ==> !('A' <= r[k] <= 'Z')
    ensures forall k :: 0 <= k < |s| && 'A' <= s[k] <= 'Z' ==> r[k] as int == s[k] as int + 32
    ensures forall k :: 0 <= k < |s| && !('A' <= s[k] <= 'Z') ==> r[k] == s[k]
  {
    if s == [] then [] else [LowerChar(s[0])] + ToLower(s[1..])
  }

  function DigitChar(d: nat): (c: char)
    requires d < 10
    ensures '0' <= c <= '9'
  {
    (d + '0' as int) as char
  }

  predicate AllDigits(s: string) {
    forall k :: 0 <= k < |s| ==> '0' <= s[k] <= '9'
  }

  /** The value of a string of decimal digits. */
  function DigitsValue(s: string): nat
    requires AllDigits(s)
  {
    if s == [] then 0 else DigitsValue(s[..|s| - 1]) * 10 + (s[|s| - 1] as int - '0' as int)
  }

  /** The decimal rendering of a natural number, as a template literal
      renders it: at least one digit, reading back as the number. */
  function NatToString(n: nat): (s: string)
    ensures |s| >= 1 && AllDigits(s)
    ensures DigitsValue(s) == n
    ensures n > 0 ==> s[0] != '0'
    ensures |s| == 1 || s[0] != '0'
  {
    if n < 10 then [DigitChar(n)]
    else
      var p := NatToString(n / 10);
      var s := p + [DigitChar(n % 10)];
      assert s[..|s| - 1] == p;
      s
  }

  lemma NatToStringInjective(m: nat, n: nat)
    requires NatToString(m) == NatToString(n)
    ensures m == n
  {
  }
}
