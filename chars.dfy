/**
 * Character classes and scanning helpers with the meaning JavaScript regular
 * expressions give them (no `u` and no `i` flag): `\s`, `.`, `\b`, and
 * `String.prototype.trim`.
 */
module Chars {

  /** JavaScript's LineTerminator characters: the ones `.` does not match. */
  predicate IsLineTerminator(c: char) {
    c == '\n' || c == '\r' || c == '\U{2028}' || c == '\U{2029}'
  }

  /** JavaScript's `\s`: WhiteSpace (tab, VT, FF, space, NBSP, BOM, the Zs category) and LineTerminator. */
  predicate IsSpace(c: char) {
    IsLineTerminator(c) || c == '\t' || c == '\U{000B}' || c == '\U{000C}' || c == ' '
    || c == '\U{00A0}' || c == '\U{1680}' || ('\U{2000}' <= c <= '\U{200A}')
    || c == '\U{202F}' || c == '\U{205F}' || c == '\U{3000}' || c == '\U{FEFF}'
  }

  /** The characters `\w` matches; `\b` is defined over them. */
  predicate IsWordChar(c: char) {
    ('a' <= c <= 'z') || ('A' <= c <= 'Z') || ('0' <= c <= '9') || c == '_'
  }

  /** `\b` at position i: exactly one of the characters around i is a word character. */
  predicate IsBoundary(s: string, i: nat)
    requires i <= |s|
  {
    (i > 0 && IsWordChar(s[i - 1])) != (i < |s| && IsWordChar(s[i]))
  }

  /** `w` occurs in `s` at position `i`, compared character by character from offset k. */
  predicate HasFrom(s: string, i: nat, w: string, k: nat)
    decreases |w| - k
  {
    k >= |w| || (i + k < |s| && s[i + k] == w[k] && HasFrom(s, i, w, k + 1))
  }

  /** The literal `w` occurs in `s` starting at position `i`. */
  predicate HasAt(s: string, i: nat, w: string) {
    i + |w| <= |s| && HasFrom(s, i, w, 0)
  }

  lemma {:induction false} HasFromSlice(s: string, i: nat, w: string, k: nat)
    requires k <= |w| && i + |w| <= |s|
    ensures HasFrom(s, i, w, k) <==> s[i + k..i + |w|] == w[k..]
    decreases |w| - k
  {
    if k < |w| {
      HasFromSlice(s, i, w, k + 1);
      assert s[i + k..i + |w|] == [s[i + k]] + s[i + k + 1..i + |w|];
      assert w[k..] == [w[k]] + w[k + 1..];
    }
  }

  /** HasAt is exactly "the slice of s at i equals w". */
  lemma HasAtSlice(s: string, i: nat, w: string)
    ensures HasAt(s, i, w) <==> i + |w| <= |s| && s[i..i + |w|] == w
  {
    if i + |w| <= |s| {
      HasFromSlice(s, i, w, 0);
      assert w[0..] == w;
    }
  }

  lemma HasAtChar(s: string, i: nat, w: string, k: nat)
    requires HasAt(s, i, w) && k < |w|
    ensures i + k < |s| && s[i + k] == w[k]
  {
    HasAtSlice(s, i, w);
    assert s[i..i + |w|][k] == s[i + k];
  }

  /** Every character of s[a..b] satisfies `\s`. */
  predicate AllSpace(s: string, a: nat, b: nat) {
    a <= b <= |s| && forall k :: a <= k < b ==> IsSpace(s[k])
  }

  /** No character of s[a..b] is a line terminator: `.` matches each of them. */
  predicate NoTerminator(s: string, a: nat, b: nat) {
    a <= b <= |s| && forall k :: a <= k < b ==> !IsLineTerminator(s[k])
  }

  /** The end of the longest run of `\s` characters that starts at i (greedy `\s*`). */
  function SkipSpaces(s: string, i: nat): (r: nat)
    requires i <= |s|
    ensures i <= r <= |s| && AllSpace(s, i, r)
    ensures r == |s| || !IsSpace(s[r])
    decreases |s| - i
  {
    if i < |s| && IsSpace(s[i]) then SkipSpaces(s, i + 1) else i
  }

  /** Any run of spaces that starts at i ends no later than SkipSpaces, and ends exactly there
      when the character after it is not a space. */
  lemma SpaceRunBound(s: string, i: nat, j: nat)
    requires i <= |s| && AllSpace(s, i, j)
    ensures j <= SkipSpaces(s, i)
    ensures (j == |s| || !IsSpace(s[j])) ==> j == SkipSpaces(s, i)
  {
    var r := SkipSpaces(s, i);
  }

  /** The position of the first line terminator at or after i, or |s| (greedy `.*`). */
  function NextTerminator(s: string, i: nat): (r: nat)
    requires i <= |s|
    ensures i <= r <= |s| && NoTerminator(s, i, r)
    ensures r == |s| || IsLineTerminator(s[r])
    decreases |s| - i
  {
    if i < |s| && !IsLineTerminator(s[i]) then NextTerminator(s, i + 1) else i
  }

  lemma TerminatorRunBound(s: string, i: nat, j: nat)
    requires i <= |s| && NoTerminator(s, i, j)
    ensures j <= NextTerminator(s, i)
  {
    var r := NextTerminator(s, i);
  }

  /** The start of the trailing run of `\s` characters of s[..j]. */
  function TrailingStart(s: string, lo: nat, j: nat): (r: nat)
    requires lo <= j <= |s|
    ensures lo <= r <= j && AllSpace(s, r, j)
    ensures r == lo || !IsSpace(s[r - 1])
    decreases j
  {
    if lo < j && IsSpace(s[j - 1]) then TrailingStart(s, lo, j - 1) else j
  }

  /** `String.prototype.trim`: s with its leading and trailing whitespace and line terminators removed. */
  function Trim(s: string): (r: string)
    ensures exists lo, hi :: 0 <= lo <= hi <= |s| && r == s[lo..hi] && AllSpace(s, 0, lo) && AllSpace(s, hi, |s|)
    ensures r == [] || (!IsSpace(r[0]) && !IsSpace(r[|r| - 1]))
  {
    var lo := SkipSpaces(s, 0);
    var hi := TrailingStart(s, lo, |s|);
    assert AllSpace(s, hi, |s|);
    assert hi > lo ==> s[lo..hi][0] == s[lo];
    s[lo..hi]
  }

  /** trim leaves a string alone that neither starts nor ends with whitespace. */
  lemma TrimUnpadded(s: string)
    requires s != [] && !IsSpace(s[0]) && !IsSpace(s[|s| - 1])
    ensures Trim(s) == s
  {
    assert SkipSpaces(s, 0) == 0;
    assert TrailingStart(s, 0, |s|) == |s|;
    assert s[0..|s|] == s;
  }

  /** Trimming twice is trimming once. */
  lemma TrimIdempotent(s: string)
    ensures Trim(Trim(s)) == Trim(s)
  {
    if Trim(s) != [] {
      TrimUnpadded(Trim(s));
    } else {
      assert Trim([]) == [];
    }
  }
}
