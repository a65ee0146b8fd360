/** Small string vocabulary shared by the extractor and the normaliser: prefixes,
    substrings, Python's whitespace class and the line structure of a text. */
module Text {

  datatype Option<T> = None | Some(value: T)

  /** `s` begins with `p`. */
  predicate StartsWith(s: string, p: string) {
    |p| <= |s| && s[..|p|] == p
  }

  /** `w` occurs somewhere in `s` (Python's `w in s`). */
  predicate Contains(s: string, w: string)
    decreases |s|
  {
    StartsWith(s, w) || (|s| > 0 && Contains(s[1..], w))
  }

  /** The characters for which Python's `str.isspace()` holds; this is what `\s`
      matches (and `\S` does not) in a pattern applied to a `str`. */
  predicate IsSpace(c: char) {
    var n := c as int;
    (9 <= n <= 13) || (28 <= n <= 32) || n == 0x85 || n == 0xA0 || n == 0x1680
    || (0x2000 <= n <= 0x200A) || n == 0x2028 || n == 0x2029 || n == 0x202F
    || n == 0x205F || n == 0x3000
  }

  /** A non-empty run of non-whitespace characters: what `\S+` matches. */
  predicate IsToken(t: string) {
    |t| > 0 && forall i :: 0 <= i < |t| ==> !IsSpace(t[i])
  }

  /** No line break: what `.*` can match. */
  predicate NoNewline(t: string) {
    forall i :: 0 <= i < |t| ==> t[i] != '\n'
  }

  /** `t` without one final line break; `$` matches at the end of `t` or just before
      such a final line break. */
  function Chomp(t: string): (r: string)
    ensures t == r || t == r + "\n"
  {
    if |t| > 0 && t[|t| - 1] == '\n' then t[..|t| - 1] else t
  }

  /** The longest prefix of `t` free of whitespace (what a greedy `\S+` takes). */
  function TokenRun(t: string): (r: string)
    ensures StartsWith(t, r)
    ensures forall i :: 0 <= i < |r| ==> !IsSpace(r[i])
    ensures |r| < |t| ==> IsSpace(t[|r|])
  {
    if |t| == 0 || IsSpace(t[0]) then [] else [t[0]] + TokenRun(t[1..])
  }

  /** Index of the first line break of `s`, or `|s|` when there is none. */
  function LineEnd(s: string): (n: nat)
    ensures n <= |s|
    ensures NoNewline(s[..n])
    ensures n < |s| ==> s[n] == '\n'
  {
    if |s| == 0 || s[0] == '\n' then 0
    else
      var n := 1 + LineEnd(s[1..]);
      assert s[..n] == [s[0]] + s[1..][..n - 1];
      n
  }

  /** The longest prefix of `s` made of characters for which Python's `\s` holds. */
  function SpaceRun(s: string): (n: nat)
    ensures n <= |s|
    ensures forall i :: 0 <= i < n ==> IsSpace(s[i])
    ensures n < |s| ==> !IsSpace(s[n])
  {
    if |s| == 0 || !IsSpace(s[0]) then 0 else 1 + SpaceRun(s[1..])
  }

  // ---------------------------------------------------------------------------
  // Facts about prefixes and substrings

  /** An occurrence at index `i` makes `w` a substring of `s`. */
  lemma {:induction false} ContainsAt(s: string, w: string, i: nat)
    requires i + |w| <= |s| && s[i..i + |w|] == w
    ensures Contains(s, w)
    decreases i
  {
    if i == 0 {
      assert s[..|w|] == w;
    } else {
      assert s[1..][i - 1..i - 1 + |w|] == s[i..i + |w|];
      ContainsAt(s[1..], w, i - 1);
    }
  }

  /** Every substring occurs at some index. */
  lemma {:induction false} ContainsIndex(s: string, w: string) returns (i: nat)
    requires Contains(s, w)
    ensures i + |w| <= |s| && s[i..i + |w|] == w
    decreases |s|
  {
    if StartsWith(s, w) {
      i := 0;
    } else {
      var j := ContainsIndex(s[1..], w);
      assert s[1..][j..j + |w|] == s[j + 1..j + 1 + |w|];
      i := j + 1;
    }
  }

  /** A substring of a substring is a substring. */
  lemma ContainsTrans(s: string, w: string, x: string)
    requires Contains(s, w) && Contains(w, x)
    ensures Contains(s, x)
  {
    var i := ContainsIndex(s, w);
    var j := ContainsIndex(w, x);
    var ws := s[i..i + |w|];
    assert forall k :: 0 <= k < |x| ==> s[i + j..i + j + |x|][k] == ws[j + k] == x[k];
    assert s[i + j..i + j + |x|] == x;
    ContainsAt(s, x, i + j);
  }

  /** A string contains each of its prefixes. */
  lemma ContainsPrefix(s: string, p: string)
    requires StartsWith(s, p)
    ensures Contains(s, p)
  {
  }

  /** `s` contains what occurs in its suffix `s[k..]`. */
  lemma ContainsSuffix(s: string, k: nat, w: string)
    requires k <= |s| && Contains(s[k..], w)
    ensures Contains(s, w)
  {
    var i := ContainsIndex(s[k..], w);
    assert s[k + i..k + i + |w|] == s[k..][i..i + |w|];
    ContainsAt(s, w, k + i);
  }

  /** A substring of a line free of breaks is free of breaks. */
  lemma NoNewlineSlice(s: string, i: nat, j: nat)
    requires i <= j <= |s| && NoNewline(s)
    ensures NoNewline(s[i..j])
  {
    assert forall k :: 0 <= k < j - i ==> s[i..j][k] == s[i + k];
  }

  /** The break-free first line of `L + "\n" + R` ends where `L` ends. */
  lemma LineEndOfJoin(L: string, R: string)
    requires NoNewline(L)
    ensures LineEnd(L + "\n" + R) == |L|
    ensures LineEnd(L) == |L|
  {
    var n := LineEnd(L + "\n" + R);
    assert (L + "\n" + R)[|L|] == '\n';
  }
}
