/** `re.sub` with a pattern made of plain characters: occurrences are found left to
    right, never overlapping, and each is replaced by the same text. */
module Replace {
  import opened Text

  /** `re.sub(p, r, s)` for a literal, non-empty `p`. */
  function ReplaceAll(s: string, p: string, r: string): string
    requires p != []
    decreases |s|
  {
    if s == [] then []
    else if StartsWith(s, p) then r + ReplaceAll(s[|p|..], p, r)
    else [s[0]] + ReplaceAll(s[1..], p, r)
  }

  /** The number of replacements that scan makes. */
  function CountMatches(s: string, p: string): nat
    requires p != []
    decreases |s|
  {
    if s == [] then 0
    else if StartsWith(s, p) then 1 + CountMatches(s[|p|..], p)
    else CountMatches(s[1..], p)
  }

  /** Each replacement changes the length by `|r| - |p|`. */
  lemma {:induction false} ReplaceLength(s: string, p: string, r: string)
    requires p != []
    ensures |ReplaceAll(s, p, r)| == |s| + CountMatches(s, p) * (|r| - |p|)
    decreases |s|
  {
    if s != [] {
      if StartsWith(s, p) {
        ReplaceLength(s[|p|..], p, r);
        MulStep(CountMatches(s[|p|..], p), |r| - |p|);
      } else {
        ReplaceLength(s[1..], p, r);
      }
    }
  }

  lemma MulStep(c: int, k: int)
    ensures (1 + c) * k == c * k + k
  {
  }

  /** The scan replaces something exactly when `p` occurs. */
  lemma {:induction false} CountMatchesZero(s: string, p: string)
    requires p != []
    ensures CountMatches(s, p) == 0 <==> !Contains(s, p)
    decreases |s|
  {
    if s != [] && !StartsWith(s, p) {
      CountMatchesZero(s[1..], p);
    }
  }

  /** A text in which `p` does not occur is left as it is. */
  lemma {:induction false} ReplaceAbsent(s: string, p: string, r: string)
    requires p != [] && !Contains(s, p)
    ensures ReplaceAll(s, p, r) == s
    decreases |s|
  {
    if s != [] {
      assert !StartsWith(s, p);
      ReplaceAbsent(s[1..], p, r);
      assert [s[0]] + s[1..] == s;
    }
  }

  /** A replacement text that contains `p` again makes the rewrite grow on every
      application. */
  lemma ReplaceOnce(p: string, r: string)
    requires p != []
    ensures ReplaceAll(p, p, r) == r
  {
    assert StartsWith(p, p);
    assert p[|p|..] == [];
    assert r + [] == r;
  }
}
