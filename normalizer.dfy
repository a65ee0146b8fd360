/** `regex_yaml`: the chain of seven `re.sub` calls that turns the YAML text of a
    switch into the layout its consumers expect, applied in the source's order. */
module Normalizer {
  import opened Text
  import opened Replace
  import opened GigabitRewrite
  import opened VlanRewrite
  import opened DescriptionRewrite

  const CrLf := "\r\n"
  const TwoSpaces := "  "
  const FourSpaces := "    "
  const ListItem := "- aname:"

  /** Windows line ends become `\n`. */
  function UnixLineEnds(s: string): string {
    ReplaceAll(s, CrLf, "\n")
  }

  /** Every pair of spaces becomes four: the indentation doubles. */
  function DoubleIndent(s: string): string {
    ReplaceAll(s, TwoSpaces, FourSpaces)
  }

  /** The list marker before each interface name becomes a space. */
  function DropListMarker(s: string): string {
    ReplaceAll(s, ListItem, " ")
  }

  /** The whole chain. */
  function RegexYaml(s: string): string {
    RequoteDescription(JoinDescription(UnquoteVlan(MarkGigabit(DropListMarker(DoubleIndent(UnixLineEnds(s)))))))
  }

  /** How much each literal rewrite changes the length: one character less per
      Windows line end, two more per pair of spaces, seven less per list marker. */
  lemma LiteralRewriteLengths(s: string)
    ensures |UnixLineEnds(s)| == |s| - CountMatches(s, CrLf)
    ensures |DoubleIndent(s)| == |s| + 2 * CountMatches(s, TwoSpaces)
    ensures |DropListMarker(s)| == |s| - 7 * CountMatches(s, ListItem)
  {
    ReplaceLength(s, CrLf, "\n");
    ReplaceLength(s, TwoSpaces, FourSpaces);
    ReplaceLength(s, ListItem, " ");
  }

  /** A text that contains none of the patterns passes through the chain unchanged. */
  lemma RegexYamlUntouched(s: string)
    requires !Contains(s, CrLf) && !Contains(s, TwoSpaces) && !Contains(s, ListItem)
    requires !Contains(s, Gigabit) && !Contains(s, Vlan) && !Contains(s, Opening)
    ensures RegexYaml(s) == s
  {
    hide ReplaceAll, MarkGigabit, UnquoteVlan, JoinDescription, RequoteDescription, Contains;
    ReplaceAbsent(s, CrLf, "\n");
    ReplaceAbsent(s, TwoSpaces, FourSpaces);
    ReplaceAbsent(s, ListItem, " ");
    MarkGigabitUntouched(s);
    UnquoteVlanUntouched(s);
    JoinDescriptionUntouched(s);
    RequoteUntouched(s);
  }

  /** Replacing `p` by `r` in `p + p` gives `r + r`. */
  lemma ReplaceTwice(p: string, r: string)
    requires p != []
    ensures ReplaceAll(p + p, p, r) == r + r
  {
    assert StartsWith(p + p, p);
    assert (p + p)[|p|..] == p;
    ReplaceOnce(p, r);
  }

  lemma IndentLiterals()
    ensures FourSpaces == TwoSpaces + TwoSpaces
    ensures FourSpaces + FourSpaces == "        "
  {
  }

  /** Doubling the indentation twice quadruples it: the step is not idempotent. */
  lemma DoubleIndentNotIdempotent()
    ensures DoubleIndent(TwoSpaces) == FourSpaces
    ensures DoubleIndent(DoubleIndent(TwoSpaces)) == "        "
  {
    hide ReplaceAll;
    ReplaceOnce(TwoSpaces, FourSpaces);
    IndentLiterals();
    ReplaceTwice(TwoSpaces, FourSpaces);
  }

  lemma CrLfLiterals()
    ensures "\r\r\n" == ['\r'] + CrLf
    ensures ['\r'] + "\n" == "\r\n"
    ensures !StartsWith("\r\r\n", CrLf)
  {
    assert ("\r\r\n")[..2][1] == '\r' != CrLf[1];
  }

  lemma ReplaceSkip(s: string, p: string, r: string)
    requires p != [] && s != [] && !StartsWith(s, p)
    ensures ReplaceAll(s, p, r) == [s[0]] + ReplaceAll(s[1..], p, r)
  {
    hide StartsWith;
  }

  /** A carriage return before a Windows line end survives the first pass and is
      removed by a second one: the step is not idempotent either. */
  lemma UnixLineEndsNotIdempotent()
    ensures UnixLineEnds("\r\r\n") == CrLf
    ensures UnixLineEnds(UnixLineEnds("\r\r\n")) == "\n"
  {
    hide ReplaceAll, StartsWith;
    CrLfLiterals();
    ReplaceSkip("\r\r\n", CrLf, "\n");
    assert ("\r\r\n")[1..] == CrLf by {
      assert (['\r'] + CrLf)[1..] == CrLf;
    }
    ReplaceOnce(CrLf, "\n");
  }
}
