/** The last two rewrites of the YAML text, both about `description: '…'` values
    that YAML wrapped onto several lines:
      `re.sub(r'(description: \'.*?)\n\s*(.*?\')', r'\1 \2', s)` joins the first
      line of such a value with the line that carries its closing quote, and
      `re.sub(r'(description: )\'(.*?)\'', r'\1"\2"', s)` turns the single quotes
      around a one-line value into double quotes. */
module DescriptionRewrite {
  import opened Text

  const Key := "description: "
  const Opening := "description: '"
  const Quote := '\''
  const DoubleQuote := '"'

  /** The position of the first quote of `t` that comes before any line break: what
      a lazy `.*?` followed by a quote reaches. */
  function FirstQuote(t: string): (r: Option<nat>)
    ensures r.Some? ==> r.value < |t| && t[r.value] == Quote && NoNewline(t[..r.value])
    ensures r.Some? ==> forall i :: 0 <= i < r.value ==> t[i] != Quote
    ensures r.None? ==> forall i :: 0 <= i < LineEnd(t) ==> t[i] != Quote
  {
    if t == [] || t[0] == '\n' then None
    else if t[0] == Quote then Some(0)
    else
      match FirstQuote(t[1..])
      case None => None
      case Some(j) =>
        assert t[..j + 1] == [t[0]] + t[1..][..j];
        Some(j + 1)
  }

  // ---------------------------------------------------------------------------
  // Joining a wrapped description

  /** The second group of the join, tried with `m` characters taken by `\s*`: the
      greedy `\s*` first takes the whole run of whitespace after the break and gives
      characters back one at a time while `(.*?\')` finds no quote on the rest of
      the line. The result holds where the second group begins and where its
      closing quote is. */
  function JoinTry(s: string, brk: nat, m: nat): (r: Option<(nat, nat)>)
    requires brk < |s| && brk + 1 + m <= |s|
    ensures r.Some? ==>
      brk + 1 <= r.value.0 <= brk + 1 + m && r.value.0 <= r.value.1 < |s| && s[r.value.1] == Quote
    decreases m
  {
    var p := brk + 1 + m;
    match FirstQuote(s[p..])
    case Some(j) => Some((p, p + j))
    case None => if m == 0 then None else JoinTry(s, brk, m - 1)
  }

  /** The join where the scan stands: the text must begin with the opening of a
      quoted description, the lazy `.*?` of the first group stops at the first line
      break, and `\s*` then starts from the whitespace run after it. */
  function JoinHere(s: string): (r: Option<(nat, nat)>)
    ensures r.Some? ==>
      StartsWith(s, Opening) && LineEnd(s) < |s|
      && LineEnd(s) + 1 <= r.value.0 <= LineEnd(s) + 1 + SpaceRun(s[LineEnd(s) + 1..])
      && r.value.0 <= r.value.1 < |s| && s[r.value.1] == Quote
  {
    if !StartsWith(s, Opening) || LineEnd(s) == |s| then None
    else JoinTry(s, LineEnd(s), SpaceRun(s[LineEnd(s) + 1..]))
  }

  /** `re.sub` of the join: the break and the whitespace after it become one space,
      and the scan resumes after the closing quote. */
  function JoinDescription(s: string): string
    decreases |s|
  {
    if s == [] then []
    else match JoinHere(s)
      case None => [s[0]] + JoinDescription(s[1..])
      case Some((p, q)) => s[..LineEnd(s)] + " " + s[p..q + 1] + JoinDescription(s[q + 1..])
  }

  /** `s` without its whitespace characters. */
  function NonSpace(s: string): (r: string)
    ensures |r| <= |s|
  {
    if s == [] then [] else (if IsSpace(s[0]) then [] else [s[0]]) + NonSpace(s[1..])
  }

  // ---------------------------------------------------------------------------
  // Turning single quotes into double quotes

  /** Where a one-line quoted description begins: the index of its closing quote. */
  function RequoteHere(s: string): (r: Option<nat>)
    ensures r.Some? ==> StartsWith(s, Opening) && |Opening| <= r.value < |s| && s[r.value] == Quote
  {
    if !StartsWith(s, Opening) then None
    else match FirstQuote(s[|Opening|..])
      case None => None
      case Some(j) => Some(|Opening| + j)
  }

  /** `re.sub` of the requoting: `description: '…'` becomes `description: "…"`. */
  function RequoteDescription(s: string): string
    decreases |s|
  {
    if s == [] then []
    else match RequoteHere(s)
      case None => [s[0]] + RequoteDescription(s[1..])
      case Some(c) => Key + [DoubleQuote] + s[|Opening|..c] + [DoubleQuote] + RequoteDescription(s[c + 1..])
  }

  /** `t` is `s` with some single quotes turned into double quotes and nothing else
      changed. */
  predicate Requoted(s: string, t: string)
    decreases |s|
  {
    if s == [] then t == []
    else t != [] && (t[0] == s[0] || (s[0] == Quote && t[0] == DoubleQuote)) && Requoted(s[1..], t[1..])
  }

  // ---------------------------------------------------------------------------
  // Properties of the join

  lemma JoinDescriptionSkip(s: string)
    requires s != [] && JoinHere(s).None?
    ensures JoinDescription(s) == [s[0]] + JoinDescription(s[1..])
  {
    hide JoinHere;
  }

  lemma JoinDescriptionMatch(s: string, p: nat, q: nat)
    requires JoinHere(s) == Some((p, q))
    ensures JoinDescription(s) == s[..LineEnd(s)] + " " + s[p..q + 1] + JoinDescription(s[q + 1..])
  {
    hide JoinHere, StartsWith, LineEnd, SpaceRun;
  }

  /** A text without `description: '` is left as it is by the join. */
  lemma {:induction false} JoinDescriptionUntouched(s: string)
    requires !Contains(s, Opening)
    ensures JoinDescription(s) == s
    decreases |s|
  {
    hide JoinHere;
    if s != [] {
      JoinDescriptionSkip(s);
      JoinDescriptionUntouched(s[1..]);
      assert [s[0]] + s[1..] == s;
    }
  }

  /** A first line that opens a description, directly followed by a line that
      begins with a quote: the join takes just the break. */
  lemma JoinHereAtBreak(l: string, rest: string)
    requires StartsWith(l, Opening) && NoNewline(l)
    ensures JoinHere(l + "\n" + ([Quote] + rest)) == Some((|l| + 1, |l| + 1))
  {
    var s := l + "\n" + ([Quote] + rest);
    LineEndOfJoin(l, [Quote] + rest);
    assert s[..|Opening|] == l[..|Opening|];
    assert s[|l| + 1..] == [Quote] + rest;
    assert !IsSpace(Quote);
    assert SpaceRun([Quote] + rest) == 0;
    assert FirstQuote([Quote] + rest) == Some(0);
  }

  /** The join of such a text: the break becomes a space. */
  lemma JoinAtBreak(l: string, rest: string)
    requires StartsWith(l, Opening) && NoNewline(l)
    ensures JoinDescription(l + "\n" + ([Quote] + rest)) == l + " " + [Quote] + JoinDescription(rest)
  {
    hide JoinHere, JoinDescription;
    var s := l + "\n" + ([Quote] + rest);
    JoinHereAtBreak(l, rest);
    LineEndOfJoin(l, [Quote] + rest);
    JoinDescriptionMatch(s, |l| + 1, |l| + 1);
    assert s[..|l|] == l && s[|l| + 1..|l| + 2] == [Quote] && s[|l| + 2..] == rest;
  }

  /** The first pass joins the break with the quote that opens the next line. */
  lemma JoinOnce()
    ensures JoinDescription(Opening + "\n'\n'") == Opening + " '\n'"
  {
    hide JoinDescription;
    assert Opening + "\n'\n'" == Opening + "\n" + ([Quote] + "\n'");
    JoinAtBreak(Opening, "\n'");
    assert !StartsWith("\n'", Opening) && !StartsWith("'", Opening);
    JoinDescriptionSkip("\n'");
    assert "\n'"[1..] == "'";
    JoinDescriptionSkip("'");
    assert "'"[1..] == [];
    JoinDescriptionEmpty();
  }

  /** The second pass joins the break that the first pass left. */
  lemma JoinTwice()
    ensures JoinDescription(Opening + " '\n'") == Opening + " ' '"
  {
    hide JoinDescription;
    var l := Opening + " '";
    assert Opening + " '\n'" == l + "\n" + ([Quote] + []);
    assert l[..|Opening|] == Opening;
    JoinAtBreak(l, []);
    JoinDescriptionEmpty();
  }

  /** The join is not idempotent: a value wrapped over three lines is joined one
      break per pass, so a second pass changes the text again. */
  lemma JoinDescriptionNotIdempotent()
    ensures JoinDescription(Opening + "\n'\n'") == Opening + " '\n'"
    ensures JoinDescription(JoinDescription(Opening + "\n'\n'")) == Opening + " ' '"
    ensures JoinDescription(JoinDescription(Opening + "\n'\n'")) != JoinDescription(Opening + "\n'\n'")
  {
    JoinOnce();
    JoinTwice();
    assert (Opening + " '\n'")[|Opening| + 2] == '\n';
    assert (Opening + " ' '")[|Opening| + 2] == ' ';
  }

  lemma {:induction false} NonSpaceAppend(a: string, b: string)
    ensures NonSpace(a + b) == NonSpace(a) + NonSpace(b)
    decreases |a|
  {
    hide IsSpace;
    if a == [] {
      assert a + b == b;
    } else {
      assert (a + b)[1..] == a[1..] + b;
      NonSpaceAppend(a[1..], b);
    }
  }

  lemma {:induction false} NonSpaceBlank(t: string)
    requires forall i :: 0 <= i < |t| ==> IsSpace(t[i])
    ensures NonSpace(t) == []
    decreases |t|
  {
    hide IsSpace;
    if t != [] {
      NonSpaceBlank(t[1..]);
    }
  }

  lemma BlankCharacters()
    ensures IsSpace('\n') && IsSpace(' ')
    ensures NonSpace(" ") == []
  {
  }

  /** A line break and the whitespace run after it are all whitespace. */
  lemma GapBlank(s: string, n: nat, p: nat)
    requires n < p <= |s| && s[n] == '\n' && p <= n + 1 + SpaceRun(s[n + 1..])
    ensures NonSpace(s[n..p]) == []
  {
    hide IsSpace, SpaceRun, NonSpace;
    BlankCharacters();
    var gap := s[n..p];
    forall i | 0 <= i < |gap|
      ensures IsSpace(gap[i])
    {
      if i == 0 {
        assert gap[0] == s[n];
      } else {
        assert gap[i] == s[n + 1..][i - 1];
      }
    }
    NonSpaceBlank(gap);
  }

  /** What a join removes, the break and the whitespace after it, is whitespace. */
  lemma JoinRemovesBlank(s: string, p: nat, q: nat)
    requires JoinHere(s) == Some((p, q))
    ensures LineEnd(s) < p <= q < |s|
    ensures NonSpace(s[LineEnd(s)..p]) == [] && NonSpace(" ") == []
  {
    hide JoinHere, IsSpace, StartsWith, LineEnd, SpaceRun, NonSpace;
    BlankCharacters();
    GapBlank(s, LineEnd(s), p);
  }

  lemma JoinParts(s: string, n: nat, p: nat, q: nat)
    requires n <= p <= q < |s|
    ensures s == s[..n] + s[n..p] + s[p..q + 1] + s[q + 1..]
  {
  }

  /** The join changes whitespace only: the text without its whitespace is the
      same before and after. */
  lemma {:induction false} JoinKeepsNonSpace(s: string)
    ensures NonSpace(JoinDescription(s)) == NonSpace(s)
    decreases |s|
  {
    hide JoinHere, JoinDescription;
    if s == [] {
      assert JoinDescription(s) == [] by {
        JoinDescriptionEmpty();
      }
    } else {
      match JoinHere(s)
      case None =>
        JoinDescriptionSkip(s);
        JoinKeepsNonSpace(s[1..]);
        NonSpaceAppend([s[0]], JoinDescription(s[1..]));
        NonSpaceAppend([s[0]], s[1..]);
        assert [s[0]] + s[1..] == s;
      case Some((p, q)) =>
        var n := LineEnd(s);
        JoinDescriptionMatch(s, p, q);
        JoinRemovesBlank(s, p, q);
        JoinKeepsNonSpace(s[q + 1..]);
        var a, g, b, rest := s[..n], s[n..p], s[p..q + 1], s[q + 1..];
        JoinParts(s, n, p, q);
        NonSpaceAppend(a + g + b, rest);
        NonSpaceAppend(a + g, b);
        NonSpaceAppend(a, g);
        NonSpaceAppend(a + " " + b, JoinDescription(rest));
        NonSpaceAppend(a + " ", b);
        NonSpaceAppend(a, " ");
    }
  }

  lemma JoinDescriptionEmpty()
    ensures JoinDescription([]) == []
  {
  }

  /** The join never lengthens the text; each join shortens it by the whitespace
      that followed the break. */
  lemma {:induction false} JoinDescriptionShorter(s: string)
    ensures |JoinDescription(s)| <= |s|
    decreases |s|
  {
    hide JoinHere, JoinDescription;
    if s == [] {
      JoinDescriptionEmpty();
    } else {
      match JoinHere(s)
      case None =>
        JoinDescriptionSkip(s);
        JoinDescriptionShorter(s[1..]);
      case Some((p, q)) =>
        JoinDescriptionMatch(s, p, q);
        JoinRemovesBlank(s, p, q);
        JoinDescriptionShorter(s[q + 1..]);
    }
  }

  // ---------------------------------------------------------------------------
  // Properties of the requoting

  lemma RequoteSkip(s: string)
    requires s != [] && RequoteHere(s).None?
    ensures RequoteDescription(s) == [s[0]] + RequoteDescription(s[1..])
  {
    hide RequoteHere;
  }

  lemma RequoteMatch(s: string, c: nat)
    requires RequoteHere(s) == Some(c)
    ensures RequoteDescription(s)
            == Key + [DoubleQuote] + s[|Opening|..c] + [DoubleQuote] + RequoteDescription(s[c + 1..])
  {
    hide RequoteHere;
  }

  lemma RequoteEmpty()
    ensures RequoteDescription([]) == []
  {
  }

  /** A text without `description: '` is left as it is by the requoting. */
  lemma {:induction false} RequoteUntouched(s: string)
    requires !Contains(s, Opening)
    ensures RequoteDescription(s) == s
    decreases |s|
  {
    hide RequoteHere;
    if s != [] {
      RequoteSkip(s);
      RequoteUntouched(s[1..]);
      assert [s[0]] + s[1..] == s;
    }
  }

  lemma {:induction false} RequotedSame(s: string)
    ensures Requoted(s, s)
    decreases |s|
  {
    if s != [] {
      RequotedSame(s[1..]);
    }
  }

  lemma {:induction false} RequotedJoin(a: string, a': string, b: string, b': string)
    requires Requoted(a, a') && Requoted(b, b')
    ensures Requoted(a + b, a' + b')
    decreases |a|
  {
    if a == [] {
      assert a + b == b && a' + b' == b';
    } else {
      RequotedJoin(a[1..], a'[1..], b, b');
      assert (a + b)[1..] == a[1..] + b;
      assert (a' + b')[1..] == a'[1..] + b';
    }
  }

  lemma OpeningParts()
    ensures Opening == Key + [Quote]
  {
  }

  lemma QuoteTurned()
    ensures Requoted([Quote], [DoubleQuote])
  {
  }

  /** The requoting turns some single quotes into double quotes and changes nothing
      else. */
  lemma {:induction false} RequoteTurnsQuotes(s: string)
    ensures Requoted(s, RequoteDescription(s))
    decreases |s|
  {
    hide RequoteHere, RequoteDescription, Requoted;
    if s == [] {
      RequoteEmpty();
      RequotedSame(s);
    } else {
      match RequoteHere(s)
      case None =>
        RequoteSkip(s);
        RequoteTurnsQuotes(s[1..]);
        RequotedSame([s[0]]);
        RequotedJoin([s[0]], [s[0]], s[1..], RequoteDescription(s[1..]));
        assert [s[0]] + s[1..] == s;
      case Some(c) =>
        RequoteMatch(s, c);
        RequoteTurnsQuotes(s[c + 1..]);
        var body, rest := s[|Opening|..c], s[c + 1..];
        OpeningParts();
        assert s == Key + [Quote] + body + [Quote] + rest by {
          assert s[..|Opening|] == Opening;
          assert s == s[..|Opening|] + body + [s[c]] + rest;
        }
        QuoteTurned();
        RequotedSame(Key);
        RequotedSame(body);
        RequotedJoin(Key, Key, [Quote], [DoubleQuote]);
        RequotedJoin(Key + [Quote], Key + [DoubleQuote], body, body);
        RequotedJoin(Key + [Quote] + body, Key + [DoubleQuote] + body, [Quote], [DoubleQuote]);
        RequotedJoin(Key + [Quote] + body + [Quote], Key + [DoubleQuote] + body + [DoubleQuote],
                     rest, RequoteDescription(rest));
    }
  }

  /** Read position by position: the requoted text has the same length, and each
      character is the original one or a double quote where a single quote stood. */
  lemma {:induction false} RequotedPointwise(s: string, t: string)
    requires Requoted(s, t)
    ensures |t| == |s|
    ensures forall i :: 0 <= i < |s| ==> t[i] == s[i] || (s[i] == Quote && t[i] == DoubleQuote)
    decreases |s|
  {
    if s != [] {
      RequotedPointwise(s[1..], t[1..]);
      assert forall i :: 1 <= i < |s| ==> s[i] == s[1..][i - 1] && t[i] == t[1..][i - 1];
    }
  }
}
