/** The fifth rewrite of the YAML text,
    `re.sub(r'(.*?vlan.*?)\'(\d*?)\'', r'\1\2', s)`: on a line that mentions `vlan`,
    a quoted run of digits after the mention loses its two quotes (YAML quotes the
    VLAN lists it writes as strings). */
module VlanRewrite {
  import opened Text

  const Vlan := "vlan"
  const Quote := '\''

  /** Where one match lies: the mention of `vlan` that the first lazy `.*?` reached,
      the opening quote, and how many digits stand between the two quotes. */
  datatype Match = Match(mention: nat, open: nat, digits: nat)

  /** What `\d` matches; taken here as the ASCII digits. */
  predicate IsDigit(c: char) {
    '0' <= c <= '9'
  }

  /** The length of the run of digits that begins `t`. */
  function DigitRun(t: string): (n: nat)
    ensures n <= |t|
    ensures forall i :: 0 <= i < n ==> IsDigit(t[i])
    ensures n < |t| ==> !IsDigit(t[n])
  {
    if t == [] || !IsDigit(t[0]) then 0 else 1 + DigitRun(t[1..])
  }

  /** A quote at `open` followed by digits and a closing quote. The lazy `\d*?` tries
      0, 1, 2, … digits, and a quote can only follow once the digits run out, so the
      one candidate is the whole run. */
  predicate QuotedDigitsAt(line: string, open: nat) {
    open < |line| && line[open] == Quote
    && open + 1 + DigitRun(line[open + 1..]) < |line|
    && line[open + 1 + DigitRun(line[open + 1..])] == Quote
  }

  /** The lazy `.*?` after the mention: the first quote at or after `b` that opens a
      quoted run of digits on this line. */
  function QuoteFrom(line: string, b: nat): (r: Option<nat>)
    decreases |line| - b
    ensures r.Some? ==> b <= r.value && QuotedDigitsAt(line, r.value)
    ensures r.None? ==> forall j :: b <= j < |line| ==> !QuotedDigitsAt(line, j)
  {
    if b >= |line| then None
    else if QuotedDigitsAt(line, b) then Some(b)
    else QuoteFrom(line, b + 1)
  }

  predicate MentionAt(line: string, a: nat) {
    a + |Vlan| <= |line| && line[a..a + |Vlan|] == Vlan
  }

  /** The first lazy `.*?`: mentions of `vlan` are tried from left to right, and the
      first one after which a quoted run of digits follows gives the match. */
  function MentionFrom(line: string, a: nat): (r: Option<Match>)
    decreases |line| - a
    ensures r.Some? ==>
      a <= r.value.mention && MentionAt(line, r.value.mention)
      && r.value.mention + |Vlan| <= r.value.open
      && QuotedDigitsAt(line, r.value.open)
      && r.value.digits == DigitRun(line[r.value.open + 1..])
  {
    if a + |Vlan| > |line| then None
    else if MentionAt(line, a) && QuoteFrom(line, a + |Vlan|).Some? then
      var open := QuoteFrom(line, a + |Vlan|).value;
      Some(Match(a, open, DigitRun(line[open + 1..])))
    else MentionFrom(line, a + 1)
  }

  /** The match that begins where the scan stands. Nothing the pattern matches is a
      line break, so the match lies within the first line. */
  function MatchHere(s: string): Option<Match> {
    MentionFrom(s[..LineEnd(s)], 0)
  }

  /** The rewrite as `re.sub` performs it: where a match begins, the text up to the
      opening quote and the digits are kept and both quotes dropped, and the scan
      resumes after the closing quote; elsewhere one character is copied. */
  function UnquoteVlan(s: string): string
    decreases |s|
  {
    if s == [] then []
    else if MatchHere(s).None? then [s[0]] + UnquoteVlan(s[1..])
    else
      var m := MatchHere(s).value;
      Kept(s, m) + UnquoteVlan(s[m.open + m.digits + 2..])
  }

  /** What replaces a match: the text up to the opening quote, then the digits. */
  function Kept(s: string, m: Match): string
    requires m.open + m.digits + 2 <= |s|
  {
    s[..m.open] + s[m.open + 1..m.open + 1 + m.digits]
  }

  /** `t` is `s` with some of its quote characters removed and nothing else changed. */
  predicate QuoteDeletion(s: string, t: string)
    decreases |s|
  {
    if s == [] then t == []
    else (t != [] && t[0] == s[0] && QuoteDeletion(s[1..], t[1..]))
         || (s[0] == Quote && QuoteDeletion(s[1..], t))
  }

  // ---------------------------------------------------------------------------
  // Facts about a match

  /** Where a match begins, its parts lie within the first line of the text. */
  lemma MatchHereBounds(s: string)
    requires MatchHere(s).Some?
    ensures var m := MatchHere(s).value;
      m.open + m.digits + 2 <= LineEnd(s) && s[m.open] == Quote && s[m.open + m.digits + 1] == Quote
      && m.mention + |Vlan| <= m.open && s[m.mention..m.mention + |Vlan|] == Vlan
  {
    hide MentionFrom, QuoteFrom, DigitRun;
    var line := s[..LineEnd(s)];
    var m := MatchHere(s).value;
    assert line[m.mention..m.mention + |Vlan|] == s[m.mention..m.mention + |Vlan|];
  }

  /** A match needs a mention of `vlan`. */
  lemma MatchHereMentions(s: string)
    requires MatchHere(s).Some?
    ensures Contains(s, Vlan)
  {
    MatchHereBounds(s);
    var m := MatchHere(s).value;
    ContainsAt(s, Vlan, m.mention);
  }

  /** The match of a text depends on its first line only. */
  lemma MatchHereOfJoin(line: string, rest: string)
    requires NoNewline(line)
    ensures MatchHere(line + "\n" + rest) == MatchHere(line)
  {
    LineEndOfJoin(line, rest);
    assert (line + "\n" + rest)[..|line|] == line;
    assert line[..|line|] == line;
  }

  // ---------------------------------------------------------------------------
  // Properties of the rewrite

  /** A text that does not mention `vlan` is left as it is. */
  lemma {:induction false} UnquoteVlanUntouched(s: string)
    requires !Contains(s, Vlan)
    ensures UnquoteVlan(s) == s
    decreases |s|
  {
    hide MatchHere;
    if s != [] {
      if MatchHere(s).Some? {
        MatchHereMentions(s);
      }
      UnquoteVlanUntouched(s[1..]);
      assert [s[0]] + s[1..] == s;
    }
  }

  lemma {:induction false} UnquoteVlanOfJoinStep(line: string, rest: string, m: Match)
    requires NoNewline(line) && MatchHere(line) == Some(m)
    ensures m.open + m.digits + 2 <= |line|
    ensures var s := line + "\n" + rest; var k := m.open + m.digits + 2;
      s[..m.open] == line[..m.open]
      && s[m.open + 1..m.open + 1 + m.digits] == line[m.open + 1..m.open + 1 + m.digits]
      && s[k..] == line[k..] + "\n" + rest
  {
    hide MatchHere, LineEnd;
    LineEndOfJoin(line, rest);
    MatchHereFits(line, m);
  }

  lemma UnquoteVlanEmpty()
    ensures UnquoteVlan([]) == []
  {
  }

  /** Where nothing matches, one character is copied. */
  lemma UnquoteVlanSkip(s: string)
    requires s != [] && MatchHere(s).None?
    ensures UnquoteVlan(s) == [s[0]] + UnquoteVlan(s[1..])
  {
    hide MatchHere;
  }

  /** A match ends within the text. */
  lemma MatchHereFits(s: string, m: Match)
    requires MatchHere(s) == Some(m)
    ensures s != [] && m.open + m.digits + 2 <= |s|
  {
    hide MatchHere, LineEnd;
    MatchHereBounds(s);
  }

  /** Where a match begins, its two quotes are dropped. */
  lemma UnquoteVlanMatch(s: string, m: Match)
    requires MatchHere(s) == Some(m)
    ensures m.open + m.digits + 2 <= |s|
    ensures UnquoteVlan(s)
            == s[..m.open] + s[m.open + 1..m.open + 1 + m.digits] + UnquoteVlan(s[m.open + m.digits + 2..])
  {
    hide MatchHere;
    MatchHereFits(s, m);
  }

  /** An empty first line leaves no room for a mention. */
  lemma MatchHereEmptyLine(s: string)
    requires LineEnd(s) == 0
    ensures MatchHere(s) == None
  {
  }

  lemma ConsJoin(c: char, a: string, b: string, r: string)
    ensures [c] + (a + b + r) == ([c] + a) + b + r
  {
  }

  lemma Join3(p: string, q: string, a: string, b: string, r: string)
    ensures p + q + (a + b + r) == (p + q + a) + b + r
  {
  }

  /** The rewrite works line by line: a match never reaches past a line break, and
      the break itself is copied. */
  lemma {:induction false} UnquoteVlanByLine(line: string, rest: string)
    requires NoNewline(line)
    ensures UnquoteVlan(line + "\n" + rest) == UnquoteVlan(line) + "\n" + UnquoteVlan(rest)
    decreases |line|
  {
    hide MatchHere, UnquoteVlan;
    var s := line + "\n" + rest;
    MatchHereOfJoin(line, rest);
    if line == [] {
      LineEndOfJoin(line, rest);
      MatchHereEmptyLine(s);
      UnquoteVlanSkip(s);
      UnquoteVlanEmpty();
      assert s[1..] == rest;
    } else {
      match MatchHere(line)
      case None =>
        UnquoteVlanSkip(s);
        UnquoteVlanSkip(line);
        assert s[1..] == line[1..] + "\n" + rest;
        NoNewlineSlice(line, 1, |line|);
        UnquoteVlanByLine(line[1..], rest);
        ConsJoin(line[0], UnquoteVlan(line[1..]), "\n", UnquoteVlan(rest));
      case Some(m) =>
        UnquoteVlanMatch(s, m);
        UnquoteVlanMatch(line, m);
        UnquoteVlanOfJoinStep(line, rest, m);
        var k := m.open + m.digits + 2;
        NoNewlineSlice(line, k, |line|);
        UnquoteVlanByLine(line[k..], rest);
        Join3(line[..m.open], line[m.open + 1..m.open + 1 + m.digits],
              UnquoteVlan(line[k..]), "\n", UnquoteVlan(rest));
    }
  }

  /** Deletions keep a common prefix. */
  lemma {:induction false} QuoteDeletionPrefix(a: string, s: string, t: string)
    requires QuoteDeletion(s, t)
    ensures QuoteDeletion(a + s, a + t)
    decreases |a|
  {
    if a != [] {
      QuoteDeletionPrefix(a[1..], s, t);
      assert (a + s)[1..] == a[1..] + s;
      assert (a + t)[1..] == a[1..] + t;
      assert (a + t)[0] == (a + s)[0];
    } else {
      assert a + s == s && a + t == t;
    }
  }

  /** Removing the two quotes of a match is a deletion of quotes. */
  lemma MatchIsDeletion(s: string, m: Match, out: string)
    requires MatchHere(s) == Some(m)
    requires m.open + m.digits + 2 <= |s|
    requires s[m.open] == Quote && s[m.open + m.digits + 1] == Quote
    requires QuoteDeletion(s[m.open + m.digits + 2..], out)
    ensures QuoteDeletion(s, s[..m.open] + s[m.open + 1..m.open + 1 + m.digits] + out)
  {
    hide MatchHere;
    var k := m.open + m.digits + 2;
    var digits := s[m.open + 1..m.open + 1 + m.digits];
    var rest := s[k..];
    assert QuoteDeletion([Quote] + rest, out) by {
      assert ([Quote] + rest)[1..] == rest;
    }
    QuoteDeletionPrefix(digits, [Quote] + rest, out);
    assert QuoteDeletion([Quote] + (digits + [Quote] + rest), digits + out) by {
      assert ([Quote] + (digits + [Quote] + rest))[1..] == digits + ([Quote] + rest);
    }
    QuoteDeletionPrefix(s[..m.open], [Quote] + (digits + [Quote] + rest), digits + out);
    assert s == s[..m.open] + ([Quote] + (digits + [Quote] + rest));
    assert s[..m.open] + (digits + out) == s[..m.open] + digits + out;
  }

  /** The rewrite only ever removes quote characters. */
  lemma {:induction false} UnquoteVlanDeletesQuotes(s: string)
    ensures QuoteDeletion(s, UnquoteVlan(s))
    decreases |s|
  {
    hide MatchHere;
    if s != [] {
      match MatchHere(s)
      case None =>
        UnquoteVlanDeletesQuotes(s[1..]);
        assert ([s[0]] + UnquoteVlan(s[1..]))[1..] == UnquoteVlan(s[1..]);
      case Some(m) =>
        MatchHereBounds(s);
        var k := m.open + m.digits + 2;
        UnquoteVlanDeletesQuotes(s[k..]);
        MatchIsDeletion(s, m, UnquoteVlan(s[k..]));
    }
  }

  /** A deletion of quotes never lengthens the text and keeps every other
      character in order. */
  lemma {:induction false} QuoteDeletionShorter(s: string, t: string)
    requires QuoteDeletion(s, t)
    ensures |t| <= |s|
    ensures !(Quote in s) ==> t == s
    decreases |s|
  {
    if s != [] {
      if t != [] && t[0] == s[0] && QuoteDeletion(s[1..], t[1..]) {
        QuoteDeletionShorter(s[1..], t[1..]);
        if !(Quote in s) {
          assert !(Quote in s[1..]);
          assert t == [t[0]] + t[1..];
        }
      } else {
        QuoteDeletionShorter(s[1..], t);
        assert s[0] in s;
      }
    }
  }

  // ---------------------------------------------------------------------------
  // The rewrite at work

  lemma QuotedTenDigits()
    ensures DigitRun(("vlan '10'")[6..]) == 2
  {
    var t := "vlan '10'";
    assert t[6..][1..][1..] == [Quote];
  }

  lemma QuotedTenQuote()
    ensures QuoteFrom("vlan '10'", 4) == Some(5)
  {
    hide DigitRun;
    var t := "vlan '10'";
    QuotedTenDigits();
    assert QuotedDigitsAt(t, 5);
    assert !QuotedDigitsAt(t, 4);
  }

  lemma QuotedTenLine()
    ensures LineEnd("vlan '10'") == 9
  {
    hide LineEnd;
    var t := "vlan '10'";
    assert NoNewline(t) by {
      forall i | 0 <= i < |t|
        ensures t[i] != '\n'
      {
        assert t[i] in "vlan '10'";
      }
    }
    LineEndOfJoin(t, "");
  }

  lemma QuotedVlanMatch()
    ensures MatchHere("vlan '10'") == Some(Match(0, 5, 2))
  {
    hide DigitRun, QuoteFrom, LineEnd;
    var t := "vlan '10'";
    QuotedTenLine();
    assert t[..9] == t;
    QuotedTenDigits();
    QuotedTenQuote();
    assert MentionAt(t, 0);
  }

  /** A quoted VLAN number after a mention of `vlan` loses its quotes. */
  lemma UnquoteVlanExample()
    ensures UnquoteVlan("vlan '10'") == "vlan 10"
  {
    hide MatchHere, UnquoteVlan;
    var t := "vlan '10'";
    QuotedVlanMatch();
    UnquoteVlanMatch(t, Match(0, 5, 2));
    UnquoteVlanEmpty();
    assert t[9..] == [];
    assert t[..5] == "vlan ";
    assert t[6..8] == "10";
    assert "vlan " + "10" + [] == "vlan 10";
  }
}
