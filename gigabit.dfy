/** The fourth rewrite of the YAML text, `re.sub(r'(Gigabit.*?)\n', r'\1:\n', s)`:
    every line that mentions a Gigabit interface and ends in a line break gets a
    colon before that break. */
module GigabitRewrite {
  import opened Text

  const Gigabit := "Gigabit"

  /** The rewrite as the regex engine performs it: at each position where
      `Gigabit` begins, `.*?` stretches to the first line break, and the match (up
      to and including that break) is replaced by itself with `:` before the break.
      Where the line has no break, nothing matches and the scan moves on by one
      character. */
  function MarkGigabit(s: string): string
    decreases |s|
  {
    if s == [] then []
    else if StartsWith(s, Gigabit) && LineEnd(s) < |s| then
      var n := LineEnd(s);
      s[..n] + ":\n" + MarkGigabit(s[n + 1..])
    else [s[0]] + MarkGigabit(s[1..])
  }

  /** The same rewrite stated line by line: each line ended by a break is kept,
      with a colon added when it contains `Gigabit`; a last line without a break is
      kept as it is. */
  function MarkLines(s: string): string
    decreases |s|
  {
    var n := LineEnd(s);
    if n == |s| then s
    else s[..n] + (if Contains(s[..n], Gigabit) then ":\n" else "\n") + MarkLines(s[n + 1..])
  }

  /** A text that begins with a break-free `p` has its first break after `p`. */
  lemma {:induction false} LineEndAfterPrefix(s: string, p: string)
    requires StartsWith(s, p) && NoNewline(p)
    ensures |p| <= LineEnd(s)
    decreases |p|
  {
    if p != [] {
      assert s[0] == p[0];
      assert StartsWith(s[1..], p[1..]) by {
        assert s[1..][..|p| - 1] == s[..|p|][1..];
      }
      LineEndAfterPrefix(s[1..], p[1..]);
    }
  }

  lemma MarkGigabitDef(s: string)
    ensures s == [] ==> MarkGigabit(s) == []
    ensures StartsWith(s, Gigabit) && LineEnd(s) < |s| ==>
      MarkGigabit(s) == s[..LineEnd(s)] + ":\n" + MarkGigabit(s[LineEnd(s) + 1..])
  {
    hide StartsWith, LineEnd;
  }

  lemma MarkGigabitSkip(s: string)
    requires s != [] && !(StartsWith(s, Gigabit) && LineEnd(s) < |s|)
    ensures MarkGigabit(s) == [s[0]] + MarkGigabit(s[1..])
  {
    hide StartsWith, LineEnd;
  }

  lemma MarkLinesLastDef(s: string)
    requires LineEnd(s) == |s|
    ensures MarkLines(s) == s
  {
    hide Contains, LineEnd;
  }

  lemma MarkLinesDef(s: string)
    requires LineEnd(s) < |s|
    ensures MarkLines(s) == s[..LineEnd(s)] + (if Contains(s[..LineEnd(s)], Gigabit) then ":\n" else "\n")
                            + MarkLines(s[LineEnd(s) + 1..])
  {
    hide Contains, LineEnd;
  }

  /** One step of the search for the first line break. */
  lemma LineEndStep(s: string)
    requires s != []
    ensures s[0] == '\n' ==> LineEnd(s) == 0
    ensures s[0] != '\n' ==> LineEnd(s) == 1 + LineEnd(s[1..])
  {
  }

  /** One step of the substring test. */
  lemma ContainsStep(s: string, w: string)
    ensures s == [] ==> (Contains(s, w) <==> w == [])
    ensures s != [] && !StartsWith(s, w) ==> (Contains(s, w) <==> Contains(s[1..], w))
  {
  }

  /** A prefix at least as long as `p` begins with `p` exactly when the text does. */
  lemma StartsWithCut(s: string, k: nat, p: string)
    requires k <= |s|
    ensures |p| <= k ==> (StartsWith(s[..k], p) <==> StartsWith(s, p))
    ensures k < |p| ==> !StartsWith(s[..k], p)
  {
    if |p| <= k {
      assert s[..k][..|p|] == s[..|p|];
    }
  }

  /** A line that has a colon added by the scan has one added line by line. */
  lemma MarkLinesMatch(s: string)
    requires StartsWith(s, Gigabit) && LineEnd(s) < |s|
    ensures MarkLines(s) == s[..LineEnd(s)] + ":\n" + MarkLines(s[LineEnd(s) + 1..])
  {
    hide MarkLines, Contains, StartsWith, LineEnd;
    var n := LineEnd(s);
    LineEndAfterPrefix(s, Gigabit);
    StartsWithCut(s, n, Gigabit);
    ContainsPrefix(s[..n], Gigabit);
    MarkLinesDef(s);
  }

  lemma ConsJoin(c: char, a: string, b: string, r: string)
    ensures [c] + (a + b + r) == ([c] + a) + b + r
  {
  }

  /** Inside a line that does not begin with `Gigabit`, dropping the first character
      does not change whether the line mentions it. */
  lemma MarkLinesSkipInLine(s: string)
    requires s != [] && s[0] != '\n' && LineEnd(s) < |s| && !StartsWith(s, Gigabit)
    ensures MarkLines(s) == [s[0]] + MarkLines(s[1..])
  {
    hide MarkLines, Contains, StartsWith, LineEnd;
    var n := LineEnd(s);
    MarkLinesDef(s);
    MarkLinesDef(s[1..]);
    LineEndStep(s);
    var line := s[..n];
    var tail := s[1..][..n - 1];
    assert tail == line[1..];
    assert s[1..][n - 1 + 1..] == s[n + 1..];
    StartsWithCut(s, n, Gigabit);
    ContainsStep(line, Gigabit);
    var brk := if Contains(line, Gigabit) then ":\n" else "\n";
    assert line == [s[0]] + tail;
    ConsJoin(s[0], tail, brk, MarkLines(s[n + 1..]));
  }

  /** A line break is copied by both rewrites. */
  lemma MarkLinesSkipBreak(s: string)
    requires s != [] && s[0] == '\n'
    ensures MarkLines(s) == [s[0]] + MarkLines(s[1..])
  {
    hide MarkLines, Contains, StartsWith, LineEnd;
    LineEndStep(s);
    MarkLinesDef(s);
    ContainsStep(s[..0], Gigabit);
  }

  /** So is the first character of a last line without a break. */
  lemma MarkLinesSkipLast(s: string)
    requires s != [] && s[0] != '\n' && LineEnd(s) == |s|
    ensures MarkLines(s) == [s[0]] + MarkLines(s[1..])
  {
    hide MarkLines, Contains, StartsWith, LineEnd;
    LineEndStep(s);
    MarkLinesLastDef(s);
    MarkLinesLastDef(s[1..]);
    assert [s[0]] + s[1..] == s;
  }

  /** The regex scan and the line-by-line statement agree on every text. */
  lemma {:induction false} MarkGigabitByLines(s: string)
    ensures MarkGigabit(s) == MarkLines(s)
    decreases |s|
  {
    hide MarkGigabit, MarkLines;
    MarkGigabitDef(s);
    if s == [] {
      MarkLinesLastDef(s);
    } else {
      if StartsWith(s, Gigabit) && LineEnd(s) < |s| {
        MarkLinesMatch(s);
        MarkGigabitByLines(s[LineEnd(s) + 1..]);
      } else {
        MarkGigabitSkip(s);
        if s[0] == '\n' {
          MarkLinesSkipBreak(s);
        } else if LineEnd(s) == |s| {
          MarkLinesSkipLast(s);
        } else {
          MarkLinesSkipInLine(s);
        }
        MarkGigabitByLines(s[1..]);
      }
    }
  }

  /** A line ended by a break gains one colon before the break exactly when it
      contains `Gigabit`; the rest of the text is rewritten on its own. */
  lemma MarkGigabitLine(line: string, rest: string)
    requires NoNewline(line)
    ensures MarkGigabit(line + "\n" + rest)
            == line + (if Contains(line, Gigabit) then ":\n" else "\n") + MarkGigabit(rest)
  {
    var s := line + "\n" + rest;
    LineEndOfJoin(line, rest);
    MarkGigabitByLines(s);
    MarkGigabitByLines(rest);
    assert s[..|line|] == line;
    assert s[|line| + 1..] == rest;
  }

  /** A last line without a break is never changed, whatever it contains. */
  lemma MarkGigabitLastLine(line: string)
    requires NoNewline(line)
    ensures MarkGigabit(line) == line
  {
    LineEndOfJoin(line, "");
    MarkGigabitByLines(line);
  }

  /** A text that never mentions `Gigabit` is left as it is. */
  lemma {:induction false} MarkGigabitUntouched(s: string)
    requires !Contains(s, Gigabit)
    ensures MarkGigabit(s) == s
    decreases |s|
  {
    hide LineEnd;
    if s != [] {
      MarkGigabitUntouched(s[1..]);
      assert [s[0]] + s[1..] == s;
    }
  }

  /** The rewrite is not idempotent: a second application adds a second colon. */
  lemma MarkGigabitNotIdempotent()
    ensures MarkGigabit("Gigabit\n") == "Gigabit:\n"
    ensures MarkGigabit(MarkGigabit("Gigabit\n")) == "Gigabit::\n"
  {
    hide MarkGigabit, Contains;
    ContainsPrefix("Gigabit", Gigabit);
    ContainsPrefix("Gigabit:", Gigabit);
    MarkGigabitLine("Gigabit", "");
    MarkGigabitLine("Gigabit:", "");
    MarkGigabitLastLine("");
    assert "Gigabit" + "\n" + "" == "Gigabit\n";
    assert "Gigabit:" + "\n" + "" == "Gigabit:\n";
  }
}
