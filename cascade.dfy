/** What a cascade of rules does to one field: the field ends up holding what the
    last line that matches its pattern wrote, and every other field is left alone.
    These facts are stated once for any table with distinct field names and then
    applied to the tables of `convert_to_yaml`. */
module Cascade {
  import opened Text
  import opened OrderedDict
  import opened Patterns
  import opened Extractor

  /** A field's value after a write that may not happen. */
  function Override(before: Option<Field>, w: Option<Scalar>): Option<Field> {
    match w
    case None => before
    case Some(v) => Some(Leaf(v))
  }

  /** A field that only a write can create. */
  function AsField(w: Option<Scalar>): Option<Field> {
    Override(None, w)
  }

  /** What rule `r` writes last when run over `lines` in order. */
  function LastWritten(r: Rule, lines: seq<string>): Option<Scalar>
    decreases |lines|
  {
    if lines == [] then None
    else
      match Written(r, lines[|lines| - 1])
      case Some(v) => Some(v)
      case None => LastWritten(r, lines[..|lines| - 1])
  }

  predicate UniqueKeys(rs: seq<Rule>) {
    forall i, j :: 0 <= i < j < |rs| ==> rs[i].key != rs[j].key
  }

  /** No rule of the table writes field `k`. */
  predicate NoKey(rs: seq<Rule>, k: string) {
    forall i :: 0 <= i < |rs| ==> rs[i].key != k
  }

  /** Every line on which `r` writes is one that `sel` selects. */
  ghost predicate WritesOnlyOn(r: Rule, sel: Selector) {
    forall t :: Written(r, t).Some? ==> Selects(sel, t)
  }

  // ---------------------------------------------------------------------------
  // Last match wins

  /** When some line writes, the value is what the last writing line wrote. */
  lemma {:induction false} LastWrittenIsLast(r: Rule, lines: seq<string>) returns (i: nat)
    requires LastWritten(r, lines).Some?
    ensures i < |lines| && Written(r, lines[i]) == LastWritten(r, lines)
    ensures forall j :: i < j < |lines| ==> Written(r, lines[j]) == None
    decreases |lines|
  {
    hide Written;
    var n := |lines| - 1;
    if Written(r, lines[n]).Some? {
      i := n;
    } else {
      i := LastWrittenIsLast(r, lines[..n]);
      assert forall j :: i < j < n ==> lines[..n][j] == lines[j];
    }
  }

  /** Conversely, a writing line after which no line writes decides the value. */
  lemma {:induction false} LastWrittenOfLast(r: Rule, lines: seq<string>, i: nat)
    requires i < |lines| && Written(r, lines[i]).Some?
    requires forall j :: i < j < |lines| ==> Written(r, lines[j]) == None
    ensures LastWritten(r, lines) == Written(r, lines[i])
    decreases |lines|
  {
    hide Written;
    var n := |lines| - 1;
    if i < n {
      assert forall j :: i < j < n ==> lines[..n][j] == lines[j];
      LastWrittenOfLast(r, lines[..n], i);
    }
  }

  /** Nothing is written exactly when no line writes. */
  lemma {:induction false} LastWrittenNone(r: Rule, lines: seq<string>)
    ensures LastWritten(r, lines) == None <==> forall i :: 0 <= i < |lines| ==> Written(r, lines[i]) == None
    decreases |lines|
  {
    hide Written;
    if lines != [] {
      var n := |lines| - 1;
      LastWrittenNone(r, lines[..n]);
      assert forall i :: 0 <= i < n ==> lines[..n][i] == lines[i];
    }
  }

  // ---------------------------------------------------------------------------
  // One line, then many lines

  lemma {:induction false} ApplyRulesGet(d: Dict, rs: seq<Rule>, line: string, i: nat)
    requires UniqueKeys(rs) && i < |rs|
    ensures Get(ApplyRules(d, rs, line), rs[i].key) == Override(Get(d, rs[i].key), Written(rs[i], line))
    decreases |rs|
  {
    hide Written, Put;
    var d1 := ApplyRule(d, rs[0], line);
    assert Get(d1, rs[0].key) == Override(Get(d, rs[0].key), Written(rs[0], line));
    if i == 0 {
      ApplyRulesOther(d1, rs[1..], line, rs[0].key);
    } else {
      assert rs[1..][i - 1] == rs[i];
      ApplyRulesGet(d1, rs[1..], line, i - 1);
    }
  }

  lemma {:induction false} ApplyRulesOther(d: Dict, rs: seq<Rule>, line: string, k: string)
    requires NoKey(rs, k)
    ensures Get(ApplyRules(d, rs, line), k) == Get(d, k)
    decreases |rs|
  {
    hide Written, Put;
    if rs != [] {
      assert rs[0].key != k;
      ApplyRulesOther(ApplyRule(d, rs[0], line), rs[1..], line, k);
    }
  }

  /** Last match wins: over many lines a field holds what its rule wrote last. */
  lemma {:induction false} FoldRulesGet(d: Dict, rs: seq<Rule>, lines: seq<string>, i: nat)
    requires UniqueKeys(rs) && i < |rs|
    ensures Get(FoldRules(d, rs, lines), rs[i].key) == Override(Get(d, rs[i].key), LastWritten(rs[i], lines))
    decreases |lines|
  {
    hide Written, ApplyRules;
    if lines != [] {
      var n := |lines| - 1;
      FoldRulesGet(d, rs, lines[..n], i);
      ApplyRulesGet(FoldRules(d, rs, lines[..n]), rs, lines[n], i);
    }
  }

  /** Fields outside the table are left alone. */
  lemma {:induction false} FoldRulesOther(d: Dict, rs: seq<Rule>, lines: seq<string>, k: string)
    requires NoKey(rs, k)
    ensures Get(FoldRules(d, rs, lines), k) == Get(d, k)
    decreases |lines|
  {
    hide ApplyRules;
    if lines != [] {
      var n := |lines| - 1;
      FoldRulesOther(d, rs, lines[..n], k);
      ApplyRulesOther(FoldRules(d, rs, lines[..n]), rs, lines[n], k);
    }
  }

  // ---------------------------------------------------------------------------
  // Writing into a nested group is writing into its own dictionary

  lemma ApplyRuleInLift(d: Dict, g: string, m: Dict, r: Rule, line: string)
    requires Get(d, g) == Some(Group(m))
    ensures ApplyRuleIn(d, g, r, line) == Put(d, g, Group(ApplyRule(m, r, line)))
  {
    hide Written;
    if Written(r, line).None? {
      PutSame(d, g, Group(m));
    }
  }

  lemma {:induction false} ApplyRulesInLift(d: Dict, g: string, m: Dict, rs: seq<Rule>, line: string)
    requires Get(d, g) == Some(Group(m))
    ensures ApplyRulesIn(d, g, rs, line) == Put(d, g, Group(ApplyRules(m, rs, line)))
    decreases |rs|
  {
    hide ApplyRuleIn, ApplyRule, Put;
    if rs == [] {
      PutSame(d, g, Group(m));
    } else {
      var m1 := ApplyRule(m, rs[0], line);
      ApplyRuleInLift(d, g, m, rs[0], line);
      ApplyRulesInLift(Put(d, g, Group(m1)), g, m1, rs[1..], line);
      PutPut(d, g, Group(m1), Group(ApplyRules(m1, rs[1..], line)));
    }
  }

  /** The group-level fold is the plain fold on the group's members. */
  lemma {:induction false} FoldRulesInLift(d: Dict, g: string, m: Dict, rs: seq<Rule>, lines: seq<string>)
    requires Get(d, g) == Some(Group(m))
    ensures FoldRulesIn(d, g, rs, lines) == Put(d, g, Group(FoldRules(m, rs, lines)))
    decreases |lines|
  {
    hide ApplyRulesIn, ApplyRules, Put;
    if lines == [] {
      PutSame(d, g, Group(m));
    } else {
      var n := |lines| - 1;
      var mn := FoldRules(m, rs, lines[..n]);
      FoldRulesInLift(d, g, m, rs, lines[..n]);
      ApplyRulesInLift(Put(d, g, Group(mn)), g, mn, rs, lines[n]);
      PutPut(d, g, Group(mn), Group(ApplyRules(mn, rs, lines[n])));
    }
  }

  /** A fold into group `g` leaves every other field alone. */
  lemma {:induction false} ApplyRulesInOther(d: Dict, g: string, rs: seq<Rule>, line: string, k: string)
    requires k != g
    ensures Get(ApplyRulesIn(d, g, rs, line), k) == Get(d, k)
    decreases |rs|
  {
    hide Written, Put;
    if rs != [] {
      ApplyRulesInOther(ApplyRuleIn(d, g, rs[0], line), g, rs[1..], line, k);
    }
  }

  lemma {:induction false} FoldRulesInOther(d: Dict, g: string, rs: seq<Rule>, lines: seq<string>, k: string)
    requires k != g
    ensures Get(FoldRulesIn(d, g, rs, lines), k) == Get(d, k)
    decreases |lines|
  {
    hide ApplyRulesIn;
    if lines != [] {
      var n := |lines| - 1;
      FoldRulesInOther(d, g, rs, lines[..n], k);
      ApplyRulesInOther(FoldRulesIn(d, g, rs, lines[..n]), g, rs, lines[n], k);
    }
  }

  /** A group that is missing is created empty; a group that exists is kept. */
  lemma EnsureGroupGet(d: Dict, g: string)
    ensures Get(d, g) == None ==> EnsureGroup(d, g) == Put(d, g, Group([]))
    ensures Get(d, g).Some? ==> EnsureGroup(d, g) == d
  {
    KeysGet(d, g);
  }

  lemma EnsureGroupOther(d: Dict, g: string, k: string)
    requires k != g
    ensures Get(EnsureGroup(d, g), k) == Get(d, k)
  {
  }

  // ---------------------------------------------------------------------------
  // Child searches

  /** `re_search_children` keeps every child the search selects. */
  lemma {:induction false} SearchChildrenKeeps(children: seq<string>, sel: Selector, x: string)
    requires x in children && Selects(sel, x)
    ensures x in SearchChildren(children, sel)
    decreases |children|
  {
    var n := |children| - 1;
    if x != children[n] {
      assert x in children[..n];
      SearchChildrenKeeps(children[..n], sel, x);
    }
  }

  /** The search finds nothing exactly when no child is selected. */
  lemma SearchChildrenEmpty(children: seq<string>, sel: Selector)
    ensures SearchChildren(children, sel) == [] <==> forall x :: x in children ==> !Selects(sel, x)
  {
    if SearchChildren(children, sel) == [] {
      forall x | x in children
        ensures !Selects(sel, x)
      {
        if Selects(sel, x) {
          SearchChildrenKeeps(children, sel, x);
        }
      }
    }
  }

  /** `re_search_children(r'.*')` returns every child. */
  lemma {:induction false} SearchChildrenAll(children: seq<string>)
    ensures SearchChildren(children, AnyLine) == children
    decreases |children|
  {
    hide SearchChildren, Contains, StartsWith;
    if children != [] {
      var n := |children| - 1;
      SearchChildrenStep(children, AnyLine);
      SearchChildrenAll(children[..n]);
      assert children[..n] + [children[n]] == children;
    }
  }

  /** Filtering out lines on which a rule cannot write does not change what it
      writes last. */
  lemma {:induction false} LastWrittenFiltered(r: Rule, children: seq<string>, sel: Selector)
    requires WritesOnlyOn(r, sel)
    ensures LastWritten(r, SearchChildren(children, sel)) == LastWritten(r, children)
    decreases |children|
  {
    hide Written, SearchChildren, Selects;
    if children != [] {
      var n := |children| - 1;
      var init := SearchChildren(children[..n], sel);
      SearchChildrenStep(children, sel);
      LastWrittenFiltered(r, children[..n], sel);
      if Selects(sel, children[n]) {
        assert (init + [children[n]])[..|init|] == init;
      } else {
        assert Written(r, children[n]) == None;
        assert init + [] == init;
      }
    }
  }

  /** One step of a child search: the last child is kept when it is selected. */
  lemma SearchChildrenStep(children: seq<string>, sel: Selector)
    requires children != []
    ensures var n := |children| - 1;
      SearchChildren(children, sel)
      == SearchChildren(children[..n], sel) + (if Selects(sel, children[n]) then [children[n]] else [])
  {
    hide Selects;
  }
}
