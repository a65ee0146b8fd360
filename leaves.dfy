/** What a record can hold: every flag is True (False is never written) and every
    string is a non-empty piece of the object's own line or of one of its children.
    The property is an invariant of every write the extractor makes. */
module Leaves {
  import opened Text
  import opened OrderedDict
  import opened Patterns
  import opened Extractor

  /** A value as the source writes it: True, or a non-empty capture from one of
      `texts`. */
  ghost predicate GoodLeaf(f: Field, texts: seq<string>) {
    f.Leaf? &&
    (f.scalar == Bool(true)
     || (f.scalar.Str? && f.scalar.text != ""
         && exists t :: t in texts && Contains(t, f.scalar.text)))
  }

  /** A top-level field: a good value, or a group of good values. */
  ghost predicate GoodField(f: Field, texts: seq<string>) {
    GoodLeaf(f, texts) || (f.Group? && forall e :: e in f.members ==> GoodLeaf(e.1, texts))
  }

  ghost predicate WellFormed(d: Dict, texts: seq<string>) {
    forall e :: e in d ==> GoodField(e.1, texts)
  }

  /** The lines of `lines` are among `texts`. */
  predicate Among(lines: seq<string>, texts: seq<string>) {
    forall x :: x in lines ==> x in texts
  }

  lemma {:induction false} GetIn(d: Dict, k: string)
    requires Get(d, k).Some?
    ensures (k, Get(d, k).value) in d
  {
    if d[0].0 != k {
      GetIn(d[1..], k);
    }
  }

  /** What one rule writes on a line of `texts` is a good value. */
  lemma WrittenGood(r: Rule, line: string, texts: seq<string>)
    requires line in texts && Written(r, line).Some?
    ensures GoodLeaf(Leaf(Written(r, line).value), texts)
  {
    var c := Capture(r.pattern, line);
    if !IsFlag(r.pattern) {
      CaptureInText(r.pattern, line);
      assert Contains(line, c);
    }
  }

  lemma ApplyRuleGood(d: Dict, r: Rule, line: string, texts: seq<string>)
    requires WellFormed(d, texts) && line in texts
    ensures WellFormed(ApplyRule(d, r, line), texts)
  {
    hide Capture;
    if Written(r, line).Some? {
      WrittenGood(r, line, texts);
    }
  }

  lemma {:induction false} ApplyRulesGood(d: Dict, rs: seq<Rule>, line: string, texts: seq<string>)
    requires WellFormed(d, texts) && line in texts
    ensures WellFormed(ApplyRules(d, rs, line), texts)
    decreases |rs|
  {
    hide ApplyRule, WellFormed;
    if rs != [] {
      ApplyRuleGood(d, rs[0], line, texts);
      ApplyRulesGood(ApplyRule(d, rs[0], line), rs[1..], line, texts);
    }
  }

  lemma {:induction false} FoldRulesGood(d: Dict, rs: seq<Rule>, lines: seq<string>, texts: seq<string>)
    requires WellFormed(d, texts) && Among(lines, texts)
    ensures WellFormed(FoldRules(d, rs, lines), texts)
    decreases |lines|
  {
    hide ApplyRules, WellFormed;
    if lines != [] {
      var n := |lines| - 1;
      assert lines[n] in lines;
      FoldRulesGood(d, rs, lines[..n], texts);
      ApplyRulesGood(FoldRules(d, rs, lines[..n]), rs, lines[n], texts);
    }
  }

  lemma ApplyRuleInGood(d: Dict, g: string, r: Rule, line: string, texts: seq<string>)
    requires WellFormed(d, texts) && line in texts
    ensures WellFormed(ApplyRuleIn(d, g, r, line), texts)
  {
    hide Capture;
    if Written(r, line).Some? && Get(d, g).Some? && Get(d, g).value.Group? {
      var m := Get(d, g).value.members;
      GetIn(d, g);
      WrittenGood(r, line, texts);
      var m' := Put(m, r.key, Leaf(Written(r, line).value));
      assert GoodField(Group(m'), texts);
    }
  }

  lemma {:induction false} ApplyRulesInGood(d: Dict, g: string, rs: seq<Rule>, line: string, texts: seq<string>)
    requires WellFormed(d, texts) && line in texts
    ensures WellFormed(ApplyRulesIn(d, g, rs, line), texts)
    decreases |rs|
  {
    hide ApplyRuleIn, WellFormed;
    if rs != [] {
      ApplyRuleInGood(d, g, rs[0], line, texts);
      ApplyRulesInGood(ApplyRuleIn(d, g, rs[0], line), g, rs[1..], line, texts);
    }
  }

  lemma {:induction false} FoldRulesInGood(d: Dict, g: string, rs: seq<Rule>, lines: seq<string>, texts: seq<string>)
    requires WellFormed(d, texts) && Among(lines, texts)
    ensures WellFormed(FoldRulesIn(d, g, rs, lines), texts)
    decreases |lines|
  {
    hide ApplyRulesIn, WellFormed;
    if lines != [] {
      var n := |lines| - 1;
      assert lines[n] in lines;
      FoldRulesInGood(d, g, rs, lines[..n], texts);
      ApplyRulesInGood(FoldRulesIn(d, g, rs, lines[..n]), g, rs, lines[n], texts);
    }
  }

  lemma EnsureGroupGood(d: Dict, g: string, texts: seq<string>)
    requires WellFormed(d, texts)
    ensures WellFormed(EnsureGroup(d, g), texts)
  {
    assert GoodField(Group([]), texts);
  }

  lemma SwitchportStepGood(d: Dict, line: string, ps: seq<string>, texts: seq<string>)
    requires WellFormed(d, texts) && line in texts && Among(ps, texts)
    ensures WellFormed(SwitchportStep(d, line, ps), texts)
  {
    hide ApplyRules, ApplyRule, FoldRulesIn, EnsureGroup, WellFormed;
    var d1 := ApplyRules(d, SwitchportRules, line);
    ApplyRulesGood(d, SwitchportRules, line, texts);
    if ps != [] {
      EnsureGroupGood(d1, "port_security", texts);
      FoldRulesInGood(EnsureGroup(d1, "port_security"), "port_security", PortSecurityRules, ps, texts);
      assert ps[|ps| - 1] in ps;
    }
    var d2 := PortSecurityBlock(d1, ps);
    var current := TestedLine(line, ps);
    ApplyRuleGood(d2, NonegotiateRule, current, texts);
    ApplyRulesGood(ApplyRule(d2, NonegotiateRule, current), TrunkRules, current, texts);
  }

  lemma {:induction false} FoldSwitchportGood(d: Dict, lines: seq<string>, ps: seq<string>, texts: seq<string>)
    requires WellFormed(d, texts) && Among(lines, texts) && Among(ps, texts)
    ensures WellFormed(FoldSwitchport(d, lines, ps), texts)
    decreases |lines|
  {
    hide SwitchportStep, WellFormed;
    if lines != [] {
      var n := |lines| - 1;
      assert lines[n] in lines;
      FoldSwitchportGood(d, lines[..n], ps, texts);
      SwitchportStepGood(FoldSwitchport(d, lines[..n], ps), lines[n], ps, texts);
    }
  }

  lemma NamedRecordGood(o: ConfigObject, texts: seq<string>)
    requires o.text in texts
    ensures WellFormed(NamedRecord(o), texts)
  {
    var name := Capture(InterfaceName, o.text);
    if name != "" {
      CaptureInText(InterfaceName, o.text);
    }
  }

  /** Every field of every record is True, a non-empty piece of the object's own
      line or a child's line, or a group of such values. */
  lemma ExtractWellFormed(o: ConfigObject)
    ensures WellFormed(Extract(o), [o.text] + o.children)
  {
    hide FoldSwitchport, FoldRulesIn, FoldRules, EnsureGroup, NamedRecord, WellFormed;
    var texts := [o.text] + o.children;
    assert forall x :: x in o.children ==> x in texts;
    NamedRecordGood(o, texts);
    var d := AfterSwitchport(o);
    FoldSwitchportGood(NamedRecord(o), SearchChildren(o.children, SwitchportSearch),
                       SearchChildren(o.children, PortSecuritySearch), texts);
    var ip := SearchChildren(o.children, IpSearch);
    var noIp := SearchChildren(o.children, NoIpSearch);
    if ip != [] {
      EnsureGroupGood(d, "ip", texts);
      FoldRulesInGood(EnsureGroup(d, "ip"), "ip", IpRules, ip, texts);
    }
    if noIp != [] {
      EnsureGroupGood(AfterIp(o), "ip", texts);
      FoldRulesInGood(EnsureGroup(AfterIp(o), "ip"), "ip", NoIpRules, noIp, texts);
    }
    FoldRulesGood(AfterNoIp(o), MiscRules, SearchChildren(o.children, AnyLine), texts);
  }
}
