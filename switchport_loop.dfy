/** The switchport loop of `convert_to_yaml` field by field: which line sets each
    field it writes, and how the port-security group is built. */
module SwitchportLoop {
  import opened Text
  import opened OrderedDict
  import opened Patterns
  import opened Extractor
  import opened Cascade

  /** The rules that read the tested line of a switchport pass. */
  const LineRules: seq<Rule> := [NonegotiateRule] + TrunkRules

  /** The fields the switchport loop writes. */
  predicate SwitchportKey(k: string) {
    k in {"vlan_id", "voice_vlan", "switchport_mode", "port_security",
          "nonegotiate", "native_vlan", "allowed_vlan", "encapsulation"}
  }

  /** The members of the group a field holds; none for a missing field. */
  function MembersOf(f: Option<Field>): Dict {
    match f
    case Some(Group(m)) => m
    case _ => []
  }

  /** A `port_security` group: `enabled` and `maximum` as last written over `lines`,
      and nothing else. */
  ghost predicate PortSecurityMembers(m: Dict, lines: seq<string>) {
    (forall i :: 0 <= i < |PortSecurityRules| ==>
       Get(m, PortSecurityRules[i].key) == AsField(LastWritten(PortSecurityRules[i], lines)))
    && (forall k :: NoKey(PortSecurityRules, k) ==> Get(m, k) == None)
  }

  lemma TableFacts()
    ensures UniqueKeys(SwitchportRules) && UniqueKeys(PortSecurityRules) && UniqueKeys(LineRules)
    ensures UniqueKeys(TrunkRules) && UniqueKeys(IpRules) && UniqueKeys(NoIpRules) && UniqueKeys(MiscRules)
  {
  }

  // ---------------------------------------------------------------------------
  // The trunk guard and the port-security line

  lemma TokenNoNewline(t: string)
    requires IsToken(t)
    ensures NoNewline(t)
  {
    assert IsSpace('\n');
  }

  /** A line that begins with the break-free prefix `p` of an anchored pattern, with a
      break-free rest, still has a break-free rest after a shorter prefix `q`. */
  lemma GuardOfLongerPrefix(t: string, p: string, q: string)
    requires StartsWith(p, q) && NoNewline(p) && StartsWith(t, p) && NoNewline(Chomp(t[|p|..]))
    ensures StartsWith(t, q) && NoNewline(Chomp(t[|q|..]))
  {
    var a, b := p[|q|..], t[|p|..];
    assert t[|q|..] == a + b;
    NoNewlineSlice(p, |q|, |p|);
    if b != [] {
      assert Chomp(a + b) == a + Chomp(b);
    } else {
      assert a + b == a;
      if a != [] {
        assert a[|a| - 1] != '\n';
      }
    }
  }

  lemma TokenGuard(t: string, q: string)
    requires StartsWith(q, " switchport trunk") && NoNewline(q) && AnchoredToken(t, q) != ""
    ensures TrunkLine(t)
  {
    TokenNoNewline(Chomp(t[|q|..]));
    GuardOfLongerPrefix(t, q, " switchport trunk");
  }

  lemma RestGuard(t: string, q: string)
    requires StartsWith(q, " switchport trunk") && NoNewline(q) && AnchoredRest(t, q) != ""
    ensures TrunkLine(t)
  {
    GuardOfLongerPrefix(t, q, " switchport trunk");
  }

  lemma TrunkCaptureGuard(i: nat, t: string)
    requires i < |TrunkRules| && Capture(TrunkRules[i].pattern, t) != ""
    ensures TrunkLine(t)
  {
    hide AnchoredToken, AnchoredRest, SearchToken, WholeLine, TrunkLine, StartsWith, Chomp, NoNewline;
    if i == 0 {
      TokenGuard(t, " switchport trunk native vlan ");
    } else if i == 1 {
      TokenGuard(t, " switchport trunk allowed vlan ");
    } else {
      RestGuard(t, " switchport trunk encapsulation ");
    }
  }

  /** Every trunk rule writes only on a line the `^ switchport trunk.*$` guard accepts,
      so the guard never hides a value. */
  lemma TrunkGuard(i: nat, t: string)
    requires i < |TrunkRules|
    ensures Written(TrunkRules[i], t).Some? ==> TrunkLine(t)
  {
    if Capture(TrunkRules[i].pattern, t) != "" {
      TrunkCaptureGuard(i, t);
    }
  }

  /** `switchport port-security` has exactly one space, at offset 10. */
  lemma PortSecuritySpaces()
    ensures forall k :: 0 <= k < 24 && "switchport port-security"[k] == ' ' ==> k == 10
  {
  }

  /** So it cannot sit over two spaces of a line. */
  lemma NotOverTwoSpaces(t: string, j: nat, a: nat, b: nat)
    requires j + 24 <= |t| && t[j..j + 24] == "switchport port-security"
    requires j <= a < b < j + 24
    ensures !(t[a] == ' ' && t[b] == ' ')
  {
    PortSecuritySpaces();
    assert t[a] == t[j..j + 24][a - j] && t[b] == t[j..j + 24][b - j];
  }

  /** A line that `^P(\S+)$` matches, for a trunk vlan prefix `P`, never mentions
      `switchport port-security`: the occurrence would need its one space where the
      line has none or two. */
  lemma TrunkVlanNotPortSecurity(t: string, p: string)
    requires p == " switchport trunk native vlan " || p == " switchport trunk allowed vlan "
    requires AnchoredToken(t, p) != ""
    ensures !Contains(t, "switchport port-security")
  {
    var tok := AnchoredToken(t, p);
    var w := "switchport port-security";
    if Contains(t, w) {
      var j := ContainsIndex(t, w);
      assert t[j + 10] == w[10] == ' ';
      assert t[..|p|] == p;
      // Past the prefix the line is a token with no space in it, so j + 10 < |p|.
      if j <= 11 {
        assert t[11] == p[11] == ' ' && t[17] == p[17] == ' ';
        NotOverTwoSpaces(t, j, 11, 17);
      } else if j <= 17 {
        var s := if p[24] == ' ' then 24 else 25;
        assert t[17] == p[17] == ' ' && t[s] == p[s] == ' ';
        NotOverTwoSpaces(t, j, 17, s);
      } else {
        var s, s' := if p[24] == ' ' then 24 else 25, if p[24] == ' ' then 29 else 30;
        assert t[s] == p[s] == ' ' && t[s'] == p[s'] == ' ';
        NotOverTwoSpaces(t, j, s, s');
      }
    }
  }

  // ---------------------------------------------------------------------------
  // One pass of the switchport loop

  /** The port-security block writes only the `port_security` group. */
  lemma BlockOther(d: Dict, ps: seq<string>, k: string)
    requires k != "port_security"
    ensures Get(PortSecurityBlock(d, ps), k) == Get(d, k)
  {
    hide FoldRulesIn, EnsureGroup;
    if ps != [] {
      EnsureGroupOther(d, "port_security", k);
      FoldRulesInOther(EnsureGroup(d, "port_security"), "port_security", PortSecurityRules, ps, k);
    }
  }

  lemma LineTestsDef(d: Dict, current: string)
    ensures var d1 := ApplyRule(d, NonegotiateRule, current);
      LineTests(d, current) == if TrunkLine(current) then ApplyRules(d1, TrunkRules, current) else d1
  {
    hide ApplyRule, ApplyRules, TrunkLine;
  }

  /** The line tests write only the nonegotiate and trunk fields, each with what the
      tested line writes. */
  lemma LineTestsGet(d: Dict, current: string, i: nat)
    requires i < |LineRules|
    ensures Get(LineTests(d, current), LineRules[i].key) == Override(Get(d, LineRules[i].key), Written(LineRules[i], current))
  {
    hide LineTests, ApplyRules, Written, Put, TrunkLine;
    var d1 := ApplyRule(d, NonegotiateRule, current);
    LineTestsDef(d, current);
    TableFacts();
    var k := LineRules[i].key;
    if i == 0 {
      ApplyRulesOther(d1, TrunkRules, current, k);
    } else {
      assert LineRules[i] == TrunkRules[i - 1];
      assert Get(d1, k) == Get(d, k);
      TrunkGuard(i - 1, current);
      if TrunkLine(current) {
        ApplyRulesGet(d1, TrunkRules, current, i - 1);
      }
    }
  }

  lemma LineTestsOther(d: Dict, current: string, k: string)
    requires NoKey(LineRules, k)
    ensures Get(LineTests(d, current), k) == Get(d, k)
  {
    var d1 := ApplyRule(d, NonegotiateRule, current);
    assert LineTests(d, current) == if TrunkLine(current) then ApplyRules(d1, TrunkRules, current) else d1;
    hide LineTests, ApplyRules, Written, Put, TrunkLine;
    assert LineRules[0] == NonegotiateRule && NoKey(TrunkRules, k) by {
      assert forall j :: 0 <= j < |TrunkRules| ==> TrunkRules[j] == LineRules[j + 1];
    }
    ApplyRulesOther(d1, TrunkRules, current, k);
  }

  /** The access vlan, voice vlan and mode fields take what the pass's own line
      writes. */
  lemma StepSwitchportField(d: Dict, line: string, ps: seq<string>, i: nat)
    requires i < |SwitchportRules|
    ensures Get(SwitchportStep(d, line, ps), SwitchportRules[i].key)
         == Override(Get(d, SwitchportRules[i].key), Written(SwitchportRules[i], line))
  {
    hide ApplyRules, PortSecurityBlock, LineTests, Written;
    var k := SwitchportRules[i].key;
    var d1 := ApplyRules(d, SwitchportRules, line);
    TableFacts();
    ApplyRulesGet(d, SwitchportRules, line, i);
    assert k in {"vlan_id", "voice_vlan", "switchport_mode"};
    BlockOther(d1, ps, k);
    LineTestsOther(PortSecurityBlock(d1, ps), TestedLine(line, ps), k);
  }

  /** The nonegotiate and trunk fields take what the tested line writes. */
  lemma StepLineField(d: Dict, line: string, ps: seq<string>, i: nat)
    requires i < |LineRules|
    ensures Get(SwitchportStep(d, line, ps), LineRules[i].key)
         == Override(Get(d, LineRules[i].key), Written(LineRules[i], TestedLine(line, ps)))
  {
    hide ApplyRules, PortSecurityBlock, LineTests, Written;
    var k := LineRules[i].key;
    var d1 := ApplyRules(d, SwitchportRules, line);
    assert k in {"nonegotiate", "native_vlan", "allowed_vlan", "encapsulation"};
    ApplyRulesOther(d, SwitchportRules, line, k);
    BlockOther(d1, ps, k);
    LineTestsGet(PortSecurityBlock(d1, ps), TestedLine(line, ps), i);
  }

  /** After the block the group holds the fold of the `port_security` rules over the
      port-security children, starting from what it held before. */
  lemma BlockGet(d: Dict, ps: seq<string>)
    requires ps != []
    requires Get(d, "port_security") == None || Get(d, "port_security").value.Group?
    ensures Get(PortSecurityBlock(d, ps), "port_security")
         == Some(Group(FoldRules(MembersOf(Get(d, "port_security")), PortSecurityRules, ps)))
  {
    hide FoldRulesIn, FoldRules, Put;
    var e := EnsureGroup(d, "port_security");
    EnsureGroupGet(d, "port_security");
    FoldRulesInLift(e, "port_security", MembersOf(Get(d, "port_security")), PortSecurityRules, ps);
  }

  lemma StepPortSecurity(d: Dict, line: string, ps: seq<string>)
    ensures ps == [] ==> Get(SwitchportStep(d, line, ps), "port_security") == Get(d, "port_security")
    ensures ps != [] && (Get(d, "port_security") == None || Get(d, "port_security").value.Group?) ==>
      Get(SwitchportStep(d, line, ps), "port_security")
      == Some(Group(FoldRules(MembersOf(Get(d, "port_security")), PortSecurityRules, ps)))
  {
    var d1 := ApplyRules(d, SwitchportRules, line);
    assert ps == [] ==> PortSecurityBlock(d1, ps) == d1;
    hide ApplyRules, PortSecurityBlock, LineTests, Written, FoldRules;
    ApplyRulesOther(d, SwitchportRules, line, "port_security");
    if ps != [] && (Get(d, "port_security") == None || Get(d, "port_security").value.Group?) {
      BlockGet(d1, ps);
    }
    LineTestsOther(PortSecurityBlock(d1, ps), TestedLine(line, ps), "port_security");
  }

  /** A pass writes no field outside the switchport ones. */
  lemma StepOther(d: Dict, line: string, ps: seq<string>, k: string)
    requires !SwitchportKey(k)
    ensures Get(SwitchportStep(d, line, ps), k) == Get(d, k)
  {
    hide ApplyRules, PortSecurityBlock, LineTests, Written;
    var d1 := ApplyRules(d, SwitchportRules, line);
    ApplyRulesOther(d, SwitchportRules, line, k);
    BlockOther(d1, ps, k);
    LineTestsOther(PortSecurityBlock(d1, ps), TestedLine(line, ps), k);
  }

  // ---------------------------------------------------------------------------
  // The whole switchport loop

  lemma {:induction false} FoldSwitchportField(d: Dict, lines: seq<string>, ps: seq<string>, i: nat)
    requires i < |SwitchportRules|
    ensures Get(FoldSwitchport(d, lines, ps), SwitchportRules[i].key)
         == Override(Get(d, SwitchportRules[i].key), LastWritten(SwitchportRules[i], lines))
    decreases |lines|
  {
    hide SwitchportStep, Written;
    if lines != [] {
      var n := |lines| - 1;
      FoldSwitchportField(d, lines[..n], ps, i);
      StepSwitchportField(FoldSwitchport(d, lines[..n], ps), lines[n], ps, i);
    }
  }

  /** Without port-security children each pass tests its own line. */
  lemma {:induction false} FoldLineFieldPlain(d: Dict, lines: seq<string>, i: nat)
    requires i < |LineRules|
    ensures Get(FoldSwitchport(d, lines, []), LineRules[i].key)
         == Override(Get(d, LineRules[i].key), LastWritten(LineRules[i], lines))
    decreases |lines|
  {
    hide SwitchportStep, Written;
    if lines != [] {
      var n := |lines| - 1;
      FoldLineFieldPlain(d, lines[..n], i);
      StepLineField(FoldSwitchport(d, lines[..n], []), lines[n], [], i);
    }
  }

  /** With port-security children every pass tests the last of them. */
  lemma {:induction false} FoldLineFieldPortSec(d: Dict, lines: seq<string>, ps: seq<string>, i: nat)
    requires i < |LineRules| && ps != [] && lines != []
    ensures Get(FoldSwitchport(d, lines, ps), LineRules[i].key)
         == Override(Get(d, LineRules[i].key), Written(LineRules[i], ps[|ps| - 1]))
    decreases |lines|
  {
    hide SwitchportStep, Written;
    var n := |lines| - 1;
    if n > 0 {
      FoldLineFieldPortSec(d, lines[..n], ps, i);
    }
    StepLineField(FoldSwitchport(d, lines[..n], ps), lines[n], ps, i);
  }

  /** Folding the `port_security` rules again over the same children keeps the
      group's members. */
  lemma PortSecurityMembersFold(m: Dict, ps: seq<string>)
    requires m == [] || PortSecurityMembers(m, ps)
    ensures PortSecurityMembers(FoldRules(m, PortSecurityRules, ps), ps)
  {
    hide FoldRules, Written;
    TableFacts();
    var m' := FoldRules(m, PortSecurityRules, ps);
    forall i | 0 <= i < |PortSecurityRules|
      ensures Get(m', PortSecurityRules[i].key) == AsField(LastWritten(PortSecurityRules[i], ps))
    {
      FoldRulesGet(m, PortSecurityRules, ps, i);
    }
    forall k | NoKey(PortSecurityRules, k)
      ensures Get(m', k) == None
    {
      FoldRulesOther(m, PortSecurityRules, ps, k);
    }
  }

  /** The group exists once a pass has run with port-security children, and holds the
      last `enabled` and `maximum` values written over them. */
  lemma {:induction false} FoldPortSecurity(d: Dict, lines: seq<string>, ps: seq<string>)
    requires Get(d, "port_security") == None
    ensures ps == [] || lines == [] ==> Get(FoldSwitchport(d, lines, ps), "port_security") == None
    ensures ps != [] && lines != [] ==>
      var f := Get(FoldSwitchport(d, lines, ps), "port_security");
      f.Some? && f.value.Group? && PortSecurityMembers(f.value.members, ps)
    decreases |lines|
  {
    hide SwitchportStep, FoldRules, PortSecurityMembers;
    if lines != [] {
      var n := |lines| - 1;
      var prev := FoldSwitchport(d, lines[..n], ps);
      FoldPortSecurity(d, lines[..n], ps);
      StepPortSecurity(prev, lines[n], ps);
      if ps != [] {
        PortSecurityMembersFold(MembersOf(Get(prev, "port_security")), ps);
      }
    }
  }

  lemma {:induction false} FoldSwitchportOther(d: Dict, lines: seq<string>, ps: seq<string>, k: string)
    requires !SwitchportKey(k)
    ensures Get(FoldSwitchport(d, lines, ps), k) == Get(d, k)
    decreases |lines|
  {
    hide SwitchportStep;
    if lines != [] {
      var n := |lines| - 1;
      FoldSwitchportOther(d, lines[..n], ps, k);
      StepOther(FoldSwitchport(d, lines[..n], ps), lines[n], ps, k);
    }
  }
}
