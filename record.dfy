/** The record `convert_to_yaml` builds for one object, field by field: which child
    sets each field, which fields the port-security quirk clears, and when the nested
    groups exist. */
module Record {
  import opened Text
  import opened OrderedDict
  import opened Patterns
  import opened Extractor
  import opened Cascade
  import opened SwitchportLoop

  /** The `ip` group: the address and snooping fields as last written over the `ip`
      children, the three `no ip` flags as last written over the `no ip` children,
      and nothing else. */
  ghost predicate IpMembers(m: Dict, lines: seq<string>) {
    (forall i :: 0 <= i < |IpRules| ==> Get(m, IpRules[i].key) == AsField(LastWritten(IpRules[i], lines)))
    && (forall i :: 0 <= i < |NoIpRules| ==> Get(m, NoIpRules[i].key) == AsField(LastWritten(NoIpRules[i], lines)))
    && (forall k :: NoKey(IpRules, k) && NoKey(NoIpRules, k) ==> Get(m, k) == None)
  }

  /** Every field name `convert_to_yaml` can write at the top level of a record. */
  predicate RecordKey(k: string) {
    k == "aname" || SwitchportKey(k) || k == "ip" || !NoKey(MiscRules, k)
  }

  // ---------------------------------------------------------------------------
  // Which children a rule can write on

  lemma MentionsAfterSpace(s: string, p: string, w: string)
    requires StartsWith(s, p) && 1 <= |p| && p[1..] == w
    ensures Contains(s, w)
  {
    assert s[1..1 + |w|] == p[1..];
    ContainsAt(s, w, 1);
  }

  lemma MentionsByAnchor(r: Rule, w: string)
    requires Contains(Anchor(r.pattern), w)
    ensures WritesOnlyOn(r, Mentions(w))
  {
    forall t | Written(r, t).Some?
      ensures Contains(t, w)
    {
      CaptureAnchor(r.pattern, t);
      ContainsTrans(t, Anchor(r.pattern), w);
    }
  }

  lemma BeginsByAnchor(r: Rule, p: string)
    requires !r.pattern.Search? && StartsWith(Anchor(r.pattern), p)
    ensures WritesOnlyOn(r, Begins(p))
  {
    forall t | Written(r, t).Some?
      ensures StartsWith(t, p)
    {
      CaptureAnchor(r.pattern, t);
      assert t[..|p|] == Anchor(r.pattern)[..|p|];
    }
  }

  /** A rule whose anchor begins with a space and `w` writes only on lines that
      mention `w`. */
  lemma MentionedAnchor(r: Rule, p: string, w: string)
    requires StartsWith(Anchor(r.pattern), p) && 1 <= |p| && p[1..] == w
    ensures WritesOnlyOn(r, Mentions(w))
  {
    hide WritesOnlyOn, Written, Contains, StartsWith;
    MentionsAfterSpace(Anchor(r.pattern), p, w);
    MentionsByAnchor(r, w);
  }

  lemma SwitchportFiltered(i: nat)
    requires i < |SwitchportRules|
    ensures WritesOnlyOn(SwitchportRules[i], SwitchportSearch)
  {
    hide WritesOnlyOn, Written, Contains, StartsWith, Anchor;
    SwitchportAnchors();
    if i == 0 {
      MentionedAnchor(SwitchportRules[0], " switchport", "switchport");
    } else if i == 1 {
      MentionedAnchor(SwitchportRules[1], " switchport", "switchport");
    } else {
      MentionedAnchor(SwitchportRules[2], " switchport", "switchport");
    }
  }

  lemma LineFiltered(i: nat)
    requires i < |LineRules|
    ensures WritesOnlyOn(LineRules[i], SwitchportSearch)
  {
    hide WritesOnlyOn, Written, Contains, StartsWith, Anchor;
    LineAnchors();
    assert LineRules == [NonegotiateRule, TrunkRules[0], TrunkRules[1], TrunkRules[2]];
    if i == 0 {
      MentionedAnchor(LineRules[0], " switchport", "switchport");
    } else if i == 1 {
      MentionedAnchor(LineRules[1], " switchport", "switchport");
    } else if i == 2 {
      MentionedAnchor(LineRules[2], " switchport", "switchport");
    } else {
      MentionedAnchor(LineRules[3], " switchport", "switchport");
    }
  }

  lemma PortSecurityFiltered(i: nat)
    requires i < |PortSecurityRules|
    ensures WritesOnlyOn(PortSecurityRules[i], PortSecuritySearch)
  {
    hide WritesOnlyOn, Written, Contains, StartsWith, Anchor;
    PortSecurityAnchors();
    if i == 0 {
      MentionedAnchor(PortSecurityRules[0], " switchport port-security", "switchport port-security");
    } else {
      MentionedAnchor(PortSecurityRules[1], " switchport port-security", "switchport port-security");
    }
  }

  lemma IpFiltered(i: nat)
    requires i < |IpRules|
    ensures WritesOnlyOn(IpRules[i], IpSearch)
  {
    BeginsByAnchor(IpRules[i], " ip ");
  }

  lemma NoIpFiltered(i: nat)
    requires i < |NoIpRules|
    ensures WritesOnlyOn(NoIpRules[i], NoIpSearch)
  {
    BeginsByAnchor(NoIpRules[i], " no ip ");
  }

  lemma SearchChildrenSingle(x: string, sel: Selector)
    requires Selects(sel, x)
    ensures SearchChildren([x], sel) == [x]
  {
    assert [x][..0] == [];
  }

  /** A child that mentions `switchport port-security` mentions `switchport`, so the
      port-security group is only ever built inside a switchport pass. */
  lemma PortSecurityInsideSwitchport(children: seq<string>)
    requires SearchChildren(children, PortSecuritySearch) != []
    ensures SearchChildren(children, SwitchportSearch) != []
  {
    var ps := SearchChildren(children, PortSecuritySearch);
    var x := ps[0];
    assert x in ps;
    assert Contains("switchport port-security", "switchport") by {
      assert StartsWith("switchport port-security", "switchport");
    }
    ContainsTrans(x, "switchport port-security", "switchport");
    SearchChildrenKeeps(children, SwitchportSearch, x);
  }

  // ---------------------------------------------------------------------------
  // The record stage by stage

  lemma NamedRecordGet(o: ConfigObject, k: string)
    ensures Get(NamedRecord(o), k)
         == if k == "aname" && Capture(InterfaceName, o.text) != "" then Some(Leaf(Str(Capture(InterfaceName, o.text)))) else None
  {
  }

  /** The switchport loop writes only switchport fields, on top of the name. */
  lemma AfterSwitchportOther(o: ConfigObject, k: string)
    requires !SwitchportKey(k)
    ensures Get(AfterSwitchport(o), k) == Get(NamedRecord(o), k)
  {
    hide FoldSwitchport, NamedRecord;
    FoldSwitchportOther(NamedRecord(o), SearchChildren(o.children, SwitchportSearch),
                        SearchChildren(o.children, PortSecuritySearch), k);
  }

  /** The `ip` and `no ip` loops write only the `ip` group. */
  lemma AfterNoIpOther(o: ConfigObject, k: string)
    requires k != "ip"
    ensures Get(AfterNoIp(o), k) == Get(AfterSwitchport(o), k)
  {
    hide AfterSwitchport, FoldRulesIn, EnsureGroup;
    var ip := SearchChildren(o.children, IpSearch);
    var noIp := SearchChildren(o.children, NoIpSearch);
    var d := AfterSwitchport(o);
    if ip != [] {
      EnsureGroupOther(d, "ip", k);
      FoldRulesInOther(EnsureGroup(d, "ip"), "ip", IpRules, ip, k);
    }
    if noIp != [] {
      EnsureGroupOther(AfterIp(o), "ip", k);
      FoldRulesInOther(EnsureGroup(AfterIp(o), "ip"), "ip", NoIpRules, noIp, k);
    }
  }

  /** The `ip` group exists when some child starts with ` ip ` or ` no ip `, and holds
      the `no ip` fold on top of the `ip` fold. */
  lemma AfterNoIpGroup(o: ConfigObject)
    ensures var ip, noIp := SearchChildren(o.children, IpSearch), SearchChildren(o.children, NoIpSearch);
      Get(AfterNoIp(o), "ip")
      == if ip == [] && noIp == [] then None
         else Some(Group(FoldRules(FoldRules([], IpRules, ip), NoIpRules, noIp)))
  {
    var ip := SearchChildren(o.children, IpSearch);
    var noIp := SearchChildren(o.children, NoIpSearch);
    var d := AfterSwitchport(o);
    var m1 := FoldRules([], IpRules, ip);
    assert ip == [] ==> m1 == [];
    hide AfterSwitchport, FoldRulesIn, FoldRules, Put, NamedRecord;
    AfterSwitchportOther(o, "ip");
    NamedRecordGet(o, "ip");
    if ip != [] {
      EnsureGroupGet(d, "ip");
      FoldRulesInLift(EnsureGroup(d, "ip"), "ip", [], IpRules, ip);
    }
    assert Get(AfterIp(o), "ip") == if ip == [] then None else Some(Group(m1));
    if noIp != [] {
      EnsureGroupGet(AfterIp(o), "ip");
      FoldRulesInLift(EnsureGroup(AfterIp(o), "ip"), "ip", m1, NoIpRules, noIp);
    }
  }

  /** The last loop writes only the remaining fields. */
  lemma ExtractOther(o: ConfigObject, k: string)
    requires NoKey(MiscRules, k)
    ensures Get(Extract(o), k) == Get(AfterNoIp(o), k)
  {
    hide AfterNoIp;
    FoldRulesOther(AfterNoIp(o), MiscRules, SearchChildren(o.children, AnyLine), k);
  }

  lemma AfterSwitchportDef(o: ConfigObject)
    ensures AfterSwitchport(o) == FoldSwitchport(NamedRecord(o), SearchChildren(o.children, SwitchportSearch),
                                                 SearchChildren(o.children, PortSecuritySearch))
  {
  }

  lemma ExtractDef(o: ConfigObject)
    ensures Extract(o) == FoldRules(AfterNoIp(o), MiscRules, o.children)
  {
    SearchChildrenAll(o.children);
  }

  // ---------------------------------------------------------------------------
  // The fields of a record

  /** `aname` is set exactly when the object's own line is `interface` followed by
      one token; otherwise the record simply has no `aname`. */
  lemma ExtractName(o: ConfigObject, n: string)
    ensures Get(Extract(o), "aname") == Some(Leaf(Str(n)))
        <==> IsToken(n) && (o.text == "interface " + n || o.text == "interface " + n + "\n")
    ensures Get(Extract(o), "aname") == None <==> Capture(InterfaceName, o.text) == ""
  {
    hide Extract, AfterNoIp, AfterSwitchport, NamedRecord;
    ExtractOther(o, "aname");
    AfterNoIpOther(o, "aname");
    AfterSwitchportOther(o, "aname");
    NamedRecordGet(o, "aname");
    TokenCaptureIff(o.text, "interface ", n);
  }

  /** Last match wins for `vlan_id`, `voice_vlan` and `switchport_mode`, over all
      children, whatever the port-security children are. */
  lemma ExtractSwitchportField(o: ConfigObject, i: nat)
    requires i < |SwitchportRules|
    ensures Get(Extract(o), SwitchportRules[i].key) == AsField(LastWritten(SwitchportRules[i], o.children))
  {
    hide Extract, AfterNoIp, AfterSwitchport, NamedRecord, FoldSwitchport, Written;
    var k := SwitchportRules[i].key;
    var sw := SearchChildren(o.children, SwitchportSearch);
    var ps := SearchChildren(o.children, PortSecuritySearch);
    AfterSwitchportDef(o);
    assert k in {"vlan_id", "voice_vlan", "switchport_mode"};
    ExtractOther(o, k);
    AfterNoIpOther(o, k);
    FoldSwitchportField(NamedRecord(o), sw, ps, i);
    NamedRecordGet(o, k);
    SwitchportFiltered(i);
    LastWrittenFiltered(SwitchportRules[i], o.children, SwitchportSearch);
  }

  /** Without a port-security child, last match wins for `nonegotiate` and the trunk
      fields too. */
  lemma ExtractLineField(o: ConfigObject, i: nat)
    requires i < |LineRules|
    requires forall c :: c in o.children ==> !Contains(c, "switchport port-security")
    ensures Get(Extract(o), LineRules[i].key) == AsField(LastWritten(LineRules[i], o.children))
  {
    hide Extract, AfterNoIp, AfterSwitchport, NamedRecord, FoldSwitchport, Written;
    var k := LineRules[i].key;
    var sw := SearchChildren(o.children, SwitchportSearch);
    SearchChildrenEmpty(o.children, PortSecuritySearch);
    AfterSwitchportDef(o);
    assert k in {"nonegotiate", "native_vlan", "allowed_vlan", "encapsulation"};
    ExtractOther(o, k);
    AfterNoIpOther(o, k);
    FoldLineFieldPlain(NamedRecord(o), sw, i);
    NamedRecordGet(o, k);
    LineFiltered(i);
    LastWrittenFiltered(LineRules[i], o.children, SwitchportSearch);
  }

  /** With a port-security child, `nonegotiate` and the trunk fields hold what the
      last port-security child writes, however many switchport passes ran. */
  lemma ExtractLineFieldPortSecurity(o: ConfigObject, i: nat)
    requires i < |LineRules|
    requires exists c :: c in o.children && Contains(c, "switchport port-security")
    ensures var ps := SearchChildren(o.children, PortSecuritySearch);
      ps != [] && Get(Extract(o), LineRules[i].key) == AsField(Written(LineRules[i], ps[|ps| - 1]))
  {
    hide Extract, AfterNoIp, AfterSwitchport, NamedRecord, FoldSwitchport, Written;
    var k := LineRules[i].key;
    var sw := SearchChildren(o.children, SwitchportSearch);
    var ps := SearchChildren(o.children, PortSecuritySearch);
    SearchChildrenEmpty(o.children, PortSecuritySearch);
    AfterSwitchportDef(o);
    assert k in {"nonegotiate", "native_vlan", "allowed_vlan", "encapsulation"};
    PortSecurityInsideSwitchport(o.children);
    ExtractOther(o, k);
    AfterNoIpOther(o, k);
    FoldLineFieldPortSec(NamedRecord(o), sw, ps, i);
    NamedRecordGet(o, k);
  }

  lemma NonegotiateNotPortSecurity(t: string)
    requires Capture(Nonegotiate, t) != ""
    ensures !Contains(t, "switchport port-security")
  {
    LiteralCaptureIff(t, " switchport nonegotiate");
    if Contains(t, "switchport port-security") {
      var j := ContainsIndex(t, "switchport port-security");
    }
  }

  /** No line that mentions `switchport port-security` sets `nonegotiate`,
      `native_vlan` or `allowed_vlan`. */
  lemma PortSecurityLineWritesNone(t: string, i: nat)
    requires i < 3 && Contains(t, "switchport port-security")
    ensures Written(LineRules[i], t) == None
  {
    if i == 0 && Capture(Nonegotiate, t) != "" {
      NonegotiateNotPortSecurity(t);
    } else if i == 1 && Capture(TrunkNativeVlan, t) != "" {
      TrunkVlanNotPortSecurity(t, " switchport trunk native vlan ");
    } else if i == 2 && Capture(TrunkAllowedVlan, t) != "" {
      TrunkVlanNotPortSecurity(t, " switchport trunk allowed vlan ");
    }
  }

  /** The quirk: once some child mentions `switchport port-security`, `nonegotiate`,
      `native_vlan` and `allowed_vlan` are never set, whatever the other children
      say. */
  lemma PortSecurityClearsFields(o: ConfigObject)
    requires exists c :: c in o.children && Contains(c, "switchport port-security")
    ensures Get(Extract(o), "nonegotiate") == None
    ensures Get(Extract(o), "native_vlan") == None
    ensures Get(Extract(o), "allowed_vlan") == None
  {
    hide Extract, Written;
    var ps := SearchChildren(o.children, PortSecuritySearch);
    ExtractLineFieldPortSecurity(o, 0);
    ExtractLineFieldPortSecurity(o, 1);
    ExtractLineFieldPortSecurity(o, 2);
    assert ps[|ps| - 1] in ps;
    PortSecurityLineWritesNone(ps[|ps| - 1], 0);
    PortSecurityLineWritesNone(ps[|ps| - 1], 1);
    PortSecurityLineWritesNone(ps[|ps| - 1], 2);
  }

  /** `encapsulation` is the exception: a child mentioning port-security can set it. */
  lemma EncapsulationLine()
    ensures " switchport trunk encapsulation " + "switchport port-security"
         == " switchport trunk encapsulation switchport port-security"
  {
  }

  lemma EncapsulationLineMentions()
    ensures Contains(" switchport trunk encapsulation switchport port-security", "switchport port-security")
  {
    hide Contains;
    var p, x := " switchport trunk encapsulation ", "switchport port-security";
    assert (p + x)[|p|..] == x;
    ContainsPrefix(x, x);
    ContainsSuffix(p + x, |p|, x);
    EncapsulationLine();
  }

  lemma EncapsulationDespitePortSecurity()
    ensures var line := " switchport trunk encapsulation switchport port-security";
      var o := ConfigObject("interface GigabitEthernet1/0/1", [line]);
      Contains(line, "switchport port-security")
      && Get(Extract(o), "encapsulation") == Some(Leaf(Str("switchport port-security")))
  {
    hide Extract, Capture, SearchChildren, Contains, AnchoredRest;
    var p := " switchport trunk encapsulation ";
    var x := "switchport port-security";
    var line := p + x;
    EncapsulationLine();
    EncapsulationLineMentions();
    var o := ConfigObject("interface GigabitEthernet1/0/1", [line]);
    SearchChildrenSingle(line, PortSecuritySearch);
    ExtractLineFieldPortSecurity(o, 3);
    assert LineRules[3] == Rule("encapsulation", Rest(p));
    RestCaptureIff(line, p, x);
  }

  /** The `port_security` group exists exactly when some child mentions
      `switchport port-security`, even when nothing is written into it. */
  lemma ExtractPortSecurity(o: ConfigObject)
    ensures Get(Extract(o), "port_security").Some?
        <==> exists c :: c in o.children && Contains(c, "switchport port-security")
    ensures var f := Get(Extract(o), "port_security");
      f.Some? ==> f.value.Group? && PortSecurityMembers(f.value.members, o.children)
  {
    hide Extract, AfterNoIp, AfterSwitchport, NamedRecord, FoldSwitchport, Written;
    var sw := SearchChildren(o.children, SwitchportSearch);
    var ps := SearchChildren(o.children, PortSecuritySearch);
    SearchChildrenEmpty(o.children, PortSecuritySearch);
    AfterSwitchportDef(o);
    ExtractOther(o, "port_security");
    AfterNoIpOther(o, "port_security");
    NamedRecordGet(o, "port_security");
    FoldPortSecurity(NamedRecord(o), sw, ps);
    if ps != [] {
      PortSecurityInsideSwitchport(o.children);
      var m := Get(Extract(o), "port_security").value.members;
      forall i | 0 <= i < |PortSecurityRules|
        ensures Get(m, PortSecurityRules[i].key) == AsField(LastWritten(PortSecurityRules[i], o.children))
      {
        PortSecurityFiltered(i);
        LastWrittenFiltered(PortSecurityRules[i], o.children, PortSecuritySearch);
      }
    }
  }

  /** The `ip` group exists exactly when some child starts with ` ip ` or ` no ip `,
      and last match wins for each of its fields. */
  lemma ExtractIp(o: ConfigObject)
    ensures Get(Extract(o), "ip").Some?
        <==> exists c :: c in o.children && (StartsWith(c, " ip ") || StartsWith(c, " no ip "))
    ensures var f := Get(Extract(o), "ip");
      f.Some? ==> f.value.Group? && IpMembers(f.value.members, o.children)
  {
    hide Extract, AfterNoIp, FoldRules, Written;
    var ip := SearchChildren(o.children, IpSearch);
    var noIp := SearchChildren(o.children, NoIpSearch);
    SearchChildrenEmpty(o.children, IpSearch);
    SearchChildrenEmpty(o.children, NoIpSearch);
    ExtractOther(o, "ip");
    AfterNoIpGroup(o);
    var m1 := FoldRules([], IpRules, ip);
    var m := FoldRules(m1, NoIpRules, noIp);
    TableFacts();
    forall i | 0 <= i < |IpRules|
      ensures Get(m, IpRules[i].key) == AsField(LastWritten(IpRules[i], o.children))
    {
      assert IpRules[i].key in {"address", "dhcp_snooping_trust"};
      FoldRulesOther(m1, NoIpRules, noIp, IpRules[i].key);
      FoldRulesGet([], IpRules, ip, i);
      IpFiltered(i);
      LastWrittenFiltered(IpRules[i], o.children, IpSearch);
    }
    forall i | 0 <= i < |NoIpRules|
      ensures Get(m, NoIpRules[i].key) == AsField(LastWritten(NoIpRules[i], o.children))
    {
      assert NoIpRules[i].key in {"ip_address_disable", "route_cache_disable", "mroute_cache_disable"};
      FoldRulesGet(m1, NoIpRules, noIp, i);
      FoldRulesOther([], IpRules, ip, NoIpRules[i].key);
      NoIpFiltered(i);
      LastWrittenFiltered(NoIpRules[i], o.children, NoIpSearch);
    }
    forall k | NoKey(IpRules, k) && NoKey(NoIpRules, k)
      ensures Get(m, k) == None
    {
      FoldRulesOther(m1, NoIpRules, noIp, k);
      FoldRulesOther([], IpRules, ip, k);
    }
  }

  /** Last match wins for the fields of the final loop, over all children. */
  lemma ExtractMiscField(o: ConfigObject, i: nat)
    requires i < |MiscRules|
    ensures Get(Extract(o), MiscRules[i].key) == AsField(LastWritten(MiscRules[i], o.children))
  {
    hide Extract, AfterNoIp, AfterSwitchport, NamedRecord, FoldRules, Written;
    var k := MiscRules[i].key;
    TableFacts();
    assert k in {"description", "power_inline_police", "cdp_disable", "shutdown", "vrf", "negotiation", "keepalive_disable"};
    ExtractDef(o);
    FoldRulesGet(AfterNoIp(o), MiscRules, o.children, i);
    AfterNoIpOther(o, k);
    AfterSwitchportOther(o, k);
    NamedRecordGet(o, k);
  }

  /** A record has no field outside those the source writes. */
  lemma ExtractUnknownKey(o: ConfigObject, k: string)
    requires !RecordKey(k)
    ensures Get(Extract(o), k) == None
  {
    hide Extract, AfterNoIp, AfterSwitchport, NamedRecord;
    ExtractOther(o, k);
    AfterNoIpOther(o, k);
    AfterSwitchportOther(o, k);
    NamedRecordGet(o, k);
  }
}
