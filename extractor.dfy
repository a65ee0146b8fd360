/** `convert_to_yaml`: one record per object found by the interface search, filled by
    a fixed, ordered cascade of line tests over the object's direct children.

    The functions below are the specification: each cascade is a table of rules
    (field name, pattern) folded over the selected children in child order. The
    methods `ConvertInterface` and `ConvertToYaml` are the source's loops, statement
    by statement, proved equal to that specification. */
module Extractor {
  import opened Text
  import opened OrderedDict
  import opened Patterns

  /** One object found by the interface search: its own line and the lines of its
      direct children, in order. */
  datatype ConfigObject = ConfigObject(text: string, children: seq<string>)

  /** A field name and the pattern whose match sets it. */
  datatype Rule = Rule(key: string, pattern: Pattern)

  const SwitchportRules: seq<Rule> :=
    [Rule("vlan_id", AccessVlan), Rule("voice_vlan", VoiceVlan), Rule("switchport_mode", SwitchportMode)]
  const PortSecurityRules: seq<Rule> :=
    [Rule("enabled", PortSecurityOn), Rule("maximum", PortSecurityMaximum)]
  const NonegotiateRule: Rule := Rule("nonegotiate", Nonegotiate)
  const TrunkRules: seq<Rule> :=
    [Rule("native_vlan", TrunkNativeVlan), Rule("allowed_vlan", TrunkAllowedVlan),
     Rule("encapsulation", TrunkEncapsulation)]
  const IpRules: seq<Rule> :=
    [Rule("address", IpAddress), Rule("dhcp_snooping_trust", DhcpSnoopingTrust)]
  const NoIpRules: seq<Rule> :=
    [Rule("ip_address_disable", NoIpAddress), Rule("route_cache_disable", NoRouteCache),
     Rule("mroute_cache_disable", NoMrouteCache)]
  const MiscRules: seq<Rule> :=
    [Rule("description", Description), Rule("power_inline_police", PowerInlinePolice),
     Rule("cdp_disable", NoCdpEnable), Rule("shutdown", Shutdown), Rule("vrf", VrfForwarding),
     Rule("negotiation", Negotiation), Rule("keepalive_disable", NoKeepalive)]

  const SwitchportSearch: Selector := Mentions("switchport")
  const PortSecuritySearch: Selector := Mentions("switchport port-security")
  const IpSearch: Selector := Begins(" ip ")
  const NoIpSearch: Selector := Begins(" no ip ")

  /** The value a rule writes for one line: True for a flag, else the capture; nothing
      when the capture is empty (the source's `if value:`). */
  function Written(r: Rule, line: string): Option<Scalar> {
    var c := Capture(r.pattern, line);
    if c == "" then None else Some(if IsFlag(r.pattern) then Bool(true) else Str(c))
  }

  function ApplyRule(d: Dict, r: Rule, line: string): Dict {
    match Written(r, line)
    case None => d
    case Some(v) => Put(d, r.key, Leaf(v))
  }

  /** The rules of one cascade applied, in order, to one line. */
  function ApplyRules(d: Dict, rs: seq<Rule>, line: string): Dict
    decreases |rs|
  {
    if rs == [] then d else ApplyRules(ApplyRule(d, rs[0], line), rs[1..], line)
  }

  /** A cascade over lines, in line order. */
  function FoldRules(d: Dict, rs: seq<Rule>, lines: seq<string>): Dict
    decreases |lines|
  {
    if lines == [] then d
    else ApplyRules(FoldRules(d, rs, lines[..|lines| - 1]), rs, lines[|lines| - 1])
  }

  /** `d[g][k] = v` for a nested group `g`. */
  function PutIn(d: Dict, g: string, k: string, v: Field): Dict {
    match Get(d, g)
    case Some(Group(m)) => Put(d, g, Group(Put(m, k, v)))
    case _ => d
  }

  /** `if not g in d: d[g] = {}` */
  function EnsureGroup(d: Dict, g: string): Dict {
    if g in Keys(d) then d else Put(d, g, Group([]))
  }

  function ApplyRuleIn(d: Dict, g: string, r: Rule, line: string): Dict {
    match Written(r, line)
    case None => d
    case Some(v) => PutIn(d, g, r.key, Leaf(v))
  }

  function ApplyRulesIn(d: Dict, g: string, rs: seq<Rule>, line: string): Dict
    decreases |rs|
  {
    if rs == [] then d else ApplyRulesIn(ApplyRuleIn(d, g, rs[0], line), g, rs[1..], line)
  }

  function FoldRulesIn(d: Dict, g: string, rs: seq<Rule>, lines: seq<string>): Dict
    decreases |lines|
  {
    if lines == [] then d
    else ApplyRulesIn(FoldRulesIn(d, g, rs, lines[..|lines| - 1]), g, rs, lines[|lines| - 1])
  }

  /** The record after the interface name. */
  function NamedRecord(o: ConfigObject): Dict {
    var name := Capture(InterfaceName, o.text);
    if name != "" then Put([], "aname", Leaf(Str(name))) else []
  }

  /** The line the nonegotiate and trunk tests of one switchport pass read. When some
      child mentions `switchport port-security`, the inner loop leaves `line` bound to
      the last such child. */
  function TestedLine(line: string, portSec: seq<string>): string {
    if portSec == [] then line else portSec[|portSec| - 1]
  }

  /** The port-security block of a switchport pass: the group is created when some
      child mentions `switchport port-security`, then filled from those children. */
  function PortSecurityBlock(d: Dict, portSec: seq<string>): Dict {
    if portSec == [] then d
    else FoldRulesIn(EnsureGroup(d, "port_security"), "port_security", PortSecurityRules, portSec)
  }

  /** The nonegotiate test, then the trunk tests behind their guard. */
  function LineTests(d: Dict, current: string): Dict {
    var d1 := ApplyRule(d, NonegotiateRule, current);
    if TrunkLine(current) then ApplyRules(d1, TrunkRules, current) else d1
  }

  /** One iteration of the switchport loop. */
  function SwitchportStep(d: Dict, line: string, portSec: seq<string>): Dict {
    LineTests(PortSecurityBlock(ApplyRules(d, SwitchportRules, line), portSec), TestedLine(line, portSec))
  }

  function FoldSwitchport(d: Dict, lines: seq<string>, portSec: seq<string>): Dict
    decreases |lines|
  {
    if lines == [] then d
    else SwitchportStep(FoldSwitchport(d, lines[..|lines| - 1], portSec), lines[|lines| - 1], portSec)
  }

  function AfterSwitchport(o: ConfigObject): Dict {
    FoldSwitchport(NamedRecord(o), SearchChildren(o.children, SwitchportSearch),
                   SearchChildren(o.children, PortSecuritySearch))
  }

  function AfterIp(o: ConfigObject): Dict {
    var ip := SearchChildren(o.children, IpSearch);
    var d := AfterSwitchport(o);
    if ip == [] then d else FoldRulesIn(EnsureGroup(d, "ip"), "ip", IpRules, ip)
  }

  function AfterNoIp(o: ConfigObject): Dict {
    var noIp := SearchChildren(o.children, NoIpSearch);
    var d := AfterIp(o);
    if noIp == [] then d else FoldRulesIn(EnsureGroup(d, "ip"), "ip", NoIpRules, noIp)
  }

  /** The record `convert_to_yaml` builds for one object. */
  function Extract(o: ConfigObject): Dict {
    FoldRules(AfterNoIp(o), MiscRules, SearchChildren(o.children, AnyLine))
  }

  /** The records of all objects, in search order. */
  function ExtractAll(os: seq<ConfigObject>): seq<Dict>
    decreases |os|
  {
    if os == [] then [] else ExtractAll(os[..|os| - 1]) + [Extract(os[|os| - 1])]
  }

  /** One record per object, each the object's own. */
  lemma {:induction false} ExtractAllIndex(os: seq<ConfigObject>)
    ensures |ExtractAll(os)| == |os|
    ensures forall i :: 0 <= i < |os| ==> ExtractAll(os)[i] == Extract(os[i])
    decreases |os|
  {
    hide Extract;
    if os != [] {
      ExtractAllIndex(os[..|os| - 1]);
    }
  }

  // ---------------------------------------------------------------------------
  // The rule tables unfolded, one rule at a time

  lemma SwitchportRulesUnfold(d: Dict, line: string)
    ensures ApplyRules(d, SwitchportRules, line)
         == ApplyRule(ApplyRule(ApplyRule(d, SwitchportRules[0], line), SwitchportRules[1], line), SwitchportRules[2], line)
  {
    var rs, e := SwitchportRules, d;
    assert ApplyRules(e, rs, line) == ApplyRules(ApplyRule(e, rs[0], line), rs[1..], line);
    rs, e := rs[1..], ApplyRule(e, rs[0], line);
    assert ApplyRules(e, rs, line) == ApplyRules(ApplyRule(e, rs[0], line), rs[1..], line);
    rs, e := rs[1..], ApplyRule(e, rs[0], line);
    assert ApplyRules(e, rs, line) == ApplyRules(ApplyRule(e, rs[0], line), rs[1..], line);
    rs, e := rs[1..], ApplyRule(e, rs[0], line);
    assert rs == [];
  }

  lemma TrunkRulesUnfold(d: Dict, line: string)
    ensures ApplyRules(d, TrunkRules, line)
         == ApplyRule(ApplyRule(ApplyRule(d, TrunkRules[0], line), TrunkRules[1], line), TrunkRules[2], line)
  {
    var rs, e := TrunkRules, d;
    assert ApplyRules(e, rs, line) == ApplyRules(ApplyRule(e, rs[0], line), rs[1..], line);
    rs, e := rs[1..], ApplyRule(e, rs[0], line);
    assert ApplyRules(e, rs, line) == ApplyRules(ApplyRule(e, rs[0], line), rs[1..], line);
    rs, e := rs[1..], ApplyRule(e, rs[0], line);
    assert ApplyRules(e, rs, line) == ApplyRules(ApplyRule(e, rs[0], line), rs[1..], line);
    rs, e := rs[1..], ApplyRule(e, rs[0], line);
    assert rs == [];
  }

  lemma MiscRulesUnfold(d: Dict, line: string)
    ensures ApplyRules(d, MiscRules, line)
         == ApplyRule(ApplyRule(ApplyRule(ApplyRule(ApplyRule(ApplyRule(ApplyRule(d, MiscRules[0], line), MiscRules[1], line), MiscRules[2], line), MiscRules[3], line), MiscRules[4], line), MiscRules[5], line), MiscRules[6], line)
  {
    var rs, e := MiscRules, d;
    assert ApplyRules(e, rs, line) == ApplyRules(ApplyRule(e, rs[0], line), rs[1..], line);
    rs, e := rs[1..], ApplyRule(e, rs[0], line);
    assert ApplyRules(e, rs, line) == ApplyRules(ApplyRule(e, rs[0], line), rs[1..], line);
    rs, e := rs[1..], ApplyRule(e, rs[0], line);
    assert ApplyRules(e, rs, line) == ApplyRules(ApplyRule(e, rs[0], line), rs[1..], line);
    rs, e := rs[1..], ApplyRule(e, rs[0], line);
    assert ApplyRules(e, rs, line) == ApplyRules(ApplyRule(e, rs[0], line), rs[1..], line);
    rs, e := rs[1..], ApplyRule(e, rs[0], line);
    assert ApplyRules(e, rs, line) == ApplyRules(ApplyRule(e, rs[0], line), rs[1..], line);
    rs, e := rs[1..], ApplyRule(e, rs[0], line);
    assert ApplyRules(e, rs, line) == ApplyRules(ApplyRule(e, rs[0], line), rs[1..], line);
    rs, e := rs[1..], ApplyRule(e, rs[0], line);
    assert ApplyRules(e, rs, line) == ApplyRules(ApplyRule(e, rs[0], line), rs[1..], line);
    rs, e := rs[1..], ApplyRule(e, rs[0], line);
    assert rs == [];
  }

  lemma PortSecurityRulesUnfold(d: Dict, line: string)
    ensures ApplyRulesIn(d, "port_security", PortSecurityRules, line)
         == ApplyRuleIn(ApplyRuleIn(d, "port_security", PortSecurityRules[0], line), "port_security", PortSecurityRules[1], line)
  {
    var rs, e := PortSecurityRules, d;
    assert ApplyRulesIn(e, "port_security", rs, line) == ApplyRulesIn(ApplyRuleIn(e, "port_security", rs[0], line), "port_security", rs[1..], line);
    rs, e := rs[1..], ApplyRuleIn(e, "port_security", rs[0], line);
    assert ApplyRulesIn(e, "port_security", rs, line) == ApplyRulesIn(ApplyRuleIn(e, "port_security", rs[0], line), "port_security", rs[1..], line);
    rs, e := rs[1..], ApplyRuleIn(e, "port_security", rs[0], line);
    assert rs == [];
  }

  lemma IpRulesUnfold(d: Dict, line: string)
    ensures ApplyRulesIn(d, "ip", IpRules, line)
         == ApplyRuleIn(ApplyRuleIn(d, "ip", IpRules[0], line), "ip", IpRules[1], line)
  {
    var rs, e := IpRules, d;
    assert ApplyRulesIn(e, "ip", rs, line) == ApplyRulesIn(ApplyRuleIn(e, "ip", rs[0], line), "ip", rs[1..], line);
    rs, e := rs[1..], ApplyRuleIn(e, "ip", rs[0], line);
    assert ApplyRulesIn(e, "ip", rs, line) == ApplyRulesIn(ApplyRuleIn(e, "ip", rs[0], line), "ip", rs[1..], line);
    rs, e := rs[1..], ApplyRuleIn(e, "ip", rs[0], line);
    assert rs == [];
  }

  lemma NoIpRulesUnfold(d: Dict, line: string)
    ensures ApplyRulesIn(d, "ip", NoIpRules, line)
         == ApplyRuleIn(ApplyRuleIn(ApplyRuleIn(d, "ip", NoIpRules[0], line), "ip", NoIpRules[1], line), "ip", NoIpRules[2], line)
  {
    var rs, e := NoIpRules, d;
    assert ApplyRulesIn(e, "ip", rs, line) == ApplyRulesIn(ApplyRuleIn(e, "ip", rs[0], line), "ip", rs[1..], line);
    rs, e := rs[1..], ApplyRuleIn(e, "ip", rs[0], line);
    assert ApplyRulesIn(e, "ip", rs, line) == ApplyRulesIn(ApplyRuleIn(e, "ip", rs[0], line), "ip", rs[1..], line);
    rs, e := rs[1..], ApplyRuleIn(e, "ip", rs[0], line);
    assert ApplyRulesIn(e, "ip", rs, line) == ApplyRulesIn(ApplyRuleIn(e, "ip", rs[0], line), "ip", rs[1..], line);
    rs, e := rs[1..], ApplyRuleIn(e, "ip", rs[0], line);
    assert rs == [];
  }

  // ---------------------------------------------------------------------------
  // One rule on one line, as the source writes it: `v = match(...)`, `if v: d[k] = ...`

  lemma ApplyValue(d: Dict, r: Rule, line: string)
    requires !IsFlag(r.pattern)
    ensures ApplyRule(d, r, line)
         == if Capture(r.pattern, line) != "" then Put(d, r.key, Leaf(Str(Capture(r.pattern, line)))) else d
  {
  }

  lemma ApplyFlag(d: Dict, r: Rule, line: string)
    requires IsFlag(r.pattern)
    ensures ApplyRule(d, r, line) == if Capture(r.pattern, line) != "" then Put(d, r.key, Leaf(Bool(true))) else d
  {
  }

  lemma ApplyValueIn(d: Dict, g: string, r: Rule, line: string)
    requires !IsFlag(r.pattern)
    ensures ApplyRuleIn(d, g, r, line)
         == if Capture(r.pattern, line) != "" then PutIn(d, g, r.key, Leaf(Str(Capture(r.pattern, line)))) else d
  {
  }

  lemma ApplyFlagIn(d: Dict, g: string, r: Rule, line: string)
    requires IsFlag(r.pattern)
    ensures ApplyRuleIn(d, g, r, line) == if Capture(r.pattern, line) != "" then PutIn(d, g, r.key, Leaf(Bool(true))) else d
  {
  }
}
