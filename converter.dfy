/** The loops of `convert_to_yaml`, statement by statement, each proved equal to the
    specification in module `Extractor`. Each loop is a method; the tests a loop runs
    on one line are a method of their own. */
module Converter {
  import opened Text
  import opened OrderedDict
  import opened Patterns
  import opened Extractor

  /** `convert_to_yaml` up to the final `yaml.dump`: the mapping `output_config`. The
      key "interfaces" exists only when the search found something; it then holds one
      record per object, in search order. */
  method ConvertToYaml(interfaces: seq<ConfigObject>) returns (outputConfig: map<string, seq<Dict>>)
    ensures |interfaces| == 0 ==> outputConfig == map[]
    ensures |interfaces| > 0 ==> outputConfig == map["interfaces" := ExtractAll(interfaces)]
    ensures |interfaces| > 0 ==> |outputConfig["interfaces"]| == |interfaces|
    ensures |interfaces| > 0 ==>
      forall i :: 0 <= i < |interfaces| ==> outputConfig["interfaces"][i] == Extract(interfaces[i])
  {
    hide Extract;
    outputConfig := map[];
    if |interfaces| > 0 {
      outputConfig := outputConfig["interfaces" := []];
      for i := 0 to |interfaces|
        invariant outputConfig == map["interfaces" := ExtractAll(interfaces[..i])]
      {
        var interfaceDict := ConvertInterface(interfaces[i]);
        outputConfig := outputConfig["interfaces" := outputConfig["interfaces"] + [interfaceDict]];
        assert interfaces[..i + 1][..i] == interfaces[..i];
      }
      assert interfaces[..|interfaces|] == interfaces;
      ExtractAllIndex(interfaces);
    }
  }

  /** The body of `for interface in interfaces:`, building `interface_dict`. */
  method ConvertInterface(iface: ConfigObject) returns (interfaceDict: Dict)
    ensures interfaceDict == Extract(iface)
  {
    interfaceDict := [];
    var interfaceName := Capture(InterfaceName, iface.text);
    if interfaceName != "" {
      interfaceDict := Put(interfaceDict, "aname", Leaf(Str(interfaceName)));
    }
    interfaceDict := SwitchportSection(iface, interfaceDict);
    interfaceDict := IpSection(iface, interfaceDict);
    interfaceDict := NoIpSection(iface, interfaceDict);
    interfaceDict := MiscSection(iface, interfaceDict);
  }

  // ---------------------------------------------------------------------------
  // `# switchport`

  /** The loop over the children that mention `switchport`. */
  method SwitchportSection(iface: ConfigObject, named: Dict) returns (interfaceDict: Dict)
    requires named == NamedRecord(iface)
    ensures interfaceDict == AfterSwitchport(iface)
  {
    hide SwitchportStep, NamedRecord;
    interfaceDict := named;
    var switchportInterfaces := SearchChildren(iface.children, SwitchportSearch);
    ghost var portSecLines := SearchChildren(iface.children, PortSecuritySearch);
    if |switchportInterfaces| > 0 {
      for i := 0 to |switchportInterfaces|
        invariant interfaceDict == FoldSwitchport(named, switchportInterfaces[..i], portSecLines)
      {
        interfaceDict := SwitchportIteration(iface, interfaceDict, switchportInterfaces[i]);
        assert switchportInterfaces[..i + 1][..i] == switchportInterfaces[..i];
      }
    }
    assert switchportInterfaces[..|switchportInterfaces|] == switchportInterfaces;
  }

  /** One pass of the switchport loop's body for the child `line`. The nested
      port-security loop rebinds the loop variable, so the nonegotiate and trunk tests
      read `current`: the last port-security line when there is one. */
  method SwitchportIteration(iface: ConfigObject, previous: Dict, line: string) returns (interfaceDict: Dict)
    ensures interfaceDict == SwitchportStep(previous, line, SearchChildren(iface.children, PortSecuritySearch))
  {
    interfaceDict := SwitchportChecks(previous, line);
    var portSec := SearchChildren(iface.children, PortSecuritySearch);
    var current := line;
    if |portSec| > 0 {
      interfaceDict, current := PortSecurityLoop(interfaceDict, portSec);
    }
    ghost var beforeNonegotiate := interfaceDict;
    var nonegotiate := Capture(Nonegotiate, current);
    if nonegotiate != "" {
      interfaceDict := Put(interfaceDict, "nonegotiate", Leaf(Bool(true)));
    }
    ApplyFlag(beforeNonegotiate, NonegotiateRule, current);
    if TrunkLine(current) {
      interfaceDict := TrunkChecks(interfaceDict, current);
    }
  }

  /** The access vlan, voice vlan and mode tests. */
  method SwitchportChecks(previous: Dict, line: string) returns (interfaceDict: Dict)
    ensures interfaceDict == ApplyRules(previous, SwitchportRules, line)
  {
    hide Capture, Written, ApplyRule, ApplyRuleIn, Put, PutIn;
    interfaceDict := previous;
    var accessVlan := Capture(AccessVlan, line);
    if accessVlan != "" {
      interfaceDict := Put(interfaceDict, "vlan_id", Leaf(Str(accessVlan)));
    }
    ApplyValue(previous, SwitchportRules[0], line);
    ghost var d1 := interfaceDict;
    var voiceVlan := Capture(VoiceVlan, line);
    if voiceVlan != "" {
      interfaceDict := Put(interfaceDict, "voice_vlan", Leaf(Str(voiceVlan)));
    }
    ApplyValue(d1, SwitchportRules[1], line);
    ghost var d2 := interfaceDict;
    var switchportMode := Capture(SwitchportMode, line);
    if switchportMode != "" {
      interfaceDict := Put(interfaceDict, "switchport_mode", Leaf(Str(switchportMode)));
    }
    ApplyValue(d2, SwitchportRules[2], line);
    SwitchportRulesUnfold(previous, line);
  }

  /** `for line in port_sec:` with the `port_security` group created first. Python's
      loop variable outlives the loop: `last` is the line it is left bound to. */
  method PortSecurityLoop(previous: Dict, portSec: seq<string>) returns (interfaceDict: Dict, last: string)
    requires |portSec| > 0
    ensures interfaceDict == FoldRulesIn(EnsureGroup(previous, "port_security"), "port_security", PortSecurityRules, portSec)
    ensures last == portSec[|portSec| - 1]
  {
    hide ApplyRulesIn;
    interfaceDict := previous;
    if "port_security" !in Keys(interfaceDict) {
      interfaceDict := Put(interfaceDict, "port_security", Group([]));
    }
    ghost var created := interfaceDict;
    last := portSec[0];
    for j := 0 to |portSec|
      invariant interfaceDict == FoldRulesIn(created, "port_security", PortSecurityRules, portSec[..j])
      invariant j > 0 ==> last == portSec[j - 1]
    {
      last := portSec[j];
      interfaceDict := PortSecurityChecks(interfaceDict, last);
      assert portSec[..j + 1][..j] == portSec[..j];
    }
    assert portSec[..|portSec|] == portSec;
  }

  /** The two tests of the port-security loop's body. */
  method PortSecurityChecks(previous: Dict, line: string) returns (interfaceDict: Dict)
    ensures interfaceDict == ApplyRulesIn(previous, "port_security", PortSecurityRules, line)
  {
    hide Capture, Written, ApplyRule, ApplyRuleIn, Put, PutIn;
    interfaceDict := previous;
    var portSecBool := Capture(PortSecurityOn, line);
    if portSecBool != "" {
      interfaceDict := PutIn(interfaceDict, "port_security", "enabled", Leaf(Bool(true)));
    }
    ApplyFlagIn(previous, "port_security", PortSecurityRules[0], line);
    ghost var d1 := interfaceDict;
    var portSecMax := Capture(PortSecurityMaximum, line);
    if portSecMax != "" {
      interfaceDict := PutIn(interfaceDict, "port_security", "maximum", Leaf(Str(portSecMax)));
    }
    ApplyValueIn(d1, "port_security", PortSecurityRules[1], line);
    PortSecurityRulesUnfold(previous, line);
  }

  /** The three tests under `if re.search('^ switchport trunk.*$', line):`. */
  method TrunkChecks(previous: Dict, line: string) returns (interfaceDict: Dict)
    ensures interfaceDict == ApplyRules(previous, TrunkRules, line)
  {
    hide Capture, Written, ApplyRule, ApplyRuleIn, Put, PutIn;
    interfaceDict := previous;
    var nativeVlan := Capture(TrunkNativeVlan, line);
    if nativeVlan != "" {
      interfaceDict := Put(interfaceDict, "native_vlan", Leaf(Str(nativeVlan)));
    }
    ApplyValue(previous, TrunkRules[0], line);
    ghost var d1 := interfaceDict;
    var allowedVlan := Capture(TrunkAllowedVlan, line);
    if allowedVlan != "" {
      interfaceDict := Put(interfaceDict, "allowed_vlan", Leaf(Str(allowedVlan)));
    }
    ApplyValue(d1, TrunkRules[1], line);
    ghost var d2 := interfaceDict;
    var encapsulation := Capture(TrunkEncapsulation, line);
    if encapsulation != "" {
      interfaceDict := Put(interfaceDict, "encapsulation", Leaf(Str(encapsulation)));
    }
    ApplyValue(d2, TrunkRules[2], line);
    TrunkRulesUnfold(previous, line);
  }

  // ---------------------------------------------------------------------------
  // `# ip` and `# no ip`

  /** Create the `ip` group if needed, then the loop over the `^ ip ` children. */
  method IpSection(iface: ConfigObject, previous: Dict) returns (interfaceDict: Dict)
    requires previous == AfterSwitchport(iface)
    ensures interfaceDict == AfterIp(iface)
  {
    hide ApplyRulesIn, AfterSwitchport, Put, SearchChildren, Capture;
    interfaceDict := previous;
    var ip := SearchChildren(iface.children, IpSearch);
    if |ip| > 0 {
      if "ip" !in Keys(interfaceDict) {
        interfaceDict := Put(interfaceDict, "ip", Group([]));
      }
      ghost var created := interfaceDict;
      for i := 0 to |ip|
        invariant interfaceDict == FoldRulesIn(created, "ip", IpRules, ip[..i])
      {
        interfaceDict := IpChecks(interfaceDict, ip[i]);
        assert ip[..i + 1][..i] == ip[..i];
      }
      assert ip[..|ip|] == ip;
    }
  }

  /** The address and dhcp snooping tests. */
  method IpChecks(previous: Dict, line: string) returns (interfaceDict: Dict)
    ensures interfaceDict == ApplyRulesIn(previous, "ip", IpRules, line)
  {
    hide Capture, Written, ApplyRule, ApplyRuleIn, Put, PutIn;
    interfaceDict := previous;
    var ipAddress := Capture(IpAddress, line);
    if ipAddress != "" {
      interfaceDict := PutIn(interfaceDict, "ip", "address", Leaf(Str(ipAddress)));
    }
    ApplyValueIn(previous, "ip", IpRules[0], line);
    ghost var d1 := interfaceDict;
    var dhcpSnoopingTrust := Capture(DhcpSnoopingTrust, line);
    if dhcpSnoopingTrust != "" {
      interfaceDict := PutIn(interfaceDict, "ip", "dhcp_snooping_trust", Leaf(Bool(true)));
    }
    ApplyFlagIn(d1, "ip", IpRules[1], line);
    IpRulesUnfold(previous, line);
  }

  /** Create the `ip` group if needed, then the loop over the `^ no ip ` children. */
  method NoIpSection(iface: ConfigObject, previous: Dict) returns (interfaceDict: Dict)
    requires previous == AfterIp(iface)
    ensures interfaceDict == AfterNoIp(iface)
  {
    hide ApplyRulesIn, AfterIp, Put, SearchChildren, Capture;
    interfaceDict := previous;
    var noIp := SearchChildren(iface.children, NoIpSearch);
    if |noIp| > 0 {
      if "ip" !in Keys(interfaceDict) {
        interfaceDict := Put(interfaceDict, "ip", Group([]));
      }
      ghost var created := interfaceDict;
      for i := 0 to |noIp|
        invariant interfaceDict == FoldRulesIn(created, "ip", NoIpRules, noIp[..i])
      {
        interfaceDict := NoIpChecks(interfaceDict, noIp[i]);
        assert noIp[..i + 1][..i] == noIp[..i];
      }
      assert noIp[..|noIp|] == noIp;
    }
  }

  /** The three `no ip` tests. */
  method NoIpChecks(previous: Dict, line: string) returns (interfaceDict: Dict)
    ensures interfaceDict == ApplyRulesIn(previous, "ip", NoIpRules, line)
  {
    hide Capture, Written, ApplyRule, ApplyRuleIn, Put, PutIn;
    interfaceDict := previous;
    var noIpAddress := Capture(NoIpAddress, line);
    if noIpAddress != "" {
      interfaceDict := PutIn(interfaceDict, "ip", "ip_address_disable", Leaf(Bool(true)));
    }
    ApplyFlagIn(previous, "ip", NoIpRules[0], line);
    ghost var d1 := interfaceDict;
    var noRouteCache := Capture(NoRouteCache, line);
    if noRouteCache != "" {
      interfaceDict := PutIn(interfaceDict, "ip", "route_cache_disable", Leaf(Bool(true)));
    }
    ApplyFlagIn(d1, "ip", NoIpRules[1], line);
    ghost var d2 := interfaceDict;
    var noMrouteCache := Capture(NoMrouteCache, line);
    if noMrouteCache != "" {
      interfaceDict := PutIn(interfaceDict, "ip", "mroute_cache_disable", Leaf(Bool(true)));
    }
    ApplyFlagIn(d2, "ip", NoIpRules[2], line);
    NoIpRulesUnfold(previous, line);
  }

  // ---------------------------------------------------------------------------
  // `# misc`

  /** The loop over all children. */
  method MiscSection(iface: ConfigObject, previous: Dict) returns (interfaceDict: Dict)
    requires previous == AfterNoIp(iface)
    ensures interfaceDict == Extract(iface)
  {
    hide ApplyRules, AfterNoIp;
    interfaceDict := previous;
    var misc := SearchChildren(iface.children, AnyLine);
    if |misc| > 0 {
      for i := 0 to |misc|
        invariant interfaceDict == FoldRules(previous, MiscRules, misc[..i])
      {
        interfaceDict := MiscChecks(interfaceDict, misc[i]);
        assert misc[..i + 1][..i] == misc[..i];
      }
    }
    assert misc[..|misc|] == misc;
  }

  /** The seven tests of the misc loop's body. */
  method MiscChecks(previous: Dict, line: string) returns (interfaceDict: Dict)
    ensures interfaceDict == ApplyRules(previous, MiscRules, line)
  {
    interfaceDict := DescriptionAndPower(previous, line);
    interfaceDict := CdpAndShutdown(interfaceDict, line);
    interfaceDict := VrfToKeepalive(interfaceDict, line);
    MiscRulesUnfold(previous, line);
  }

  /** Description and power inline police. */
  method DescriptionAndPower(previous: Dict, line: string) returns (interfaceDict: Dict)
    ensures interfaceDict == ApplyRule(ApplyRule(previous, MiscRules[0], line), MiscRules[1], line)
  {
    hide Capture, Written, ApplyRule, ApplyRuleIn, Put, PutIn;
    interfaceDict := previous;
    var interfaceDescription := Capture(Description, line);
    if interfaceDescription != "" {
      interfaceDict := Put(interfaceDict, "description", Leaf(Str(interfaceDescription)));
    }
    ApplyValue(previous, MiscRules[0], line);
    ghost var d1 := interfaceDict;
    var powerInlinePolice := Capture(PowerInlinePolice, line);
    if powerInlinePolice != "" {
      interfaceDict := Put(interfaceDict, "power_inline_police", Leaf(Bool(true)));
    }
    ApplyFlag(d1, MiscRules[1], line);
  }

  /** Cdp disable and shutdown. */
  method CdpAndShutdown(previous: Dict, line: string) returns (interfaceDict: Dict)
    ensures interfaceDict == ApplyRule(ApplyRule(previous, MiscRules[2], line), MiscRules[3], line)
  {
    hide Capture, Written, ApplyRule, ApplyRuleIn, Put, PutIn;
    interfaceDict := previous;
    var cdpDisable := Capture(NoCdpEnable, line);
    if cdpDisable != "" {
      interfaceDict := Put(interfaceDict, "cdp_disable", Leaf(Bool(true)));
    }
    ApplyFlag(previous, MiscRules[2], line);
    ghost var d1 := interfaceDict;
    var shutdown := Capture(Shutdown, line);
    if shutdown != "" {
      interfaceDict := Put(interfaceDict, "shutdown", Leaf(Bool(true)));
    }
    ApplyFlag(d1, MiscRules[3], line);
  }

  /** Vrf, negotiation and keepalive. */
  method VrfToKeepalive(previous: Dict, line: string) returns (interfaceDict: Dict)
    ensures interfaceDict == ApplyRule(ApplyRule(ApplyRule(previous,
              MiscRules[4], line), MiscRules[5], line), MiscRules[6], line)
  {
    hide Capture, Written, ApplyRule, ApplyRuleIn, Put, PutIn;
    interfaceDict := previous;
    var vrf := Capture(VrfForwarding, line);
    if vrf != "" {
      interfaceDict := Put(interfaceDict, "vrf", Leaf(Str(vrf)));
    }
    ApplyValue(previous, MiscRules[4], line);
    ghost var d1 := interfaceDict;
    var negotiation := Capture(Negotiation, line);
    if negotiation != "" {
      interfaceDict := Put(interfaceDict, "negotiation", Leaf(Str(negotiation)));
    }
    ApplyValue(d1, MiscRules[5], line);
    ghost var d2 := interfaceDict;
    var keepaliveDisable := Capture(NoKeepalive, line);
    if keepaliveDisable != "" {
      interfaceDict := Put(interfaceDict, "keepalive_disable", Leaf(Bool(true)));
    }
    ApplyFlag(d2, MiscRules[6], line);
  }
}
