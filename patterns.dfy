/** The regular expressions of `convert_to_yaml`, each written out as a string
    function. For `re_match` a capture function returns what CiscoConfParse returns,
    group 1 of the first match, or "" when the pattern does not match. `re_search`
    returns the line's text on a match; only its truthiness is used, so its capture
    function returns a non-empty text exactly when the pattern matches. Line texts are single configuration lines; `$` is
    modelled as Python defines it (end of text or just before a final line break). */
module Patterns {
  import opened Text

  /** `^P(\S+)$`: the rest of the line after `P`, when it is one whitespace-free token. */
  function AnchoredToken(text: string, p: string): string {
    if StartsWith(text, p) && IsToken(Chomp(text[|p|..])) then Chomp(text[|p|..]) else ""
  }

  /** `^P(.*)$` and `^P(.+)$`: the rest of the line after `P`. The two patterns differ
      only when the rest is empty, where both yield "" (no match, or an empty group
      that the caller's `if` treats as no match). */
  function AnchoredRest(text: string, p: string): string {
    if StartsWith(text, p) && NoNewline(Chomp(text[|p|..])) then Chomp(text[|p|..]) else ""
  }

  /** `^L$` searched with `re_search`: non-empty exactly when the line is `L`, when
      it yields `L` itself. */
  function WholeLine(text: string, lit: string): string {
    if Chomp(text) == lit then lit else ""
  }

  /** The unanchored `P(\S+)`: the leftmost occurrence of `P` that a non-whitespace
      character follows, and the whole whitespace-free run after it. */
  function SearchToken(text: string, p: string): string
    decreases |text|
  {
    if StartsWith(text, p) && |p| < |text| && !IsSpace(text[|p|]) then TokenRun(text[|p|..])
    else if text == [] then ""
    else SearchToken(text[1..], p)
  }

  /** The four shapes the patterns of `convert_to_yaml` take. */
  datatype Pattern =
    | Token(prefix: string)   // ^P(\S+)$
    | Search(prefix: string)  // P(\S+), unanchored
    | Rest(prefix: string)    // ^P(.*)$ or ^P(.+)$
    | Literal(line: string)   // ^L$, tested with re_search

  /** The patterns, in the order the source tests them. */
  const InterfaceName: Pattern := Token("interface ")
  const AccessVlan: Pattern := Search(" switchport access vlan ")
  const VoiceVlan: Pattern := Search(" switchport voice vlan ")
  const SwitchportMode: Pattern := Token(" switchport mode ")
  const PortSecurityOn: Pattern := Literal(" switchport port-security")
  const PortSecurityMaximum: Pattern := Token(" switchport port-security maximum ")
  const Nonegotiate: Pattern := Literal(" switchport nonegotiate")
  const TrunkNativeVlan: Pattern := Token(" switchport trunk native vlan ")
  const TrunkAllowedVlan: Pattern := Token(" switchport trunk allowed vlan ")
  const TrunkEncapsulation: Pattern := Rest(" switchport trunk encapsulation ")
  const IpAddress: Pattern := Rest(" ip address ")
  const DhcpSnoopingTrust: Pattern := Literal(" ip dhcp snooping trust")
  const NoIpAddress: Pattern := Literal(" no ip address")
  const NoRouteCache: Pattern := Literal(" no ip route-cache")
  const NoMrouteCache: Pattern := Literal(" no ip mroute-cache")
  const Description: Pattern := Rest(" description ")
  const PowerInlinePolice: Pattern := Literal(" power inline police")
  const NoCdpEnable: Pattern := Literal(" no cdp enable")
  const Shutdown: Pattern := Literal(" shutdown")
  const VrfForwarding: Pattern := Rest(" vrf forwarding ")
  const Negotiation: Pattern := Rest(" negotiation ")
  const NoKeepalive: Pattern := Literal(" no keepalive")

  /** Patterns tested with `re_search` whose match only sets a field to True. */
  predicate IsFlag(p: Pattern) {
    p.Literal?
  }

  /** What `re_match` / `re_search` returns for pattern `p` on one line. */
  function Capture(p: Pattern, text: string): string {
    match p
    case Token(q) => AnchoredToken(text, q)
    case Search(q) => SearchToken(text, q)
    case Rest(q) => AnchoredRest(text, q)
    case Literal(l) => WholeLine(text, l)
  }

  /** `^ switchport trunk.*$`, the guard of the trunk checks. */
  predicate TrunkLine(text: string) {
    StartsWith(text, " switchport trunk") && NoNewline(Chomp(text[17..]))
  }

  /** The child searches `re_search_children(r'switchport')`, `(r'switchport port-security')`,
      `(r'^ ip ')`, `(r'^ no ip ')` and `(r'.*')`. */
  datatype Selector = Mentions(word: string) | Begins(prefix: string) | AnyLine

  predicate Selects(sel: Selector, text: string) {
    match sel
    case Mentions(w) => Contains(text, w)
    case Begins(p) => StartsWith(text, p)
    case AnyLine => true
  }

  /** The children a search returns, in child order. */
  function SearchChildren(children: seq<string>, sel: Selector): (r: seq<string>)
    ensures forall x :: x in r ==> x in children && Selects(sel, x)
    ensures |r| <= |children|
    decreases |children|
  {
    if children == [] then []
    else
      var n := |children| - 1;
      SearchChildren(children[..n], sel) + (if Selects(sel, children[n]) then [children[n]] else [])
  }

  // ---------------------------------------------------------------------------

  lemma AnchoredInText(text: string, p: string)
    requires StartsWith(text, p)
    ensures Contains(text, Chomp(text[|p|..]))
  {
    var c := Chomp(text[|p|..]);
    assert text[|p|..|p| + |c|] == c;
    ContainsAt(text, c, |p|);
  }

  lemma {:induction false} SearchTokenInText(text: string, p: string)
    requires SearchToken(text, p) != ""
    ensures Contains(text, SearchToken(text, p))
    decreases |text|
  {
    if StartsWith(text, p) && |p| < |text| && !IsSpace(text[|p|]) {
      var t := TokenRun(text[|p|..]);
      assert text[|p|..|p| + |t|] == t;
      ContainsAt(text, t, |p|);
    } else {
      SearchTokenInText(text[1..], p);
      ContainsSuffix(text, 1, SearchToken(text, p));
    }
  }

  lemma WholeLineInText(text: string, lit: string)
    requires WholeLine(text, lit) != ""
    ensures Contains(text, WholeLine(text, lit))
  {
    assert StartsWith(text, Chomp(text));
  }

  /** Every capture is a piece of the line it was taken from. */
  lemma CaptureInText(p: Pattern, text: string)
    requires Capture(p, text) != ""
    ensures Contains(text, Capture(p, text))
  {
    match p
    case Token(q) => AnchoredInText(text, q);
    case Search(q) => SearchTokenInText(text, q);
    case Rest(q) => AnchoredInText(text, q);
    case Literal(l) => WholeLineInText(text, l);
  }

  // ---------------------------------------------------------------------------
  // What each shape matches

  /** `^P(\S+)$` yields `tok` exactly when the line is `P` followed by the token `tok`
      (and possibly one final line break). */
  lemma TokenCaptureIff(text: string, p: string, tok: string)
    ensures (Capture(Token(p), text) == tok && tok != "")
        <==> (IsToken(tok) && (text == p + tok || text == p + tok + "\n"))
  {
    if IsToken(tok) && (text == p + tok || text == p + tok + "\n") {
      assert StartsWith(text, p);
      assert text[|p|..] == tok || text[|p|..] == tok + "\n";
      assert !IsSpace(tok[|tok| - 1]);
    }
    if Capture(Token(p), text) == tok && tok != "" {
      assert text == p + text[|p|..];
    }
  }

  /** `^P(.*)$` yields a non-empty `x` exactly when the line is `P` followed by the
      break-free `x` (and possibly one final line break). */
  lemma RestCaptureIff(text: string, p: string, x: string)
    ensures (Capture(Rest(p), text) == x && x != "")
        <==> (x != "" && NoNewline(x) && (text == p + x || text == p + x + "\n"))
  {
    if x != "" && NoNewline(x) && (text == p + x || text == p + x + "\n") {
      assert StartsWith(text, p);
      assert text[|p|..] == x || text[|p|..] == x + "\n";
      assert x[|x| - 1] != '\n';
    }
    if Capture(Rest(p), text) == x && x != "" {
      assert text == p + text[|p|..];
    }
  }

  /** `^L$` matches exactly the line `L`, possibly with one final line break, and the
      match is `L`. */
  lemma LiteralCaptureIff(text: string, l: string)
    requires l != "" && NoNewline(l)
    ensures Capture(Literal(l), text) != "" <==> (text == l || text == l + "\n")
    ensures Capture(Literal(l), text) != "" ==> Capture(Literal(l), text) == l
  {
    assert l[|l| - 1] != '\n';
    if text == l + "\n" {
      assert Chomp(text) == l;
    }
  }

  /** `P` occurs at `i` and a non-whitespace character follows it. */
  predicate OccursAt(text: string, p: string, i: nat) {
    i + |p| < |text| && text[i..i + |p|] == p && !IsSpace(text[i + |p|])
  }

  lemma OccursAtTail(text: string, p: string, j: nat)
    requires 0 < j && |text| > 0
    ensures OccursAt(text, p, j) <==> OccursAt(text[1..], p, j - 1)
  {
    if j + |p| < |text| {
      assert text[1..][j - 1..j - 1 + |p|] == text[j..j + |p|];
    }
  }

  /** One step of the search: a match at the start, or the search of the tail. */
  lemma SearchTokenStep(text: string, p: string)
    ensures OccursAt(text, p, 0) ==> SearchToken(text, p) == TokenRun(text[|p|..])
    ensures !OccursAt(text, p, 0) && text != [] ==> SearchToken(text, p) == SearchToken(text[1..], p)
    ensures !OccursAt(text, p, 0) && text == [] ==> SearchToken(text, p) == ""
  {
    assert OccursAt(text, p, 0) <==> StartsWith(text, p) && |p| < |text| && !IsSpace(text[|p|]);
  }

  /** The unanchored search takes the leftmost occurrence of `P` that a non-whitespace
      character follows, and returns the whole token there. */
  lemma {:induction false} SearchTokenLeftmost(text: string, p: string) returns (i: nat)
    requires SearchToken(text, p) != ""
    ensures OccursAt(text, p, i)
    ensures forall j :: 0 <= j < i ==> !OccursAt(text, p, j)
    ensures SearchToken(text, p) == TokenRun(text[i + |p|..])
    decreases |text|
  {
    SearchTokenStep(text, p);
    hide SearchToken, TokenRun, IsSpace;
    if OccursAt(text, p, 0) {
      i := 0;
    } else {
      var k := SearchTokenLeftmost(text[1..], p);
      i := k + 1;
      OccursAtTail(text, p, i);
      assert text[1..][k + |p|..] == text[i + |p|..];
      forall j | 0 < j < i
        ensures !OccursAt(text, p, j)
      {
        OccursAtTail(text, p, j);
      }
    }
  }

  /** The search finds nothing exactly when no occurrence of `P` is followed by a
      non-whitespace character. */
  lemma {:induction false} SearchTokenNone(text: string, p: string)
    requires SearchToken(text, p) == ""
    ensures forall j :: 0 <= j < |text| ==> !OccursAt(text, p, j)
    decreases |text|
  {
    SearchTokenStep(text, p);
    hide SearchToken, TokenRun, IsSpace;
    if text != [] {
      assert !OccursAt(text, p, 0);
      SearchTokenNone(text[1..], p);
      forall j | 0 < j < |text|
        ensures !OccursAt(text, p, j)
      {
        OccursAtTail(text, p, j);
      }
    }
  }

  /** The text a pattern is built around: the prefix, or the whole line of a flag. */
  function Anchor(p: Pattern): string {
    match p
    case Token(q) => q
    case Search(q) => q
    case Rest(q) => q
    case Literal(l) => l
  }

  /** A line an anchored pattern matches begins with its anchor; a line the unanchored
      search matches contains it. */
  lemma CaptureAnchor(p: Pattern, text: string)
    requires Capture(p, text) != ""
    ensures !p.Search? ==> StartsWith(text, Anchor(p))
    ensures Contains(text, Anchor(p))
  {
    match p
    case Search(q) =>
      var i := SearchTokenLeftmost(text, q);
      ContainsAt(text, q, i);
    case Literal(l) =>
      assert StartsWith(text, Chomp(text));
    case _ =>
  }

  /** The switchport tests are built around ` switchport`. */
  lemma SwitchportAnchors()
    ensures StartsWith(Anchor(AccessVlan), " switchport")
    ensures StartsWith(Anchor(VoiceVlan), " switchport")
    ensures StartsWith(Anchor(SwitchportMode), " switchport")
  {
  }

  /** So are the nonegotiate and trunk tests. */
  lemma LineAnchors()
    ensures StartsWith(Anchor(Nonegotiate), " switchport")
    ensures StartsWith(Anchor(TrunkNativeVlan), " switchport")
    ensures StartsWith(Anchor(TrunkAllowedVlan), " switchport")
    ensures StartsWith(Anchor(TrunkEncapsulation), " switchport")
  {
  }

  /** The port-security tests are built around ` switchport port-security`. */
  lemma PortSecurityAnchors()
    ensures StartsWith(Anchor(PortSecurityOn), " switchport port-security")
    ensures StartsWith(Anchor(PortSecurityMaximum), " switchport port-security")
  {
  }
}
