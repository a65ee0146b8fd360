# conf2yaml in Dafny

conf2yaml turns the running configuration of a Cisco switch into a YAML description
of its interfaces. This project models the two parts of `conf2yaml.py` that hold
its logic and proves properties of them:

- **`convert_to_yaml`** builds one record per interface. CiscoConfParse finds the
  `interface` objects. For each object a fixed cascade of line tests runs over its
  child lines, and each matching test writes a field: the access and voice VLAN, the
  switchport mode, a `port_security` group, nonegotiate and the trunk settings, an
  `ip` group, the description and a handful of flags. The source's loops are
  methods (module `Converter`). Each method is proved equal to a specification made
  of rule tables folded over the selected children (module `Extractor`). The
  records' properties are proved about that specification:
  - last match wins for every field;
  - a group exists exactly when its child search finds something;
  - a record holds no other keys;
  - every value is `True` or a non-empty piece of one of the object's lines.
- **`regex_yaml`** is a chain of seven `re.sub` rewrites of the YAML text. Each
  rewrite is a function that follows the regular-expression engine's scan:
  leftmost match, lazy and greedy quantifiers in their backtracking order, and the
  scan resuming after each match. Each is paired with a simpler statement of what
  it does: line by line, "only deletes quotes", "only changes whitespace", "only
  turns `'` into `"`".

Regular expressions are written out per pattern (module `Patterns`):

- `re_match` returns group 1 of the first match, or `""` when nothing matches.
- `re_search` returns the line's text on a match. Only its truthiness is used, so
  the model returns a non-empty text exactly when the pattern matches, `""` otherwise.
- `$` matches at the end of the text or just before one final line break.
- `.` does not match a line break.
- `\s` is the set of characters for which Python's `str.isspace()` holds.

A record is a Python dictionary: a sequence of key/field pairs in insertion order.
Assigning to an existing key keeps its place (module `OrderedDict`).

Three behaviours of the code are modelled as written:

- **The rebound loop variable.** The port-security loop (`conf2yaml.py:101`) rebinds
  `line`. So once any child mentions `switchport port-security`, the nonegotiate
  and trunk tests of every switchport pass read the last port-security child, not
  the current line. As a result `nonegotiate`, `native_vlan` and `allowed_vlan` are
  then never set (`Record.PortSecurityClearsFields`). `encapsulation` still can be:
  `Record.EncapsulationDespitePortSecurity` gives a line that sets it.
- **Groups created empty.** The `ip` and `port_security` groups are created as soon
  as the child search finds a line (`conf2yaml.py:97-99`, `145-148`, `165-168`),
  and each exists even when none of its sub-rules then matches (`Record.ExtractIp`,
  `Record.ExtractPortSecurity`).
- **Overlapping join.** The description join on line 257 lets `\s*` run across line
  breaks, and it also applies to a value that is already closed on its own line.
  Each pass joins only one break per value, so a second pass joins again: the join
  is not idempotent (`DescriptionRewrite.JoinDescriptionNotIdempotent`). The model
  follows the regex, not the intent.

## Model

| member | source | states |
|---|---|---|
| `Converter.ConvertToYaml` | conf2yaml.py:47-229 | With no interface objects the output mapping is empty. Otherwise it has the single key `interfaces`, holding exactly one record per object, in search order, each the object's own record. |
| `Converter.ConvertInterface` | conf2yaml.py:56-226 | The record the loop body builds equals the specification `Extract` of that object. |
| `Converter.SwitchportSection` | conf2yaml.py:65-139 | The switchport loop leaves the record equal to `AfterSwitchport`: every switchport pass folded over the children that mention `switchport`. |
| `Converter.SwitchportIteration` | conf2yaml.py:73-139 | One pass runs the access/voice/mode tests on the line, then the port-security block, then the nonegotiate and trunk tests on the line the inner loop left bound. |
| `Converter.SwitchportChecks` | conf2yaml.py:75-88 | The three switchport tests on one line, each writing its field only when its pattern matched. |
| `Converter.PortSecurityLoop` | conf2yaml.py:97-111 | Creates `port_security` only if missing, folds the enabled/maximum tests over the port-security children, and returns the last of them (the rebound `line`). |
| `Converter.PortSecurityChecks` | conf2yaml.py:103-111 | The enabled and maximum tests on one line write into the `port_security` group. |
| `Converter.TrunkChecks` | conf2yaml.py:126-139 | The native VLAN, allowed VLAN and encapsulation tests on one line, in source order. |
| `Converter.IpSection` | conf2yaml.py:143-160 | When some child starts with ` ip `, the `ip` group is created if missing and filled by the address and DHCP-snooping tests over those children. |
| `Converter.IpChecks` | conf2yaml.py:150-160 | The two `ip` tests on one line write into the `ip` group. |
| `Converter.NoIpSection` | conf2yaml.py:162-185 | The same for children that start with ` no ip `, adding into the `ip` group the earlier loop may have created. |
| `Converter.NoIpChecks` | conf2yaml.py:170-185 | The three `no ip` flag tests on one line. |
| `Converter.MiscSection` | conf2yaml.py:187-226 | The final loop over all children leaves the record equal to `Extract`. |
| `Converter.MiscChecks` | conf2yaml.py:191-226 | The seven tests of the final loop on one line, in source order. |
| `Converter.DescriptionAndPower` | conf2yaml.py:193-201 | The description and inline-power policing tests on one line. |
| `Converter.CdpAndShutdown` | conf2yaml.py:203-211 | The CDP-disabled and shutdown tests on one line. |
| `Converter.VrfToKeepalive` | conf2yaml.py:213-226 | VRF, negotiation and keepalive-disabled tests on one line. |
| `Extractor.Extract` | conf2yaml.py:56-226 | The record one loop body builds for one object: the name test, then the switchport, ` ip `, ` no ip ` and final cascades folded in source order over the children each search selects, with the port-security rebinding and the groups created on first need. |
| `Extractor.ExtractAllIndex` | conf2yaml.py:54-229 | The list of records has one record per object, and the i-th record is the i-th object's. |
| `Record.ExtractName` | conf2yaml.py:59-61 | `aname` is the name `n` exactly when the object's line is `interface ` followed by the token `n` (and at most one final break). Otherwise the key is absent. |
| `Record.ExtractSwitchportField` | conf2yaml.py:73-88 | `vlan_id`, `voice_vlan` and `switchport_mode` hold what the last child that matches their pattern captured, or are absent if no child matches. |
| `Record.ExtractLineField` | conf2yaml.py:113-139 | Without port-security children, last match over all children wins for `nonegotiate` and the trunk fields, the trunk fields behind the `^ switchport trunk.*$` guard. |
| `Record.ExtractLineFieldPortSecurity` | conf2yaml.py:96-139 | With some port-security child, `nonegotiate` and the trunk fields hold what the last port-security child writes: the effect of rebinding `line`. |
| `Record.PortSecurityClearsFields` | conf2yaml.py:101-134 | With some child mentioning `switchport port-security`, `nonegotiate`, `native_vlan` and `allowed_vlan` are absent whatever the other children say. |
| `Record.EncapsulationDespitePortSecurity` | conf2yaml.py:136-139 | A concrete interface whose only child mentions port-security still gets an `encapsulation` field. |
| `Record.ExtractPortSecurity` | conf2yaml.py:96-111 | `port_security` exists exactly when some child mentions `switchport port-security`. Its members `enabled` and `maximum` follow last match wins, and it holds no other member. |
| `Record.ExtractIp` | conf2yaml.py:143-185 | `ip` exists exactly when some child starts with ` ip ` or ` no ip `. Its five members follow last match wins, and it holds no other member. |
| `Record.ExtractMiscField` | conf2yaml.py:187-226 | The seven fields of the final loop hold the last match over all children. |
| `Record.ExtractUnknownKey` | conf2yaml.py:56-226 | A record has no key outside the ones the source writes. |
| `Leaves.ExtractWellFormed` | conf2yaml.py:56-226 | Every value in a record is `True`, or a non-empty substring of the object's line or of one of its children. The same holds inside groups. |
| `Cascade.FoldRulesGet` | conf2yaml.py:191-226 | Folding a table of tests over lines leaves each field with the last value its test wrote, or its previous value if no line matched. |
| `Cascade.LastWrittenIsLast` | conf2yaml.py:76-78 | The value kept is the one written by the last matching line, and no later line matches. |
| `Cascade.SearchChildrenEmpty` | conf2yaml.py:66-67 | A child search is empty exactly when no child satisfies its selector (the source's `if …:` tests). |
| `SwitchportLoop.TrunkGuard` | conf2yaml.py:119-139 | A trunk field is only ever written by a line that passes the guard `^ switchport trunk.*$`. |
| `SwitchportLoop.TrunkVlanNotPortSecurity` | conf2yaml.py:127-134 | No line that matches the native or allowed VLAN pattern mentions `switchport port-security`. |
| `Patterns.Capture` | conf2yaml.py:59-224 | For each of the source's patterns on one line: what `re_match` returns (group 1, `""` when there is no match), and for `re_search` a text that is non-empty exactly when the line matches, since only its truthiness is used. |
| `Patterns.SearchChildren` | conf2yaml.py:66-66 | `re_search_children` (also on lines 96, 144, 163 and 188): the children its selector accepts, in child order, and nothing else. |
| `Patterns.TokenCaptureIff` | conf2yaml.py:59 | `^P(\S+)$` captures `tok` exactly when the line is `P` followed by the whitespace-free `tok`. |
| `Patterns.RestCaptureIff` | conf2yaml.py:137 | `^P(.+)$` captures `x` exactly when the line is `P` followed by the break-free `x`. |
| `Patterns.LiteralCaptureIff` | conf2yaml.py:104 | `^L$` matches exactly the line `L`, and then yields `L`. |
| `Patterns.SearchTokenLeftmost` | conf2yaml.py:76 | The unanchored `P(\S+)` takes the leftmost occurrence of `P` followed by a non-space character, and the whole token after it. |
| `Patterns.SearchTokenNone` | conf2yaml.py:76 | The unanchored search finds nothing exactly when no occurrence of `P` is followed by a non-space character. |
| `OrderedDict.Put` | conf2yaml.py:61 | `d[k] = v`: `k` then maps to `v` and no other key changes. An existing key keeps its place and a new key goes last. |
| `OrderedDict.PutPut` | conf2yaml.py:76-78 | Of two writes to one key only the second is visible. |
| `Replace.ReplaceAll` | conf2yaml.py:252-254 | `re.sub` with a literal pattern: the text scanned left to right, each non-overlapping occurrence replaced, the scan resuming after it. |
| `Replace.ReplaceLength` | conf2yaml.py:252-254 | A literal rewrite changes the length by `|r| - |p|` per replacement. |
| `Replace.ReplaceAbsent` | conf2yaml.py:252-254 | A text in which the pattern does not occur is unchanged. |
| `Replace.CountMatchesZero` | conf2yaml.py:252-254 | No replacement is made exactly when the pattern does not occur. |
| `Normalizer.RegexYaml` | conf2yaml.py:252-258 | The seven rewrites of the file's contents, composed in source order. |
| `Normalizer.LiteralRewriteLengths` | conf2yaml.py:252-254 | `\r\n` to `\n` removes one character per line end. `  ` to `    ` adds two per pair. `- aname:` to ` ` removes seven per marker. |
| `Normalizer.UnixLineEndsNotIdempotent` | conf2yaml.py:252 | `\r\r\n` becomes `\r\n` on the first pass and `\n` on the second. |
| `Normalizer.DoubleIndentNotIdempotent` | conf2yaml.py:253 | Two spaces become four, and then eight. |
| `Normalizer.RegexYamlUntouched` | conf2yaml.py:252-258 | A text containing none of the seven patterns' key texts passes through the whole chain unchanged. |
| `GigabitRewrite.MarkGigabit` | conf2yaml.py:255 | The leftmost-first `re.sub` scan of `(Gigabit.*?)\n`: from each occurrence of `Gigabit`, the lazy run up to the next break gains `:` before it, and the scan resumes after the break. |
| `GigabitRewrite.MarkGigabitByLines` | conf2yaml.py:255 | The regex scan equals the line-by-line rewrite: a colon before the break of each terminated line that contains `Gigabit`. |
| `GigabitRewrite.MarkGigabitLine` | conf2yaml.py:255 | A break-terminated line gains exactly one `:` before its break iff it contains `Gigabit` (even several times), and the rest is rewritten on its own. |
| `GigabitRewrite.MarkGigabitLastLine` | conf2yaml.py:255 | A last line without a break is never changed. |
| `GigabitRewrite.MarkGigabitUntouched` | conf2yaml.py:255 | A text without `Gigabit` is unchanged. |
| `GigabitRewrite.MarkGigabitNotIdempotent` | conf2yaml.py:255 | A second application adds a second colon. |
| `VlanRewrite.UnquoteVlan` | conf2yaml.py:256 | The `re.sub` scan of `(.*?vlan.*?)'(\d*?)'`: at each scan position, the first `vlan` on the line that a quoted run of digits follows, the first such run after it losing its two quotes, the scan resuming after the closing quote. |
| `VlanRewrite.UnquoteVlanDeletesQuotes` | conf2yaml.py:256 | The output is the input with some quote characters removed. |
| `VlanRewrite.UnquoteVlanByLine` | conf2yaml.py:256 | The rewrite works line by line: no match crosses a break, and breaks are kept. |
| `VlanRewrite.UnquoteVlanUntouched` | conf2yaml.py:256 | A text (or line) that never mentions `vlan` is unchanged. |
| `VlanRewrite.QuoteDeletionShorter` | conf2yaml.py:256 | Deleting quotes never lengthens a text, and a text without quotes stays as it is. |
| `VlanRewrite.UnquoteVlanExample` | conf2yaml.py:256 | `vlan '10'` becomes `vlan 10`. |
| `DescriptionRewrite.JoinDescription` | conf2yaml.py:257 | The `re.sub` scan of `(description: '.*?)\n\s*(.*?')`: the first break after `description: '` and the whitespace run after it, backtracked until a `'` closes the next part, become one space. |
| `DescriptionRewrite.JoinKeepsNonSpace` | conf2yaml.py:257 | The join changes whitespace only: with all whitespace removed, the text is the same before and after. |
| `DescriptionRewrite.JoinDescriptionNotIdempotent` | conf2yaml.py:257 | `description: '` followed by a break, `'`, a break and `'` is joined to `description: ' '` plus a break and `'` on the first pass, and to `description: ' ' '` on the second, so a second pass changes the text. |
| `DescriptionRewrite.JoinDescriptionShorter` | conf2yaml.py:257 | The join never lengthens the text. |
| `DescriptionRewrite.JoinDescriptionUntouched` | conf2yaml.py:257 | A text without `description: '` is unchanged by the join. |
| `DescriptionRewrite.RequoteDescription` | conf2yaml.py:258 | The `re.sub` scan of `(description: )'(.*?)'`: after each `description: `, the opening `'` and the first `'` after it on that line become `"`. |
| `DescriptionRewrite.RequoteTurnsQuotes` | conf2yaml.py:258 | The requoting only turns some `'` into `"`. |
| `DescriptionRewrite.RequotedPointwise` | conf2yaml.py:258 | With the requoting, the length is kept, and each position holds its old character or a `"` where a `'` stood. |
| `DescriptionRewrite.RequoteUntouched` | conf2yaml.py:258 | A text without `description: '` is unchanged by the requoting. |

## Left out

- `main` (`conf2yaml.py:8-43`) is left out. Walking the input tree, reading
  configuration files and choosing output paths are file-system I/O.
- `write_output_yaml_to_file` (`conf2yaml.py:236-243`) is left out: creating
  directories and writing files is I/O.
- The file reads and writes of `regex_yaml` (`conf2yaml.py:248-249`, `261-262`) are
  left out, so the chain is modelled on the file's contents as a string. Reading a
  file in text mode already turns `\r\n` into `\n`, so on contents read that way the
  first rewrite has nothing to do. The model applies it to whatever string it is
  given.
- `yaml.dump` (`conf2yaml.py:232`), the serialisation itself, is not modelled:
  `ConvertToYaml` returns the mapping `output_config` that `yaml.dump` would
  serialise. PyYAML sorts mapping keys by default. The insertion order the model keeps is therefore not what the YAML text
  shows, and the record lemmas speak of each key's value, not of key order.
  Nothing links the YAML that `regex_yaml` rewrites to a particular record.
- CiscoConfParse is not modelled (`find_objects`, `re_search_children`, the
  parsing of the configuration into objects). Its result is the input: each
  interface object is its own line plus its direct children's lines, in order.
  The child searches used (`switchport`, `switchport port-security`, `^ ip `,
  `^ no ip `, `.*`) are modelled on those lines.
- General regular expressions are not covered. Only the patterns the source uses
  are written out, each as a function.
- `\d` (line 256) is modelled as the ASCII digits. Python also accepts other
  Unicode decimal digits.
- `Extractor.PutIn` returns the record unchanged when the group is missing. The
  source never reaches that case, because each group is created before it is
  written.
- Line 173 rebinds the name `no_ip` inside the loop over `no_ip`. This has no
  effect, since the loop already holds its list.
- VlanRewrite.UnquoteVlanDeletesQuotes is weaker than the rewrite: it says which
  kind of character the rewrite removes, but not which occurrences. The function
  `UnquoteVlan` itself fixes which ones: every match, scanning left to right and
  resuming after the closing quote. Each match runs from the scan position to the
  first mention of `vlan` on that line that a quoted run of digits follows.
- DescriptionRewrite.JoinKeepsNonSpace is weaker than the rewrite: it says the
  join only changes whitespace, but not where. The function `JoinDescription`
  itself fixes that: the first break after `description: '` and the whitespace
  after it become one space.
