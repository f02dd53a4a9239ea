/**
 The ACL compiler: overrides are merged into the profile's ACLs, every entry with a DNS name
 becomes one firewall rule, and two rejecting defaults close the list. Rules are read first-match.
 */
module Firewall {
  import opened Prelude
  import opened Models
  import Decimal

  datatype Verdict = Accept | Reject

  datatype RuleProtocol = Tcp | Udp | All

  datatype RuleTargetHost = FirewallDevice | Ip(addr: IpAddr) | Hostname(name: string)

  /** A rule end; `None` is any host. The compiler never sets a port. */
  datatype RuleTarget = RuleTarget(host: Option<RuleTargetHost>, port: Option<nat>)

  datatype FirewallRule = FirewallRule(
    name: string, src: RuleTarget, dst: RuleTarget, protocol: RuleProtocol, target: Verdict)

  datatype FirewallDeviceConfig = FirewallDeviceConfig(
    id: int, ipv4: Option<nat>, ipv6: Option<nat>, rules: seq<FirewallRule>, collectData: bool)

  datatype EnforcerConfig = EnforcerConfig(version: string, devices: seq<FirewallDeviceConfig>, domain: string)

  /** How a name in an entry reads as an address literal; host names resolve by the relation of `Network`. */
  type IpText = string -> Option<IpAddr>

  // ---------------------------------------------------------------- merging

  function Names(acls: seq<Acl>): set<string> {
    set i | 0 <= i < |acls| :: acls[i].name
  }

  function Without(acls: seq<Acl>, names: set<string>): seq<Acl> {
    if acls == [] then []
    else (if acls[0].name in names then [] else [acls[0]]) + Without(acls[1..], names)
  }

  /** `merge_acls`: the originals whose name is not overridden, then the overrides. */
  function MergeAcls(original: seq<Acl>, overrideWith: seq<Acl>): seq<Acl> {
    Without(original, Names(overrideWith)) + overrideWith
  }

  function Named(acls: seq<Acl>, name: string): seq<Acl> {
    if acls == [] then []
    else (if acls[0].name == name then [acls[0]] else []) + Named(acls[1..], name)
  }

  lemma {:induction false} NamedConcat(a: seq<Acl>, b: seq<Acl>, name: string)
    ensures Named(a + b, name) == Named(a, name) + Named(b, name)
  {
    if a == [] {
      assert a + b == b;
    } else {
      assert (a + b)[1..] == a[1..] + b;
      NamedConcat(a[1..], b, name);
      var head := if a[0].name == name then [a[0]] else [];
      assert Named(a + b, name) == head + (Named(a[1..], name) + Named(b, name));
      ConcatAssociative(head, Named(a[1..], name), Named(b, name));
    }
  }

  lemma {:induction false} NamedWithout(acls: seq<Acl>, names: set<string>, name: string)
    ensures Named(Without(acls, names), name) == if name in names then [] else Named(acls, name)
  {
    if acls != [] {
      NamedWithout(acls[1..], names, name);
      NamedConcat(if acls[0].name in names then [] else [acls[0]], Without(acls[1..], names), name);
    }
  }

  lemma {:induction false} NamedEmptyIff(acls: seq<Acl>, name: string)
    ensures Named(acls, name) == [] <==> name !in Names(acls)
  {
    if acls != [] {
      NamedEmptyIff(acls[1..], name);
      NamesCons(acls);
    }
  }

  lemma NamesCons(acls: seq<Acl>)
    requires acls != []
    ensures Names(acls) == {acls[0].name} + Names(acls[1..])
  {
    forall n | n in Names(acls) ensures n in {acls[0].name} + Names(acls[1..]) {
      var i :| 0 <= i < |acls| && acls[i].name == n;
      assert i > 0 ==> acls[1..][i - 1] == acls[i];
    }
    forall n | n in Names(acls[1..]) ensures n in Names(acls) {
      var i :| 0 <= i < |acls[1..]| && acls[1..][i].name == n;
      assert acls[i + 1].name == n;
    }
  }

  /** Per name, the override's lists replace the original's, in order; all other names keep theirs. */
  lemma MergePerName(original: seq<Acl>, overrideWith: seq<Acl>, name: string)
    ensures Named(MergeAcls(original, overrideWith), name) ==
            if name in Names(overrideWith) then Named(overrideWith, name) else Named(original, name)
  {
    NamedConcat(Without(original, Names(overrideWith)), overrideWith, name);
    NamedWithout(original, Names(overrideWith), name);
    NamedEmptyIff(overrideWith, name);
  }

  lemma {:induction false} WithoutConcat(a: seq<Acl>, b: seq<Acl>, names: set<string>)
    ensures Without(a + b, names) == Without(a, names) + Without(b, names)
  {
    if a == [] {
      assert a + b == b;
    } else {
      assert (a + b)[1..] == a[1..] + b;
      WithoutConcat(a[1..], b, names);
      var head := if a[0].name in names then [] else [a[0]];
      assert Without(a + b, names) == head + (Without(a[1..], names) + Without(b, names));
      ConcatAssociative(head, Without(a[1..], names), Without(b, names));
    }
  }

  lemma {:induction false} WithoutTwice(acls: seq<Acl>, m: set<string>, n: set<string>)
    ensures Without(Without(acls, m), n) == Without(acls, m + n)
  {
    if acls != [] {
      WithoutTwice(acls[1..], m, n);
      WithoutConcat(if acls[0].name in m then [] else [acls[0]], Without(acls[1..], m), n);
    }
  }

  lemma {:induction false} WithoutAll(acls: seq<Acl>, names: set<string>)
    requires Names(acls) <= names
    ensures Without(acls, names) == []
  {
    if acls != [] {
      NamesCons(acls);
      WithoutAll(acls[1..], names);
    }
  }

  lemma {:induction false} WithoutNothing(acls: seq<Acl>)
    ensures Without(acls, {}) == acls
  {
    if acls != [] {
      WithoutNothing(acls[1..]);
    }
  }

  /** Strictly increasing positions in a sequence of the given length. */
  predicate Increasing(positions: seq<nat>, length: nat) {
    && (forall k :: 0 <= k < |positions| ==> positions[k] < length)
    && (forall k, l :: 0 <= k < l < |positions| ==> positions[k] < positions[l])
  }

  /** Filtering keeps exactly the other positions, in order. */
  lemma {:induction false} WithoutLayout(acls: seq<Acl>, names: set<string>) returns (positions: seq<nat>)
    ensures Increasing(positions, |acls|) && |positions| == |Without(acls, names)|
    ensures forall k :: 0 <= k < |positions| ==> Without(acls, names)[k] == acls[positions[k]]
    ensures forall i :: 0 <= i < |acls| ==> (i in positions <==> acls[i].name !in names)
  {
    positions := [];
    if acls != [] {
      var n := |acls| - 1;
      positions := WithoutLayout(acls[..n], names);
      WithoutConcat(acls[..n], [acls[n]], names);
      assert acls[..n] + [acls[n]] == acls && [acls[n]][1..] == [];
      if acls[n].name !in names {
        positions := positions + [n];
      }
    }
  }

  /** The merge is the originals that are not overridden, in their order, followed by all overrides in theirs. */
  lemma MergeLayout(original: seq<Acl>, overrideWith: seq<Acl>) returns (positions: seq<nat>)
    ensures Increasing(positions, |original|)
    ensures forall i :: 0 <= i < |original| ==> (i in positions <==> original[i].name !in Names(overrideWith))
    ensures var merged := MergeAcls(original, overrideWith);
            && |merged| == |positions| + |overrideWith|
            && (forall k :: 0 <= k < |positions| ==> merged[k] == original[positions[k]])
            && merged[|positions|..] == overrideWith
  {
    positions := WithoutLayout(original, Names(overrideWith));
  }

  lemma NamesOfMerge(original: seq<Acl>, overrideWith: seq<Acl>)
    ensures Names(MergeAcls(original, overrideWith)) == Names(original) + Names(overrideWith)
  {
    var merged := MergeAcls(original, overrideWith);
    forall n ensures n in Names(merged) <==> n in Names(original) + Names(overrideWith) {
      MergePerName(original, overrideWith, n);
      NamedEmptyIff(merged, n);
      NamedEmptyIff(original, n);
      NamedEmptyIff(overrideWith, n);
    }
  }

  lemma MergeAssociative(a: seq<Acl>, b: seq<Acl>, c: seq<Acl>)
    ensures MergeAcls(MergeAcls(a, b), c) == MergeAcls(a, MergeAcls(b, c))
  {
    WithoutConcat(Without(a, Names(b)), b, Names(c));
    WithoutTwice(a, Names(b), Names(c));
    NamesOfMerge(b, c);
  }

  /** The empty list is a unit on both sides, so skipping the merge for empty overrides changes nothing. */
  lemma MergeIdentity(acls: seq<Acl>)
    ensures MergeAcls(acls, []) == acls && MergeAcls([], acls) == acls
  {
    WithoutNothing(acls);
    assert Names([]) == {};
  }

  lemma MergeIdempotent(original: seq<Acl>, overrideWith: seq<Acl>)
    ensures MergeAcls(MergeAcls(original, overrideWith), overrideWith) == MergeAcls(original, overrideWith)
  {
    MergeAssociative(original, overrideWith, overrideWith);
    WithoutAll(overrideWith, Names(overrideWith));
    assert MergeAcls(overrideWith, overrideWith) == overrideWith;
  }

  // ---------------------------------------------------------------- compiling

  function RuleProtocolOf(protocol: Option<AceProtocol>): RuleProtocol {
    match protocol
    case None => RuleProtocol.All
    case Some(Tcp) => RuleProtocol.Tcp
    case Some(Udp) => RuleProtocol.Udp
    case Some(Protocol(_)) => RuleProtocol.All
  }

  function VerdictOf(action: AceAction): Verdict {
    match action
    case Accept => Verdict.Accept
    case Deny => Verdict.Reject
  }

  const DEVICE_END := RuleTarget(Some(FirewallDevice), None)
  const ANY_END := RuleTarget(None, None)

  function RemoteEnd(ipText: IpText, dnsName: string): RuleTarget {
    match ipText(dnsName)
    case Some(addr) => RuleTarget(Some(Ip(addr)), None)
    case None => RuleTarget(Some(Hostname(dnsName)), None)
  }

  function RuleName(index: nat): string {
    "rule_" + Decimal.Print(index)
  }

  function DefaultName(index: nat): string {
    "rule_default_" + Decimal.Print(index)
  }

  function RuleOf(ipText: IpText, direction: AclDirection, ace: Ace, dnsName: string, index: nat): FirewallRule {
    var remote := RemoteEnd(ipText, dnsName);
    var (src, dst) := if direction == FromDevice then (DEVICE_END, remote) else (remote, DEVICE_END);
    FirewallRule(RuleName(index), src, dst, RuleProtocolOf(ace.matches.protocol), VerdictOf(ace.action))
  }

  function OneRule(ipText: IpText, direction: AclDirection, ace: Ace, index: nat): seq<FirewallRule> {
    match ace.matches.dnsname
    case None => []
    case Some(dnsName) => [RuleOf(ipText, direction, ace, dnsName, index)]
  }

  function AceRules(ipText: IpText, direction: AclDirection, aces: seq<Ace>, index: nat): seq<FirewallRule> {
    if aces == [] then []
    else OneRule(ipText, direction, aces[0], index) + AceRules(ipText, direction, aces[1..], index + 1)
  }

  function AclRules(ipText: IpText, acls: seq<Acl>, index: nat): seq<FirewallRule> {
    if acls == [] then []
    else AceRules(ipText, acls[0].packetDirection, acls[0].ace, index)
         + AclRules(ipText, acls[1..], index + |acls[0].ace|)
  }

  function AceCount(acls: seq<Acl>): nat {
    if acls == [] then 0 else |acls[0].ace| + AceCount(acls[1..])
  }

  function DefaultRules(index: nat): seq<FirewallRule> {
    [FirewallRule(DefaultName(index), DEVICE_END, ANY_END, RuleProtocol.All, Verdict.Reject),
     FirewallRule(DefaultName(index + 1), ANY_END, DEVICE_END, RuleProtocol.All, Verdict.Reject)]
  }

  function EffectiveAcls(data: MudData): seq<Acl> {
    MergeAcls(data.acllist, data.aclOverride)
  }

  function Rules(ipText: IpText, mudData: Option<MudData>): seq<FirewallRule> {
    match mudData
    case None => []
    case Some(data) =>
      AclRules(ipText, EffectiveAcls(data), 0) + DefaultRules(AceCount(EffectiveAcls(data)))
  }

  function DeviceConfig(ipText: IpText, device: DeviceWithRefs): FirewallDeviceConfig {
    FirewallDeviceConfig(device.inner.id, device.inner.ipv4, device.inner.ipv6,
                         Rules(ipText, device.mudData), device.inner.collectInfo)
  }

  predicate Addressed(device: DeviceWithRefs) {
    device.inner.ipv4.Some? || device.inner.ipv6.Some?
  }

  /** `create_configuration`: one entry per device that has an address, in the given order. */
  function Configurations(ipText: IpText, devices: seq<DeviceWithRefs>): seq<FirewallDeviceConfig> {
    if devices == [] then []
    else (if Addressed(devices[0]) then [DeviceConfig(ipText, devices[0])] else [])
         + Configurations(ipText, devices[1..])
  }

  lemma {:induction false} ConfigurationsSnoc(ipText: IpText, devices: seq<DeviceWithRefs>, last: DeviceWithRefs)
    ensures Configurations(ipText, devices + [last])
         == Configurations(ipText, devices) + (if Addressed(last) then [DeviceConfig(ipText, last)] else [])
  {
    if devices == [] {
      assert devices + [last] == [last] && [last][1..] == [];
    } else {
      assert (devices + [last])[1..] == devices[1..] + [last];
      ConfigurationsSnoc(ipText, devices[1..], last);
      var head := if Addressed(devices[0]) then [DeviceConfig(ipText, devices[0])] else [];
      var end := if Addressed(last) then [DeviceConfig(ipText, last)] else [];
      assert Configurations(ipText, devices + [last]) == head + (Configurations(ipText, devices[1..]) + end);
      ConcatAssociative(head, Configurations(ipText, devices[1..]), end);
    }
  }

  /** The entry carries the device's id, addresses and collect flag, the rules of its profile, and none without one. */
  predicate EntryFor(ipText: IpText, device: DeviceWithRefs, entry: FirewallDeviceConfig) {
    && entry.id == device.inner.id && entry.ipv4 == device.inner.ipv4 && entry.ipv6 == device.inner.ipv6
    && (entry.collectData <==> device.inner.collectInfo)
    && (device.mudData.None? ==> entry.rules == [])
    && (device.mudData.Some? ==> entry.rules == Rules(ipText, device.mudData))
  }

  /** The configuration has one entry for exactly the devices with an address, in their order. */
  lemma {:induction false} ConfigurationsLayout(ipText: IpText, devices: seq<DeviceWithRefs>) returns (positions: seq<nat>)
    ensures Increasing(positions, |devices|) && |positions| == |Configurations(ipText, devices)|
    ensures forall k :: 0 <= k < |positions| ==>
              EntryFor(ipText, devices[positions[k]], Configurations(ipText, devices)[k])
    ensures forall i :: 0 <= i < |devices| ==> (i in positions <==> Addressed(devices[i]))
  {
    positions := [];
    if devices != [] {
      var n := |devices| - 1;
      positions := ConfigurationsLayout(ipText, devices[..n]);
      ConfigurationsSnoc(ipText, devices[..n], devices[n]);
      assert devices[..n] + [devices[n]] == devices;
      if Addressed(devices[n]) {
        positions := positions + [n];
      }
    }
  }

  /** Moving the first entry's rule, if it has one, from the rules to come to the rules pushed. */
  lemma PushedAce(ipText: IpText, direction: AclDirection, aces: seq<Ace>, j: nat, pushed: seq<FirewallRule>, index: nat)
    requires j < |aces|
    ensures var dnsName, rest := aces[j].matches.dnsname, AceRules(ipText, direction, aces[j + 1..], index + 1);
            pushed + AceRules(ipText, direction, aces[j..], index) ==
            if dnsName.None? then pushed + rest
            else pushed + [RuleOf(ipText, direction, aces[j], dnsName.value, index)] + rest
  {
    assert aces[j..][1..] == aces[j + 1..];
    var rest := AceRules(ipText, direction, aces[j + 1..], index + 1);
    ConcatAssociative(pushed, OneRule(ipText, direction, aces[j], index), rest);
  }

  /** The same for a whole list: `pushed` grows to `next`, and `all` is what is pushed in the end. */
  lemma PushedAcl(ipText: IpText, acls: seq<Acl>, i: nat, pushed: seq<FirewallRule>, index: nat,
                  next: seq<FirewallRule>, all: seq<FirewallRule>)
    requires i < |acls| && pushed + AclRules(ipText, acls[i..], index) == all
    requires next == pushed + AceRules(ipText, acls[i].packetDirection, acls[i].ace, index)
    ensures next + AclRules(ipText, acls[i + 1..], index + |acls[i].ace|) == all
    ensures AceCount(acls[i..]) == |acls[i].ace| + AceCount(acls[i + 1..])
  {
    assert acls[i..][1..] == acls[i + 1..];
    var head, rest := AceRules(ipText, acls[i].packetDirection, acls[i].ace, index),
                      AclRules(ipText, acls[i + 1..], index + |acls[i].ace|);
    assert AclRules(ipText, acls[i..], index) == head + rest;
    ConcatAssociative(pushed, head, rest);
  }

  /** The loop over one list: every entry takes a number, only DNS-named entries push a rule. */
  method PushAceRules(ipText: IpText, acl: Acl, before: seq<FirewallRule>, start: nat)
    returns (result: seq<FirewallRule>, index: nat)
    ensures result == before + AceRules(ipText, acl.packetDirection, acl.ace, start)
    ensures index == start + |acl.ace|
  {
    result, index := before, start;
    for j := 0 to |acl.ace|
      invariant index == start + j
      invariant result + AceRules(ipText, acl.packetDirection, acl.ace[j..], index)
             == before + AceRules(ipText, acl.packetDirection, acl.ace, start)
    {
      var ace := acl.ace[j];
      PushedAce(ipText, acl.packetDirection, acl.ace, j, result, index);
      if ace.matches.dnsname.Some? {
        result := result + [RuleOf(ipText, acl.packetDirection, ace, ace.matches.dnsname.value, index)];
      }
      index := index + 1;
    }
  }

  /** The loop over all lists, threading the rule number through. */
  method PushAclRules(ipText: IpText, acls: seq<Acl>) returns (result: seq<FirewallRule>, index: nat)
    ensures result == AclRules(ipText, acls, 0) && index == AceCount(acls)
  {
    result, index := [], 0;
    ghost var all := AclRules(ipText, acls, 0);
    for i := 0 to |acls|
      invariant result + AclRules(ipText, acls[i..], index) == all
      invariant index + AceCount(acls[i..]) == AceCount(acls)
    {
      var next, nextIndex := PushAceRules(ipText, acls[i], result, index);
      assert acls[i..][1..] == acls[i + 1..];
      PushedAcl(ipText, acls, i, result, index, next, all);
      result, index := next, nextIndex;
    }
    assert acls[|acls|..] == [] && result + [] == result;
  }

  /** `convert_device_to_fw_rules`: merging is skipped for empty overrides, the defaults come last. */
  method ConvertDeviceToFwRules(ipText: IpText, device: DeviceWithRefs) returns (r: FirewallDeviceConfig)
    ensures r == DeviceConfig(ipText, device)
  {
    var inner := device.inner;
    if device.mudData.None? {
      return FirewallDeviceConfig(inner.id, inner.ipv4, inner.ipv6, [], inner.collectInfo);
    }
    var data := device.mudData.value;
    var merged := data.acllist;
    if data.aclOverride != [] {
      merged := MergeAcls(data.acllist, data.aclOverride);
    }
    MergeIdentity(data.acllist);
    var result, index := PushAclRules(ipText, merged);
    result := result + DefaultRules(index);
    r := FirewallDeviceConfig(inner.id, inner.ipv4, inner.ipv6, result, inner.collectInfo);
  }

  // ---------------------------------------------------------------- packets

  /** One end of a packet: an address, and whether it belongs to the device being compiled. */
  datatype Endpoint = Endpoint(onDevice: bool, addr: IpAddr)

  type PortNumber = n: int | 0 <= n < 0x1_0000

  type ProtocolNumber = n: int | 0 <= n < 0x100

  datatype Packet = Packet(
    src: Endpoint, dst: Endpoint, protocol: ProtocolNumber, srcPort: PortNumber, dstPort: PortNumber)

  const TCP: ProtocolNumber := 6
  const UDP: ProtocolNumber := 17

  /** What the network makes of names: address literals and host name resolution. */
  datatype Network = Network(ipText: IpText, resolves: (string, IpAddr) -> bool)

  predicate EndMatches(net: Network, target: RuleTarget, end: Endpoint) {
    match target.host
    case None => true
    case Some(FirewallDevice) => end.onDevice
    case Some(Ip(addr)) => end.addr == addr
    case Some(Hostname(name)) => net.resolves(name, end.addr)
  }

  predicate RuleMatches(net: Network, rule: FirewallRule, p: Packet) {
    && EndMatches(net, rule.src, p.src)
    && EndMatches(net, rule.dst, p.dst)
    && (match rule.protocol
        case All => true
        case Tcp => p.protocol == TCP
        case Udp => p.protocol == UDP)
  }

  /** The verdict of the first rule that matches; `None` when the packet falls through. */
  function FirstMatch(net: Network, rules: seq<FirewallRule>, p: Packet): Option<Verdict> {
    if rules == [] then None
    else if RuleMatches(net, rules[0], p) then Some(rules[0].target)
    else FirstMatch(net, rules[1..], p)
  }

  lemma {:induction false} FirstMatchConcat(net: Network, a: seq<FirewallRule>, b: seq<FirewallRule>, p: Packet)
    ensures FirstMatch(net, a + b, p) ==
            if FirstMatch(net, a, p).Some? then FirstMatch(net, a, p) else FirstMatch(net, b, p)
  {
    if a == [] {
      assert a + b == b;
    } else {
      assert (a + b)[1..] == a[1..] + b;
      FirstMatchConcat(net, a[1..], b, p);
    }
  }

  // -------------------------------------------- the meaning of ACLs, without rules

  /** A name in an entry stands for an address: itself when it is a literal, else what it resolves to. */
  predicate Denotes(net: Network, dnsName: string, addr: IpAddr) {
    match net.ipText(dnsName)
    case Some(literal) => literal == addr
    case None => net.resolves(dnsName, addr)
  }

  /** The packet travels in the list's direction between the device and the named host. */
  predicate Travels(net: Network, direction: AclDirection, dnsName: string, p: Packet) {
    match direction
    case FromDevice => p.src.onDevice && Denotes(net, dnsName, p.dst.addr)
    case ToDevice => p.dst.onDevice && Denotes(net, dnsName, p.src.addr)
  }

  /** A DNS-named entry covers a packet: ports ignored, numbered protocols read as any. */
  predicate Covers(net: Network, direction: AclDirection, ace: Ace, p: Packet) {
    && ace.matches.dnsname.Some?
    && Travels(net, direction, ace.matches.dnsname.value, p)
    && (ace.matches.protocol == Some(AceProtocol.Tcp) ==> p.protocol == TCP)
    && (ace.matches.protocol == Some(AceProtocol.Udp) ==> p.protocol == UDP)
  }

  predicate PortCovers(port: Option<AcePort>, number: PortNumber) {
    match port
    case None => true
    case Some(Single(n)) => n == number
    case Some(Range(lower, upper)) => lower <= number <= upper
  }

  /** The finer reading, which also checks protocol numbers and ports. */
  predicate CoversFinely(net: Network, direction: AclDirection, ace: Ace, p: Packet) {
    && Covers(net, direction, ace, p)
    && (match ace.matches.protocol
        case Some(Protocol(n)) => p.protocol == n
        case _ => true)
    && PortCovers(ace.matches.sourcePort, p.srcPort)
    && PortCovers(ace.matches.destinationPort, p.dstPort)
  }

  /** Entry `j` of list `i` is the first, in list order, to cover the packet. */
  ghost predicate FirstCover(net: Network, acls: seq<Acl>, p: Packet, i: nat, j: nat) {
    && i < |acls| && j < |acls[i].ace|
    && Covers(net, acls[i].packetDirection, acls[i].ace[j], p)
    && (forall k :: 0 <= k < j ==> !Covers(net, acls[i].packetDirection, acls[i].ace[k], p))
    && (forall h, k :: 0 <= h < i && 0 <= k < |acls[h].ace| ==>
          !Covers(net, acls[h].packetDirection, acls[h].ace[k], p))
  }

  ghost predicate NoCover(net: Network, acls: seq<Acl>, p: Packet) {
    forall h, k :: 0 <= h < |acls| && 0 <= k < |acls[h].ace| ==>
      !Covers(net, acls[h].packetDirection, acls[h].ace[k], p)
  }

  // ---------------------------------------------------------------- correctness

  lemma RuleMeansEntry(net: Network, direction: AclDirection, ace: Ace, index: nat, p: Packet)
    requires ace.matches.dnsname.Some?
    ensures RuleMatches(net, RuleOf(net.ipText, direction, ace, ace.matches.dnsname.value, index), p) <==>
            Covers(net, direction, ace, p)
  {
  }

  /** The rules of one list give the action of its first covering entry. */
  lemma {:induction false} AceRulesMeaning(net: Network, direction: AclDirection, aces: seq<Ace>, index: nat, p: Packet)
    returns (j: nat)
    ensures j <= |aces| && forall k :: 0 <= k < j ==> !Covers(net, direction, aces[k], p)
    ensures j < |aces| ==> Covers(net, direction, aces[j], p)
    ensures FirstMatch(net, AceRules(net.ipText, direction, aces, index), p) ==
            if j < |aces| then Some(VerdictOf(aces[j].action)) else None
  {
    if aces == [] {
      return 0;
    }
    if aces[0].matches.dnsname.Some? {
      RuleMeansEntry(net, direction, aces[0], index, p);
    }
    var rest := AceRules(net.ipText, direction, aces[1..], index + 1);
    if aces[0].matches.dnsname.Some? {
      FirstMatchConcat(net, [RuleOf(net.ipText, direction, aces[0], aces[0].matches.dnsname.value, index)], rest, p);
    } else {
      assert AceRules(net.ipText, direction, aces, index) == rest;
    }
    if Covers(net, direction, aces[0], p) {
      return 0;
    }
    var tail := AceRulesMeaning(net, direction, aces[1..], index + 1, p);
    j := tail + 1;
  }

  /** Entries of the first list come before all others. */
  lemma FirstListFirst(net: Network, acls: seq<Acl>, p: Packet, j: nat)
    requires acls != [] && j < |acls[0].ace| && Covers(net, acls[0].packetDirection, acls[0].ace[j], p)
    requires forall k :: 0 <= k < j ==> !Covers(net, acls[0].packetDirection, acls[0].ace[k], p)
    ensures FirstCover(net, acls, p, 0, j)
  {
  }

  /** A first list that covers nothing can be passed over. */
  lemma PassOver(net: Network, acls: seq<Acl>, p: Packet, i: nat, j: nat)
    requires acls != [] && forall k :: 0 <= k < |acls[0].ace| ==> !Covers(net, acls[0].packetDirection, acls[0].ace[k], p)
    ensures NoCover(net, acls[1..], p) ==> NoCover(net, acls, p)
    ensures FirstCover(net, acls[1..], p, i, j) ==> FirstCover(net, acls, p, i + 1, j)
  {
    assert forall h :: 0 < h < |acls| ==> acls[h] == acls[1..][h - 1];
  }

  lemma FirstMatchLists(net: Network, acls: seq<Acl>, index: nat, p: Packet)
    requires acls != []
    ensures var head := FirstMatch(net, AceRules(net.ipText, acls[0].packetDirection, acls[0].ace, index), p);
            FirstMatch(net, AclRules(net.ipText, acls, index), p) ==
            if head.Some? then head else FirstMatch(net, AclRules(net.ipText, acls[1..], index + |acls[0].ace|), p)
  {
    FirstMatchConcat(net, AceRules(net.ipText, acls[0].packetDirection, acls[0].ace, index),
                     AclRules(net.ipText, acls[1..], index + |acls[0].ace|), p);
  }

  /** The rules of all lists give the action of the first covering entry of the first covering list. */
  lemma {:induction false} AclRulesMeaning(net: Network, acls: seq<Acl>, index: nat, p: Packet)
    returns (i: nat, j: nat)
    ensures if FirstMatch(net, AclRules(net.ipText, acls, index), p).None? then NoCover(net, acls, p)
            else FirstCover(net, acls, p, i, j) &&
                 FirstMatch(net, AclRules(net.ipText, acls, index), p).value == VerdictOf(acls[i].ace[j].action)
  {
    i, j := 0, 0;
    if acls != [] {
      var acl := acls[0];
      FirstMatchLists(net, acls, index, p);
      j := AceRulesMeaning(net, acl.packetDirection, acl.ace, index, p);
      if j < |acl.ace| {
        FirstListFirst(net, acls, p, j);
      } else {
        i, j := AclRulesMeaning(net, acls[1..], index + |acl.ace|, p);
        PassOver(net, acls, p, i, j);
        i := i + 1;
      }
    }
  }

  lemma DefaultsMeaning(net: Network, index: nat, p: Packet)
    ensures FirstMatch(net, DefaultRules(index), p) ==
            if p.src.onDevice || p.dst.onDevice then Some(Verdict.Reject) else None
  {
    var rules := DefaultRules(index);
    FirstMatchConcat(net, [rules[0]], [rules[1]], p);
    assert rules == [rules[0]] + [rules[1]];
  }

  /** A covered packet has one end on the device. */
  lemma CoverTouchesDevice(net: Network, direction: AclDirection, ace: Ace, p: Packet)
    requires Covers(net, direction, ace, p)
    ensures p.src.onDevice || p.dst.onDevice
  {
  }

  /** The rules decide exactly the packets with an end on the device, by the first covering entry of the merged lists. */
  lemma MergedCorrect(net: Network, data: MudData, p: Packet)
    ensures var verdict := FirstMatch(net, Rules(net.ipText, Some(data)), p);
            var acls := EffectiveAcls(data);
            && (verdict.None? <==> !p.src.onDevice && !p.dst.onDevice)
            && (NoCover(net, acls, p) && verdict.Some? ==> verdict.value == Verdict.Reject)
            && (forall i: nat, j: nat :: FirstCover(net, acls, p, i, j) ==> verdict == Some(VerdictOf(acls[i].ace[j].action)))
            && (NoCover(net, acls, p) || exists i: nat, j: nat :: FirstCover(net, acls, p, i, j))
  {
    var acls := EffectiveAcls(data);
    var rules := AclRules(net.ipText, acls, 0);
    FirstMatchConcat(net, rules, DefaultRules(AceCount(acls)), p);
    DefaultsMeaning(net, AceCount(acls), p);
    var i, j := AclRulesMeaning(net, acls, 0, p);
    if !NoCover(net, acls, p) {
      CoverTouchesDevice(net, acls[i].packetDirection, acls[i].ace[j], p);
    }
    forall i': nat, j': nat | FirstCover(net, acls, p, i', j') ensures i' == i && j' == j {
      FirstCoverUnique(net, acls, p, i, j, i', j');
    }
  }

  // -------------------------------------------- in terms of the profile and its overrides

  /** No override has the name of this list of the profile. */
  predicate Kept(data: MudData, i: nat)
    requires i < |data.acllist|
  {
    forall j :: 0 <= j < |data.aclOverride| ==> data.aclOverride[j].name != data.acllist[i].name
  }

  /** The lists are the profile's kept lists, at these positions and in their order, and then every override. */
  ghost predicate LaidOut(data: MudData, acls: seq<Acl>, positions: seq<nat>) {
    && Increasing(positions, |data.acllist|)
    && (forall i :: 0 <= i < |data.acllist| ==> (i in positions <==> Kept(data, i)))
    && |acls| == |positions| + |data.aclOverride|
    && (forall k :: 0 <= k < |positions| ==> acls[k] == data.acllist[positions[k]])
    && (forall k :: 0 <= k < |data.aclOverride| ==> acls[|positions| + k] == data.aclOverride[k])
  }

  /** Which lists take part, and in which order. */
  lemma EffectiveLayout(data: MudData) returns (positions: seq<nat>)
    ensures LaidOut(data, EffectiveAcls(data), positions)
  {
    positions := MergeLayout(data.acllist, data.aclOverride);
    assert EffectiveAcls(data)[|positions|..] == data.aclOverride;
    forall i | 0 <= i < |data.acllist| ensures i in positions <==> Kept(data, i) {
      assert data.acllist[i].name in Names(data.aclOverride) <==> !Kept(data, i);
    }
  }

  /** Entry `j` of list `i` of the profile is the first in a kept list to cover the packet. */
  ghost predicate FirstKept(net: Network, data: MudData, p: Packet, i: nat, j: nat) {
    && i < |data.acllist| && Kept(data, i) && j < |data.acllist[i].ace|
    && Covers(net, data.acllist[i].packetDirection, data.acllist[i].ace[j], p)
    && (forall k :: 0 <= k < j ==> !Covers(net, data.acllist[i].packetDirection, data.acllist[i].ace[k], p))
    && (forall h, k :: 0 <= h < i && Kept(data, h) && 0 <= k < |data.acllist[h].ace| ==>
          !Covers(net, data.acllist[h].packetDirection, data.acllist[h].ace[k], p))
  }

  ghost predicate NoKept(net: Network, data: MudData, p: Packet) {
    forall h, k :: 0 <= h < |data.acllist| && Kept(data, h) && 0 <= k < |data.acllist[h].ace| ==>
      !Covers(net, data.acllist[h].packetDirection, data.acllist[h].ace[k], p)
  }

  lemma FirstKeptUnique(net: Network, data: MudData, p: Packet, i: nat, j: nat, i': nat, j': nat)
    requires FirstKept(net, data, p, i, j) && FirstKept(net, data, p, i', j')
    ensures i == i' && j == j'
  {
  }

  /** A first cover among the kept lists is the first kept one. */
  lemma CoverInKept(net: Network, data: MudData, acls: seq<Acl>, positions: seq<nat>, p: Packet, a: nat, b: nat)
    requires LaidOut(data, acls, positions) && FirstCover(net, acls, p, a, b) && a < |positions|
    ensures FirstKept(net, data, p, positions[a], b)
  {
    var i := positions[a];
    assert i in positions;
    forall h, k | 0 <= h < i && Kept(data, h) && 0 <= k < |data.acllist[h].ace|
      ensures !Covers(net, data.acllist[h].packetDirection, data.acllist[h].ace[k], p)
    {
      var c :| 0 <= c < |positions| && positions[c] == h;
      assert c < a;
      assert acls[c] == data.acllist[h];
    }
  }

  /** No cover among the first lists means no kept list covers. */
  lemma NoCoverInKept(net: Network, data: MudData, acls: seq<Acl>, positions: seq<nat>, p: Packet)
    requires LaidOut(data, acls, positions)
    requires forall h, k :: 0 <= h < |positions| && 0 <= k < |acls[h].ace| ==>
               !Covers(net, acls[h].packetDirection, acls[h].ace[k], p)
    ensures NoKept(net, data, p)
  {
    forall h, k | 0 <= h < |data.acllist| && Kept(data, h) && 0 <= k < |data.acllist[h].ace|
      ensures !Covers(net, data.acllist[h].packetDirection, data.acllist[h].ace[k], p)
    {
      var c :| 0 <= c < |positions| && positions[c] == h;
      assert acls[c] == data.acllist[h];
    }
  }

  lemma CoverInOverride(net: Network, data: MudData, acls: seq<Acl>, positions: seq<nat>, p: Packet, a: nat, b: nat)
    requires LaidOut(data, acls, positions) && FirstCover(net, acls, p, a, b) && a >= |positions|
    ensures FirstCover(net, data.aclOverride, p, a - |positions|, b)
  {
    var i := a - |positions|;
    assert acls[|positions| + i] == data.aclOverride[i];
    forall h, k | 0 <= h < i && 0 <= k < |data.aclOverride[h].ace|
      ensures !Covers(net, data.aclOverride[h].packetDirection, data.aclOverride[h].ace[k], p)
    {
      assert acls[|positions| + h] == data.aclOverride[h];
    }
  }

  lemma NoCoverInOverride(net: Network, data: MudData, acls: seq<Acl>, positions: seq<nat>, p: Packet)
    requires LaidOut(data, acls, positions) && NoCover(net, acls, p)
    ensures NoCover(net, data.aclOverride, p)
  {
    forall h, k | 0 <= h < |data.aclOverride| && 0 <= k < |data.aclOverride[h].ace|
      ensures !Covers(net, data.aclOverride[h].packetDirection, data.aclOverride[h].ace[k], p)
    {
      assert acls[|positions| + h] == data.aclOverride[h];
    }
  }

  /** The verdict of an entry: accept if and only if the entry does. */
  predicate Decides(verdict: Option<Verdict>, ace: Ace) {
    verdict.Some? && (verdict.value == Verdict.Accept <==> ace.action == AceAction.Accept)
  }

  /** The first cover of lists so laid out, in terms of the profile and its overrides. */
  lemma LaidOutCover(net: Network, data: MudData, acls: seq<Acl>, positions: seq<nat>, p: Packet, a: nat, b: nat)
    returns (kept: bool, i: nat)
    requires LaidOut(data, acls, positions) && FirstCover(net, acls, p, a, b)
    ensures kept ==> FirstKept(net, data, p, i, b) && data.acllist[i] == acls[a]
    ensures !kept ==> NoKept(net, data, p) && FirstCover(net, data.aclOverride, p, i, b) && data.aclOverride[i] == acls[a]
  {
    if a < |positions| {
      CoverInKept(net, data, acls, positions, p, a, b);
      kept, i := true, positions[a];
    } else {
      NoCoverInKept(net, data, acls, positions, p);
      CoverInOverride(net, data, acls, positions, p, a, b);
      kept, i := false, a - |positions|;
      assert acls[|positions| + i] == data.aclOverride[i];
    }
  }

  /** The verdict is that of the first covering entry of the lists, if any. */
  ghost predicate FollowsLists(net: Network, acls: seq<Acl>, p: Packet, verdict: Option<Verdict>) {
    if NoCover(net, acls, p) then verdict != Some(Verdict.Accept)
    else exists i: nat, j: nat :: FirstCover(net, acls, p, i, j) && Decides(verdict, acls[i].ace[j])
  }

  /** The verdict is that of the first covering entry of the profile's kept lists, or else of the overrides, if any. */
  ghost predicate FollowsProfile(net: Network, data: MudData, p: Packet, verdict: Option<Verdict>) {
    || (exists i: nat, j: nat :: FirstKept(net, data, p, i, j) && Decides(verdict, data.acllist[i].ace[j]))
    || (NoKept(net, data, p) && FollowsLists(net, data.aclOverride, p, verdict))
  }

  lemma LaidOutFollows(net: Network, data: MudData, acls: seq<Acl>, positions: seq<nat>, p: Packet, verdict: Option<Verdict>)
    requires LaidOut(data, acls, positions) && FollowsLists(net, acls, p, verdict)
    ensures FollowsProfile(net, data, p, verdict)
  {
    if NoCover(net, acls, p) {
      NoCoverInKept(net, data, acls, positions, p);
      NoCoverInOverride(net, data, acls, positions, p);
    } else {
      var a: nat, b: nat :| FirstCover(net, acls, p, a, b) && Decides(verdict, acls[a].ace[b]);
      var kept, i := LaidOutCover(net, data, acls, positions, p, a, b);
    }
  }

  lemma FollowsIsUnique(net: Network, data: MudData, p: Packet, verdict: Option<Verdict>)
    requires FollowsProfile(net, data, p, verdict)
    ensures forall i: nat, j: nat :: FirstKept(net, data, p, i, j) ==> Decides(verdict, data.acllist[i].ace[j])
    ensures NoKept(net, data, p) ==>
              forall i: nat, j: nat :: FirstCover(net, data.aclOverride, p, i, j) ==>
                Decides(verdict, data.aclOverride[i].ace[j])
  {
    forall i: nat, j: nat | FirstKept(net, data, p, i, j) ensures Decides(verdict, data.acllist[i].ace[j]) {
      var i': nat, j': nat :| FirstKept(net, data, p, i', j') && Decides(verdict, data.acllist[i'].ace[j']);
      FirstKeptUnique(net, data, p, i, j, i', j');
    }
    if NoKept(net, data, p) {
      forall i: nat, j: nat | FirstCover(net, data.aclOverride, p, i, j) ensures Decides(verdict, data.aclOverride[i].ace[j]) {
        var i': nat, j': nat :| FirstCover(net, data.aclOverride, p, i', j') && Decides(verdict, data.aclOverride[i'].ace[j']);
        FirstCoverUnique(net, data.aclOverride, p, i, j, i', j');
      }
    }
  }

  /**
   Compiler correctness, in terms of the profile's own lists and its overrides. The compiled rules
   decide exactly the packets with an end on the device: by the first covering DNS-named entry of the
   lists that no override names, or else of the overrides, and they reject the rest.
   */
  lemma CompilerCorrect(net: Network, data: MudData, p: Packet)
    ensures var verdict := FirstMatch(net, Rules(net.ipText, Some(data)), p);
            && (verdict.None? <==> !p.src.onDevice && !p.dst.onDevice)
            && FollowsProfile(net, data, p, verdict)
            && (forall i: nat, j: nat :: FirstKept(net, data, p, i, j) ==> Decides(verdict, data.acllist[i].ace[j]))
            && (NoKept(net, data, p) ==>
                  forall i: nat, j: nat :: FirstCover(net, data.aclOverride, p, i, j) ==>
                    Decides(verdict, data.aclOverride[i].ace[j]))
  {
    var verdict := FirstMatch(net, Rules(net.ipText, Some(data)), p);
    var positions := EffectiveLayout(data);
    MergedCorrect(net, data, p);
    assert FollowsLists(net, EffectiveAcls(data), p, verdict);
    LaidOutFollows(net, data, EffectiveAcls(data), positions, p, verdict);
    FollowsIsUnique(net, data, p, verdict);
  }

  lemma FirstCoverUnique(net: Network, acls: seq<Acl>, p: Packet, i: nat, j: nat, i': nat, j': nat)
    requires FirstCover(net, acls, p, i, j) && FirstCover(net, acls, p, i', j')
    ensures i == i' && j == j'
  {
  }

  ghost predicate AcceptOnly(acls: seq<Acl>) {
    forall i, j :: 0 <= i < |acls| && 0 <= j < |acls[i].ace| ==> acls[i].ace[j].action == AceAction.Accept
  }

  /** With only accepting entries, nothing an entry accepts under the finer reading is ever rejected. */
  lemma AcceptOnlyComplete(net: Network, data: MudData, p: Packet, i: nat, j: nat)
    requires AcceptOnly(EffectiveAcls(data))
    requires i < |EffectiveAcls(data)| && j < |EffectiveAcls(data)[i].ace|
    requires CoversFinely(net, EffectiveAcls(data)[i].packetDirection, EffectiveAcls(data)[i].ace[j], p)
    ensures FirstMatch(net, Rules(net.ipText, Some(data)), p) == Some(Verdict.Accept)
  {
    MergedCorrect(net, data, p);
    assert !NoCover(net, EffectiveAcls(data), p);
    var h: nat, k: nat :| FirstCover(net, EffectiveAcls(data), p, h, k);
  }

  /** Entry `j` of list `i` is the first to cover the packet under the finer reading. */
  ghost predicate FirstFineCover(net: Network, acls: seq<Acl>, p: Packet, i: nat, j: nat) {
    && i < |acls| && j < |acls[i].ace|
    && CoversFinely(net, acls[i].packetDirection, acls[i].ace[j], p)
    && (forall k :: 0 <= k < j ==> !CoversFinely(net, acls[i].packetDirection, acls[i].ace[k], p))
    && (forall h, k :: 0 <= h < i && 0 <= k < |acls[h].ace| ==>
          !CoversFinely(net, acls[h].packetDirection, acls[h].ace[k], p))
  }

  /** First-match over the entries themselves, protocol numbers and ports included, accepts the packet. */
  ghost predicate FinelyAccepted(net: Network, acls: seq<Acl>, p: Packet) {
    exists i: nat, j: nat :: FirstFineCover(net, acls, p, i, j) && acls[i].ace[j].action == AceAction.Accept
  }

  /** The port condition leaves some port out. */
  predicate NarrowsPort(port: Option<AcePort>) {
    match port
    case None => false
    case Some(Single(_)) => true
    case Some(Range(lower, upper)) => lower > 0 || upper < 0xFFFF
  }

  /** The entry narrows the protocol number or a port, which its rule forgets. */
  predicate LosesDetail(ace: Ace) {
    || (ace.matches.protocol.Some? && ace.matches.protocol.value.Protocol?)
    || NarrowsPort(ace.matches.sourcePort) || NarrowsPort(ace.matches.destinationPort)
  }

  /** An entry that loses no detail covers the same packets under both readings. */
  lemma ExactEntry(net: Network, direction: AclDirection, ace: Ace, p: Packet)
    requires !LosesDetail(ace)
    ensures CoversFinely(net, direction, ace, p) <==> Covers(net, direction, ace, p)
  {
  }

  /** No DNS-named denial loses detail; accepting entries may. */
  ghost predicate DenialsExact(acls: seq<Acl>) {
    forall i, j :: 0 <= i < |acls| && 0 <= j < |acls[i].ace| ==> DenialExact(acls[i].ace[j])
  }

  predicate DenialExact(ace: Ace) {
    ace.action == AceAction.Deny && ace.matches.dnsname.Some? ==> !LosesDetail(ace)
  }

  /** With exact denials, what first-match over the entries accepts in full detail the rules accept as well. */
  lemma ExactDenialsComplete(net: Network, data: MudData, p: Packet)
    requires DenialsExact(EffectiveAcls(data)) && FinelyAccepted(net, EffectiveAcls(data), p)
    ensures FirstMatch(net, Rules(net.ipText, Some(data)), p) == Some(Verdict.Accept)
  {
    var acls := EffectiveAcls(data);
    MergedCorrect(net, data, p);
    var i: nat, j: nat :| FirstFineCover(net, acls, p, i, j) && acls[i].ace[j].action == AceAction.Accept;
    assert !NoCover(net, acls, p);
    var h: nat, k: nat :| FirstCover(net, acls, p, h, k);
    FirstCoverAccepts(net, acls, p, i, j, h, k);
  }

  /** An exact denial that covers a packet covers it in detail, so it cannot come before the accepting entry. */
  lemma FirstCoverAccepts(net: Network, acls: seq<Acl>, p: Packet, i: nat, j: nat, h: nat, k: nat)
    requires FirstFineCover(net, acls, p, i, j) && acls[i].ace[j].action == AceAction.Accept
    requires FirstCover(net, acls, p, h, k) && DenialExact(acls[h].ace[k])
    ensures acls[h].ace[k].action == AceAction.Accept
  {
    if acls[h].ace[k].action == AceAction.Deny {
      ExactEntry(net, acls[h].packetDirection, acls[h].ace[k], p);
    }
  }

  /** No DNS-named accepting entry loses detail; denials may. */
  ghost predicate AcceptancesExact(acls: seq<Acl>) {
    forall i, j :: 0 <= i < |acls| && 0 <= j < |acls[i].ace| ==> AcceptanceExact(acls[i].ace[j])
  }

  predicate AcceptanceExact(ace: Ace) {
    ace.action == AceAction.Accept && ace.matches.dnsname.Some? ==> !LosesDetail(ace)
  }

  /** The first entry to cover a packet is the first in detail if it covers it in detail, for the others cover it in neither way. */
  lemma FirstCoverInDetail(net: Network, acls: seq<Acl>, p: Packet, i: nat, j: nat)
    requires FirstCover(net, acls, p, i, j) && CoversFinely(net, acls[i].packetDirection, acls[i].ace[j], p)
    ensures FirstFineCover(net, acls, p, i, j)
  {
  }

  /** With exact acceptances, the rules accept nothing that first-match over the entries in full detail does not. */
  lemma ExactAcceptancesSound(net: Network, data: MudData, p: Packet)
    requires AcceptancesExact(EffectiveAcls(data))
    requires FirstMatch(net, Rules(net.ipText, Some(data)), p) == Some(Verdict.Accept)
    ensures FinelyAccepted(net, EffectiveAcls(data), p)
  {
    var acls := EffectiveAcls(data);
    MergedCorrect(net, data, p);
    var i: nat, j: nat :| FirstCover(net, acls, p, i, j);
    assert AcceptanceExact(acls[i].ace[j]);
    ExactEntry(net, acls[i].packetDirection, acls[i].ace[j], p);
    FirstCoverInDetail(net, acls, p, i, j);
  }

  /** When no entry loses detail, both readings accept the same packets. */
  lemma ExactProfileAgrees(net: Network, data: MudData, p: Packet)
    requires DenialsExact(EffectiveAcls(data)) && AcceptancesExact(EffectiveAcls(data))
    ensures FirstMatch(net, Rules(net.ipText, Some(data)), p) == Some(Verdict.Accept) <==>
            FinelyAccepted(net, EffectiveAcls(data), p)
  {
    if FinelyAccepted(net, EffectiveAcls(data), p) {
      ExactDenialsComplete(net, data, p);
    }
    if FirstMatch(net, Rules(net.ipText, Some(data)), p) == Some(Verdict.Accept) {
      ExactAcceptancesSound(net, data, p);
    }
  }

  /** A packet the entry covers but not in detail, on some network. */
  lemma DetailMatters(ipText: IpText, direction: AclDirection, ace: Ace) returns (net: Network, p: Packet)
    requires ace.matches.dnsname.Some? && LosesDetail(ace)
    ensures net.ipText == ipText && Covers(net, direction, ace, p) && !CoversFinely(net, direction, ace, p)
  {
    net := Network(ipText, (name: string, addr: IpAddr) => true);
    var addr := if ipText(ace.matches.dnsname.value).Some? then ipText(ace.matches.dnsname.value).value else V4(0);
    var protocol: ProtocolNumber := match ace.matches.protocol
      case None => 0
      case Some(Tcp) => TCP
      case Some(Udp) => UDP
      case Some(Protocol(n)) => if n == 0 then 1 else 0;
    p := Packet(Endpoint(true, addr), Endpoint(true, addr), protocol,
                PortOutside(ace.matches.sourcePort), PortOutside(ace.matches.destinationPort));
  }

  function PortOutside(port: Option<AcePort>): (n: PortNumber)
    ensures NarrowsPort(port) ==> !PortCovers(port, n)
  {
    match port
    case None => 0
    case Some(Single(n)) => if n == 0 then 1 else 0
    case Some(Range(lower, upper)) => if lower == 0 && upper < 0xFFFF then upper + 1 else 0
  }

  /** A profile of one list with two entries and no overrides. */
  function TwoEntries(data: MudData, acl: Acl, first: Ace, second: Ace): MudData {
    data.(acllist := [acl.(ace := [first, second])], aclOverride := [])
  }

  /**
   A denial may precede any entry without losing accepted packets if and only if it narrows neither
   the protocol number nor a port.
   */
  lemma DenialSafeIff(ipText: IpText, data: MudData, acl: Acl, denial: Ace)
    requires denial.action == AceAction.Deny && denial.matches.dnsname.Some?
    ensures !LosesDetail(denial) <==>
            forall net: Network, p: Packet, second: Ace ::
              net.ipText == ipText && FinelyAccepted(net, [acl.(ace := [denial, second])], p) ==>
                FirstMatch(net, Rules(ipText, Some(TwoEntries(data, acl, denial, second))), p) == Some(Verdict.Accept)
  {
    if LosesDetail(denial) {
      var net, p := DetailMatters(ipText, acl.packetDirection, denial);
      DenialShadows(net, data, acl, denial, p);
    } else {
      forall net: Network, p: Packet, second: Ace
        | net.ipText == ipText && FinelyAccepted(net, [acl.(ace := [denial, second])], p)
        ensures FirstMatch(net, Rules(ipText, Some(TwoEntries(data, acl, denial, second))), p) == Some(Verdict.Accept)
      {
        MergeIdentity([acl.(ace := [denial, second])]);
        ExactDenialsComplete(net, TwoEntries(data, acl, denial, second), p);
      }
    }
  }

  /** A profile of one list with one entry and no overrides. */
  function OneEntry(data: MudData, acl: Acl, ace: Ace): MudData {
    data.(acllist := [acl.(ace := [ace])], aclOverride := [])
  }

  /**
   An accepting entry lets through only what it says, on every network, if and only if it narrows
   neither the protocol number nor a port.
   */
  lemma AcceptanceSafeIff(ipText: IpText, data: MudData, acl: Acl, ace: Ace)
    requires ace.action == AceAction.Accept && ace.matches.dnsname.Some?
    ensures !LosesDetail(ace) <==>
            forall net: Network, p: Packet ::
              net.ipText == ipText && FirstMatch(net, Rules(ipText, Some(OneEntry(data, acl, ace))), p) == Some(Verdict.Accept)
              ==> FinelyAccepted(net, [acl.(ace := [ace])], p)
  {
    var acls := [acl.(ace := [ace])];
    MergeIdentity(acls);
    if LosesDetail(ace) {
      var net, p := DetailMatters(ipText, acl.packetDirection, ace);
      MergedCorrect(net, OneEntry(data, acl, ace), p);
      assert FirstCover(net, acls, p, 0, 0);
      assert !FinelyAccepted(net, acls, p);
    } else {
      forall net: Network, p: Packet
        | net.ipText == ipText && FirstMatch(net, Rules(ipText, Some(OneEntry(data, acl, ace))), p) == Some(Verdict.Accept)
        ensures FinelyAccepted(net, acls, p)
      {
        ExactAcceptancesSound(net, OneEntry(data, acl, ace), p);
      }
    }
  }

  /** The same entry, accepting and without protocol and ports. */
  function Opened(ace: Ace): Ace {
    ace.(action := AceAction.Accept,
         matches := ace.matches.(protocol := None, sourcePort := None, destinationPort := None))
  }

  /** A packet that the denial covers only without its detail is rejected, though the next entry accepts it. */
  lemma DenialShadows(net: Network, data: MudData, acl: Acl, denial: Ace, p: Packet)
    requires denial.action == AceAction.Deny
    requires Covers(net, acl.packetDirection, denial, p) && !CoversFinely(net, acl.packetDirection, denial, p)
    ensures FinelyAccepted(net, [acl.(ace := [denial, Opened(denial)])], p)
    ensures FirstMatch(net, Rules(net.ipText, Some(TwoEntries(data, acl, denial, Opened(denial)))), p)
         == Some(Verdict.Reject)
  {
    var acls := [acl.(ace := [denial, Opened(denial)])];
    assert FirstFineCover(net, acls, p, 0, 1);
    MergeIdentity(acls);
    MergedCorrect(net, TwoEntries(data, acl, denial, Opened(denial)), p);
    assert FirstCover(net, acls, p, 0, 0);
  }

  // ---------------------------------------------------------------- rule names

  /** The running number behind each compiled rule, in rule order. */
  function AceNumbers(aces: seq<Ace>, index: nat): seq<nat> {
    if aces == [] then []
    else (if aces[0].matches.dnsname.Some? then [index] else []) + AceNumbers(aces[1..], index + 1)
  }

  function AclNumbers(acls: seq<Acl>, index: nat): seq<nat> {
    if acls == [] then [] else AceNumbers(acls[0].ace, index) + AclNumbers(acls[1..], index + |acls[0].ace|)
  }

  ghost predicate Numbered(rules: seq<FirewallRule>, numbers: seq<nat>, lo: nat, hi: nat) {
    && |rules| == |numbers|
    && (forall k :: 0 <= k < |rules| ==> rules[k].name == RuleName(numbers[k]))
    && (forall k :: 0 <= k < |numbers| ==> lo <= numbers[k] < hi)
    && (forall k, l :: 0 <= k < l < |numbers| ==> numbers[k] < numbers[l])
  }

  lemma {:induction false} AceRulesNumbered(ipText: IpText, direction: AclDirection, aces: seq<Ace>, index: nat)
    ensures Numbered(AceRules(ipText, direction, aces, index), AceNumbers(aces, index), index, index + |aces|)
  {
    if aces != [] {
      AceRulesNumbered(ipText, direction, aces[1..], index + 1);
    }
  }

  lemma {:induction false} AclRulesNumbered(ipText: IpText, acls: seq<Acl>, index: nat)
    ensures Numbered(AclRules(ipText, acls, index), AclNumbers(acls, index), index, index + AceCount(acls))
  {
    if acls != [] {
      AceRulesNumbered(ipText, acls[0].packetDirection, acls[0].ace, index);
      AclRulesNumbered(ipText, acls[1..], index + |acls[0].ace|);
    }
  }

  lemma RuleNamesDiffer(m: nat, n: nat)
    ensures RuleName(m) != DefaultName(n)
    ensures RuleName(m) == RuleName(n) ==> m == n
    ensures DefaultName(m) == DefaultName(n) ==> m == n
  {
    assert Decimal.IsDigit(RuleName(m)[5]) && DefaultName(n)[5] == 'd';
    assert RuleName(m)[5..] == Decimal.Print(m) && RuleName(n)[5..] == Decimal.Print(n);
    assert DefaultName(m)[13..] == Decimal.Print(m) && DefaultName(n)[13..] == Decimal.Print(n);
    if Decimal.Print(m) == Decimal.Print(n) {
      Decimal.PrintInjective(m, n);
    }
  }

  lemma NumberedDistinct(rules: seq<FirewallRule>, numbers: seq<nat>, hi: nat, k: nat, l: nat)
    requires Numbered(rules, numbers, 0, hi)
    requires k < l < |rules| + 2
    ensures (rules + DefaultRules(hi))[k].name != (rules + DefaultRules(hi))[l].name
  {
    if l < |rules| {
      RuleNamesDiffer(numbers[k], numbers[l]);
    } else if k < |rules| {
      RuleNamesDiffer(numbers[k], hi + (l - |rules|));
    } else {
      RuleNamesDiffer(hi, hi + 1);
    }
  }

  /** No two rules of a device share a name. */
  lemma RuleNamesDistinct(ipText: IpText, mudData: Option<MudData>, k: nat, l: nat)
    requires k < l < |Rules(ipText, mudData)|
    ensures Rules(ipText, mudData)[k].name != Rules(ipText, mudData)[l].name
  {
    var acls := EffectiveAcls(mudData.value);
    AclRulesNumbered(ipText, acls, 0);
    NumberedDistinct(AclRules(ipText, acls, 0), AclNumbers(acls, 0), AceCount(acls), k, l);
  }
}
