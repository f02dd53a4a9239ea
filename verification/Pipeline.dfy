/** Parser and compiler together: what a fetched profile without overrides can and cannot express. */
module Pipeline {
  import opened Prelude
  import opened Models
  import opened MudJson
  import opened MudParser
  import Firewall

  /** No DNS-named entry carries a Tcp or Udp marker. */
  ghost predicate TransportFree(acls: seq<Acl>) {
    forall i, j :: 0 <= i < |acls| && 0 <= j < |acls[i].ace| ==> TransportFreeAce(acls[i].ace[j])
  }

  predicate TransportFreeAce(ace: Ace) {
    ace.matches.dnsname.Some? ==> ace.matches.protocol.None? || ace.matches.protocol.value.Protocol?
  }

  ghost predicate AllProtocols(rules: seq<Firewall.FirewallRule>) {
    forall k :: 0 <= k < |rules| ==> rules[k].protocol == Firewall.RuleProtocol.All
  }

  lemma {:induction false} AceRulesAllProtocols(ipText: Firewall.IpText, direction: AclDirection, aces: seq<Ace>, index: nat)
    requires forall j :: 0 <= j < |aces| ==> TransportFreeAce(aces[j])
    ensures AllProtocols(Firewall.AceRules(ipText, direction, aces, index))
  {
    if aces != [] {
      AceRulesAllProtocols(ipText, direction, aces[1..], index + 1);
    }
  }

  lemma {:induction false} AclRulesAllProtocols(ipText: Firewall.IpText, acls: seq<Acl>, index: nat)
    requires TransportFree(acls)
    ensures AllProtocols(Firewall.AclRules(ipText, acls, index))
  {
    if acls != [] {
      AceRulesAllProtocols(ipText, acls[0].packetDirection, acls[0].ace, index);
      assert forall i :: 0 < i < |acls| ==> acls[i] == acls[1..][i - 1];
      AclRulesAllProtocols(ipText, acls[1..], index + |acls[0].ace|);
    }
  }

  lemma ParsedTransportFree(addressText: AddressText, url: string, file: MudFile, now: Instant)
    requires Parsed(addressText, url, file, now).Success?
    ensures TransportFree(Parsed(addressText, url, file, now).value.acllist)
  {
    var acls := Parsed(addressText, url, file, now).value.acllist;
    var names := file.mud.fromDevicePolicy + file.mud.toDevicePolicy;
    NoProblemResolvable(file.acls, file.mud.fromDevicePolicy);
    NoProblemResolvable(file.acls, file.mud.toDevicePolicy);
    forall i, j | 0 <= i < |acls| && 0 <= j < |acls[i].ace| ensures TransportFreeAce(acls[i].ace[j]) {
      var first := FirstNamed(file.acls, names[i]).value;
      assert acls[i].ace[j] == Translate(addressText, first.aces[j]);
      if acls[i].ace[j].matches.dnsname.Some? {
        NamedEntriesHaveNoTransport(addressText, first.aces[j]);
      }
    }
  }

  /** Every rule compiled from a parsed profile without overrides is for all protocols. */
  lemma ParsedRulesAllProtocols(addressText: AddressText, ipText: Firewall.IpText, url: string, file: MudFile, now: Instant)
    requires Parsed(addressText, url, file, now).Success?
    ensures AllProtocols(Firewall.Rules(ipText, Some(Parsed(addressText, url, file, now).value)))
  {
    var data := Parsed(addressText, url, file, now).value;
    ParsedTransportFree(addressText, url, file, now);
    Firewall.MergeIdentity(data.acllist);
    AclRulesAllProtocols(ipText, data.acllist, 0);
  }

  lemma {:induction false} SameEndsSameVerdict(net: Firewall.Network, rules: seq<Firewall.FirewallRule>,
                                              p: Firewall.Packet, q: Firewall.Packet)
    requires AllProtocols(rules) && p.src == q.src && p.dst == q.dst
    ensures Firewall.FirstMatch(net, rules, p) == Firewall.FirstMatch(net, rules, q)
  {
    if rules != [] {
      SameEndsSameVerdict(net, rules[1..], p, q);
    }
  }

  /** So the enforcer treats two packets alike as soon as their ends agree, whatever protocol and ports the file names. */
  lemma ParsedProfileIgnoresTransport(addressText: AddressText, net: Firewall.Network, url: string, file: MudFile,
                                      now: Instant, p: Firewall.Packet, q: Firewall.Packet)
    requires Parsed(addressText, url, file, now).Success?
    requires p.src == q.src && p.dst == q.dst
    ensures var rules := Firewall.Rules(net.ipText, Some(Parsed(addressText, url, file, now).value));
            Firewall.FirstMatch(net, rules, p) == Firewall.FirstMatch(net, rules, q)
  {
    ParsedRulesAllProtocols(addressText, net.ipText, url, file, now);
    SameEndsSameVerdict(net, Firewall.Rules(net.ipText, Some(Parsed(addressText, url, file, now).value)), p, q);
  }

  // ---------------------------------------------------------------- from the file to the verdict

  /** The host an entry of a file names: the destination's name before the source's, IPv6 before IPv4. */
  function NamedHost(item: JsonAce): Option<string> {
    var m := item.matches;
    if m.ipv6.Some? then (if m.ipv6.value.dstDnsname.Some? then m.ipv6.value.dstDnsname else m.ipv6.value.srcDnsname)
    else if m.ipv4.Some? then (if m.ipv4.value.dstDnsname.Some? then m.ipv4.value.dstDnsname else m.ipv4.value.srcDnsname)
    else None
  }

  /** An entry of a file covers the packets between the device and the host it names, in the policy's direction. */
  predicate FileCovers(net: Firewall.Network, direction: AclDirection, item: JsonAce, p: Firewall.Packet) {
    NamedHost(item).Some? && Firewall.Travels(net, direction, NamedHost(item).value, p)
  }

  lemma SaysCovers(net: Firewall.Network, addressText: AddressText, direction: AclDirection, item: JsonAce, ace: Ace,
                   p: Firewall.Packet)
    requires Says(addressText, item, ace)
    ensures Firewall.Covers(net, direction, ace, p) <==> FileCovers(net, direction, item, p)
  {
  }

  function References(file: MudFile): seq<string> {
    file.mud.fromDevicePolicy + file.mud.toDevicePolicy
  }

  function DirectionOf(file: MudFile, k: nat): AclDirection {
    if k < |file.mud.fromDevicePolicy| then FromDevice else ToDevice
  }

  /** Entry `e` of the list that reference `k` means covers the packet. */
  ghost predicate EntryCovers(net: Firewall.Network, file: MudFile, p: Firewall.Packet, k: nat, e: nat) {
    && k < |References(file)|
    && exists i: nat ::
         && IsFirst(file.acls, References(file)[k], i) && e < |file.acls[i].aces|
         && FileCovers(net, DirectionOf(file, k), file.acls[i].aces[e], p)
  }

  /** ... and is the first to do so, reference by reference. */
  ghost predicate FirstInFile(net: Firewall.Network, file: MudFile, p: Firewall.Packet, k: nat, e: nat) {
    && EntryCovers(net, file, p, k, e)
    && (forall d: nat :: d < e ==> !EntryCovers(net, file, p, k, d))
    && (forall h: nat, d: nat :: h < k ==> !EntryCovers(net, file, p, h, d))
  }

  /** The parsed lists, reference by reference, as `ParsedLists` gives them. */
  lemma ParsedEntryCovers(addressText: AddressText, net: Firewall.Network, url: string, file: MudFile, now: Instant,
                          p: Firewall.Packet, k: nat, e: nat)
    requires Parsed(addressText, url, file, now).Success?
    ensures var acls := Parsed(addressText, url, file, now).value.acllist;
            && |acls| == |References(file)|
            && (EntryCovers(net, file, p, k, e) <==>
                k < |acls| && e < |acls[k].ace| && Firewall.Covers(net, acls[k].packetDirection, acls[k].ace[e], p))
  {
    var acls := Parsed(addressText, url, file, now).value.acllist;
    ParsedHeader(addressText, url, file, now);
    if k < |References(file)| {
      var i := ReferenceExists(addressText, url, file, now, k);
      ParsedLists(addressText, url, file, now, k, i);
      if e < |acls[k].ace| {
        SaysCovers(net, addressText, DirectionOf(file, k), file.acls[i].aces[e], acls[k].ace[e], p);
      }
      forall i': nat | IsFirst(file.acls, References(file)[k], i') ensures i' == i {
        FirstIsUnique(file.acls, References(file)[k], i, i');
      }
    }
  }

  lemma FirstIsUnique(acls: seq<JsonAcl>, name: string, i: nat, j: nat)
    requires IsFirst(acls, name, i) && IsFirst(acls, name, j)
    ensures i == j
  {
  }

  /** The first entry of the file to cover a packet is the first of the profile. */
  lemma FirstInProfile(addressText: AddressText, net: Firewall.Network, url: string, file: MudFile, now: Instant,
                       p: Firewall.Packet, k: nat, e: nat)
    requires Parsed(addressText, url, file, now).Success?
    ensures FirstInFile(net, file, p, k, e) <==>
            Firewall.FirstKept(net, Parsed(addressText, url, file, now).value, p, k, e)
  {
    var data := Parsed(addressText, url, file, now).value;
    ParsedHeader(addressText, url, file, now);
    forall h: nat, d: nat
      ensures EntryCovers(net, file, p, h, d) <==>
              h < |data.acllist| && d < |data.acllist[h].ace|
              && Firewall.Covers(net, data.acllist[h].packetDirection, data.acllist[h].ace[d], p)
    {
      ParsedEntryCovers(addressText, net, url, file, now, p, h, d);
    }
  }

  /** Whether the entry of the file accepts. */
  ghost predicate FileAccepts(file: MudFile, k: nat, e: nat)
    requires k < |References(file)|
  {
    exists i: nat ::
      && IsFirst(file.acls, References(file)[k], i) && e < |file.acls[i].aces|
      && file.acls[i].aces[e].forwarding == "accept"
  }

  lemma FileAction(addressText: AddressText, url: string, file: MudFile, now: Instant, k: nat, e: nat)
    requires Parsed(addressText, url, file, now).Success? && k < |References(file)|
    requires var acls := Parsed(addressText, url, file, now).value.acllist; k < |acls| && e < |acls[k].ace|
    ensures FileAccepts(file, k, e) <==>
            Parsed(addressText, url, file, now).value.acllist[k].ace[e].action == AceAction.Accept
  {
    var i := ReferenceExists(addressText, url, file, now, k);
    ParsedLists(addressText, url, file, now, k, i);
    forall i': nat | IsFirst(file.acls, References(file)[k], i') ensures i' == i {
      FirstIsUnique(file.acls, References(file)[k], i, i');
    }
  }

  /**
   From the file to the verdict: the rules compiled from a parsed file without overrides accept a
   packet if and only if the first entry to cover it, going through the references of the from-policy
   and then of the to-policy, says "accept".
   */
  lemma FileDecides(addressText: AddressText, net: Firewall.Network, url: string, file: MudFile, now: Instant,
                    p: Firewall.Packet)
    requires Parsed(addressText, url, file, now).Success?
    ensures var verdict := Firewall.FirstMatch(net, Firewall.Rules(net.ipText, Some(Parsed(addressText, url, file, now).value)), p);
            && (verdict.None? <==> !p.src.onDevice && !p.dst.onDevice)
            && (verdict == Some(Firewall.Verdict.Accept) <==>
                exists k: nat, e: nat :: FirstInFile(net, file, p, k, e) && FileAccepts(file, k, e))
  {
    var data := Parsed(addressText, url, file, now).value;
    var verdict := Firewall.FirstMatch(net, Firewall.Rules(net.ipText, Some(data)), p);
    ParsedHeader(addressText, url, file, now);
    Firewall.CompilerCorrect(net, data, p);
    forall k: nat, e: nat ensures FirstInFile(net, file, p, k, e) <==> Firewall.FirstKept(net, data, p, k, e) {
      FirstInProfile(addressText, net, url, file, now, p, k, e);
    }
    forall k: nat, e: nat | Firewall.FirstKept(net, data, p, k, e)
      ensures k < |References(file)| && (FileAccepts(file, k, e) <==> verdict == Some(Firewall.Verdict.Accept))
    {
      FileAction(addressText, url, file, now, k, e);
      assert Firewall.Decides(verdict, data.acllist[k].ace[e]);
    }
  }
}
