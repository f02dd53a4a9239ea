/**
 The MUD policy parser: a decoded file becomes a profile. Each ACL name a policy mentions is
 resolved to the first ACL of that name; the from-device policy is read before the to-device policy.
 */
module MudParser {
  import opened Prelude
  import opened Models
  import opened MudJson

  datatype ParseError =
    | UnsupportedVersion
    | InvalidCacheValidity
    | InvalidDirection
    | Ipv6InIpv4Acl
    | Ipv4InIpv6Acl
    | DanglingAcl

  /** Reads an address and prints it again; `None` when the text is no address. */
  type AddressText = string -> Option<string>

  const DEFAULT_VALIDITY: int := 48
  const MIN_VALIDITY: int := 1
  const MAX_VALIDITY: int := 168

  // ---------------------------------------------------------------- single entries

  function OrElse<T>(first: Option<T>, second: Option<T>): Option<T> {
    if first.Some? then first else second
  }

  /** `parse_mud_port(..).ok()`: an `eq` port, or a range without operator. */
  function ParsePort(port: Option<Port>): Option<AcePort> {
    match port
    case None => None
    case Some(p) =>
      if p.port.Some? then (if p.operator == Some("eq") then Some(Single(p.port.value)) else None)
      else if p.upperPort.Some? && p.lowerPort.Some? then
        (if p.operator == None then Some(Range(p.lowerPort.value, p.upperPort.value)) else None)
      else None
  }

  function AclTypeOf(typeField: string): AclType {
    if typeField == "ipv4-acl-type" then IPV4 else IPV6
  }

  function ParseDirection(text: string): Option<AclDirection> {
    if text == "from-device" then Some(FromDevice)
    else if text == "to-device" then Some(ToDevice)
    else None
  }

  /** The TCP direction text that is looked at: none when a UDP match is present. */
  function DirectionText(m: Matches): Option<string> {
    if m.udp.Some? || m.tcp.None? then None else m.tcp.value.directionInitiated
  }

  /** The IP match that is looked at: IPv6 before IPv4. */
  function IpMatch(m: Matches): Option<Ip> {
    OrElse(m.ipv6, m.ipv4)
  }

  /** What is wrong with an entry of a list of the given family, in the order the parser notices it. */
  function AceProblem(aclType: AclType, ace: JsonAce): Option<ParseError> {
    var m := ace.matches;
    if DirectionText(m).Some? && ParseDirection(DirectionText(m).value).None? then Some(InvalidDirection)
    else if m.ipv6.Some? then (if aclType != IPV6 then Some(Ipv6InIpv4Acl) else None)
    else if m.ipv4.Some? && aclType != IPV4 then Some(Ipv4InIpv6Acl)
    else None
  }

  function Translate(addressText: AddressText, ace: JsonAce): Ace {
    var m := ace.matches;
    var ip := IpMatch(m);
    var ports := if m.udp.Some? then (m.udp.value.sourcePort, m.udp.value.destinationPort)
                 else if m.tcp.Some? then (m.tcp.value.sourcePort, m.tcp.value.destinationPort)
                 else (None, None);
    Ace(ace.name,
        if ace.forwarding == "accept" then Accept else Deny,
        AceMatches(
          if ip.Some? then (if ip.value.protocol.Some? then Some(Protocol(ip.value.protocol.value)) else None)
          else if m.udp.Some? then Some(AceProtocol.Udp)
          else if m.tcp.Some? then Some(AceProtocol.Tcp)
          else None,
          if DirectionText(m).Some? then ParseDirection(DirectionText(m).value) else None,
          if ip.None? then None
          else match OrElse(ip.value.sourceNetwork, ip.value.destinationNetwork)
               case None => None
               case Some(text) => addressText(text),
          if ip.None? then None else OrElse(ip.value.dstDnsname, ip.value.srcDnsname),
          ParsePort(ports.0),
          ParsePort(ports.1)))
  }

  // ---------------------------------------------------------------- lists and policies

  function AcesProblem(aclType: AclType, aces: seq<JsonAce>): Option<ParseError> {
    if aces == [] then None
    else OrElse(AceProblem(aclType, aces[0]), AcesProblem(aclType, aces[1..]))
  }

  /** The first ACL of a name; later ones are never looked at. */
  function FirstNamed(acls: seq<JsonAcl>, name: string): (r: Option<JsonAcl>)
    ensures r.Some? ==> r.value in acls && r.value.name == name
    ensures r.None? ==> forall a :: a in acls ==> a.name != name
  {
    if acls == [] then None
    else if acls[0].name == name then Some(acls[0])
    else FirstNamed(acls[1..], name)
  }

  function RefProblem(acls: seq<JsonAcl>, name: string): Option<ParseError> {
    match FirstNamed(acls, name)
    case None => Some(DanglingAcl)
    case Some(acl) => AcesProblem(AclTypeOf(acl.typeField), acl.aces)
  }

  function RefsProblem(acls: seq<JsonAcl>, names: seq<string>): Option<ParseError> {
    if names == [] then None
    else OrElse(RefProblem(acls, names[0]), RefsProblem(acls, names[1..]))
  }

  function Validity(mud: MudDefinition): int {
    if mud.cacheValidity.Some? then mud.cacheValidity.value else DEFAULT_VALIDITY
  }

  /** The first problem of the whole file, in reading order. */
  function FileProblem(file: MudFile): Option<ParseError> {
    if file.mud.mudVersion != 1 then Some(UnsupportedVersion)
    else if !(MIN_VALIDITY <= Validity(file.mud) <= MAX_VALIDITY) then Some(InvalidCacheValidity)
    else OrElse(RefsProblem(file.acls, file.mud.fromDevicePolicy), RefsProblem(file.acls, file.mud.toDevicePolicy))
  }

  function TranslateAces(addressText: AddressText, aces: seq<JsonAce>): seq<Ace> {
    seq(|aces|, i requires 0 <= i < |aces| => Translate(addressText, aces[i]))
  }

  predicate Resolvable(acls: seq<JsonAcl>, names: seq<string>) {
    forall i :: 0 <= i < |names| ==> FirstNamed(acls, names[i]).Some?
  }

  function Resolve(addressText: AddressText, acls: seq<JsonAcl>, name: string, direction: AclDirection): Acl
    requires FirstNamed(acls, name).Some?
  {
    var acl := FirstNamed(acls, name).value;
    Acl(name, direction, AclTypeOf(acl.typeField), TranslateAces(addressText, acl.aces))
  }

  /** Every reference of a policy, in order, each resolved to its first match. */
  function ResolveAll(addressText: AddressText, acls: seq<JsonAcl>, names: seq<string>, direction: AclDirection): seq<Acl>
    requires Resolvable(acls, names)
  {
    seq(|names|, i requires 0 <= i < |names| => Resolve(addressText, acls, names[i], direction))
  }

  function MasaUrl(mud: MudDefinition): Option<string> {
    if mud.extensions.Some? && "masa" in mud.extensions.value then mud.masaServer else None
  }

  function ProfileOf(addressText: AddressText, url: string, file: MudFile, now: Instant): MudData
    requires Resolvable(file.acls, file.mud.fromDevicePolicy) && Resolvable(file.acls, file.mud.toDevicePolicy)
  {
    MudData(url, MasaUrl(file.mud), file.mud.lastUpdate, file.mud.systeminfo, file.mud.mfgName,
            file.mud.modelName, file.mud.documentation,
            now + Validity(file.mud) * HOUR,
            ResolveAll(addressText, file.acls, file.mud.fromDevicePolicy, FromDevice)
            + ResolveAll(addressText, file.acls, file.mud.toDevicePolicy, ToDevice),
            [])
  }

  lemma {:induction false} NoProblemResolvable(acls: seq<JsonAcl>, names: seq<string>)
    requires RefsProblem(acls, names).None?
    ensures Resolvable(acls, names)
  {
    if names != [] {
      NoProblemResolvable(acls, names[1..]);
      assert forall i :: 0 < i < |names| ==> names[i] == names[1..][i - 1];
    }
  }

  /** The parser's outcome: the first problem, or the profile. */
  function Parsed(addressText: AddressText, url: string, file: MudFile, now: Instant): Result<MudData, ParseError> {
    match FileProblem(file)
    case Some(problem) => Failure(problem)
    case None =>
      NoProblemResolvable(file.acls, file.mud.fromDevicePolicy);
      NoProblemResolvable(file.acls, file.mud.toDevicePolicy);
      Success(ProfileOf(addressText, url, file, now))
  }

  // ---------------------------------------------------------------- what an entry says

  /** An `eq` port, or a range without operator; anything else is dropped. */
  predicate PortSays(port: Option<Port>, r: Option<AcePort>) {
    && (r.Some? && r.value.Single? <==> port.Some? && port.value.port.Some? && port.value.operator == Some("eq"))
    && (r.Some? && r.value.Single? ==> Some(r.value.port) == port.value.port)
    && (r.Some? && r.value.Range? <==>
          && port.Some? && port.value.port.None? && port.value.operator == None
          && port.value.lowerPort.Some? && port.value.upperPort.Some?)
    && (r.Some? && r.value.Range? ==>
          Some(r.value.lower) == port.value.lowerPort && Some(r.value.upper) == port.value.upperPort)
  }

  /** The protocol, address and name that an IP match gives an entry. */
  predicate IpSays(addressText: AddressText, ip: Ip, r: AceMatches) {
    && (ip.protocol.Some? ==> r.protocol == Some(Protocol(ip.protocol.value)))
    && (ip.protocol.None? ==> r.protocol == None)
    && (ip.dstDnsname.Some? ==> r.dnsname == ip.dstDnsname)
    && (ip.dstDnsname.None? ==> r.dnsname == ip.srcDnsname)
    && (ip.sourceNetwork.Some? ==> r.addressMask == addressText(ip.sourceNetwork.value))
    && (ip.sourceNetwork.None? && ip.destinationNetwork.Some? ==> r.addressMask == addressText(ip.destinationNetwork.value))
    && (ip.sourceNetwork.None? && ip.destinationNetwork.None? ==> r.addressMask == None)
  }

  /** What the transport matches give an entry: UDP before TCP, and a direction only for TCP. */
  predicate TransportSays(m: Matches, r: AceMatches) {
    && (m.udp.Some? ==>
          && PortSays(m.udp.value.sourcePort, r.sourcePort) && PortSays(m.udp.value.destinationPort, r.destinationPort)
          && r.directionInitiated == None)
    && (m.udp.None? && m.tcp.Some? ==>
          && PortSays(m.tcp.value.sourcePort, r.sourcePort) && PortSays(m.tcp.value.destinationPort, r.destinationPort)
          && (r.directionInitiated == Some(FromDevice) <==> m.tcp.value.directionInitiated == Some("from-device"))
          && (r.directionInitiated == Some(ToDevice) <==> m.tcp.value.directionInitiated == Some("to-device")))
    && (m.udp.None? && m.tcp.None? ==>
          r.sourcePort == None && r.destinationPort == None && r.directionInitiated == None)
  }

  /** The parsed entry says what the entry of the file says, field by field. */
  predicate Says(addressText: AddressText, item: JsonAce, ace: Ace) {
    var m, r := item.matches, ace.matches;
    && ace.name == item.name
    && (ace.action == Accept <==> item.forwarding == "accept")
    && TransportSays(m, r)
    && (m.ipv6.Some? ==> IpSays(addressText, m.ipv6.value, r))
    && (m.ipv6.None? && m.ipv4.Some? ==> IpSays(addressText, m.ipv4.value, r))
    && (m.ipv6.None? && m.ipv4.None? ==>
          && r.addressMask == None && r.dnsname == None
          && (r.protocol == Some(AceProtocol.Udp) <==> m.udp.Some?)
          && (r.protocol == Some(AceProtocol.Tcp) <==> m.udp.None? && m.tcp.Some?)
          && (r.protocol == None <==> m.udp.None? && m.tcp.None?))
  }

  lemma ParsedPortSays(port: Option<Port>)
    ensures PortSays(port, ParsePort(port))
  {
  }

  lemma TranslationSays(addressText: AddressText, aclType: AclType, item: JsonAce)
    requires AceProblem(aclType, item).None?
    ensures Says(addressText, item, Translate(addressText, item))
  {
    var m := item.matches;
    if m.udp.Some? {
      ParsedPortSays(m.udp.value.sourcePort);
      ParsedPortSays(m.udp.value.destinationPort);
    } else if m.tcp.Some? {
      ParsedPortSays(m.tcp.value.sourcePort);
      ParsedPortSays(m.tcp.value.destinationPort);
    }
  }

  // ---------------------------------------------------------------- the parser's loops

  /** The body of the entry loop of `parse_device_policy`. */
  method ParseAce(addressText: AddressText, aclType: AclType, item: JsonAce) returns (r: Result<Ace, ParseError>)
    ensures r == match AceProblem(aclType, item)
                 case Some(problem) => Failure(problem)
                 case None => Success(Translate(addressText, item))
    ensures r.Success? ==> Says(addressText, item, r.value)
  {
    if AceProblem(aclType, item).None? {
      TranslationSays(addressText, aclType, item);
    }
    var protocol: Option<AceProtocol> := None;
    var directionInitiated: Option<AclDirection> := None;
    var addressMask: Option<string> := None;
    var dnsname: Option<string> := None;
    var sourcePort: Option<AcePort> := None;
    var destinationPort: Option<AcePort> := None;
    if item.matches.udp.Some? {
      var udp := item.matches.udp.value;
      protocol := Some(AceProtocol.Udp);
      sourcePort, destinationPort := ParsePort(udp.sourcePort), ParsePort(udp.destinationPort);
    } else if item.matches.tcp.Some? {
      var tcp := item.matches.tcp.value;
      protocol := Some(AceProtocol.Tcp);
      if tcp.directionInitiated.Some? {
        directionInitiated := ParseDirection(tcp.directionInitiated.value);
        if directionInitiated.None? {
          return Failure(InvalidDirection);
        }
      }
      sourcePort, destinationPort := ParsePort(tcp.sourcePort), ParsePort(tcp.destinationPort);
    }
    if item.matches.ipv6.Some? {
      if aclType != IPV6 {
        return Failure(Ipv6InIpv4Acl);
      }
      protocol, addressMask, dnsname := ReadIp(addressText, item.matches.ipv6.value);
    } else if item.matches.ipv4.Some? {
      if aclType != IPV4 {
        return Failure(Ipv4InIpv6Acl);
      }
      protocol, addressMask, dnsname := ReadIp(addressText, item.matches.ipv4.value);
    }
    var action := if item.forwarding == "accept" then Accept else Deny;
    r := Success(Ace(item.name, action,
                     AceMatches(protocol, directionInitiated, addressMask, dnsname, sourcePort, destinationPort)));
  }

  method ReadIp(addressText: AddressText, ip: Ip)
    returns (protocol: Option<AceProtocol>, addressMask: Option<string>, dnsname: Option<string>)
    ensures protocol == if ip.protocol.Some? then Some(Protocol(ip.protocol.value)) else None
    ensures dnsname == OrElse(ip.dstDnsname, ip.srcDnsname)
    ensures addressMask == match OrElse(ip.sourceNetwork, ip.destinationNetwork)
                           case None => None
                           case Some(text) => addressText(text)
  {
    protocol := if ip.protocol.Some? then Some(Protocol(ip.protocol.value)) else None;
    var network := if ip.sourceNetwork.Some? then ip.sourceNetwork else ip.destinationNetwork;
    addressMask := if network.Some? then addressText(network.value) else None;
    dnsname := if ip.dstDnsname.Some? then ip.dstDnsname else ip.srcDnsname;
  }

  method ParseAces(addressText: AddressText, aclType: AclType, items: seq<JsonAce>)
    returns (r: Result<seq<Ace>, ParseError>)
    ensures r == match AcesProblem(aclType, items)
                 case Some(problem) => Failure(problem)
                 case None => Success(TranslateAces(addressText, items))
  {
    var ace: seq<Ace> := [];
    for i := 0 to |items|
      invariant AcesProblem(aclType, items) == AcesProblem(aclType, items[i..])
      invariant ace == TranslateAces(addressText, items[..i])
    {
      assert items[i..][1..] == items[i + 1..];
      var item := ParseAce(addressText, aclType, items[i]);
      if item.Failure? {
        return Failure(item.error);
      }
      ace := ace + [item.value];
    }
    assert items[..|items|] == items;
    r := Success(ace);
  }

  /** The search loop of `parse_device_policy` for one reference, with its `found` flag and early exit. */
  method ParseReference(addressText: AddressText, acls: seq<JsonAcl>, name: string, direction: AclDirection)
    returns (r: Result<Acl, ParseError>)
    ensures r == match RefProblem(acls, name)
                 case Some(problem) => Failure(problem)
                 case None => Success(Resolve(addressText, acls, name, direction))
  {
    var found := false;
    var result: Option<Acl> := None;
    var i := 0;
    while i < |acls|
      invariant 0 <= i <= |acls|
      invariant !found && FirstNamed(acls, name) == FirstNamed(acls[i..], name)
    {
      assert acls[i..][1..] == acls[i + 1..];
      if acls[i].name == name {
        var aclType := AclTypeOf(acls[i].typeField);
        var ace := ParseAces(addressText, aclType, acls[i].aces);
        if ace.Failure? {
          return Failure(ace.error);
        }
        result := Some(Acl(name, direction, aclType, ace.value));
        found := true;
        break;
      }
      i := i + 1;
    }
    if !found {
      return Failure(DanglingAcl);
    }
    r := Success(result.value);
  }

  lemma ResolveSnoc(addressText: AddressText, acls: seq<JsonAcl>, names: seq<string>, i: nat, direction: AclDirection)
    requires i < |names| && Resolvable(acls, names[..i]) && FirstNamed(acls, names[i]).Some?
    ensures Resolvable(acls, names[..i + 1])
    ensures ResolveAll(addressText, acls, names[..i + 1], direction)
         == ResolveAll(addressText, acls, names[..i], direction) + [Resolve(addressText, acls, names[i], direction)]
  {
  }

  /** `parse_device_policy`: appends one ACL per reference, or stops at the first problem. */
  method ParseDevicePolicy(addressText: AddressText, acls: seq<JsonAcl>, names: seq<string>, direction: AclDirection,
                           before: seq<Acl>)
    returns (r: Result<seq<Acl>, ParseError>)
    ensures RefsProblem(acls, names).None? ==> Resolvable(acls, names)
    ensures r == match RefsProblem(acls, names)
                 case Some(problem) => Failure(problem)
                 case None => Success(before + ResolveAll(addressText, acls, names, direction))
  {
    var acllist := before;
    for i := 0 to |names|
      invariant RefsProblem(acls, names) == RefsProblem(acls, names[i..])
      invariant Resolvable(acls, names[..i])
      invariant acllist == before + ResolveAll(addressText, acls, names[..i], direction)
    {
      assert names[i..][1..] == names[i + 1..];
      var acl := ParseReference(addressText, acls, names[i], direction);
      if acl.Failure? {
        return Failure(acl.error);
      }
      ResolveSnoc(addressText, acls, names, i, direction);
      ConcatAssociative(before, ResolveAll(addressText, acls, names[..i], direction), [acl.value]);
      acllist := acllist + [acl.value];
    }
    assert names[..|names|] == names && names[|names|..] == [];
    r := Success(acllist);
  }

  /** `parse_mud`, after JSON decoding. */
  method ParseMud(addressText: AddressText, url: string, file: MudFile, now: Instant)
    returns (r: Result<MudData, ParseError>)
    ensures r == Parsed(addressText, url, file, now)
  {
    var mud := file.mud;
    if mud.mudVersion != 1 {
      return Failure(UnsupportedVersion);
    }
    var validity := if mud.cacheValidity.Some? then mud.cacheValidity.value else DEFAULT_VALIDITY;
    if !(MIN_VALIDITY <= validity <= MAX_VALIDITY) {
      return Failure(InvalidCacheValidity);
    }
    var masa: Option<string> := None;
    if mud.extensions.Some? {
      var extensions := mud.extensions.value;
      for i := 0 to |extensions|
        invariant masa == if "masa" in extensions[..i] then mud.masaServer else None
      {
        if extensions[i] == "masa" && mud.masaServer.Some? {
          masa := mud.masaServer;
        }
      }
      assert extensions[..|extensions|] == extensions;
    }
    var fromDevice := ParseDevicePolicy(addressText, file.acls, mud.fromDevicePolicy, FromDevice, []);
    if fromDevice.Failure? {
      return Failure(fromDevice.error);
    }
    assert fromDevice.value == ResolveAll(addressText, file.acls, mud.fromDevicePolicy, FromDevice);
    var both := ParseDevicePolicy(addressText, file.acls, mud.toDevicePolicy, ToDevice, fromDevice.value);
    if both.Failure? {
      return Failure(both.error);
    }
    r := Success(MudData(url, masa, mud.lastUpdate, mud.systeminfo, mud.mfgName, mud.modelName, mud.documentation,
                         now + validity * HOUR, both.value, []));
  }

  // ---------------------------------------------------------------- characterisation

  /** Position `i` holds the first ACL of the name. */
  ghost predicate IsFirst(acls: seq<JsonAcl>, name: string, i: nat) {
    i < |acls| && acls[i].name == name && forall j :: 0 <= j < i ==> acls[j].name != name
  }

  /** No family clash with the type of the list, and no bad TCP direction. */
  predicate GoodAce(typeField: string, ace: JsonAce) {
    var m := ace.matches;
    && (m.ipv6.Some? ==> typeField != "ipv4-acl-type")
    && (m.ipv6.None? && m.ipv4.Some? ==> typeField == "ipv4-acl-type")
    && (m.udp.None? && m.tcp.Some? && m.tcp.value.directionInitiated.Some? ==>
          m.tcp.value.directionInitiated.value in {"from-device", "to-device"})
  }

  ghost predicate GoodReference(acls: seq<JsonAcl>, name: string) {
    exists i: nat :: IsFirst(acls, name, i) &&
      forall k :: 0 <= k < |acls[i].aces| ==> GoodAce(acls[i].typeField, acls[i].aces[k])
  }

  ghost predicate WellFormed(file: MudFile) {
    && file.mud.mudVersion == 1
    && (file.mud.cacheValidity.Some? ==> 1 <= file.mud.cacheValidity.value <= 168)
    && (forall n :: n in file.mud.fromDevicePolicy ==> GoodReference(file.acls, n))
    && (forall n :: n in file.mud.toDevicePolicy ==> GoodReference(file.acls, n))
  }

  lemma {:induction false} FirstNamedAt(acls: seq<JsonAcl>, name: string, i: nat)
    requires IsFirst(acls, name, i)
    ensures FirstNamed(acls, name) == Some(acls[i])
  {
    if i > 0 {
      FirstNamedAt(acls[1..], name, i - 1);
    }
  }

  lemma {:induction false} FirstNamedIndex(acls: seq<JsonAcl>, name: string) returns (i: nat)
    requires FirstNamed(acls, name).Some?
    ensures IsFirst(acls, name, i) && FirstNamed(acls, name) == Some(acls[i])
  {
    if acls[0].name == name {
      i := 0;
    } else {
      var k := FirstNamedIndex(acls[1..], name);
      i := k + 1;
      assert forall j :: 0 < j < i ==> acls[j] == acls[1..][j - 1];
    }
  }

  lemma {:induction false} AcesProblemNoneIff(typeField: string, aces: seq<JsonAce>)
    ensures AcesProblem(AclTypeOf(typeField), aces).None? <==> forall k :: 0 <= k < |aces| ==> GoodAce(typeField, aces[k])
  {
    if aces != [] {
      AcesProblemNoneIff(typeField, aces[1..]);
      assert AceProblem(AclTypeOf(typeField), aces[0]).None? <==> GoodAce(typeField, aces[0]);
      assert forall k :: 0 < k < |aces| ==> aces[k] == aces[1..][k - 1];
    }
  }

  lemma RefProblemNoneIff(acls: seq<JsonAcl>, name: string)
    ensures RefProblem(acls, name).None? <==> GoodReference(acls, name)
  {
    if FirstNamed(acls, name).Some? {
      var i := FirstNamedIndex(acls, name);
      AcesProblemNoneIff(acls[i].typeField, acls[i].aces);
    }
    if GoodReference(acls, name) {
      var i: nat :| IsFirst(acls, name, i) &&
        forall k :: 0 <= k < |acls[i].aces| ==> GoodAce(acls[i].typeField, acls[i].aces[k]);
      FirstNamedAt(acls, name, i);
      AcesProblemNoneIff(acls[i].typeField, acls[i].aces);
    }
  }

  lemma {:induction false} RefsProblemNoneIff(acls: seq<JsonAcl>, names: seq<string>)
    ensures RefsProblem(acls, names).None? <==> forall n :: n in names ==> GoodReference(acls, n)
  {
    if names != [] {
      RefProblemNoneIff(acls, names[0]);
      RefsProblemNoneIff(acls, names[1..]);
      assert forall n :: n in names <==> n == names[0] || n in names[1..];
    }
  }

  /** Parsing succeeds exactly on well-formed files. */
  lemma ParseSucceedsIff(addressText: AddressText, url: string, file: MudFile, now: Instant)
    ensures Parsed(addressText, url, file, now).Success? <==> WellFormed(file)
  {
    RefsProblemNoneIff(file.acls, file.mud.fromDevicePolicy);
    RefsProblemNoneIff(file.acls, file.mud.toDevicePolicy);
  }

  /** The profile's lists are the from-policy references then the to-policy references, each its first match. */
  lemma ParsedTranslations(addressText: AddressText, url: string, file: MudFile, now: Instant, k: nat, i: nat)
    requires Parsed(addressText, url, file, now).Success?
    requires k < |file.mud.fromDevicePolicy| + |file.mud.toDevicePolicy|
    requires var names := file.mud.fromDevicePolicy + file.mud.toDevicePolicy; IsFirst(file.acls, names[k], i)
    ensures var data := Parsed(addressText, url, file, now).value;
            var names := file.mud.fromDevicePolicy + file.mud.toDevicePolicy;
            && |data.acllist| == |names|
            && data.acllist[k].name == names[k]
            && data.acllist[k].packetDirection == (if k < |file.mud.fromDevicePolicy| then FromDevice else ToDevice)
            && data.acllist[k].aclType == AclTypeOf(file.acls[i].typeField)
            && |data.acllist[k].ace| == |file.acls[i].aces|
            && (forall e :: 0 <= e < |file.acls[i].aces| ==>
                  data.acllist[k].ace[e] == Translate(addressText, file.acls[i].aces[e]))
  {
    var names := file.mud.fromDevicePolicy + file.mud.toDevicePolicy;
    FirstNamedAt(file.acls, names[k], i);
  }

  lemma {:induction false} NoAceProblem(aclType: AclType, aces: seq<JsonAce>, e: nat)
    requires AcesProblem(aclType, aces).None? && e < |aces|
    ensures AceProblem(aclType, aces[e]).None?
  {
    if e > 0 {
      NoAceProblem(aclType, aces[1..], e - 1);
    }
  }

  lemma {:induction false} NoRefProblem(acls: seq<JsonAcl>, names: seq<string>, k: nat)
    requires RefsProblem(acls, names).None? && k < |names|
    ensures RefProblem(acls, names[k]).None?
  {
    if k > 0 {
      NoRefProblem(acls, names[1..], k - 1);
    }
  }

  /** Every list a policy mentions is free of problems. */
  lemma ReferencedIsGood(file: MudFile, k: nat, i: nat)
    requires FileProblem(file).None? && k < |file.mud.fromDevicePolicy| + |file.mud.toDevicePolicy|
    requires IsFirst(file.acls, (file.mud.fromDevicePolicy + file.mud.toDevicePolicy)[k], i)
    ensures AcesProblem(AclTypeOf(file.acls[i].typeField), file.acls[i].aces).None?
  {
    var from, to := file.mud.fromDevicePolicy, file.mud.toDevicePolicy;
    FirstNamedAt(file.acls, (from + to)[k], i);
    if k < |from| {
      NoRefProblem(file.acls, from, k);
    } else {
      NoRefProblem(file.acls, to, k - |from|);
    }
  }

  /** No list has this name. */
  predicate Dangling(acls: seq<JsonAcl>, name: string) {
    forall i :: 0 <= i < |acls| ==> acls[i].name != name
  }

  /** What is reported first: the version, then the validity, and only then the lists. */
  lemma ParseReports(addressText: AddressText, url: string, file: MudFile, now: Instant)
    requires Parsed(addressText, url, file, now).Failure?
    ensures var problem, mud := Parsed(addressText, url, file, now).error, file.mud;
            && (problem == UnsupportedVersion <==> mud.mudVersion != 1)
            && (problem == InvalidCacheValidity <==>
                mud.mudVersion == 1 && mud.cacheValidity.Some? && !(1 <= mud.cacheValidity.value <= 168))
            && (problem == DanglingAcl ==>
                  exists k: nat ::
                    && k < |mud.fromDevicePolicy + mud.toDevicePolicy|
                    && Dangling(file.acls, (mud.fromDevicePolicy + mud.toDevicePolicy)[k]))
  {
    var from, to := file.mud.fromDevicePolicy, file.mud.toDevicePolicy;
    if Parsed(addressText, url, file, now).error == DanglingAcl {
      if RefsProblem(file.acls, from) == Some(DanglingAcl) {
        var k := DanglingReference(file.acls, from);
        assert (from + to)[k] == from[k];
      } else {
        var k := DanglingReference(file.acls, to);
        assert (from + to)[|from| + k] == to[k];
      }
    } else {
      ListProblemKinds(file.acls, from);
      ListProblemKinds(file.acls, to);
    }
  }

  lemma {:induction false} AceProblemKinds(aclType: AclType, aces: seq<JsonAce>)
    ensures AcesProblem(aclType, aces) in {None, Some(InvalidDirection), Some(Ipv6InIpv4Acl), Some(Ipv4InIpv6Acl)}
  {
    if aces != [] {
      AceProblemKinds(aclType, aces[1..]);
    }
  }

  lemma {:induction false} ListProblemKinds(acls: seq<JsonAcl>, names: seq<string>)
    ensures RefsProblem(acls, names) !in {Some(UnsupportedVersion), Some(InvalidCacheValidity)}
  {
    if names != [] {
      ListProblemKinds(acls, names[1..]);
      if FirstNamed(acls, names[0]).Some? {
        var acl := FirstNamed(acls, names[0]).value;
        AceProblemKinds(AclTypeOf(acl.typeField), acl.aces);
      }
    }
  }

  lemma {:induction false} DanglingReference(acls: seq<JsonAcl>, names: seq<string>) returns (k: nat)
    requires RefsProblem(acls, names) == Some(DanglingAcl)
    ensures k < |names| && Dangling(acls, names[k])
  {
    if FirstNamed(acls, names[0]).None? {
      k := 0;
    } else {
      var acl := FirstNamed(acls, names[0]).value;
      AceProblemKinds(AclTypeOf(acl.typeField), acl.aces);
      var rest := DanglingReference(acls, names[1..]);
      k := rest + 1;
    }
  }

  /**
   The profile's lists are the from-policy references then the to-policy references, in order, each
   its first match, and every entry says what the entry of the file says.
   */
  lemma ParsedLists(addressText: AddressText, url: string, file: MudFile, now: Instant, k: nat, i: nat)
    requires Parsed(addressText, url, file, now).Success?
    requires k < |file.mud.fromDevicePolicy| + |file.mud.toDevicePolicy|
    requires var names := file.mud.fromDevicePolicy + file.mud.toDevicePolicy; IsFirst(file.acls, names[k], i)
    ensures var data := Parsed(addressText, url, file, now).value;
            var names := file.mud.fromDevicePolicy + file.mud.toDevicePolicy;
            && |data.acllist| == |names|
            && data.acllist[k].name == names[k]
            && (data.acllist[k].packetDirection == FromDevice <==> k < |file.mud.fromDevicePolicy|)
            && (data.acllist[k].aclType == IPV4 <==> file.acls[i].typeField == "ipv4-acl-type")
            && |data.acllist[k].ace| == |file.acls[i].aces|
            && (forall e :: 0 <= e < |file.acls[i].aces| ==>
                  Says(addressText, file.acls[i].aces[e], data.acllist[k].ace[e]))
  {
    ParsedTranslations(addressText, url, file, now, k, i);
    ReferencedIsGood(file, k, i);
    var acl, data := file.acls[i], Parsed(addressText, url, file, now).value;
    forall e | 0 <= e < |acl.aces| ensures Says(addressText, acl.aces[e], data.acllist[k].ace[e]) {
      NoAceProblem(AclTypeOf(acl.typeField), acl.aces, e);
      TranslationSays(addressText, AclTypeOf(acl.typeField), acl.aces[e]);
    }
  }

  /** Every reference of a file that parses has a first match. */
  lemma ReferenceExists(addressText: AddressText, url: string, file: MudFile, now: Instant, k: nat) returns (i: nat)
    requires Parsed(addressText, url, file, now).Success?
    requires k < |file.mud.fromDevicePolicy| + |file.mud.toDevicePolicy|
    ensures IsFirst(file.acls, (file.mud.fromDevicePolicy + file.mud.toDevicePolicy)[k], i)
  {
    var from, to := file.mud.fromDevicePolicy, file.mud.toDevicePolicy;
    NoProblemResolvable(file.acls, from);
    NoProblemResolvable(file.acls, to);
    assert (from + to)[k] == if k < |from| then from[k] else to[k - |from|];
    i := FirstNamedIndex(file.acls, (from + to)[k]);
  }

  lemma {:induction false} RefsProblemSame(a: seq<JsonAcl>, b: seq<JsonAcl>, names: seq<string>)
    requires forall n :: n in names ==> FirstNamed(a, n) == FirstNamed(b, n)
    ensures RefsProblem(a, names) == RefsProblem(b, names)
  {
    if names != [] {
      RefsProblemSame(a, b, names[1..]);
    }
  }

  lemma ResolveSame(addressText: AddressText, a: seq<JsonAcl>, b: seq<JsonAcl>, names: seq<string>, direction: AclDirection)
    requires forall n :: n in names ==> FirstNamed(a, n) == FirstNamed(b, n)
    requires Resolvable(a, names)
    ensures Resolvable(b, names) && ResolveAll(addressText, a, names, direction) == ResolveAll(addressText, b, names, direction)
  {
    assert forall i :: 0 <= i < |names| ==> names[i] in names;
  }

  /** The two lists have the same first ACL for every name the policies mention. */
  ghost predicate SameFirsts(mud: MudDefinition, a: seq<JsonAcl>, b: seq<JsonAcl>) {
    && (forall n :: n in mud.fromDevicePolicy ==> FirstNamed(a, n) == FirstNamed(b, n))
    && (forall n :: n in mud.toDevicePolicy ==> FirstNamed(a, n) == FirstNamed(b, n))
  }

  lemma FileProblemSame(file: MudFile, acls: seq<JsonAcl>)
    requires SameFirsts(file.mud, file.acls, acls)
    ensures FileProblem(MudFile(file.mud, acls)) == FileProblem(file)
  {
    RefsProblemSame(file.acls, acls, file.mud.fromDevicePolicy);
    RefsProblemSame(file.acls, acls, file.mud.toDevicePolicy);
  }

  /** Only the first ACL of each referenced name matters. */
  lemma ParseDependsOnFirsts(addressText: AddressText, url: string, file: MudFile, acls: seq<JsonAcl>, now: Instant)
    requires SameFirsts(file.mud, file.acls, acls)
    ensures Parsed(addressText, url, MudFile(file.mud, acls), now) == Parsed(addressText, url, file, now)
  {
    FileProblemSame(file, acls);
    if FileProblem(file).None? {
      NoProblemResolvable(file.acls, file.mud.fromDevicePolicy);
      NoProblemResolvable(file.acls, file.mud.toDevicePolicy);
      ResolveSame(addressText, file.acls, acls, file.mud.fromDevicePolicy, FromDevice);
      ResolveSame(addressText, file.acls, acls, file.mud.toDevicePolicy, ToDevice);
      assert ProfileOf(addressText, url, MudFile(file.mud, acls), now) == ProfileOf(addressText, url, file, now);
    }
  }

  lemma {:induction false} FirstNamedInsert(acls: seq<JsonAcl>, at: nat, extra: JsonAcl, name: string)
    requires at <= |acls|
    requires extra.name != name || exists j :: 0 <= j < at && acls[j].name == name
    ensures FirstNamed(acls[..at] + [extra] + acls[at..], name) == FirstNamed(acls, name)
  {
    var longer := acls[..at] + [extra] + acls[at..];
    if at == 0 {
      assert longer[1..] == acls;
    } else {
      assert longer[1..] == acls[1..][..at - 1] + [extra] + acls[1..][at - 1..];
      if acls[0].name != name {
        if extra.name == name {
          var j :| 0 <= j < at && acls[j].name == name;
          assert acls[1..][j - 1].name == name;
        }
        FirstNamedInsert(acls[1..], at - 1, extra, name);
      }
    }
  }

  /** An ACL that no policy mentions, or that repeats an earlier name, never affects the outcome. */
  lemma IrrelevantAclIgnored(addressText: AddressText, url: string, file: MudFile, at: nat, extra: JsonAcl, now: Instant)
    requires at <= |file.acls|
    requires (extra.name !in file.mud.fromDevicePolicy && extra.name !in file.mud.toDevicePolicy)
             || exists j :: 0 <= j < at && file.acls[j].name == extra.name
    ensures Parsed(addressText, url, MudFile(file.mud, file.acls[..at] + [extra] + file.acls[at..]), now)
         == Parsed(addressText, url, file, now)
  {
    var longer := file.acls[..at] + [extra] + file.acls[at..];
    forall n | n in file.mud.fromDevicePolicy || n in file.mud.toDevicePolicy
      ensures FirstNamed(file.acls, n) == FirstNamed(longer, n)
    {
      FirstNamedInsert(file.acls, at, extra, n);
    }
    ParseDependsOnFirsts(addressText, url, file, longer, now);
  }

  /** A profile expires between one hour and one week after it was parsed, and starts without overrides. */
  lemma ParsedExpiry(addressText: AddressText, url: string, file: MudFile, now: Instant)
    requires Parsed(addressText, url, file, now).Success?
    ensures var data := Parsed(addressText, url, file, now).value;
            now + HOUR <= data.expiration <= now + 168 * HOUR && data.url == url && data.aclOverride == []
  {
    var v := Validity(file.mud);
    assert 1 * HOUR <= v * HOUR <= 168 * HOUR;
  }

  /**
   What a profile has from its file besides the lists: it expires by the file's own cache validity, or
   after 48 hours where the file has none, and a MASA server needs the extension to count.
   */
  lemma ParsedHeader(addressText: AddressText, url: string, file: MudFile, now: Instant)
    requires Parsed(addressText, url, file, now).Success?
    ensures var data, mud := Parsed(addressText, url, file, now).value, file.mud;
            && (mud.cacheValidity.Some? ==> data.expiration == now + mud.cacheValidity.value * HOUR)
            && (mud.cacheValidity.None? ==> data.expiration == now + 48 * HOUR)
            && data.url == url && data.lastUpdate == mud.lastUpdate && data.systeminfo == mud.systeminfo
            && data.mfgName == mud.mfgName && data.modelName == mud.modelName && data.documentation == mud.documentation
            && (mud.extensions.Some? && "masa" in mud.extensions.value ==> data.masaUrl == mud.masaServer)
            && (mud.extensions.None? || "masa" !in mud.extensions.value ==> data.masaUrl == None)
            && |data.acllist| == |mud.fromDevicePolicy| + |mud.toDevicePolicy| && data.aclOverride == []
  {
  }

  /** An entry that names a DNS host never carries a Tcp or Udp marker: the IP match overwrote it. */
  lemma NamedEntriesHaveNoTransport(addressText: AddressText, ace: JsonAce)
    requires Translate(addressText, ace).matches.dnsname.Some?
    ensures Translate(addressText, ace).matches.protocol.None? || Translate(addressText, ace).matches.protocol.value.Protocol?
  {
  }
}
