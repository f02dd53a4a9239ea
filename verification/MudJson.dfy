/** A MUD file after JSON decoding: the parts of RFC 8520 and RFC 8519 that the parser looks at. */
module MudJson {
  import opened Prelude

  datatype Port = Port(operator: Option<string>, port: Option<nat>, lowerPort: Option<nat>, upperPort: Option<nat>)

  datatype Tcp = Tcp(sourcePort: Option<Port>, destinationPort: Option<Port>, directionInitiated: Option<string>)

  datatype Udp = Udp(sourcePort: Option<Port>, destinationPort: Option<Port>)

  /** The `ipv4` and `ipv6` match containers, which carry the same fields. */
  datatype Ip = Ip(
    protocol: Option<nat>,
    sourceNetwork: Option<string>,
    destinationNetwork: Option<string>,
    srcDnsname: Option<string>,
    dstDnsname: Option<string>)

  datatype Matches = Matches(ipv4: Option<Ip>, ipv6: Option<Ip>, tcp: Option<Tcp>, udp: Option<Udp>)

  datatype JsonAce = JsonAce(name: string, matches: Matches, forwarding: string)

  datatype JsonAcl = JsonAcl(name: string, typeField: string, aces: seq<JsonAce>)

  datatype MudDefinition = MudDefinition(
    mudVersion: int,
    lastUpdate: string,
    cacheValidity: Option<int>,
    systeminfo: Option<string>,
    mfgName: Option<string>,
    documentation: Option<string>,
    modelName: Option<string>,
    fromDevicePolicy: seq<string>,
    toDevicePolicy: seq<string>,
    extensions: Option<seq<string>>,
    masaServer: Option<string>)

  datatype MudFile = MudFile(mud: MudDefinition, acls: seq<JsonAcl>)
}
