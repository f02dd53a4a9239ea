/** The controller's own records: access lists, MUD profiles and devices. */
module Models {
  import opened Prelude

  datatype IpAddr = V4(bits: nat) | V6(bits: nat)

  datatype AceProtocol = Tcp | Udp | Protocol(number: nat)

  datatype AcePort = Single(port: nat) | Range(lower: nat, upper: nat)

  datatype AceAction = Accept | Deny

  datatype AclType = IPV6 | IPV4

  datatype AclDirection = FromDevice | ToDevice

  datatype AceMatches = AceMatches(
    protocol: Option<AceProtocol>,
    directionInitiated: Option<AclDirection>,
    addressMask: Option<string>,
    dnsname: Option<string>,
    sourcePort: Option<AcePort>,
    destinationPort: Option<AcePort>)

  datatype Ace = Ace(name: string, action: AceAction, matches: AceMatches)

  datatype Acl = Acl(name: string, packetDirection: AclDirection, aclType: AclType, ace: seq<Ace>)

  /** Instants are nanoseconds since the Unix epoch. */
  type Instant = int

  const HOUR: int := 3_600_000_000_000

  datatype MudData = MudData(
    url: string,
    masaUrl: Option<string>,
    lastUpdate: string,
    systeminfo: Option<string>,
    mfgName: Option<string>,
    modelName: Option<string>,
    documentation: Option<string>,
    expiration: Instant,
    acllist: seq<Acl>,
    aclOverride: seq<Acl>)

  datatype Device = Device(
    id: int,
    name: Option<string>,
    ipv4: Option<nat>,
    ipv6: Option<nat>,
    mac: Option<nat>,
    duid: Option<string>,
    hostname: string,
    vendorClass: string,
    mudUrl: Option<string>,
    collectInfo: bool,
    lastInteraction: Instant,
    roomId: Option<int>,
    clipart: Option<string>)

  /** A device with its profile loaded (rooms play no part in the configuration). */
  datatype DeviceWithRefs = DeviceWithRefs(inner: Device, mudData: Option<MudData>)
}
