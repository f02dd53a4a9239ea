/** The database behind the controller, updated in place by the services and routes. */
module Database {
  import opened Prelude
  import opened Models
  import opened MudCache
  import opened DeviceTable
  import opened ConfigVersion
  import opened Decimal
  import opened Controller
  import opened Polling
  import Firewall
  import MudParser

  class Pool {
    const texts: Texts
    var muds: MudTable
    var devices: map<int, Device>
    var nextId: int
    var config: Config

    constructor (texts: Texts)
      ensures Contents() == NO_TABLES && this.texts == texts && Valid()
    {
      this.texts := texts;
      muds, devices, nextId, config := map[], map[], 1, map[];
    }

    function Contents(): Tables
      reads this
    {
      Tables(muds, Table(devices, nextId), config)
    }

    /** What every operation keeps: ids, references, the key discipline and rows that agree with their profiles. */
    ghost predicate Valid()
      reads this
    {
      Inv(texts, Contents())
    }

    // -------------------------------------------------------------- configuration

    /** `update_config_version` */
    method UpdateConfigVersion()
      modifies `config
      ensures config == Bump(old(config))
    {
      var oldVersion: nat := 0;
      if VERSION_KEY in config {
        var parsed := ParseU64(config[VERSION_KEY]);
        if parsed.Some? {
          oldVersion := parsed.value;
        }
      }
      config := config[VERSION_KEY := Print(Wrap(oldVersion + 1))];
    }

    // -------------------------------------------------------------- profiles

    /**
     `get_or_fetch_mud`. On a valid database a stored key loads before 2060 whatever the network
     does, and an https URL that cannot be fetched or parsed is served from its stale row.
     */
    method GetOrFetchMud(url: string, v: Visit) returns (r: Result<MudData, MudFailure>)
      modifies `muds
      ensures r == GetOrFetch(texts.mud, old(muds), url, v).result
      ensures muds == GetOrFetch(texts.mud, old(muds), url, v).table
      ensures old(Valid()) ==> Valid()
      ensures old(Valid()) && url in old(muds) && v.now < CUSTOM_EXPIRATION ==> r.Success?
      ensures !(texts.mud.isUrl(url) && "https://" <= url) ==> muds == old(muds)
      ensures !(texts.mud.isUrl(url) && "https://" <= url) && url !in old(muds) ==> r == Failure(MudFileInvalid)
      ensures url in old(muds) && IsHttps(texts.mud, url) && NewProfile(texts.mud, url, v).Failure? ==>
                r == Success(old(muds)[url].data) && muds == old(muds)
    {
      LookupFacts(texts, Contents(), url, v);
      var expired: Option<MudData> := None;
      if url in muds {
        if muds[url].expiration > v.now {
          return Success(muds[url].data);
        }
        expired := Some(muds[url].data);
      }
      if !texts.mud.isUrl(url) || !("https://" <= url) {
        return Failure(MudFileInvalid);
      }
      if v.fetched.FetchFailed? {
        return if expired.Some? then Success(expired.value) else Failure(FetchError);
      }
      if v.fetched.NotJson? {
        return if expired.Some? then Success(expired.value) else Failure(JsonError);
      }
      var parsed := MudParser.ParseMud(texts.mud.addressText, url, v.fetched.file, v.parsedAt);
      if parsed.Failure? {
        return if expired.Some? then Success(expired.value) else Failure(ParseFailure(parsed.error));
      }
      var data := parsed.value;
      if expired.Some? {
        data := data.(aclOverride := expired.value.aclOverride);
      }
      muds := muds[url := Row(data, v.savedAt, data.expiration)];
      r := Success(data);
    }

    /** `update_mud_urls`: one lookup after another, until one fails. */
    method UpdateMudUrls(urls: seq<string>, visits: Visits) returns (ok: bool)
      modifies `muds
      ensures muds == RefreshAll(texts.mud, old(muds), urls, visits).table
      ensures ok == RefreshAll(texts.mud, old(muds), urls, visits).ok
    {
      ghost var end := RefreshAll(texts.mud, muds, urls, visits);
      for i := 0 to |urls|
        invariant end.table == RefreshAll(texts.mud, muds, urls[i..], visits).table
        invariant end.ok == RefreshAll(texts.mud, muds, urls[i..], visits).ok
      {
        assert urls[i..][1..] == urls[i + 1..];
        var r := GetOrFetchMud(urls[i], visits(urls[i]));
        if r.Failure? {
          return false;
        }
      }
      ok := true;
    }

    /** `update_outdated_profiles`: the version moves once, after all lookups succeeded. */
    method UpdateOutdatedProfiles(listing: seq<string>, checkedAt: string -> Instant, visits: Visits)
      returns (ok: bool)
      requires Valid()
      modifies `muds, `config
      ensures Outcome(ok, Contents()) == RefreshOutcome(texts, old(Contents()), listing, checkedAt, visits)
      ensures Valid()
    {
      RefreshKeeps(texts.mud, muds, Selected(muds, Stored(muds, listing), checkedAt), visits);
      var urls := Selected(muds, Stored(muds, listing), checkedAt);
      if urls == [] {
        return true;
      }
      ok := UpdateMudUrls(urls, visits);
      if ok {
        UpdateConfigVersion();
      }
    }

    /** The `create_mud` route. */
    method CreateMudProfile(url: string, overrides: Option<seq<Acl>>, v: Visit) returns (ok: bool)
      requires Valid()
      modifies `muds
      ensures Outcome(ok, Contents()) == CreateMudOutcome(texts, old(Contents()), url, overrides, v)
      ensures Valid()
    {
      CreateMudKeepsInv(texts, Contents(), url, overrides, v);
      if url in muds {
        return false;
      }
      if texts.mud.isUrl(url) {
        var r := GetOrFetchMud(url, v);
        return r.Success?;
      }
      var data := CustomProfile(url, texts.printInstant(v.now), if overrides.Some? then overrides.value else []);
      muds := muds[url := Row(data, v.savedAt, data.expiration)];
      ok := true;
    }

    /** The `update_mud` route. */
    method UpdateMudProfile(url: string, overrides: Option<seq<Acl>>) returns (ok: bool)
      requires Valid()
      modifies `muds, `config
      ensures Outcome(ok, Contents()) == UpdateMudOutcome(old(Contents()), url, overrides)
      ensures Valid()
    {
      ChangeMudKeepsInv(texts, Contents(), url, overrides);
      if url !in muds {
        return false;
      }
      var row := muds[url];
      var data := row.data.(aclOverride := if overrides.Some? then overrides.value else []);
      muds := muds[url := row.(data := data)];
      UpdateConfigVersion();
      ok := true;
    }

    /** `is_mud_used` */
    method IsMudUsed(url: string) returns (used: bool)
      requires Valid()
      ensures used <==> MudUsed(Contents().devices, url)
    {
      var user := FirstRow((d: Device) => d.mudUrl == Some(url));
      used := user.Some?;
    }

    /** The `delete_mud` route: a used profile is refused, so no device loses its profile. */
    method DeleteMudProfile(url: string) returns (ok: bool)
      requires Valid()
      modifies `muds
      ensures Outcome(ok, Contents()) == DeleteMudOutcome(old(Contents()), url)
      ensures Valid()
    {
      ChangeMudKeepsInv(texts, Contents(), url, None);
      if url !in muds {
        return false;
      }
      var used := IsMudUsed(url);
      if used {
        return false;
      }
      muds := muds - {url};
      ok := true;
    }

    // -------------------------------------------------------------- devices

    /** `SELECT .. FROM devices WHERE ..` for at most one row: the search goes through the rows in the order of their ids. */
    method FirstRow(condition: Device -> bool) returns (id: Option<int>)
      requires Valid()
      ensures id == Lowest(Contents().devices, condition, 1)
      ensures id.Some? ==> id.value in devices && condition(devices[id.value])
      ensures forall i :: i in devices && condition(devices[i]) ==> id.Some? && id.value <= i
    {
      for i := 1 to nextId
        invariant forall j :: j in devices && j < i ==> !condition(devices[j])
        invariant Lowest(Contents().devices, condition, 1) == Lowest(Contents().devices, condition, i)
      {
        if i in devices && condition(devices[i]) {
          return Some(i);
        }
      }
      id := None;
    }

    /** `find_by_mac_or_duid`: the DUID only counts when no row has the MAC. */
    method FindByMacOrDuid(mac: Option<nat>, duid: Option<string>) returns (id: Option<int>)
      requires Valid()
      ensures id == Find(Contents().devices, mac, duid)
      ensures id.Some? ==> id.value in devices
      ensures forall i :: i in devices && mac.Some? && devices[i].mac == mac ==>
                id.Some? && id.value <= i && devices[id.value].mac == mac
      ensures forall i :: i in devices && duid.Some? && devices[i].duid == duid ==>
                id.Some? && ((mac.Some? && devices[id.value].mac == mac) || (devices[id.value].duid == duid && id.value <= i))
    {
      id := None;
      if mac.Some? {
        id := FirstRow(HasMac(mac.value));
      }
      if id.None? && duid.Some? {
        id := FirstRow(HasDuid(duid.value));
      }
    }

    /** `load_refs`. On a valid database every stored device whose room is found loads before 2060. */
    method LoadDeviceRefs(d: Device, trip: Trip) returns (ok: bool, loaded: DeviceWithRefs)
      modifies `muds
      ensures var refs := LoadRefs(texts, old(muds), d, trip);
              ok == refs.ok && muds == refs.muds && (ok ==> loaded == DeviceWithRefs(d, refs.mudData))
      ensures old(Valid()) ==> Valid()
      ensures (old(Valid()) && d.id in devices && devices[d.id] == d && trip.roomFound
               && trip.visit.now < CUSTOM_EXPIRATION) ==> ok
    {
      loaded := DeviceWithRefs(d, None);
      if d.roomId.Some? && !trip.roomFound {
        return false, loaded;
      }
      if d.mudUrl.Some? {
        var r := GetOrFetchMud(d.mudUrl.value, trip.visit);
        if r.Failure? {
          return false, loaded;
        }
        loaded := DeviceWithRefs(d, Some(r.value));
      }
      ok := true;
    }

    /** `remove_existing_ips`: one statement per address family. */
    method ClearAddresses(ipv4: Option<nat>, ipv6: Option<nat>)
      modifies `devices
      ensures Contents().devices == RemoveExistingIps(old(Contents().devices), ipv4, ipv6)
    {
      ghost var before := devices;
      if ipv4.Some? {
        devices := map id | id in devices :: Cleared(devices[id], ipv4, None);
      }
      assert devices == map id | id in before :: Cleared(before[id], ipv4, None);
      if ipv6.Some? {
        devices := map id | id in devices :: Cleared(devices[id], None, ipv6);
      }
      forall id | id in before ensures id in devices && devices[id] == Cleared(before[id], ipv4, ipv6) {
        ClearInTurn(before[id], ipv4, ipv6);
      }
      assert devices == RemoveExistingIps(Table(before, nextId), ipv4, ipv6).rows;
    }

    /** `insert_device` */
    method InsertDevice(d: Device) returns (id: int)
      modifies `devices, `nextId, `config
      ensures id == old(nextId) && Contents().devices == InsertRow(old(Contents().devices), d)
      ensures config == Bump(old(config))
    {
      id := nextId;
      devices := devices[id := d.(id := id)];
      nextId := nextId + 1;
      UpdateConfigVersion();
    }

    /** `update_device` */
    method UpdateDeviceRow(d: Device) returns (ok: bool)
      modifies `devices, `config
      ensures ok == (d.id in old(devices)) && Contents().devices == UpdateRow(old(Contents().devices), d)
      ensures config == Bump(old(config))
    {
      ok := d.id in devices;
      if ok {
        devices := devices[d.id := d];
      }
      UpdateConfigVersion();
    }

    /** `Device::apply`, field by field. */
    method ApplyLease(device: Device, lease: Lease) returns (d: Device)
      ensures d == Apply(device, lease)
    {
      d := device;
      if lease.ip.V4? {
        d := d.(ipv4 := Some(lease.ip.bits));
      } else {
        d := d.(ipv6 := Some(lease.ip.bits));
      }
      if lease.mac.Some? {
        d := d.(mac := lease.mac);
      }
      if lease.duid.Some? {
        d := d.(duid := lease.duid);
      }
      if lease.hostname.Some? {
        d := d.(hostname := lease.hostname.value);
      }
      if d.mudUrl.None? && lease.mudUrl.Some? {
        d := d.(mudUrl := lease.mudUrl);
      }
    }

    /** `upsert_device_from_dhcp_lease` */
    method UpsertDeviceFromDhcpLease(lease: Lease, trip: Trip, at: Instant) returns (ok: bool)
      requires Valid()
      modifies this
      ensures Outcome(ok, Contents()) == LeaseOutcome(texts, old(Contents()), lease, trip, at)
      ensures Valid()
    {
      LeaseKeepsInv(texts, Contents(), lease, trip, at);
      var found := FindByMacOrDuid(lease.mac, lease.duid);
      var loaded;
      if found.Some? {
        var device := ApplyLease(devices[found.value], lease);
        ClearAddresses(device.ipv4, device.ipv6);
        ok, loaded := LoadDeviceRefs(device, trip);
        if ok {
          var _ := UpdateDeviceRow(loaded.inner);
        }
      } else {
        var collect := lease.mudUrl.None? && COLLECT_KEY in config && config[COLLECT_KEY] == "true";
        var device := NewDevice(lease, collect, at);
        ClearAddresses(device.ipv4, device.ipv6);
        ok, loaded := LoadDeviceRefs(device, trip);
        if ok {
          var _ := InsertDevice(loaded.inner);
        }
      }
    }

    /** The `create_device` route, which loads the created device once more for its reply. */
    method CreateDeviceFromDto(dto: DeviceDto, trip: Trip, again: Trip, at: Instant) returns (ok: bool)
      requires Valid()
      modifies this
      ensures Outcome(ok, Contents()) == CreateDeviceOutcome(texts, old(Contents()), dto, trip, again, at)
      ensures Valid()
    {
      CreateKeepsInv(texts, Contents(), dto, trip, again, at);
      if dto.clipart.Some? && |dto.clipart.value| > 512 {
        return false;
      }
      var device := IntoDevice(texts, dto, at);
      if device.None? {
        return false;
      }
      var loaded;
      ok, loaded := LoadDeviceRefs(device.value, trip);
      if !ok {
        return false;
      }
      var id := InsertDevice(loaded.inner);
      ok, loaded := LoadDeviceRefs(devices[id], again);
    }

    /** The `update_device` route. */
    method UpdateDeviceFromDto(id: int, dto: DeviceDto, trip: Trip) returns (ok: bool)
      requires Valid()
      modifies this
      ensures Outcome(ok, Contents()) == UpdateDeviceOutcome(texts, old(Contents()), id, dto, trip)
      ensures Valid()
    {
      UpdateKeepsInv(texts, Contents(), id, dto, trip);
      if !ValidDto(dto) || id !in devices {
        return false;
      }
      var loaded;
      ok, loaded := LoadDeviceRefs(ApplyDto(texts, devices[id], dto), trip);
      if ok {
        ok := UpdateDeviceRow(loaded.inner);
      }
    }

    /** The `delete_device` route. */
    method DeleteDeviceRow(id: int) returns (ok: bool)
      requires Valid()
      modifies `devices, `config
      ensures Outcome(ok, Contents()) == DeleteDeviceOutcome(old(Contents()), id)
      ensures Valid()
    {
      if id !in devices {
        return false;
      }
      devices := devices - {id};
      UpdateConfigVersion();
      ok := true;
    }

    // -------------------------------------------------------------- polling

    /** `heartbeat`: the version is read first, the devices and their profiles afterwards. */
    method Heartbeat(version: Option<string>, trips: int -> Trip)
      returns (reply: Option<Firewall.EnforcerConfig>)
      requires Valid()
      modifies `muds
      ensures (reply, muds) == HeartbeatReply(texts, old(Contents()), version, trips)
      ensures Valid()
    {
      var current := VersionText(config);
      if version == Some(current) {
        return None;
      }
      var list := DeviceList(Table(devices, nextId), 1);
      var loaded: seq<DeviceWithRefs> := [];
      ghost var all := LoadAll(texts, muds, list, trips);
      for i := 0 to |list|
        invariant Valid()
        invariant var rest := LoadAll(texts, muds, list[i..], trips);
                  all.ok == rest.ok && all.muds == rest.muds && (all.ok ==> all.devices == loaded + rest.devices)
      {
        assert list[i..][1..] == list[i + 1..];
        var ok, one := LoadDeviceRefs(list[i], trips(list[i].id));
        if !ok {
          return Some(Firewall.EnforcerConfig(current, Firewall.Configurations(texts.ipText, []), texts.domain));
        }
        loaded := loaded + [one];
      }
      assert list[|list|..] == [] && loaded + [] == loaded;
      reply := Some(Firewall.EnforcerConfig(current, Firewall.Configurations(texts.ipText, loaded), texts.domain));
    }

    // -------------------------------------------------------------- calls one after another

    /** One call of any service or route. */
    method Handle(op: Op) returns (ok: bool)
      requires Valid()
      modifies this
      ensures Outcome(ok, Contents()) == Perform(texts, old(Contents()), op)
      ensures Valid()
    {
      match op
      case DhcpLease(lease, trip, at) => ok := UpsertDeviceFromDhcpLease(lease, trip, at);
      case CreateDevice(dto, trip, again, at) => ok := CreateDeviceFromDto(dto, trip, again, at);
      case UpdateDevice(id, dto, trip) => ok := UpdateDeviceFromDto(id, dto, trip);
      case DeleteDevice(id) => ok := DeleteDeviceRow(id);
      case CreateMud(url, overrides, visit) => ok := CreateMudProfile(url, overrides, visit);
      case UpdateMud(url, overrides) => ok := UpdateMudProfile(url, overrides);
      case DeleteMud(url) => ok := DeleteMudProfile(url);
      case ReadMud(url, visit) =>
        var r := GetOrFetchMud(url, visit);
        ok := r.Success?;
      case RefreshJob(listing, checkedAt, visits) => ok := UpdateOutdatedProfiles(listing, checkedAt, visits);
      case SetConfig(key, value) =>
        config := config[key := value];
        ok := true;
      case RemoveConfig(key) =>
        ok := key in config;
        config := config - {key};
    }

    /**
     Any sequence of calls, failed ones included. The database ends as the sequential run says and is
     still valid, so every reference holds and every stored profile and device loads before 2060.
     */
    method HandleAll(ops: seq<Op>)
      requires Valid()
      modifies this
      ensures Contents() == Run(texts, old(Contents()), ops) && Valid()
      ensures forall id :: id in devices && devices[id].mudUrl.Some? ==> devices[id].mudUrl.value in muds
      ensures forall url, v: Visit :: url in muds && v.now < CUSTOM_EXPIRATION ==>
                GetOrFetch(texts.mud, muds, url, v).result.Success?
    {
      ghost var end := Run(texts, Contents(), ops);
      for i := 0 to |ops|
        invariant Valid() && Run(texts, Contents(), ops[i..]) == end
      {
        assert ops[i..][1..] == ops[i + 1..];
        var _ := Handle(ops[i]);
      }
      assert ops[|ops|..] == [];
      forall url, v: Visit | url in muds && v.now < CUSTOM_EXPIRATION
        ensures GetOrFetch(texts.mud, muds, url, v).result.Success?
      {
        StoredLookupFailsIff(texts.mud, muds, url, v);
      }
    }
  }

  /** What a lookup keeps, and when it cannot fail. */
  lemma LookupFacts(x: Texts, t: Tables, url: string, v: Visit)
    ensures var l := GetOrFetch(x.mud, t.muds, url, v);
            && (Inv(x, t) ==> Inv(x, t.(muds := l.table)))
            && (Inv(x, t) && url in t.muds && v.now < CUSTOM_EXPIRATION ==> l.result.Success?)
  {
    LookupKeeps(x.mud, t.muds, url, v);
    if url in t.muds {
      StoredLookupFailsIff(x.mud, t.muds, url, v);
    }
  }
}
