/**
 The controller's operations on its tables, one after another: DHCP leases, the device, MUD and
 configuration routes, lookups and the refresh job. Each operation is given as a function of the tables; the
 theorems are about every run of them.
 */
module Controller {
  import opened Prelude
  import opened Models
  import opened MudCache
  import opened DeviceTable
  import opened ConfigVersion
  import Firewall

  datatype Tables = Tables(muds: MudTable, devices: Table, config: Config)

  const NO_TABLES := Tables(map[], EMPTY, map[])

  /** Everything the operations ask foreign text code, and the controller's own domain name. */
  datatype Texts = Texts(
    mud: TextRules,
    ipText: Firewall.IpText,
    parseV4: string -> Option<nat>,
    parseV6: string -> Option<nat>,
    parseMac: string -> Option<nat>,
    printInstant: Instant -> string,
    domain: string)

  /** One `load_refs`: the lookup it may make, and whether the device's room exists. */
  datatype Trip = Trip(visit: Visit, roomFound: bool)

  datatype DeviceDto = DeviceDto(
    name: Option<string>, ipv4: Option<string>, ipv6: Option<string>, mac: Option<string>, duid: Option<string>,
    hostname: Option<string>, vendorClass: Option<string>, mudUrl: Option<string>, clipart: Option<string>,
    roomId: Option<int>, collectInfo: Option<bool>)

  datatype Op =
    | DhcpLease(lease: Lease, trip: Trip, at: Instant)
    | CreateDevice(dto: DeviceDto, trip: Trip, again: Trip, at: Instant)
    | UpdateDevice(id: int, dto: DeviceDto, trip: Trip)
    | DeleteDevice(id: int)
    | CreateMud(url: string, overrides: Option<seq<Acl>>, visit: Visit)
    | UpdateMud(url: string, overrides: Option<seq<Acl>>)
    | DeleteMud(url: string)
    | ReadMud(url: string, visit: Visit)
    | RefreshJob(listing: seq<string>, checkedAt: string -> Instant, visits: Visits)
    | SetConfig(key: string, value: string)
    | RemoveConfig(key: string)

  /** Whether the operation reported success, and the tables it left. */
  datatype Outcome = Outcome(ok: bool, tables: Tables)

  // ---------------------------------------------------------------- operations

  datatype LoadedRefs = LoadedRefs(ok: bool, mudData: Option<MudData>, muds: MudTable)

  /** `load_refs` */
  function LoadRefs(x: Texts, muds: MudTable, d: Device, trip: Trip): LoadedRefs {
    if d.roomId.Some? && !trip.roomFound then LoadedRefs(false, None, muds)
    else match d.mudUrl
      case None => LoadedRefs(true, None, muds)
      case Some(url) =>
        var l := GetOrFetch(x.mud, muds, url, trip.visit);
        LoadedRefs(l.result.Success?, if l.result.Success? then Some(l.result.value) else None, l.table)
  }

  function CollectSetting(config: Config): bool {
    COLLECT_KEY in config && config[COLLECT_KEY] == "true"
  }

  /** `upsert_device_from_dhcp_lease` */
  function LeaseOutcome(x: Texts, t: Tables, lease: Lease, trip: Trip, at: Instant): Outcome {
    var collect := lease.mudUrl.None? && CollectSetting(t.config);
    var refs := LoadRefs(x, t.muds, LeaseDevice(t.devices, lease, collect, at), trip);
    Outcome(refs.ok, Tables(refs.muds, UpsertLease(t.devices, lease, collect, at, refs.ok),
                            if refs.ok then Bump(t.config) else t.config))
  }

  predicate ValidDto(dto: DeviceDto) {
    dto.clipart.Some? ==> |dto.clipart.value| <= 512
  }

  function Read<T>(parse: string -> Option<T>, text: Option<string>): Option<T> {
    if text.Some? then parse(text.value) else None
  }

  /** `into_device`; an unreadable MAC is an error, unreadable addresses are dropped. */
  function IntoDevice(x: Texts, dto: DeviceDto, at: Instant): Option<Device> {
    if dto.mac.Some? && x.parseMac(dto.mac.value).None? then None
    else Some(Device(0, None, Read(x.parseV4, dto.ipv4), Read(x.parseV6, dto.ipv6), Read(x.parseMac, dto.mac), dto.duid,
                     if dto.hostname.Some? then dto.hostname.value else "",
                     if dto.vendorClass.Some? then dto.vendorClass.value else "",
                     dto.mudUrl, if dto.collectInfo.Some? then dto.collectInfo.value else dto.mudUrl.None?,
                     at, dto.roomId, dto.clipart))
  }

  /** `apply_to` */
  function ApplyDto(x: Texts, d: Device, dto: DeviceDto): Device {
    d.(name := if dto.name.Some? then dto.name else d.name,
       ipv4 := if dto.ipv4.Some? then x.parseV4(dto.ipv4.value) else d.ipv4,
       ipv6 := if dto.ipv6.Some? then x.parseV6(dto.ipv6.value) else d.ipv6,
       mac := if dto.mac.Some? then x.parseMac(dto.mac.value) else d.mac,
       duid := if dto.duid.Some? then dto.duid else d.duid,
       hostname := if dto.hostname.Some? then dto.hostname.value else d.hostname,
       vendorClass := if dto.vendorClass.Some? then dto.vendorClass.value else d.vendorClass,
       mudUrl := if dto.mudUrl.Some? then dto.mudUrl else d.mudUrl,
       collectInfo := if dto.collectInfo.Some? then dto.collectInfo.value else d.collectInfo,
       roomId := if dto.roomId.Some? then dto.roomId else d.roomId,
       clipart := if dto.clipart.Some? then dto.clipart else d.clipart)
  }

  function CreateDeviceOutcome(x: Texts, t: Tables, dto: DeviceDto, trip: Trip, again: Trip, at: Instant): Outcome {
    if !ValidDto(dto) || IntoDevice(x, dto, at).None? then Outcome(false, t)
    else
      var device := IntoDevice(x, dto, at).value;
      var refs := LoadRefs(x, t.muds, device, trip);
      if !refs.ok then Outcome(false, t.(muds := refs.muds))
      else
        var shown := LoadRefs(x, refs.muds, device, again);
        Outcome(shown.ok, Tables(shown.muds, InsertRow(t.devices, device), Bump(t.config)))
  }

  function UpdateDeviceOutcome(x: Texts, t: Tables, id: int, dto: DeviceDto, trip: Trip): Outcome {
    if !ValidDto(dto) || id !in t.devices.rows then Outcome(false, t)
    else
      var device := ApplyDto(x, t.devices.rows[id], dto);
      var refs := LoadRefs(x, t.muds, device, trip);
      if !refs.ok then Outcome(false, t.(muds := refs.muds))
      else Outcome(true, Tables(refs.muds, UpdateRow(t.devices, device), Bump(t.config)))
  }

  function DeleteDeviceOutcome(t: Tables, id: int): Outcome {
    if id !in t.devices.rows then Outcome(false, t)
    else Outcome(true, t.(devices := DeleteRow(t.devices, id), config := Bump(t.config)))
  }

  function OrEmpty(overrides: Option<seq<Acl>>): seq<Acl> {
    if overrides.Some? then overrides.value else []
  }

  function CreateMudOutcome(x: Texts, t: Tables, url: string, overrides: Option<seq<Acl>>, v: Visit): Outcome {
    if url in t.muds then Outcome(false, t)
    else if x.mud.isUrl(url) then
      var l := GetOrFetch(x.mud, t.muds, url, v);
      Outcome(l.result.Success?, t.(muds := l.table))
    else
      var data := CustomProfile(url, x.printInstant(v.now), OrEmpty(overrides));
      Outcome(true, t.(muds := t.muds[url := Row(data, v.savedAt, data.expiration)]))
  }

  function UpdateMudOutcome(t: Tables, url: string, overrides: Option<seq<Acl>>): Outcome {
    if url !in t.muds then Outcome(false, t)
    else
      var row := t.muds[url];
      Outcome(true, t.(muds := t.muds[url := row.(data := row.data.(aclOverride := OrEmpty(overrides)))],
                       config := Bump(t.config)))
  }

  ghost predicate MudUsed(devices: Table, url: string) {
    exists id :: id in devices.rows && devices.rows[id].mudUrl == Some(url)
  }

  ghost function DeleteMudOutcome(t: Tables, url: string): Outcome {
    if url !in t.muds || MudUsed(t.devices, url) then Outcome(false, t)
    else Outcome(true, t.(muds := t.muds - {url}))
  }

  function ReadMudOutcome(x: Texts, t: Tables, url: string, v: Visit): Outcome {
    var l := GetOrFetch(x.mud, t.muds, url, v);
    Outcome(l.result.Success?, t.(muds := l.table))
  }

  /** The URLs of a listing that are stored. */
  function Stored(table: MudTable, listing: seq<string>): (urls: seq<string>)
    ensures forall u :: u in urls <==> u in listing && u in table
  {
    if listing == [] then []
    else (if listing[0] in table then [listing[0]] else []) + Stored(table, listing[1..])
  }

  /** `update_outdated_profiles` */
  function RefreshOutcome(x: Texts, t: Tables, listing: seq<string>, checkedAt: string -> Instant, visits: Visits): Outcome {
    var urls := Selected(t.muds, Stored(t.muds, listing), checkedAt);
    if urls == [] then Outcome(true, t)
    else
      var r := RefreshAll(x.mud, t.muds, urls, visits);
      Outcome(r.ok, t.(muds := r.table, config := if r.ok then Bump(t.config) else t.config))
  }

  ghost function Perform(x: Texts, t: Tables, op: Op): Outcome {
    match op
    case DhcpLease(lease, trip, at) => LeaseOutcome(x, t, lease, trip, at)
    case CreateDevice(dto, trip, again, at) => CreateDeviceOutcome(x, t, dto, trip, again, at)
    case UpdateDevice(id, dto, trip) => UpdateDeviceOutcome(x, t, id, dto, trip)
    case DeleteDevice(id) => DeleteDeviceOutcome(t, id)
    case CreateMud(url, overrides, visit) => CreateMudOutcome(x, t, url, overrides, visit)
    case UpdateMud(url, overrides) => UpdateMudOutcome(t, url, overrides)
    case DeleteMud(url) => DeleteMudOutcome(t, url)
    case ReadMud(url, visit) => ReadMudOutcome(x, t, url, visit)
    case RefreshJob(listing, checkedAt, visits) => RefreshOutcome(x, t, listing, checkedAt, visits)
    case SetConfig(key, value) => Outcome(true, t.(config := t.config[key := value]))
    case RemoveConfig(key) => Outcome(key in t.config, t.(config := t.config - {key}))
  }

  ghost function Run(x: Texts, t: Tables, ops: seq<Op>): Tables
    decreases |ops|
  {
    if ops == [] then t else Run(x, Perform(x, t, ops[0]).tables, ops[1..])
  }

  // ---------------------------------------------------------------- integrity over every run

  /** Every device's MUD URL names a stored row. */
  ghost predicate Referenced(muds: MudTable, devices: Table) {
    forall id :: id in devices.rows && devices.rows[id].mudUrl.Some? ==> devices.rows[id].mudUrl.value in muds
  }

  /** Rows sit under their ids, and their profiles are there. */
  ghost predicate Sound(t: Tables) {
    Valid(t.devices) && Referenced(t.muds, t.devices)
  }

  ghost predicate Inv(x: Texts, t: Tables) {
    Sound(t) && KeysOk(x.mud, t.muds) && RowsAgree(t.muds)
  }

  /** The MUD table only grew, and keeps its discipline. */
  ghost predicate MudsGrew(x: Texts, before: MudTable, after: MudTable) {
    && before.Keys <= after.Keys
    && (KeysOk(x.mud, before) ==> KeysOk(x.mud, after))
    && (RowsAgree(before) ==> RowsAgree(after))
  }

  /** A successful load leaves the device's row behind; a failed one writes nothing. */
  lemma LoadRefsFacts(x: Texts, muds: MudTable, d: Device, trip: Trip)
    ensures var refs := LoadRefs(x, muds, d, trip);
            && MudsGrew(x, muds, refs.muds)
            && (refs.ok && d.mudUrl.Some? ==> d.mudUrl.value in refs.muds)
            && (!refs.ok ==> refs.muds == muds)
  {
    if d.mudUrl.Some? {
      LookupKeeps(x.mud, muds, d.mudUrl.value, trip.visit);
      LookupLeavesRow(x.mud, muds, d.mudUrl.value, trip.visit);
    }
  }

  lemma LeaseKeepsReferenced(muds: MudTable, devices: Table, lease: Lease, collect: bool, at: Instant, loads: bool)
    requires Valid(devices) && Referenced(muds, devices)
    requires var url := LeaseDevice(devices, lease, collect, at).mudUrl; loads && url.Some? ==> url.value in muds
    ensures Referenced(muds, UpsertLease(devices, lease, collect, at, loads))
  {
    LeaseFrame(devices, lease, collect, at, loads);
  }

  lemma LeaseKeepsInv(x: Texts, t: Tables, lease: Lease, trip: Trip, at: Instant)
    requires Inv(x, t)
    ensures Inv(x, LeaseOutcome(x, t, lease, trip, at).tables)
  {
    var collect := lease.mudUrl.None? && CollectSetting(t.config);
    var device := LeaseDevice(t.devices, lease, collect, at);
    var refs := LoadRefs(x, t.muds, device, trip);
    LoadRefsFacts(x, t.muds, device, trip);
    UpsertKeepsValid(t.devices, lease, collect, at, refs.ok);
    LeaseKeepsReferenced(refs.muds, t.devices, lease, collect, at, refs.ok);
  }

  /** Storing a device whose profile is there keeps the references. */
  lemma InsertKeepsReferenced(muds: MudTable, devices: Table, d: Device)
    requires Valid(devices) && Referenced(muds, devices) && (d.mudUrl.Some? ==> d.mudUrl.value in muds)
    ensures Valid(InsertRow(devices, d)) && Referenced(muds, InsertRow(devices, d))
  {
  }

  lemma CreateKeepsInv(x: Texts, t: Tables, dto: DeviceDto, trip: Trip, again: Trip, at: Instant)
    requires Inv(x, t)
    ensures Inv(x, CreateDeviceOutcome(x, t, dto, trip, again, at).tables)
  {
    if ValidDto(dto) && IntoDevice(x, dto, at).Some? {
      var device := IntoDevice(x, dto, at).value;
      var refs := LoadRefs(x, t.muds, device, trip);
      LoadRefsFacts(x, t.muds, device, trip);
      if refs.ok {
        var shown := LoadRefs(x, refs.muds, device, again);
        LoadRefsFacts(x, refs.muds, device, again);
        InsertKeepsReferenced(shown.muds, t.devices, device);
      }
    }
  }

  lemma UpdateKeepsInv(x: Texts, t: Tables, id: int, dto: DeviceDto, trip: Trip)
    requires Inv(x, t)
    ensures Inv(x, UpdateDeviceOutcome(x, t, id, dto, trip).tables)
  {
    if id in t.devices.rows {
      LoadRefsFacts(x, t.muds, ApplyDto(x, t.devices.rows[id], dto), trip);
    }
  }

  lemma CreateMudKeepsInv(x: Texts, t: Tables, url: string, overrides: Option<seq<Acl>>, v: Visit)
    requires Inv(x, t)
    ensures Inv(x, CreateMudOutcome(x, t, url, overrides, v).tables)
  {
    LookupKeeps(x.mud, t.muds, url, v);
  }

  lemma ChangeMudKeepsInv(x: Texts, t: Tables, url: string, overrides: Option<seq<Acl>>)
    requires Inv(x, t)
    ensures Inv(x, UpdateMudOutcome(t, url, overrides).tables)
    ensures Inv(x, DeleteMudOutcome(t, url).tables)
  {
  }

  lemma StepKeepsInv(x: Texts, t: Tables, op: Op)
    requires Inv(x, t)
    ensures Inv(x, Perform(x, t, op).tables)
  {
    match op
    case DhcpLease(lease, trip, at) => LeaseKeepsInv(x, t, lease, trip, at);
    case CreateDevice(dto, trip, again, at) => CreateKeepsInv(x, t, dto, trip, again, at);
    case UpdateDevice(id, dto, trip) => UpdateKeepsInv(x, t, id, dto, trip);
    case CreateMud(url, overrides, visit) => CreateMudKeepsInv(x, t, url, overrides, visit);
    case ReadMud(url, visit) => LookupKeeps(x.mud, t.muds, url, visit);
    case RefreshJob(listing, checkedAt, visits) =>
      RefreshKeeps(x.mud, t.muds, Selected(t.muds, Stored(t.muds, listing), checkedAt), visits);
    case DeleteMud(url) => ChangeMudKeepsInv(x, t, url, None);
    case UpdateMud(url, overrides) => ChangeMudKeepsInv(x, t, url, overrides);
    case DeleteDevice(_) =>
    case SetConfig(_, _) =>
    case RemoveConfig(_) =>
  }

  lemma {:induction false} RunKeepsInv(x: Texts, t: Tables, ops: seq<Op>)
    requires Inv(x, t)
    ensures Inv(x, Run(x, t, ops))
    decreases |ops|
  {
    if ops != [] {
      StepKeepsInv(x, t, ops[0]);
      RunKeepsInv(x, Perform(x, t, ops[0]).tables, ops[1..]);
    }
  }

  /** Referential integrity: after every run, every device's MUD URL names a stored row. */
  lemma ReferentialIntegrity(x: Texts, ops: seq<Op>)
    ensures var t := Run(x, NO_TABLES, ops); Referenced(t.muds, t.devices) && RowsAgree(t.muds)
  {
    RunKeepsInv(x, NO_TABLES, ops);
  }

  /** After every run each stored key begins with "https://", or is no URL and expires in 2060. */
  lemma StoredKeys(x: Texts, ops: seq<Op>, url: string)
    requires url in Run(x, NO_TABLES, ops).muds
    ensures || (x.mud.isUrl(url) && "https://" <= url)
            || (!x.mud.isUrl(url) && Run(x, NO_TABLES, ops).muds[url].expiration == CUSTOM_EXPIRATION)
  {
    RunKeepsInv(x, NO_TABLES, ops);
  }

  /** Total lookup: after every run, before 2060, a stored key loads whatever the network does. */
  lemma TotalLookup(x: Texts, ops: seq<Op>, url: string, v: Visit)
    requires url in Run(x, NO_TABLES, ops).muds && v.now < CUSTOM_EXPIRATION
    ensures GetOrFetch(x.mud, Run(x, NO_TABLES, ops).muds, url, v).result.Success?
  {
    RunKeepsInv(x, NO_TABLES, ops);
    StoredLookupFailsIff(x.mud, Run(x, NO_TABLES, ops).muds, url, v);
  }

  /** Hence every stored device whose room exists loads. */
  lemma DevicesAlwaysLoad(x: Texts, ops: seq<Op>, id: int, trip: Trip)
    requires id in Run(x, NO_TABLES, ops).devices.rows && trip.roomFound && trip.visit.now < CUSTOM_EXPIRATION
    ensures var t := Run(x, NO_TABLES, ops); LoadRefs(x, t.muds, t.devices.rows[id], trip).ok
  {
    var t := Run(x, NO_TABLES, ops);
    ReferentialIntegrity(x, ops);
    if t.devices.rows[id].mudUrl.Some? {
      TotalLookup(x, ops, t.devices.rows[id].mudUrl.value, trip.visit);
    }
  }

  /** Without the device routes, which clear no addresses, no run makes two devices share an address or a MAC. */
  lemma {:induction false} RunKeepsUnique(x: Texts, t: Tables, ops: seq<Op>)
    requires Valid(t.devices) && Unique(t.devices)
    requires forall i :: 0 <= i < |ops| ==> !ops[i].CreateDevice? && !ops[i].UpdateDevice?
    ensures Unique(Run(x, t, ops).devices)
    decreases |ops|
  {
    if ops != [] {
      if ops[0].DhcpLease? {
        var lease, at := ops[0].lease, ops[0].at;
        var collect := lease.mudUrl.None? && CollectSetting(t.config);
        var ok := LoadRefs(x, t.muds, LeaseDevice(t.devices, lease, collect, at), ops[0].trip).ok;
        UpsertKeepsValid(t.devices, lease, collect, at, ok);
        UpsertKeepsUnique(t.devices, lease, collect, at, ok);
      }
      RunKeepsUnique(x, Perform(x, t, ops[0]).tables, ops[1..]);
    }
  }

  // ---------------------------------------------------------------- what the operations store

  /** A lease collects data about a new device when it has no MUD URL and the setting says so. */
  predicate Collects(config: Config, lease: Lease) {
    lease.mudUrl == None && COLLECT_KEY in config && config[COLLECT_KEY] == "true"
  }

  /** A successful lease leaves its device in the row it matches, or in a new one, and everything else is as `LeaseFrame` says. */
  lemma LeaseStores(x: Texts, t: Tables, lease: Lease, trip: Trip, at: Instant)
    requires Sound(t) && LeaseOutcome(x, t, lease, trip, at).ok
    ensures var after := LeaseOutcome(x, t, lease, trip, at).tables;
            var target := Target(t.devices, lease);
            && target in after.devices.rows && Reflects(after.devices.rows[target], lease)
            && (Matches(t.devices, lease, target) ==>
                  KeepsTheRest(t.devices.rows[target], after.devices.rows[target], lease))
            && (!Matches(t.devices, lease, target) ==>
                  && target == t.devices.nextId && after.devices.rows[target].id == target
                  && KnownFromLease(after.devices.rows[target], lease, Collects(t.config, lease), at)
                  && forall id :: id in t.devices.rows ==> !Matches(t.devices, lease, id))
            && after.config == Bump(t.config)
  {
    LeaseRow(t.devices, lease, lease.mudUrl.None? && CollectSetting(t.config), at);
  }

  /** What a route reads from a text of its request: nothing when it is missing, or unreadable. */
  predicate ReadsAs<T(==)>(parse: string -> Option<T>, text: Option<string>, value: Option<T>) {
    (text.None? ==> value == None) && (text.Some? ==> value == parse(text.value))
  }

  /** A new device has what the request gives, and collects data unless told otherwise or known by a MUD URL. */
  predicate MadeFrom(x: Texts, dto: DeviceDto, at: Instant, d: Device) {
    && ReadsAs(x.parseV4, dto.ipv4, d.ipv4) && ReadsAs(x.parseV6, dto.ipv6, d.ipv6) && ReadsAs(x.parseMac, dto.mac, d.mac)
    && d.duid == dto.duid && d.mudUrl == dto.mudUrl && d.roomId == dto.roomId && d.clipart == dto.clipart
    && (dto.hostname.Some? ==> d.hostname == dto.hostname.value) && (dto.hostname.None? ==> d.hostname == "")
    && (dto.vendorClass.Some? ==> d.vendorClass == dto.vendorClass.value) && (dto.vendorClass.None? ==> d.vendorClass == "")
    && (dto.collectInfo.Some? ==> d.collectInfo == dto.collectInfo.value)
    && (dto.collectInfo.None? ==> (d.collectInfo <==> dto.mudUrl.None?))
    && d.name == None && d.lastInteraction == at
  }

  /** The request can be stored: the clipart is short enough and a MAC, if given, is readable. */
  predicate Storable(x: Texts, dto: DeviceDto) {
    (dto.clipart.Some? ==> |dto.clipart.value| <= 512) && (dto.mac.Some? ==> x.parseMac(dto.mac.value).Some?)
  }

  lemma IntoDeviceMade(x: Texts, dto: DeviceDto, at: Instant)
    ensures ValidDto(dto) && IntoDevice(x, dto, at).Some? <==> Storable(x, dto)
    ensures IntoDevice(x, dto, at).Some? ==> MadeFrom(x, dto, at, IntoDevice(x, dto, at).value)
  {
  }

  /** Room and profile of a device can be loaded. */
  predicate Loads(x: Texts, muds: MudTable, mudUrl: Option<string>, roomId: Option<int>, trip: Trip) {
    && (roomId.Some? ==> trip.roomFound)
    && (mudUrl.Some? ==> GetOrFetch(x.mud, muds, mudUrl.value, trip.visit).result.Success?)
  }

  /** The device route stores one new row made from the request, if it can be stored and loads, and otherwise nothing. */
  lemma CreatedDevice(x: Texts, t: Tables, dto: DeviceDto, trip: Trip, again: Trip, at: Instant)
    requires Sound(t)
    ensures var after, id := CreateDeviceOutcome(x, t, dto, trip, again, at).tables, t.devices.nextId;
            if Storable(x, dto) && Loads(x, t.muds, dto.mudUrl, dto.roomId, trip) then
              && after.devices.nextId == id + 1 && after.config == Bump(t.config)
              && after.devices.rows.Keys == t.devices.rows.Keys + {id}
              && after.devices.rows[id].id == id && MadeFrom(x, dto, at, after.devices.rows[id])
              && forall i :: i in t.devices.rows ==> after.devices.rows[i] == t.devices.rows[i]
            else after == t && !CreateDeviceOutcome(x, t, dto, trip, again, at).ok
  {
    IntoDeviceMade(x, dto, at);
    if Storable(x, dto) {
      var d := IntoDevice(x, dto, at).value;
      LoadRefsFacts(x, t.muds, d, trip);
      LoadsIff(x, t.muds, d, trip);
    }
  }

  lemma LoadsIff(x: Texts, muds: MudTable, d: Device, trip: Trip)
    ensures LoadRefs(x, muds, d, trip).ok <==> Loads(x, muds, d.mudUrl, d.roomId, trip)
  {
  }

  /** A field the request has replaces the old value, and one it does not have leaves it. */
  predicate Replaces<T(==)>(given: Option<T>, before: T, after: T) {
    (given.Some? ==> after == given.value) && (given.None? ==> after == before)
  }

  predicate ReplacesText<T(==)>(parse: string -> Option<T>, given: Option<string>, before: Option<T>, after: Option<T>) {
    (given.Some? ==> after == parse(given.value)) && (given.None? ==> after == before)
  }

  predicate ReplacesOption<T(==)>(given: Option<T>, before: Option<T>, after: Option<T>) {
    (given.Some? ==> after == given) && (given.None? ==> after == before)
  }

  /** The device after an update: every given field replaced, unreadable addresses and MACs cleared, all else kept. */
  predicate ChangedBy(x: Texts, dto: DeviceDto, before: Device, after: Device) {
    && ReplacesOption(dto.name, before.name, after.name)
    && ReplacesText(x.parseV4, dto.ipv4, before.ipv4, after.ipv4)
    && ReplacesText(x.parseV6, dto.ipv6, before.ipv6, after.ipv6)
    && ReplacesText(x.parseMac, dto.mac, before.mac, after.mac)
    && ReplacesOption(dto.duid, before.duid, after.duid)
    && Replaces(dto.hostname, before.hostname, after.hostname)
    && Replaces(dto.vendorClass, before.vendorClass, after.vendorClass)
    && ReplacesOption(dto.mudUrl, before.mudUrl, after.mudUrl)
    && Replaces(dto.collectInfo, before.collectInfo, after.collectInfo)
    && ReplacesOption(dto.roomId, before.roomId, after.roomId)
    && ReplacesOption(dto.clipart, before.clipart, after.clipart)
    && after.id == before.id && after.lastInteraction == before.lastInteraction
  }

  lemma ApplyDtoChanges(x: Texts, dto: DeviceDto, d: Device)
    ensures ChangedBy(x, dto, d, ApplyDto(x, d, dto))
  {
  }

  /** The update route changes that one row, if it is there, the clipart is short enough and the changed device loads. */
  lemma UpdatedDevice(x: Texts, t: Tables, id: int, dto: DeviceDto, trip: Trip)
    requires Sound(t)
    ensures var r := UpdateDeviceOutcome(x, t, id, dto, trip);
            if r.ok then
              && id in t.devices.rows && (dto.clipart.Some? ==> |dto.clipart.value| <= 512)
              && r.tables.devices.rows.Keys == t.devices.rows.Keys && r.tables.devices.nextId == t.devices.nextId
              && ChangedBy(x, dto, t.devices.rows[id], r.tables.devices.rows[id])
              && Loads(x, t.muds, r.tables.devices.rows[id].mudUrl, r.tables.devices.rows[id].roomId, trip)
              && (forall i :: i in t.devices.rows && i != id ==> r.tables.devices.rows[i] == t.devices.rows[i])
              && r.tables.config == Bump(t.config)
            else
              && r.tables == t
              && (id in t.devices.rows && (dto.clipart.Some? ==> |dto.clipart.value| <= 512) ==>
                    forall d :: ChangedBy(x, dto, t.devices.rows[id], d) ==> !Loads(x, t.muds, d.mudUrl, d.roomId, trip))
  {
    if id in t.devices.rows {
      var d := ApplyDto(x, t.devices.rows[id], dto);
      ApplyDtoChanges(x, dto, t.devices.rows[id]);
      LoadRefsFacts(x, t.muds, d, trip);
      LoadsIff(x, t.muds, d, trip);
    }
  }

  /** An update of a profile stores the given overrides, none when none are given, and touches nothing else of the row. */
  lemma UpdatedMud(t: Tables, url: string, overrides: Option<seq<Acl>>)
    ensures var r := UpdateMudOutcome(t, url, overrides);
            && (r.ok <==> url in t.muds) && (!r.ok ==> r.tables == t)
            && r.tables.muds.Keys == t.muds.Keys && r.tables.devices == t.devices
            && (r.ok ==>
                  && r.tables.config == Bump(t.config)
                  && (overrides.Some? ==> r.tables.muds[url].data.aclOverride == overrides.value)
                  && (overrides.None? ==> r.tables.muds[url].data.aclOverride == [])
                  && r.tables.muds[url].data.(aclOverride := t.muds[url].data.aclOverride) == t.muds[url].data
                  && r.tables.muds[url].createdAt == t.muds[url].createdAt
                  && r.tables.muds[url].expiration == t.muds[url].expiration)
            && (forall u :: u in t.muds && u != url ==> r.tables.muds[u] == t.muds[u])
  {
  }

  /** Creating a profile under a name that is no URL stores an empty one with the given overrides until 2060; a taken key is refused. */
  lemma CreatedMud(x: Texts, t: Tables, url: string, overrides: Option<seq<Acl>>, v: Visit)
    ensures var r := CreateMudOutcome(x, t, url, overrides, v);
            && (url in t.muds ==> r == Outcome(false, t))
            && (forall u :: u in t.muds ==> u in r.tables.muds && r.tables.muds[u] == t.muds[u])
            && r.tables.devices == t.devices && r.tables.config == t.config
            && (url !in t.muds && !x.mud.isUrl(url) ==>
                  && r.ok && r.tables.muds.Keys == t.muds.Keys + {url}
                  && var row := r.tables.muds[url];
                  && row.data.url == url && row.data.acllist == [] && row.expiration == CUSTOM_EXPIRATION
                  && row.data.expiration == CUSTOM_EXPIRATION && row.createdAt == v.savedAt
                  && row.data.lastUpdate == x.printInstant(v.now)
                  && (overrides.Some? ==> row.data.aclOverride == overrides.value)
                  && (overrides.None? ==> row.data.aclOverride == []))
            && (url !in t.muds && x.mud.isUrl(url) && !("https://" <= url) ==> r == Outcome(false, t))
  {
    OnlyHttpsIsFetched(x.mud, t.muds, url, v);
    LookupKeeps(x.mud, t.muds, url, v);
  }

  /** A listed profile that had expired when the job looked at it. */
  predicate IsDue(t: Tables, listing: seq<string>, checkedAt: string -> Instant, url: string) {
    url in t.muds && url in listing && t.muds[url].expiration < checkedAt(url)
  }

  /**
   The refresh job, before 2060: it succeeds, looks up exactly the listed profiles that had expired,
   each as if alone, leaves every other row alone, and bumps once if there was any to look up.
   */
  lemma RefreshedProfiles(x: Texts, t: Tables, listing: seq<string>, checkedAt: string -> Instant, visits: Visits)
    requires Inv(x, t) && forall u :: u in listing ==> visits(u).now < CUSTOM_EXPIRATION
    ensures var r := RefreshOutcome(x, t, listing, checkedAt, visits);
            && r.ok && r.tables.devices == t.devices && r.tables.muds.Keys == t.muds.Keys
            && (forall u :: u in t.muds ==>
                  r.tables.muds[u] == if IsDue(t, listing, checkedAt, u) then GetOrFetch(x.mud, t.muds, u, visits(u)).table[u]
                                      else t.muds[u])
            && ((exists u :: IsDue(t, listing, checkedAt, u)) ==> r.tables.config == Bump(t.config))
            && ((forall u :: !IsDue(t, listing, checkedAt, u)) ==> r.tables.config == t.config)
  {
    var urls := Selected(t.muds, Stored(t.muds, listing), checkedAt);
    assert forall u :: u in urls <==> IsDue(t, listing, checkedAt, u);
    assert forall u :: u in urls ==> !Stuck(x.mud, t.muds, u, visits(u));
    RefreshRows(x.mud, t.muds, urls, visits);
    assert Reached(x.mud, t.muds, urls, visits) == |urls| && urls[..|urls|] == urls;
    var after := RefreshAll(x.mud, t.muds, urls, visits).table;
    assert forall u :: u in t.muds ==> RowAfter(x.mud, t.muds, after, urls, visits, u);
    if urls != [] {
      assert urls[0] in urls;
    }
  }
}
