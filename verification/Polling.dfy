/** What an enforcer that polls is given: all devices with their profiles, compiled, under the current version. */
module Polling {
  import opened Prelude
  import opened Models
  import opened MudCache
  import opened DeviceTable
  import opened ConfigVersion
  import opened Controller
  import Firewall

  function WithRefs(muds: MudTable, d: Device): DeviceWithRefs {
    DeviceWithRefs(d, if d.mudUrl.Some? && d.mudUrl.value in muds then Some(muds[d.mudUrl.value].data) else None)
  }

  /** All devices with their stored profiles, by id. */
  function InOrder(muds: MudTable, devices: Table, from: int): seq<DeviceWithRefs>
    decreases devices.nextId - from
  {
    if from >= devices.nextId then []
    else (if from in devices.rows then [WithRefs(muds, devices.rows[from])] else []) + InOrder(muds, devices, from + 1)
  }

  /** What an enforcer polling now should run. */
  function Snapshot(x: Texts, t: Tables): seq<Firewall.FirewallDeviceConfig> {
    Firewall.Configurations(x.ipText, InOrder(t.muds, t.devices, 1))
  }

  /** Both tables hold the same profile for every URL a device uses. */
  ghost predicate SameProfiles(a: MudTable, b: MudTable, devices: Table) {
    forall id :: id in devices.rows ==> WithRefs(a, devices.rows[id]) == WithRefs(b, devices.rows[id])
  }

  lemma {:induction false} SnapshotFrame(a: MudTable, b: MudTable, devices: Table, from: int)
    requires SameProfiles(a, b, devices)
    ensures InOrder(a, devices, from) == InOrder(b, devices, from)
    decreases devices.nextId - from
  {
    if from < devices.nextId {
      SnapshotFrame(a, b, devices, from + 1);
    }
  }

  /** All device rows, by id. */
  function DeviceList(devices: Table, from: int): (ds: seq<Device>)
    decreases devices.nextId - from
    ensures forall d :: d in ds ==> exists id :: id in devices.rows && devices.rows[id] == d
  {
    if from >= devices.nextId then []
    else (if from in devices.rows then [devices.rows[from]] else []) + DeviceList(devices, from + 1)
  }

  datatype LoadedAll = LoadedAll(ok: bool, devices: seq<DeviceWithRefs>, muds: MudTable)

  /** Loads one device after another, stopping at the first failure; each device brings its own trip. */
  function LoadAll(x: Texts, muds: MudTable, devices: seq<Device>, trips: int -> Trip): LoadedAll
    decreases |devices|
  {
    if devices == [] then LoadedAll(true, [], muds)
    else
      var refs := LoadRefs(x, muds, devices[0], trips(devices[0].id));
      if !refs.ok then LoadedAll(false, [], refs.muds)
      else
        var rest := LoadAll(x, refs.muds, devices[1..], trips);
        rest.(devices := [DeviceWithRefs(devices[0], refs.mudData)] + rest.devices)
  }

  /** `heartbeat`: nothing for an enforcer that is up to date, else a configuration with the current version. */
  function HeartbeatReply(x: Texts, t: Tables, version: Option<string>, trips: int -> Trip)
    : (Option<Firewall.EnforcerConfig>, MudTable)
  {
    if version == Some(VersionText(t.config)) then (None, t.muds)
    else
      var all := LoadAll(x, t.muds, DeviceList(t.devices, 1), trips);
      (Some(Firewall.EnforcerConfig(VersionText(t.config),
                                    Firewall.Configurations(x.ipText, if all.ok then all.devices else []), x.domain)),
       all.muds)
  }

  ghost predicate Loadable(x: Texts, muds: MudTable, devices: seq<Device>, trips: int -> Trip) {
    && KeysOk(x.mud, muds)
    && forall d :: d in devices ==>
         && trips(d.id).roomFound && trips(d.id).visit.now < CUSTOM_EXPIRATION
         && (d.mudUrl.Some? ==> d.mudUrl.value in muds)
  }

  lemma {:induction false} LoadAllSucceeds(x: Texts, muds: MudTable, devices: seq<Device>, trips: int -> Trip)
    requires Loadable(x, muds, devices, trips)
    ensures LoadAll(x, muds, devices, trips).ok
    decreases |devices|
  {
    if devices != [] {
      var d := devices[0];
      if d.mudUrl.Some? {
        StoredLookupFailsIff(x.mud, muds, d.mudUrl.value, trips(d.id).visit);
      }
      LoadRefsFacts(x, muds, d, trips(d.id));
      LoadAllSucceeds(x, LoadRefs(x, muds, d, trips(d.id)).muds, devices[1..], trips);
    }
  }

  ghost predicate AllFresh(muds: MudTable, devices: seq<Device>, trips: int -> Trip) {
    forall d :: d in devices ==>
      trips(d.id).roomFound && (d.mudUrl.Some? ==> Fresh(muds, d.mudUrl.value, trips(d.id).visit.now))
  }

  lemma {:induction false} LoadAllFresh(x: Texts, muds: MudTable, devices: seq<Device>, trips: int -> Trip)
    requires AllFresh(muds, devices, trips)
    ensures var all := LoadAll(x, muds, devices, trips);
            && all.ok && all.muds == muds && |all.devices| == |devices|
            && (forall i :: 0 <= i < |devices| ==> all.devices[i] == WithRefs(muds, devices[i]))
    decreases |devices|
  {
    if devices != [] {
      LoadAllFresh(x, muds, devices[1..], trips);
    }
  }

  lemma {:induction false} InOrderIsList(muds: MudTable, devices: Table, from: int)
    ensures |InOrder(muds, devices, from)| == |DeviceList(devices, from)|
    ensures forall i :: 0 <= i < |DeviceList(devices, from)| ==>
              InOrder(muds, devices, from)[i] == WithRefs(muds, DeviceList(devices, from)[i])
    decreases devices.nextId - from
  {
    if from < devices.nextId {
      InOrderIsList(muds, devices, from + 1);
    }
  }

  /** While all used profiles are fresh, a poll gets exactly the current configuration and writes nothing. */
  lemma HeartbeatExact(x: Texts, t: Tables, version: Option<string>, trips: int -> Trip)
    requires AllFresh(t.muds, DeviceList(t.devices, 1), trips) && version != Some(VersionText(t.config))
    ensures HeartbeatReply(x, t, version, trips)
         == (Some(Firewall.EnforcerConfig(VersionText(t.config), Snapshot(x, t), x.domain)), t.muds)
  {
    var devices := DeviceList(t.devices, 1);
    LoadAllFresh(x, t.muds, devices, trips);
    InOrderIsList(t.muds, t.devices, 1);
    assert LoadAll(x, t.muds, devices, trips).devices == InOrder(t.muds, t.devices, 1);
  }

  // ---------------------------------------------------------------- every reply

  /** The list is every row of the table, each once, in the order of the ids. */
  lemma {:induction false} DeviceListFrom(devices: Table, from: int)
    requires Valid(devices)
    ensures var list := DeviceList(devices, from);
            && (forall d :: d in list <==> from <= d.id && d.id in devices.rows && devices.rows[d.id] == d)
            && (forall i, j :: 0 <= i < j < |list| ==> list[i].id < list[j].id)
    decreases devices.nextId - from
  {
    if from < devices.nextId {
      DeviceListFrom(devices, from + 1);
      if from in devices.rows {
        var rest := DeviceList(devices, from + 1);
        assert forall j :: 0 <= j < |rest| ==> rest[j] in rest;
      }
    }
  }

  /**
   The devices are loaded one after another: each leaves a table for the next, in which only its own
   profile may have changed, and comes with the profile that is then stored, or with none.
   */
  ghost predicate LoadedInTurn(x: Texts, muds: MudTable, list: seq<Device>, trips: int -> Trip,
                               stages: seq<MudTable>, loaded: seq<DeviceWithRefs>)
  {
    && |stages| == |list| + 1 && |loaded| == |list| && stages[0] == muds
    && forall k :: 0 <= k < |list| ==> LoadedAs(x, stages[k], list[k], trips(list[k].id), stages[k + 1], loaded[k])
  }

  ghost predicate LoadedAs(x: Texts, muds: MudTable, d: Device, trip: Trip, after: MudTable, loaded: DeviceWithRefs) {
    && loaded.inner == d
    && (d.mudUrl.None? ==> after == muds && loaded.mudData == None)
    && (d.mudUrl.Some? ==>
          && after == GetOrFetch(x.mud, muds, d.mudUrl.value, trip.visit).table
          && d.mudUrl.value in after && loaded.mudData == Some(after[d.mudUrl.value].data)
          && forall u :: u != d.mudUrl.value ==> (u in after <==> u in muds) && (u in muds ==> after[u] == muds[u]))
  }

  lemma LoadRefsAs(x: Texts, muds: MudTable, d: Device, trip: Trip)
    requires LoadRefs(x, muds, d, trip).ok
    ensures var refs := LoadRefs(x, muds, d, trip);
            LoadedAs(x, muds, d, trip, refs.muds, DeviceWithRefs(d, refs.mudData))
  {
    if d.mudUrl.Some? {
      LookupLeavesRow(x.mud, muds, d.mudUrl.value, trip.visit);
      LookupWritesOneRow(x.mud, muds, d.mudUrl.value, trip.visit);
    }
  }

  lemma {:induction false} LoadAllInTurn(x: Texts, muds: MudTable, list: seq<Device>, trips: int -> Trip)
    returns (stages: seq<MudTable>)
    requires LoadAll(x, muds, list, trips).ok
    ensures var all := LoadAll(x, muds, list, trips);
            LoadedInTurn(x, muds, list, trips, stages, all.devices) && stages[|list|] == all.muds
    decreases |list|
  {
    stages := [muds];
    if list != [] {
      var refs := LoadRefs(x, muds, list[0], trips(list[0].id));
      LoadRefsAs(x, muds, list[0], trips(list[0].id));
      var rest := LoadAllInTurn(x, refs.muds, list[1..], trips);
      stages := [muds] + rest;
      var all := LoadAll(x, muds, list, trips).devices;
      forall k | 0 <= k < |list| ensures LoadedAs(x, stages[k], list[k], trips(list[k].id), stages[k + 1], all[k]) {
        if k > 0 {
          assert LoadedAs(x, rest[k - 1], list[1..][k - 1], trips(list[1..][k - 1].id), rest[k], all[1..][k - 1]);
        }
      }
    }
  }

  /** Every stored device's room is there, and it is not yet 2060. */
  ghost predicate InGoodTime(t: Tables, trips: int -> Trip) {
    forall id :: id in t.devices.rows ==> trips(id).roomFound && trips(id).visit.now < CUSTOM_EXPIRATION
  }

  lemma LoadsInGoodTime(x: Texts, t: Tables, trips: int -> Trip)
    requires Inv(x, t) && InGoodTime(t, trips)
    ensures LoadAll(x, t.muds, DeviceList(t.devices, 1), trips).ok
  {
    DeviceListFrom(t.devices, 1);
    LoadAllSucceeds(x, t.muds, DeviceList(t.devices, 1), trips);
  }

  /**
   Every reply, with profiles fresh or expired. An enforcer that holds the current version gets
   nothing. Any other gets the current version and one entry for exactly the rows with an address, in
   the order of their ids, each compiled from the profile that its load returned.
   */
  lemma HeartbeatServes(x: Texts, t: Tables, version: Option<string>, trips: int -> Trip)
    returns (stages: seq<MudTable>, loaded: seq<DeviceWithRefs>, positions: seq<nat>)
    requires Inv(x, t) && InGoodTime(t, trips)
    ensures var (reply, muds) := HeartbeatReply(x, t, version, trips);
            var list := DeviceList(t.devices, 1);
            && (reply.None? <==> version == Some(VersionText(t.config)))
            && (reply.None? ==> muds == t.muds)
            && (reply.Some? ==>
                  && reply.value.version == VersionText(t.config) && reply.value.domain == x.domain
                  && LoadedInTurn(x, t.muds, list, trips, stages, loaded) && muds == stages[|list|]
                  && Firewall.Increasing(positions, |list|) && |positions| == |reply.value.devices|
                  && (forall i :: 0 <= i < |list| ==> (i in positions <==> list[i].ipv4.Some? || list[i].ipv6.Some?))
                  && (forall k :: 0 <= k < |positions| ==>
                        Firewall.EntryFor(x.ipText, loaded[positions[k]], reply.value.devices[k])))
    ensures forall d :: d in DeviceList(t.devices, 1) <==> d.id in t.devices.rows && t.devices.rows[d.id] == d
    ensures var list := DeviceList(t.devices, 1); forall i, j :: 0 <= i < j < |list| ==> list[i].id < list[j].id
  {
    DeviceListFrom(t.devices, 1);
    LoadsInGoodTime(x, t, trips);
    var list := DeviceList(t.devices, 1);
    stages := LoadAllInTurn(x, t.muds, list, trips);
    loaded := LoadAll(x, t.muds, list, trips).devices;
    positions := Firewall.ConfigurationsLayout(x.ipText, loaded);
    forall i | 0 <= i < |list| ensures Firewall.Addressed(loaded[i]) <==> list[i].ipv4.Some? || list[i].ipv6.Some? {
      assert LoadedAs(x, stages[i], list[i], trips(list[i].id), stages[i + 1], loaded[i]);
    }
    assert forall d :: d in list ==> 1 <= d.id;
  }

  /** The entries at these positions of the list are those of the ids with an address. */
  lemma ServedIds(t: Tables, list: seq<Device>, positions: seq<nat>, entries: seq<Firewall.FirewallDeviceConfig>, id: int)
    requires forall d :: d in list <==> d.id in t.devices.rows && t.devices.rows[d.id] == d
    requires Firewall.Increasing(positions, |list|) && |positions| == |entries| && Valid(t.devices)
    requires forall i :: 0 <= i < |list| ==> (i in positions <==> list[i].ipv4.Some? || list[i].ipv6.Some?)
    requires forall k :: 0 <= k < |positions| ==> entries[k].id == list[positions[k]].id
    ensures (exists k :: 0 <= k < |entries| && entries[k].id == id) <==>
            id in t.devices.rows && (t.devices.rows[id].ipv4.Some? || t.devices.rows[id].ipv6.Some?)
  {
    if id in t.devices.rows && (t.devices.rows[id].ipv4.Some? || t.devices.rows[id].ipv6.Some?) {
      assert t.devices.rows[id] in list;
      var i :| 0 <= i < |list| && list[i] == t.devices.rows[id];
      var k :| 0 <= k < |positions| && positions[k] == i;
      assert entries[k].id == id;
    }
    if k :| 0 <= k < |entries| && entries[k].id == id {
      assert list[positions[k]] in list && positions[k] in positions;
    }
  }

  /**
   After every run, before 2060 and with rooms in place, no reply is the empty fallback: an enforcer
   that is not up to date gets an entry for every device with an address, and for no other.
   */
  lemma HeartbeatNeverFallsBack(x: Texts, ops: seq<Op>, version: Option<string>, trips: int -> Trip, id: int)
    requires InGoodTime(Run(x, NO_TABLES, ops), trips)
    requires version != Some(VersionText(Run(x, NO_TABLES, ops).config))
    ensures var t := Run(x, NO_TABLES, ops);
            var reply := HeartbeatReply(x, t, version, trips).0;
            && reply.Some?
            && ((exists k :: 0 <= k < |reply.value.devices| && reply.value.devices[k].id == id) <==>
                id in t.devices.rows && (t.devices.rows[id].ipv4.Some? || t.devices.rows[id].ipv6.Some?))
  {
    var t := Run(x, NO_TABLES, ops);
    RunKeepsInv(x, NO_TABLES, ops);
    var stages, loaded, positions := HeartbeatServes(x, t, version, trips);
    var list, entries := DeviceList(t.devices, 1), HeartbeatReply(x, t, version, trips).0.value.devices;
    forall k | 0 <= k < |positions| ensures entries[k].id == list[positions[k]].id {
      EntryIds(x, t.muds, list, trips, stages, loaded, positions[k], entries[k]);
    }
    ServedIds(t, list, positions, entries, id);
  }

  lemma EntryIds(x: Texts, muds: MudTable, list: seq<Device>, trips: int -> Trip, stages: seq<MudTable>,
                 loaded: seq<DeviceWithRefs>, i: nat, entry: Firewall.FirewallDeviceConfig)
    requires LoadedInTurn(x, muds, list, trips, stages, loaded) && i < |list|
    requires Firewall.EntryFor(x.ipText, loaded[i], entry)
    ensures entry.id == list[i].id
  {
    assert LoadedAs(x, stages[i], list[i], trips(list[i].id), stages[i + 1], loaded[i]);
  }
}
