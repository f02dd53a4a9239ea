/**
 Which operations change what enforcers should run without changing the version they compare. The
 answer is given by guards on the operation's inputs and the tables, for every operation.
 */
module Announcements {
  import opened Prelude
  import opened Models
  import opened MudCache
  import opened DeviceTable
  import opened ConfigVersion
  import opened Controller
  import opened Polling
  import Firewall
  import MudJson
  import MudParser

  // ---------------------------------------------------------------- comparing configurations

  /** The configuration entry of one device: none without a row or an address. */
  function Entry(x: Texts, t: Tables, id: int): seq<Firewall.FirewallDeviceConfig> {
    if id in t.devices.rows && Firewall.Addressed(WithRefs(t.muds, t.devices.rows[id]))
    then [Firewall.DeviceConfig(x.ipText, WithRefs(t.muds, t.devices.rows[id]))] else []
  }

  function Entries(x: Texts, t: Tables, from: int): seq<Firewall.FirewallDeviceConfig>
    decreases t.devices.nextId - from
  {
    if from >= t.devices.nextId then [] else Entry(x, t, from) + Entries(x, t, from + 1)
  }

  lemma ConfigurationsHead(x: Texts, first: DeviceWithRefs, rest: seq<DeviceWithRefs>)
    ensures Firewall.Configurations(x.ipText, [first] + rest) ==
            (if Firewall.Addressed(first) then [Firewall.DeviceConfig(x.ipText, first)] else [])
            + Firewall.Configurations(x.ipText, rest)
  {
    assert ([first] + rest)[1..] == rest;
  }

  /** A snapshot is its entries in the order of their ids. */
  lemma {:induction false} SnapshotEntries(x: Texts, t: Tables, from: int)
    ensures Firewall.Configurations(x.ipText, InOrder(t.muds, t.devices, from)) == Entries(x, t, from)
    decreases t.devices.nextId - from
  {
    if from < t.devices.nextId {
      SnapshotEntries(x, t, from + 1);
      if from in t.devices.rows {
        ConfigurationsHead(x, WithRefs(t.muds, t.devices.rows[from]), InOrder(t.muds, t.devices, from + 1));
      } else {
        assert [] + InOrder(t.muds, t.devices, from + 1) == InOrder(t.muds, t.devices, from + 1);
      }
    }
  }

  /** Beyond its ids a table has no entries, so the tables may differ in length. */
  lemma {:induction false} SameEntries(x: Texts, a: Tables, b: Tables, from: int)
    requires Valid(a.devices) && Valid(b.devices) && forall id :: from <= id ==> Entry(x, a, id) == Entry(x, b, id)
    ensures Entries(x, a, from) == Entries(x, b, from)
    decreases (if a.devices.nextId > b.devices.nextId then a.devices.nextId else b.devices.nextId) - from
  {
    if from < a.devices.nextId || from < b.devices.nextId {
      SameEntries(x, a, b, from + 1);
      assert from >= a.devices.nextId ==> Entry(x, a, from) == [];
      assert from >= b.devices.nextId ==> Entry(x, b, from) == [];
    }
  }

  /** Entries carry their ids, so each is found again in the whole. */
  lemma {:induction false} EntryOf(x: Texts, t: Tables, from: int, c: Firewall.FirewallDeviceConfig)
    requires Valid(t.devices)
    ensures c in Entries(x, t, from) <==> from <= c.id && Entry(x, t, c.id) == [c]
    decreases t.devices.nextId - from
  {
    if from < t.devices.nextId {
      EntryOf(x, t, from + 1, c);
      assert c in Entry(x, t, from) ==> c.id == from;
    }
  }

  /** Two tables compile to different configurations exactly when some device's entry differs. */
  lemma SnapshotsDifferIff(x: Texts, a: Tables, b: Tables)
    requires Valid(a.devices) && Valid(b.devices)
    ensures Snapshot(x, a) != Snapshot(x, b) <==> exists id :: Entry(x, a, id) != Entry(x, b, id)
  {
    SnapshotEntries(x, a, 1);
    SnapshotEntries(x, b, 1);
    if id :| Entry(x, a, id) != Entry(x, b, id) {
      var c := if Entry(x, a, id) != [] then Entry(x, a, id)[0] else Entry(x, b, id)[0];
      EntryOf(x, a, 1, c);
      EntryOf(x, b, 1, c);
    } else {
      SameEntries(x, a, b, 1);
    }
  }

  // ---------------------------------------------------------------- the guards

  /** A load that fails: the room is gone, or the profile can neither be served nor fetched. */
  predicate LoadFails(x: Texts, muds: MudTable, d: Device, trip: Trip) {
    || (d.roomId.Some? && !trip.roomFound)
    || (d.mudUrl.Some? && LookupFails(x.mud, muds, d.mudUrl.value, trip.visit))
  }

  predicate LookupFails(text: TextRules, muds: MudTable, url: string, v: Visit) {
    !Fresh(muds, url, v.now) && (!IsHttps(text, url) || (url !in muds && NewProfile(text, url, v).Failure?))
  }

  /** A lookup that stores a profile: nothing fresh is there, and what is fetched parses. */
  predicate Stores(text: TextRules, muds: MudTable, url: string, v: Visit) {
    !Fresh(muds, url, v.now) && IsHttps(text, url) && NewProfile(text, url, v).Success?
  }

  /** The stored profile is replaced by one that compiles to other rules under the same overrides. */
  predicate Recompiles(x: Texts, muds: MudTable, url: string, v: Visit) {
    && url in muds && Stores(x.mud, muds, url, v)
    && var stored := muds[url].data;
    Firewall.Rules(x.ipText, Some(NewProfile(x.mud, url, v).value.(aclOverride := stored.aclOverride)))
    != Firewall.Rules(x.ipText, Some(stored))
  }

  /** The row holds an address of the device. */
  predicate Holds(row: Device, d: Device) {
    (d.ipv4.Some? && row.ipv4 == d.ipv4) || (d.ipv6.Some? && row.ipv6 == d.ipv6)
  }

  ghost predicate AddressTaken(devices: Table, d: Device) {
    exists id :: id in devices.rows && Holds(devices.rows[id], d)
  }

  predicate HasAddress(d: Device) {
    d.ipv4.Some? || d.ipv6.Some?
  }

  /** A device with an address uses the profile. */
  ghost predicate Enforced(devices: Table, url: string) {
    exists id :: id in devices.rows && devices.rows[id].mudUrl == Some(url) && HasAddress(devices.rows[id])
  }

  function JobUrls(t: Tables, listing: seq<string>, checkedAt: string -> Instant): seq<string> {
    Selected(t.muds, Stored(t.muds, listing), checkedAt)
  }

  function DeviceOfLease(t: Tables, lease: Lease, at: Instant): Device {
    LeaseDevice(t.devices, lease, lease.mudUrl.None? && CollectSetting(t.config), at)
  }

  /**
   The three ways to change the configuration and not the version: a lease that cannot load its
   device, whose address some row holds, be it the device's own; a read that stores other rules for a profile in force;
   and a job that does the same and then meets an expired name that is no https URL.
   */
  ghost predicate ChangesQuietly(x: Texts, t: Tables, op: Op) {
    match op
    case DhcpLease(lease, trip, at) =>
      var d := DeviceOfLease(t, lease, at);
      LoadFails(x, t.muds, d, trip) && AddressTaken(t.devices, d)
    case ReadMud(url, visit) => Recompiles(x, t.muds, url, visit) && Enforced(t.devices, url)
    case RefreshJob(listing, checkedAt, visits) =>
      var urls := JobUrls(t, listing, checkedAt);
      var n := Reached(x.mud, t.muds, urls, visits);
      n < |urls| && exists u :: u in urls[..n] && Recompiles(x, t.muds, u, visits(u)) && Enforced(t.devices, u)
    case _ => false
  }

  // ---------------------------------------------------------------- leases

  lemma LoadFailsIff(x: Texts, muds: MudTable, d: Device, trip: Trip)
    ensures LoadRefs(x, muds, d, trip).ok <==> !LoadFails(x, muds, d, trip)
    ensures !LoadRefs(x, muds, d, trip).ok ==> LoadRefs(x, muds, d, trip).muds == muds
  {
  }

  /** Clearing changes a row's entry exactly when the row holds one of the addresses. */
  lemma ClearedEntry(x: Texts, t: Tables, d: Device, id: int)
    ensures var after := t.(devices := RemoveExistingIps(t.devices, d.ipv4, d.ipv6));
            Entry(x, t, id) != Entry(x, after, id) <==> id in t.devices.rows && Holds(t.devices.rows[id], d)
  {
    if id in t.devices.rows {
      var row := t.devices.rows[id];
      assert row.ipv4.Some? || row.ipv6.Some? ==> Entry(x, t, id)[0].ipv4 == row.ipv4 && Entry(x, t, id)[0].ipv6 == row.ipv6;
    }
  }

  lemma ClearingChangesIff(x: Texts, t: Tables, d: Device)
    requires Valid(t.devices)
    ensures var after := t.(devices := RemoveExistingIps(t.devices, d.ipv4, d.ipv6));
            Snapshot(x, t) != Snapshot(x, after) <==> AddressTaken(t.devices, d)
  {
    var after := t.(devices := RemoveExistingIps(t.devices, d.ipv4, d.ipv6));
    SnapshotsDifferIff(x, t, after);
    forall id ensures Entry(x, t, id) != Entry(x, after, id) <==> id in t.devices.rows && Holds(t.devices.rows[id], d) {
      ClearedEntry(x, t, d, id);
    }
  }

  /** Deleting a device changes the configuration exactly when the device is there and has an address. */
  lemma DeletionChangesIff(x: Texts, t: Tables, id: int)
    requires Valid(t.devices)
    ensures Snapshot(x, t) != Snapshot(x, t.(devices := DeleteRow(t.devices, id))) <==>
            id in t.devices.rows && HasAddress(t.devices.rows[id])
  {
    var after := t.(devices := DeleteRow(t.devices, id));
    SnapshotsDifferIff(x, t, after);
    assert forall i :: i != id ==> Entry(x, t, i) == Entry(x, after, i);
    assert Entry(x, t, id) != Entry(x, after, id) <==> id in t.devices.rows && HasAddress(t.devices.rows[id]);
  }

  // ---------------------------------------------------------------- profiles

  /** The URL of a profile whose rules differ between two tables. */
  predicate RulesDiffer(x: Texts, a: MudTable, b: MudTable, url: string) {
    url in a && url in b && Firewall.Rules(x.ipText, Some(a[url].data)) != Firewall.Rules(x.ipText, Some(b[url].data))
  }

  ghost predicate EnforcedDifference(x: Texts, a: MudTable, b: MudTable, devices: Table) {
    exists u :: RulesDiffer(x, a, b, u) && Enforced(devices, u)
  }

  lemma ProfileEntry(x: Texts, t: Tables, muds: MudTable, id: int)
    requires Referenced(t.muds, t.devices) && t.muds.Keys <= muds.Keys
    ensures Entry(x, t, id) != Entry(x, t.(muds := muds), id) <==>
            id in t.devices.rows && HasAddress(t.devices.rows[id]) && t.devices.rows[id].mudUrl.Some?
            && RulesDiffer(x, t.muds, muds, t.devices.rows[id].mudUrl.value)
  {
    if id in t.devices.rows && HasAddress(t.devices.rows[id]) {
      var before, after := WithRefs(t.muds, t.devices.rows[id]), WithRefs(muds, t.devices.rows[id]);
      assert Firewall.DeviceConfig(x.ipText, before).rules == Firewall.Rules(x.ipText, before.mudData);
      assert Firewall.DeviceConfig(x.ipText, after).rules == Firewall.Rules(x.ipText, after.mudData);
    }
  }

  /** Changing profiles, without losing any, changes the configuration exactly where a device in force sees it. */
  lemma ProfilesChangeIff(x: Texts, t: Tables, muds: MudTable)
    requires Sound(t) && t.muds.Keys <= muds.Keys
    ensures Snapshot(x, t) != Snapshot(x, t.(muds := muds)) <==> EnforcedDifference(x, t.muds, muds, t.devices)
  {
    var after := t.(muds := muds);
    SnapshotsDifferIff(x, t, after);
    if id :| Entry(x, t, id) != Entry(x, after, id) {
      ProfileEntry(x, t, muds, id);
      assert Enforced(t.devices, t.devices.rows[id].mudUrl.value);
    }
    if EnforcedDifference(x, t.muds, muds, t.devices) {
      var u :| RulesDiffer(x, t.muds, muds, u) && Enforced(t.devices, u);
      var id :| id in t.devices.rows && t.devices.rows[id].mudUrl == Some(u) && HasAddress(t.devices.rows[id]);
      ProfileEntry(x, t, muds, id);
    }
  }

  /** A lookup changes the rules of a stored profile exactly when it recompiles it. */
  lemma LookupRecompilesIff(x: Texts, muds: MudTable, url: string, v: Visit)
    requires url in muds
    ensures var after := GetOrFetch(x.mud, muds, url, v).table;
            url in after && (Firewall.Rules(x.ipText, Some(after[url].data)) != Firewall.Rules(x.ipText, Some(muds[url].data))
                             <==> Recompiles(x, muds, url, v))
  {
  }

  lemma ReadChangesIff(x: Texts, t: Tables, url: string, v: Visit)
    requires Sound(t)
    ensures Snapshot(x, t) != Snapshot(x, ReadMudOutcome(x, t, url, v).tables) <==>
            Recompiles(x, t.muds, url, v) && Enforced(t.devices, url)
  {
    var muds := GetOrFetch(x.mud, t.muds, url, v).table;
    LookupKeeps(x.mud, t.muds, url, v);
    ProfilesChangeIff(x, t, muds);
    if url in t.muds {
      LookupRecompilesIff(x, t.muds, url, v);
      assert RulesDiffer(x, t.muds, muds, url) <==> Recompiles(x, t.muds, url, v);
    }
    assert forall u :: RulesDiffer(x, t.muds, muds, u) ==> u == url;
  }

  /** The job changes the rules of exactly the profiles it reaches and recompiles. */
  lemma JobRulesDifferIff(x: Texts, muds: MudTable, urls: seq<string>, visits: Visits, u: string)
    requires u in muds && forall w :: w in urls ==> w in muds
    ensures var r := RefreshAll(x.mud, muds, urls, visits);
            RulesDiffer(x, muds, r.table, u) <==>
            u in urls[..Reached(x.mud, muds, urls, visits)] && Recompiles(x, muds, u, visits(u))
  {
    var r := RefreshAll(x.mud, muds, urls, visits);
    RefreshRows(x.mud, muds, urls, visits);
    assert RowAfter(x.mud, muds, r.table, urls[..Reached(x.mud, muds, urls, visits)], visits, u);
    LookupRecompilesIff(x, muds, u, visits(u));
  }

  lemma JobChangesIff(x: Texts, t: Tables, urls: seq<string>, visits: Visits)
    requires Sound(t) && forall w :: w in urls ==> w in t.muds
    ensures var r := RefreshAll(x.mud, t.muds, urls, visits);
            var n := Reached(x.mud, t.muds, urls, visits);
            && (r.ok <==> n == |urls|)
            && (Snapshot(x, t) != Snapshot(x, t.(muds := r.table)) <==>
                exists u :: u in urls[..n] && Recompiles(x, t.muds, u, visits(u)) && Enforced(t.devices, u))
  {
    var r := RefreshAll(x.mud, t.muds, urls, visits);
    RefreshRows(x.mud, t.muds, urls, visits);
    ProfilesChangeIff(x, t, r.table);
    forall u | u in t.muds
      ensures RulesDiffer(x, t.muds, r.table, u) <==>
              u in urls[..Reached(x.mud, t.muds, urls, visits)] && Recompiles(x, t.muds, u, visits(u))
    {
      JobRulesDifferIff(x, t.muds, urls, visits, u);
    }
  }

  // ---------------------------------------------------------------- all operations

  /** The configuration changes and the version text does not. */
  ghost predicate Unannounced(x: Texts, before: Tables, after: Tables) {
    Snapshot(x, before) != Snapshot(x, after) && VersionText(after.config) == VersionText(before.config)
  }

  /** Snapshots do not look at the configuration table. */
  lemma ConfigIsNotShown(x: Texts, t: Tables, config: Config)
    ensures Snapshot(x, t.(config := config)) == Snapshot(x, t)
  {
  }

  lemma LeaseUnannouncedIff(x: Texts, t: Tables, lease: Lease, trip: Trip, at: Instant)
    requires Sound(t)
    ensures var d := DeviceOfLease(t, lease, at);
            Unannounced(x, t, LeaseOutcome(x, t, lease, trip, at).tables) <==>
            LoadFails(x, t.muds, d, trip) && AddressTaken(t.devices, d)
  {
    var d := DeviceOfLease(t, lease, at);
    LoadFailsIff(x, t.muds, d, trip);
    BumpChangesText(t.config);
    ClearingChangesIff(x, t, d);
    var after := LeaseOutcome(x, t, lease, trip, at).tables;
    if LoadFails(x, t.muds, d, trip) {
      assert after == t.(devices := RemoveExistingIps(t.devices, d.ipv4, d.ipv6));
    }
  }

  lemma JobUnannouncedIff(x: Texts, t: Tables, listing: seq<string>, checkedAt: string -> Instant, visits: Visits)
    requires Sound(t)
    ensures Unannounced(x, t, RefreshOutcome(x, t, listing, checkedAt, visits).tables) <==>
            ChangesQuietly(x, t, RefreshJob(listing, checkedAt, visits))
  {
    var urls := JobUrls(t, listing, checkedAt);
    JobChangesIff(x, t, urls, visits);
    BumpChangesText(t.config);
    var r := RefreshAll(x.mud, t.muds, urls, visits);
    if !r.ok {
      assert RefreshOutcome(x, t, listing, checkedAt, visits).tables == t.(muds := r.table);
    }
  }

  /** Profiles that are created or deleted are used by no device. */
  lemma NewProfileIsUnused(x: Texts, t: Tables, url: string, overrides: Option<seq<Acl>>, v: Visit)
    requires Sound(t)
    ensures Snapshot(x, CreateMudOutcome(x, t, url, overrides, v).tables) == Snapshot(x, t)
  {
    var muds := CreateMudOutcome(x, t, url, overrides, v).tables.muds;
    LookupWritesOneRow(x.mud, t.muds, url, v);
    assert forall u :: u in t.muds ==> u in muds && muds[u] == t.muds[u];
    SnapshotFrame(t.muds, muds, t.devices, 1);
  }

  lemma DeletedProfileIsUnused(x: Texts, t: Tables, url: string)
    ensures Snapshot(x, DeleteMudOutcome(t, url).tables) == Snapshot(x, t)
  {
    SnapshotFrame(t.muds, DeleteMudOutcome(t, url).tables.muds, t.devices, 1);
  }

  /** The device routes and the update of a profile write nothing, or bump. */
  lemma RoutesBump(x: Texts, t: Tables, op: Op)
    requires op.CreateDevice? || op.UpdateDevice? || op.DeleteDevice? || op.UpdateMud?
    ensures var after := Perform(x, t, op).tables; after == t || after.config == Bump(t.config)
  {
    match op
    case CreateDevice(dto, trip, again, at) =>
      if IntoDevice(x, dto, at).Some? {
        LoadFailsIff(x, t.muds, IntoDevice(x, dto, at).value, trip);
      }
    case UpdateDevice(id, dto, trip) =>
      if id in t.devices.rows {
        LoadFailsIff(x, t.muds, ApplyDto(x, t.devices.rows[id], dto), trip);
      }
    case _ =>
  }

  lemma OthersAnnounce(x: Texts, t: Tables, op: Op)
    requires Sound(t) && !op.DhcpLease? && !op.ReadMud? && !op.RefreshJob?
    ensures !Unannounced(x, t, Perform(x, t, op).tables)
  {
    BumpChangesText(t.config);
    match op
    case CreateMud(url, overrides, v) => NewProfileIsUnused(x, t, url, overrides, v);
    case DeleteMud(url) => DeletedProfileIsUnused(x, t, url);
    case SetConfig(key, value) => ConfigIsNotShown(x, t, t.config[key := value]);
    case RemoveConfig(key) => ConfigIsNotShown(x, t, t.config - {key});
    case _ => RoutesBump(x, t, op);
  }

  /** Exactly the quiet operations change the configuration without changing the version text. */
  lemma UnannouncedIff(x: Texts, t: Tables, op: Op)
    requires Sound(t)
    ensures Unannounced(x, t, Perform(x, t, op).tables) <==> ChangesQuietly(x, t, op)
  {
    match op
    case DhcpLease(lease, trip, at) => LeaseUnannouncedIff(x, t, lease, trip, at);
    case ReadMud(url, visit) => ReadChangesIff(x, t, url, visit);
    case RefreshJob(listing, checkedAt, visits) => JobUnannouncedIff(x, t, listing, checkedAt, visits);
    case _ => OthersAnnounce(x, t, op);
  }

  /** Before 2060 no job is quiet: the names that could stop it have not expired. */
  lemma JobsAnnounceBefore2060(x: Texts, t: Tables, listing: seq<string>, checkedAt: string -> Instant, visits: Visits)
    requires Inv(x, t) && forall u :: u in listing ==> visits(u).now < CUSTOM_EXPIRATION
    ensures !ChangesQuietly(x, t, RefreshJob(listing, checkedAt, visits))
  {
    var urls := JobUrls(t, listing, checkedAt);
    assert forall u :: u in urls ==> !Stuck(x.mud, t.muds, u, visits(u));
  }

  // ---------------------------------------------------------------- it does happen

  /** A lease for an address, for the device with this MAC. */
  function LeaseOf(address: nat, mac: nat, mudUrl: Option<string>): Lease {
    Lease(V4(address), Some(mac), None, None, mudUrl)
  }

  /** One device, learnt from a lease on empty tables. */
  function OneDevice(address: nat, mac: nat, mudUrl: Option<string>, at: Instant): Table {
    Table(map[1 := Device(1, None, Some(address), None, Some(mac), None, "", "", mudUrl, false, at, None, None)], 2)
  }

  lemma FirstLease(x: Texts, address: nat, mac: nat, mudUrl: Option<string>, trip: Trip, at: Instant)
    requires mudUrl.Some? ==> Stores(x.mud, map[], mudUrl.value, trip.visit)
    ensures var op := DhcpLease(LeaseOf(address, mac, mudUrl), trip, at);
            var t := Perform(x, NO_TABLES, op).tables;
            && Run(x, NO_TABLES, [op]) == t && t.devices == OneDevice(address, mac, mudUrl, at)
            && t.config == Bump(map[])
            && t.muds == (if mudUrl.None? then map[] else
                            var data := NewProfile(x.mud, mudUrl.value, trip.visit).value;
                            map[mudUrl.value := Row(data, trip.visit.savedAt, data.expiration)])
  {
    var op := DhcpLease(LeaseOf(address, mac, mudUrl), trip, at);
    assert Run(x, NO_TABLES, [op]) == Run(x, Perform(x, NO_TABLES, op).tables, []) by {
      assert [op][1..] == [];
    }
    assert Find(EMPTY, Some(mac), None) == None;
    var device := NewDevice(LeaseOf(address, mac, mudUrl), false, at);
    assert RemoveExistingIps(EMPTY, device.ipv4, device.ipv6) == EMPTY;
    assert InsertRow(EMPTY, device) == OneDevice(address, mac, mudUrl, at);
  }

  /** The address of a known device goes to a new one whose MUD URL is refused: the known device falls silent. */
  lemma FailedLeaseHappens(x: Texts, address: nat, mac: nat, other: nat, trip: Trip, at: Instant)
    requires mac != other
    ensures var t := Run(x, NO_TABLES, [DhcpLease(LeaseOf(address, mac, None), trip, at)]);
            var op := DhcpLease(LeaseOf(address, other, Some("x")), trip, at);
            ChangesQuietly(x, t, op) && Unannounced(x, t, Perform(x, t, op).tables)
  {
    FirstLease(x, address, mac, None, trip, at);
    var first, op := DhcpLease(LeaseOf(address, mac, None), trip, at), DhcpLease(LeaseOf(address, other, Some("x")), trip, at);
    var t := Run(x, NO_TABLES, [first]);
    assert Find(t.devices, Some(other), None) == None;
    assert DeviceOfLease(t, op.lease, at) == NewDevice(op.lease, false, at);
    assert Holds(t.devices.rows[1], NewDevice(op.lease, false, at));
    RunKeepsInv(x, NO_TABLES, [first]);
    UnannouncedIff(x, t, op);
  }

  const EXAMPLE_URL := "https://m"

  /** A MUD file, valid for an hour, whose from-device policy names these lists; list "a" lets one host through. */
  function ExampleFile(names: seq<string>): MudJson.MudFile {
    MudJson.MudFile(
      MudJson.MudDefinition(1, "", Some(1), None, None, None, None, names, [], None, None),
      [MudJson.JsonAcl("a", "ipv4-acl-type",
                       [MudJson.JsonAce("a", MudJson.Matches(Some(MudJson.Ip(None, None, None, None, Some("h"))), None, None, None),
                                        "accept")])])
  }

  function ExampleVisit(now: Instant, names: seq<string>): Visit {
    Visit(now, now, now, File(ExampleFile(names)))
  }

  /** The example file parses with no list or with list "a", which has one DNS-named entry. */
  lemma ExampleParses(x: Texts, now: Instant, names: seq<string>)
    requires names == [] || names == ["a"]
    ensures var r := NewProfile(x.mud, EXAMPLE_URL, ExampleVisit(now, names));
            && r.Success? && r.value.expiration == now + HOUR && r.value.aclOverride == []
            && |r.value.acllist| == |names|
            && (forall acl :: acl in r.value.acllist ==> |acl.ace| == 1 && acl.ace[0].matches.dnsname == Some("h"))
  {
    var file := ExampleFile(names);
    assert MudParser.FirstNamed(file.acls, "a") == Some(file.acls[0]);
    assert MudParser.AceProblem(IPV4, file.acls[0].aces[0]) == None;
    assert MudParser.AcesProblem(IPV4, file.acls[0].aces) == None;
    assert MudParser.RefsProblem(file.acls, ["a"]) == None by {
      assert ["a"][1..] == [];
    }
  }

  /** One rule for each list of one DNS-named entry, and the two defaults. */
  lemma ExampleRules(x: Texts, data: MudData)
    requires data.aclOverride == [] && |data.acllist| <= 1
    requires forall acl :: acl in data.acllist ==> |acl.ace| == 1 && acl.ace[0].matches.dnsname == Some("h")
    ensures |Firewall.Rules(x.ipText, Some(data))| == |data.acllist| + 2
  {
    Firewall.MergeIdentity(data.acllist);
    if data.acllist != [] {
      var acl := data.acllist[0];
      assert data.acllist[1..] == [] && acl.ace[1..] == [];
      assert |Firewall.AceRules(x.ipText, acl.packetDirection, acl.ace, 0)| == 1;
      assert Firewall.AclRules(x.ipText, [], 0 + |acl.ace|) == [];
    }
  }

  /** The example profile opens up, an hour or more after it was stored without any list. */
  lemma ExampleRecompiles(x: Texts, muds: MudTable, now: Instant)
    requires x.mud.isUrl(EXAMPLE_URL) && now >= HOUR
    requires var r := NewProfile(x.mud, EXAMPLE_URL, ExampleVisit(0, []));
             r.Success? && EXAMPLE_URL in muds && muds[EXAMPLE_URL] == Row(r.value, 0, r.value.expiration)
    ensures Recompiles(x, muds, EXAMPLE_URL, ExampleVisit(now, ["a"]))
  {
    ExampleParses(x, 0, []);
    ExampleParses(x, now, ["a"]);
    var before, after := muds[EXAMPLE_URL].data, NewProfile(x.mud, EXAMPLE_URL, ExampleVisit(now, ["a"])).value;
    ExampleRules(x, before);
    ExampleRules(x, after);
    assert after.(aclOverride := before.aclOverride) == after;
  }

  /** A device is learnt together with the example profile, still without any list. */
  function ExampleLease(address: nat, mac: nat): Op {
    DhcpLease(LeaseOf(address, mac, Some(EXAMPLE_URL)), Trip(ExampleVisit(0, []), true), 0)
  }

  lemma AfterExampleLease(x: Texts, address: nat, mac: nat)
    requires x.mud.isUrl(EXAMPLE_URL)
    ensures var r := NewProfile(x.mud, EXAMPLE_URL, ExampleVisit(0, []));
            var t := Run(x, NO_TABLES, [ExampleLease(address, mac)]);
            && r.Success? && r.value.expiration == HOUR
            && t.muds == map[EXAMPLE_URL := Row(r.value, 0, r.value.expiration)]
            && t.devices == OneDevice(address, mac, Some(EXAMPLE_URL), 0)
            && t == Perform(x, NO_TABLES, ExampleLease(address, mac)).tables && Inv(x, t)
            && Enforced(t.devices, EXAMPLE_URL)
  {
    ExampleParses(x, 0, []);
    FirstLease(x, address, mac, Some(EXAMPLE_URL), Trip(ExampleVisit(0, []), true), 0);
    RunKeepsInv(x, NO_TABLES, [ExampleLease(address, mac)]);
    assert HasAddress(OneDevice(address, mac, Some(EXAMPLE_URL), 0).rows[1]);
  }

  /** A manufacturer opens its profile after an hour, and somebody looks at it: the enforcers do not hear of it. */
  lemma QuietReadHappens(x: Texts, address: nat, mac: nat)
    requires x.mud.isUrl(EXAMPLE_URL)
    ensures var t := Run(x, NO_TABLES, [ExampleLease(address, mac)]);
            var op := ReadMud(EXAMPLE_URL, ExampleVisit(HOUR, ["a"]));
            ChangesQuietly(x, t, op) && Unannounced(x, t, Perform(x, t, op).tables)
  {
    AfterExampleLease(x, address, mac);
    var t := Run(x, NO_TABLES, [ExampleLease(address, mac)]);
    ExampleRecompiles(x, t.muds, HOUR);
    UnannouncedIff(x, t, ReadMud(EXAMPLE_URL, ExampleVisit(HOUR, ["a"])));
  }

  /** A custom profile beside the example profile. */
  function ExampleOps(address: nat, mac: nat): seq<Op> {
    [ExampleLease(address, mac), CreateMud("x", None, ExampleVisit(0, []))]
  }

  /** The job after the custom profile has expired, which finds the example profile opened. */
  function ExampleJob(): Op {
    RefreshJob([EXAMPLE_URL, "x"], (u: string) => CUSTOM_EXPIRATION + 1,
               (u: string) => ExampleVisit(CUSTOM_EXPIRATION + 1, ["a"]))
  }

  lemma AfterExampleOps(x: Texts, address: nat, mac: nat)
    requires x.mud.isUrl(EXAMPLE_URL) && !x.mud.isUrl("x")
    ensures var r := NewProfile(x.mud, EXAMPLE_URL, ExampleVisit(0, []));
            var t := Run(x, NO_TABLES, ExampleOps(address, mac));
            && r.Success? && t.muds.Keys == {EXAMPLE_URL, "x"}
            && t.muds[EXAMPLE_URL] == Row(r.value, 0, r.value.expiration)
            && t.muds["x"].expiration == CUSTOM_EXPIRATION
            && t.devices == OneDevice(address, mac, Some(EXAMPLE_URL), 0) && Inv(x, t)
  {
    var ops, lease := ExampleOps(address, mac), ExampleLease(address, mac);
    AfterExampleLease(x, address, mac);
    var first := Perform(x, NO_TABLES, lease).tables;
    assert ops[1..] == [ops[1]] && ops[1..][1..] == [];
    assert Run(x, NO_TABLES, ops) == Run(x, first, [ops[1]]);
    assert Run(x, first, [ops[1]]) == Run(x, Perform(x, first, ops[1]).tables, []);
    RunKeepsInv(x, NO_TABLES, ops);
  }

  /** The job selects both profiles, refreshes the first and is stopped by the second. */
  lemma ExampleJobStops(x: Texts, t: Tables)
    requires !x.mud.isUrl("x") && t.muds.Keys == {EXAMPLE_URL, "x"}
    requires t.muds[EXAMPLE_URL].expiration == HOUR && t.muds["x"].expiration == CUSTOM_EXPIRATION
    requires x.mud.isUrl(EXAMPLE_URL)
    ensures var job := ExampleJob();
            var urls := JobUrls(t, job.listing, job.checkedAt);
            urls == [EXAMPLE_URL, "x"] && Reached(x.mud, t.muds, urls, job.visits) == 1
  {
    var job := ExampleJob();
    var listing: seq<string> := [EXAMPLE_URL, "x"];
    assert listing[1..] == ["x"] && listing[1..][1..] == [];
    assert Stored(t.muds, listing[1..]) == ["x"];
    assert Stored(t.muds, listing) == listing;
    assert Selected(t.muds, listing[1..], job.checkedAt) == ["x"];
    assert Selected(t.muds, listing, job.checkedAt) == listing;
    assert Stuck(x.mud, t.muds, listing[1], job.visits(listing[1]));
  }

  /** From 2060 on an expired custom name stops the job after it has changed a profile in force. */
  lemma QuietJobHappens(x: Texts, address: nat, mac: nat)
    requires x.mud.isUrl(EXAMPLE_URL) && !x.mud.isUrl("x")
    ensures var t := Run(x, NO_TABLES, ExampleOps(address, mac));
            ChangesQuietly(x, t, ExampleJob()) && Unannounced(x, t, Perform(x, t, ExampleJob()).tables)
  {
    AfterExampleLease(x, address, mac);
    AfterExampleOps(x, address, mac);
    var t, job := Run(x, NO_TABLES, ExampleOps(address, mac)), ExampleJob();
    ExampleJobStops(x, t);
    ExampleRecompiles(x, t.muds, CUSTOM_EXPIRATION + 1);
    assert EXAMPLE_URL in JobUrls(t, job.listing, job.checkedAt)[..1];
    UnannouncedIff(x, t, job);
  }
}
