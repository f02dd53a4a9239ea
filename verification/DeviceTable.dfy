/**
 The device table under DHCP leases: a lease is matched by MAC and then by DUID, clashing
 addresses are cleared, and the device is updated or inserted.
 */
module DeviceTable {
  import opened Prelude
  import opened Models

  /** A lease, with the DUID only DHCPv6 leases carry. */
  datatype Lease = Lease(ip: IpAddr, mac: Option<nat>, duid: Option<string>, hostname: Option<string>, mudUrl: Option<string>)

  /** Rows by id; ids are handed out in increasing order, and `nextId` is the next one. */
  datatype Table = Table(rows: map<int, Device>, nextId: int)

  ghost predicate Valid(t: Table) {
    t.nextId >= 1 &&
    forall id :: id in t.rows ==> 1 <= id < t.nextId && t.rows[id].id == id
  }

  const EMPTY := Table(map[], 1)

  // ---------------------------------------------------------------- lookup

  /** The lowest id from `from` on whose row satisfies the condition. */
  function Lowest(t: Table, condition: Device -> bool, from: int): (r: Option<int>)
    decreases t.nextId - from
    ensures r.Some? ==> from <= r.value < t.nextId && r.value in t.rows && condition(t.rows[r.value])
    ensures forall id :: id in t.rows && condition(t.rows[id]) && from <= id < t.nextId ==> r.Some? && r.value <= id
  {
    if from >= t.nextId then None
    else if from in t.rows && condition(t.rows[from]) then Some(from)
    else Lowest(t, condition, from + 1)
  }

  function HasMac(mac: nat): Device -> bool {
    (d: Device) => d.mac == Some(mac)
  }

  function HasDuid(duid: string): Device -> bool {
    (d: Device) => d.duid == Some(duid)
  }

  function WithMac(t: Table, mac: nat): Option<int> {
    Lowest(t, HasMac(mac), 1)
  }

  function WithDuid(t: Table, duid: string): Option<int> {
    Lowest(t, HasDuid(duid), 1)
  }

  /** `find_by_mac_or_duid`: the DUID is only asked for when no row has the MAC. */
  function Find(t: Table, mac: Option<nat>, duid: Option<string>): Option<int> {
    var byMac := if mac.Some? then WithMac(t, mac.value) else None;
    if byMac.None? && duid.Some? then WithDuid(t, duid.value) else byMac
  }

  // ---------------------------------------------------------------- changes

  /** `Device::new` */
  function NewDevice(lease: Lease, collectInfo: bool, now: Instant): Device {
    Device(0, None,
           if lease.ip.V4? then Some(lease.ip.bits) else None,
           if lease.ip.V6? then Some(lease.ip.bits) else None,
           lease.mac, lease.duid,
           if lease.hostname.Some? then lease.hostname.value else "",
           "", lease.mudUrl, collectInfo, now, None, None)
  }

  /** `Device::apply` */
  function Apply(d: Device, lease: Lease): Device {
    d.(ipv4 := if lease.ip.V4? then Some(lease.ip.bits) else d.ipv4,
       ipv6 := if lease.ip.V6? then Some(lease.ip.bits) else d.ipv6,
       mac := if lease.mac.Some? then lease.mac else d.mac,
       duid := if lease.duid.Some? then lease.duid else d.duid,
       hostname := if lease.hostname.Some? then lease.hostname.value else d.hostname,
       mudUrl := if d.mudUrl.None? then lease.mudUrl else d.mudUrl)
  }

  function Cleared(d: Device, ipv4: Option<nat>, ipv6: Option<nat>): Device {
    d.(ipv4 := if ipv4.Some? && d.ipv4 == ipv4 then None else d.ipv4,
       ipv6 := if ipv6.Some? && d.ipv6 == ipv6 then None else d.ipv6)
  }

  lemma ClearInTurn(d: Device, ipv4: Option<nat>, ipv6: Option<nat>)
    ensures Cleared(Cleared(d, ipv4, None), None, ipv6) == Cleared(d, ipv4, ipv6)
  {
  }

  /** `remove_existing_ips` */
  function RemoveExistingIps(t: Table, ipv4: Option<nat>, ipv6: Option<nat>): Table {
    t.(rows := map id | id in t.rows :: Cleared(t.rows[id], ipv4, ipv6))
  }

  /** `UPDATE devices .. WHERE id`: nothing happens when the row is gone. */
  function UpdateRow(t: Table, d: Device): Table {
    if d.id in t.rows then t.(rows := t.rows[d.id := d]) else t
  }

  function InsertRow(t: Table, d: Device): Table {
    Table(t.rows[t.nextId := d.(id := t.nextId)], t.nextId + 1)
  }

  function DeleteRow(t: Table, id: int): Table {
    t.(rows := t.rows - {id})
  }

  /** The device a lease is about, as it will be stored. */
  function LeaseDevice(t: Table, lease: Lease, collectInfo: bool, now: Instant): Device {
    match Find(t, lease.mac, lease.duid)
    case Some(id) => if id in t.rows then Apply(t.rows[id], lease) else NewDevice(lease, collectInfo, now)
    case None => NewDevice(lease, collectInfo, now)
  }

  /** `upsert_device_from_dhcp_lease`; when the references do not load, the addresses are cleared all the same. */
  function UpsertLease(t: Table, lease: Lease, collectInfo: bool, now: Instant, loads: bool): Table {
    var device := LeaseDevice(t, lease, collectInfo, now);
    var cleared := RemoveExistingIps(t, device.ipv4, device.ipv6);
    if !loads then cleared
    else if Find(t, lease.mac, lease.duid).Some? then UpdateRow(cleared, device)
    else InsertRow(cleared, device)
  }

  /** The id of the row a lease ends up in. */
  function Target(t: Table, lease: Lease): int {
    match Find(t, lease.mac, lease.duid)
    case Some(id) => id
    case None => t.nextId
  }

  // ---------------------------------------------------------------- uniqueness

  ghost predicate Unique(t: Table) {
    forall i, j :: i in t.rows && j in t.rows && i != j ==> Apart(t.rows[i], t.rows[j])
  }

  /** Two devices share no address and no MAC. */
  predicate Apart(c: Device, d: Device) {
    && (c.ipv4.Some? ==> c.ipv4 != d.ipv4)
    && (c.ipv6.Some? ==> c.ipv6 != d.ipv6)
    && (c.mac.Some? ==> c.mac != d.mac)
  }

  lemma UpsertKeepsValid(t: Table, lease: Lease, collectInfo: bool, now: Instant, loads: bool)
    requires Valid(t)
    ensures var after := UpsertLease(t, lease, collectInfo, now, loads); Valid(after) && after.nextId >= t.nextId
  {
  }

  /** No row but the target has the MAC the device will be stored with. */
  lemma MacIsTargetsOwn(t: Table, lease: Lease, collectInfo: bool, now: Instant, i: int)
    requires Valid(t) && Unique(t) && i in t.rows && i != Target(t, lease)
    ensures var mac := LeaseDevice(t, lease, collectInfo, now).mac; mac.Some? ==> t.rows[i].mac != mac
  {
    var target := Target(t, lease);
    assert target in t.rows ==> Apart(t.rows[target], t.rows[i]);
    var holder := if lease.mac.Some? then WithMac(t, lease.mac.value) else None;
  }

  lemma ClearedApart(d: Device, device: Device)
    requires device.mac.Some? ==> d.mac != device.mac
    ensures Apart(Cleared(d, device.ipv4, device.ipv6), device) && Apart(device, Cleared(d, device.ipv4, device.ipv6))
  {
  }

  lemma ClearKeepsUnique(t: Table, ipv4: Option<nat>, ipv6: Option<nat>)
    requires Unique(t)
    ensures Unique(RemoveExistingIps(t, ipv4, ipv6))
  {
    forall i, j | i in t.rows && j in t.rows && i != j
      ensures Apart(Cleared(t.rows[i], ipv4, ipv6), Cleared(t.rows[j], ipv4, ipv6))
    {
      assert Apart(t.rows[i], t.rows[j]);
    }
  }

  lemma StoreKeepsUnique(t: Table, device: Device, nextId: int)
    requires Unique(t)
    requires forall i :: i in t.rows && i != device.id ==> Apart(t.rows[i], device) && Apart(device, t.rows[i])
    ensures Unique(Table(t.rows[device.id := device], nextId))
  {
  }

  lemma UpsertKeepsUnique(t: Table, lease: Lease, collectInfo: bool, now: Instant, loads: bool)
    requires Valid(t) && Unique(t)
    ensures Unique(UpsertLease(t, lease, collectInfo, now, loads))
  {
    var device := LeaseDevice(t, lease, collectInfo, now).(id := Target(t, lease));
    var cleared := RemoveExistingIps(t, device.ipv4, device.ipv6);
    ClearKeepsUnique(t, device.ipv4, device.ipv6);
    forall i | i in cleared.rows && i != device.id ensures Apart(cleared.rows[i], device) && Apart(device, cleared.rows[i]) {
      MacIsTargetsOwn(t, lease, collectInfo, now, i);
      ClearedApart(t.rows[i], device);
    }
    var after := UpsertLease(t, lease, collectInfo, now, loads);
    StoreKeepsUnique(cleared, device, after.nextId);
  }

  datatype TableOp = Upsert(lease: Lease, collectInfo: bool, now: Instant, loads: bool) | Delete(id: int)

  function PerformOn(t: Table, op: TableOp): Table {
    match op
    case Upsert(lease, collectInfo, now, loads) => UpsertLease(t, lease, collectInfo, now, loads)
    case Delete(id) => DeleteRow(t, id)
  }

  function RunOps(t: Table, ops: seq<TableOp>): Table
    decreases |ops|
  {
    if ops == [] then t else RunOps(PerformOn(t, ops[0]), ops[1..])
  }

  lemma {:induction false} RunKeepsUnique(t: Table, ops: seq<TableOp>)
    requires Valid(t) && Unique(t)
    ensures Valid(RunOps(t, ops)) && Unique(RunOps(t, ops))
    decreases |ops|
  {
    if ops != [] {
      if ops[0].Upsert? {
        var op := ops[0];
        UpsertKeepsValid(t, op.lease, op.collectInfo, op.now, op.loads);
        UpsertKeepsUnique(t, op.lease, op.collectInfo, op.now, op.loads);
      }
      RunKeepsUnique(PerformOn(t, ops[0]), ops[1..]);
    }
  }

  /** Over every run of leases and deletions from the empty table, failing loads included. */
  lemma DevicesStayUnique(ops: seq<TableOp>)
    ensures Unique(RunOps(EMPTY, ops))
  {
    RunKeepsUnique(EMPTY, ops);
  }

  // ---------------------------------------------------------------- idempotence and frame

  /** `after` holds the device in row `target`, and every other row with that device's addresses cleared. */
  ghost predicate StoredAs(t: Table, after: Table, device: Device, target: int) {
    && after.rows.Keys == t.rows.Keys + {target} && 1 <= target < after.nextId && t.nextId <= after.nextId
    && after.rows[target] == device
    && (forall i :: i in t.rows && i != target ==> after.rows[i] == Cleared(t.rows[i], device.ipv4, device.ipv6))
  }

  /** The device says all that the lease says: its address, and its MAC, DUID, hostname and a MUD URL where it has them. */
  predicate Reflects(device: Device, lease: Lease) {
    && (lease.ip.V4? ==> device.ipv4 == Some(lease.ip.bits))
    && (lease.ip.V6? ==> device.ipv6 == Some(lease.ip.bits))
    && (lease.mac.Some? ==> device.mac == lease.mac)
    && (lease.duid.Some? ==> device.duid == lease.duid)
    && (lease.hostname.Some? ==> device.hostname == lease.hostname.value)
    && (lease.mudUrl.Some? ==> device.mudUrl.Some?)
  }

  /** Whatever the lease does not say is kept, a MUD URL once set in any case. */
  predicate KeepsTheRest(before: Device, device: Device, lease: Lease) {
    && (lease.ip.V4? ==> device.ipv6 == before.ipv6) && (lease.ip.V6? ==> device.ipv4 == before.ipv4)
    && (lease.mac.None? ==> device.mac == before.mac) && (lease.duid.None? ==> device.duid == before.duid)
    && (lease.hostname.None? ==> device.hostname == before.hostname)
    && (before.mudUrl.Some? ==> device.mudUrl == before.mudUrl) && (before.mudUrl.None? ==> device.mudUrl == lease.mudUrl)
    && device.id == before.id && device.name == before.name && device.vendorClass == before.vendorClass
    && device.collectInfo == before.collectInfo && device.lastInteraction == before.lastInteraction
    && device.roomId == before.roomId && device.clipart == before.clipart
  }

  /** A device known only from its lease. */
  predicate KnownFromLease(device: Device, lease: Lease, collectInfo: bool, now: Instant) {
    && (lease.ip.V4? ==> device.ipv6 == None) && (lease.ip.V6? ==> device.ipv4 == None)
    && device.mac == lease.mac && device.duid == lease.duid && device.mudUrl == lease.mudUrl
    && (lease.hostname.None? ==> device.hostname == "")
    && device.name == None && device.vendorClass == "" && device.roomId == None && device.clipart == None
    && device.collectInfo == collectInfo && device.lastInteraction == now
  }

  /** A lease finds the row with its MAC, or else with its DUID, if there is one. */
  ghost predicate Matches(t: Table, lease: Lease, id: int) {
    && id in t.rows
    && ((lease.mac.Some? && t.rows[id].mac == lease.mac)
        || (lease.duid.Some? && t.rows[id].duid == lease.duid
            && (lease.mac.Some? ==> forall i :: i in t.rows ==> t.rows[i].mac != lease.mac)))
  }

  /**
   The row a lease leaves once its device loads. A row that matches has the lease's address, and its
   MAC, DUID and hostname where it carries them, and keeps everything else; without one a new row is
   made from the lease alone.
   */
  lemma LeaseRow(t: Table, lease: Lease, collectInfo: bool, now: Instant)
    requires Valid(t)
    ensures var after := UpsertLease(t, lease, collectInfo, now, true);
            var target := Target(t, lease);
            && target in after.rows && Reflects(after.rows[target], lease)
            && (Matches(t, lease, target) || (target == t.nextId && forall id :: id in t.rows ==> !Matches(t, lease, id)))
            && (Matches(t, lease, target) ==> KeepsTheRest(t.rows[target], after.rows[target], lease))
            && (target == t.nextId ==>
                  after.rows[target].id == target && KnownFromLease(after.rows[target], lease, collectInfo, now))
  {
    UpsertShape(t, lease, collectInfo, now);
    LeaseDeviceReflects(t, lease, collectInfo, now, Target(t, lease));
    TargetMatches(t, lease);
  }

  lemma TargetMatches(t: Table, lease: Lease)
    requires Valid(t)
    ensures Matches(t, lease, Target(t, lease)) <==> Find(t, lease.mac, lease.duid).Some?
    ensures Find(t, lease.mac, lease.duid).None? ==>
              Target(t, lease) == t.nextId && forall id :: id in t.rows ==> !Matches(t, lease, id)
  {
    var byMac := if lease.mac.Some? then WithMac(t, lease.mac.value) else None;
    assert lease.mac.Some? && byMac.None? ==> forall i :: i in t.rows ==> !HasMac(lease.mac.value)(t.rows[i]);
    assert lease.duid.Some? && WithDuid(t, lease.duid.value).None? ==>
        forall i :: i in t.rows ==> !HasDuid(lease.duid.value)(t.rows[i]);
  }

  lemma LeaseDeviceReflects(t: Table, lease: Lease, collectInfo: bool, now: Instant, id: int)
    ensures Reflects(LeaseDevice(t, lease, collectInfo, now).(id := id), lease)
  {
  }

  lemma UpsertShape(t: Table, lease: Lease, collectInfo: bool, now: Instant)
    requires Valid(t)
    ensures var device := LeaseDevice(t, lease, collectInfo, now).(id := Target(t, lease));
            StoredAs(t, UpsertLease(t, lease, collectInfo, now, true), device, Target(t, lease))
  {
    var device := LeaseDevice(t, lease, collectInfo, now);
    var cleared := RemoveExistingIps(t, device.ipv4, device.ipv6);
    assert cleared.rows.Keys == t.rows.Keys;
    if Find(t, lease.mac, lease.duid).Some? {
      assert UpsertLease(t, lease, collectInfo, now, true) == UpdateRow(cleared, device);
    } else {
      assert UpsertLease(t, lease, collectInfo, now, true) == InsertRow(cleared, device);
    }
  }

  /** A second identical lease finds the row the first one wrote. */
  lemma SecondLeaseFindsTarget(t: Table, after: Table, device: Device, lease: Lease)
    requires Valid(t) && (lease.mac.Some? || lease.duid.Some?)
    requires StoredAs(t, after, device, Target(t, lease)) && Reflects(device, lease)
    ensures Find(after, lease.mac, lease.duid) == Some(Target(t, lease))
  {
    if lease.mac.Some? {
      SameLowest(t, after, HasMac(lease.mac.value), Target(t, lease));
    } else {
      SameLowest(t, after, HasDuid(lease.duid.value), Target(t, lease));
    }
  }

  /** A target that satisfies the condition stays the lowest to do so when no other row's answer changes. */
  lemma SameLowest(t: Table, after: Table, condition: Device -> bool, target: int)
    requires Valid(t) && target in after.rows && 1 <= target < after.nextId && condition(after.rows[target])
    requires forall i :: i in after.rows && i != target ==> i in t.rows && condition(after.rows[i]) == condition(t.rows[i])
    requires Lowest(t, condition, 1) in {None, Some(target)}
    ensures Lowest(after, condition, 1) == Some(target)
  {
    assert Lowest(after, condition, 1).Some?;
  }

  /** A lease about a row that already says all it says, and whose addresses no other row has, changes nothing. */
  lemma SettledLease(t: Table, lease: Lease, id: int, collectInfo: bool, now: Instant)
    requires Find(t, lease.mac, lease.duid) == Some(id) && id in t.rows && t.rows[id].id == id
    requires Reflects(t.rows[id], lease)
    requires forall i :: i in t.rows && i != id ==> Cleared(t.rows[i], t.rows[id].ipv4, t.rows[id].ipv6) == t.rows[i]
    ensures UpsertLease(t, lease, collectInfo, now, true) == t
  {
    var device := t.rows[id];
    assert LeaseDevice(t, lease, collectInfo, now) == device;
    var cleared := RemoveExistingIps(t, device.ipv4, device.ipv6);
    forall i | i in t.rows ensures cleared.rows[id := device][i] == t.rows[i] {
      assert i != id ==> cleared.rows[i] == Cleared(t.rows[i], device.ipv4, device.ipv6);
    }
    assert cleared.rows[id := device].Keys == t.rows.Keys;
    assert cleared.rows[id := device] == t.rows;
  }

  lemma ClearedTwice(d: Device, ipv4: Option<nat>, ipv6: Option<nat>)
    ensures Cleared(Cleared(d, ipv4, ipv6), ipv4, ipv6) == Cleared(d, ipv4, ipv6)
  {
  }

  /** Repeating a successful lease leaves the device table as it is. */
  lemma LeaseIdempotent(t: Table, lease: Lease, collectInfo: bool, now: Instant, collectInfo': bool, now': Instant)
    requires Valid(t) && (lease.mac.Some? || lease.duid.Some?)
    ensures var once := UpsertLease(t, lease, collectInfo, now, true);
            UpsertLease(once, lease, collectInfo', now', true) == once
  {
    var target := Target(t, lease);
    var device := LeaseDevice(t, lease, collectInfo, now).(id := target);
    UpsertShape(t, lease, collectInfo, now);
    LeaseDeviceReflects(t, lease, collectInfo, now, target);
    SettledAfter(t, UpsertLease(t, lease, collectInfo, now, true), device, lease, collectInfo', now');
  }

  lemma SettledAfter(t: Table, once: Table, device: Device, lease: Lease, collectInfo: bool, now: Instant)
    requires Valid(t) && (lease.mac.Some? || lease.duid.Some?)
    requires StoredAs(t, once, device, Target(t, lease)) && device.id == Target(t, lease) && Reflects(device, lease)
    ensures UpsertLease(once, lease, collectInfo, now, true) == once
  {
    SecondLeaseFindsTarget(t, once, device, lease);
    forall i | i in once.rows && i != device.id ensures Cleared(once.rows[i], device.ipv4, device.ipv6) == once.rows[i] {
      ClearedTwice(t.rows[i], device.ipv4, device.ipv6);
    }
    SettledLease(once, lease, device.id, collectInfo, now);
  }

  /** `after` is `before` up to addresses, and an address only goes away because `holder` has it. */
  predicate OnlyCleared(before: Device, after: Device, holder: Device) {
    && after.(ipv4 := None, ipv6 := None) == before.(ipv4 := None, ipv6 := None)
    && (after.ipv4 == before.ipv4 || (after.ipv4.None? && holder.ipv4 == before.ipv4))
    && (after.ipv6 == before.ipv6 || (after.ipv6.None? && holder.ipv6 == before.ipv6))
  }

  /** A lease touches other rows only by clearing an address that its device (stored, or meant to be) holds. */
  lemma LeaseFrame(t: Table, lease: Lease, collectInfo: bool, now: Instant, loads: bool)
    requires Valid(t)
    ensures var after := UpsertLease(t, lease, collectInfo, now, loads);
            var target := Target(t, lease);
            && t.rows.Keys <= after.rows.Keys <= t.rows.Keys + {target}
            && (loads ==> target in after.rows)
            && (loads ==> after.rows[target] == LeaseDevice(t, lease, collectInfo, now).(id := target))
            && (forall i :: i in t.rows && (i != target || !loads) ==>
                  OnlyCleared(t.rows[i], after.rows[i], LeaseDevice(t, lease, collectInfo, now)))
  {
  }

  lemma UpsertKeepsMudUrl(t: Table, lease: Lease, collectInfo: bool, now: Instant, loads: bool, id: int)
    requires Valid(t) && id in t.rows && t.rows[id].mudUrl.Some?
    ensures var after := UpsertLease(t, lease, collectInfo, now, loads);
            id in after.rows && after.rows[id].mudUrl == t.rows[id].mudUrl
  {
  }

  /** Over any run of leases a MUD URL, once set, never changes. */
  lemma {:induction false} MudUrlFixed(t: Table, ops: seq<TableOp>, id: int)
    requires Valid(t) && id in t.rows && t.rows[id].mudUrl.Some?
    requires forall k :: 0 <= k < |ops| ==> ops[k].Upsert?
    ensures id in RunOps(t, ops).rows && RunOps(t, ops).rows[id].mudUrl == t.rows[id].mudUrl
    decreases |ops|
  {
    if ops != [] {
      var op := ops[0];
      UpsertKeepsValid(t, op.lease, op.collectInfo, op.now, op.loads);
      UpsertKeepsMudUrl(t, op.lease, op.collectInfo, op.now, op.loads, id);
      MudUrlFixed(PerformOn(t, op), ops[1..], id);
    }
  }
}
