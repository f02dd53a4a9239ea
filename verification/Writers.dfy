/**
 The controller's operations as writers of the distribution protocol: the steps each one takes, that
 these steps end in the tables of the sequential operation, and which of them are disciplined.
 */
module Writers {
  import opened Prelude
  import opened Models
  import opened MudCache
  import opened DeviceTable
  import opened ConfigVersion
  import opened Decimal
  import opened Controller
  import opened Polling
  import opened Announcements
  import opened Distribution
  import Firewall

  // ---------------------------------------------------------------- the steps of each operation

  /** A lookup stores at most one row: a new one, one on behalf of a writer, or one that nobody announces. */
  function LookupSteps(x: Texts, muds: MudTable, url: string, v: Visit, writer: Option<Process>): seq<Step> {
    if !Stores(x.mud, muds, url, v) then []
    else
      var row := GetOrFetch(x.mud, muds, url, v).table[url];
      [if url !in muds then AddMud(url, row)
       else if writer.Some? then WriteMud(writer.value, url, row)
       else RefreshOnRead(url, row)]
  }

  function LoadSteps(x: Texts, muds: MudTable, d: Device, trip: Trip, writer: Option<Process>): seq<Step> {
    if (d.roomId.Some? && !trip.roomFound) || d.mudUrl.None? then []
    else LookupSteps(x, muds, d.mudUrl.value, trip.visit, writer)
  }

  /** `remove_existing_ips`: one statement for each address the device has. */
  function ClearSteps(devices: Table, d: Device, w: Process): seq<Step> {
    var first := RemoveExistingIps(devices, d.ipv4, None);
    (if d.ipv4.Some? then [WriteDevices(w, first)] else [])
    + (if d.ipv6.Some? then [WriteDevices(w, RemoveExistingIps(first, None, d.ipv6))] else [])
  }

  function StoreSteps(devices: Table, w: Process): seq<Step> {
    [WriteDevices(w, devices), BumpVersion(w)]
  }

  function JobSteps(x: Texts, muds: MudTable, urls: seq<string>, visits: Visits, w: Process): seq<Step>
    decreases |urls|
  {
    if urls == [] then []
    else
      var l := GetOrFetch(x.mud, muds, urls[0], visits(urls[0]));
      LookupSteps(x, muds, urls[0], visits(urls[0]), Some(w))
      + if l.result.Failure? then [] else JobSteps(x, l.table, urls[1..], visits, w)
  }

  /** Clear the addresses, load, and then store and bump, or give up. */
  function LeaseSteps(x: Texts, t: Tables, lease: Lease, trip: Trip, at: Instant, w: Process): seq<Step> {
    var d := DeviceOfLease(t, lease, at);
    ClearSteps(t.devices, d, w)
    + (LoadSteps(x, t.muds, d, trip, Some(w))
       + if LoadFails(x, t.muds, d, trip) then [Abandon(w)]
         else StoreSteps(LeaseOutcome(x, t, lease, trip, at).tables.devices, w))
  }

  /** Load, insert and bump, and load once more for the reply. */
  function CreateSteps(x: Texts, t: Tables, d: Device, trip: Trip, again: Trip, w: Process): seq<Step> {
    if LoadFails(x, t.muds, d, trip) then []
    else
      LoadSteps(x, t.muds, d, trip, Some(w))
      + (StoreSteps(InsertRow(t.devices, d), w)
         + LoadSteps(x, LoadRefs(x, t.muds, d, trip).muds, d, again, None))
  }

  function UpdateSteps(x: Texts, t: Tables, d: Device, trip: Trip, w: Process): seq<Step> {
    if LoadFails(x, t.muds, d, trip) then []
    else LoadSteps(x, t.muds, d, trip, Some(w)) + StoreSteps(UpdateRow(t.devices, d), w)
  }

  /** Look up each URL, and then bump, or give up at the first failure. */
  function RefreshSteps(x: Texts, t: Tables, urls: seq<string>, visits: Visits, w: Process): seq<Step> {
    if urls == [] then []
    else JobSteps(x, t.muds, urls, visits, w)
         + [if RefreshAll(x.mud, t.muds, urls, visits).ok then BumpVersion(w) else Abandon(w)]
  }

  ghost function StepsOf(x: Texts, t: Tables, op: Op, w: Process): seq<Step> {
    match op
    case DhcpLease(lease, trip, at) => LeaseSteps(x, t, lease, trip, at, w)
    case CreateDevice(dto, trip, again, at) =>
      if !ValidDto(dto) || IntoDevice(x, dto, at).None? then []
      else CreateSteps(x, t, IntoDevice(x, dto, at).value, trip, again, w)
    case UpdateDevice(id, dto, trip) =>
      if !ValidDto(dto) || id !in t.devices.rows then []
      else UpdateSteps(x, t, ApplyDto(x, t.devices.rows[id], dto), trip, w)
    case DeleteDevice(id) => if id !in t.devices.rows then [] else StoreSteps(DeleteRow(t.devices, id), w)
    case CreateMud(url, overrides, visit) =>
      if url in t.muds then []
      else if x.mud.isUrl(url) then LookupSteps(x, t.muds, url, visit, None)
      else [AddMud(url, CreateMudOutcome(x, t, url, overrides, visit).tables.muds[url])]
    case UpdateMud(url, overrides) =>
      if url !in t.muds then []
      else [WriteMud(w, url, UpdateMudOutcome(t, url, overrides).tables.muds[url]), BumpVersion(w)]
    case DeleteMud(url) => if url !in t.muds || MudUsed(t.devices, url) then [] else [DropMud(url)]
    case ReadMud(url, visit) => LookupSteps(x, t.muds, url, visit, None)
    case RefreshJob(listing, checkedAt, visits) => RefreshSteps(x, t, JobUrls(t, listing, checkedAt), visits, w)
    case SetConfig(key, value) => [WriteConfig(key, value)]
    case RemoveConfig(key) => [EraseConfig(key)]
  }

  // ---------------------------------------------------------------- they end where the operation ends

  /** The writer is marked, or as it was before. */
  predicate Marked(before: set<Process>, after: set<Process>, writer: Option<Process>) {
    after == before || (writer.Some? && after == before + {writer.value})
  }

  lemma LookupLeads(x: Texts, s: State, url: string, v: Visit, writer: Option<Process>) returns (end: State)
    ensures Leads(x, s, LookupSteps(x, s.tables.muds, url, v, writer), end)
    ensures end == s.(tables := s.tables.(muds := GetOrFetch(x.mud, s.tables.muds, url, v).table), dirty := end.dirty)
    ensures Marked(s.dirty, end.dirty, writer)
  {
    LookupWritesOneRow(x.mud, s.tables.muds, url, v);
    var steps := LookupSteps(x, s.tables.muds, url, v, writer);
    if steps == [] {
      end := s;
    } else {
      LeadsOne(x, s, steps[0]);
      end := After(x, s, steps[0]);
    }
  }

  lemma LoadLeads(x: Texts, s: State, d: Device, trip: Trip, writer: Option<Process>) returns (end: State)
    ensures Leads(x, s, LoadSteps(x, s.tables.muds, d, trip, writer), end)
    ensures end == s.(tables := s.tables.(muds := LoadRefs(x, s.tables.muds, d, trip).muds), dirty := end.dirty)
    ensures Marked(s.dirty, end.dirty, writer)
  {
    if (d.roomId.Some? && !trip.roomFound) || d.mudUrl.None? {
      end := s;
    } else {
      end := LookupLeads(x, s, d.mudUrl.value, trip.visit, writer);
    }
  }

  lemma StoreLeads(x: Texts, s: State, devices: Table, w: Process) returns (end: State)
    requires Valid(devices) && Referenced(s.tables.muds, devices)
    ensures Leads(x, s, StoreSteps(devices, w), end)
    ensures end == s.(tables := s.tables.(devices := devices, config := Bump(s.tables.config)),
                      bumps := s.bumps + 1, dirty := s.dirty - {w})
  {
    var s1 := After(x, s, WriteDevices(w, devices));
    LeadsOne(x, s, WriteDevices(w, devices));
    LeadsOne(x, s1, BumpVersion(w));
    end := After(x, s1, BumpVersion(w));
    LeadsJoin(x, s, [WriteDevices(w, devices)], s1, [BumpVersion(w)], end);
    assert [WriteDevices(w, devices)] + [BumpVersion(w)] == StoreSteps(devices, w);
    assert s.dirty + {w} - {w} == s.dirty - {w};
  }

  lemma ClearKeepsSound(t: Tables, ipv4: Option<nat>, ipv6: Option<nat>)
    requires Sound(t)
    ensures Sound(t.(devices := RemoveExistingIps(t.devices, ipv4, ipv6)))
  {
  }

  /** One clearing statement, or none when there is no address to clear. */
  lemma ClearOneLeads(x: Texts, s: State, ipv4: Option<nat>, ipv6: Option<nat>, w: Process) returns (end: State)
    requires Sound(s.tables)
    ensures var devices := RemoveExistingIps(s.tables.devices, ipv4, ipv6);
            && Leads(x, s, if ipv4.Some? || ipv6.Some? then [WriteDevices(w, devices)] else [], end)
            && end == s.(tables := s.tables.(devices := devices), dirty := end.dirty)
    ensures Marked(s.dirty, end.dirty, Some(w)) && Sound(end.tables)
  {
    var devices := RemoveExistingIps(s.tables.devices, ipv4, ipv6);
    ClearKeepsSound(s.tables, ipv4, ipv6);
    if ipv4.Some? || ipv6.Some? {
      LeadsOne(x, s, WriteDevices(w, devices));
      end := After(x, s, WriteDevices(w, devices));
    } else {
      assert forall id :: id in devices.rows ==> devices.rows[id] == s.tables.devices.rows[id];
      assert devices.rows == s.tables.devices.rows;
      end := s;
    }
  }

  lemma ClearLeads(x: Texts, s: State, d: Device, w: Process) returns (end: State)
    requires Sound(s.tables)
    ensures Leads(x, s, ClearSteps(s.tables.devices, d, w), end)
    ensures end == s.(tables := s.tables.(devices := RemoveExistingIps(s.tables.devices, d.ipv4, d.ipv6)), dirty := end.dirty)
    ensures Marked(s.dirty, end.dirty, Some(w)) && Sound(end.tables)
  {
    var s1 := ClearOneLeads(x, s, d.ipv4, None, w);
    end := ClearOneLeads(x, s1, None, d.ipv6, w);
    var first := RemoveExistingIps(s.tables.devices, d.ipv4, None);
    LeadsJoin(x, s, if d.ipv4.Some? then [WriteDevices(w, first)] else [], s1,
              if d.ipv6.Some? then [WriteDevices(w, RemoveExistingIps(first, None, d.ipv6))] else [], end);
    ClearTableInTurn(s.tables.devices, d.ipv4, d.ipv6);
  }

  lemma ClearTableInTurn(devices: Table, ipv4: Option<nat>, ipv6: Option<nat>)
    ensures RemoveExistingIps(RemoveExistingIps(devices, ipv4, None), None, ipv6) == RemoveExistingIps(devices, ipv4, ipv6)
  {
    forall id | id in devices.rows
      ensures Cleared(Cleared(devices.rows[id], ipv4, None), None, ipv6) == Cleared(devices.rows[id], ipv4, ipv6)
    {
      ClearInTurn(devices.rows[id], ipv4, ipv6);
    }
  }

  /** The protocol reaches the operation's tables, with nothing else disturbed and at most one bump. */
  ghost predicate Performs(x: Texts, s: State, steps: seq<Step>, tables: Tables) {
    && CanRun(x, s, steps)
    && var end := Execute(x, s, steps);
    end == s.(tables := tables, bumps := end.bumps) && s.bumps <= end.bumps <= s.bumps + 1
  }

  /** Two, or three, stretches of a path one after another. */
  lemma PerformsJoined(x: Texts, s: State, a: seq<Step>, s1: State, b: seq<Step>, end: State)
    requires Leads(x, s, a, s1) && Leads(x, s1, b, end)
    requires end == s.(tables := end.tables, bumps := end.bumps) && s.bumps <= end.bumps <= s.bumps + 1
    ensures Performs(x, s, a + b, end.tables)
  {
    LeadsJoin(x, s, a, s1, b, end);
  }

  lemma PerformsJoinedTwice(x: Texts, s: State, a: seq<Step>, s1: State, b: seq<Step>, s2: State, c: seq<Step>, end: State)
    requires Leads(x, s, a, s1) && Leads(x, s1, b, s2) && Leads(x, s2, c, end)
    requires end == s.(tables := end.tables, bumps := end.bumps) && s.bumps <= end.bumps <= s.bumps + 1
    ensures Performs(x, s, a + (b + c), end.tables)
  {
    LeadsJoin(x, s1, b, s2, c, end);
    LeadsJoin(x, s, a, s1, b + c, end);
  }

  lemma LeaseIsPath(x: Texts, s: State, lease: Lease, trip: Trip, at: Instant, w: Process)
    requires Sound(s.tables) && w !in s.dirty
    ensures Performs(x, s, LeaseSteps(x, s.tables, lease, trip, at, w), LeaseOutcome(x, s.tables, lease, trip, at).tables)
  {
    var d := DeviceOfLease(s.tables, lease, at);
    var tables := LeaseOutcome(x, s.tables, lease, trip, at).tables;
    LoadFailsIff(x, s.tables.muds, d, trip);
    var s1 := ClearLeads(x, s, d, w);
    var s2 := LoadLeads(x, s1, d, trip, Some(w));
    var steps, end;
    if LoadFails(x, s.tables.muds, d, trip) {
      LeadsOne(x, s2, Abandon(w));
      steps, end := [Abandon(w)], After(x, s2, Abandon(w));
    } else {
      LeaseKeepsSound(x, s.tables, lease, trip, at);
      end := StoreLeads(x, s2, tables.devices, w);
      steps := StoreSteps(tables.devices, w);
    }
    assert end.dirty == s.dirty;
    PerformsJoinedTwice(x, s, ClearSteps(s.tables.devices, d, w), s1, LoadSteps(x, s.tables.muds, d, trip, Some(w)), s2,
                        steps, end);
  }

  lemma LeaseKeepsSound(x: Texts, t: Tables, lease: Lease, trip: Trip, at: Instant)
    requires Sound(t)
    ensures Sound(LeaseOutcome(x, t, lease, trip, at).tables)
  {
    var collect := lease.mudUrl.None? && CollectSetting(t.config);
    var d := DeviceOfLease(t, lease, at);
    LoadRefsFacts(x, t.muds, d, trip);
    var refs := LoadRefs(x, t.muds, d, trip);
    UpsertKeepsValid(t.devices, lease, collect, at, refs.ok);
    LeaseKeepsReferenced(refs.muds, t.devices, lease, collect, at, refs.ok);
  }

  lemma CreateIsPath(x: Texts, s: State, d: Device, trip: Trip, again: Trip, w: Process)
    requires Sound(s.tables) && w !in s.dirty && !LoadFails(x, s.tables.muds, d, trip)
    ensures var muds := LoadRefs(x, LoadRefs(x, s.tables.muds, d, trip).muds, d, again).muds;
            Performs(x, s, CreateSteps(x, s.tables, d, trip, again, w),
                     Tables(muds, InsertRow(s.tables.devices, d), Bump(s.tables.config)))
  {
    var devices := InsertRow(s.tables.devices, d);
    LoadFailsIff(x, s.tables.muds, d, trip);
    LoadRefsFacts(x, s.tables.muds, d, trip);
    InsertKeepsReferenced(LoadRefs(x, s.tables.muds, d, trip).muds, s.tables.devices, d);
    var s1 := LoadLeads(x, s, d, trip, Some(w));
    var s2 := StoreLeads(x, s1, devices, w);
    var s3 := LoadLeads(x, s2, d, again, None);
    var last := LoadSteps(x, s2.tables.muds, d, again, None);
    assert s3.dirty == s.dirty;
    PerformsJoinedTwice(x, s, LoadSteps(x, s.tables.muds, d, trip, Some(w)), s1, StoreSteps(devices, w), s2, last, s3);
  }

  lemma UpdateIsPath(x: Texts, s: State, d: Device, trip: Trip, w: Process)
    requires Sound(s.tables) && w !in s.dirty && !LoadFails(x, s.tables.muds, d, trip) && d.id in s.tables.devices.rows
    ensures Performs(x, s, UpdateSteps(x, s.tables, d, trip, w),
                     Tables(LoadRefs(x, s.tables.muds, d, trip).muds, UpdateRow(s.tables.devices, d), Bump(s.tables.config)))
  {
    LoadFailsIff(x, s.tables.muds, d, trip);
    LoadRefsFacts(x, s.tables.muds, d, trip);
    var s1 := LoadLeads(x, s, d, trip, Some(w));
    var s2 := StoreLeads(x, s1, UpdateRow(s.tables.devices, d), w);
    assert s2.dirty == s.dirty;
    PerformsJoined(x, s, LoadSteps(x, s.tables.muds, d, trip, Some(w)), s1,
                   StoreSteps(UpdateRow(s.tables.devices, d), w), s2);
  }

  lemma {:induction false} JobLeads(x: Texts, s: State, urls: seq<string>, visits: Visits, w: Process) returns (end: State)
    ensures Leads(x, s, JobSteps(x, s.tables.muds, urls, visits, w), end)
    ensures end == s.(tables := s.tables.(muds := RefreshAll(x.mud, s.tables.muds, urls, visits).table), dirty := end.dirty)
    ensures Marked(s.dirty, end.dirty, Some(w))
    decreases |urls|
  {
    if urls == [] {
      end := s;
    } else {
      var l := GetOrFetch(x.mud, s.tables.muds, urls[0], visits(urls[0]));
      var first := LookupSteps(x, s.tables.muds, urls[0], visits(urls[0]), Some(w));
      var s1 := LookupLeads(x, s, urls[0], visits(urls[0]), Some(w));
      if l.result.Failure? {
        assert first + [] == first;
        end := s1;
      } else {
        end := JobLeads(x, s1, urls[1..], visits, w);
        LeadsJoin(x, s, first, s1, JobSteps(x, l.table, urls[1..], visits, w), end);
      }
    }
  }

  lemma JobIsPath(x: Texts, s: State, urls: seq<string>, visits: Visits, w: Process)
    requires w !in s.dirty && urls != []
    ensures var r := RefreshAll(x.mud, s.tables.muds, urls, visits);
            var config := if r.ok then Bump(s.tables.config) else s.tables.config;
            Performs(x, s, RefreshSteps(x, s.tables, urls, visits, w), s.tables.(muds := r.table, config := config))
  {
    var s1 := JobLeads(x, s, urls, visits, w);
    var last := if RefreshAll(x.mud, s.tables.muds, urls, visits).ok then BumpVersion(w) else Abandon(w);
    LeadsOne(x, s1, last);
    assert s1.dirty - {w} == s.dirty;
    PerformsJoined(x, s, JobSteps(x, s.tables.muds, urls, visits, w), s1, [last], After(x, s1, last));
  }

  /** One step that is its own operation. */
  lemma SingleStep(x: Texts, s: State, step: Step, tables: Tables)
    requires Enabled(s, step) && After(x, s, step) == s.(tables := tables)
    ensures Performs(x, s, [step], tables)
  {
    LeadsOne(x, s, step);
  }

  lemma ReadIsPath(x: Texts, s: State, url: string, v: Visit)
    ensures Performs(x, s, LookupSteps(x, s.tables.muds, url, v, None), ReadMudOutcome(x, s.tables, url, v).tables)
  {
    var end := LookupLeads(x, s, url, v, None);
  }

  lemma UpdateMudIsPath(x: Texts, s: State, url: string, overrides: Option<seq<Acl>>, w: Process)
    requires w !in s.dirty && url in s.tables.muds
    ensures var tables := UpdateMudOutcome(s.tables, url, overrides).tables;
            Performs(x, s, [WriteMud(w, url, tables.muds[url]), BumpVersion(w)], tables)
  {
    var row := UpdateMudOutcome(s.tables, url, overrides).tables.muds[url];
    var s1 := After(x, s, WriteMud(w, url, row));
    LeadsOne(x, s, WriteMud(w, url, row));
    LeadsOne(x, s1, BumpVersion(w));
    LeadsJoin(x, s, [WriteMud(w, url, row)], s1, [BumpVersion(w)], After(x, s1, BumpVersion(w)));
    assert [WriteMud(w, url, row)] + [BumpVersion(w)] == [WriteMud(w, url, row), BumpVersion(w)];
    assert s.dirty + {w} - {w} == s.dirty;
  }

  lemma DeleteIsPath(x: Texts, s: State, id: int, w: Process)
    requires Sound(s.tables) && w !in s.dirty && id in s.tables.devices.rows
    ensures Performs(x, s, StoreSteps(DeleteRow(s.tables.devices, id), w), DeleteDeviceOutcome(s.tables, id).tables)
  {
    var end := StoreLeads(x, s, DeleteRow(s.tables.devices, id), w);
  }

  /** The routes that store a device. */
  lemma DeviceRouteIsPath(x: Texts, s: State, op: Op, w: Process)
    requires Sound(s.tables) && w !in s.dirty && (op.CreateDevice? || op.UpdateDevice?)
    ensures Performs(x, s, StepsOf(x, s.tables, op, w), Perform(x, s.tables, op).tables)
  {
    match op
    case CreateDevice(dto, trip, again, at) =>
      if ValidDto(dto) && IntoDevice(x, dto, at).Some? {
        var d := IntoDevice(x, dto, at).value;
        LoadFailsIff(x, s.tables.muds, d, trip);
        if !LoadFails(x, s.tables.muds, d, trip) {
          CreateIsPath(x, s, d, trip, again, w);
        }
      }
    case UpdateDevice(id, dto, trip) =>
      if ValidDto(dto) && id in s.tables.devices.rows {
        var d := ApplyDto(x, s.tables.devices.rows[id], dto);
        LoadFailsIff(x, s.tables.muds, d, trip);
        if !LoadFails(x, s.tables.muds, d, trip) {
          UpdateIsPath(x, s, d, trip, w);
        }
      }
  }

  lemma MudRouteIsPath(x: Texts, s: State, op: Op, w: Process)
    requires w !in s.dirty && (op.CreateMud? || op.UpdateMud? || op.DeleteMud?)
    ensures Performs(x, s, StepsOf(x, s.tables, op, w), Perform(x, s.tables, op).tables)
  {
    var tables := Perform(x, s.tables, op).tables;
    match op
    case CreateMud(url, overrides, visit) =>
      if url !in s.tables.muds {
        if x.mud.isUrl(url) {
          ReadIsPath(x, s, url, visit);
        } else {
          SingleStep(x, s, AddMud(url, tables.muds[url]), tables);
        }
      }
    case UpdateMud(url, overrides) =>
      if url in s.tables.muds {
        UpdateMudIsPath(x, s, url, overrides, w);
      }
    case DeleteMud(url) =>
      if url in s.tables.muds && !MudUsed(s.tables.devices, url) {
        SingleStep(x, s, DropMud(url), tables);
      }
  }

  /** Every operation is a path of the protocol that ends in exactly the operation's tables. */
  lemma OperationIsPath(x: Texts, s: State, op: Op, w: Process)
    requires Sound(s.tables) && w !in s.dirty
    ensures Performs(x, s, StepsOf(x, s.tables, op, w), Perform(x, s.tables, op).tables)
  {
    match op
    case DhcpLease(lease, trip, at) => LeaseIsPath(x, s, lease, trip, at, w);
    case CreateDevice(_, _, _, _) => DeviceRouteIsPath(x, s, op, w);
    case UpdateDevice(_, _, _) => DeviceRouteIsPath(x, s, op, w);
    case DeleteDevice(id) => if id in s.tables.devices.rows { DeleteIsPath(x, s, id, w); }
    case CreateMud(_, _, _) => MudRouteIsPath(x, s, op, w);
    case UpdateMud(_, _) => MudRouteIsPath(x, s, op, w);
    case DeleteMud(_) => MudRouteIsPath(x, s, op, w);
    case ReadMud(url, visit) => ReadIsPath(x, s, url, visit);
    case RefreshJob(listing, checkedAt, visits) =>
      var urls := JobUrls(s.tables, listing, checkedAt);
      if urls != [] { JobIsPath(x, s, urls, visits, w); }
    case SetConfig(key, value) => SingleStep(x, s, WriteConfig(key, value), Perform(x, s.tables, op).tables);
    case RemoveConfig(key) => SingleStep(x, s, EraseConfig(key), Perform(x, s.tables, op).tables);
  }

  // ---------------------------------------------------------------- which operations are disciplined

  /**
   An operation breaks the discipline exactly when it is a lease that cannot load its device, a read
   that stores another version of a stored profile, a creation that does so after its bump, a job that
   meets a stuck name, or a write to the version row.
   */
  ghost predicate Careless(x: Texts, t: Tables, op: Op) {
    match op
    case DhcpLease(lease, trip, at) => LoadFails(x, t.muds, DeviceOfLease(t, lease, at), trip)
    case CreateDevice(dto, trip, again, at) =>
      && ValidDto(dto) && IntoDevice(x, dto, at).Some?
      && var d := IntoDevice(x, dto, at).value;
      && !LoadFails(x, t.muds, d, trip) && (d.roomId.Some? ==> again.roomFound)
      && d.mudUrl.Some? && Stores(x.mud, LoadRefs(x, t.muds, d, trip).muds, d.mudUrl.value, again.visit)
    case ReadMud(url, visit) => url in t.muds && Stores(x.mud, t.muds, url, visit)
    case RefreshJob(listing, checkedAt, visits) =>
      var urls := JobUrls(t, listing, checkedAt);
      Reached(x.mud, t.muds, urls, visits) < |urls|
    case SetConfig(key, _) => key == VERSION_KEY
    case RemoveConfig(key) => key == VERSION_KEY
    case _ => false
  }

  lemma DisciplinedConcat(a: seq<Step>, b: seq<Step>)
    ensures AllDisciplined(a + b) <==> AllDisciplined(a) && AllDisciplined(b)
  {
    assert forall i :: 0 <= i < |b| ==> (a + b)[|a| + i] == b[i];
    assert forall i :: 0 <= i < |a| ==> (a + b)[i] == a[i];
  }

  lemma {:induction false} JobStepsDisciplined(x: Texts, muds: MudTable, urls: seq<string>, visits: Visits, w: Process)
    ensures AllDisciplined(JobSteps(x, muds, urls, visits, w))
    decreases |urls|
  {
    if urls != [] {
      var l := GetOrFetch(x.mud, muds, urls[0], visits(urls[0]));
      var rest := if l.result.Failure? then [] else JobSteps(x, l.table, urls[1..], visits, w);
      if l.result.Success? {
        JobStepsDisciplined(x, l.table, urls[1..], visits, w);
      }
      DisciplinedConcat(LookupSteps(x, muds, urls[0], visits(urls[0]), Some(w)), rest);
    }
  }

  lemma DisciplinedTwice(a: seq<Step>, b: seq<Step>, c: seq<Step>)
    ensures AllDisciplined(a + (b + c)) <==> AllDisciplined(a) && AllDisciplined(b) && AllDisciplined(c)
  {
    DisciplinedConcat(b, c);
    DisciplinedConcat(a, b + c);
  }

  lemma OneDisciplined(step: Step)
    ensures AllDisciplined([step]) <==> Disciplined(step)
  {
    assert AllDisciplined([step]) ==> Disciplined([step][0]);
  }

  /** What a writer does on its way is disciplined. */
  lemma WriterDisciplined(x: Texts, t: Tables, d: Device, trip: Trip, w: Process)
    ensures AllDisciplined(ClearSteps(t.devices, d, w)) && AllDisciplined(LoadSteps(x, t.muds, d, trip, Some(w)))
  {
  }

  lemma StoreDisciplined(devices: Table, w: Process)
    ensures AllDisciplined(StoreSteps(devices, w))
  {
  }

  /** Nobody announces a lookup without a writer that replaces a row. */
  lemma LookupDisciplinedIff(x: Texts, muds: MudTable, url: string, v: Visit)
    ensures AllDisciplined(LookupSteps(x, muds, url, v, None)) <==> !(url in muds && Stores(x.mud, muds, url, v))
  {
    var steps := LookupSteps(x, muds, url, v, None);
    if steps != [] {
      OneDisciplined(steps[0]);
      assert steps == [steps[0]];
    }
  }

  lemma LeaseDisciplinedIff(x: Texts, t: Tables, lease: Lease, trip: Trip, at: Instant, w: Process)
    ensures AllDisciplined(LeaseSteps(x, t, lease, trip, at, w)) <==> !LoadFails(x, t.muds, DeviceOfLease(t, lease, at), trip)
  {
    var d := DeviceOfLease(t, lease, at);
    var devices := LeaseOutcome(x, t, lease, trip, at).tables.devices;
    var end := if LoadFails(x, t.muds, d, trip) then [Abandon(w)] else StoreSteps(devices, w);
    WriterDisciplined(x, t, d, trip, w);
    StoreDisciplined(devices, w);
    OneDisciplined(Abandon(w));
    DisciplinedTwice(ClearSteps(t.devices, d, w), LoadSteps(x, t.muds, d, trip, Some(w)), end);
  }

  lemma CreateDisciplinedIff(x: Texts, t: Tables, d: Device, trip: Trip, again: Trip, w: Process)
    requires !LoadFails(x, t.muds, d, trip)
    ensures AllDisciplined(CreateSteps(x, t, d, trip, again, w)) <==>
            !((d.roomId.Some? ==> again.roomFound) && d.mudUrl.Some?
              && Stores(x.mud, LoadRefs(x, t.muds, d, trip).muds, d.mudUrl.value, again.visit))
  {
    var muds := LoadRefs(x, t.muds, d, trip).muds;
    LoadFailsIff(x, t.muds, d, trip);
    LoadRefsFacts(x, t.muds, d, trip);
    WriterDisciplined(x, t, d, trip, w);
    StoreDisciplined(InsertRow(t.devices, d), w);
    if d.mudUrl.Some? {
      LookupDisciplinedIff(x, muds, d.mudUrl.value, again.visit);
    }
    DisciplinedTwice(LoadSteps(x, t.muds, d, trip, Some(w)), StoreSteps(InsertRow(t.devices, d), w),
                     LoadSteps(x, muds, d, again, None));
  }

  lemma UpdateDisciplined(x: Texts, t: Tables, d: Device, trip: Trip, w: Process)
    ensures AllDisciplined(UpdateSteps(x, t, d, trip, w))
  {
    WriterDisciplined(x, t, d, trip, w);
    StoreDisciplined(UpdateRow(t.devices, d), w);
    DisciplinedConcat(LoadSteps(x, t.muds, d, trip, Some(w)), StoreSteps(UpdateRow(t.devices, d), w));
  }

  lemma JobDisciplinedIff(x: Texts, t: Tables, urls: seq<string>, visits: Visits, w: Process)
    requires forall u :: u in urls ==> u in t.muds
    ensures AllDisciplined(RefreshSteps(x, t, urls, visits, w)) <==> Reached(x.mud, t.muds, urls, visits) == |urls|
  {
    if urls != [] {
      var last := if RefreshAll(x.mud, t.muds, urls, visits).ok then BumpVersion(w) else Abandon(w);
      JobOkIff(x.mud, t.muds, urls, visits);
      JobStepsDisciplined(x, t.muds, urls, visits, w);
      OneDisciplined(last);
      DisciplinedConcat(JobSteps(x, t.muds, urls, visits, w), [last]);
    }
  }

  lemma MudRouteDisciplined(x: Texts, t: Tables, op: Op, w: Process)
    requires op.CreateMud? || op.UpdateMud? || op.DeleteMud?
    ensures AllDisciplined(StepsOf(x, t, op, w))
  {
    if op.CreateMud? {
      LookupDisciplinedIff(x, t.muds, op.url, op.visit);
    }
  }

  lemma CreateRouteDisciplinedIff(x: Texts, t: Tables, op: Op, w: Process)
    requires op.CreateDevice?
    ensures AllDisciplined(StepsOf(x, t, op, w)) <==> !Careless(x, t, op)
  {
    if ValidDto(op.dto) && IntoDevice(x, op.dto, op.at).Some? {
      var d := IntoDevice(x, op.dto, op.at).value;
      if !LoadFails(x, t.muds, d, op.trip) {
        CreateDisciplinedIff(x, t, d, op.trip, op.again, w);
      }
    }
  }

  /** Exactly the operations that are not careless are disciplined writers. */
  lemma DisciplinedIff(x: Texts, t: Tables, op: Op, w: Process)
    ensures AllDisciplined(StepsOf(x, t, op, w)) <==> !Careless(x, t, op)
  {
    match op
    case DhcpLease(lease, trip, at) => LeaseDisciplinedIff(x, t, lease, trip, at, w);
    case CreateDevice(_, _, _, _) => CreateRouteDisciplinedIff(x, t, op, w);
    case UpdateDevice(id, dto, trip) =>
      if id in t.devices.rows { UpdateDisciplined(x, t, ApplyDto(x, t.devices.rows[id], dto), trip, w); }
    case DeleteDevice(id) => StoreDisciplined(DeleteRow(t.devices, id), w);
    case RefreshJob(listing, checkedAt, visits) => JobDisciplinedIff(x, t, JobUrls(t, listing, checkedAt), visits, w);
    case ReadMud(url, visit) => LookupDisciplinedIff(x, t.muds, url, visit);
    case SetConfig(key, value) => OneDisciplined(WriteConfig(key, value));
    case RemoveConfig(key) => OneDisciplined(EraseConfig(key));
    case _ => MudRouteDisciplined(x, t, op, w);
  }

  // ---------------------------------------------------------------- runs of operations

  /** The steps of operations one after another. */
  ghost function RunSteps(x: Texts, t: Tables, ops: seq<Op>, w: Process): seq<Step>
    decreases |ops|
  {
    if ops == [] then [] else StepsOf(x, t, ops[0], w) + RunSteps(x, Perform(x, t, ops[0]).tables, ops[1..], w)
  }

  /** A sequential run of the controller is a run of the protocol. */
  lemma {:induction false} RunIsPath(x: Texts, s: State, ops: seq<Op>, w: Process) returns (end: State)
    requires Sound(s.tables) && w !in s.dirty
    ensures Leads(x, s, RunSteps(x, s.tables, ops, w), end)
    ensures end == s.(tables := Run(x, s.tables, ops), bumps := end.bumps) && Sound(end.tables)
    ensures s.bumps <= end.bumps <= s.bumps + |ops|
    decreases |ops|
  {
    if ops == [] {
      end := s;
    } else {
      var steps := StepsOf(x, s.tables, ops[0], w);
      OperationIsPath(x, s, ops[0], w);
      RunKeepsSound(x, s, steps);
      var s1 := Execute(x, s, steps);
      end := RunIsPath(x, s1, ops[1..], w);
      LeadsJoin(x, s, steps, s1, RunSteps(x, s1.tables, ops[1..], w), end);
    }
  }

  /** No operation of the run is careless on the tables it meets. */
  ghost predicate CarefulRun(x: Texts, t: Tables, ops: seq<Op>)
    decreases |ops|
  {
    ops == [] || (!Careless(x, t, ops[0]) && CarefulRun(x, Perform(x, t, ops[0]).tables, ops[1..]))
  }

  lemma {:induction false} CarefulRunDisciplined(x: Texts, t: Tables, ops: seq<Op>, w: Process)
    requires CarefulRun(x, t, ops)
    ensures AllDisciplined(RunSteps(x, t, ops, w))
    decreases |ops|
  {
    if ops != [] {
      var next := Perform(x, t, ops[0]).tables;
      DisciplinedIff(x, t, ops[0], w);
      CarefulRunDisciplined(x, next, ops[1..], w);
      DisciplinedConcat(StepsOf(x, t, ops[0], w), RunSteps(x, next, ops[1..], w));
    }
  }

  /**
   Convergence for the operations themselves: after any disciplined run, and then any run of careful
   operations, an enforcer that is up to date holds the configuration of the operations' own tables.
   */
  lemma CarefulRunConverges(x: Texts, init: State, before: seq<Step>, ops: seq<Op>, w: Process, e: Process)
    returns (end: State)
    requires Init(init) && DisciplinedRun(x, init, before)
    requires var s := Execute(x, init, before);
             s.dirty == {} && CarefulRun(x, s.tables, ops) && s.bumps + |ops| < U64_LIMIT
    ensures var s := Execute(x, init, before);
            && Leads(x, init, before + RunSteps(x, s.tables, ops, w), end)
            && end.tables == Run(x, s.tables, ops)
            && (UpToDate(end, e) ==> InSync(x, end, e))
  {
    var s := Execute(x, init, before);
    RunKeepsSound(x, init, before);
    end := RunIsPath(x, s, ops, w);
    CarefulRunDisciplined(x, s.tables, ops, w);
    var steps := RunSteps(x, s.tables, ops, w);
    DisciplinedConcat(before, steps);
    LeadsJoin(x, init, before, s, steps, end);
    if UpToDate(end, e) {
      Convergence(x, init, before + steps, e);
    }
  }
}
