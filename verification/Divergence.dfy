/**
 Why the discipline of the distribution protocol is needed: what each breach does to an enforcer that
 is in step, exactly when it diverges, and runs from empty tables in which it does.
 */
module Divergence {
  import opened Prelude
  import opened Models
  import opened DeviceTable
  import opened ConfigVersion
  import opened Controller
  import opened Polling
  import opened Announcements
  import opened MudCache
  import opened Distribution
  import opened Writers
  import Firewall

  /** Empty tables, and nobody there yet. */
  const START := State(NO_TABLES, 0, {}, map[], map[], map[])

  // ---------------------------------------------------------------- operations

  /**
   From every reachable state in which the enforcer is in step, an operation that runs without
   interruption leaves it diverged exactly when it changes the configuration quietly.
   */
  lemma OperationDivergesIff(x: Texts, init: State, before: seq<Step>, e: Process, op: Op, w: Process)
    requires Init(init) && CanRun(x, init, before) && InSync(x, Execute(x, init, before), e)
    ensures var s := Execute(x, init, before);
            var steps := StepsOf(x, s.tables, op, w);
            && Performs(x, s, steps, Perform(x, s.tables, op).tables)
            && (Diverged(x, Execute(x, s, steps), e) <==> ChangesQuietly(x, s.tables, op))
  {
    var s := Execute(x, init, before);
    RunKeepsSound(x, init, before);
    OperationIsPath(x, s, op, w);
    UnannouncedIff(x, s.tables, op);
  }

  /** Operations, a poll, and one more operation. */
  ghost function PolledRun(x: Texts, ops: seq<Op>, op: Op, p: Process, e: Process, w: Process): seq<Step> {
    var t := Run(x, NO_TABLES, ops);
    RunSteps(x, NO_TABLES, ops, w) + PollSteps(p, e, |DeviceList(t.devices, 1)|) + StepsOf(x, t, op, w)
  }

  /** Every quiet operation after every run makes an enforcer diverge that polled just before it. */
  lemma QuietRunDiverges(x: Texts, ops: seq<Op>, op: Op, p: Process, e: Process, w: Process)
    requires ChangesQuietly(x, Run(x, NO_TABLES, ops), op)
    ensures var steps := PolledRun(x, ops, op, p, e, w); CanRun(x, START, steps) && Diverged(x, Execute(x, START, steps), e)
  {
    var first := RunSteps(x, NO_TABLES, ops, w);
    var s1 := RunIsPath(x, START, ops, w);
    var poll, s2 := PollSteps(p, e, |DeviceList(s1.tables.devices, 1)|), Served(x, s1, e);
    PollLeads(x, s1, p, e);
    LeadsJoin(x, START, first, s1, poll, s2);
    OperationDivergesIff(x, START, first + poll, e, op, w);
    var last := StepsOf(x, s2.tables, op, w);
    LeadsJoin(x, START, first + poll, s2, last, Execute(x, s2, last));
  }

  /** A lease that fails after clearing an address, from empty tables. */
  lemma FailedLeaseDiverges(x: Texts, address: nat, mac: nat, other: nat, trip: Trip, at: Instant,
                            p: Process, e: Process, w: Process)
    requires mac != other
    ensures var steps := PolledRun(x, [DhcpLease(LeaseOf(address, mac, None), trip, at)],
                                   DhcpLease(LeaseOf(address, other, Some("x")), trip, at), p, e, w);
            CanRun(x, START, steps) && Diverged(x, Execute(x, START, steps), e)
  {
    FailedLeaseHappens(x, address, mac, other, trip, at);
    QuietRunDiverges(x, [DhcpLease(LeaseOf(address, mac, None), trip, at)],
                     DhcpLease(LeaseOf(address, other, Some("x")), trip, at), p, e, w);
  }

  /** A read that refreshes an expired profile, from empty tables. */
  lemma QuietReadDiverges(x: Texts, address: nat, mac: nat, p: Process, e: Process, w: Process)
    requires x.mud.isUrl(EXAMPLE_URL)
    ensures var steps := PolledRun(x, [ExampleLease(address, mac)], ReadMud(EXAMPLE_URL, ExampleVisit(HOUR, ["a"])), p, e, w);
            CanRun(x, START, steps) && Diverged(x, Execute(x, START, steps), e)
  {
    QuietReadHappens(x, address, mac);
    QuietRunDiverges(x, [ExampleLease(address, mac)], ReadMud(EXAMPLE_URL, ExampleVisit(HOUR, ["a"])), p, e, w);
  }

  /** A refresh job that an expired custom name stops, from empty tables. */
  lemma QuietJobDiverges(x: Texts, address: nat, mac: nat, p: Process, e: Process, w: Process)
    requires x.mud.isUrl(EXAMPLE_URL) && !x.mud.isUrl("x")
    ensures var steps := PolledRun(x, ExampleOps(address, mac), ExampleJob(), p, e, w);
            CanRun(x, START, steps) && Diverged(x, Execute(x, START, steps), e)
  {
    QuietJobHappens(x, address, mac);
    QuietRunDiverges(x, ExampleOps(address, mac), ExampleJob(), p, e, w);
  }

  // ---------------------------------------------------------------- a poll during a creation

  /** The enforcer does not hold the version that the next bump writes; one in step never does. */
  predicate NotAhead(s: State, e: Process) {
    e in s.enforcers ==> s.enforcers[e].version != VersionText(Bump(s.tables.config))
  }

  lemma InStepIsNotAhead(x: Texts, s: State, e: Process)
    requires InSync(x, s, e)
    ensures NotAhead(s, e)
  {
    BumpChangesText(s.tables.config);
  }

  /** The steps of a creation, and a poll between its bump and its second load. */
  function PolledCreation(x: Texts, t: Tables, d: Device, trip: Trip, again: Trip, p: Process, e: Process, w: Process)
    : seq<Step>
  {
    var devices := InsertRow(t.devices, d);
    LoadSteps(x, t.muds, d, trip, Some(w)) + StoreSteps(devices, w)
    + PollSteps(p, e, |DeviceList(devices, 1)|)
    + LoadSteps(x, LoadRefs(x, t.muds, d, trip).muds, d, again, None)
  }

  /** The creation up to its bump, and the poll. */
  lemma CreationServes(x: Texts, s: State, d: Device, trip: Trip, p: Process, e: Process, w: Process) returns (served: State)
    requires Sound(s.tables) && s.dirty == {} && p !in s.polls && NotAhead(s, e) && !LoadFails(x, s.tables.muds, d, trip)
    ensures var devices := InsertRow(s.tables.devices, d);
            && Leads(x, s, LoadSteps(x, s.tables.muds, d, trip, Some(w)) + StoreSteps(devices, w)
                           + PollSteps(p, e, |DeviceList(devices, 1)|), served)
            && served.tables.devices == devices && served.tables.muds == LoadRefs(x, s.tables.muds, d, trip).muds
    ensures Sound(served.tables) && InSync(x, served, e)
  {
    var devices := InsertRow(s.tables.devices, d);
    LoadFailsIff(x, s.tables.muds, d, trip);
    LoadRefsFacts(x, s.tables.muds, d, trip);
    InsertKeepsReferenced(LoadRefs(x, s.tables.muds, d, trip).muds, s.tables.devices, d);
    var s1 := LoadLeads(x, s, d, trip, Some(w));
    var s2 := StoreLeads(x, s1, devices, w);
    assert s2.dirty == {};
    PollLeads(x, s2, p, e);
    served := Served(x, s2, e);
    var load, store := LoadSteps(x, s.tables.muds, d, trip, Some(w)), StoreSteps(devices, w);
    LeadsJoin(x, s, load, s1, store, s2);
    LeadsJoin(x, s, load + store, s2, PollSteps(p, e, |DeviceList(devices, 1)|), served);
  }

  /** What the second load changes for an enforcer in step. */
  lemma SecondLoadDivergesIff(x: Texts, s: State, d: Device, again: Trip, e: Process) returns (end: State)
    requires Sound(s.tables) && InSync(x, s, e)
    ensures Leads(x, s, LoadSteps(x, s.tables.muds, d, again, None), end)
    ensures Diverged(x, end, e) <==>
            && (d.roomId.Some? ==> again.roomFound) && d.mudUrl.Some?
            && Recompiles(x, s.tables.muds, d.mudUrl.value, again.visit) && Enforced(s.tables.devices, d.mudUrl.value)
  {
    end := LoadLeads(x, s, d, again, None);
    if d.mudUrl.Some? {
      ReadChangesIff(x, s.tables, d.mudUrl.value, again.visit);
    }
  }

  /**
   From every reachable state, an enforcer that polls between the bump of a creation and its second
   load ends diverged exactly when the second load stores other rules for the profile the first one
   left, and a device in force, new or old, uses it.
   */
  lemma CreationDivergesIff(x: Texts, init: State, before: seq<Step>, d: Device, trip: Trip, again: Trip,
                            p: Process, e: Process, w: Process)
    requires Init(init) && CanRun(x, init, before)
    requires var s := Execute(x, init, before);
             s.dirty == {} && p !in s.polls && NotAhead(s, e) && !LoadFails(x, s.tables.muds, d, trip)
    ensures var s := Execute(x, init, before);
            var steps := PolledCreation(x, s.tables, d, trip, again, p, e, w);
            var muds := LoadRefs(x, s.tables.muds, d, trip).muds;
            && CanRun(x, s, steps)
            && (Diverged(x, Execute(x, s, steps), e) <==>
                && (d.roomId.Some? ==> again.roomFound) && d.mudUrl.Some?
                && Recompiles(x, muds, d.mudUrl.value, again.visit)
                && Enforced(InsertRow(s.tables.devices, d), d.mudUrl.value))
  {
    var s := Execute(x, init, before);
    RunKeepsSound(x, init, before);
    var served := CreationServes(x, s, d, trip, p, e, w);
    var end := SecondLoadDivergesIff(x, served, d, again, e);
    var devices := InsertRow(s.tables.devices, d);
    var first := LoadSteps(x, s.tables.muds, d, trip, Some(w)) + StoreSteps(devices, w) + PollSteps(p, e, |DeviceList(devices, 1)|);
    LeadsJoin(x, s, first, served, LoadSteps(x, served.tables.muds, d, again, None), end);
  }

  /** A new device that uses the example profile. */
  const EXAMPLE_DTO := DeviceDto(None, None, None, None, None, None, None, Some(EXAMPLE_URL), None, None, None)

  /** The manufacturer cannot be reached, and then can. */
  const UNREACHED := Trip(Visit(HOUR, HOUR, HOUR, FetchFailed), true)
  const REACHED := Trip(ExampleVisit(HOUR, ["a"]), true)

  /** A creation from empty tables whose first load falls back to the stale profile and whose second does not. */
  lemma CreationDiverges(x: Texts, address: nat, mac: nat, at: Instant, p: Process, e: Process, w: Process)
    requires x.mud.isUrl(EXAMPLE_URL)
    ensures ValidDto(EXAMPLE_DTO) && IntoDevice(x, EXAMPLE_DTO, at).Some?
    ensures var t := Run(x, NO_TABLES, [ExampleLease(address, mac)]);
            var steps := RunSteps(x, NO_TABLES, [ExampleLease(address, mac)], w)
                         + PolledCreation(x, t, IntoDevice(x, EXAMPLE_DTO, at).value, UNREACHED, REACHED, p, e, w);
            CanRun(x, START, steps) && Diverged(x, Execute(x, START, steps), e)
  {
    var ops, d := [ExampleLease(address, mac)], IntoDevice(x, EXAMPLE_DTO, at).value;
    var s := RunIsPath(x, START, ops, w);
    ExampleCreation(x, address, mac, d);
    CreationDivergesIff(x, START, RunSteps(x, NO_TABLES, ops, w), d, UNREACHED, REACHED, p, e, w);
    var steps := PolledCreation(x, s.tables, d, UNREACHED, REACHED, p, e, w);
    LeadsJoin(x, START, RunSteps(x, NO_TABLES, ops, w), s, steps, Execute(x, s, steps));
  }

  lemma ExampleCreation(x: Texts, address: nat, mac: nat, d: Device)
    requires x.mud.isUrl(EXAMPLE_URL) && d.mudUrl == Some(EXAMPLE_URL) && d.roomId.None?
    ensures var t := Run(x, NO_TABLES, [ExampleLease(address, mac)]);
            && !LoadFails(x, t.muds, d, UNREACHED)
            && Recompiles(x, LoadRefs(x, t.muds, d, UNREACHED).muds, EXAMPLE_URL, REACHED.visit)
            && Enforced(InsertRow(t.devices, d), EXAMPLE_URL)
  {
    var t := Run(x, NO_TABLES, [ExampleLease(address, mac)]);
    AfterExampleLease(x, address, mac);
    ExampleRecompiles(x, t.muds, HOUR);
    StaleLoad(x, t.muds, d);
    assert HasAddress(InsertRow(t.devices, d).rows[1]);
  }

  /** Out of reach, a stored profile is served as it is. */
  lemma StaleLoad(x: Texts, muds: MudTable, d: Device)
    requires x.mud.isUrl(EXAMPLE_URL) && d.mudUrl == Some(EXAMPLE_URL) && d.roomId.None? && EXAMPLE_URL in muds
    ensures !LoadFails(x, muds, d, UNREACHED) && LoadRefs(x, muds, d, UNREACHED).muds == muds
  {
  }

  // ---------------------------------------------------------------- the version row

  /** A device is deleted, and the version row is set back to what it was. */
  ghost function ResetSteps(x: Texts, t: Tables, id: int, w: Process): seq<Step> {
    StepsOf(x, t, DeleteDevice(id), w) + [WriteConfig(VERSION_KEY, VersionText(t.config))]
  }

  /** Setting the version row back hides a deletion from an enforcer in step exactly when it mattered. */
  lemma ResetDivergesIff(x: Texts, init: State, before: seq<Step>, e: Process, id: int, w: Process)
    requires Init(init) && CanRun(x, init, before) && InSync(x, Execute(x, init, before), e)
    ensures var s := Execute(x, init, before);
            var steps := ResetSteps(x, s.tables, id, w);
            && CanRun(x, s, steps)
            && (Diverged(x, Execute(x, s, steps), e) <==>
                id in s.tables.devices.rows && HasAddress(s.tables.devices.rows[id]))
  {
    var s := Execute(x, init, before);
    var first, reset := StepsOf(x, s.tables, DeleteDevice(id), w), WriteConfig(VERSION_KEY, VersionText(s.tables.config));
    RunKeepsSound(x, init, before);
    OperationIsPath(x, s, DeleteDevice(id), w);
    var s1 := Execute(x, s, first);
    LeadsOne(x, s1, reset);
    var s2 := After(x, s1, reset);
    LeadsJoin(x, s, first, s1, [reset], s2);
    DeletionChangesIff(x, s.tables, id);
    ConfigIsNotShown(x, s1.tables, s2.tables.config);
    ConfigIsNotShown(x, s.tables.(devices := DeleteRow(s.tables.devices, id)), s1.tables.config);
  }

  /** A first poll, a first lease, and the version row deleted. */
  ghost function EraseSteps(x: Texts, address: nat, mac: nat, trip: Trip, at: Instant, p: Process, e: Process, w: Process)
    : seq<Step>
  {
    PollSteps(p, e, 0) + StepsOf(x, NO_TABLES, DhcpLease(LeaseOf(address, mac, None), trip, at), w) + [EraseConfig(VERSION_KEY)]
  }

  lemma OneDeviceIsShown(x: Texts, t: Tables, address: nat, mac: nat, at: Instant)
    requires t.devices == OneDevice(address, mac, None, at)
    ensures Snapshot(x, t) != []
  {
    SnapshotEntries(x, t, 1);
    assert Entries(x, t, 1) == Entry(x, t, 1) + Entries(x, t, 2);
  }

  /** Deleting the version row makes it read "0" again, as before the first device. */
  lemma EraseDiverges(x: Texts, address: nat, mac: nat, trip: Trip, at: Instant, p: Process, e: Process, w: Process)
    ensures var steps := EraseSteps(x, address, mac, trip, at, p, e, w);
            CanRun(x, START, steps) && Diverged(x, Execute(x, START, steps), e)
  {
    var op := DhcpLease(LeaseOf(address, mac, None), trip, at);
    var poll, lease, erase := PollSteps(p, e, 0), StepsOf(x, NO_TABLES, op, w), EraseConfig(VERSION_KEY);
    PollLeads(x, START, p, e);
    var s1 := Served(x, START, e);
    OperationIsPath(x, s1, op, w);
    var s2 := Execute(x, s1, lease);
    LeadsOne(x, s2, erase);
    LeadsJoin(x, START, poll, s1, lease, s2);
    LeadsJoin(x, START, poll + lease, s2, [erase], After(x, s2, erase));
    FirstLease(x, address, mac, None, trip, at);
    OneDeviceIsShown(x, After(x, s2, erase).tables, address, mac, at);
  }

  // ---------------------------------------------------------------- bumps in two halves

  /** A writer deletes a device and reads the version for its bump. */
  function DeleteAndRead(devices: Table, id: int, w: Process): seq<Step> {
    [WriteDevices(w, DeleteRow(devices, id)), BumpRead(w)]
  }

  lemma DeleteAndReadLeads(x: Texts, s: State, id: int, w: Process) returns (end: State)
    requires Sound(s.tables)
    ensures Leads(x, s, DeleteAndRead(s.tables.devices, id, w), end) && Sound(end.tables)
    ensures end == s.(tables := s.tables.(devices := DeleteRow(s.tables.devices, id)), dirty := s.dirty + {w},
                      halfBumps := s.halfBumps[w := s.tables.config])
  {
    var write := WriteDevices(w, DeleteRow(s.tables.devices, id));
    LeadsOne(x, s, write);
    LeadsOne(x, After(x, s, write), BumpRead(w));
    end := After(x, After(x, s, write), BumpRead(w));
    LeadsJoin(x, s, [write], After(x, s, write), [BumpRead(w)], end);
    assert [write] + [BumpRead(w)] == DeleteAndRead(s.tables.devices, id, w);
  }

  /** Two deletions overlap: both read the version, and the second writes its bump. */
  function OverlapSteps(devices: Table, id1: int, id2: int, w1: Process, w2: Process): seq<Step> {
    DeleteAndRead(devices, id1, w1) + (DeleteAndRead(DeleteRow(devices, id1), id2, w2) + [BumpWrite(w2)])
  }

  lemma OverlapLeads(x: Texts, s: State, id1: int, id2: int, w1: Process, w2: Process) returns (end: State)
    requires Sound(s.tables) && s.dirty == {} && w1 != w2
    ensures Leads(x, s, OverlapSteps(s.tables.devices, id1, id2, w1, w2), end) && Sound(end.tables)
    ensures end.tables.muds == s.tables.muds
    ensures end.tables.devices == DeleteRow(DeleteRow(s.tables.devices, id1), id2)
    ensures VersionText(end.tables.config) == VersionText(Bump(s.tables.config))
    ensures end.dirty == {w1} && w1 in end.halfBumps && end.halfBumps[w1] == s.tables.config
    ensures end.polls == s.polls && end.enforcers == s.enforcers
  {
    var s1 := DeleteAndReadLeads(x, s, id1, w1);
    var s2 := DeleteAndReadLeads(x, s1, id2, w2);
    LeadsOne(x, s2, BumpWrite(w2));
    end := After(x, s2, BumpWrite(w2));
    var second := DeleteAndRead(s1.tables.devices, id2, w2);
    LeadsJoin(x, s1, second, s2, [BumpWrite(w2)], end);
    LeadsJoin(x, s, DeleteAndRead(s.tables.devices, id1, w1), s1, second + [BumpWrite(w2)], end);
    assert {w1} + {w2} - {w2} == {w1};
  }

  /** A third deletion bumps, and then the first one's bump is written at last. */
  function BackwardsSteps(devices: Table, id3: int, w1: Process, w3: Process): seq<Step> {
    DeleteAndRead(devices, id3, w3) + ([BumpWrite(w3)] + [BumpWrite(w1)])
  }

  lemma BackwardsLeads(x: Texts, s: State, id3: int, w1: Process, w3: Process) returns (end: State)
    requires Sound(s.tables) && s.dirty == {w1} && w1 in s.halfBumps && w1 != w3
    ensures Leads(x, s, BackwardsSteps(s.tables.devices, id3, w1, w3), end)
    ensures end.tables.muds == s.tables.muds && end.tables.devices == DeleteRow(s.tables.devices, id3)
    ensures VersionText(end.tables.config) == VersionText(Bump(s.halfBumps[w1]))
    ensures end.dirty == {} && end.enforcers == s.enforcers
  {
    var s1 := DeleteAndReadLeads(x, s, id3, w3);
    LeadsOne(x, s1, BumpWrite(w3));
    var s2 := After(x, s1, BumpWrite(w3));
    LeadsOne(x, s2, BumpWrite(w1));
    end := After(x, s2, BumpWrite(w1));
    LeadsJoin(x, s1, [BumpWrite(w3)], s2, [BumpWrite(w1)], end);
    LeadsJoin(x, s, DeleteAndRead(s.tables.devices, id3, w3), s1, [BumpWrite(w3)] + [BumpWrite(w1)], end);
  }

  /** Three overlapping deletions with their bumps in two halves, and a poll in between. */
  function SplitSteps(devices: Table, ids: (int, int, int), ws: (Process, Process, Process), p: Process, e: Process): seq<Step> {
    var left := DeleteRow(DeleteRow(devices, ids.0), ids.1);
    OverlapSteps(devices, ids.0, ids.1, ws.0, ws.1)
    + PollSteps(p, e, |DeviceList(left, 1)|)
    + BackwardsSteps(left, ids.2, ws.0, ws.2)
  }

  lemma SplitLeads(x: Texts, s: State, ids: (int, int, int), ws: (Process, Process, Process), p: Process, e: Process)
    returns (middle: State, end: State)
    requires Sound(s.tables) && s.dirty == {} && ws.0 != ws.1 && ws.0 != ws.2 && p !in s.polls && NotAhead(s, e)
    ensures Leads(x, s, SplitSteps(s.tables.devices, ids, ws, p, e), end)
    ensures Sound(middle.tables) && middle.tables.devices == DeleteRow(DeleteRow(s.tables.devices, ids.0), ids.1)
    ensures end.tables == middle.tables.(devices := DeleteRow(middle.tables.devices, ids.2), config := end.tables.config)
    ensures end.dirty == {} && e in end.enforcers && end.enforcers[e].version == VersionText(end.tables.config)
    ensures end.enforcers[e].devices == Snapshot(x, middle.tables)
  {
    middle := OverlapLeads(x, s, ids.0, ids.1, ws.0, ws.1);
    PollLeads(x, middle, p, e);
    var served := Served(x, middle, e);
    end := BackwardsLeads(x, served, ids.2, ws.0, ws.2);
    var overlap := OverlapSteps(s.tables.devices, ids.0, ids.1, ws.0, ws.1);
    var poll := PollSteps(p, e, |DeviceList(middle.tables.devices, 1)|);
    LeadsJoin(x, s, overlap, middle, poll, served);
    LeadsJoin(x, s, overlap + poll, served, BackwardsSteps(middle.tables.devices, ids.2, ws.0, ws.2), end);
  }

  /**
   With bumps in two halves, three overlapping deletions take the version back: the first two read
   the same version, the second one's bump is served to the enforcer, the third bumps on top, and the
   first then writes its bump. The enforcer ends diverged exactly when the third device was still
   there and had an address.
   */
  lemma SplitBumpDivergesIff(x: Texts, init: State, before: seq<Step>, ids: (int, int, int), ws: (Process, Process, Process),
                             p: Process, e: Process)
    requires Init(init) && CanRun(x, init, before) && ws.0 != ws.1 && ws.0 != ws.2
    requires var s := Execute(x, init, before); s.dirty == {} && p !in s.polls && NotAhead(s, e)
    ensures var s := Execute(x, init, before);
            var steps := SplitSteps(s.tables.devices, ids, ws, p, e);
            && CanRun(x, s, steps)
            && (Diverged(x, Execute(x, s, steps), e) <==>
                && ids.2 in s.tables.devices.rows && ids.2 != ids.0 && ids.2 != ids.1
                && HasAddress(s.tables.devices.rows[ids.2]))
  {
    var s := Execute(x, init, before);
    RunKeepsSound(x, init, before);
    var middle, end := SplitLeads(x, s, ids, ws, p, e);
    DeletionChangesIff(x, middle.tables, ids.2);
    ConfigIsNotShown(x, middle.tables.(devices := DeleteRow(middle.tables.devices, ids.2)), end.tables.config);
  }
}
