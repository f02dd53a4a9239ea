/**
 The configuration distribution protocol. Writers change the tables and then bump the version;
 enforcers poll, and a poll reads the version first and the devices and profiles afterwards, one
 by one. Steps of all of them interleave freely.
 */
module Distribution {
  import opened Prelude
  import opened Models
  import opened MudCache
  import opened DeviceTable
  import opened ConfigVersion
  import opened Decimal
  import opened Controller
  import opened Polling
  import Firewall

  type Process = nat

  /** A poll after its version read: still to list the devices, or loading them one by one. */
  datatype Poll =
    | VersionRead(enforcer: Process, version: string)
    | Loading(enforcer: Process, version: string, list: seq<Device>, loaded: seq<DeviceWithRefs>)

  /**
   `bumps` counts the version bumps so far, `dirty` are the writers between a write and their bump,
   and `halfBumps` the bumps that have read the old version but not yet written the new one.
   */
  datatype State = State(
    tables: Tables,
    bumps: nat,
    dirty: set<Process>,
    halfBumps: map<Process, Config>,
    polls: map<Process, Poll>,
    enforcers: map<Process, Firewall.EnforcerConfig>)

  datatype Step =
    | WriteDevices(w: Process, devices: Table)
    | WriteMud(w: Process, url: string, row: Row)
    | BumpVersion(w: Process)
    | AddMud(url: string, row: Row)
    | DropMud(url: string)
    | WriteConfig(key: string, value: string)
    | EraseConfig(key: string)
    | StartPoll(p: Process, enforcer: Process)
    | ListDevices(p: Process)
    | LoadDevice(p: Process)
    | Reply(p: Process)
    // What the convergence theorem rules out, besides writing the version row:
    | Abandon(w: Process)
    | RefreshOnRead(url: string, row: Row)
    | BumpRead(w: Process)
    | BumpWrite(w: Process)

  /** A poll's next device has no profile, or its profile is stored; an expired one is refreshed by a step of its own. */
  predicate CanLoad(muds: MudTable, d: Device) {
    d.mudUrl.Some? ==> d.mudUrl.value in muds
  }

  ghost predicate Enabled(s: State, step: Step) {
    match step
    case WriteDevices(_, devices) => Valid(devices) && Referenced(s.tables.muds, devices)
    case WriteMud(_, url, _) => url in s.tables.muds
    case AddMud(url, _) => url !in s.tables.muds
    case DropMud(url) => !MudUsed(s.tables.devices, url)
    case StartPoll(p, _) => p !in s.polls
    case ListDevices(p) => p in s.polls && s.polls[p].VersionRead?
    case LoadDevice(p) =>
      && p in s.polls && s.polls[p].Loading? && |s.polls[p].loaded| < |s.polls[p].list|
      && CanLoad(s.tables.muds, s.polls[p].list[|s.polls[p].loaded|])
    case Reply(p) => p in s.polls && s.polls[p].Loading? && |s.polls[p].loaded| == |s.polls[p].list|
    case RefreshOnRead(url, _) => url in s.tables.muds
    case BumpWrite(w) => w in s.halfBumps
    case _ => true
  }

  /** The enforcer holds the current version text. */
  predicate UpToDate(s: State, e: Process) {
    e in s.enforcers && s.enforcers[e].version == VersionText(s.tables.config)
  }

  function WithMud(t: Tables, url: string, row: Row): Tables {
    t.(muds := t.muds[url := row])
  }

  ghost function After(x: Texts, s: State, step: Step): State
    requires Enabled(s, step)
  {
    match step
    case WriteDevices(w, devices) => s.(tables := s.tables.(devices := devices), dirty := s.dirty + {w})
    case WriteMud(w, url, row) => s.(tables := WithMud(s.tables, url, row), dirty := s.dirty + {w})
    case BumpVersion(w) =>
      s.(tables := s.tables.(config := Bump(s.tables.config)), bumps := s.bumps + 1, dirty := s.dirty - {w})
    case AddMud(url, row) => s.(tables := WithMud(s.tables, url, row))
    case DropMud(url) => s.(tables := s.tables.(muds := s.tables.muds - {url}))
    case WriteConfig(key, value) => s.(tables := s.tables.(config := s.tables.config[key := value]))
    case EraseConfig(key) => s.(tables := s.tables.(config := s.tables.config - {key}))
    case StartPoll(p, e) =>
      if UpToDate(s, e) then s else s.(polls := s.polls[p := VersionRead(e, VersionText(s.tables.config))])
    case ListDevices(p) =>
      s.(polls := s.polls[p := Loading(s.polls[p].enforcer, s.polls[p].version, DeviceList(s.tables.devices, 1), [])])
    case LoadDevice(p) =>
      var poll := s.polls[p];
      s.(polls := s.polls[p := poll.(loaded := poll.loaded + [WithRefs(s.tables.muds, poll.list[|poll.loaded|])])])
    case Reply(p) =>
      var poll := s.polls[p];
      var config := Firewall.EnforcerConfig(poll.version, Firewall.Configurations(x.ipText, poll.loaded), x.domain);
      s.(polls := s.polls - {p}, enforcers := s.enforcers[poll.enforcer := config])
    case Abandon(w) => s.(dirty := s.dirty - {w})
    case RefreshOnRead(url, row) => s.(tables := WithMud(s.tables, url, row))
    case BumpRead(w) => s.(halfBumps := s.halfBumps[w := s.tables.config])
    case BumpWrite(w) =>
      s.(tables := s.tables.(config := s.tables.config[VERSION_KEY := VersionText(Bump(s.halfBumps[w]))]),
         bumps := s.bumps + 1, dirty := s.dirty - {w}, halfBumps := s.halfBumps - {w})
  }

  /**
   No writer gives up between write and bump, no read refreshes a stored profile, bumps are atomic,
   and nobody sets or deletes the version row through the configuration routes.
   */
  predicate Disciplined(step: Step) {
    && !step.Abandon? && !step.RefreshOnRead? && !step.BumpRead? && !step.BumpWrite?
    && (step.WriteConfig? || step.EraseConfig? ==> step.key != VERSION_KEY)
  }

  predicate AllDisciplined(steps: seq<Step>) {
    forall i :: 0 <= i < |steps| ==> Disciplined(steps[i])
  }

  /** Empty tables, but for any configuration. */
  ghost predicate Init(s: State) {
    s.tables.muds == map[] && s.tables.devices == EMPTY && s.bumps == 0 && s.dirty == {} && s.halfBumps == map[]
    && s.polls == map[] && s.enforcers == map[]
  }

  // ---------------------------------------------------------------- runs

  ghost predicate CanRun(x: Texts, s: State, steps: seq<Step>)
    decreases |steps|
  {
    steps == [] || (Enabled(s, steps[0]) && CanRun(x, After(x, s, steps[0]), steps[1..]))
  }

  ghost function Execute(x: Texts, s: State, steps: seq<Step>): State
    requires CanRun(x, s, steps)
    decreases |steps|
  {
    if steps == [] then s else Execute(x, After(x, s, steps[0]), steps[1..])
  }

  /** The steps can be taken from one state and end in the other. */
  ghost predicate Leads(x: Texts, s: State, steps: seq<Step>, end: State) {
    CanRun(x, s, steps) && Execute(x, s, steps) == end
  }

  lemma LeadsOne(x: Texts, s: State, step: Step)
    requires Enabled(s, step)
    ensures Leads(x, s, [step], After(x, s, step))
  {
    assert [step][1..] == [];
  }

  lemma {:induction false} LeadsJoin(x: Texts, s: State, a: seq<Step>, middle: State, b: seq<Step>, end: State)
    requires Leads(x, s, a, middle) && Leads(x, middle, b, end)
    ensures Leads(x, s, a + b, end)
    decreases |a|
  {
    if a == [] {
      assert a + b == b;
    } else {
      LeadsJoin(x, After(x, s, a[0]), a[1..], middle, b, end);
      assert (a + b)[0] == a[0] && (a + b)[1..] == a[1..] + b;
    }
  }

  /** Every step, disciplined or not, keeps rows under their ids and profiles in place. */
  lemma StepKeepsSound(x: Texts, s: State, step: Step)
    requires Sound(s.tables) && Enabled(s, step)
    ensures Sound(After(x, s, step).tables) && s.bumps <= After(x, s, step).bumps
  {
  }

  lemma {:induction false} RunKeepsSound(x: Texts, s: State, steps: seq<Step>)
    requires Sound(s.tables) && CanRun(x, s, steps)
    ensures Sound(Execute(x, s, steps).tables) && s.bumps <= Execute(x, s, steps).bumps
    decreases |steps|
  {
    if steps != [] {
      StepKeepsSound(x, s, steps[0]);
      RunKeepsSound(x, After(x, s, steps[0]), steps[1..]);
    }
  }

  // ---------------------------------------------------------------- the invariant

  /** The version text is one that was current at some time. */
  ghost predicate WasCurrent(start: Config, s: State, version: string) {
    exists k: nat :: k <= s.bumps && version == VersionText(Bumps(start, k))
  }

  /** Nothing has been written since the version was read, and no writer is half way. */
  predicate Settled(s: State, version: string) {
    version == VersionText(s.tables.config) && s.dirty == {}
  }

  /** What a poll has gathered so far is what the tables hold now. */
  ghost predicate Accurate(s: State, poll: Poll) {
    poll.Loading? ==> poll.list == DeviceList(s.tables.devices, 1) && LoadedFrom(s.tables.muds, poll.list, poll.loaded)
  }

  ghost predicate LoadedFrom(muds: MudTable, list: seq<Device>, loaded: seq<DeviceWithRefs>) {
    forall i :: 0 <= i < |loaded| && i < |list| ==> loaded[i] == WithRefs(muds, list[i])
  }

  ghost predicate PollOk(start: Config, s: State, poll: Poll) {
    && WasCurrent(start, s, poll.version)
    && (poll.Loading? ==> |poll.loaded| <= |poll.list|)
    && (Settled(s, poll.version) ==> Accurate(s, poll))
  }

  ghost predicate EnforcerOk(x: Texts, start: Config, s: State, c: Firewall.EnforcerConfig) {
    && WasCurrent(start, s, c.version)
    && (Settled(s, c.version) ==> c.devices == Snapshot(x, s.tables))
  }

  /** The version row is the one that so many bumps give; other configuration rows are free. */
  ghost predicate VersionOk(start: Config, s: State) {
    VersionRow(s.tables.config) == VersionRow(Bumps(start, s.bumps))
  }

  ghost predicate Inv(x: Texts, start: Config, s: State) {
    && VersionOk(start, s) && Sound(s.tables)
    && (forall p :: p in s.polls ==> PollOk(start, s, s.polls[p]))
    && (forall e :: e in s.enforcers ==> EnforcerOk(x, start, s, s.enforcers[e]))
  }

  // ---------------------------------------------------------------- steps

  lemma StillWasCurrent(start: Config, s: State, s': State, version: string)
    requires WasCurrent(start, s, version) && s.bumps <= s'.bumps
    ensures WasCurrent(start, s', version)
  {
    var k: nat :| k <= s.bumps && version == VersionText(Bumps(start, k));
  }

  /** A fresh bump makes every version seen so far out of date. */
  lemma BumpUnsettles(start: Config, s: State, s': State, version: string)
    requires WasCurrent(start, s, version) && VersionOk(start, s') && s'.bumps == s.bumps + 1 < U64_LIMIT
    ensures !Settled(s', version)
  {
    var k: nat :| k <= s.bumps && version == VersionText(Bumps(start, k));
    VersionTextsDistinct(start, k, s'.bumps);
    VersionIsItsRow(s'.tables.config, Bumps(start, s'.bumps));
  }

  /** When every version seen so far is out of date or in doubt, nothing is claimed of polls and enforcers. */
  lemma UnsettledKeepsInv(x: Texts, start: Config, s: State, s': State)
    requires Inv(x, start, s) && s'.polls == s.polls && s'.enforcers == s.enforcers && s.bumps <= s'.bumps
    requires VersionOk(start, s') && Sound(s'.tables)
    requires forall version :: WasCurrent(start, s, version) ==> !Settled(s', version)
    ensures Inv(x, start, s')
  {
    forall p | p in s'.polls ensures PollOk(start, s', s'.polls[p]) {
      StillWasCurrent(start, s, s', s.polls[p].version);
    }
    forall e | e in s'.enforcers ensures EnforcerOk(x, start, s', s'.enforcers[e]) {
      StillWasCurrent(start, s, s', s.enforcers[e].version);
    }
  }

  lemma WriteStep(x: Texts, start: Config, s: State, step: Step)
    requires Inv(x, start, s) && Enabled(s, step) && (step.WriteDevices? || step.WriteMud?)
    ensures Inv(x, start, After(x, s, step))
  {
    assert step.w in After(x, s, step).dirty;
    StepKeepsSound(x, s, step);
    UnsettledKeepsInv(x, start, s, After(x, s, step));
  }

  lemma VersionAfterBump(start: Config, s: State, s': State)
    requires VersionOk(start, s) && s'.tables.config == Bump(s.tables.config) && s'.bumps == s.bumps + 1
    ensures VersionOk(start, s')
  {
    VersionIsItsRow(s.tables.config, Bumps(start, s.bumps));
    assert Bumps(start, s'.bumps) == Bump(Bumps(start, s.bumps));
  }

  lemma BumpStep(x: Texts, start: Config, s: State, step: Step)
    requires Inv(x, start, s) && step.BumpVersion? && s.bumps + 1 < U64_LIMIT
    ensures Inv(x, start, After(x, s, step))
  {
    var s' := After(x, s, step);
    VersionAfterBump(start, s, s');
    forall version | WasCurrent(start, s, version) ensures !Settled(s', version) {
      BumpUnsettles(start, s, s', version);
    }
    UnsettledKeepsInv(x, start, s, s');
  }

  /** Profiles that no device uses come and go without anybody noticing. */
  lemma UnusedMudStep(x: Texts, start: Config, s: State, s': State)
    requires Inv(x, start, s) && s' == s.(tables := s.tables.(muds := s'.tables.muds)) && Sound(s'.tables)
    requires SameProfiles(s.tables.muds, s'.tables.muds, s.tables.devices)
    ensures Inv(x, start, s')
  {
    SnapshotFrame(s.tables.muds, s'.tables.muds, s.tables.devices, 1);
    forall p | p in s'.polls ensures PollOk(start, s', s'.polls[p]) {
      StillWasCurrent(start, s, s', s.polls[p].version);
      if Settled(s, s.polls[p].version) {
        StillAccurate(s, s', s.polls[p]);
      }
    }
    forall e | e in s'.enforcers ensures EnforcerOk(x, start, s', s'.enforcers[e]) {
      StillWasCurrent(start, s, s', s.enforcers[e].version);
    }
  }

  lemma StillAccurate(s: State, s': State, poll: Poll)
    requires Accurate(s, poll) && s'.tables.devices == s.tables.devices
    requires SameProfiles(s.tables.muds, s'.tables.muds, s.tables.devices)
    ensures Accurate(s', poll)
  {
    if poll.Loading? {
      forall i | 0 <= i < |poll.loaded| && i < |poll.list|
        ensures WithRefs(s.tables.muds, poll.list[i]) == WithRefs(s'.tables.muds, poll.list[i])
      {
        assert poll.list[i] in DeviceList(s.tables.devices, 1);
      }
    }
  }

  /** A complete accurate poll has gathered exactly the snapshot. */
  lemma CompletePoll(x: Texts, s: State, poll: Poll)
    requires poll.Loading? && Accurate(s, poll) && |poll.loaded| == |poll.list|
    ensures Firewall.Configurations(x.ipText, poll.loaded) == Snapshot(x, s.tables)
  {
    InOrderIsList(s.tables.muds, s.tables.devices, 1);
    assert poll.loaded == InOrder(s.tables.muds, s.tables.devices, 1);
  }

  /** Polls and enforcers cannot tell the states apart. */
  predicate SameView(s: State, s': State) {
    && s'.tables.devices == s.tables.devices && s'.tables.muds == s.tables.muds
    && VersionRow(s'.tables.config) == VersionRow(s.tables.config)
    && s'.bumps == s.bumps && s'.dirty == s.dirty
  }

  lemma SamePoll(start: Config, s: State, s': State, poll: Poll)
    requires SameView(s, s') && PollOk(start, s, poll)
    ensures PollOk(start, s', poll)
  {
    StillWasCurrent(start, s, s', poll.version);
    VersionIsItsRow(s.tables.config, s'.tables.config);
  }

  lemma SameEnforcer(x: Texts, start: Config, s: State, s': State, c: Firewall.EnforcerConfig)
    requires SameView(s, s') && EnforcerOk(x, start, s, c)
    ensures EnforcerOk(x, start, s', c)
  {
    StillWasCurrent(start, s, s', c.version);
    VersionIsItsRow(s.tables.config, s'.tables.config);
  }

  /** Every poll and every enforcer is as it was, or in order. */
  lemma SameViewKeepsInv(x: Texts, start: Config, s: State, s': State)
    requires Inv(x, start, s) && SameView(s, s')
    requires forall q :: q in s'.polls && !(q in s.polls && s'.polls[q] == s.polls[q]) ==> PollOk(start, s, s'.polls[q])
    requires forall e :: e in s'.enforcers && !(e in s.enforcers && s'.enforcers[e] == s.enforcers[e]) ==>
               EnforcerOk(x, start, s, s'.enforcers[e])
    ensures Inv(x, start, s')
  {
    forall q | q in s'.polls ensures PollOk(start, s', s'.polls[q]) {
      SamePoll(start, s, s', s'.polls[q]);
    }
    forall e | e in s'.enforcers ensures EnforcerOk(x, start, s', s'.enforcers[e]) {
      SameEnforcer(x, start, s, s', s'.enforcers[e]);
    }
  }

  lemma LoadKeepsPoll(start: Config, s: State, poll: Poll)
    requires PollOk(start, s, poll) && poll.Loading? && |poll.loaded| < |poll.list|
    ensures PollOk(start, s, poll.(loaded := poll.loaded + [WithRefs(s.tables.muds, poll.list[|poll.loaded|])]))
  {
  }

  lemma CurrentWasCurrent(start: Config, s: State)
    requires VersionOk(start, s)
    ensures WasCurrent(start, s, VersionText(s.tables.config))
  {
    VersionIsItsRow(s.tables.config, Bumps(start, s.bumps));
  }

  lemma PollStepKeepsInv(x: Texts, start: Config, s: State, step: Step)
    requires Inv(x, start, s) && Enabled(s, step) && (step.StartPoll? || step.ListDevices? || step.LoadDevice?)
    ensures Inv(x, start, After(x, s, step))
  {
    CurrentWasCurrent(start, s);
    if step.LoadDevice? {
      LoadKeepsPoll(start, s, s.polls[step.p]);
    }
    SameViewKeepsInv(x, start, s, After(x, s, step));
  }

  lemma ReplyStep(x: Texts, start: Config, s: State, step: Step)
    requires Inv(x, start, s) && Enabled(s, step) && step.Reply?
    ensures Inv(x, start, After(x, s, step))
  {
    var poll := s.polls[step.p];
    assert PollOk(start, s, poll);
    if Settled(s, poll.version) {
      CompletePoll(x, s, poll);
    }
    SameViewKeepsInv(x, start, s, After(x, s, step));
  }

  /** Every disciplined step keeps the invariant. */
  lemma StepKeepsInv(x: Texts, start: Config, s: State, step: Step)
    requires Inv(x, start, s) && Enabled(s, step) && Disciplined(step) && After(x, s, step).bumps < U64_LIMIT
    ensures Inv(x, start, After(x, s, step))
  {
    match step
    case WriteDevices(_, _) => WriteStep(x, start, s, step);
    case WriteMud(_, _, _) => WriteStep(x, start, s, step);
    case BumpVersion(_) => BumpStep(x, start, s, step);
    case AddMud(_, _) =>
      StepKeepsSound(x, s, step);
      UnusedMudStep(x, start, s, After(x, s, step));
    case DropMud(_) =>
      StepKeepsSound(x, s, step);
      UnusedMudStep(x, start, s, After(x, s, step));
    case WriteConfig(_, _) => SameViewKeepsInv(x, start, s, After(x, s, step));
    case EraseConfig(_) => SameViewKeepsInv(x, start, s, After(x, s, step));
    case StartPoll(_, _) => PollStepKeepsInv(x, start, s, step);
    case ListDevices(_) => PollStepKeepsInv(x, start, s, step);
    case LoadDevice(_) => PollStepKeepsInv(x, start, s, step);
    case Reply(_) => ReplyStep(x, start, s, step);
  }

  // ---------------------------------------------------------------- convergence

  /** A disciplined run of fewer than 2^64 bumps. */
  ghost predicate DisciplinedRun(x: Texts, s: State, steps: seq<Step>) {
    CanRun(x, s, steps) && AllDisciplined(steps) && Execute(x, s, steps).bumps < U64_LIMIT
  }

  lemma {:induction false} RunKeepsInv(x: Texts, start: Config, s: State, steps: seq<Step>)
    requires Inv(x, start, s) && DisciplinedRun(x, s, steps)
    ensures Inv(x, start, Execute(x, s, steps))
    decreases |steps|
  {
    if steps != [] {
      var s' := After(x, s, steps[0]);
      StepKeepsSound(x, s, steps[0]);
      RunKeepsSound(x, s', steps[1..]);
      StepKeepsInv(x, start, s, steps[0]);
      RunKeepsInv(x, start, s', steps[1..]);
    }
  }

  /** The enforcer believes itself up to date, no writer is half way, and yet it runs something else. */
  ghost predicate Diverged(x: Texts, s: State, e: Process) {
    s.dirty == {} && UpToDate(s, e) && s.enforcers[e].devices != Snapshot(x, s.tables)
  }

  ghost predicate InSync(x: Texts, s: State, e: Process) {
    s.dirty == {} && UpToDate(s, e) && s.enforcers[e].devices == Snapshot(x, s.tables)
  }

  /**
   Convergence: in every disciplined interleaving with fewer than 2^64 bumps, whenever no writer is
   between its write and its bump, an enforcer holding the current version holds exactly the
   configuration compiled from the current tables.
   */
  lemma Convergence(x: Texts, s: State, steps: seq<Step>, e: Process)
    requires Init(s) && DisciplinedRun(x, s, steps)
    requires Execute(x, s, steps).dirty == {} && UpToDate(Execute(x, s, steps), e)
    ensures InSync(x, Execute(x, s, steps), e)
  {
    RunKeepsInv(x, s.tables.config, s, steps);
  }

  // ---------------------------------------------------------------- progress

  predicate IsPollStep(step: Step) {
    step.StartPoll? || step.ListDevices? || step.LoadDevice? || step.Reply?
  }

  /** Polls of all enforcers go on, none of them the reply of poll `p`. */
  predicate OnlyPolls(steps: seq<Step>, p: Process) {
    forall i :: 0 <= i < |steps| ==> IsPollStep(steps[i]) && steps[i] != Reply(p)
  }

  /** While only polls go on, tables and writers rest, and a poll keeps its version and its enforcer. */
  lemma {:induction false} PollsRest(x: Texts, s: State, steps: seq<Step>, p: Process)
    requires CanRun(x, s, steps) && OnlyPolls(steps, p) && p in s.polls
    ensures var end := Execute(x, s, steps);
            && end.tables == s.tables && end.dirty == s.dirty && end.bumps == s.bumps
            && p in end.polls && end.polls[p].version == s.polls[p].version
            && end.polls[p].enforcer == s.polls[p].enforcer
    decreases |steps|
  {
    if steps != [] {
      PollsRest(x, After(x, s, steps[0]), steps[1..], p);
    }
  }

  /**
   Progress, first half: after any disciplined run, a poll that starts when no writer is half way, and
   is answered before the next one writes, brings its enforcer in step, whatever other polls do.
   */
  lemma AnsweredPollCatchesUp(x: Texts, init: State, before: seq<Step>, p: Process, e: Process, during: seq<Step>, end: State)
    requires Init(init) && DisciplinedRun(x, init, before)
    requires var s := Execute(x, init, before);
             && s.dirty == {} && p !in s.polls && !UpToDate(s, e)
             && OnlyPolls(during, p) && Leads(x, After(x, s, StartPoll(p, e)), during, end) && Enabled(end, Reply(p))
    ensures InSync(x, After(x, end, Reply(p)), e)
  {
    var start, s := init.tables.config, Execute(x, init, before);
    var s1 := After(x, s, StartPoll(p, e));
    RunKeepsInv(x, start, init, before);
    StepKeepsInv(x, start, s, StartPoll(p, e));
    PollsRest(x, s1, during, p);
    PollsDisciplined(x, s1, during, p);
    RunKeepsInv(x, start, s1, during);
    StepKeepsInv(x, start, end, Reply(p));
    assert EnforcerOk(x, start, After(x, end, Reply(p)), After(x, end, Reply(p)).enforcers[e]);
  }

  lemma PollsDisciplined(x: Texts, s: State, steps: seq<Step>, p: Process)
    requires CanRun(x, s, steps) && OnlyPolls(steps, p) && p in s.polls && s.bumps < U64_LIMIT
    ensures DisciplinedRun(x, s, steps)
  {
    PollsRest(x, s, steps, p);
  }

  function Loads(p: Process, n: nat): seq<Step> {
    seq(n, i => LoadDevice(p))
  }

  /** A poll without interruption, for a table of `n` devices. */
  function PollSteps(p: Process, e: Process, n: nat): seq<Step> {
    [StartPoll(p, e), ListDevices(p)] + Loads(p, n) + [Reply(p)]
  }

  /** Loading goes through to the end of the list, since every profile is there. */
  lemma {:induction false} LoadsLead(x: Texts, s: State, p: Process, n: nat)
    requires Sound(s.tables) && p in s.polls && s.polls[p].Loading? && |s.polls[p].loaded| + n == |s.polls[p].list|
    requires Accurate(s, s.polls[p])
    ensures var poll := s.polls[p].(loaded := InOrder(s.tables.muds, s.tables.devices, 1));
            Leads(x, s, Loads(p, n), s.(polls := s.polls[p := poll]))
    decreases n
  {
    var poll := s.polls[p];
    var all := InOrder(s.tables.muds, s.tables.devices, 1);
    InOrderIsList(s.tables.muds, s.tables.devices, 1);
    if n == 0 {
      assert poll.loaded == all;
      assert s.polls == s.polls[p := poll.(loaded := all)];
    } else {
      assert poll.list[|poll.loaded|] in poll.list;
      var s1 := After(x, s, LoadDevice(p));
      LoadsLead(x, s1, p, n - 1);
      LeadsOne(x, s, LoadDevice(p));
      var end := s.(polls := s.polls[p := poll.(loaded := all)]);
      assert s1.polls[p := poll.(loaded := all)] == end.polls;
      assert Loads(p, n) == [LoadDevice(p)] + Loads(p, n - 1);
      LeadsJoin(x, s, [LoadDevice(p)], s1, Loads(p, n - 1), end);
    }
  }

  lemma StartAndListLead(x: Texts, s: State, p: Process, e: Process)
    requires p !in s.polls && !UpToDate(s, e)
    ensures var poll := Loading(e, VersionText(s.tables.config), DeviceList(s.tables.devices, 1), []);
            Leads(x, s, [StartPoll(p, e), ListDevices(p)], s.(polls := s.polls[p := poll]))
  {
    var s1 := After(x, s, StartPoll(p, e));
    var s2 := After(x, s1, ListDevices(p));
    LeadsOne(x, s, StartPoll(p, e));
    LeadsOne(x, s1, ListDevices(p));
    LeadsJoin(x, s, [StartPoll(p, e)], s1, [ListDevices(p)], s2);
    assert [StartPoll(p, e)] + [ListDevices(p)] == [StartPoll(p, e), ListDevices(p)];
  }

  /** The state after an enforcer has been served the current configuration. */
  function Served(x: Texts, s: State, e: Process): State {
    s.(enforcers := s.enforcers[e := Firewall.EnforcerConfig(VersionText(s.tables.config), Snapshot(x, s.tables), x.domain)])
  }

  /** Progress, second half: such a poll can always be made, by any enforcer that is not up to date. */
  lemma PollLeads(x: Texts, s: State, p: Process, e: Process)
    requires Sound(s.tables) && p !in s.polls && !UpToDate(s, e)
    ensures Leads(x, s, PollSteps(p, e, |DeviceList(s.tables.devices, 1)|), Served(x, s, e))
  {
    var list := DeviceList(s.tables.devices, 1);
    var poll := Loading(e, VersionText(s.tables.config), list, []);
    var s2 := s.(polls := s.polls[p := poll]);
    StartAndListLead(x, s, p, e);
    LoadsLead(x, s2, p, |list|);
    var full := poll.(loaded := InOrder(s.tables.muds, s.tables.devices, 1));
    var s3 := s2.(polls := s2.polls[p := full]);
    InOrderIsList(s.tables.muds, s.tables.devices, 1);
    LeadsOne(x, s3, Reply(p));
    assert s3.polls - {p} == s.polls;
    LeadsJoin(x, s, [StartPoll(p, e), ListDevices(p)], s2, Loads(p, |list|), s3);
    LeadsJoin(x, s, [StartPoll(p, e), ListDevices(p)] + Loads(p, |list|), s3, [Reply(p)], Served(x, s, e));
  }

  /** From every state of a disciplined run with no writer half way, every enforcer is in step or one poll away from it. */
  lemma EveryoneCatchesUp(x: Texts, s: State, steps: seq<Step>, p: Process, e: Process)
    requires Init(s) && DisciplinedRun(x, s, steps)
    requires Execute(x, s, steps).dirty == {} && p !in Execute(x, s, steps).polls
    ensures var s' := Execute(x, s, steps);
            || InSync(x, s', e)
            || (Leads(x, s', PollSteps(p, e, |DeviceList(s'.tables.devices, 1)|), Served(x, s', e))
                && InSync(x, Served(x, s', e), e))
  {
    var s' := Execute(x, s, steps);
    RunKeepsInv(x, s.tables.config, s, steps);
    if UpToDate(s', e) {
      Convergence(x, s, steps, e);
    } else {
      PollLeads(x, s', p, e);
    }
  }
}
