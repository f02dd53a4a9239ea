/**
 The TLS certificate cache: any number of resolvers fill a lock-protected slot from disk, while
 updaters save a new certificate to disk and then clear the slot. Steps interleave freely; the
 lock admits one writer at a time.
 */
module CertCache {
  import opened Prelude

  /** A persisted certificate; `usable` says whether its key can be loaded. */
  datatype Cert = Cert(der: string, usable: bool)

  type Process = nat

  /** Where a resolver is between its read check and its answer. */
  datatype Resolver =
    | Waiting(floorAtStart: nat)
    | Holding(floorAtStart: nat)
    | Loaded(floorAtStart: nat, index: nat)

  /**
   `saves` is every certificate ever saved, the last one being on disk; the cache and the loaded
   certificates are positions in it. An updater between save and clear is in `pending` with the
   position it saved. `cleared` is one more than the newest position whose updater has cleared.
   */
  datatype State = State(
    saves: seq<Cert>,
    cache: Option<nat>,
    resolvers: map<Process, Resolver>,
    lock: Option<Process>,
    pending: map<Process, nat>,
    cleared: nat)

  function Disk(s: State): Option<Cert> {
    if s.saves == [] then None else Some(s.saves[|s.saves| - 1])
  }

  datatype Step =
    | Hit(r: Process, index: nat)
    | Miss(r: Process)
    | TakeLock(r: Process)
    | FoundFilled(r: Process, index: nat)
    | Load(r: Process)
    | NothingUsable(r: Process)
    | Store(r: Process)
    | Save(u: Process, cert: Cert)
    | Clear(u: Process)

  /** The certificate a step hands to a client, with the value of `cleared` when that resolver began. */
  datatype Answer = NoAnswer | Answer(index: nat, floorAtStart: nat)

  ghost predicate Next(s: State, step: Step, s': State, answer: Answer) {
    match step
    case Hit(r, index) =>
      && r !in s.resolvers && s.lock.None? && s.cache == Some(index)
      && s' == s && answer == Answer(index, s.cleared)
    case Miss(r) =>
      && r !in s.resolvers && s.lock.None? && s.cache.None?
      && s' == s.(resolvers := s.resolvers[r := Waiting(s.cleared)]) && answer == NoAnswer
    case TakeLock(r) =>
      && r in s.resolvers && s.resolvers[r].Waiting? && s.lock.None?
      && s' == s.(lock := Some(r), resolvers := s.resolvers[r := Holding(s.resolvers[r].floorAtStart)])
      && answer == NoAnswer
    case FoundFilled(r, index) =>
      && r in s.resolvers && s.resolvers[r].Holding? && s.cache == Some(index)
      && s' == s.(lock := None, resolvers := s.resolvers - {r})
      && answer == Answer(index, s.resolvers[r].floorAtStart)
    case Load(r) =>
      && r in s.resolvers && s.resolvers[r].Holding? && s.cache.None? && Disk(s).Some? && Disk(s).value.usable
      && s' == s.(resolvers := s.resolvers[r := Loaded(s.resolvers[r].floorAtStart, |s.saves| - 1)])
      && answer == NoAnswer
    case NothingUsable(r) =>
      && r in s.resolvers && s.resolvers[r].Holding? && s.cache.None?
      && (Disk(s).Some? ==> !Disk(s).value.usable)
      && s' == s.(lock := None, resolvers := s.resolvers - {r}) && answer == NoAnswer
    case Store(r) =>
      && r in s.resolvers && s.resolvers[r].Loaded?
      && s' == s.(cache := Some(s.resolvers[r].index), lock := None, resolvers := s.resolvers - {r})
      && answer == Answer(s.resolvers[r].index, s.resolvers[r].floorAtStart)
    case Save(u, cert) =>
      && u !in s.pending
      && s' == s.(saves := s.saves + [cert], pending := s.pending[u := |s.saves|]) && answer == NoAnswer
    case Clear(u) =>
      && u in s.pending && s.lock.None?
      && s' == s.(cache := None, pending := s.pending - {u},
                  cleared := if s.pending[u] + 1 > s.cleared then s.pending[u] + 1 else s.cleared)
      && answer == NoAnswer
  }

  ghost predicate Init(s: State) {
    s.cache.None? && s.resolvers == map[] && s.lock.None? && s.pending == map[] && s.cleared == |s.saves|
  }

  /** Only the lock holder is past the lock; nothing cached or loaded is older than the last cleared save. */
  ghost predicate Inv(s: State) {
    && s.cleared <= |s.saves|
    && (forall r :: r in s.resolvers && !s.resolvers[r].Waiting? ==> s.lock == Some(r))
    && (s.lock.Some? ==> s.lock.value in s.resolvers && !s.resolvers[s.lock.value].Waiting?)
    && (s.cache.Some? ==> s.cleared <= s.cache.value + 1 <= |s.saves|)
    && (forall r :: r in s.resolvers && s.resolvers[r].Loaded? ==> s.cleared <= s.resolvers[r].index + 1 <= |s.saves|)
    && (forall r :: r in s.resolvers ==> s.resolvers[r].floorAtStart <= s.cleared)
    && (forall u :: u in s.pending ==> s.pending[u] < |s.saves|)
    && (s.cleared == |s.saves| || exists u :: u in s.pending && s.pending[u] == |s.saves| - 1)
  }

  lemma ResolverStep(s: State, step: Step, s': State, answer: Answer)
    requires Inv(s) && Next(s, step, s', answer) && (step.Hit? || step.Miss? || step.TakeLock? || step.Load?)
    ensures Inv(s')
    ensures answer.Answer? ==> answer.floorAtStart <= answer.index + 1 <= |s.saves|
  {
  }

  lemma ResolverEnds(s: State, step: Step, s': State, answer: Answer)
    requires Inv(s) && Next(s, step, s', answer) && (step.FoundFilled? || step.NothingUsable? || step.Store?)
    ensures Inv(s')
    ensures answer.Answer? ==> answer.floorAtStart <= answer.index + 1 <= |s.saves|
  {
  }

  lemma UpdaterStep(s: State, step: Step, s': State, answer: Answer)
    requires Inv(s) && Next(s, step, s', answer) && (step.Save? || step.Clear?)
    ensures Inv(s') && answer == NoAnswer
  {
    match step
    case Save(u, cert) =>
      assert u in s'.pending && s'.pending[u] == |s'.saves| - 1;
    case Clear(u) =>
      if s'.cleared != |s'.saves| {
        var w :| w in s.pending && s.pending[w] == |s.saves| - 1;
        assert w in s'.pending;
      }
  }

  lemma StepKeepsInv(s: State, step: Step, s': State, answer: Answer)
    requires Inv(s) && Next(s, step, s', answer)
    ensures Inv(s')
    ensures answer.Answer? ==> answer.floorAtStart <= answer.index + 1 <= |s.saves|
  {
    if step.Save? || step.Clear? {
      UpdaterStep(s, step, s', answer);
    } else if step.FoundFilled? || step.NothingUsable? || step.Store? {
      ResolverEnds(s, step, s', answer);
    } else {
      ResolverStep(s, step, s', answer);
    }
  }

  /** The `i`-th step of a run is a step of the protocol. */
  ghost predicate StepAt(states: seq<State>, steps: seq<Step>, answers: seq<Answer>, i: nat)
    requires |states| == |steps| + 1 == |answers| + 1 && i < |steps|
  {
    Next(states[i], steps[i], states[i + 1], answers[i])
  }

  /** A finite run: states with the steps between them and the answers they gave. */
  ghost predicate IsRun(states: seq<State>, steps: seq<Step>, answers: seq<Answer>) {
    && |states| == |steps| + 1 == |answers| + 1
    && Init(states[0])
    && forall i: nat :: i < |steps| ==> StepAt(states, steps, answers, i)
  }

  lemma {:induction false} RunKeepsInv(states: seq<State>, steps: seq<Step>, answers: seq<Answer>, i: nat)
    requires IsRun(states, steps, answers) && i < |states|
    ensures Inv(states[i])
  {
    if i > 0 {
      RunKeepsInv(states, steps, answers, i - 1);
      assert StepAt(states, steps, answers, i - 1);
      StepKeepsInv(states[i - 1], steps[i - 1], states[i], answers[i - 1]);
    }
  }

  /** Coherence: whenever no updater is between save and clear, what is cached or about to be is what is on disk. */
  lemma CacheCoherent(states: seq<State>, steps: seq<Step>, answers: seq<Answer>, i: nat)
    requires IsRun(states, steps, answers) && i < |states| && states[i].pending == map[]
    ensures var s := states[i];
            && (s.cache.Some? ==> s.cache.value < |s.saves| && Disk(s) == Some(s.saves[s.cache.value]))
            && (forall r :: r in s.resolvers && s.resolvers[r].Loaded? ==>
                  s.resolvers[r].index < |s.saves| && Disk(s) == Some(s.saves[s.resolvers[r].index]))
  {
    RunKeepsInv(states, steps, answers, i);
  }

  /**
   Freshness, pending updaters or not: a client never gets a certificate older than the newest one
   whose updater had cleared the slot when the client's resolver began.
   */
  lemma AnswersAreFresh(states: seq<State>, steps: seq<Step>, answers: seq<Answer>, i: nat)
    requires IsRun(states, steps, answers) && i < |steps| && answers[i].Answer?
    ensures answers[i].index < |states[i].saves|
    ensures answers[i].floorAtStart <= answers[i].index + 1
  {
    RunKeepsInv(states, steps, answers, i);
    assert StepAt(states, steps, answers, i);
    StepKeepsInv(states[i], steps[i], states[i + 1], answers[i]);
  }
}
