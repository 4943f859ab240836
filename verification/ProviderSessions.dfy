/**
  The provider's compute-unit (CU) accounting for one consumer project and one epoch.

  Sessions of the project run concurrently. Each session is guarded by its own lock, so at most one
  thread acts on it; the counters of the project are shared and are only read by atomic loads and
  written by compare-and-swap. A run is any sequence of events, each event one atomic action of the
  thread that holds one session: every load and every compare-and-swap is an action of its own.

  uint64 arithmetic is modelled on `int`: the invariant shows that no counter goes below zero.
  The fields below the line in `Session` and `Counters` are history: no action reads them.
 */
module ProviderSessions {
  import opened Common
  import opened Sums

  /** What bounds a project: its CU allowance, and the missing CU tolerated out of it. */
  datatype Limits = Limits(maxCu: nat, missingCap: nat)

  /** The limits the configured threshold gives. */
  function LimitsOf(maxCu: nat, threshold: real): (lim: Limits)
    requires threshold >= 0.0
    ensures lim.missingCap as real <= maxCu as real * threshold < lim.missingCap as real + 1.0
  {
    assert maxCu as real * threshold >= 0.0;
    Limits(maxCu, (maxCu as real * threshold).Floor)
  }

  // ---- What one relay asks of the accounting -------------------------------------------------

  /** The part of the relay's price that the signed total does not cover. */
  function MissingFor(cuSum: int, spec: nat, total: nat): (missing: nat)
    requires cuSum >= 0
    ensures missing <= spec
    ensures spec <= CuToAdd(cuSum, total) + missing
    ensures missing == 0 <==> (total >= cuSum + spec || spec == 0)
    ensures total <= cuSum + spec ==> missing == spec - CuToAdd(cuSum, total)
  {
    if total < cuSum + spec then
      if total > cuSum then spec + cuSum - total else spec
    else 0
  }

  /** What the signed total adds to the session; a total below the session's own adds nothing. */
  function CuToAdd(cuSum: int, total: nat): (add: nat)
    ensures cuSum + add >= total
    ensures add > 0 ==> cuSum + add == total
  {
    if total > cuSum then total - cuSum else 0
  }

  // ---- States --------------------------------------------------------------------------------

  /** A relay being processed: its number, price, what it adds, what it misses, its virtual epoch. */
  datatype Job = Job(relayNum: nat, spec: nat, add: nat, miss: nat, virtualEpoch: nat)

  /** Where the thread holding a session is. */
  datatype Pc =
    | Idle
    | Held(relayNum: nat)
    | ReadMissing(job: Job)
    | ReadUsed(job: Job, seenMissing: int)
    | SwapMissing(job: Job, seenMissing: int)
    | ReadForAdd(job: Job)
    | SwapAdd(job: Job, seenUsed: int)
    | Commit(job: Job)
    | InUse(job: Job)
    | ReadForSub(job: Job)
    | SwapSub(job: Job, seenUsed: int)
    | Unwind(job: Job)

  datatype Session = Session(
    cuSum: int,
    latestRelayCu: int,
    relayNum: nat,
    pc: Pc,
    // history: prices and missing CU of the relays that were kept
    keptSpec: int,
    keptMiss: int)

  datatype Counters = Counters(
    used: int,
    missing: int,
    // history: missing CU charged to relays that were later refused or undone; highest virtual epoch; most CU used
    wasted: int,
    topEpoch: nat,
    topUsed: int)

  const NEW_SESSION := Session(0, 0, 0, Idle, 0, 0)
  const NEW_COUNTERS := Counters(0, 0, 0, 0, 0)

  // ---- Atomic actions ------------------------------------------------------------------------

  datatype Action =
    | Acquire(relayNum: nat)
    | Prepare(spec: nat, total: nat, virtualEpoch: nat)
    | Disband
    | Advance
    | Done
    | Fail

  /** One action of the thread working on session `s`; an action that is not possible changes nothing. */
  function Act(lim: Limits, c: Counters, s: Session, a: Action): (Counters, Session)
  {
    match a
    case Acquire(relayNum) =>
      if s.pc.Idle? && s.relayNum + 1 <= relayNum then (c, s.(pc := Held(relayNum))) else (c, s)
    case Disband =>
      if s.pc.Held? then (c, s.(pc := Idle)) else (c, s)
    case Prepare(spec, total, v) =>
      if s.pc.Held? && s.cuSum >= 0 then
        var job := Job(s.pc.relayNum, spec, CuToAdd(s.cuSum, total), MissingFor(s.cuSum, spec, total), v);
        (c.(topEpoch := Max(c.topEpoch, v)),
         s.(pc := if total < s.cuSum + spec then ReadMissing(job) else ReadForAdd(job)))
      else (c, s)
    case Done =>
      if s.pc.InUse? then (c, Keep(s)) else (c, s)
    case Fail =>
      if s.pc.InUse? then
        (c.(wasted := c.wasted + s.pc.job.miss),
         s.(cuSum := s.cuSum - s.latestRelayCu, pc := ReadForSub(s.pc.job)))
      else (c, s)
    case Advance => Continue(lim, c, s)
  }

  /** The relay is over and its CU stay. */
  function Keep(s: Session): Session
    requires s.pc.InUse?
  {
    s.(relayNum := s.pc.job.relayNum, latestRelayCu := 0, pc := Idle,
       keptSpec := s.keptSpec + s.pc.job.spec, keptMiss := s.keptMiss + s.pc.job.miss)
  }

  function Raise(c: Counters, used: int): Counters { c.(used := used, topUsed := Max(c.topUsed, used)) }

  /** The next load or compare-and-swap of the thread. */
  function Continue(lim: Limits, c: Counters, s: Session): (Counters, Session) {
    match s.pc
    case ReadMissing(job) => (c, s.(pc := ReadUsed(job, c.missing)))
    case ReadUsed(job, seen) =>
      var total := seen + job.miss;
      if total + c.used > lim.maxCu || total > lim.missingCap || total > c.used
      then (c, s.(pc := Idle))
      else (c, s.(pc := SwapMissing(job, seen)))
    case SwapMissing(job, seen) =>
      if job.miss == 0 then (c, s.(pc := ReadForAdd(job)))
      else if c.missing == seen then (c.(missing := seen + job.miss), s.(pc := ReadForAdd(job)))
      else (c, s.(pc := ReadMissing(job)))
    case ReadForAdd(job) =>
      if c.used + job.add > lim.maxCu * (job.virtualEpoch + 1)
      then (c.(wasted := c.wasted + job.miss), s.(pc := Idle))
      else (c, s.(pc := SwapAdd(job, c.used)))
    case SwapAdd(job, seen) =>
      if job.add == 0 then (c, s.(pc := Commit(job)))
      else if c.used == seen then (Raise(c, seen + job.add), s.(pc := Commit(job)))
      else (c, s.(pc := ReadForAdd(job)))
    case Commit(job) =>
      (c, s.(latestRelayCu := job.add, cuSum := s.cuSum + job.add, pc := InUse(job)))
    case ReadForSub(job) => (c, s.(pc := SwapSub(job, c.used)))
    case SwapSub(job, seen) =>
      if s.latestRelayCu == 0 then (c, s.(pc := Unwind(job)))
      else if c.used == seen then (c.(used := seen - s.latestRelayCu), s.(pc := Unwind(job)))
      else (c, s.(pc := ReadForSub(job)))
    case Unwind(job) => (c, s.(latestRelayCu := 0, pc := Idle))
    case _ => (c, s)
  }

  // ---- Runs ----------------------------------------------------------------------------------

  datatype State = State(sessions: seq<Session>, counters: Counters)

  datatype Event = CreateSession | At(session: nat, action: Action)

  function Create(st: State): State { State(st.sessions + [NEW_SESSION], st.counters) }

  function ActAt(lim: Limits, st: State, i: nat, a: Action): State {
    if i < |st.sessions| then
      var (c, s) := Act(lim, st.counters, st.sessions[i], a);
      State(st.sessions[i := s], c)
    else st
  }

  function Step(lim: Limits, st: State, e: Event): State {
    match e
    case CreateSession => Create(st)
    case At(i, a) => ActAt(lim, st, i, a)
  }

  function Run(lim: Limits, events: seq<Event>): State {
    if events == [] then State([], NEW_COUNTERS)
    else Step(lim, Run(lim, events[..|events| - 1]), events[|events| - 1])
  }

  // ---- The invariant -------------------------------------------------------------------------

  /** CU added to the project for a relay whose session does not show them yet. */
  function PendingAdd(s: Session): int { if s.pc.Commit? then s.pc.job.add else 0 }

  /** CU taken out of a session and not yet taken out of the project. */
  function PendingSub(s: Session): int {
    if s.pc.ReadForSub? || s.pc.SwapSub? then s.latestRelayCu else 0
  }

  function CuSumOf(s: Session): int { s.cuSum }
  function UsedWeight(s: Session): int { s.cuSum + PendingAdd(s) + PendingSub(s) }

  /** Missing CU the project tolerated for this session, including the relay in progress. */
  function MissingWeight(s: Session): int {
    s.keptMiss + match s.pc
      case ReadForAdd(job) => job.miss
      case SwapAdd(job, _) => job.miss
      case Commit(job) => job.miss
      case InUse(job) => job.miss
      case _ => 0
  }

  /** Price of the relays accepted and not undone, including the one being served. */
  function AcceptedSpec(s: Session): int {
    s.keptSpec + if s.pc.InUse? then s.pc.job.spec else 0
  }

  /** The session's CU without the relay in progress. */
  function Settled(s: Session): int {
    if s.pc.InUse? then s.cuSum - s.latestRelayCu else s.cuSum
  }

  predicate HasJob(pc: Pc) { !pc.Idle? && !pc.Held? }

  ghost predicate SessionInv(lim: Limits, c: Counters, s: Session) {
    && 0 <= s.keptMiss
    && 0 <= Settled(s)
    && s.keptSpec <= Settled(s) + s.keptMiss
    && (HasJob(s.pc) ==>
          && s.pc.job.spec <= s.pc.job.add + s.pc.job.miss
          && s.relayNum < s.pc.job.relayNum
          && s.pc.job.virtualEpoch <= c.topEpoch)
    && (s.pc.Held? ==> s.relayNum < s.pc.relayNum)
    && s.latestRelayCu ==
       (if s.pc.InUse? || s.pc.ReadForSub? || s.pc.SwapSub? || s.pc.Unwind? then s.pc.job.add else 0)
    && (s.pc.SwapMissing? ==>
          s.pc.seenMissing + s.pc.job.miss <= Min(lim.missingCap, lim.maxCu)
          && s.pc.seenMissing + s.pc.job.miss <= c.topUsed)
    && (s.pc.SwapAdd? ==> s.pc.seenUsed + s.pc.job.add <= lim.maxCu * (s.pc.job.virtualEpoch + 1))
  }

  ghost predicate Inv(lim: Limits, st: State) {
    && (forall i :: 0 <= i < |st.sessions| ==> SessionInv(lim, st.counters, st.sessions[i]))
    && CountersInv(lim, st.counters)
    && st.counters.used == Sum(st.sessions, UsedWeight)
    && st.counters.missing == Sum(st.sessions, MissingWeight) + st.counters.wasted
  }

  ghost predicate CountersInv(lim: Limits, c: Counters) {
    && 0 <= c.wasted
    && c.used <= lim.maxCu * (c.topEpoch + 1)
    && c.missing <= Min(lim.missingCap, lim.maxCu)
    && c.missing <= c.topUsed && c.used <= c.topUsed
  }

  /** The books balance across one action: each counter moves exactly as the weight of the session moves. */
  ghost predicate Balanced(lim: Limits, c: Counters, s: Session, c': Counters, s': Session) {
    && SessionInv(lim, c', s')
    && CountersInv(lim, c')
    && c.topEpoch <= c'.topEpoch && c.topUsed <= c'.topUsed
    && c'.used - c.used == UsedWeight(s') - UsedWeight(s)
    && c'.missing - c.missing == MissingWeight(s') - MissingWeight(s) + c'.wasted - c.wasted
  }

  lemma MissingPhaseKeepsBooks(lim: Limits, c: Counters, s: Session)
    requires SessionInv(lim, c, s) && CountersInv(lim, c) && 0 <= c.used
    requires s.pc.ReadMissing? || s.pc.ReadUsed? || s.pc.SwapMissing?
    ensures var (c', s') := Continue(lim, c, s); Balanced(lim, c, s, c', s')
  {}

  lemma AddPhaseKeepsBooks(lim: Limits, c: Counters, s: Session)
    requires SessionInv(lim, c, s) && CountersInv(lim, c) && 0 <= c.used
    requires s.pc.ReadForAdd? || s.pc.SwapAdd? || s.pc.Commit?
    ensures var (c', s') := Continue(lim, c, s); Balanced(lim, c, s, c', s')
  {
    CeilingGrows(lim.maxCu, s.pc.job.virtualEpoch, c.topEpoch);
  }

  lemma AdvanceKeepsBooks(lim: Limits, c: Counters, s: Session)
    requires SessionInv(lim, c, s) && CountersInv(lim, c) && 0 <= c.used
    ensures var (c', s') := Continue(lim, c, s); Balanced(lim, c, s, c', s')
  {
    if s.pc.ReadMissing? || s.pc.ReadUsed? || s.pc.SwapMissing? {
      MissingPhaseKeepsBooks(lim, c, s);
    } else if s.pc.ReadForAdd? || s.pc.SwapAdd? || s.pc.Commit? {
      AddPhaseKeepsBooks(lim, c, s);
    }
  }

  lemma ActKeepsBooks(lim: Limits, c: Counters, s: Session, a: Action)
    requires SessionInv(lim, c, s) && CountersInv(lim, c) && 0 <= c.used
    ensures var (c', s') := Act(lim, c, s, a); Balanced(lim, c, s, c', s')
  {
    if a.Advance? {
      AdvanceKeepsBooks(lim, c, s);
    } else {
      CeilingGrows(lim.maxCu, c.topEpoch, Act(lim, c, s, a).0.topEpoch);
    }
  }

  lemma WeightsAreNonNegative(lim: Limits, c: Counters, s: Session)
    requires SessionInv(lim, c, s)
    ensures UsedWeight(s) >= 0 && MissingWeight(s) >= 0
    ensures 0 <= PendingSub(s) <= UsedWeight(s)
    ensures AcceptedSpec(s) <= CuSumOf(s) + MissingWeight(s)
  {}

  lemma CountersCoverSessions(lim: Limits, st: State, i: nat)
    requires Inv(lim, st) && i < |st.sessions|
    ensures UsedWeight(st.sessions[i]) <= st.counters.used && 0 <= st.counters.used && 0 <= st.counters.missing
  {
    forall k | 0 <= k < |st.sessions| ensures UsedWeight(st.sessions[k]) >= 0 && MissingWeight(st.sessions[k]) >= 0 {
      WeightsAreNonNegative(lim, st.counters, st.sessions[k]);
    }
    SumAtLeast(st.sessions, UsedWeight);
    SumAtLeast(st.sessions, MissingWeight);
  }

  lemma BalancedKeepsInv(lim: Limits, st: State, i: nat, c': Counters, s': Session)
    requires Inv(lim, st) && i < |st.sessions|
    requires Balanced(lim, st.counters, st.sessions[i], c', s')
    ensures Inv(lim, State(st.sessions[i := s'], c'))
  {
    SumUpdate(st.sessions, i, s', UsedWeight);
    SumUpdate(st.sessions, i, s', MissingWeight);
    var sessions' := st.sessions[i := s'];
    forall k | 0 <= k < |sessions'| ensures SessionInv(lim, c', sessions'[k]) {
      assert SessionInv(lim, st.counters, st.sessions[k]);
    }
  }

  lemma NewSessionIsClean(lim: Limits, c: Counters)
    ensures SessionInv(lim, c, NEW_SESSION)
    ensures UsedWeight(NEW_SESSION) == 0 == MissingWeight(NEW_SESSION)
  {}

  lemma AppendKeepsInv(lim: Limits, st: State, s: Session)
    requires Inv(lim, st)
    requires SessionInv(lim, st.counters, s) && UsedWeight(s) == 0 == MissingWeight(s)
    ensures Inv(lim, State(st.sessions + [s], st.counters))
  {
    SumAppend(st.sessions, s, UsedWeight);
    SumAppend(st.sessions, s, MissingWeight);
  }

  lemma CreateKeepsInv(lim: Limits, st: State)
    requires Inv(lim, st)
    ensures Inv(lim, Create(st))
  {
    NewSessionIsClean(lim, st.counters);
    AppendKeepsInv(lim, st, NEW_SESSION);
  }

  lemma ActionKeepsInv(lim: Limits, st: State, i: nat, a: Action)
    requires Inv(lim, st)
    ensures Inv(lim, ActAt(lim, st, i, a))
  {
    if i < |st.sessions| {
      assert SessionInv(lim, st.counters, st.sessions[i]);
      CountersCoverSessions(lim, st, i);
      ActKeepsBooks(lim, st.counters, st.sessions[i], a);
      var (c', s') := Act(lim, st.counters, st.sessions[i], a);
      BalancedKeepsInv(lim, st, i, c', s');
    }
  }

  lemma StepKeepsInv(lim: Limits, st: State, e: Event)
    requires Inv(lim, st)
    ensures Inv(lim, Step(lim, st, e))
  {
    match e
    case CreateSession => CreateKeepsInv(lim, st);
    case At(i, a) => ActionKeepsInv(lim, st, i, a);
  }

  lemma {:induction false} RunKeepsInv(lim: Limits, events: seq<Event>)
    ensures Inv(lim, Run(lim, events))
  {
    if events != [] {
      RunKeepsInv(lim, events[..|events| - 1]);
      StepKeepsInv(lim, Run(lim, events[..|events| - 1]), events[|events| - 1]);
    }
  }

  // ---- What holds on every run ---------------------------------------------------------------

  lemma {:induction false} SumSplit(xs: seq<Session>)
    ensures Sum(xs, UsedWeight) == Sum(xs, CuSumOf) + Sum(xs, PendingAdd) + Sum(xs, PendingSub)
  {
    if xs != [] {
      SumSplit(xs[..|xs| - 1]);
    }
  }

  /** No interleaving loses an update: the project's counter is the sum of its sessions, plus what is in transit. */
  lemma Conservation(lim: Limits, events: seq<Event>)
    ensures var st := Run(lim, events);
      st.counters.used ==
      Sum(st.sessions, CuSumOf) + Sum(st.sessions, PendingAdd) + Sum(st.sessions, PendingSub)
  {
    RunKeepsInv(lim, events);
    SumSplit(Run(lim, events).sessions);
  }

  /** The two subtractions of a failed relay never go below zero. */
  lemma NoUnderflow(lim: Limits, events: seq<Event>, i: nat)
    requires i < |Run(lim, events).sessions|
    ensures var st := Run(lim, events); var s := st.sessions[i];
      && 0 <= s.latestRelayCu
      && (s.pc.InUse? ==> s.latestRelayCu <= s.cuSum)
      && (s.pc.ReadForSub? || s.pc.SwapSub? ==> s.latestRelayCu <= st.counters.used)
      && 0 <= s.cuSum && 0 <= st.counters.used && 0 <= st.counters.missing
  {
    RunKeepsInv(lim, events);
    var st := Run(lim, events);
    CountersCoverSessions(lim, st, i);
    WeightsAreNonNegative(lim, st.counters, st.sessions[i]);
  }

  lemma AcceptedWork(lim: Limits, st: State)
    requires Inv(lim, st)
    ensures Sum(st.sessions, AcceptedSpec) <= Sum(st.sessions, CuSumOf) + st.counters.missing - st.counters.wasted
  {
    forall k | 0 <= k < |st.sessions|
      ensures AcceptedSpec(st.sessions[k]) <= CuSumOf(st.sessions[k]) + MissingWeight(st.sessions[k])
    {
      WeightsAreNonNegative(lim, st.counters, st.sessions[k]);
    }
    SumDominates(st.sessions, AcceptedSpec, CuSumOf, MissingWeight);
  }

  /**
    Whatever totals consumers sign, the work given away is bounded by the tolerated missing CU, less those
    charged to relays that came to nothing.
   */
  lemma UnpaidWorkIsBounded(lim: Limits, events: seq<Event>)
    ensures var st := Run(lim, events);
      && Sum(st.sessions, AcceptedSpec) <= Sum(st.sessions, CuSumOf) + st.counters.missing - st.counters.wasted
      && 0 <= st.counters.wasted && st.counters.missing <= lim.missingCap
  {
    RunKeepsInv(lim, events);
    AcceptedWork(lim, Run(lim, events));
  }

  // ---- Missing CU are backed by paid CU -------------------------------------------------------

  /** The first `k` events lead to no more used CU than `topUsed` shows after all of them. */
  lemma {:induction false} TopUsedBounds(lim: Limits, events: seq<Event>, k: nat)
    requires k <= |events|
    ensures Run(lim, events[..k]).counters.used <= Run(lim, events).counters.topUsed
    decreases |events|
  {
    if k == |events| {
      assert events[..k] == events;
      RunKeepsInv(lim, events);
    } else {
      var before := events[..|events| - 1];
      assert before[..k] == events[..k];
      TopUsedBounds(lim, before, k);
      TopUsedGrows(lim, Run(lim, before), events[|events| - 1]);
    }
  }

  lemma TopUsedGrows(lim: Limits, st: State, e: Event)
    ensures st.counters.topUsed <= Step(lim, st, e).counters.topUsed
    ensures st.counters.topUsed < Step(lim, st, e).counters.topUsed ==>
      Step(lim, st, e).counters.topUsed == Step(lim, st, e).counters.used
  {}

  lemma {:induction false} TopUsedIsReached(lim: Limits, events: seq<Event>) returns (k: nat)
    ensures k <= |events| && Run(lim, events[..k]).counters.used == Run(lim, events).counters.topUsed
  {
    if events == [] {
      k := 0;
    } else {
      var before, e := events[..|events| - 1], events[|events| - 1];
      TopUsedGrows(lim, Run(lim, before), e);
      if Run(lim, before).counters.topUsed == Run(lim, events).counters.topUsed {
        k := TopUsedIsReached(lim, before);
        assert before[..k] == events[..k];
      } else {
        k := |events|;
        assert events[..k] == events;
      }
    }
  }

  /** The missing CU never exceed the CU that were once used at the same time, nor the project's allowance. */
  lemma MissingStaysUnderUsed(lim: Limits, events: seq<Event>) returns (k: nat)
    ensures k <= |events| && Run(lim, events).counters.missing <= Run(lim, events[..k]).counters.used
    ensures Run(lim, events).counters.missing <= lim.maxCu
  {
    RunKeepsInv(lim, events);
    k := TopUsedIsReached(lim, events);
  }

  predicate Failing(pc: Pc) { pc.ReadForSub? || pc.SwapSub? || pc.Unwind? }

  ghost predicate NothingFailed(st: State) {
    st.counters.used == st.counters.topUsed && forall i :: 0 <= i < |st.sessions| ==> !Failing(st.sessions[i].pc)
  }

  ghost predicate NoFailures(events: seq<Event>) {
    forall k :: 0 <= k < |events| && events[k].At? ==> !events[k].action.Fail?
  }

  lemma ActWithoutFailure(lim: Limits, c: Counters, s: Session, a: Action)
    requires SessionInv(lim, c, s) && c.used == c.topUsed && !Failing(s.pc) && !a.Fail?
    ensures var (c', s') := Act(lim, c, s, a); c'.used == c'.topUsed && !Failing(s'.pc)
  {}

  lemma StepWithoutFailure(lim: Limits, st: State, e: Event)
    requires Inv(lim, st) && NothingFailed(st) && (e.At? ==> !e.action.Fail?)
    ensures NothingFailed(Step(lim, st, e))
  {
    if e.At? && e.session < |st.sessions| {
      ActWithoutFailure(lim, st.counters, st.sessions[e.session], e.action);
    }
  }

  lemma {:induction false} RunWithoutFailure(lim: Limits, events: seq<Event>)
    requires NoFailures(events)
    ensures NothingFailed(Run(lim, events))
  {
    if events != [] {
      var before := events[..|events| - 1];
      RunWithoutFailure(lim, before);
      RunKeepsInv(lim, before);
      StepWithoutFailure(lim, Run(lim, before), events[|events| - 1]);
    }
  }

  lemma HalfIsPaid(lim: Limits, st: State)
    requires Inv(lim, st) && NothingFailed(st)
    ensures st.counters.missing <= st.counters.used && Sum(st.sessions, AcceptedSpec) <= 2 * st.counters.used
  {
    AcceptedWork(lim, st);
    SumOfCuSums(lim, st);
  }

  /** As long as no relay fails, the missing CU never exceed the used ones: at least half of the work is paid. */
  lemma MissingIsBackedByUsed(lim: Limits, events: seq<Event>)
    requires NoFailures(events)
    ensures var st := Run(lim, events);
      st.counters.missing <= st.counters.used && Sum(st.sessions, AcceptedSpec) <= 2 * st.counters.used
  {
    RunKeepsInv(lim, events);
    RunWithoutFailure(lim, events);
    HalfIsPaid(lim, Run(lim, events));
  }

  lemma SumOfCuSums(lim: Limits, st: State)
    requires Inv(lim, st)
    ensures Sum(st.sessions, CuSumOf) <= st.counters.used
  {
    forall k | 0 <= k < |st.sessions| ensures PendingAdd(st.sessions[k]) >= 0 && PendingSub(st.sessions[k]) >= 0 {
      WeightsAreNonNegative(lim, st.counters, st.sessions[k]);
    }
    SumSplit(st.sessions);
    SumAtLeast(st.sessions, PendingAdd);
    SumAtLeast(st.sessions, PendingSub);
  }

  lemma MissingCoversSession(lim: Limits, st: State, i: nat)
    requires Inv(lim, st) && i < |st.sessions|
    ensures 0 <= MissingWeight(st.sessions[i]) <= st.counters.missing
  {
    forall k | 0 <= k < |st.sessions| ensures MissingWeight(st.sessions[k]) >= 0 {
      WeightsAreNonNegative(lim, st.counters, st.sessions[k]);
    }
    SumAtLeast(st.sessions, MissingWeight);
  }

  lemma NothingServedYet(lim: Limits, st: State, i: nat)
    requires Inv(lim, st) && st.counters.topUsed <= 0 && i < |st.sessions|
    ensures var s := st.sessions[i];
      && st.counters.missing == 0 && Sum(st.sessions, AcceptedSpec) <= 0
      && s.keptMiss == 0 && (s.pc.InUse? ==> s.pc.job.spec == 0)
  {
    AcceptedWork(lim, st);
    SumOfCuSums(lim, st);
    CountersCoverSessions(lim, st, i);
    MissingCoversSession(lim, st, i);
  }

  /** A project that has not paid for anything yet has not been served anything that costs: no relay on credit. */
  lemma NothingServedBeforePayment(lim: Limits, events: seq<Event>, i: nat)
    requires Run(lim, events).counters.topUsed <= 0 && i < |Run(lim, events).sessions|
    ensures var st := Run(lim, events); var s := st.sessions[i];
      && st.counters.missing == 0 && Sum(st.sessions, AcceptedSpec) <= 0
      && s.keptMiss == 0 && (s.pc.InUse? ==> s.pc.job.spec == 0)
  {
    RunKeepsInv(lim, events);
    NothingServedYet(lim, Run(lim, events), i);
  }

  ghost predicate VirtualEpochsUpTo(events: seq<Event>, v: nat) {
    forall k :: 0 <= k < |events| && events[k].At? && events[k].action.Prepare? ==> events[k].action.virtualEpoch <= v
  }

  lemma StepTopEpoch(lim: Limits, st: State, e: Event, v: nat)
    requires st.counters.topEpoch <= v
    requires e.At? && e.action.Prepare? ==> e.action.virtualEpoch <= v
    ensures Step(lim, st, e).counters.topEpoch <= v
  {}

  lemma {:induction false} TopEpochIsPassed(lim: Limits, events: seq<Event>, v: nat)
    requires VirtualEpochsUpTo(events, v)
    ensures Run(lim, events).counters.topEpoch <= v
  {
    if events != [] {
      TopEpochIsPassed(lim, events[..|events| - 1], v);
      StepTopEpoch(lim, Run(lim, events[..|events| - 1]), events[|events| - 1], v);
    }
  }

  lemma UsedUnderCeiling(lim: Limits, st: State, v: nat)
    requires Inv(lim, st) && st.counters.topEpoch <= v
    ensures st.counters.used <= lim.maxCu * (v + 1)
  {
    CeilingGrows(lim.maxCu, st.counters.topEpoch, v);
  }

  /** Used CU never exceed the ceiling of the largest virtual epoch passed so far, for any number of sessions. */
  lemma UsedStaysUnderCeiling(lim: Limits, events: seq<Event>, v: nat)
    requires VirtualEpochsUpTo(events, v)
    ensures Run(lim, events).counters.used <= lim.maxCu * (v + 1)
  {
    RunKeepsInv(lim, events);
    TopEpochIsPassed(lim, events, v);
    UsedUnderCeiling(lim, Run(lim, events), v);
  }

  lemma ActRelayNum(lim: Limits, c: Counters, s: Session, a: Action)
    requires SessionInv(lim, c, s)
    ensures var s' := Act(lim, c, s, a).1;
      && s.relayNum <= s'.relayNum
      && (s.relayNum < s'.relayNum <==> a.Done? && s.pc.InUse?)
      && (a.Done? && s.pc.InUse? ==> s'.relayNum == s.pc.job.relayNum)
  {}

  lemma RunExtends(lim: Limits, events: seq<Event>, e: Event)
    ensures Run(lim, events + [e]) == Step(lim, Run(lim, events), e)
  {
    var all := events + [e];
    assert all[..|all| - 1] == events && all[|all| - 1] == e;
  }

  lemma StepRelayNum(lim: Limits, st: State, e: Event, i: nat)
    requires i < |st.sessions| && SessionInv(lim, st.counters, st.sessions[i])
    ensures i < |Step(lim, st, e).sessions|
    ensures var before := st.sessions[i]; var after := Step(lim, st, e).sessions[i];
      && before.relayNum <= after.relayNum
      && (before.relayNum < after.relayNum <==> e == At(i, Done) && before.pc.InUse?)
      && (e == At(i, Done) && before.pc.InUse? ==> after.relayNum == before.pc.job.relayNum)
  {
    if e.At? && e.session == i {
      ActRelayNum(lim, st.counters, st.sessions[i], e.action);
    }
  }

  /** A session's relay number moves exactly when a relay completes on it, and then it grows. */
  lemma CompletedRelaysIncrease(lim: Limits, events: seq<Event>, e: Event, i: nat)
    requires i < |Run(lim, events).sessions|
    ensures i < |Run(lim, events + [e]).sessions|
    ensures var before := Run(lim, events).sessions[i]; var after := Run(lim, events + [e]).sessions[i];
      && before.relayNum <= after.relayNum
      && (before.relayNum < after.relayNum <==> e == At(i, Done) && before.pc.InUse?)
      && (e == At(i, Done) && before.pc.InUse? ==> after.relayNum == before.pc.job.relayNum)
  {
    RunKeepsInv(lim, events);
    RunExtends(lim, events, e);
    StepRelayNum(lim, Run(lim, events), e, i);
  }
}
