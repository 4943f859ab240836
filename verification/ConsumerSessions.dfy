/**
  The consumer's compute-unit accounting towards one provider.

  A session is guarded by its own lock; `UsedComputeUnits` by the lock of the provider entry. The two
  locks are never held together when a relay ends: the session is unlocked first and the provider entry
  is updated later, so another relay can take the session in between. A run is any sequence of events,
  each one the work a thread does under one lock.
 */
module ConsumerSessions {
  import opened Common
  import opened Sums

  const MAX_SESSIONS_ALLOWED_PER_PROVIDER := 1000
  const MAXIMUM_FAILURES_ALLOWED_PER_SESSION := 3

  datatype Phase = Free | Locked | Charged(cu: nat) | InUse

  datatype Session = Session(
    endpoint: nat, cuSum: int, latestRelayCu: int, relayNum: nat,
    consecutiveErrors: nat, blockListed: bool, phase: Phase)

  function NewSession(endpoint: nat): Session {
    Session(endpoint, 0, 0, 0, 0, false, Locked)
  }

  /** `releasing` holds what threads have taken out of sessions and not yet out of `used`. */
  datatype State = State(
    maxCu: nat, sessions: seq<Session>, used: int, releasing: seq<int>,
    // history: decreases that were refused, and the highest virtual epoch charged
    refusedDecreases: nat, topEpoch: nat)

  function Start(maxCu: nat): State {
    State(maxCu, [], 0, [], 0, 0)
  }

  /** Why a relay ended without its CU: the session was not used after all, or the relay failed. */
  datatype Cause = Unused | Failure(syncLoss: bool)

  datatype Event =
    | Create(endpoint: nat)
    | Take(session: nat)
    | Charge(session: nat, cu: nat, virtualEpoch: nat)
    | Stamp(session: nat)
    | Done(session: nat)
    | Release(session: nat, cause: Cause)
    | Settle(thread: nat)

  /** The session after the event, when the event is about this session and possible. */
  function Local(st: State, s: Session, e: Event): Session {
    match e
    case Take(_) => if s.phase.Free? && !s.blockListed then s.(phase := Locked) else s
    case Charge(_, cu, v) =>
      if !s.phase.Locked? then s
      else if ExceedsCeiling(st, cu, v) then s.(phase := Free)
      else s.(phase := Charged(cu))
    case Stamp(_) =>
      if s.phase.Charged? then s.(latestRelayCu := s.phase.cu, relayNum := s.relayNum + 1, phase := InUse) else s
    case Done(_) =>
      if s.phase.Free? then s.(blockListed := true) // misuse: whoever ends a relay must hold the lock
      else if !s.phase.InUse? then s
      else s.(cuSum := s.cuSum + s.latestRelayCu, latestRelayCu := 0, consecutiveErrors := 0, phase := Free)
    case Release(_, cause) =>
      if s.phase.Free? then s.(blockListed := true)
      else if !s.phase.InUse? then s
      else CountError(s, cause).(latestRelayCu := 0, phase := Free)
    case _ => s
  }

  function CountError(s: Session, cause: Cause): Session {
    match cause
    case Unused => s
    case Failure(syncLoss) =>
      var errors := s.consecutiveErrors + 1;
      s.(consecutiveErrors := errors,
         blockListed := s.blockListed || errors > MAXIMUM_FAILURES_ALLOWED_PER_SESSION || syncLoss)
  }

  predicate ExceedsCeiling(st: State, cu: nat, virtualEpoch: nat) {
    st.used + cu > st.maxCu * (virtualEpoch + 1)
  }

  function LaterEpoch(v: nat, w: nat): nat { Max(v, w) }

  function Without(xs: seq<int>, i: nat): seq<int>
    requires i < |xs|
  {
    xs[..i] + xs[i + 1..]
  }

  function Step(st: State, e: Event): State {
    match e
    case Create(endpoint) =>
      if |st.sessions| > MAX_SESSIONS_ALLOWED_PER_PROVIDER then st
      else st.(sessions := st.sessions + [NewSession(endpoint)])
    case Settle(k) =>
      if k >= |st.releasing| then st
      else if st.used < st.releasing[k] then st.(refusedDecreases := st.refusedDecreases + 1)
      else st.(used := st.used - st.releasing[k], releasing := Without(st.releasing, k))
    case _ =>
      if e.session >= |st.sessions| then st
      else
        var s := st.sessions[e.session];
        var st' := st.(sessions := st.sessions[e.session := Local(st, s, e)]);
        match e
        case Charge(_, cu, v) =>
          if s.phase.Locked? && !ExceedsCeiling(st, cu, v)
          then st'.(used := st.used + cu, topEpoch := LaterEpoch(st.topEpoch, v)) else st'
        case Release(_, _) =>
          if s.phase.InUse? then st'.(releasing := st.releasing + [s.latestRelayCu]) else st'
        case _ => st'
  }

  function Run(maxCu: nat, events: seq<Event>): State {
    if events == [] then Start(maxCu)
    else Step(Run(maxCu, events[..|events| - 1]), events[|events| - 1])
  }

  // ---- The invariant -------------------------------------------------------------------------

  /** The CU of the provider entry this session stands for. */
  function Weight(s: Session): int {
    s.cuSum + s.latestRelayCu + if s.phase.Charged? then s.phase.cu else 0
  }

  function Amount(x: int): int { x }

  predicate SessionInv(s: Session) {
    && 0 <= s.cuSum && 0 <= s.latestRelayCu
    && (!s.phase.InUse? ==> s.latestRelayCu == 0)
    && (!s.phase.Free? ==> !s.blockListed)
    && (!s.blockListed ==> s.consecutiveErrors <= MAXIMUM_FAILURES_ALLOWED_PER_SESSION)
  }

  ghost predicate Inv(st: State) {
    && (forall i :: 0 <= i < |st.sessions| ==> SessionInv(st.sessions[i]))
    && (forall k :: 0 <= k < |st.releasing| ==> 0 <= st.releasing[k])
    && |st.sessions| <= MAX_SESSIONS_ALLOWED_PER_PROVIDER + 1
    && st.used == Sum(st.sessions, Weight) + Sum(st.releasing, Amount)
    && st.used <= st.maxCu * (st.topEpoch + 1)
    && st.refusedDecreases == 0
  }

  lemma ReleasedIsCovered(st: State, k: nat)
    requires Inv(st) && k < |st.releasing|
    ensures 0 <= st.releasing[k] <= st.used
  {
    SumAtLeast(st.releasing, Amount);
    forall i | 0 <= i < |st.sessions| ensures Weight(st.sessions[i]) >= 0 {
      assert SessionInv(st.sessions[i]);
    }
    SumAtLeast(st.sessions, Weight);
    assert Amount(st.releasing[k]) <= Sum(st.releasing, Amount);
  }

  lemma ChargeKeepsCeiling(st: State, cu: nat, v: nat)
    requires !ExceedsCeiling(st, cu, v)
    ensures st.used + cu <= st.maxCu * (Max(st.topEpoch, v) + 1)
  {
    CeilingGrows(st.maxCu, v, Max(st.topEpoch, v));
  }

  lemma SettleKeepsInv(st: State, k: nat)
    requires Inv(st) && k < |st.releasing|
    ensures Inv(Step(st, Settle(k)))
  {
    ReleasedIsCovered(st, k);
    SumRemove(st.releasing, k, Amount);
    var rest := Without(st.releasing, k);
    forall j | 0 <= j < |rest| ensures 0 <= rest[j] {
      assert rest[j] == st.releasing[if j < k then j else j + 1];
    }
  }

  /** Replacing a session and moving the two counters by what its weight moved. */
  lemma ReplaceKeepsInv(st: State, i: nat, s': Session, used': int, top': nat)
    requires Inv(st) && i < |st.sessions| && SessionInv(s')
    requires used' - st.used == Weight(s') - Weight(st.sessions[i])
    requires used' <= st.maxCu * (top' + 1)
    ensures Inv(st.(sessions := st.sessions[i := s'], used := used', topEpoch := top'))
  {
    SumUpdate(st.sessions, i, s', Weight);
  }

  /** A session that gives up some of its weight, which is then about to be subtracted. */
  lemma ReleasingKeepsInv(st: State, i: nat, s': Session, amount: nat)
    requires Inv(st) && i < |st.sessions| && SessionInv(s') && Weight(s') == Weight(st.sessions[i]) - amount
    ensures Inv(st.(sessions := st.sessions[i := s'], releasing := st.releasing + [amount]))
  {
    SumUpdate(st.sessions, i, s', Weight);
    SumAppend(st.releasing, amount, Amount);
  }

  lemma CountErrorKeepsSession(s: Session, cause: Cause)
    requires SessionInv(s) && s.phase.InUse?
    ensures var s' := CountError(s, cause).(latestRelayCu := 0, phase := Free);
      SessionInv(s') && Weight(s') == Weight(s) - s.latestRelayCu
  {}

  lemma ReleaseKeepsInv(st: State, i: nat, cause: Cause)
    requires Inv(st) && i < |st.sessions| && st.sessions[i].phase.InUse?
    ensures Inv(Step(st, Release(i, cause)))
  {
    var s := st.sessions[i];
    CountErrorKeepsSession(s, cause);
    ReleasingKeepsInv(st, i, CountError(s, cause).(latestRelayCu := 0, phase := Free), s.latestRelayCu);
  }

  lemma SessionStepKeepsInv(st: State, e: Event)
    requires Inv(st) && !e.Create? && !e.Settle? && e.session < |st.sessions|
    ensures Inv(Step(st, e))
  {
    var s := st.sessions[e.session];
    if e.Release? && s.phase.InUse? {
      ReleaseKeepsInv(st, e.session, e.cause);
    } else if e.Charge? && s.phase.Locked? && !ExceedsCeiling(st, e.cu, e.virtualEpoch) {
      ChargeKeepsCeiling(st, e.cu, e.virtualEpoch);
      ReplaceKeepsInv(st, e.session, s.(phase := Charged(e.cu)), st.used + e.cu, Max(st.topEpoch, e.virtualEpoch));
    } else {
      ReplaceKeepsInv(st, e.session, Local(st, s, e), st.used, st.topEpoch);
    }
  }

  lemma StepKeepsInv(st: State, e: Event)
    requires Inv(st)
    ensures Inv(Step(st, e))
  {
    match e
    case Create(endpoint) =>
      SumAppend(st.sessions, NewSession(endpoint), Weight);
    case Settle(k) =>
      if k < |st.releasing| {
        SettleKeepsInv(st, k);
      }
    case _ =>
      if e.session < |st.sessions| {
        SessionStepKeepsInv(st, e);
      }
  }

  lemma {:induction false} RunKeepsInv(maxCu: nat, events: seq<Event>)
    ensures Inv(Run(maxCu, events)) && Run(maxCu, events).maxCu == maxCu
  {
    if events != [] {
      RunKeepsInv(maxCu, events[..|events| - 1]);
      StepKeepsInv(Run(maxCu, events[..|events| - 1]), events[|events| - 1]);
    }
  }

  // ---- What holds on every run ---------------------------------------------------------------

  /** Every CU of the provider entry is in a session, or was released and is about to be subtracted. */
  lemma Conservation(maxCu: nat, events: seq<Event>)
    ensures var st := Run(maxCu, events);
      st.used == Sum(st.sessions, Weight) + Sum(st.releasing, Amount)
  {
    RunKeepsInv(maxCu, events);
  }

  /** Subtracting a released amount is never refused, whatever happened since the session was unlocked. */
  lemma DecreaseNeverGoesNegative(maxCu: nat, events: seq<Event>, k: nat)
    requires k < |Run(maxCu, events).releasing|
    ensures Run(maxCu, events).refusedDecreases == 0
    ensures var st := Run(maxCu, events); st.used >= st.releasing[k]
    ensures var st := Run(maxCu, events); Step(st, Settle(k)).used == st.used - st.releasing[k]
  {
    RunKeepsInv(maxCu, events);
    ReleasedIsCovered(Run(maxCu, events), k);
  }

  /**
    A relay never ends on a session that is already block-listed, and a usable session has at most three
    errors in a row.
   */
  lemma SessionsInUseAreUsable(maxCu: nat, events: seq<Event>, i: nat)
    requires i < |Run(maxCu, events).sessions|
    ensures var s := Run(maxCu, events).sessions[i];
      && (s.phase.InUse? ==> !s.blockListed)
      && (!s.blockListed ==> s.consecutiveErrors <= MAXIMUM_FAILURES_ALLOWED_PER_SESSION)
  {
    RunKeepsInv(maxCu, events);
  }

  /** How often the run asks for a new session. */
  function Creations(events: seq<Event>): (n: nat)
    ensures n <= |events|
  {
    if events == [] then 0 else Creations(events[..|events| - 1]) + if events[|events| - 1].Create? then 1 else 0
  }

  lemma StepPoolSize(st: State, e: Event)
    ensures |Step(st, e).sessions|
         == |st.sessions| + if e.Create? && |st.sessions| <= MAX_SESSIONS_ALLOWED_PER_PROVIDER then 1 else 0
  {}

  /** The pool holds a session for each request, up to one more than the configured maximum. */
  lemma {:induction false} PoolSize(maxCu: nat, events: seq<Event>)
    ensures |Run(maxCu, events).sessions| == Min(Creations(events), MAX_SESSIONS_ALLOWED_PER_PROVIDER + 1)
  {
    if events != [] {
      PoolSize(maxCu, events[..|events| - 1]);
      StepPoolSize(Run(maxCu, events[..|events| - 1]), events[|events| - 1]);
    }
  }

  function OnlyCreations(n: nat): (events: seq<Event>)
    ensures |events| == n && forall k :: 0 <= k < n ==> events[k] == Create(0)
  {
    seq(n, k => Create(0))
  }

  lemma {:induction false} OnlyCreationsCount(n: nat)
    ensures Creations(OnlyCreations(n)) == n
  {
    if n > 0 {
      OnlyCreationsCount(n - 1);
      assert OnlyCreations(n)[..n - 1] == OnlyCreations(n - 1);
    }
  }

  /** The extra session is reached. */
  lemma PoolExceedsMaximum(maxCu: nat, n: nat)
    requires n > MAX_SESSIONS_ALLOWED_PER_PROVIDER
    ensures |Run(maxCu, OnlyCreations(n)).sessions| == MAX_SESSIONS_ALLOWED_PER_PROVIDER + 1
  {
    OnlyCreationsCount(n);
    PoolSize(maxCu, OnlyCreations(n));
  }

  // ---- What a session remembers of the run ----------------------------------------------------------

  /** A relay is in use on the session. */
  predicate Serves(st: State, i: nat) { i < |st.sessions| && st.sessions[i].phase.InUse? }

  /** Nobody holds the session. */
  predicate IsFree(st: State, i: nat) { i < |st.sessions| && st.sessions[i].phase.Free? }

  /** The relays stamped with a number on this session. */
  function RelaysCharged(maxCu: nat, events: seq<Event>, i: nat): nat {
    if events == [] then 0
    else
      var before, e := events[..|events| - 1], events[|events| - 1];
      var st := Run(maxCu, before);
      RelaysCharged(maxCu, before, i)
      + if e == Stamp(i) && i < |st.sessions| && st.sessions[i].phase.Charged? then 1 else 0
  }

  /** The relays that failed on this session since one was done last. */
  function ErrorsInARow(maxCu: nat, events: seq<Event>, i: nat): nat {
    if events == [] then 0
    else
      var before, e := events[..|events| - 1], events[|events| - 1];
      var errors := ErrorsInARow(maxCu, before, i);
      if !Serves(Run(maxCu, before), i) then errors
      else if e == Done(i) then 0
      else if e.Release? && e.session == i && e.cause.Failure? then errors + 1
      else errors
  }

  /** Some relay failed out of sync, or as one too many in a row, or somebody ended a relay on a session nobody held. */
  predicate BlockedBy(maxCu: nat, events: seq<Event>, i: nat) {
    if events == [] then false
    else
      var before, e := events[..|events| - 1], events[|events| - 1];
      var st := Run(maxCu, before);
      || BlockedBy(maxCu, before, i)
      || (IsFree(st, i) && (e == Done(i) || (e.Release? && e.session == i)))
      || (Serves(st, i) && e.Release? && e.session == i && e.cause.Failure?
          && (e.cause.syncLoss || ErrorsInARow(maxCu, before, i) + 1 > MAXIMUM_FAILURES_ALLOWED_PER_SESSION))
  }

  /** A session after one event, by what the event says about it. */
  lemma StepRemembers(st: State, e: Event, i: nat)
    requires i < |st.sessions|
    ensures i < |Step(st, e).sessions|
    ensures var s, s' := st.sessions[i], Step(st, e).sessions[i];
      var failed := e.Release? && e.session == i && e.cause.Failure? && s.phase.InUse?;
      && s'.relayNum == s.relayNum + (if e == Stamp(i) && s.phase.Charged? then 1 else 0)
      && s'.consecutiveErrors ==
         (if e == Done(i) && s.phase.InUse? then 0 else s.consecutiveErrors + if failed then 1 else 0)
      && (s'.blockListed <==>
            || s.blockListed
            || (s.phase.Free? && (e == Done(i) || (e.Release? && e.session == i)))
            || (failed && (e.cause.syncLoss || s'.consecutiveErrors > MAXIMUM_FAILURES_ALLOWED_PER_SESSION)))
  {}

  lemma NewSessionRemembersNothing(st: State, e: Event, i: nat)
    requires i >= |st.sessions| && i < |Step(st, e).sessions|
    ensures var s := Step(st, e).sessions[i]; s.relayNum == 0 == s.consecutiveErrors && !s.blockListed
  {}

  lemma {:induction false} NothingBeforeCreation(maxCu: nat, events: seq<Event>, i: nat)
    requires i >= |Run(maxCu, events).sessions|
    ensures RelaysCharged(maxCu, events, i) == 0 == ErrorsInARow(maxCu, events, i) && !BlockedBy(maxCu, events, i)
  {
    if events != [] {
      StepPoolSize(Run(maxCu, events[..|events| - 1]), events[|events| - 1]);
      NothingBeforeCreation(maxCu, events[..|events| - 1], i);
    }
  }

  /**
    A session's relay number counts the relays charged on it, its errors are those since the last relay done, and it
    is block-listed exactly for a failure out of sync, for one failure too many in a row, or for misuse of its lock.
   */
  lemma {:induction false} SessionsRemember(maxCu: nat, events: seq<Event>, i: nat)
    requires i < |Run(maxCu, events).sessions|
    ensures var s := Run(maxCu, events).sessions[i];
      && s.relayNum == RelaysCharged(maxCu, events, i)
      && s.consecutiveErrors == ErrorsInARow(maxCu, events, i)
      && (s.blockListed <==> BlockedBy(maxCu, events, i))
  {
    if events != [] {
      var before, e := events[..|events| - 1], events[|events| - 1];
      if i < |Run(maxCu, before).sessions| {
        SessionsRemember(maxCu, before, i);
        StepRemembers(Run(maxCu, before), e, i);
      } else {
        NothingBeforeCreation(maxCu, before, i);
        NewSessionRemembersNothing(Run(maxCu, before), e, i);
      }
    }
  }

  // ---- One relay, without interference ------------------------------------------------------------

  /** The session is taken and the relay charged and stamped, or it is unlocked again above the ceiling. */
  function Started(st: State, i: nat, cu: nat, virtualEpoch: nat): State {
    Step(Step(Step(st, Take(i)), Charge(i, cu, virtualEpoch)), Stamp(i))
  }

  lemma StartsUnderCeiling(st: State, i: nat, cu: nat, virtualEpoch: nat)
    requires IsFree(st, i) && !st.sessions[i].blockListed
    ensures var s := st.sessions[i];
      Started(st, i, cu, virtualEpoch) ==
      if st.used + cu > st.maxCu * (virtualEpoch + 1) then st
      else st.(sessions := st.sessions[i := s.(latestRelayCu := cu, relayNum := s.relayNum + 1, phase := InUse)],
               used := st.used + cu, topEpoch := Max(st.topEpoch, virtualEpoch))
  {
    var taken := Step(st, Take(i));
    var charged := Step(taken, Charge(i, cu, virtualEpoch));
    if st.used + cu > st.maxCu * (virtualEpoch + 1) {
      assert charged.sessions == st.sessions;
    } else {
      assert charged.sessions[i].phase == Charged(cu);
    }
  }

  /** A relay that is done: its CU are in the session and in the provider entry. */
  lemma RelayIsDone(st: State, i: nat, cu: nat, virtualEpoch: nat)
    requires IsFree(st, i) && !st.sessions[i].blockListed && st.used + cu <= st.maxCu * (virtualEpoch + 1)
    ensures var st', s := Step(Started(st, i, cu, virtualEpoch), Done(i)), st.sessions[i];
      && st'.used == st.used + cu && st'.releasing == st.releasing
      && st'.sessions == st.sessions[i := s.(cuSum := s.cuSum + cu, latestRelayCu := 0, relayNum := s.relayNum + 1,
                                             consecutiveErrors := 0)]
  {
    StartsUnderCeiling(st, i, cu, virtualEpoch);
  }

  /** A relay that failed, or was not used: after its settlement the CU are as before. */
  lemma RelayIsReleased(st: State, i: nat, cu: nat, virtualEpoch: nat, cause: Cause)
    requires Inv(st) && IsFree(st, i) && !st.sessions[i].blockListed && st.used + cu <= st.maxCu * (virtualEpoch + 1)
    ensures var st' := Step(Step(Started(st, i, cu, virtualEpoch), Release(i, cause)), Settle(|st.releasing|));
      var s, s' := st.sessions[i], st'.sessions[i];
      && st'.used == st.used && st'.releasing == st.releasing
      && s'.cuSum == s.cuSum && s'.latestRelayCu == 0 && s'.relayNum == s.relayNum + 1 && s'.phase.Free?
      && s'.consecutiveErrors == s.consecutiveErrors + if cause.Failure? then 1 else 0
  {
    StartsUnderCeiling(st, i, cu, virtualEpoch);
    assert SessionInv(st.sessions[i]);
    var started := Started(st, i, cu, virtualEpoch);
    var released := Step(started, Release(i, cause));
    assert released.releasing == st.releasing + [cu];
    UsedIsNotNegative(st);
    assert Without(released.releasing, |st.releasing|) == st.releasing;
  }

  lemma UsedIsNotNegative(st: State)
    requires Inv(st)
    ensures 0 <= st.used
  {
    forall i | 0 <= i < |st.sessions| ensures Weight(st.sessions[i]) >= 0 {
      assert SessionInv(st.sessions[i]);
    }
    SumAtLeast(st.sessions, Weight);
    SumAtLeast(st.releasing, Amount);
  }

  ghost predicate VirtualEpochsUpTo(events: seq<Event>, v: nat) {
    forall k :: 0 <= k < |events| && events[k].Charge? ==> events[k].virtualEpoch <= v
  }

  lemma {:induction false} TopEpochIsPassed(maxCu: nat, events: seq<Event>, v: nat)
    requires VirtualEpochsUpTo(events, v)
    ensures Run(maxCu, events).topEpoch <= v
  {
    if events != [] {
      TopEpochIsPassed(maxCu, events[..|events| - 1], v);
    }
  }

  lemma UsedStaysUnderCeiling(maxCu: nat, events: seq<Event>, v: nat)
    requires VirtualEpochsUpTo(events, v)
    ensures Run(maxCu, events).used <= maxCu * (v + 1)
  {
    RunKeepsInv(maxCu, events);
    TopEpochIsPassed(maxCu, events, v);
    CeilingGrows(maxCu, Run(maxCu, events).topEpoch, v);
  }
}
