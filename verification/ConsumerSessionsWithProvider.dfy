/**
  The provider entry of a consumer as an object. Its methods run under the locks of the source; each one
  performs, without interference, the events of `ConsumerSessions` named in its contract.
 */
module ConsumerSessionsWithProvider {
  import Common
  import opened ConsumerSessions

  const MAX_ALLOWED_BLOCK_LISTED_SESSIONS_PER_PROVIDER := 3

  datatype Error =
    | MaxComputeUnitsExceeded
    | NegativeComputeUnitsAmount
    | MaximumNumberOfSessionsExceeded
    | MaximumNumberOfBlockListedSessions
    | SessionIsAlreadyBlockListed
    | LockMisuseDetected

  datatype Outcome = Pass | Fail(error: Error)
  datatype Picked = Instance(index: nat) | Refused(error: Error)

  /** A session of the endpoint that nobody holds. */
  predicate Lockable(s: Session, endpoint: nat) {
    s.endpoint == endpoint && s.phase.Free?
  }

  /** How many block-listed sessions of the endpoint the search meets in this part of the iteration order. */
  function BlockListedAmong(sessions: seq<Session>, endpoint: nat, order: seq<nat>): nat
    requires forall k :: 0 <= k < |order| ==> order[k] < |sessions|
  {
    if order == [] then 0
    else
      var last := sessions[order[|order| - 1]];
      BlockListedAmong(sessions, endpoint, order[..|order| - 1])
      + if Lockable(last, endpoint) && last.blockListed then 1 else 0
  }

  /** The iteration meets a session of the endpoint after as many block-listed ones as are tolerated. */
  predicate MeetsLimit(sessions: seq<Session>, endpoint: nat, order: seq<nat>, k: nat, maximumBlocked: nat)
    requires k < |order| && forall j :: 0 <= j < |order| ==> order[j] < |sessions|
  {
    sessions[order[k]].endpoint == endpoint && BlockListedAmong(sessions, endpoint, order[..k]) >= maximumBlocked
  }

  /** The positions before `k` at which the iteration meets a free, block-listed session of the endpoint. */
  ghost function BlockListedBefore(sessions: seq<Session>, endpoint: nat, order: seq<nat>, k: nat): set<nat>
    requires k <= |order| && forall j :: 0 <= j < |order| ==> order[j] < |sessions|
  {
    set j: nat | j < k && Lockable(sessions[order[j]], endpoint) && sessions[order[j]].blockListed
  }

  lemma {:induction false} BlockListedAreCounted(sessions: seq<Session>, endpoint: nat, order: seq<nat>, k: nat)
    requires k <= |order| && forall j :: 0 <= j < |order| ==> order[j] < |sessions|
    ensures BlockListedAmong(sessions, endpoint, order[..k]) == |BlockListedBefore(sessions, endpoint, order, k)|
  {
    if k > 0 {
      BlockListedAreCounted(sessions, endpoint, order, k - 1);
      var before, s := BlockListedBefore(sessions, endpoint, order, k - 1), sessions[order[k - 1]];
      assert order[..k][..k - 1] == order[..k - 1];
      if Lockable(s, endpoint) && s.blockListed {
        assert BlockListedBefore(sessions, endpoint, order, k) == before + {k - 1};
      } else {
        assert BlockListedBefore(sessions, endpoint, order, k) == before;
      }
    }
  }

  /** The limit is met exactly at a session of the endpoint before which that many block-listed ones were met. */
  lemma LimitIsMetIff(sessions: seq<Session>, endpoint: nat, order: seq<nat>, k: nat, maximumBlocked: nat)
    requires k < |order| && forall j :: 0 <= j < |order| ==> order[j] < |sessions|
    ensures MeetsLimit(sessions, endpoint, order, k, maximumBlocked) <==>
      sessions[order[k]].endpoint == endpoint
      && |BlockListedBefore(sessions, endpoint, order, k)| >= maximumBlocked
  {
    BlockListedAreCounted(sessions, endpoint, order, k);
  }

  /** The first `n` sessions of the iteration give no reason to stop: no limit is met, and none is usable. */
  predicate SearchPasses(sessions: seq<Session>, endpoint: nat, order: seq<nat>, n: nat, maximumBlocked: nat)
    requires n <= |order| && forall j :: 0 <= j < |order| ==> order[j] < |sessions|
  {
    forall k :: 0 <= k < n ==>
      !MeetsLimit(sessions, endpoint, order, k, maximumBlocked)
      && (Lockable(sessions[order[k]], endpoint) ==> sessions[order[k]].blockListed)
  }

  /** The iteration stops here, at the limit or at a usable session. */
  predicate SearchStops(sessions: seq<Session>, endpoint: nat, order: seq<nat>, n: nat, maximumBlocked: nat,
                        picked: Picked)
    requires forall j :: 0 <= j < |order| ==> order[j] < |sessions|
  {
    && n < |order| && SearchPasses(sessions, endpoint, order, n, maximumBlocked)
    && (if MeetsLimit(sessions, endpoint, order, n, maximumBlocked)
        then picked == Refused(MaximumNumberOfBlockListedSessions)
        else picked == Instance(order[n]) && Lockable(sessions[order[n]], endpoint) && !sessions[order[n]].blockListed)
  }

  /** A relay ended without its CU, and nothing happened between unlocking the session and the subtraction. */
  function ReleaseAndSettle(st: State, i: nat, cause: Cause): State {
    Step(Step(st, Release(i, cause)), Settle(0))
  }

  lemma ReleaseAndSettleDoes(st: State, i: nat, cause: Cause)
    requires Inv(st) && st.releasing == [] && i < |st.sessions|
    requires st.sessions[i].phase.Free? || st.sessions[i].phase.InUse?
    ensures var s := st.sessions[i];
      && (s.phase.InUse? ==> 0 <= s.latestRelayCu <= st.used && !s.blockListed)
      && ReleaseAndSettle(st, i, cause) == st.(
           sessions := st.sessions[i := Local(st, s, Release(i, cause))],
           used := st.used - if s.phase.InUse? then s.latestRelayCu else 0)
      && Inv(ReleaseAndSettle(st, i, cause))
  {
    var st' := Step(st, Release(i, cause));
    SessionStepKeepsInv(st, Release(i, cause));
    StepKeepsInv(st', Settle(0));
    assert SessionInv(st.sessions[i]);
    if st.sessions[i].phase.InUse? {
      ReleasedIsCovered(st', 0);
      assert Without(st'.releasing, 0) == [];
    }
  }

  class Provider {
    const maxComputeUnits: nat
    var sessions: seq<Session>
    var usedComputeUnits: int
    ghost var topEpoch: nat

    constructor (maxCu: nat)
      ensures View() == Start(maxCu)
    {
      maxComputeUnits := maxCu;
      sessions, usedComputeUnits, topEpoch := [], 0, 0;
    }

    ghost function View(): State
      reads this
    {
      State(maxComputeUnits, sessions, usedComputeUnits, [], 0, topEpoch)
    }

    method ValidateComputeUnits(cu: nat, virtualEpoch: nat) returns (outcome: Outcome)
      ensures outcome ==
        if usedComputeUnits + cu <= maxComputeUnits * (virtualEpoch + 1) then Pass else Fail(MaxComputeUnitsExceeded)
    {
      if usedComputeUnits + cu > maxComputeUnits * (virtualEpoch + 1) {
        return Fail(MaxComputeUnitsExceeded);
      }
      return Pass;
    }

    method AddUsedComputeUnits(cu: nat, virtualEpoch: nat) returns (outcome: Outcome)
      modifies this`usedComputeUnits, this`topEpoch
      ensures outcome ==
        if old(usedComputeUnits) + cu <= maxComputeUnits * (virtualEpoch + 1) then Pass
        else Fail(MaxComputeUnitsExceeded)
      ensures outcome.Fail? ==> View() == old(View())
      ensures outcome.Pass? ==>
        View() == old(View()).(used := old(usedComputeUnits) + cu, topEpoch := Common.Max(old(topEpoch), virtualEpoch))
    {
      if usedComputeUnits + cu > maxComputeUnits * (virtualEpoch + 1) {
        return Fail(MaxComputeUnitsExceeded);
      }
      usedComputeUnits := usedComputeUnits + cu;
      topEpoch := Common.Max(topEpoch, virtualEpoch);
      return Pass;
    }

    method DecreaseUsedComputeUnits(cu: nat) returns (outcome: Outcome)
      modifies this`usedComputeUnits
      ensures outcome == if old(usedComputeUnits) < cu then Fail(NegativeComputeUnitsAmount) else Pass
      ensures usedComputeUnits == old(usedComputeUnits) - if outcome.Pass? then cu else 0
    {
      if usedComputeUnits < cu {
        return Fail(NegativeComputeUnitsAmount);
      }
      usedComputeUnits := usedComputeUnits - cu;
      return Pass;
    }

    /**
      Locks a free session of the endpoint, or creates one. `order` is the order in which the map of
      sessions happens to be iterated. The limit on block-listed sessions is only noticed when the
      iteration meets one more session of the endpoint after reaching it.
     */
    method GetConsumerSessionInstanceFromEndpoint(endpoint: nat, numberOfResets: nat, order: seq<nat>)
      returns (picked: Picked)
      requires forall k :: 0 <= k < |order| ==> order[k] < |sessions|
      requires forall i :: 0 <= i < |sessions| ==> i in order
      modifies this`sessions
      ensures picked.Instance? && picked.index < |old(sessions)| ==>
        && picked.index in order
        && Lockable(old(sessions)[picked.index], endpoint) && !old(sessions)[picked.index].blockListed
        && View() == Step(old(View()), Take(picked.index))
      ensures picked.Instance? && picked.index >= |old(sessions)| ==>
        && picked.index == |old(sessions)| <= MAX_SESSIONS_ALLOWED_PER_PROVIDER
        && View() == Step(old(View()), Create(endpoint))
        && (forall i :: 0 <= i < |old(sessions)| && Lockable(old(sessions)[i], endpoint) ==>
          old(sessions)[i].blockListed)
      ensures picked.Refused? ==> View() == old(View())
      ensures var maximumBlocked := MAX_ALLOWED_BLOCK_LISTED_SESSIONS_PER_PROVIDER * (numberOfResets + 1);
        if SearchPasses(old(sessions), endpoint, order, |order|, maximumBlocked)
        then picked ==
          if |old(sessions)| > MAX_SESSIONS_ALLOWED_PER_PROVIDER then Refused(MaximumNumberOfSessionsExceeded)
                       else Instance(|old(sessions)|)
        else exists n :: SearchStops(old(sessions), endpoint, order, n, maximumBlocked, picked)
      ensures picked == Refused(MaximumNumberOfSessionsExceeded) ==>
        && |sessions| > MAX_SESSIONS_ALLOWED_PER_PROVIDER
        && (forall i :: 0 <= i < |sessions| && Lockable(sessions[i], endpoint) ==> sessions[i].blockListed)
      ensures picked.Refused? ==>
        picked.error.MaximumNumberOfSessionsExceeded? || picked.error.MaximumNumberOfBlockListedSessions?
    {
      var maximumBlocked := MAX_ALLOWED_BLOCK_LISTED_SESSIONS_PER_PROVIDER * (numberOfResets + 1);
      var blocked := 0;
      for k := 0 to |order|
        invariant sessions == old(sessions)
        invariant blocked == BlockListedAmong(sessions, endpoint, order[..k])
        invariant SearchPasses(sessions, endpoint, order, k, maximumBlocked)
      {
        assert order[..k + 1][..k] == order[..k];
        var session := sessions[order[k]];
        if session.endpoint != endpoint {
          continue;
        }
        if blocked >= maximumBlocked {
          assert SearchStops(sessions, endpoint, order, k, maximumBlocked, Refused(MaximumNumberOfBlockListedSessions));
          return Refused(MaximumNumberOfBlockListedSessions);
        }
        if session.phase.Free? {
          if session.blockListed {
            blocked := blocked + 1;
            continue;
          }
          assert SearchStops(sessions, endpoint, order, k, maximumBlocked, Instance(order[k]));
          sessions := sessions[order[k] := session.(phase := Locked)];
          return Instance(order[k]);
        }
      }
      assert order[..|order|] == order;
      forall i | 0 <= i < |sessions| && Lockable(sessions[i], endpoint) ensures sessions[i].blockListed {
        assert i in order;
      }
      if |sessions| > MAX_SESSIONS_ALLOWED_PER_PROVIDER {
        return Refused(MaximumNumberOfSessionsExceeded);
      }
      sessions := sessions + [NewSession(endpoint)];
      return Instance(|sessions| - 1);
    }

    /** Charges the relay to the provider entry and stamps the session with it, or unlocks the session. */
    method ChargeSession(i: nat, cuNeeded: nat, virtualEpoch: nat) returns (outcome: Outcome)
      requires i < |sessions| && sessions[i].phase.Locked?
      modifies this
      ensures View() == Step(Step(old(View()), Charge(i, cuNeeded, virtualEpoch)), Stamp(i))
      ensures outcome ==
        if ExceedsCeiling(old(View()), cuNeeded, virtualEpoch) then Fail(MaxComputeUnitsExceeded) else Pass
    {
      outcome := AddUsedComputeUnits(cuNeeded, virtualEpoch);
      if outcome.Fail? {
        sessions := sessions[i := sessions[i].(phase := Free)];
        return;
      }
      var s := sessions[i];
      sessions := sessions[i := s.(latestRelayCu := cuNeeded, relayNum := s.relayNum + 1, phase := InUse)];
    }

    method OnSessionDone(i: nat) returns (outcome: Outcome)
      requires i < |sessions| && (sessions[i].phase.Free? || sessions[i].phase.InUse?)
      modifies this`sessions
      ensures View() == Step(old(View()), Done(i))
      ensures outcome == if old(sessions[i].phase.Free?) then Fail(LockMisuseDetected) else Pass
    {
      var s := sessions[i];
      if s.phase.Free? {
        sessions := sessions[i := s.(blockListed := true)];
        return Fail(LockMisuseDetected);
      }
      s := s.(cuSum := s.cuSum + s.latestRelayCu);
      s := s.(latestRelayCu := 0, consecutiveErrors := 0);
      sessions := sessions[i := s.(phase := Free)];
      return Pass;
    }

    method OnSessionFailure(i: nat, syncLoss: bool) returns (outcome: Outcome)
      requires Inv(View())
      requires i < |sessions| && (sessions[i].phase.Free? || sessions[i].phase.InUse?)
      modifies this`sessions, this`usedComputeUnits
      ensures View() == ReleaseAndSettle(old(View()), i, Failure(syncLoss)) && Inv(View())
      ensures outcome == if old(sessions[i].phase.Free?) then Fail(LockMisuseDetected) else Pass
    {
      ReleaseAndSettleDoes(View(), i, Failure(syncLoss));
      var s := sessions[i];
      if s.phase.Free? {
        sessions := sessions[i := s.(blockListed := true)];
        return Fail(LockMisuseDetected);
      }
      if s.blockListed {
        return Fail(SessionIsAlreadyBlockListed);
      }
      s := s.(consecutiveErrors := s.consecutiveErrors + 1);
      if s.consecutiveErrors > MAXIMUM_FAILURES_ALLOWED_PER_SESSION || syncLoss {
        s := s.(blockListed := true);
      }
      outcome := Unlock(i, s);
    }

    method OnSessionUnUsed(i: nat) returns (outcome: Outcome)
      requires Inv(View())
      requires i < |sessions| && (sessions[i].phase.Free? || sessions[i].phase.InUse?)
      modifies this`sessions, this`usedComputeUnits
      ensures View() == ReleaseAndSettle(old(View()), i, Unused) && Inv(View())
      ensures outcome == if old(sessions[i].phase.Free?) then Fail(LockMisuseDetected) else Pass
    {
      ReleaseAndSettleDoes(View(), i, Unused);
      var s := sessions[i];
      if s.phase.Free? {
        sessions := sessions[i := s.(blockListed := true)];
        return Fail(LockMisuseDetected);
      }
      outcome := Unlock(i, s);
    }

    /** Takes the relay's CU out of the session, unlocks it, and only then subtracts them from the provider entry. */
    method Unlock(i: nat, s: Session) returns (outcome: Outcome)
      requires i < |sessions| && s.latestRelayCu == sessions[i].latestRelayCu
      requires 0 <= s.latestRelayCu <= usedComputeUnits
      modifies this`sessions, this`usedComputeUnits
      ensures outcome == Pass
      ensures usedComputeUnits == old(usedComputeUnits) - s.latestRelayCu
      ensures sessions == old(sessions)[i := s.(latestRelayCu := 0, phase := Free)]
    {
      var cuToDecrease := s.latestRelayCu;
      sessions := sessions[i := s.(latestRelayCu := 0, phase := Free)];
      outcome := DecreaseUsedComputeUnits(cuToDecrease);
    }
  }
}
