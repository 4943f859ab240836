/**
  Runs in which one session at a time acts: a relay from its number to its end, and the runs that show how far the
  bounds on missing CU are reached.
 */
module ProviderRuns {
  import opened Common
  import opened ProviderSessions
  import opened SingleProviderSession

  /** What a list of actions makes of one session. */
  function Acts(lim: Limits, c: Counters, s: Session, actions: seq<Action>): (Counters, Session)
    decreases |actions|
  {
    if actions == [] then (c, s)
    else
      var (c', s') := Act(lim, c, s, actions[0]);
      Acts(lim, c', s', actions[1..])
  }

  function Of(i: nat, actions: seq<Action>): seq<Event> {
    seq(|actions|, k requires 0 <= k < |actions| => At(i, actions[k]))
  }

  lemma {:induction false} ActsAppend(lim: Limits, c: Counters, s: Session, actions: seq<Action>, more: seq<Action>)
    ensures var (c', s') := Acts(lim, c, s, actions); Acts(lim, c, s, actions + more) == Acts(lim, c', s', more)
    decreases |actions|
  {
    if actions == [] {
      assert actions + more == more;
    } else {
      var (c', s') := Act(lim, c, s, actions[0]);
      assert (actions + more)[1..] == actions[1..] + more;
      ActsAppend(lim, c', s', actions[1..], more);
    }
  }

  lemma ActOnce(lim: Limits, c: Counters, s: Session, a: Action)
    ensures Acts(lim, c, s, [a]) == Act(lim, c, s, a)
  {
    assert [a][1..] == [];
  }

  lemma ActThen(lim: Limits, c: Counters, s: Session, a: Action, more: seq<Action>)
    ensures var (c', s') := Act(lim, c, s, a); Acts(lim, c, s, [a] + more) == Acts(lim, c', s', more)
  {
    assert ([a] + more)[1..] == more;
  }

  lemma ActAt(lim: Limits, sessions: seq<Session>, i: nat, c: Counters, a: Action)
    requires i < |sessions|
    ensures var (c', s') := Act(lim, c, sessions[i], a);
      Step(lim, State(sessions, c), At(i, a)) == State(sessions[i := s'], c')
  {}

  /** A session that acts alone, action by action, is a run of the step system. */
  lemma {:induction false} ActsAreARun(lim: Limits, events: seq<Event>, sessions: seq<Session>, c: Counters, i: nat,
                                       actions: seq<Action>)
    requires Run(lim, events) == State(sessions, c) && i < |sessions|
    ensures var (c', s') := Acts(lim, c, sessions[i], actions);
      Run(lim, events + Of(i, actions)) == State(sessions[i := s'], c')
    decreases |actions|
  {
    if actions == [] {
      assert events + Of(i, actions) == events && sessions[i := sessions[i]] == sessions;
    } else {
      var (c', s') := Act(lim, c, sessions[i], actions[0]);
      var next := sessions[i := s'];
      ActAt(lim, sessions, i, c, actions[0]);
      RunExtends(lim, events, At(i, actions[0]));
      ActsAreARun(lim, events + [At(i, actions[0])], next, c', i, actions[1..]);
      assert events + [At(i, actions[0])] + Of(i, actions[1..]) == events + Of(i, actions);
      var (_, last) := Acts(lim, c', s', actions[1..]);
      assert next[i := last] == sessions[i := last];
    }
  }

  // ---- One relay ------------------------------------------------------------------------------------

  function Advances(n: nat): (actions: seq<Action>)
    ensures |actions| == n && forall k :: 0 <= k < n ==> actions[k] == Advance
  {
    seq(n, k => Advance)
  }

  lemma {:induction false} DrainIsActs(lim: Limits, c: Counters, s: Session, n: nat)
    ensures Acts(lim, c, s, Advances(n)) == Drain(lim, c, s, n)
    decreases n
  {
    if n > 0 {
      var (c', s') := Continue(lim, c, s);
      assert Advances(n) == [Advance] + Advances(n - 1);
      ActThen(lim, c, s, Advance, Advances(n - 1));
      DrainIsActs(lim, c', s', n - 1);
      DrainMore(lim, c, s, n);
    }
  }

  function Relay(relayNum: nat, spec: nat, total: nat, virtualEpoch: nat): seq<Action> {
    [Acquire(relayNum)] + ([Prepare(spec, total, virtualEpoch)] + Advances(6))
  }

  predicate Ready(c: Counters, s: Session) {
    s.pc.Idle? && s.cuSum >= 0 && s.latestRelayCu == 0 && c.used <= c.topUsed
  }

  lemma RelaySteps(lim: Limits, c: Counters, s: Session, relayNum: nat, spec: nat, total: nat, virtualEpoch: nat)
    ensures var (c1, s1) := Act(lim, c, s, Acquire(relayNum));
      var (c2, s2) := Act(lim, c1, s1, Prepare(spec, total, virtualEpoch));
      Acts(lim, c, s, Relay(relayNum, spec, total, virtualEpoch)) == Drain(lim, c2, s2, 6)
  {
    var prepare := Prepare(spec, total, virtualEpoch);
    var (c1, s1) := Act(lim, c, s, Acquire(relayNum));
    ActThen(lim, c, s, Acquire(relayNum), [prepare] + Advances(6));
    ActThen(lim, c1, s1, prepare, Advances(6));
    var (c2, s2) := Act(lim, c1, s1, prepare);
    DrainIsActs(lim, c2, s2, 6);
  }

  lemma HeldPrepares(lim: Limits, c: Counters, s: Session, relayNum: nat, spec: nat, total: nat, virtualEpoch: nat)
    requires Ready(c, s)
    ensures var (c2, s2) := Act(lim, c, s.(pc := Held(relayNum)), Prepare(spec, total, virtualEpoch));
      Drain(lim, c2, s2, 6) == SoloPrepared(lim, c, s, relayNum, spec, total, virtualEpoch)
  {
    var held := s.(pc := Held(relayNum));
    SoloPrepareRefines(lim, c, held, spec, total, virtualEpoch);
    assert BooksOf(c, held) == BooksOf(c, s);
  }

  /** A request with a number not yet passed is prepared as the sequential code does; an old number changes nothing. */
  lemma RelayAlone(lim: Limits, c: Counters, s: Session, relayNum: nat, spec: nat, total: nat, virtualEpoch: nat)
    requires Ready(c, s)
    ensures Acts(lim, c, s, Relay(relayNum, spec, total, virtualEpoch)) ==
      if s.relayNum < relayNum then SoloPrepared(lim, c, s, relayNum, spec, total, virtualEpoch) else (c, s)
  {
    RelaySteps(lim, c, s, relayNum, spec, total, virtualEpoch);
    if s.relayNum < relayNum {
      HeldPrepares(lim, c, s, relayNum, spec, total, virtualEpoch);
    } else {
      IdleDrains(lim, c, s, 6);
    }
  }

  /**
    A relay that is accepted and done: the session moves to the relay's number, session and project take up what the
    total adds, and the rest of the price is charged as missing.
   */
  lemma RelayIsServed(lim: Limits, c: Counters, s: Session, relayNum: nat, spec: nat, total: nat, virtualEpoch: nat)
    requires Ready(c, s) && s.relayNum < relayNum
    requires Prepared(lim, BooksOf(c, s), spec, total, virtualEpoch).0.Accepted?
    ensures var (c', s') := Acts(lim, c, s, Relay(relayNum, spec, total, virtualEpoch) + [Done]);
      var paid := Max(0, total - s.cuSum);
      var missing := Max(0, spec - paid);
      && c' == Counters(c.used + paid, c.missing + missing, c.wasted, Max(c.topEpoch, virtualEpoch),
                        Max(c.topUsed, c.used + paid))
      && s' == Session(s.cuSum + paid, 0, relayNum, Idle, s.keptSpec + spec, s.keptMiss + missing)
  {
    RelayAlone(lim, c, s, relayNum, spec, total, virtualEpoch);
    var (c1, s1) := SoloPrepared(lim, c, s, relayNum, spec, total, virtualEpoch);
    ActsAppend(lim, c, s, Relay(relayNum, spec, total, virtualEpoch), [Done]);
    ActOnce(lim, c1, s1, Done);
  }

  /** A relay that is accepted and fails: only the missing CU stay charged. */
  lemma RelayFails(lim: Limits, c: Counters, s: Session)
    requires s.pc.InUse?
    ensures var (c', s') := Acts(lim, c, s, [Fail] + Advances(3));
      && c' == c.(used := c.used - s.latestRelayCu, wasted := c.wasted + s.pc.job.miss)
      && BooksOf(c', s') == Failed(BooksOf(c, s)) && s'.pc.Idle? && s'.relayNum == s.relayNum
  {
    var (c1, s1) := Act(lim, c, s, Fail);
    ActThen(lim, c, s, Fail, Advances(3));
    DrainIsActs(lim, c1, s1, 3);
    SoloFailureRefines(lim, c, s);
  }

  /** A session taken for a relay and given up before it is prepared is as before. */
  lemma AcquireAndDisband(lim: Limits, c: Counters, s: Session, relayNum: nat)
    requires s.pc.Idle?
    ensures Acts(lim, c, s, [Acquire(relayNum)] + [Disband]) == (c, s)
  {
    var (c1, s1) := Act(lim, c, s, Acquire(relayNum));
    ActThen(lim, c, s, Acquire(relayNum), [Disband]);
    ActOnce(lim, c1, s1, Disband);
  }

  // ---- Runs that reach the bounds ----------------------------------------------------------------

  /** A project of `n` new sessions. */
  function Creations(n: nat): (events: seq<Event>)
    ensures |events| == n && forall k :: 0 <= k < n ==> events[k] == CreateSession
  {
    seq(n, k => CreateSession)
  }

  lemma {:induction false} CreationsRun(lim: Limits, n: nat)
    ensures Run(lim, Creations(n)) == State(seq(n, k => NEW_SESSION), NEW_COUNTERS)
  {
    if n > 0 {
      CreationsRun(lim, n - 1);
      assert Creations(n) == Creations(n - 1) + [CreateSession];
      RunExtends(lim, Creations(n - 1), CreateSession);
      assert seq(n - 1, k => NEW_SESSION) + [NEW_SESSION] == seq(n, k => NEW_SESSION);
    }
  }

  /** The project, with one session that has been paid 18 k of the 20 k CU allowed. */
  lemma PaidRelay(k: nat, lim: Limits)
    requires lim == Limits(20 * k, 2 * k)
    ensures Run(lim, Creations(1) + Of(0, Relay(1, 18 * k, 18 * k, 0) + [Done]))
         == State([Session(18 * k, 0, 1, Idle, 18 * k, 0)], Counters(18 * k, 0, 0, 0, 18 * k))
  {
    CreationsRun(lim, 1);
    assert seq(1, k => NEW_SESSION) == [NEW_SESSION];
    RelayIsServed(lim, NEW_COUNTERS, NEW_SESSION, 1, 18 * k, 18 * k, 0);
    ActsAreARun(lim, Creations(1), [NEW_SESSION], NEW_COUNTERS, 0, Relay(1, 18 * k, 18 * k, 0) + [Done]);
    var s := Session(18 * k, 0, 1, Idle, 18 * k, 0);
    assert [NEW_SESSION][0 := s] == [s];
  }

  /**
    A second relay of 4 k CU, signed for 3 k: the fourth k is let through as missing, and then the ceiling refuses
    the relay. No relay is left, and its missing CU stay charged.
   */
  lemma RefusalLeavesMissingCharged(k: nat, lim: Limits)
    requires lim == Limits(20 * k, 2 * k) && k >= 1
    ensures Run(lim, Creations(1) + Of(0, Relay(1, 18 * k, 18 * k, 0) + [Done]) + Of(0, Relay(2, 4 * k, 21 * k, 0)))
         == State([Session(18 * k, 0, 1, Idle, 18 * k, 0)], Counters(18 * k, k, k, 0, 18 * k))
  {
    PaidRelay(k, lim);
    var s, c := Session(18 * k, 0, 1, Idle, 18 * k, 0), Counters(18 * k, 0, 0, 0, 18 * k);
    RelayAlone(lim, c, s, 2, 4 * k, 21 * k, 0);
    ActsAreARun(lim, Creations(1) + Of(0, Relay(1, 18 * k, 18 * k, 0) + [Done]), [s], c, 0, Relay(2, 4 * k, 21 * k, 0));
    assert [s][0 := s] == [s];
  }

  lemma PaidBeingServed(k: nat, lim: Limits, s: Session, c: Counters)
    requires lim == Limits(20 * k, 2 * k) && k >= 1
    requires s == Session(18 * k, 18 * k, 0, InUse(Job(1, 18 * k, 18 * k, 0, 0)), 0, 0)
    requires c == Counters(18 * k, 0, 0, 0, 18 * k)
    ensures Run(lim, Creations(2) + Of(0, Relay(1, 18 * k, 18 * k, 0))) == State([s, NEW_SESSION], c)
  {
    CreationsRun(lim, 2);
    assert seq(2, k => NEW_SESSION) == [NEW_SESSION, NEW_SESSION];
    RelayAlone(lim, NEW_COUNTERS, NEW_SESSION, 1, 18 * k, 18 * k, 0);
    ActsAreARun(lim, Creations(2), [NEW_SESSION, NEW_SESSION], NEW_COUNTERS, 0, Relay(1, 18 * k, 18 * k, 0));
    assert [NEW_SESSION, NEW_SESSION][0 := s] == [s, NEW_SESSION];
  }

  /** A paid relay being served on one session, and one of k CU for which nothing is signed on another. */
  lemma UnpaidBesidePaid(k: nat, lim: Limits, events: seq<Event>, s: Session, c: Counters)
    requires lim == Limits(20 * k, 2 * k) && k >= 1
    requires events == Creations(2) + Of(0, Relay(1, 18 * k, 18 * k, 0)) + Of(1, Relay(1, k, 0, 0) + [Done])
    requires s == Session(18 * k, 18 * k, 0, InUse(Job(1, 18 * k, 18 * k, 0, 0)), 0, 0)
    requires c == Counters(18 * k, 0, 0, 0, 18 * k)
    ensures Run(lim, events) == State([s, Session(0, 0, 1, Idle, k, k)], c.(missing := k))
  {
    PaidBeingServed(k, lim, s, c);
    RelayIsServed(lim, c, NEW_SESSION, 1, k, 0, 0);
    ActsAreARun(lim, Creations(2) + Of(0, Relay(1, 18 * k, 18 * k, 0)), [s, NEW_SESSION], c, 1,
                Relay(1, k, 0, 0) + [Done]);
    assert [s, NEW_SESSION][1 := Session(0, 0, 1, Idle, k, k)] == [s, Session(0, 0, 1, Idle, k, k)];
  }

  /**
    When the paid relay then fails, the other one has been served and nothing is paid: missing CU are backed by used
    ones only as long as no relay fails.
   */
  lemma FailureLeavesMissingUnbacked(k: nat, lim: Limits, events: seq<Event>)
    requires lim == Limits(20 * k, 2 * k) && k >= 1
    requires events == Creations(2) + Of(0, Relay(1, 18 * k, 18 * k, 0)) + Of(1, Relay(1, k, 0, 0) + [Done])
    ensures var st := Run(lim, events + Of(0, [Fail] + Advances(3)));
      st.counters.used == 0 && st.counters.missing == k && |st.sessions| == 2 && st.sessions[1].keptSpec == k
  {
    var s := Session(18 * k, 18 * k, 0, InUse(Job(1, 18 * k, 18 * k, 0, 0)), 0, 0);
    var c := Counters(18 * k, 0, 0, 0, 18 * k);
    UnpaidBesidePaid(k, lim, events, s, c);
    RelayFails(lim, c.(missing := k), s);
    ActsAreARun(lim, events, [s, Session(0, 0, 1, Idle, k, k)], c.(missing := k), 0, [Fail] + Advances(3));
  }
}
