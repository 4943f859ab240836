/**
  One session seen from both ends. The consumer signs, for each relay, the session's CU so far plus the
  price of this relay, under the next relay number. Requests and replies may be lost, delayed,
  reordered or delivered again; the provider may refuse any relay (its project's counters decide);
  either side may give up on a relay at any time. A run is any sequence of these events.
 */
module RelayAgreement {
  import opened Common
  import ConsumerSessions
  import ProviderSessions
  import opened SingleProviderSession

  datatype State = State(
    // signed[n - 1] is the total signed under relay number n
    signed: seq<nat>,
    consumer: ConsumerSessions.Session,
    providerCuSum: int, providerLatestRelayCu: int, providerRelayNum: nat,
    // the relay number being served, or 0
    serving: nat,
    // relay numbers, in the order in which each side closed them: CU kept by the provider, replies
    // it sent, relays the consumer saw succeed
    kept: seq<nat>, replied: set<nat>, succeeded: seq<nat>)

  const FRESH := State([], ConsumerSessions.NewSession(0), 0, 0, 0, 0, [], {}, [])

  datatype Event =
    | Sign(cu: nat)
    | Serve(relayNum: nat, accepted: bool)
    | ProviderDone
    | ProviderFailed(epochStillValid: bool)
    | ConsumerDone
    | ConsumerFailed

  /** What the consumer signs: the CU it owes once this relay succeeds. */
  function SignedTotal(s: ConsumerSessions.Session): int {
    s.cuSum + s.latestRelayCu
  }

  function Step(st: State, e: Event): State {
    match e
    case Sign(cu) =>
      if st.consumer.phase.InUse? || st.consumer.cuSum < 0 then st
      else
        var c := st.consumer.(latestRelayCu := cu, relayNum := st.consumer.relayNum + 1,
                              phase := ConsumerSessions.InUse);
        st.(consumer := c, signed := st.signed + [SignedTotal(c)])
    case Serve(n, accepted) =>
      if st.serving != 0 || n > |st.signed| || st.providerRelayNum + 1 > n || !accepted then st
      else
        var add := ProviderSessions.CuToAdd(st.providerCuSum, st.signed[n - 1]);
        st.(providerCuSum := st.providerCuSum + add, providerLatestRelayCu := add, serving := n)
    case ProviderDone =>
      if st.serving == 0 then st else Keep(st).(replied := st.replied + {st.serving})
    case ProviderFailed(epochStillValid) =>
      if st.serving == 0 then st
      else if !epochStillValid then Keep(st) // changes are not undone once the epoch is over
      else st.(providerCuSum := st.providerCuSum - st.providerLatestRelayCu, providerLatestRelayCu := 0, serving := 0)
    case ConsumerDone =>
      if !st.consumer.phase.InUse? || st.consumer.relayNum !in st.replied then st
      else st.(consumer := st.consumer.(cuSum := SignedTotal(st.consumer), latestRelayCu := 0,
                                         phase := ConsumerSessions.Free),
               succeeded := st.succeeded + [st.consumer.relayNum])
    case ConsumerFailed =>
      if !st.consumer.phase.InUse? then st
      else st.(consumer := st.consumer.(latestRelayCu := 0, phase := ConsumerSessions.Free))
  }

  /** The provider closes the relay and its CU stay in the session. */
  function Keep(st: State): State {
    st.(kept := st.kept + [st.serving], providerRelayNum := st.serving, providerLatestRelayCu := 0, serving := 0)
  }

  function Run(events: seq<Event>): State {
    if events == [] then FRESH else Step(Run(events[..|events| - 1]), events[|events| - 1])
  }

  /** The provider's CU without the relay being served. */
  function ProviderSettled(st: State): int {
    st.providerCuSum - st.providerLatestRelayCu
  }

  predicate Increasing(xs: seq<nat>) {
    forall i, j :: 0 <= i < j < |xs| ==> xs[i] < xs[j]
  }

  predicate AreRelays(st: State, xs: seq<nat>) {
    forall k :: 0 <= k < |xs| ==> 1 <= xs[k] <= |st.signed|
  }

  /** `v` is the largest total signed for these relays, or 0 when there is none. */
  ghost predicate IsTopTotal(st: State, xs: seq<nat>, v: int)
    requires AreRelays(st, xs)
  {
    && (forall k :: 0 <= k < |xs| ==> st.signed[xs[k] - 1] <= v)
    && (v == 0 || exists k :: 0 <= k < |xs| && st.signed[xs[k] - 1] == v)
  }

  /** The highest relay number the consumer can have closed. */
  function LastClosable(st: State): int {
    if st.consumer.phase.InUse? then st.consumer.relayNum - 1 else st.consumer.relayNum
  }

  predicate AllUpTo(xs: seq<nat>, n: int) {
    forall k :: 0 <= k < |xs| ==> xs[k] <= n
  }

  /** What the relays closed on one side say about that side's sum. */
  ghost predicate SideInv(st: State, closed: seq<nat>, sum: int, relayNum: int) {
    && AreRelays(st, closed) && Increasing(closed) && AllUpTo(closed, relayNum)
    && IsTopTotal(st, closed, sum)
    && sum >= 0
  }

  ghost predicate Inv(st: State) {
    && SideInv(st, st.kept, ProviderSettled(st), st.providerRelayNum)
    && SideInv(st, st.succeeded, st.consumer.cuSum, LastClosable(st))
    && (forall n :: n in st.succeeded ==> n in st.replied)
    && (forall n :: n in st.replied ==> n in st.kept)
    && st.consumer.relayNum == |st.signed|
    && (st.consumer.phase.InUse? ==>
          && 1 <= |st.signed|
          && st.signed[|st.signed| - 1] == SignedTotal(st.consumer)
          && st.consumer.latestRelayCu >= 0)
    && ServingInv(st)
  }

  ghost predicate ServingInv(st: State) {
    if st.serving == 0 then st.providerLatestRelayCu == 0
    else
      && st.providerRelayNum < st.serving <= |st.signed|
      && st.providerCuSum == Max(ProviderSettled(st), st.signed[st.serving - 1])
  }

  lemma SideSurvivesSigning(st: State, st': State, closed: seq<nat>, sum: int, relayNum: int)
    requires SideInv(st, closed, sum, relayNum)
    requires st.signed <= st'.signed
    ensures SideInv(st', closed, sum, relayNum)
  {
    if sum != 0 {
      var k :| 0 <= k < |closed| && st.signed[closed[k] - 1] == sum;
      assert st'.signed[closed[k] - 1] == sum;
    }
  }

  lemma SignKeepsInv(st: State, cu: nat)
    requires Inv(st)
    ensures Inv(Step(st, Sign(cu)))
  {
    var st' := Step(st, Sign(cu));
    if st' != st {
      SideSurvivesSigning(st, st', st.kept, ProviderSettled(st), st.providerRelayNum);
      SideSurvivesSigning(st, st', st.succeeded, st.consumer.cuSum, st.consumer.relayNum);
    }
  }

  /** Serving is what preparing the session does whenever the project's counters let the relay through. */
  lemma ServeIsPrepare(st: State, n: nat, lim: ProviderSessions.Limits, used: int, missing: int, spec: nat, v: nat)
    requires Inv(st) && st.serving == 0 && st.providerRelayNum < n <= |st.signed|
    ensures var st' := Step(st, Serve(n, true));
      var (verdict, b) := Prepared(lim, Books(used, missing, st.providerCuSum, 0), spec, st.signed[n - 1], v);
      verdict.Accepted? ==> b.cuSum == st'.providerCuSum && b.latestRelayCu == st'.providerLatestRelayCu
  {}

  /** A request is served exactly when an idle session of the provider takes its number. */
  lemma ServedIffAcquired(st: State, n: nat, lim: ProviderSessions.Limits, c: ProviderSessions.Counters,
                          s: ProviderSessions.Session)
    requires st.serving == 0 && s.pc.Idle? && s.relayNum == st.providerRelayNum && 1 <= n <= |st.signed|
    ensures Step(st, Serve(n, true)).serving == n <==>
      ProviderSessions.Act(lim, c, s, ProviderSessions.Acquire(n)).1.pc == ProviderSessions.Held(n)
  {}

  /** A failure gives the CU of the relay back as long as its epoch is valid; afterwards the relay counts as served. */
  lemma FailureIsUndoneInTime(st: State)
    requires Inv(st) && st.serving != 0
    ensures var undone, late := Step(st, ProviderFailed(true)), Step(st, ProviderFailed(false));
      && undone.serving == late.serving == 0 && undone.replied == late.replied == st.replied
      && undone.kept == st.kept && undone.providerCuSum == ProviderSettled(st)
      && late.kept == st.kept + [st.serving]
      && late.providerCuSum == Max(ProviderSettled(st), st.signed[st.serving - 1])
  {}

  lemma ServeKeepsInv(st: State, n: nat)
    requires Inv(st)
    ensures Inv(Step(st, Serve(n, true)))
  {
    var st' := Step(st, Serve(n, true));
    SideSurvivesSigning(st, st', st.kept, ProviderSettled(st), st.providerRelayNum);
    SideSurvivesSigning(st, st', st.succeeded, st.consumer.cuSum, LastClosable(st));
  }

  lemma ProviderFailedKeepsInv(st: State)
    requires Inv(st)
    ensures Inv(Step(st, ProviderFailed(true)))
  {
    var st' := Step(st, ProviderFailed(true));
    SideSurvivesSigning(st, st', st.kept, ProviderSettled(st), st.providerRelayNum);
    SideSurvivesSigning(st, st', st.succeeded, st.consumer.cuSum, LastClosable(st));
  }

  lemma ConsumerFailedKeepsInv(st: State)
    requires Inv(st)
    ensures Inv(Step(st, ConsumerFailed))
  {
    var st' := Step(st, ConsumerFailed);
    SideSurvivesSigning(st, st', st.kept, ProviderSettled(st), st.providerRelayNum);
    SideSurvivesSigning(st, st', st.succeeded, st.consumer.cuSum, LastClosable(st));
  }

  /** Closing a relay adds it to the list and its total to the running maximum. */
  lemma CloseRelay(st: State, closed: seq<nat>, sum: int, before: int, n: nat)
    requires SideInv(st, closed, sum, before) && before < n && 1 <= n <= |st.signed|
    ensures SideInv(st, closed + [n], Max(sum, st.signed[n - 1]), n)
  {
    var closed' := closed + [n];
    assert closed'[|closed|] == n;
    if sum >= st.signed[n - 1] && sum != 0 {
      var k :| 0 <= k < |closed| && st.signed[closed[k] - 1] == sum;
      assert closed'[k] == closed[k];
    }
  }

  lemma KeepKeepsInv(st: State)
    requires Inv(st) && st.serving != 0
    ensures Inv(Keep(st))
  {
    var kept' := st.kept + [st.serving];
    CloseRelay(st, st.kept, ProviderSettled(st), st.providerRelayNum, st.serving);
    SideSurvivesSigning(st, Keep(st), kept', st.providerCuSum, st.serving);
    SideSurvivesSigning(st, Keep(st), st.succeeded, st.consumer.cuSum, LastClosable(st));
  }

  lemma ReplyKeepsInv(st: State, n: nat)
    requires Inv(st) && n in st.kept
    ensures Inv(st.(replied := st.replied + {n}))
  {
    var st' := st.(replied := st.replied + {n});
    SideSurvivesSigning(st, st', st.kept, ProviderSettled(st), st.providerRelayNum);
    SideSurvivesSigning(st, st', st.succeeded, st.consumer.cuSum, LastClosable(st));
  }

  lemma ProviderDoneKeepsInv(st: State)
    requires Inv(st) && st.serving != 0
    ensures Inv(Step(st, ProviderDone))
  {
    KeepKeepsInv(st);
    assert Keep(st).kept[|st.kept|] == st.serving;
    ReplyKeepsInv(Keep(st), st.serving);
  }

  lemma ConsumerDoneKeepsInv(st: State)
    requires Inv(st) && st.consumer.phase.InUse? && st.consumer.relayNum in st.replied
    ensures Inv(Step(st, ConsumerDone))
  {
    CloseRelay(st, st.succeeded, st.consumer.cuSum, st.consumer.relayNum - 1, st.consumer.relayNum);
  }

  lemma StepKeepsInv(st: State, e: Event)
    requires Inv(st)
    ensures Inv(Step(st, e))
  {
    match e
    case Sign(cu) => SignKeepsInv(st, cu);
    case Serve(n, accepted) => if accepted { ServeKeepsInv(st, n); }
    case ProviderDone => if st.serving != 0 { ProviderDoneKeepsInv(st); }
    case ProviderFailed(epochStillValid) =>
      if epochStillValid {
        ProviderFailedKeepsInv(st);
      } else if st.serving != 0 {
        KeepKeepsInv(st);
      }
    case ConsumerDone =>
      if st.consumer.phase.InUse? && st.consumer.relayNum in st.replied {
        ConsumerDoneKeepsInv(st);
      }
    case ConsumerFailed => ConsumerFailedKeepsInv(st);
  }

  lemma FreshInv()
    ensures Inv(FRESH)
  {
    NothingClosed(FRESH);
  }

  lemma NothingClosed(st: State)
    ensures SideInv(st, [], 0, 0)
  {}

  lemma {:induction false} RunKeepsInv(events: seq<Event>)
    ensures Inv(Run(events))
  {
    if events == [] {
      FreshInv();
    } else {
      var before := Run(events[..|events| - 1]);
      RunKeepsInv(events[..|events| - 1]);
      StepKeepsInv(before, events[|events| - 1]);
    }
  }

  /** Closing more relays can only raise the largest total. */
  lemma TopTotalGrows(st: State, xs: seq<nat>, v: int, ys: seq<nat>, w: int)
    requires AreRelays(st, xs) && IsTopTotal(st, xs, v)
    requires AreRelays(st, ys) && IsTopTotal(st, ys, w) && w >= 0
    requires forall n :: n in xs ==> n in ys
    ensures v <= w
  {
    if v != 0 {
      var k :| 0 <= k < |xs| && st.signed[xs[k] - 1] == v;
      assert xs[k] in ys;
    }
  }

  lemma TopTotalIsSigned(st: State, xs: seq<nat>, v: int, bound: nat)
    requires AreRelays(st, xs) && IsTopTotal(st, xs, v)
    requires forall k :: 0 <= k < |st.signed| ==> st.signed[k] <= bound
    ensures v <= bound
  {}

  // ---- What holds on every run ---------------------------------------------------------------

  /** The consumer never records more than the provider, nor the provider more than was ever signed. */
  lemma SumsAgree(events: seq<Event>, bound: nat)
    requires forall k :: 0 <= k < |Run(events).signed| ==> Run(events).signed[k] <= bound
    ensures var st := Run(events);
      st.consumer.cuSum <= ProviderSettled(st) <= st.providerCuSum <= bound
  {
    RunKeepsInv(events);
    var st := Run(events);
    TopTotalGrows(st, st.succeeded, st.consumer.cuSum, st.kept, ProviderSettled(st));
    TopTotalIsSigned(st, st.kept, ProviderSettled(st), bound);
  }

  /** Whatever each side saw, its sum is the largest total among the relays it closed. */
  lemma SumsAreTopTotals(events: seq<Event>)
    ensures var st := Run(events);
      && AreRelays(st, st.kept) && IsTopTotal(st, st.kept, ProviderSettled(st))
      && AreRelays(st, st.succeeded) && IsTopTotal(st, st.succeeded, st.consumer.cuSum)
  {
    RunKeepsInv(events);
  }

  /** Some relay the consumer completed was signed for at least this total. */
  predicate ToppedByCompleted(st: State, total: nat)
    requires AreRelays(st, st.succeeded)
  {
    exists k :: 0 <= k < |st.succeeded| && st.signed[st.succeeded[k] - 1] >= total
  }

  /** The relay is accounted for on the consumer's side: nothing was signed for it, or a completed one tops it. */
  predicate Covered(st: State, n: nat)
    requires AreRelays(st, st.succeeded) && 1 <= n <= |st.signed|
  {
    st.signed[n - 1] == 0 || ToppedByCompleted(st, st.signed[n - 1])
  }

  lemma CoveredIff(st: State, n: nat)
    requires AreRelays(st, st.succeeded) && IsTopTotal(st, st.succeeded, st.consumer.cuSum) && st.consumer.cuSum >= 0
    requires 1 <= n <= |st.signed|
    ensures Covered(st, n) <==> st.signed[n - 1] <= st.consumer.cuSum
  {
    if st.signed[n - 1] <= st.consumer.cuSum && st.signed[n - 1] != 0 {
      var k :| 0 <= k < |st.succeeded| && st.signed[st.succeeded[k] - 1] == st.consumer.cuSum;
      assert ToppedByCompleted(st, st.signed[n - 1]);
    }
  }

  lemma TopIsReachedIff(st: State, xs: seq<nat>, v: int, w: int)
    requires AreRelays(st, xs) && IsTopTotal(st, xs, v) && w <= v && 0 <= w
    ensures v == w <==> forall k :: 0 <= k < |xs| ==> st.signed[xs[k] - 1] <= w
  {
    if v != w {
      var k :| 0 <= k < |xs| && st.signed[xs[k] - 1] == v;
      assert st.signed[xs[k] - 1] > w;
    }
  }

  /** Each relay the provider kept is covered on the consumer's side. */
  ghost predicate AllCovered(st: State)
    requires AreRelays(st, st.kept) && AreRelays(st, st.succeeded)
  {
    forall k :: 0 <= k < |st.kept| ==> Covered(st, st.kept[k])
  }

  lemma EqualIffAllCovered(st: State)
    requires Inv(st)
    ensures st.consumer.cuSum == ProviderSettled(st) <==> AllCovered(st)
  {
    TopTotalGrows(st, st.succeeded, st.consumer.cuSum, st.kept, ProviderSettled(st));
    TopIsReachedIff(st, st.kept, ProviderSettled(st), st.consumer.cuSum);
    forall k | 0 <= k < |st.kept| ensures Covered(st, st.kept[k]) <==> st.signed[st.kept[k] - 1] <= st.consumer.cuSum {
      CoveredIff(st, st.kept[k]);
    }
  }

  lemma EqualIfSameOutcomes(st: State)
    requires Inv(st) && forall n :: n in st.kept ==> n in st.succeeded
    ensures st.consumer.cuSum == ProviderSettled(st)
  {
    TopTotalGrows(st, st.succeeded, st.consumer.cuSum, st.kept, ProviderSettled(st));
    TopTotalGrows(st, st.kept, ProviderSettled(st), st.succeeded, st.consumer.cuSum);
  }

  /**
    The two sums are equal exactly when every relay the provider kept was signed for nothing or is topped by one
    the consumer completed; in particular when both sides saw every relay end the same way.
   */
  lemma SumsEqualIff(events: seq<Event>)
    ensures var st := Run(events);
      && AreRelays(st, st.kept) && AreRelays(st, st.succeeded)
      && (st.consumer.cuSum == ProviderSettled(st) <==> AllCovered(st))
      && ((forall n :: n in st.kept ==> n in st.succeeded) ==> st.consumer.cuSum == ProviderSettled(st))
      && (st.serving == 0 ==> ProviderSettled(st) == st.providerCuSum)
  {
    RunKeepsInv(events);
    var st := Run(events);
    EqualIffAllCovered(st);
    if forall n :: n in st.kept ==> n in st.succeeded {
      EqualIfSameOutcomes(st);
    }
  }

  // ---- What is signed and recorded are the prices of relays ----------------------------------------

  /** The prices of the relays signed, in order. */
  function Prices(events: seq<Event>): seq<nat> {
    if events == [] then []
    else
      var before, e := events[..|events| - 1], events[|events| - 1];
      if e.Sign? && !Run(before).consumer.phase.InUse? then Prices(before) + [e.cu] else Prices(before)
  }

  predicate AreNumbers(prices: seq<nat>, relays: seq<nat>) {
    forall k :: 0 <= k < |relays| ==> 1 <= relays[k] <= |prices|
  }

  /** What these relays cost together. */
  function Owed(prices: seq<nat>, relays: seq<nat>): nat
    requires AreNumbers(prices, relays)
  {
    if relays == [] then 0
    else Owed(prices, relays[..|relays| - 1]) + prices[relays[|relays| - 1] - 1]
  }

  /** The relays with a number below `n`. */
  function Below(relays: seq<nat>, n: nat): (r: seq<nat>)
    ensures forall x :: x in r <==> x in relays && x < n
    ensures |relays| > 0 && relays[|relays| - 1] >= n ==> r == Below(relays[..|relays| - 1], n)
  {
    if relays == [] then []
    else
      var r := Below(relays[..|relays| - 1], n);
      if relays[|relays| - 1] < n then r + [relays[|relays| - 1]] else r
  }

  lemma {:induction false} AllBelow(relays: seq<nat>, n: nat)
    requires forall k :: 0 <= k < |relays| ==> relays[k] < n
    ensures Below(relays, n) == relays
  {
    if relays != [] {
      AllBelow(relays[..|relays| - 1], n);
    }
  }

  lemma {:induction false} OwedForMore(prices: seq<nat>, price: nat, relays: seq<nat>)
    requires AreNumbers(prices, relays)
    ensures AreNumbers(prices + [price], relays) && Owed(prices + [price], relays) == Owed(prices, relays)
  {
    if relays != [] {
      OwedForMore(prices, price, relays[..|relays| - 1]);
    }
  }

  lemma OwedAppend(prices: seq<nat>, relays: seq<nat>, n: nat)
    requires AreNumbers(prices, relays) && 1 <= n <= |prices|
    ensures AreNumbers(prices, relays + [n]) && Owed(prices, relays + [n]) == Owed(prices, relays) + prices[n - 1]
  {
    assert (relays + [n])[..|relays|] == relays;
  }

  lemma BelowAreNumbers(prices: seq<nat>, relays: seq<nat>, n: nat)
    requires AreNumbers(prices, relays)
    ensures AreNumbers(prices, Below(relays, n))
  {
    forall k | 0 <= k < |Below(relays, n)| ensures 1 <= Below(relays, n)[k] <= |prices| {
      assert Below(relays, n)[k] in relays;
    }
  }

  /** The total signed for the `n`-th relay: what the relays completed before it cost, and its own price. */
  ghost predicate SignedRight(prices: seq<nat>, signed: seq<nat>, completed: seq<nat>, n: nat)
    requires 1 <= n <= |prices| == |signed| && AreNumbers(prices, completed)
  {
    BelowAreNumbers(prices, completed, n);
    signed[n - 1] == Owed(prices, Below(completed, n)) + prices[n - 1]
  }

  ghost predicate PricesInv(prices: seq<nat>, st: State) {
    && |prices| == |st.signed| && AreNumbers(prices, st.succeeded)
    && st.consumer.cuSum == Owed(prices, st.succeeded)
    && (forall n :: 1 <= n <= |prices| ==> SignedRight(prices, st.signed, st.succeeded, n))
    && (st.consumer.phase.InUse? ==> |prices| >= 1 && st.consumer.latestRelayCu == prices[|prices| - 1])
  }

  lemma SignKeepsPrices(prices: seq<nat>, st: State, cu: nat)
    requires Inv(st) && PricesInv(prices, st) && !st.consumer.phase.InUse?
    ensures PricesInv(prices + [cu], Step(st, Sign(cu)))
  {
    var st', prices' := Step(st, Sign(cu)), prices + [cu];
    OwedForMore(prices, cu, st.succeeded);
    forall n | 1 <= n <= |prices'| ensures SignedRight(prices', st'.signed, st'.succeeded, n) {
      BelowAreNumbers(prices, st.succeeded, n);
      OwedForMore(prices, cu, Below(st.succeeded, n));
      if n == |prices'| {
        AllBelow(st.succeeded, n);
      } else {
        assert SignedRight(prices, st.signed, st.succeeded, n);
      }
    }
  }

  lemma DoneKeepsPrices(prices: seq<nat>, st: State)
    requires Inv(st) && PricesInv(prices, st) && st.consumer.phase.InUse?
    requires st.consumer.relayNum in st.replied
    ensures PricesInv(prices, Step(st, ConsumerDone))
  {
    var st' := Step(st, ConsumerDone);
    OwedAppend(prices, st.succeeded, st.consumer.relayNum);
    forall n | 1 <= n <= |prices| ensures SignedRight(prices, st'.signed, st'.succeeded, n) {
      assert SignedRight(prices, st.signed, st.succeeded, n);
      assert st'.succeeded[..|st'.succeeded| - 1] == st.succeeded;
    }
  }

  lemma OtherStepKeepsPrices(prices: seq<nat>, st: State, st': State)
    requires PricesInv(prices, st) && st'.signed == st.signed && st'.succeeded == st.succeeded
    requires st'.consumer.cuSum == st.consumer.cuSum
    requires st'.consumer.phase.InUse? ==> st'.consumer == st.consumer
    ensures PricesInv(prices, st')
  {
    forall n | 1 <= n <= |prices| ensures SignedRight(prices, st'.signed, st'.succeeded, n) {
      assert SignedRight(prices, st.signed, st.succeeded, n);
    }
  }

  lemma {:induction false} RunKeepsPrices(events: seq<Event>)
    ensures PricesInv(Prices(events), Run(events))
  {
    if events != [] {
      var before, e := events[..|events| - 1], events[|events| - 1];
      RunKeepsPrices(before);
      RunKeepsInv(before);
      StepKeepsPrices(Prices(before), Run(before), e);
    }
  }

  lemma StepKeepsPrices(prices: seq<nat>, st: State, e: Event)
    requires Inv(st) && PricesInv(prices, st)
    ensures PricesInv(if e.Sign? && !st.consumer.phase.InUse? then prices + [e.cu] else prices, Step(st, e))
  {
    if e.Sign? && !st.consumer.phase.InUse? {
      SignKeepsPrices(prices, st, e.cu);
    } else if e.ConsumerDone? && st.consumer.phase.InUse? && st.consumer.relayNum in st.replied {
      DoneKeepsPrices(prices, st);
    } else {
      OtherStepKeepsPrices(prices, st, Step(st, e));
    }
  }

  /**
    The consumer's sum is what the relays it completed cost, each total signed is what those completed before cost
    plus the price of the relay itself, and the provider's sum covers whatever the consumer completed.
   */
  lemma SumsArePrices(events: seq<Event>)
    ensures var st, prices := Run(events), Prices(events);
      && |prices| == |st.signed| && AreNumbers(prices, st.succeeded)
      && st.consumer.cuSum == Owed(prices, st.succeeded) <= ProviderSettled(st)
      && forall n :: 1 <= n <= |prices| ==> SignedRight(prices, st.signed, st.succeeded, n)
  {
    RunKeepsPrices(events);
    RunKeepsInv(events);
    var st := Run(events);
    TopTotalGrows(st, st.succeeded, st.consumer.cuSum, st.kept, ProviderSettled(st));
  }

  // ---- A schedule on which each relay is either delivered in full or lost altogether ---------------------

  datatype Planned = Planned(price: nat, delivered: bool)

  function EventsOf(p: Planned, n: nat): seq<Event> {
    if p.delivered then [Sign(p.price), Serve(n, true), ProviderDone, ConsumerDone] else [Sign(p.price), ConsumerFailed]
  }

  function Schedule(plan: seq<Planned>): seq<Event> {
    if plan == [] then [] else Schedule(plan[..|plan| - 1]) + EventsOf(plan[|plan| - 1], |plan|)
  }

  function Delivered(plan: seq<Planned>): nat {
    if plan == [] then 0
    else Delivered(plan[..|plan| - 1]) + if plan[|plan| - 1].delivered then plan[|plan| - 1].price else 0
  }

  /** Between relays, with both sides at the same sum. */
  predicate Settled(st: State, n: nat, sum: nat) {
    && !st.consumer.phase.InUse? && st.serving == 0 && st.providerLatestRelayCu == 0
    && st.consumer.relayNum == |st.signed| == n && st.providerRelayNum <= n
    && st.consumer.cuSum == st.providerCuSum == sum
  }

  lemma RunExtends(events: seq<Event>, e: Event)
    ensures Run(events + [e]) == Step(Run(events), e)
  {
    var all := events + [e];
    assert all[..|all| - 1] == events && all[|all| - 1] == e;
  }

  /** A relay of this price has been signed; the provider has not heard of it. */
  predicate Requested(st: State, n: nat, sum: nat, price: nat) {
    && st.consumer.phase.InUse? && st.serving == 0 && st.providerLatestRelayCu == 0
    && st.consumer.relayNum == |st.signed| == n && st.providerRelayNum < n && st.signed[n - 1] == sum + price
    && st.consumer.cuSum == st.providerCuSum == sum && st.consumer.latestRelayCu == price
  }

  /** It is served, and possibly replied to. */
  predicate Delivering(st: State, n: nat, sum: nat, price: nat, replied: bool) {
    && st.consumer.phase.InUse? && st.consumer.relayNum == |st.signed| == n
    && st.consumer.cuSum == sum && st.consumer.latestRelayCu == price && st.providerCuSum == sum + price
    && if replied then st.serving == 0 && st.providerLatestRelayCu == 0 && st.providerRelayNum == n && n in st.replied
       else st.serving == n
  }

  lemma Request(events: seq<Event>, n: nat, sum: nat, price: nat)
    requires Settled(Run(events), n, sum)
    ensures Requested(Run(events + [Sign(price)]), n + 1, sum, price)
  {
    RunExtends(events, Sign(price));
  }

  lemma Lose(events: seq<Event>, n: nat, sum: nat, price: nat)
    requires Requested(Run(events), n, sum, price)
    ensures Settled(Run(events + [ConsumerFailed]), n, sum)
  {
    RunExtends(events, ConsumerFailed);
  }

  lemma Deliver(events: seq<Event>, n: nat, sum: nat, price: nat)
    requires n >= 1 && Requested(Run(events), n, sum, price)
    ensures Delivering(Run(events + [Serve(n, true)]), n, sum, price, false)
  {
    RunExtends(events, Serve(n, true));
  }

  lemma Reply(events: seq<Event>, n: nat, sum: nat, price: nat)
    requires n >= 1 && Delivering(Run(events), n, sum, price, false)
    ensures Delivering(Run(events + [ProviderDone]), n, sum, price, true)
  {
    RunExtends(events, ProviderDone);
  }

  lemma Complete(events: seq<Event>, n: nat, sum: nat, price: nat)
    requires n >= 1 && Delivering(Run(events), n, sum, price, true)
    ensures Settled(Run(events + [ConsumerDone]), n, sum + price)
  {
    RunExtends(events, ConsumerDone);
  }

  /** However many relays are lost, the next one delivered is served, and both sums are what was delivered. */
  lemma {:induction false} ScheduleIsServed(plan: seq<Planned>)
    ensures Settled(Run(Schedule(plan)), |plan|, Delivered(plan))
  {
    if plan != [] {
      var p, n, sum := plan[|plan| - 1], |plan|, Delivered(plan[..|plan| - 1]);
      var start := Schedule(plan[..|plan| - 1]);
      ScheduleIsServed(plan[..|plan| - 1]);
      Request(start, n - 1, sum, p.price);
      var signed := start + [Sign(p.price)];
      if p.delivered {
        Deliver(signed, n, sum, p.price);
        Reply(signed + [Serve(n, true)], n, sum, p.price);
        Complete(signed + [Serve(n, true)] + [ProviderDone], n, sum, p.price);
        assert signed + [Serve(n, true)] + [ProviderDone] + [ConsumerDone] == start + EventsOf(p, n);
      } else {
        Lose(signed, n, sum, p.price);
        assert signed + [ConsumerFailed] == start + EventsOf(p, n);
      }
    }
  }

  /** Relays are closed in increasing order on both sides, each at most once, and only known relays. */
  lemma ClosedRelaysIncrease(events: seq<Event>)
    ensures var st := Run(events);
      && Increasing(st.kept) && Increasing(st.succeeded)
      && (forall n :: n in st.succeeded ==> n in st.kept)
      && (forall n :: n in st.kept ==> 1 <= n <= |st.signed|)
  {
    RunKeepsInv(events);
  }

  /** A lost reply does leave the provider ahead, so the condition of `SumsEqualIff` can fail. */
  lemma LostReplyLeavesProviderAhead()
    ensures var st := Run([Sign(10), Serve(1, true), ProviderDone, ConsumerFailed]);
      st.consumer.cuSum == 0 && st.providerCuSum == 10 && st.serving == 0 && !st.consumer.phase.InUse?
  {
    var e0, e1, e2, e3 := Sign(10), Serve(1, true), ProviderDone, ConsumerFailed;
    var s1 := Step(FRESH, e0);
    var s2 := Step(s1, e1);
    assert [e0, e1, e2, e3][..3] == [e0, e1, e2] && [e0, e1, e2][..2] == [e0, e1];
    assert [e0, e1][..1] == [e0] && [e0][..0] == [];
    assert Run([e0]) == s1;
    assert Run([e0, e1]) == s2;
    assert Run([e0, e1, e2]) == Step(s2, e2);
  }
}
