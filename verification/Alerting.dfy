/**
  Alert suppression by occurrence. Counters kept per alert and entity are to let an alert through only
  once it has been raised in enough rounds, and to report a recovery only once it has been absent from
  enough rounds. They implement an automaton with two states, stated below over whole histories.
 */
module Alerting {
  import opened Common

  datatype AlertEntry = AlertEntry(alertType: string, entity: string)

  datatype AlertCount = AlertCount(active: nat, recovery: nat)

  // ---- One alert of one entity: history, automaton, counters -----------------------------------------

  /** The rounds from..to all were alerting (or all clear). */
  predicate Steady(h: seq<bool>, from: nat, to: nat, alerting: bool)
    requires from <= to <= |h|
  {
    forall i :: from <= i < to ==> h[i] == alerting
  }

  /** The last `t` of the first `n` rounds all were alerting (or all clear). */
  predicate RunEnds(h: seq<bool>, t: nat, n: nat, alerting: bool) {
    t <= n <= |h| && Steady(h, n - t, n, alerting)
  }

  ghost predicate ClearedAfter(h: seq<bool>, t: nat, n: nat) {
    exists f: nat :: n + t <= f && RunEnds(h, t, f, false)
  }

  /** Some `t` rounds in a row were alerting, and since then no `t` rounds in a row were clear. */
  ghost predicate On(h: seq<bool>, t: nat) {
    exists n: nat :: RunEnds(h, t, n, true) && !ClearedAfter(h, t, n)
  }

  /** How many of the last rounds were all alerting (or all clear). */
  function Trailing(h: seq<bool>, alerting: bool): (n: nat)
    ensures n <= |h| && Steady(h, |h| - n, |h|, alerting)
    ensures n < |h| ==> h[|h| - n - 1] != alerting
  {
    if h == [] || h[|h| - 1] != alerting then 0
    else
      var n := Trailing(h[..|h| - 1], alerting);
      1 + n
  }

  function Bump(c: Option<AlertCount>): AlertCount {
    match c
    case None => AlertCount(1, 0)
    case Some(c) => AlertCount(c.active + 1, c.recovery)
  }

  /** The counters after a round with the alert. */
  function Alerted(c: Option<AlertCount>): Option<AlertCount> { Some(AlertCount(Bump(c).active, 0)) }

  /** The counters after a round without it. */
  function Cleared(c: Option<AlertCount>, t: nat): Option<AlertCount> {
    match c
    case None => None
    case Some(c) =>
      if c.recovery + 1 >= t then None
      else Some(AlertCount(if c.active < t then 0 else c.active, c.recovery + 1))
  }

  function CountsAfter(h: seq<bool>, t: nat): Option<AlertCount> {
    if h == [] then None
    else if h[|h| - 1] then Alerted(CountsAfter(h[..|h| - 1], t))
    else Cleared(CountsAfter(h[..|h| - 1], t), t)
  }

  lemma RunEndsInPrefix(h: seq<bool>, b: bool, t: nat, n: nat, alerting: bool)
    requires n <= |h|
    ensures RunEnds(h + [b], t, n, alerting) <==> RunEnds(h, t, n, alerting)
  {
    assert forall i :: 0 <= i < |h| ==> (h + [b])[i] == h[i];
  }

  lemma TrailingIsRun(h: seq<bool>, t: nat, alerting: bool)
    ensures Trailing(h, alerting) >= t <==> RunEnds(h, t, |h|, alerting)
  {
    var n := Trailing(h, alerting);
    if n < t <= |h| {
      assert |h| - t <= |h| - n - 1 < |h|;
    }
  }

  /** An alerting round leaves the automaton on, or turns it on as the `t`-th in a row. */
  lemma OnAfterAlert(h: seq<bool>, t: nat)
    requires t >= 1
    ensures On(h + [true], t) <==> On(h, t) || Trailing(h + [true], true) >= t
  {
    var h' := h + [true];
    forall n: nat ensures ClearedAfter(h', t, n) <==> ClearedAfter(h, t, n) {
      SameClears(h, t, n);
    }
    TrailingIsRun(h', t, true);
    forall n: nat | n <= |h| ensures RunEnds(h', t, n, true) <==> RunEnds(h, t, n, true) {
      RunEndsInPrefix(h, true, t, n, true);
    }
    if On(h, t) {
      var n: nat :| RunEnds(h, t, n, true) && !ClearedAfter(h, t, n);
      assert RunEnds(h', t, n, true);
    }
    if Trailing(h', true) >= t {
      assert RunEnds(h', t, |h'|, true) && !ClearedAfter(h', t, |h'|);
    }
  }

  lemma LastOfRun(h: seq<bool>, t: nat, n: nat, alerting: bool)
    requires t >= 1 && RunEnds(h, t, n, alerting)
    ensures h[n - 1] == alerting
  {}

  lemma SameClears(h: seq<bool>, t: nat, n: nat)
    requires t >= 1
    ensures ClearedAfter(h + [true], t, n) <==> ClearedAfter(h, t, n)
  {
    var h' := h + [true];
    if ClearedAfter(h', t, n) {
      var f: nat :| n + t <= f && RunEnds(h', t, f, false);
      LastOfRun(h', t, f, false);
      RunEndsInPrefix(h, true, t, f, false);
    }
    if ClearedAfter(h, t, n) {
      var f: nat :| n + t <= f && RunEnds(h, t, f, false);
      RunEndsInPrefix(h, true, t, f, false);
    }
  }

  /** A clear round leaves it on unless it is the `t`-th in a row. */
  lemma OnAfterClear(h: seq<bool>, t: nat)
    requires t >= 1
    ensures On(h + [false], t) <==> On(h, t) && Trailing(h + [false], false) < t
  {
    var h' := h + [false];
    TrailingIsRun(h', t, false);
    if On(h', t) {
      var n: nat :| RunEnds(h', t, n, true) && !ClearedAfter(h', t, n);
      RunBeforeClear(h, t, n);
      RunEndsInPrefix(h, false, t, n, true);
      if ClearedAfter(h, t, n) {
        var f: nat :| n + t <= f && RunEnds(h, t, f, false);
        RunEndsInPrefix(h, false, t, f, false);
      }
    }
    if On(h, t) && Trailing(h', false) < t {
      var n: nat :| RunEnds(h, t, n, true) && !ClearedAfter(h, t, n);
      RunEndsInPrefix(h, false, t, n, true);
      if ClearedAfter(h', t, n) {
        var f: nat :| n + t <= f && RunEnds(h', t, f, false);
        RunEndsInPrefix(h, false, t, f, false);
      }
      assert RunEnds(h', t, n, true);
    }
  }

  /** A run of alerting rounds ends before any run of clear ones at the end. */
  lemma RunBeforeClear(h: seq<bool>, t: nat, n: nat)
    requires t >= 1 && RunEnds(h + [false], t, n, true)
    ensures n <= |h|
    ensures RunEnds(h + [false], t, |h| + 1, false) ==> n + t <= |h| + 1
  {
    assert (h + [false])[n - 1];
  }

  /**
    The counters show the automaton's state: on exactly when the first has reached the threshold; while off
    it counts the alerting rounds in a row; the second counts the clear rounds in a row.
   */
  lemma {:induction false} CountersShowState(h: seq<bool>, t: nat)
    requires t >= 2
    ensures var c := CountsAfter(h, t);
      && (On(h, t) <==> c.Some? && c.value.active >= t)
      && (c.Some? ==> c.value.recovery == Trailing(h, false) < t)
      && (!On(h, t) ==> Trailing(h, true) == if c.Some? then c.value.active else 0)
  {
    if h == [] {
      return;
    }
    var before := h[..|h| - 1];
    assert h == before + [h[|h| - 1]];
    CountersShowState(before, t);
    if h[|h| - 1] {
      OnAfterAlert(before, t);
    } else {
      OnAfterClear(before, t);
    }
  }

  // ---- The counters of all alerts -------------------------------------------------------------------

  datatype AlertAttribute = AlertAttribute(entity: string, data: string)

  datatype Report = Report(alert: string, attributes: seq<AlertAttribute>)

  type Counts = map<AlertEntry, AlertCount>

  function Get(m: Counts, e: AlertEntry): Option<AlertCount> { if e in m then Some(m[e]) else None }

  function EntryOf(r: Report, i: nat): AlertEntry
    requires i < |r.attributes|
  {
    AlertEntry(r.alert, r.attributes[i].entity)
  }

  function Entries(r: Report): set<AlertEntry> { set i | 0 <= i < |r.attributes| :: EntryOf(r, i) }

  /** The counters once the first `n` attributes were counted, one by one. */
  function Bumped(m: Counts, r: Report, n: nat): Counts
    requires n <= |r.attributes|
  {
    if n == 0 then m
    else
      var before := Bumped(m, r, n - 1);
      before[EntryOf(r, n - 1) := Bump(Get(before, EntryOf(r, n - 1)))]
  }

  /** Those of the first `n` attributes whose count had reached the threshold when they were counted. */
  function Passed(m: Counts, r: Report, n: nat, t: nat): seq<AlertAttribute>
    requires n <= |r.attributes|
  {
    if n == 0 then []
    else
      var before := Passed(m, r, n - 1, t);
      if Bump(Get(Bumped(m, r, n - 1), EntryOf(r, n - 1))).active >= t then before + [r.attributes[n - 1]] else before
  }

  /** No entity is reported twice. */
  predicate Once(r: Report) {
    forall i, j :: 0 <= i < j < |r.attributes| ==> r.attributes[i].entity != r.attributes[j].entity
  }

  predicate AmongFirst(r: Report, n: nat, e: AlertEntry)
    requires n <= |r.attributes|
  {
    exists i :: 0 <= i < n && EntryOf(r, i) == e
  }

  lemma AmongAll(r: Report, e: AlertEntry)
    ensures AmongFirst(r, |r.attributes|, e) <==> e in Entries(r)
  {}

  lemma {:induction false} BumpedOnce(m: Counts, r: Report, n: nat, e: AlertEntry)
    requires Once(r) && n <= |r.attributes|
    ensures Get(Bumped(m, r, n), e) == if AmongFirst(r, n, e) then Some(Bump(Get(m, e))) else Get(m, e)
  {
    if n > 0 {
      BumpedOnce(m, r, n - 1, e);
      assert EntryOf(r, n - 1) == e ==> !AmongFirst(r, n - 1, e);
    }
  }

  lemma {:induction false} PassedOnce(m: Counts, r: Report, n: nat, t: nat, x: AlertAttribute)
    requires Once(r) && n <= |r.attributes|
    ensures x in Passed(m, r, n, t) <==>
      exists i :: 0 <= i < n && r.attributes[i] == x && Bump(Get(m, EntryOf(r, i))).active >= t
  {
    if n > 0 {
      PassedOnce(m, r, n - 1, t, x);
      BumpedOnce(m, r, n - 1, EntryOf(r, n - 1));
      assert !AmongFirst(r, n - 1, EntryOf(r, n - 1));
    }
  }

  function Sent(r: Report, filtered: seq<AlertAttribute>): set<AlertEntry> {
    set x | x in filtered :: AlertEntry(r.alert, x.entity)
  }

  lemma AllSent(r: Report)
    ensures Sent(r, r.attributes) == Entries(r)
  {
    forall e ensures e in Sent(r, r.attributes) <==> e in Entries(r) {
      if e in Sent(r, r.attributes) {
        var x :| x in r.attributes && AlertEntry(r.alert, x.entity) == e;
        var i :| 0 <= i < |r.attributes| && r.attributes[i] == x;
        assert EntryOf(r, i) == e;
      }
      if e in Entries(r) {
        var i :| 0 <= i < |r.attributes| && EntryOf(r, i) == e;
        assert r.attributes[i] in r.attributes;
      }
    }
  }

  lemma SentOnce(m: Counts, r: Report, t: nat, e: AlertEntry)
    requires Once(r)
    ensures e in Sent(r, Passed(m, r, |r.attributes|, t)) <==> e in Entries(r) && Bump(Get(m, e)).active >= t
  {
    var n := |r.attributes|;
    forall x ensures x in Passed(m, r, n, t) <==>
      exists i :: 0 <= i < n && r.attributes[i] == x && Bump(Get(m, EntryOf(r, i))).active >= t
    {
      PassedOnce(m, r, n, t, x);
    }
    if e in Entries(r) && Bump(Get(m, e)).active >= t {
      var i :| 0 <= i < n && EntryOf(r, i) == e;
      assert r.attributes[i] in Passed(m, r, n, t);
    }
  }

  /** No alert is raised twice for one entity in the same round. */
  predicate OnceEach(reports: seq<Report>) {
    && (forall i :: 0 <= i < |reports| ==> Once(reports[i]))
    && (forall i, j :: 0 <= i < j < |reports| ==> Entries(reports[i]) !! Entries(reports[j]))
  }

  function Raised(reports: seq<Report>, n: nat): (raised: set<AlertEntry>)
    requires n <= |reports|
    ensures forall i :: 0 <= i < n ==> Entries(reports[i]) <= raised
  {
    if n == 0 then {} else Raised(reports, n - 1) + Entries(reports[n - 1])
  }

  lemma RaisedAreNew(reports: seq<Report>, n: nat, k: nat)
    requires n <= k < |reports| && OnceEach(reports)
    ensures Raised(reports, n) !! Entries(reports[k])
  {
    if n > 0 {
      RaisedAreNew(reports, n - 1, k);
    }
  }

  /** The counters in the middle of a round: those raised so far have been counted once. */
  ghost predicate Counted(m: Counts, start: Counts, raised: set<AlertEntry>) {
    forall e :: Get(m, e) == if e in raised then Some(Bump(Get(start, e))) else Get(start, e)
  }

  ghost predicate SentAtThreshold(sent: set<AlertEntry>, start: Counts, raised: set<AlertEntry>, t: nat) {
    forall e :: e in sent <==> e in raised && Bump(Get(start, e)).active >= t
  }

  /** One entry over one whole round, from its counters at the start to those at the end. */
  lemma RoundOfEntry(h: seq<bool>, raised: bool, t: nat, start: Option<AlertCount>, end: Option<AlertCount>)
    requires t >= 2 && start == CountsAfter(h, t)
    requires end == if raised then Alerted(start) else Cleared(start, t)
    ensures end == CountsAfter(h + [raised], t)
    ensures raised ==> (On(h + [raised], t) <==> Bump(start).active >= t)
    ensures (start.Some? && start.value.active >= t && end.None?) <==> On(h, t) && !On(h + [raised], t)
  {
    assert (h + [raised])[..|h|] == h;
    CountersShowState(h, t);
    CountersShowState(h + [raised], t);
  }

  /** The rounds so far, as one entry saw them. */
  function Signal(history: seq<set<AlertEntry>>, e: AlertEntry): (h: seq<bool>)
    ensures |h| == |history| && forall i :: 0 <= i < |h| ==> h[i] == (e in history[i])
  {
    seq(|history|, i requires 0 <= i < |history| => e in history[i])
  }

  lemma SignalGrows(history: seq<set<AlertEntry>>, raised: set<AlertEntry>, e: AlertEntry)
    ensures Signal(history + [raised], e) == Signal(history, e) + [e in raised]
  {}

  class Alerting {
    const suppressionCounterThreshold: nat
    var activeAlerts: Counts
    var currentAlerts: set<AlertEntry>
    var suppressedAlerts: nat
    // the alerts raised in each round
    ghost var history: seq<set<AlertEntry>>

    constructor (suppressionCounterThreshold: nat)
      ensures Valid() && history == [] && this.suppressionCounterThreshold == suppressionCounterThreshold
    {
      this.suppressionCounterThreshold := suppressionCounterThreshold;
      activeAlerts, currentAlerts, suppressedAlerts, history := map[], {}, 0, [];
    }

    ghost predicate Valid()
      reads this
    {
      if suppressionCounterThreshold <= 1 then activeAlerts == map[]
      else forall e :: Get(activeAlerts, e) == CountsAfter(Signal(history, e), suppressionCounterThreshold)
    }

    method FilterOccurenceSuppresedAlerts(r: Report) returns (filtered: seq<AlertAttribute>)
      modifies this`activeAlerts, this`currentAlerts, this`suppressedAlerts
      ensures suppressionCounterThreshold <= 1 ==>
        filtered == r.attributes && activeAlerts == old(activeAlerts) && currentAlerts == old(currentAlerts)
      ensures suppressionCounterThreshold > 1 ==>
        && activeAlerts == Bumped(old(activeAlerts), r, |r.attributes|)
        && currentAlerts == old(currentAlerts) + Entries(r)
        && filtered == Passed(old(activeAlerts), r, |r.attributes|, suppressionCounterThreshold)
      ensures suppressedAlerts == old(suppressedAlerts) + |r.attributes| - |filtered|
    {
      if suppressionCounterThreshold <= 1 {
        return r.attributes;
      }
      filtered := [];
      for i := 0 to |r.attributes|
        invariant activeAlerts == Bumped(old(activeAlerts), r, i)
        invariant forall e :: e in currentAlerts <==> e in old(currentAlerts) || AmongFirst(r, i, e)
        invariant filtered == Passed(old(activeAlerts), r, i, suppressionCounterThreshold)
        invariant suppressedAlerts == old(suppressedAlerts) + i - |filtered|
      {
        var entry := EntryOf(r, i);
        var alertCount := if entry in activeAlerts then activeAlerts[entry] else AlertCount(0, 0);
        alertCount := alertCount.(active := alertCount.active + 1);
        currentAlerts := currentAlerts + {entry};
        activeAlerts := activeAlerts[entry := alertCount];
        if alertCount.active >= suppressionCounterThreshold {
          filtered := filtered + [r.attributes[i]];
          continue;
        }
        suppressedAlerts := suppressedAlerts + 1;
      }
    }

    /** What the end of the round makes of an entry's counters. */
    function Reviewed(c: AlertCount, current: bool): AlertCount {
      if current then AlertCount(c.active, 0)
      else if c.recovery + 1 >= suppressionCounterThreshold then AlertCount(c.active, c.recovery + 1)
      else if c.active < suppressionCounterThreshold then AlertCount(0, c.recovery + 1)
      else AlertCount(c.active, c.recovery + 1)
    }

    function Expired(c: AlertCount, current: bool): bool {
      !current && c.recovery + 1 >= suppressionCounterThreshold
    }

    /** Entries without an alert in this round count towards recovery; the others start over. */
    method ReviewCounts() returns (keysToDelete: set<AlertEntry>)
      modifies this`activeAlerts
      ensures activeAlerts.Keys == old(activeAlerts).Keys
      ensures forall e :: e in activeAlerts ==> activeAlerts[e] == Reviewed(old(activeAlerts)[e], e in currentAlerts)
      ensures forall e :: e in keysToDelete <==>
        e in old(activeAlerts) && Expired(old(activeAlerts)[e], e in currentAlerts)
    {
      keysToDelete := {};
      ghost var before := activeAlerts;
      var left := activeAlerts.Keys;
      while left != {}
        invariant left <= before.Keys == activeAlerts.Keys
        invariant forall e :: e in before ==>
          activeAlerts[e] == if e in left then before[e] else Reviewed(before[e], e in currentAlerts)
        invariant forall e :: e in keysToDelete <==> e in before && e !in left && Expired(before[e], e in currentAlerts)
        decreases left
      {
        var entry :| entry in left;
        var count := activeAlerts[entry];
        if entry !in currentAlerts {
          count := count.(recovery := count.recovery + 1);
          if count.recovery >= suppressionCounterThreshold {
            keysToDelete := keysToDelete + {entry};
          } else if count.active < suppressionCounterThreshold {
            count := count.(active := 0);
          }
          activeAlerts := activeAlerts[entry := count];
        } else {
          activeAlerts := activeAlerts[entry := count.(recovery := 0)];
        }
        left := left - {entry};
      }
    }

    method SendRecoveryAlerts(alertEntries: set<AlertEntry>) returns (recovered: set<AlertEntry>)
      ensures forall e :: e in recovered <==>
        e in alertEntries && e in activeAlerts && activeAlerts[e].active >= suppressionCounterThreshold
    {
      recovered := {};
      var left := alertEntries;
      while left != {}
        invariant left <= alertEntries
        invariant forall e :: e in recovered <==>
          e in alertEntries - left && e in activeAlerts && activeAlerts[e].active >= suppressionCounterThreshold
        decreases left
      {
        var entry :| entry in left;
        left := left - {entry};
        if entry !in activeAlerts {
          continue;
        }
        if activeAlerts[entry].active < suppressionCounterThreshold {
          continue;
        }
        recovered := recovered + {entry};
      }
    }

    method SendAlert(r: Report) returns (sent: set<AlertEntry>)
      requires Once(r)
      modifies this`activeAlerts, this`currentAlerts, this`suppressedAlerts
      ensures suppressionCounterThreshold <= 1 ==>
        sent == Entries(r) && activeAlerts == old(activeAlerts) && currentAlerts == old(currentAlerts)
      ensures suppressionCounterThreshold > 1 ==>
        && Counted(activeAlerts, old(activeAlerts), Entries(r))
        && currentAlerts == old(currentAlerts) + Entries(r)
        && SentAtThreshold(sent, old(activeAlerts), Entries(r), suppressionCounterThreshold)
    {
      ghost var start := activeAlerts;
      var filtered := FilterOccurenceSuppresedAlerts(r);
      sent := Sent(r, filtered);
      if suppressionCounterThreshold <= 1 {
        AllSent(r);
        return;
      }
      forall e
        ensures Get(activeAlerts, e) == if e in Entries(r) then Some(Bump(Get(start, e))) else Get(start, e)
        ensures e in sent <==> e in Entries(r) && Bump(Get(start, e)).active >= suppressionCounterThreshold
      {
        BumpedOnce(start, r, |r.attributes|, e);
        AmongAll(r, e);
        SentOnce(start, r, suppressionCounterThreshold, e);
      }
    }

    method SendAlerts(reports: seq<Report>) returns (sent: set<AlertEntry>)
      requires OnceEach(reports)
      modifies this`activeAlerts, this`currentAlerts, this`suppressedAlerts
      ensures suppressionCounterThreshold <= 1 ==>
        sent == Raised(reports, |reports|) && activeAlerts == old(activeAlerts)
      ensures suppressionCounterThreshold > 1 ==>
        && Counted(activeAlerts, old(activeAlerts), Raised(reports, |reports|))
        && currentAlerts == Raised(reports, |reports|)
        && SentAtThreshold(sent, old(activeAlerts), Raised(reports, |reports|), suppressionCounterThreshold)
    {
      ghost var start := activeAlerts;
      currentAlerts := {};
      sent := {};
      for k := 0 to |reports|
        invariant suppressionCounterThreshold <= 1 ==> sent == Raised(reports, k) && activeAlerts == start
        invariant suppressionCounterThreshold > 1 ==>
          && Counted(activeAlerts, start, Raised(reports, k))
          && currentAlerts == Raised(reports, k)
          && SentAtThreshold(sent, start, Raised(reports, k), suppressionCounterThreshold)
      {
        RaisedAreNew(reports, k, k);
        var now := SendAlert(reports[k]);
        sent := sent + now;
      }
    }

    /** The end of a round: review the counters, report recoveries, and drop what has recovered. */
    method FinishRound() returns (recovered: set<AlertEntry>)
      modifies this`activeAlerts
      ensures forall e :: e !in old(activeAlerts) ==> e !in activeAlerts && e !in recovered
      ensures forall e :: e in old(activeAlerts) ==>
        var c := old(activeAlerts)[e];
        && Get(activeAlerts, e) ==
           (if e in currentAlerts then Some(AlertCount(c.active, 0)) else Cleared(Some(c), suppressionCounterThreshold))
        && (e in recovered <==>
          e !in currentAlerts && c.active >= suppressionCounterThreshold && Get(activeAlerts, e).None?)
    {
      ghost var before := activeAlerts;
      var keysToDelete := ReviewCounts();
      recovered := SendRecoveryAlerts(keysToDelete);
      activeAlerts := activeAlerts - keysToDelete;
    }

    /**
      One round. An alert goes out exactly when it is raised now and the automaton of its entry is on; a
      recovery exactly when the automaton has just been switched off.
     */
    method CheckHealthResults(reports: seq<Report>) returns (sent: set<AlertEntry>, recovered: set<AlertEntry>)
      requires Valid() && OnceEach(reports)
      modifies this
      ensures Valid() && history == old(history) + [Raised(reports, |reports|)]
      ensures suppressionCounterThreshold <= 1 ==> sent == Raised(reports, |reports|) && recovered == {}
      ensures suppressionCounterThreshold >= 2 ==> forall e ::
        e in sent <==> e in Raised(reports, |reports|) && On(Signal(history, e), suppressionCounterThreshold)
      ensures suppressionCounterThreshold >= 2 ==> forall e ::
        e in recovered <==>
          On(Signal(old(history), e), suppressionCounterThreshold) &&
          !On(Signal(history, e), suppressionCounterThreshold)
    {
      ghost var start, earlier, raised := activeAlerts, history, Raised(reports, |reports|);
      sent := SendAlerts(reports);
      recovered := FinishRound();
      history := history + [raised];
      if suppressionCounterThreshold <= 1 {
        return;
      }
      forall e
        ensures Get(activeAlerts, e) == CountsAfter(Signal(history, e), suppressionCounterThreshold)
        ensures e in sent <==> e in raised && On(Signal(history, e), suppressionCounterThreshold)
        ensures e in recovered <==>
          On(Signal(earlier, e), suppressionCounterThreshold) && !On(Signal(history, e), suppressionCounterThreshold)
      {
        SignalGrows(earlier, raised, e);
        RoundOfEntry(Signal(earlier, e), e in raised, suppressionCounterThreshold, Get(start, e), Get(activeAlerts, e));
      }
    }
  }
}
