/**
  The consumer's record of finalized block hashes. Reports that agree are merged into one group; a report
  that contradicts every group starts a new one; groups of the previous epoch are kept for comparison.
 */
module FinalizationConsensus {
  import opened Common

  type Hashes = map<int, string>

  datatype Report = Report(provider: string, hashes: Hashes, latestBlock: int)

  /** `agreeing` holds, for each provider of the group, its latest finalized block. */
  datatype Group = Group(hashes: Hashes, agreeing: map<string, int>)

  datatype State = State(current: seq<Group>, prev: seq<Group>, epoch: nat)

  /** Both maps know some block, with different hashes. */
  predicate Disagree(a: Hashes, b: Hashes) {
    exists k :: k in a && k in b && a[k] != b[k]
  }

  predicate Contains(a: Hashes, b: Hashes) {
    forall k :: k in b ==> k in a && a[k] == b[k]
  }

  function LatestFinalizedBlock(latestBlock: int, distance: int): int { latestBlock - distance }

  function NewGroup(r: Report, distance: int): Group {
    Group(r.hashes, map[r.provider := LatestFinalizedBlock(r.latestBlock, distance)])
  }

  function Insert(g: Group, r: Report, distance: int): Group {
    Group(g.hashes + r.hashes, g.agreeing[r.provider := LatestFinalizedBlock(r.latestBlock, distance)])
  }

  /** The first group the map does not contradict, or the number of groups. */
  function FirstAgreeing(groups: seq<Group>, m: Hashes): (i: nat)
    ensures i <= |groups|
    ensures i < |groups| ==> !Disagree(m, groups[i].hashes)
    ensures forall j :: 0 <= j < i ==> Disagree(m, groups[j].hashes)
  {
    if groups == [] || !Disagree(m, groups[0].hashes) then 0
    else
      var i := FirstAgreeing(groups[1..], m);
      assert forall j :: 0 < j < 1 + i ==> groups[j] == groups[1..][j - 1];
      1 + i
  }

  predicate Contradicts(m: Hashes, groups: seq<Group>) {
    exists i :: 0 <= i < |groups| && Disagree(m, groups[i].hashes)
  }

  /** Where a report goes: the first group it fits, or a group of its own. */
  function Record(groups: seq<Group>, r: Report, distance: int): seq<Group> {
    var i := FirstAgreeing(groups, r.hashes);
    if i < |groups| then groups[i := Insert(groups[i], r, distance)] else groups + [NewGroup(r, distance)]
  }

  datatype Event = Update(report: Report, distance: int) | NewEpoch(epoch: nat)

  function Step(st: State, e: Event): State {
    match e
    case Update(r, distance) => st.(current := Record(st.current, r, distance))
    case NewEpoch(epoch) => if st.epoch < epoch then State([], st.current, epoch) else st
  }

  function Run(events: seq<Event>): State {
    if events == [] then State([], [], 0) else Step(Run(events[..|events| - 1]), events[|events| - 1])
  }

  /** The largest epoch announced. */
  function Announced(events: seq<Event>): nat {
    if events == [] then 0
    else
      var before, e := Announced(events[..|events| - 1]), events[|events| - 1];
      if e.NewEpoch? && e.epoch > before then e.epoch else before
  }

  /** The reports made since the last change of epoch, and those made between the last two. */
  function Recorded(events: seq<Event>): (seq<Report>, seq<Report>) {
    if events == [] then ([], [])
    else
      var (current, prev) := Recorded(events[..|events| - 1]);
      match events[|events| - 1]
      case Update(r, _) => (current + [r], prev)
      case NewEpoch(epoch) => if Announced(events[..|events| - 1]) < epoch then ([], current) else (current, prev)
  }

  predicate ContradictsReports(m: Hashes, reports: seq<Report>) {
    exists i :: 0 <= i < |reports| && Disagree(m, reports[i].hashes)
  }

  // ---- The groups stand for the reports -----------------------------------------------------------

  /** Some report gave this hash for this block. */
  predicate Reported(reports: seq<Report>, block: int, hash: string) {
    exists i :: 0 <= i < |reports| && block in reports[i].hashes && reports[i].hashes[block] == hash
  }

  predicate Covered(r: Report, groups: seq<Group>) {
    exists i :: 0 <= i < |groups| && Contains(groups[i].hashes, r.hashes)
  }

  ghost predicate StandFor(groups: seq<Group>, reports: seq<Report>) {
    && (forall i :: 0 <= i < |reports| ==> Covered(reports[i], groups))
    && (forall i, k :: 0 <= i < |groups| && k in groups[i].hashes ==> Reported(reports, k, groups[i].hashes[k]))
  }

  ghost predicate PairwiseConflicting(groups: seq<Group>) {
    forall i, j :: 0 <= i < j < |groups| ==> Disagree(groups[i].hashes, groups[j].hashes)
  }

  lemma InsertGrows(g: Group, r: Report, distance: int)
    requires !Disagree(r.hashes, g.hashes)
    ensures Contains(Insert(g, r, distance).hashes, g.hashes)
    ensures Contains(Insert(g, r, distance).hashes, r.hashes)
  {}

  /** Once a group has a hash for a block, recording any report leaves it. */
  lemma RecordKeepsHashes(groups: seq<Group>, r: Report, distance: int, i: nat)
    requires i < |groups|
    ensures i < |Record(groups, r, distance)|
    ensures Contains(Record(groups, r, distance)[i].hashes, groups[i].hashes)
  {
    if i == FirstAgreeing(groups, r.hashes) {
      InsertGrows(groups[i], r, distance);
    }
  }

  lemma DisagreementStays(a: Hashes, b: Hashes, a': Hashes, b': Hashes)
    requires Disagree(a, b) && Contains(a', a) && Contains(b', b)
    ensures Disagree(a', b')
  {
    var k :| k in a && k in b && a[k] != b[k];
    assert k in a' && k in b' && a'[k] != b'[k];
  }

  lemma RecordKeepsConflicts(groups: seq<Group>, r: Report, distance: int)
    requires PairwiseConflicting(groups)
    ensures PairwiseConflicting(Record(groups, r, distance))
  {
    var groups' := Record(groups, r, distance);
    forall i, j | 0 <= i < j < |groups'| ensures Disagree(groups'[i].hashes, groups'[j].hashes) {
      RecordKeepsHashes(groups, r, distance, i);
      if j < |groups| {
        RecordKeepsHashes(groups, r, distance, j);
        DisagreementStays(groups[i].hashes, groups[j].hashes, groups'[i].hashes, groups'[j].hashes);
      } else {
        var k :| k in r.hashes && k in groups[i].hashes && r.hashes[k] != groups[i].hashes[k];
        assert k in groups'[i].hashes && k in groups'[j].hashes;
      }
    }
  }

  lemma RecordCovers(groups: seq<Group>, reports: seq<Report>, r: Report, distance: int)
    requires StandFor(groups, reports)
    ensures forall i :: 0 <= i < |reports + [r]| ==> Covered((reports + [r])[i], Record(groups, r, distance))
  {
    var groups' := Record(groups, r, distance);
    forall i | 0 <= i < |reports + [r]| ensures Covered((reports + [r])[i], groups') {
      if i < |reports| {
        assert Covered(reports[i], groups);
        var g :| 0 <= g < |groups| && Contains(groups[g].hashes, reports[i].hashes);
        RecordKeepsHashes(groups, r, distance, g);
        assert Contains(groups'[g].hashes, reports[i].hashes);
      } else {
        var g := FirstAgreeing(groups, r.hashes);
        assert Contains(groups'[g].hashes, r.hashes);
      }
    }
  }

  lemma ReportedStays(reports: seq<Report>, r: Report, block: int, hash: string)
    ensures Reported(reports, block, hash) ==> Reported(reports + [r], block, hash)
    ensures block in r.hashes && r.hashes[block] == hash ==> Reported(reports + [r], block, hash)
  {
    var all := reports + [r];
    if Reported(reports, block, hash) {
      var i :| 0 <= i < |reports| && block in reports[i].hashes && reports[i].hashes[block] == hash;
      assert all[i] == reports[i];
    }
    assert all[|reports|] == r;
  }

  lemma RecordStandsFor(groups: seq<Group>, reports: seq<Report>, r: Report, distance: int)
    requires StandFor(groups, reports)
    ensures StandFor(Record(groups, r, distance), reports + [r])
  {
    var groups' := Record(groups, r, distance);
    RecordCovers(groups, reports, r, distance);
    forall i, k | 0 <= i < |groups'| && k in groups'[i].hashes
      ensures Reported(reports + [r], k, groups'[i].hashes[k])
    {
      ReportedStays(reports, r, k, groups'[i].hashes[k]);
      if i < |groups| && k in groups[i].hashes {
        RecordKeepsHashes(groups, r, distance, i);
        assert Reported(reports, k, groups[i].hashes[k]);
      }
    }
  }

  /** Announcements of older epochs are ignored: the epoch is the largest one announced. */
  lemma {:induction false} EpochIsLargest(events: seq<Event>)
    ensures Run(events).epoch == Announced(events)
    ensures forall k :: 0 <= k < |events| && events[k].NewEpoch? ==> events[k].epoch <= Announced(events)
    ensures Announced(events) == 0 || exists k :: 0 <= k < |events| && events[k] == NewEpoch(Announced(events))
  {
    if events != [] {
      var before, n := events[..|events| - 1], |events| - 1;
      EpochIsLargest(before);
      forall k | 0 <= k < |events| && events[k].NewEpoch? ensures events[k].epoch <= Announced(events) {
        assert k < n ==> before[k] == events[k];
      }
      if Announced(events) == Announced(before) != 0 {
        var k :| 0 <= k < |before| && before[k] == NewEpoch(Announced(before));
        assert events[k] == NewEpoch(Announced(events));
      }
    }
  }

  lemma {:induction false} RunStandsFor(events: seq<Event>)
    ensures var (current, prev) := Recorded(events); var st := Run(events);
      && StandFor(st.current, current) && StandFor(st.prev, prev)
      && PairwiseConflicting(st.current) && PairwiseConflicting(st.prev)
  {
    if events != [] {
      var before := events[..|events| - 1];
      RunStandsFor(before);
      EpochIsLargest(before);
      match events[|events| - 1]
      case Update(r, distance) =>
        RecordStandsFor(Run(before).current, Recorded(before).0, r, distance);
        RecordKeepsConflicts(Run(before).current, r, distance);
      case NewEpoch(_) =>
    }
  }

  lemma SameContradictions(groups: seq<Group>, reports: seq<Report>, m: Hashes)
    requires StandFor(groups, reports)
    ensures Contradicts(m, groups) <==> ContradictsReports(m, reports)
  {
    if Contradicts(m, groups) {
      var i :| 0 <= i < |groups| && Disagree(m, groups[i].hashes);
      var k :| k in m && k in groups[i].hashes && m[k] != groups[i].hashes[k];
      assert Reported(reports, k, groups[i].hashes[k]);
    }
    if ContradictsReports(m, reports) {
      var j :| 0 <= j < |reports| && Disagree(m, reports[j].hashes);
      var k :| k in m && k in reports[j].hashes && m[k] != reports[j].hashes[k];
      assert Covered(reports[j], groups);
      var i :| 0 <= i < |groups| && Contains(groups[i].hashes, reports[j].hashes);
      assert k in groups[i].hashes && m[k] != groups[i].hashes[k];
    }
  }

  /**
    After any history, a report is answered with a conflict exactly when it contradicts, on some block,
    a report recorded in the current or in the previous epoch.
   */
  lemma ConflictDetectionIsExact(events: seq<Event>, m: Hashes)
    ensures Contradicts(m, Run(events).current) || Contradicts(m, Run(events).prev) <==>
            ContradictsReports(m, Recorded(events).0) || ContradictsReports(m, Recorded(events).1)
  {
    RunStandsFor(events);
    SameContradictions(Run(events).current, Recorded(events).0, m);
    SameContradictions(Run(events).prev, Recorded(events).1, m);
  }

  /** After any history, any two groups of an epoch contradict each other. */
  lemma GroupsPairwiseConflict(events: seq<Event>)
    ensures PairwiseConflicting(Run(events).current) && PairwiseConflicting(Run(events).prev)
  {
    RunStandsFor(events);
  }

  /** No event of these starts a new epoch. */
  ghost predicate SameEpoch(events: seq<Event>, more: seq<Event>) {
    forall k :: 0 <= k < |more| && more[k].NewEpoch? ==> more[k].epoch <= Run(events).epoch
  }

  lemma StepKeepsHashes(st: State, e: Event, i: nat)
    requires i < |st.current| && (e.NewEpoch? ==> e.epoch <= st.epoch)
    ensures Step(st, e).epoch == st.epoch && i < |Step(st, e).current|
    ensures Contains(Step(st, e).current[i].hashes, st.current[i].hashes)
  {
    if e.Update? {
      RecordKeepsHashes(st.current, e.report, e.distance, i);
    }
  }

  lemma ContainsTransitive(a: Hashes, b: Hashes, c: Hashes)
    requires Contains(a, b) && Contains(b, c)
    ensures Contains(a, c)
  {}

  /** The epoch is the same, and the `i`-th group has all the hashes it had. */
  predicate Keeps(start: State, st: State, i: nat) {
    && st.epoch == start.epoch && i < |start.current| && i < |st.current|
    && Contains(st.current[i].hashes, start.current[i].hashes)
  }

  lemma OneMoreKeepsHashes(start: State, st: State, e: Event, i: nat)
    requires Keeps(start, st, i) && (e.NewEpoch? ==> e.epoch <= start.epoch)
    ensures Keeps(start, Step(st, e), i)
  {
    StepKeepsHashes(st, e, i);
    ContainsTransitive(Step(st, e).current[i].hashes, st.current[i].hashes, start.current[i].hashes);
  }

  lemma RunExtends(events: seq<Event>, e: Event)
    ensures Run(events + [e]) == Step(Run(events), e)
  {
    var all := events + [e];
    assert all[..|all| - 1] == events && all[|all| - 1] == e;
  }

  lemma {:induction false} MoreKeepHashes(events: seq<Event>, more: seq<Event>, i: nat)
    requires SameEpoch(events, more) && i < |Run(events).current|
    ensures Keeps(Run(events), Run(events + more), i)
    decreases |more|
  {
    if more == [] {
      assert events + more == events;
    } else {
      var before, e := more[..|more| - 1], more[|more| - 1];
      MoreKeepHashes(events, before, i);
      OneMoreKeepsHashes(Run(events), Run(events + before), e, i);
      RunExtends(events + before, e);
      assert events + more == (events + before) + [e];
    }
  }

  /** Within an epoch, whatever is reported, the groups stay in their places and keep every hash they have. */
  lemma HashesNeverChange(events: seq<Event>, more: seq<Event>, i: nat)
    requires SameEpoch(events, more) && i < |Run(events).current|
    ensures Run(events + more).epoch == Run(events).epoch && i < |Run(events + more).current|
    ensures Contains(Run(events + more).current[i].hashes, Run(events).current[i].hashes)
  {
    MoreKeepHashes(events, more, i);
  }

  // ---- Who agrees with whom ------------------------------------------------------------------------

  /** A report that was recorded, the distance to finalization, and the group it was put into. */
  datatype Placed = Placed(report: Report, distance: int, place: nat)

  /** The reports of the current and of the previous epoch, with their groups. */
  function Log(events: seq<Event>): (seq<Placed>, seq<Placed>) {
    if events == [] then ([], [])
    else
      var before := events[..|events| - 1];
      var (current, prev) := Log(before);
      match events[|events| - 1]
      case Update(r, distance) => (current + [Placed(r, distance, FirstAgreeing(Run(before).current, r.hashes))], prev)
      case NewEpoch(epoch) => if Announced(before) < epoch then ([], current) else (current, prev)
  }

  /** Some report of this provider was put into the group. */
  predicate IsMember(log: seq<Placed>, i: nat, provider: string) {
    exists k :: 0 <= k < |log| && IsReportOf(log, k, i, provider)
  }

  predicate IsReportOf(log: seq<Placed>, k: int, i: nat, provider: string)
    requires 0 <= k < |log|
  {
    log[k].place == i && log[k].report.provider == provider
  }

  /** It is the last one of this provider in the group. */
  predicate IsLastOf(log: seq<Placed>, k: int, i: nat, provider: string)
    requires 0 <= k < |log|
  {
    && IsReportOf(log, k, i, provider)
    && forall j :: k < j < |log| ==> !IsReportOf(log, j, i, provider)
  }

  /** The group's providers are those whose reports it took in, each with the last finalized block it showed. */
  ghost predicate AgreeingRight(g: Group, log: seq<Placed>, i: nat) {
    && (forall provider :: provider in g.agreeing <==> IsMember(log, i, provider))
    && (forall k, provider :: 0 <= k < |log| && IsLastOf(log, k, i, provider) ==>
          provider in g.agreeing && g.agreeing[provider] == log[k].report.latestBlock - log[k].distance)
  }

  ghost predicate LogRight(groups: seq<Group>, log: seq<Placed>) {
    && (forall k :: 0 <= k < |log| ==> IsPlaced(groups, log, k))
    && (forall i :: 0 <= i < |groups| ==> AgreeingRight(groups[i], log, i))
  }

  /** The report is contained in the group it was put into. */
  predicate IsPlaced(groups: seq<Group>, log: seq<Placed>, k: int)
    requires 0 <= k < |log|
  {
    log[k].place < |groups| && Contains(groups[log[k].place].hashes, log[k].report.hashes)
  }

  lemma MemberWithOneMore(log: seq<Placed>, p: Placed, i: nat, provider: string)
    ensures IsMember(log + [p], i, provider) <==>
      IsMember(log, i, provider) || (p.place == i && p.report.provider == provider)
  {
    var more := log + [p];
    if IsMember(log, i, provider) {
      var k :| 0 <= k < |log| && IsReportOf(log, k, i, provider);
      assert IsReportOf(more, k, i, provider);
    }
    if p.place == i && p.report.provider == provider {
      assert IsReportOf(more, |log|, i, provider);
    }
    if IsMember(more, i, provider) {
      var k :| 0 <= k < |more| && IsReportOf(more, k, i, provider);
      assert k < |log| ==> IsReportOf(log, k, i, provider);
    }
  }

  lemma LastWithOneMore(log: seq<Placed>, p: Placed, k: nat, i: nat, provider: string)
    requires k <= |log| && IsLastOf(log + [p], k, i, provider)
    ensures k < |log| ==> IsLastOf(log, k, i, provider) && !(p.place == i && p.report.provider == provider)
  {
    var more := log + [p];
    if k < |log| {
      assert !IsReportOf(more, |log|, i, provider);
      assert IsReportOf(log, k, i, provider);
      forall j | k < j < |log| ensures !IsReportOf(log, j, i, provider) {
        assert !IsReportOf(more, j, i, provider);
      }
    }
  }

  /** A group that takes a report in, or does not. */
  lemma AgreeingWithOneMore(g: Group, g': Group, log: seq<Placed>, p: Placed, i: nat)
    requires AgreeingRight(g, log, i)
    requires g'.agreeing ==
      if p.place == i then g.agreeing[p.report.provider := p.report.latestBlock - p.distance] else g.agreeing
    ensures AgreeingRight(g', log + [p], i)
  {
    var more := log + [p];
    forall provider ensures provider in g'.agreeing <==> IsMember(more, i, provider) {
      MemberWithOneMore(log, p, i, provider);
    }
    forall k, provider | 0 <= k < |more| && IsLastOf(more, k, i, provider)
      ensures provider in g'.agreeing && g'.agreeing[provider] == more[k].report.latestBlock - more[k].distance
    {
      LastWithOneMore(log, p, k, i, provider);
      if k < |log| {
        assert provider in g.agreeing && g.agreeing[provider] == log[k].report.latestBlock - log[k].distance;
      }
    }
  }

  lemma NobodyYet(log: seq<Placed>, i: nat)
    requires forall k :: 0 <= k < |log| ==> log[k].place != i
    ensures AgreeingRight(Group(map[], map[]), log, i)
  {}

  lemma RecordPlaces(groups: seq<Group>, log: seq<Placed>, r: Report, distance: int)
    requires LogRight(groups, log)
    ensures LogRight(Record(groups, r, distance), log + [Placed(r, distance, FirstAgreeing(groups, r.hashes))])
  {
    var groups', p := Record(groups, r, distance), Placed(r, distance, FirstAgreeing(groups, r.hashes));
    var more := log + [p];
    forall k | 0 <= k < |more| ensures IsPlaced(groups', more, k) {
      if k < |log| {
        assert IsPlaced(groups, log, k);
        RecordKeepsHashes(groups, r, distance, log[k].place);
      }
    }
    forall i | 0 <= i < |groups'| ensures AgreeingRight(groups'[i], more, i) {
      if i < |groups| {
        AgreeingWithOneMore(groups[i], groups'[i], log, p, i);
      } else {
        forall k | 0 <= k < |log| ensures log[k].place != i {
          assert IsPlaced(groups, log, k);
        }
        NobodyYet(log, i);
        AgreeingWithOneMore(Group(map[], map[]), groups'[i], log, p, i);
      }
    }
  }

  /**
    After any history each recorded report is in one group, and a group's agreeing providers are exactly those whose
    reports it took in, each with the last finalized block of its latest report there.
   */
  lemma {:induction false} GroupsListTheirProviders(events: seq<Event>)
    ensures var (current, prev) := Log(events); var st := Run(events);
      LogRight(st.current, current) && LogRight(st.prev, prev)
  {
    if events != [] {
      var before := events[..|events| - 1];
      GroupsListTheirProviders(before);
      EpochIsLargest(before);
      match events[|events| - 1]
      case Update(r, distance) => RecordPlaces(Run(before).current, Log(before).0, r, distance);
      case NewEpoch(_) =>
    }
  }

  // ---- The object ------------------------------------------------------------------------------

  /** Only the smaller map is iterated; nothing is lost. */
  method DiscrepancyChecker(finalizedBlocks: Hashes, consensus: Group) returns (mismatch: bool)
    ensures mismatch <==> Disagree(finalizedBlocks, consensus.hashes)
  {
    var toIterate, others := consensus.hashes, finalizedBlocks;
    if |finalizedBlocks| < |consensus.hashes| {
      toIterate, others := finalizedBlocks, consensus.hashes;
    }
    var blocks := toIterate.Keys;
    while blocks != {}
      invariant blocks <= toIterate.Keys
      invariant forall k :: k in toIterate && k !in blocks && k in others ==> toIterate[k] == others[k]
      decreases blocks
    {
      SomeElement(blocks);
      var block :| block in blocks;
      if block in others && toIterate[block] != others[block] {
        return true;
      }
      blocks := blocks - {block};
    }
    return false;
  }

  method InsertProviderToConsensus(consensus: Group, r: Report, distance: int) returns (grown: Group)
    ensures grown == Insert(consensus, r, distance)
  {
    var hashes := consensus.hashes;
    var blocks := r.hashes.Keys;
    while blocks != {}
      invariant blocks <= r.hashes.Keys
      invariant hashes.Keys == consensus.hashes.Keys + (r.hashes.Keys - blocks)
      invariant forall k :: k in hashes ==>
        hashes[k] == if k in r.hashes && k !in blocks then r.hashes[k] else consensus.hashes[k]
      decreases blocks
    {
      SomeElement(blocks);
      var block :| block in blocks;
      hashes := hashes[block := r.hashes[block]];
      blocks := blocks - {block};
    }
    assert hashes.Keys == (consensus.hashes + r.hashes).Keys;
    assert forall k :: k in hashes ==> hashes[k] == (consensus.hashes + r.hashes)[k];
    return Group(hashes, consensus.agreeing[r.provider := LatestFinalizedBlock(r.latestBlock, distance)]);
  }

  class Consensus {
    var currentProviderHashesConsensus: seq<Group>
    var prevEpochProviderHashesConsensus: seq<Group>
    var currentEpoch: nat

    constructor ()
      ensures View() == Run([])
    {
      currentProviderHashesConsensus, prevEpochProviderHashesConsensus, currentEpoch := [], [], 0;
    }

    ghost function View(): State
      reads this
    {
      State(currentProviderHashesConsensus, prevEpochProviderHashesConsensus, currentEpoch)
    }

    /** The loop over the groups of the previous epoch. */
    method ContradictsPrevious(r: Report) returns (conflict: bool)
      ensures conflict <==> Contradicts(r.hashes, prevEpochProviderHashesConsensus)
    {
      for i := 0 to |prevEpochProviderHashesConsensus|
        invariant !exists j :: 0 <= j < i && Disagree(r.hashes, prevEpochProviderHashesConsensus[j].hashes)
      {
        var mismatch := DiscrepancyChecker(r.hashes, prevEpochProviderHashesConsensus[i]);
        if mismatch {
          return true;
        }
      }
      return false;
    }

    method UpdateFinalizedHashes(r: Report, distance: int) returns (conflict: bool)
      modifies this`currentProviderHashesConsensus
      ensures View() == Step(old(View()), Update(r, distance))
      ensures conflict <==> Contradicts(r.hashes, old(View()).current) || Contradicts(r.hashes, old(View()).prev)
    {
      if |currentProviderHashesConsensus| == 0 && |prevEpochProviderHashesConsensus| == 0 {
        currentProviderHashesConsensus := [NewGroup(r, distance)];
        return false;
      }
      ghost var before := currentProviderHashesConsensus;
      var inserted := false;
      conflict := false;
      for i := 0 to |currentProviderHashesConsensus|
        invariant |currentProviderHashesConsensus| == |before|
        invariant inserted <==> FirstAgreeing(before, r.hashes) < i
        invariant currentProviderHashesConsensus == if inserted then Record(before, r, distance) else before
        invariant conflict <==> exists j :: 0 <= j < i && Disagree(r.hashes, before[j].hashes)
      {
        var consensus := before[i];
        var mismatch := DiscrepancyChecker(r.hashes, currentProviderHashesConsensus[i]);
        if mismatch {
          conflict := true;
          continue;
        }
        if !inserted {
          var grown := InsertProviderToConsensus(currentProviderHashesConsensus[i], r, distance);
          currentProviderHashesConsensus := currentProviderHashesConsensus[i := grown];
          inserted := true;
        }
      }
      if !inserted {
        currentProviderHashesConsensus := currentProviderHashesConsensus + [NewGroup(r, distance)];
      }
      if conflict {
        return true;
      }
      conflict := ContradictsPrevious(r);
    }

    method NewEpoch(epoch: nat)
      modifies this
      ensures View() == Step(old(View()), Event.NewEpoch(epoch))
    {
      if currentEpoch < epoch {
        prevEpochProviderHashesConsensus := currentProviderHashesConsensus;
        currentProviderHashesConsensus := [];
        currentEpoch := epoch;
      }
    }
  }
}
