/**
  The session object a provider works on, and the project it belongs to, as one thread sees them:
  the methods are the ones whose loads and compare-and-swaps `ProviderSessions` interleaves.
 */
module SingleProviderSession {
  import opened Common
  import opened ProviderSessions

  datatype Verdict = Accepted | MissingRefused | CeilingRefused | LockMisuse

  /** The four numbers a relay can change. */
  datatype Books = Books(used: int, missing: int, cuSum: int, latestRelayCu: int)

  predicate MissingAllowed(lim: Limits, used: int, totalMissing: int) {
    totalMissing + used <= lim.maxCu && totalMissing <= lim.missingCap && totalMissing <= used
  }

  /** Preparing a relay without interference. A relay refused at the ceiling leaves its missing CU charged. */
  function Prepared(lim: Limits, b: Books, spec: nat, total: nat, virtualEpoch: nat): (Verdict, Books)
    requires b.cuSum >= 0
  {
    var add := CuToAdd(b.cuSum, total);
    var missing := b.missing + MissingFor(b.cuSum, spec, total);
    if total < b.cuSum + spec && !MissingAllowed(lim, b.used, missing) then (MissingRefused, b)
    else if b.used + add > lim.maxCu * (virtualEpoch + 1) then (CeilingRefused, b.(missing := missing))
    else (Accepted, Books(b.used + add, missing, b.cuSum + add, add))
  }

  function Failed(b: Books): Books {
    Books(b.used - b.latestRelayCu, b.missing, b.cuSum - b.latestRelayCu, 0)
  }

  /** A failed relay gives back all it added; only the missing CU it was allowed stay charged. */
  lemma FailureUndoesPrepare(lim: Limits, b: Books, spec: nat, total: nat, virtualEpoch: nat)
    requires b.cuSum >= 0 && b.latestRelayCu == 0
    requires Prepared(lim, b, spec, total, virtualEpoch).0.Accepted?
    ensures Failed(Prepared(lim, b, spec, total, virtualEpoch).1)
         == b.(missing := b.missing + MissingFor(b.cuSum, spec, total))
  {}

  /** The signed total covers the relay, or there is nothing to cover. */
  predicate CoversPrice(b: Books, spec: nat, total: nat) {
    total >= b.cuSum + spec || spec == 0
  }

  /**
    A relay that comes to nothing, because it is refused at the ceiling or because it fails, leaves the books as
    they were exactly when its signed total covered its price.
   */
  lemma BooksAreRestoredIff(lim: Limits, b: Books, spec: nat, total: nat, virtualEpoch: nat)
    requires b.cuSum >= 0 && b.latestRelayCu == 0
    ensures var (verdict, b') := Prepared(lim, b, spec, total, virtualEpoch);
      && (verdict.CeilingRefused? ==> (b' == b <==> CoversPrice(b, spec, total)))
      && (verdict.Accepted? ==> (Failed(b') == b <==> CoversPrice(b, spec, total)))
      && (verdict.MissingRefused? ==> b' == b)
  {
    var (verdict, b') := Prepared(lim, b, spec, total, virtualEpoch);
    if verdict.Accepted? {
      FailureUndoesPrepare(lim, b, spec, total, virtualEpoch);
    }
  }

  /**
    Exactly when a relay is refused: with the part of the price its total leaves open, the missing CU would exceed
    the allowance next to what is used, or the cap, or what is used; or its total would pass the ceiling.
   */
  lemma RefusedExactly(lim: Limits, b: Books, spec: nat, total: nat, virtualEpoch: nat)
    requires b.cuSum >= 0
    ensures var (verdict, b') := Prepared(lim, b, spec, total, virtualEpoch);
      var paid := Max(0, total - b.cuSum);
      var missing := b.missing + spec - paid;
      && (verdict.MissingRefused? <==>
            total < b.cuSum + spec && (missing > lim.maxCu - b.used || missing > lim.missingCap || missing > b.used))
      && (verdict.CeilingRefused? <==>
            !verdict.MissingRefused? && paid > lim.maxCu * (virtualEpoch + 1) - b.used)
      && (verdict.Accepted? ==> b' == Books(b.used + paid, Max(b.missing, missing), b.cuSum + paid, paid))
      && !verdict.LockMisuse?
  {}

  /** The consumer pays for the relay, or the shortfall is counted, or the relay is refused. */
  lemma AcceptedIsAccountedFor(lim: Limits, b: Books, spec: nat, total: nat, virtualEpoch: nat)
    requires b.cuSum >= 0 && b.latestRelayCu == 0 && b.missing <= lim.missingCap
    ensures var (verdict, b') := Prepared(lim, b, spec, total, virtualEpoch);
      && b'.used - b.used == b'.cuSum - b.cuSum == b'.latestRelayCu
      && b'.missing <= lim.missingCap
      && (verdict.Accepted? ==>
            && spec <= b'.latestRelayCu + (b'.missing - b.missing)
            && b'.cuSum == (if total > b.cuSum then total else b.cuSum)
            && b'.used <= lim.maxCu * (virtualEpoch + 1))
      && (!verdict.Accepted? ==> b'.used == b.used && b'.cuSum == b.cuSum)
      && (verdict.MissingRefused? ==> total < b.cuSum + spec && b' == b)
  {}

  // ---- Without interference the interleaved actions compute the same ----------------------------

  function BooksOf(c: Counters, s: Session): Books {
    Books(c.used, c.missing, s.cuSum, s.latestRelayCu)
  }

  function Drain(lim: Limits, c: Counters, s: Session, steps: nat): (Counters, Session)
    decreases steps
  {
    if steps == 0 then (c, s)
    else var (c', s') := Continue(lim, c, s); Drain(lim, c', s', steps - 1)
  }

  lemma DrainMore(lim: Limits, c: Counters, s: Session, steps: nat)
    requires steps > 0
    ensures Drain(lim, c, s, steps) == Drain(lim, Continue(lim, c, s).0, Continue(lim, c, s).1, steps - 1)
  {}

  lemma SoloSwap(lim: Limits, c: Counters, s: Session)
    requires s.pc.SwapAdd? && s.pc.seenUsed == c.used <= c.topUsed
    ensures var job := s.pc.job;
      Drain(lim, c, s, 2) ==
      (Raise(c, c.used + job.add), s.(latestRelayCu := job.add, cuSum := s.cuSum + job.add, pc := InUse(job)))
  {
    var (c1, s1) := Continue(lim, c, s);
    DrainMore(lim, c, s, 2);
    DrainMore(lim, c1, s1, 1);
  }

  /** Three steps add the CU and publish them, or stop at the ceiling. */
  lemma SoloAdd(lim: Limits, c: Counters, s: Session)
    requires s.pc.ReadForAdd? && s.latestRelayCu == 0 && c.used <= c.topUsed
    ensures var job := s.pc.job;
      Drain(lim, c, s, 3) ==
      if c.used + job.add > lim.maxCu * (job.virtualEpoch + 1)
      then (c.(wasted := c.wasted + job.miss), s.(pc := Idle))
      else (Raise(c, c.used + job.add), s.(latestRelayCu := job.add, cuSum := s.cuSum + job.add, pc := InUse(job)))
  {
    var (c1, s1) := Continue(lim, c, s);
    DrainMore(lim, c, s, 3);
    if s1.pc.Idle? {
      IdleDrains(lim, c1, s1, 2);
    } else {
      SoloSwap(lim, c1, s1);
    }
  }

  /** Three steps charge the missing CU or refuse them. */
  lemma SoloMissing(lim: Limits, c: Counters, s: Session)
    requires s.pc.ReadMissing? && s.latestRelayCu == 0
    ensures var job := s.pc.job;
      if MissingAllowed(lim, c.used, c.missing + job.miss)
      then Drain(lim, c, s, 3) == (c.(missing := c.missing + job.miss), s.(pc := ReadForAdd(job)))
      else Drain(lim, c, s, 3).0 == c && Drain(lim, c, s, 3).1 == s.(pc := Idle)
  {
    var (c1, s1) := Continue(lim, c, s);
    var (c2, s2) := Continue(lim, c1, s1);
    DrainMore(lim, c, s, 3);
    DrainMore(lim, c1, s1, 2);
    DrainMore(lim, c2, s2, 1);
  }

  lemma {:induction false} DrainAdds(lim: Limits, c: Counters, s: Session, m: nat, n: nat)
    ensures var (c', s') := Drain(lim, c, s, m); Drain(lim, c, s, m + n) == Drain(lim, c', s', n)
    decreases m
  {
    if m > 0 {
      var (c', s') := Continue(lim, c, s);
      DrainAdds(lim, c', s', m - 1, n);
      assert m + n - 1 == m - 1 + n;
    }
  }

  lemma {:induction false} IdleDrains(lim: Limits, c: Counters, s: Session, n: nat)
    requires s.pc.Idle? || s.pc.InUse?
    ensures Drain(lim, c, s, n) == (c, s)
  {
    if n > 0 {
      IdleDrains(lim, c, s, n - 1);
    }
  }

  /** What a relay prepared without interference leaves: the books as `Prepared` says, and the session where it is. */
  function SoloPrepared(lim: Limits, c: Counters, s: Session, relayNum: nat, spec: nat, total: nat, virtualEpoch: nat)
    : (Counters, Session)
    requires s.cuSum >= 0
  {
    var (verdict, b) := Prepared(lim, BooksOf(c, s), spec, total, virtualEpoch);
    var job := Job(relayNum, spec, CuToAdd(s.cuSum, total), MissingFor(s.cuSum, spec, total), virtualEpoch);
    (Counters(b.used, b.missing, c.wasted + (if verdict.CeilingRefused? then job.miss else 0),
              Max(c.topEpoch, virtualEpoch), Max(c.topUsed, b.used)),
     s.(cuSum := b.cuSum, latestRelayCu := b.latestRelayCu, pc := if verdict.Accepted? then InUse(job) else Idle))
  }

  lemma SoloCovered(lim: Limits, c: Counters, s: Session, spec: nat, total: nat, virtualEpoch: nat)
    requires s.pc.Held? && s.cuSum >= 0 && s.latestRelayCu == 0 && c.used <= c.topUsed && total >= s.cuSum + spec
    ensures var (c1, s1) := Act(lim, c, s, Prepare(spec, total, virtualEpoch));
      Drain(lim, c1, s1, 3) == SoloPrepared(lim, c, s, s.pc.relayNum, spec, total, virtualEpoch)
  {
    var (c1, s1) := Act(lim, c, s, Prepare(spec, total, virtualEpoch));
    SoloAdd(lim, c1, s1);
  }

  lemma SoloUncovered(lim: Limits, c: Counters, s: Session, spec: nat, total: nat, virtualEpoch: nat)
    requires s.pc.Held? && s.cuSum >= 0 && s.latestRelayCu == 0 && c.used <= c.topUsed && total < s.cuSum + spec
    ensures var (c1, s1) := Act(lim, c, s, Prepare(spec, total, virtualEpoch));
      var (c2, s2) := Drain(lim, c1, s1, 3);
      Drain(lim, c2, s2, 3) == SoloPrepared(lim, c, s, s.pc.relayNum, spec, total, virtualEpoch)
  {
    var (c1, s1) := Act(lim, c, s, Prepare(spec, total, virtualEpoch));
    var (c2, s2) := Drain(lim, c1, s1, 3);
    SoloMissing(lim, c1, s1);
    if s2.pc.Idle? {
      IdleDrains(lim, c2, s2, 3);
    } else {
      SoloAdd(lim, c2, s2);
    }
  }

  /** The thread running alone ends, after at most six steps, exactly where `Prepared` says. */
  lemma SoloPrepareRefines(lim: Limits, c: Counters, s: Session, spec: nat, total: nat, virtualEpoch: nat)
    requires s.pc.Held? && s.cuSum >= 0 && s.latestRelayCu == 0 && c.used <= c.topUsed
    ensures var (c1, s1) := Act(lim, c, s, Prepare(spec, total, virtualEpoch));
      Drain(lim, c1, s1, 6) == SoloPrepared(lim, c, s, s.pc.relayNum, spec, total, virtualEpoch)
  {
    var (c1, s1) := Act(lim, c, s, Prepare(spec, total, virtualEpoch));
    var (c2, s2) := Drain(lim, c1, s1, 3);
    DrainAdds(lim, c1, s1, 3, 3);
    if total < s.cuSum + spec {
      SoloUncovered(lim, c, s, spec, total, virtualEpoch);
    } else {
      SoloCovered(lim, c, s, spec, total, virtualEpoch);
      IdleDrains(lim, c2, s2, 3);
    }
  }

  /** A failed relay, without interference, ends after three steps with the books `Failed` gives. */
  lemma SoloFailureRefines(lim: Limits, c: Counters, s: Session)
    requires s.pc.InUse?
    ensures var (c1, s1) := Act(lim, c, s, Fail); var (c', s') := Drain(lim, c1, s1, 3);
      && BooksOf(c', s') == Failed(BooksOf(c, s)) && s'.pc.Idle? && s'.relayNum == s.relayNum
      && c' == c.(used := c.used - s.latestRelayCu, wasted := c.wasted + s.pc.job.miss)
  {
    var (c1, s1) := Act(lim, c, s, Fail);
    var (c2, s2) := Continue(lim, c1, s1);
    var (c3, s3) := Continue(lim, c2, s2);
    DrainMore(lim, c1, s1, 3);
    DrainMore(lim, c2, s2, 2);
    DrainMore(lim, c3, s3, 1);
  }

  // ---- The objects ------------------------------------------------------------------------------

  class ProviderSessionsWithConsumerProject {
    const lim: Limits
    var usedComputeUnits: int
    var missingComputeUnits: int

    constructor (lim: Limits)
      ensures this.lim == lim && usedComputeUnits == 0 && missingComputeUnits == 0
    {
      this.lim := lim;
      usedComputeUnits, missingComputeUnits := 0, 0;
    }

    method AtomicCompareAndWriteUsedComputeUnits(newUsed: int, knownUsed: int) returns (written: bool)
      modifies this`usedComputeUnits
      ensures written == (newUsed == knownUsed || old(usedComputeUnits) == knownUsed)
      ensures usedComputeUnits ==
        if newUsed != knownUsed && old(usedComputeUnits) == knownUsed then newUsed else old(usedComputeUnits)
    {
      if newUsed == knownUsed { // no need to compare and swap
        return true;
      }
      written := usedComputeUnits == knownUsed;
      if written {
        usedComputeUnits := newUsed;
      }
    }

    method AtomicCompareAndWriteMissingComputeUnits(newMissing: int, knownMissing: int) returns (written: bool)
      modifies this`missingComputeUnits
      ensures written == (newMissing == knownMissing || old(missingComputeUnits) == knownMissing)
      ensures missingComputeUnits ==
        if newMissing != knownMissing && old(missingComputeUnits) == knownMissing then newMissing
        else old(missingComputeUnits)
    {
      if newMissing == knownMissing { // no need to compare and swap
        return true;
      }
      written := missingComputeUnits == knownMissing;
      if written {
        missingComputeUnits := newMissing;
      }
    }

    method SafeAddMissingComputeUnits(currentMissing: nat) returns (legitimate: bool, totalMissing: int)
      modifies this`missingComputeUnits
      ensures totalMissing == old(missingComputeUnits) + currentMissing
      ensures legitimate <==>
        totalMissing + usedComputeUnits <= lim.maxCu && totalMissing <= Min(lim.missingCap, usedComputeUnits)
      ensures missingComputeUnits == if legitimate then totalMissing else old(missingComputeUnits)
    {
      var swapped := false;
      totalMissing := currentMissing;
      while !swapped
        invariant swapped ==> totalMissing == old(missingComputeUnits) + currentMissing
        invariant swapped ==>
          totalMissing + usedComputeUnits <= lim.maxCu && totalMissing <= Min(lim.missingCap, usedComputeUnits)
        invariant missingComputeUnits == if swapped then totalMissing else old(missingComputeUnits)
        decreases !swapped
      {
        var missing := missingComputeUnits;
        var used := usedComputeUnits;
        totalMissing := missing + currentMissing;
        if totalMissing + used > lim.maxCu {
          return false, totalMissing;
        }
        if totalMissing > lim.missingCap {
          return false, totalMissing;
        }
        if totalMissing > used {
          return false, totalMissing;
        }
        swapped := AtomicCompareAndWriteMissingComputeUnits(totalMissing, missing);
      }
      return true, totalMissing;
    }
  }

  class SingleProviderSession {
    const userSessionsParent: ProviderSessionsWithConsumerProject
    var cuSum: int
    var latestRelayCu: int
    var relayNum: nat
    var locked: bool
    var errorsCount: nat

    constructor (parent: ProviderSessionsWithConsumerProject)
      ensures userSessionsParent == parent && locked && relayNum == 0
      ensures View() == Books(parent.usedComputeUnits, parent.missingComputeUnits, 0, 0)
    {
      userSessionsParent := parent;
      cuSum, latestRelayCu, relayNum, locked, errorsCount := 0, 0, 0, true, 0;
    }

    ghost function View(): Books
      reads this, userSessionsParent
    {
      Books(userSessionsParent.usedComputeUnits, userSessionsParent.missingComputeUnits, cuSum, latestRelayCu)
    }

    method ValidateAndAddUsedCU(currentCu: nat, virtualEpoch: nat) returns (ok: bool)
      modifies userSessionsParent`usedComputeUnits
      ensures ok <==>
        old(userSessionsParent.usedComputeUnits) + currentCu <= userSessionsParent.lim.maxCu * (virtualEpoch + 1)
      ensures userSessionsParent.usedComputeUnits ==
        old(userSessionsParent.usedComputeUnits) + if ok then currentCu else 0
    {
      var swapped := false;
      while !swapped
        invariant swapped ==>
          old(userSessionsParent.usedComputeUnits) + currentCu <= userSessionsParent.lim.maxCu * (virtualEpoch + 1)
        invariant userSessionsParent.usedComputeUnits ==
          old(userSessionsParent.usedComputeUnits) + if swapped then currentCu else 0
        decreases !swapped
      {
        var used := userSessionsParent.usedComputeUnits;
        if used + currentCu > userSessionsParent.lim.maxCu * (virtualEpoch + 1) {
          return false;
        }
        swapped := userSessionsParent.AtomicCompareAndWriteUsedComputeUnits(used + currentCu, used);
      }
      return true;
    }

    method ValidateAndSubUsedCU(currentCu: int)
      modifies userSessionsParent`usedComputeUnits
      ensures userSessionsParent.usedComputeUnits == old(userSessionsParent.usedComputeUnits) - currentCu
    {
      var swapped := false;
      while !swapped
        invariant userSessionsParent.usedComputeUnits ==
          old(userSessionsParent.usedComputeUnits) - if swapped then currentCu else 0
        decreases !swapped
      {
        var used := userSessionsParent.usedComputeUnits;
        swapped := userSessionsParent.AtomicCompareAndWriteUsedComputeUnits(used - currentCu, used);
      }
    }

    method PrepareSessionForUsage(cuFromSpec: nat, relayRequestTotalCu: nat, virtualEpoch: nat)
      returns (verdict: Verdict)
      requires cuSum >= 0
      modifies this`cuSum, this`latestRelayCu, userSessionsParent
      ensures (verdict, View()) ==
        if locked then Prepared(userSessionsParent.lim, old(View()), cuFromSpec, relayRequestTotalCu, virtualEpoch)
        else (LockMisuse, old(View()))
    {
      if !locked {
        return LockMisuse;
      }
      var total := relayRequestTotalCu;
      if total < cuSum + cuFromSpec {
        var missing := cuFromSpec;
        if total > cuSum {
          missing := cuFromSpec + cuSum - total;
        } else {
          total := cuSum;
        }
        var canAdd, _ := userSessionsParent.SafeAddMissingComputeUnits(missing);
        if !canAdd {
          return MissingRefused;
        }
      }
      var cuToAdd := total - cuSum;
      var ok := ValidateAndAddUsedCU(cuToAdd, virtualEpoch);
      if !ok {
        return CeilingRefused;
      }
      latestRelayCu := cuToAdd;
      cuSum := cuSum + cuToAdd;
      return Accepted;
    }

    method OnSessionFailure() returns (ok: bool)
      modifies this, userSessionsParent`usedComputeUnits
      ensures ok == old(locked) && !locked && relayNum == old(relayNum)
      ensures View() == if ok then Failed(old(View())) else old(View())
      ensures errorsCount == old(errorsCount) + if ok then 1 else 0
    {
      if !locked {
        return false;
      }
      cuSum := cuSum - latestRelayCu;
      ValidateAndSubUsedCU(latestRelayCu);
      latestRelayCu := 0;
      errorsCount := errorsCount + 1;
      locked := false;
      return true;
    }

    method OnSessionDone(relayNumber: nat) returns (ok: bool)
      modifies this
      ensures ok == old(locked) && !locked && errorsCount == old(errorsCount)
      ensures View() == if ok then old(View()).(latestRelayCu := 0) else old(View())
      ensures relayNum == if ok then relayNumber else old(relayNum)
    {
      if !locked {
        return false;
      }
      relayNum := relayNumber;
      latestRelayCu := 0;
      locked := false;
      return true;
    }
  }
}
