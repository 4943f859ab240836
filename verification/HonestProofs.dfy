/**
  Proofs of finalization over a whole run of an honest provider's tracker: what the consumer's check makes of
  a later proof after an earlier one, and exactly when two such proofs contradict each other.
 */
module HonestProofs {
  import opened Common
  import opened ChainTracker
  import opened FinalizationProof
  import C = FinalizationConsensus

  /** A tracker that saves `blocksToSave` blocks, and that first read `latest` and the blocks below it. */
  datatype Origin = Origin(chain: Chain, latest: int, blocksToSave: nat, serverBlockMemory: nat)

  ghost function Start(o: Origin): (v: View)
    ensures Contiguous(v.blocksQueue, v.latestBlockNum, o.blocksToSave)
  {
    View(o.latest, Window(o.chain, o.latest, o.blocksToSave))
  }

  /** What the tracker holds after some polls. */
  ghost function After(o: Origin, polls: seq<Poll>): View
    requires o.blocksToSave > 0
  {
    RunPolls(Start(o), o.blocksToSave, o.serverBlockMemory, polls)
  }

  /** The chain its window was read from. */
  ghost function ChainAfter(o: Origin, polls: seq<Poll>): Chain
    requires o.blocksToSave > 0
  {
    LastRead(o.chain, Start(o), o.blocksToSave, o.serverBlockMemory, polls)
  }

  lemma OnePollMore(o: Origin, polls: seq<Poll>, poll: Poll)
    requires o.blocksToSave > 0
    ensures After(o, polls).latestBlockNum <= After(o, polls + [poll]).latestBlockNum
  {
    var all := polls + [poll];
    assert all[..|all| - 1] == polls;
  }

  lemma {:induction false} LatestNeverGoesBack(o: Origin, polls: seq<Poll>, more: seq<Poll>)
    requires o.blocksToSave > 0
    ensures After(o, polls).latestBlockNum <= After(o, polls + more).latestBlockNum
    decreases |more|
  {
    if more == [] {
      assert polls + more == polls;
    } else {
      var before := more[..|more| - 1];
      LatestNeverGoesBack(o, polls, before);
      assert polls + more == (polls + before) + [more[|more| - 1]];
      OnePollMore(o, polls + before, more[|more| - 1]);
    }
  }

  /** The chains two moments of a run rest on share their past. */
  lemma LastReadsAreLinked(o: Origin, polls: seq<Poll>, more: seq<Poll>)
    requires o.blocksToSave > 0 && OneHistory(o.chain, polls + more)
    ensures HashLinked(ChainAfter(o, polls), ChainAfter(o, polls + more))
  {
    var all := polls + more;
    var last := ChainAfter(o, all);
    LastReadIsLinked(o.chain, Start(o), o.blocksToSave, o.serverBlockMemory, all, o.chain);
    forall i | 0 <= i < |polls| ensures HashLinked(polls[i].node.chain, last) {
      assert all[i] == polls[i];
      LastReadIsLinked(o.chain, Start(o), o.blocksToSave, o.serverBlockMemory, all, all[i].node.chain);
    }
    LastReadIsLinked(o.chain, Start(o), o.blocksToSave, o.serverBlockMemory, polls, last);
  }

  lemma OneHistoryOfStart(c: Chain, polls: seq<Poll>, more: seq<Poll>)
    requires OneHistory(c, polls + more)
    ensures OneHistory(c, polls)
  {
    var all := polls + more;
    assert forall i :: 0 <= i < |polls| ==> polls[i] == all[i];
  }

  // ---- Later proofs are accepted ------------------------------------------------------------------

  /** The map is the proof made from this view. */
  ghost predicate ProofIn(m: Hashes, v: View, distance: nat, blocksInProof: nat) {
    ProofOf(m, v.blocksQueue, v.latestBlockNum - distance - blocksInProof + 1, v.latestBlockNum - distance)
  }

  /**
    However the node's chain forks and whichever queries fail in between, the proof sent with a later reply is
    accepted after an earlier one.
   */
  lemma LaterHonestProofIsAccepted(o: Origin, polls: seq<Poll>, more: seq<Poll>, distance: nat, blocksInProof: nat,
                                   later: Hashes)
    requires o.blocksToSave > 0 && blocksInProof >= 1 && 0 <= o.latest - distance - blocksInProof + 1
    ensures var v, w := After(o, polls), After(o, polls + more);
      ProofIn(later, w, distance, blocksInProof) ==> Accepted(later, w.latestBlockNum, v.latestBlockNum, distance)
  {
    var v, w := After(o, polls), After(o, polls + more);
    LatestNeverGoesBack(o, [], polls);
    assert [] + polls == polls;
    LatestNeverGoesBack(o, polls, more);
    if ProofIn(later, w, distance, blocksInProof) {
      ProofIsAccepted(later, w.blocksQueue, w.latestBlockNum - distance - blocksInProof + 1,
                      w.latestBlockNum - distance, w.latestBlockNum, v.latestBlockNum, distance);
    }
  }

  // ---- When two proofs contradict each other ---------------------------------------------------------

  /** The map holds exactly the chain's hashes of the blocks first..last. */
  ghost predicate Shows(m: Hashes, c: Chain, first: int, last: int) {
    m.Keys == Run(first, last) && forall k :: k in m ==> m[k] == HashAt(c, k)
  }

  lemma ProofShowsChain(o: Origin, polls: seq<Poll>, distance: nat, blocksInProof: nat, m: Hashes)
    requires o.blocksToSave > 0 && OneHistory(o.chain, polls)
    requires ProofIn(m, After(o, polls), distance, blocksInProof)
    ensures var latest := After(o, polls).latestBlockNum;
      Shows(m, ChainAfter(o, polls), latest - distance - blocksInProof + 1, latest - distance)
  {
    RunKeepsWindow(o.chain, o.latest, o.blocksToSave, o.serverBlockMemory, polls);
    WindowHashes(ChainAfter(o, polls), After(o, polls).latestBlockNum, o.blocksToSave, m);
  }

  lemma WindowHashes(c: Chain, latest: int, n: nat, m: Hashes)
    requires forall k :: k in m ==> BlockStore(k, m[k]) in Window(c, latest, n)
    ensures forall k :: k in m ==> m[k] == HashAt(c, k)
  {}

  /**
    Two runs of hashes of linked chains disagree exactly when they overlap and the top of the lower one
    was replaced.
   */
  lemma LinkedProofsDisagree(past: Chain, now: Chain, earlier: Hashes, later: Hashes, first: int, last: int,
                             first': int, last': int)
    requires HashLinked(past, now) && Shows(earlier, past, first, last) && Shows(later, now, first', last')
    requires first <= last <= last'
    ensures C.Disagree(earlier, later) <==> first' <= last && HashAt(past, last) != HashAt(now, last)
  {
    if C.Disagree(earlier, later) {
      var k :| k in earlier && k in later && earlier[k] != later[k];
      assert k in Run(first, last) && k in Run(first', last');
      assert HashAt(past, last) == HashAt(now, last) ==> HashAt(past, k) == HashAt(now, k);
    }
    if first' <= last && HashAt(past, last) != HashAt(now, last) {
      assert last in earlier && last in later;
    }
  }

  /** The runs of hashes sent with the latest blocks `l` and `l'`. */
  lemma ShownProofsDisagree(past: Chain, now: Chain, earlier: Hashes, later: Hashes, l: int, l': int, distance: nat,
                            blocksInProof: nat)
    requires HashLinked(past, now) && l <= l' && blocksInProof >= 1
    requires Shows(earlier, past, l - distance - blocksInProof + 1, l - distance)
    requires Shows(later, now, l' - distance - blocksInProof + 1, l' - distance)
    ensures C.Disagree(earlier, later) <==>
      l' - l < blocksInProof && HashAt(past, l - distance) != HashAt(now, l - distance)
  {
    LinkedProofsDisagree(past, now, earlier, later, l - distance - blocksInProof + 1, l - distance,
                         l' - distance - blocksInProof + 1, l' - distance);
  }

  lemma ProofsShowLinkedChains(o: Origin, polls: seq<Poll>, more: seq<Poll>, distance: nat, blocksInProof: nat,
                               earlier: Hashes, later: Hashes)
    requires o.blocksToSave > 0 && OneHistory(o.chain, polls + more)
    requires ProofIn(earlier, After(o, polls), distance, blocksInProof)
    requires ProofIn(later, After(o, polls + more), distance, blocksInProof)
    ensures var past, now := ChainAfter(o, polls), ChainAfter(o, polls + more);
      var l, l' := After(o, polls).latestBlockNum, After(o, polls + more).latestBlockNum;
      && HashLinked(past, now) && l <= l'
      && Shows(earlier, past, l - distance - blocksInProof + 1, l - distance)
      && Shows(later, now, l' - distance - blocksInProof + 1, l' - distance)
  {
    OneHistoryOfStart(o.chain, polls, more);
    ProofShowsChain(o, polls, distance, blocksInProof, earlier);
    ProofShowsChain(o, polls + more, distance, blocksInProof, later);
    LatestNeverGoesBack(o, polls, more);
    LastReadsAreLinked(o, polls, more);
  }

  lemma ProofsDisagreeIff(o: Origin, polls: seq<Poll>, more: seq<Poll>, distance: nat, blocksInProof: nat,
                          earlier: Hashes, later: Hashes)
    requires o.blocksToSave > 0 && blocksInProof >= 1 && OneHistory(o.chain, polls + more)
    requires ProofIn(earlier, After(o, polls), distance, blocksInProof)
    requires ProofIn(later, After(o, polls + more), distance, blocksInProof)
    ensures var l, l' := After(o, polls).latestBlockNum, After(o, polls + more).latestBlockNum;
      C.Disagree(earlier, later) <==>
        l' - l < blocksInProof
        && HashAt(ChainAfter(o, polls), l - distance) != HashAt(ChainAfter(o, polls + more), l - distance)
  {
    var past, now := ChainAfter(o, polls), ChainAfter(o, polls + more);
    var l, l' := After(o, polls).latestBlockNum, After(o, polls + more).latestBlockNum;
    ProofsShowLinkedChains(o, polls, more, distance, blocksInProof, earlier, later);
    ShownProofsDisagree(past, now, earlier, later, l, l', distance, blocksInProof);
  }

  /**
    The proofs of two moments contradict each other exactly when they still overlap and the chain has meanwhile
    replaced the block that was the newest finalized one.
   */
  lemma HonestProofsDisagreeIff(o: Origin, polls: seq<Poll>, more: seq<Poll>, distance: nat, blocksInProof: nat,
                                earlier: Hashes, later: Hashes)
    requires o.blocksToSave > 0 && blocksInProof >= 1 && OneHistory(o.chain, polls + more)
    ensures var l, l' := After(o, polls).latestBlockNum, After(o, polls + more).latestBlockNum;
      ProofIn(earlier, After(o, polls), distance, blocksInProof)
      && ProofIn(later, After(o, polls + more), distance, blocksInProof) ==>
        (C.Disagree(earlier, later) <==>
          l' - l < blocksInProof
          && HashAt(ChainAfter(o, polls), l - distance) != HashAt(ChainAfter(o, polls + more), l - distance))
  {
    if ProofIn(earlier, After(o, polls), distance, blocksInProof)
      && ProofIn(later, After(o, polls + more), distance, blocksInProof) {
      ProofsDisagreeIff(o, polls, more, distance, blocksInProof, earlier, later);
    }
  }

  // ---- Witnesses -------------------------------------------------------------------------------------

  function OldHash(height: int): Hash { "a" }

  /** The chain after a fork that replaced all blocks above 5. */
  function NewHash(height: int): Hash { if height <= 5 then "a" else "b" }

  const EXAMPLE := Origin(OldHash, 10, 5, 100)

  ghost function ForkedPoll(): Poll {
    var node := Node(NewHash, iset{7, 8, 9, 10, 11});
    Poll(Success(11), node, node)
  }

  /** One poll that finds the next block, and answers for a full window, leaves the node's window. */
  lemma NextBlockIsRead(o: Origin, poll: Poll)
    requires o.blocksToSave > 0 && OneHistory(o.chain, [poll]) && poll.latest == Success(o.latest + 1)
    requires Answered(poll.nodeForFork, o.latest, o.serverBlockMemory, o.latest, 0)
    requires AllAnswered(poll.node, o.latest, o.serverBlockMemory, o.latest + 1, o.blocksToSave)
    ensures After(o, []) == Start(o)
    ensures After(o, [poll]) == View(o.latest + 1, Window(poll.node.chain, o.latest + 1, o.blocksToSave))
  {
    assert [] + [poll] == [poll];
    assert Refreshes(Start(o), o.blocksToSave, o.serverBlockMemory, poll);
    PollLeavesNodesWindow(o.chain, o.latest, o.blocksToSave, o.serverBlockMemory, [], poll);
  }

  lemma ForkedChainsAreLinked(poll: Poll)
    requires poll.node.chain == NewHash == poll.nodeForFork.chain
    ensures OneHistory(OldHash, [poll])
  {}

  lemma ForkedPollRefreshes()
    ensures After(EXAMPLE, []) == View(10, Window(OldHash, 10, 5))
    ensures After(EXAMPLE, [ForkedPoll()]) == View(11, Window(NewHash, 11, 5))
  {
    ForkedChainsAreLinked(ForkedPoll());
    NextBlockIsRead(EXAMPLE, ForkedPoll());
  }

  lemma RunOfThree(first: int)
    ensures Run(first, first + 2) == {first, first + 1, first + 2}
  {}

  /**
    After a fork deeper than the distance, two honest proofs contradict each other: with blocks final at a
    distance of 2, the proof at block 10 and the one at block 11 disagree on blocks 7 and 8.
   */
  lemma DeepForkContradicts()
    ensures OneHistory(OldHash, [ForkedPoll()])
    ensures var earlier := map[6 := "a", 7 := "a", 8 := "a"]; var later := map[7 := "b", 8 := "b", 9 := "b"];
      && ProofIn(earlier, After(EXAMPLE, []), 2, 3)
      && ProofIn(later, After(EXAMPLE, [ForkedPoll()]), 2, 3)
      && C.Disagree(earlier, later)
  {
    var earlier := map[6 := "a", 7 := "a", 8 := "a"];
    var later := map[7 := "b", 8 := "b", 9 := "b"];
    ForkedChainsAreLinked(ForkedPoll());
    ForkedPollRefreshes();
    RunOfThree(6);
    RunOfThree(7);
    var past, now := Window(OldHash, 10, 5), Window(NewHash, 11, 5);
    assert past[0] == BlockStore(6, "a") && past[1] == BlockStore(7, "a") && past[2] == BlockStore(8, "a");
    assert now[0] == BlockStore(7, "b") && now[1] == BlockStore(8, "b") && now[2] == BlockStore(9, "b");
    assert 7 in earlier && 7 in later && earlier[7] != later[7];
  }

  /**
    A proof for the expected block 11, made while the tracker is at block 10, is refused with the latest block
    that is sent along; with block 11 it would have been accepted.
   */
  lemma OptimisticProofIsRefused()
    ensures var proof := map[7 := "a", 8 := "a", 9 := "a"];
      && ProofOf(proof, Window(OldHash, 10, 5), 7, 9)
      && !Accepted(proof, 10, 10, 2) && Accepted(proof, 11, 10, 2)
  {
    var proof := map[7 := "a", 8 := "a", 9 := "a"];
    var queue := Window(OldHash, 10, 5);
    RunOfThree(7);
    assert queue[1] == BlockStore(7, "a") && queue[2] == BlockStore(8, "a") && queue[3] == BlockStore(9, "a");
    ProofIsAccepted(proof, queue, 7, 9, 10, 10, 2);
    ProofIsAccepted(proof, queue, 7, 9, 11, 10, 2);
  }
}
