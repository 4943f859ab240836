/**
  The chain tracker's window: the last `blocksToSave` block hashes of a node's chain, refreshed at each
  poll by reading hashes from the newest block down until one is met that is already saved.

  A chain is a function from heights to hashes. What makes stopping early right is that each block's
  hash commits to its parent: two chains with the same hash at one height agree below it (`HashLinked`).
 */
module ChainTracker {
  import opened Common
  import opened WantedBlocks

  type Hash = string
  type Chain = int -> Hash

  function HashAt(c: Chain, height: int): Hash { c(height) }

  datatype BlockStore = BlockStore(block: int, hash: Hash)

  ghost predicate HashLinked(c: Chain, d: Chain) {
    forall h: int, k: int :: k <= h && HashAt(c, h) == HashAt(d, h) ==> HashAt(c, k) == HashAt(d, k)
  }

  /** The `n` blocks of the chain that end at `latest`: what reading all hashes gives. */
  function Window(c: Chain, latest: int, n: nat): (w: seq<BlockStore>)
    ensures |w| == n
    ensures forall i :: 0 <= i < n ==> w[i] == BlockStore(latest - n + 1 + i, HashAt(c, latest - n + 1 + i))
  {
    seq(n, i => BlockStore(latest - n + 1 + i, HashAt(c, latest - n + 1 + i)))
  }

  /** `n` consecutive blocks that end at `latest`. */
  ghost predicate Contiguous(queue: seq<BlockStore>, latest: int, n: nat) {
    |queue| == n && forall i :: 0 <= i < n ==> queue[i].block == latest - n + 1 + i
  }

  /** The node during one poll: a chain, and the heights for which it answers hash queries. */
  datatype Node = Node(chain: Chain, answers: iset<int>)

  datatype Error = TooEarlyBlock | NodeError | LatestBlockIsOlder | NotEnoughBlocks

  /** A query for a block older than the server's memory is refused before it reaches the node. */
  function FetchBlockHashByNum(node: Node, currentLatest: int, serverBlockMemory: nat,
                               block: int): Result<Hash, Error>
  {
    if block < currentLatest - serverBlockMemory then Failure(TooEarlyBlock)
    else if block !in node.answers then Failure(NodeError)
    else Success(HashAt(node.chain, block))
  }

  /** The query for the block `i` below `latest` succeeds. */
  predicate Answered(node: Node, currentLatest: int, serverBlockMemory: nat, latest: int, i: int) {
    currentLatest - serverBlockMemory <= latest - i && latest - i in node.answers
  }

  ghost predicate AllAnswered(node: Node, currentLatest: int, serverBlockMemory: nat, latest: int, count: int) {
    forall i :: 0 <= i < count ==> Answered(node, currentLatest, serverBlockMemory, latest, i)
  }

  // ---- Overlap between what was read and what is saved ------------------------------------------

  datatype Overlap =
    | NoOverlap
    | Overlap(blocksQueueStart: int, blocksQueueEnd: int, newQueueStart: int)
    // the two sanity checks of the search
    | MismatchingBlock
    | TooFewBlocks

  function HashesOverlapIndexes(
    queue: seq<BlockStore>, blocksToSave: nat, readIndexDiff: int, newQueueIdx: int, fetchedBlock: int,
    hash: Hash): Overlap
  {
    var savedBlocks := |queue|;
    if readIndexDiff >= savedBlocks then NoOverlap
    else
      var blocksQueueIdx := savedBlocks - 1 + readIndexDiff - newQueueIdx;
      if 0 < blocksQueueIdx <= savedBlocks - 1 then
        var existing := queue[blocksQueueIdx];
        if existing.block != fetchedBlock then MismatchingBlock
        else if existing.hash != hash then NoOverlap
        else
          var overwrite := blocksQueueIdx + 1;
          if overwrite < blocksToSave - 1 - newQueueIdx || readIndexDiff > overwrite then TooFewBlocks
          else Overlap(readIndexDiff, overwrite, overwrite - readIndexDiff)
      else NoOverlap
  }

  /** The saved block `t` below the newest one is still on the chain. */
  predicate OnChain(queue: seq<BlockStore>, c: Chain, t: nat)
    requires t < |queue|
  {
    queue[|queue| - 1 - t].hash == HashAt(c, queue[|queue| - 1 - t].block)
  }

  /** How many of the newest saved blocks are no longer on the chain. */
  function ForkDepth(queue: seq<BlockStore>, c: Chain, from: nat := 0): (f: nat)
    requires from <= |queue|
    ensures from <= f <= |queue|
    ensures forall t :: from <= t < f ==> !OnChain(queue, c, t)
    ensures f < |queue| ==> OnChain(queue, c, f)
    decreases |queue| - from
  {
    if from == |queue| || OnChain(queue, c, from) then from else ForkDepth(queue, c, from + 1)
  }

  /** How many hashes a refresh up to `latest` queries. */
  function Cost(queue: seq<BlockStore>, currentLatest: int, blocksToSave: nat, c: Chain, latest: int): int {
    if queue == [] then blocksToSave
    else Min(blocksToSave, latest - currentLatest + ForkDepth(queue, c) + 1)
  }

  /**
    On a full window the search never fails its sanity checks, and it stops exactly at the newest saved
    block that is still on the chain, unless the window is used up first.
   */
  lemma SearchFollowsForkDepth(queue: seq<BlockStore>, currentLatest: int, blocksToSave: nat, diff: nat, idx: nat,
                               c: Chain)
    requires Contiguous(queue, currentLatest, blocksToSave)
    requires idx < blocksToSave
    requires ForkDepth(queue, c) >= Min(idx - diff, blocksToSave - 1)
    ensures var block := currentLatest + diff - idx;
      var r := HashesOverlapIndexes(queue, blocksToSave, diff, idx, block, HashAt(c, block));
      var f := ForkDepth(queue, c);
      if idx == diff + f && f < blocksToSave - 1
      then r == Overlap(diff, blocksToSave - f, blocksToSave - idx)
      else r == NoOverlap && f >= Min(idx + 1 - diff, blocksToSave - 1)
  {
    if diff <= idx {
      var t := idx - diff;
      assert queue[blocksToSave - 1 - t].block == currentLatest + diff - idx;
      assert OnChain(queue, c, t) <==> queue[blocksToSave - 1 - t].hash == HashAt(c, currentLatest + diff - idx);
    }
  }

  // ---- The incremental window, and why it is the full one -----------------------------------------

  /** What a refresh leaves: the saved blocks from the newest one still on the chain, and the hashes read above it. */
  function Incremental(queue: seq<BlockStore>, currentLatest: int, blocksToSave: nat, c: Chain,
                       latest: int): seq<BlockStore>
    requires queue == [] || |queue| == blocksToSave
    requires latest >= currentLatest
  {
    Spliced(queue, latest - currentLatest, ForkDepth(queue, c), blocksToSave, c, latest)
  }

  /** The newest `f` saved blocks dropped, and those `d` heights further read. */
  function Spliced(queue: seq<BlockStore>, d: nat, f: nat, n: nat, c: Chain, latest: int): seq<BlockStore>
    requires queue == [] || |queue| == n
  {
    if queue != [] && d + f < n && f < n - 1 then queue[d..n - f] + Window(c, latest, d + f) else Window(c, latest, n)
  }

  lemma SpliceIsFullRead(source: Chain, currentLatest: int, n: nat, c: Chain, d: nat, f: nat)
    requires d + f < n
    requires forall k :: k <= currentLatest - f ==> HashAt(source, k) == HashAt(c, k)
    ensures Window(source, currentLatest, n)[d..n - f] + Window(c, currentLatest + d, d + f)
      == Window(c, currentLatest + d, n)
  {
    var splice := Window(source, currentLatest, n)[d..n - f] + Window(c, currentLatest + d, d + f);
    var whole := Window(c, currentLatest + d, n);
    forall i | 0 <= i < n ensures splice[i] == whole[i] {
      if i < n - f - d {
        var block := currentLatest - n + 1 + d + i;
        assert splice[i] == BlockStore(block, HashAt(source, block));
      }
    }
  }

  lemma NewestKeptIsOnChain(source: Chain, currentLatest: int, n: nat, c: Chain)
    ensures var f := ForkDepth(Window(source, currentLatest, n), c);
      f < n ==> HashAt(source, currentLatest - f) == HashAt(c, currentLatest - f)
  {
    var queue := Window(source, currentLatest, n);
    var f := ForkDepth(queue, c);
    if f < n {
      assert OnChain(queue, c, f);
      assert queue[n - 1 - f] == BlockStore(currentLatest - f, HashAt(source, currentLatest - f));
    }
  }

  lemma SharedHashSharedPast(c: Chain, d: Chain, h: int)
    requires HashLinked(c, d) && HashAt(c, h) == HashAt(d, h)
    ensures forall k :: k <= h ==> HashAt(c, k) == HashAt(d, k)
  {}

  /** One saved hash still on the chain vouches for every saved block below it. */
  lemma IncrementalIsFullRead(source: Chain, currentLatest: int, blocksToSave: nat, c: Chain, latest: int)
    requires HashLinked(source, c) && latest >= currentLatest
    ensures Incremental(Window(source, currentLatest, blocksToSave), currentLatest, blocksToSave, c, latest)
         == Window(c, latest, blocksToSave)
  {
    var f := ForkDepth(Window(source, currentLatest, blocksToSave), c);
    NewestKeptIsOnChain(source, currentLatest, blocksToSave, c);
    if latest - currentLatest + f < blocksToSave && f < blocksToSave - 1 {
      SharedHashSharedPast(source, c, currentLatest - f);
      SpliceIsFullRead(source, currentLatest, blocksToSave, c, latest - currentLatest, f);
    }
  }

  /** The indexes that say which blocks a refresh keeps: of the saved window, and of the hashes read. */
  ghost predicate KeepsIncremental(queue: seq<BlockStore>, readIndexDiff: nat, n: nat, c: Chain, start: int, end: int,
                                   newStart: int)
  {
    KeepsSpliced(queue, readIndexDiff, ForkDepth(queue, c), n, start, end, newStart)
  }

  predicate KeepsSpliced(queue: seq<BlockStore>, d: nat, f: nat, n: nat, start: int, end: int, newStart: int) {
    if queue != [] && d + f < n && f < n - 1
    then start == d && end == n - f && newStart == n - (d + f)
    else start == end == newStart == 0
  }

  lemma IncrementalIsContiguous(queue: seq<BlockStore>, currentLatest: int, blocksToSave: nat, c: Chain, latest: int)
    requires queue == [] || Contiguous(queue, currentLatest, blocksToSave)
    requires latest >= currentLatest
    ensures Contiguous(Incremental(queue, currentLatest, blocksToSave, c, latest), latest, blocksToSave)
  {}

  lemma SpliceKept(queue: seq<BlockStore>, d: nat, f: nat, n: nat, c: Chain, latest: int, start: int, end: int,
                   newStart: int)
    requires queue == [] || |queue| == n
    requires KeepsSpliced(queue, d, f, n, start, end, newStart)
    ensures newStart > 0 ==> newStart <= n && 0 <= start <= end <= |queue|
    ensures newStart > 0 ==> queue[start..end] + Window(c, latest, n - newStart) == Spliced(queue, d, f, n, c, latest)
    ensures newStart <= 0 ==> newStart == 0 && Window(c, latest, n) == Spliced(queue, d, f, n, c, latest)
  {
    if newStart > 0 {
      assert queue[start..end] == queue[d..n - f];
      assert n - newStart == d + f;
    }
  }

  /** The saved part and the part read, joined as the indexes say, are the incremental window. */
  lemma JoinIsIncremental(queue: seq<BlockStore>, currentLatest: int, n: nat, c: Chain, latest: int,
                          start: int, end: int, newStart: int, read: seq<BlockStore>)
    requires queue == [] || Contiguous(queue, currentLatest, n)
    requires latest >= currentLatest && KeepsIncremental(queue, latest - currentLatest, n, c, start, end, newStart)
    requires 0 <= newStart <= n && read == Window(c, latest, n - newStart)
    ensures newStart > 0 ==> 0 <= start <= end <= |queue|
    ensures var joined := if newStart > 0 then queue[start..end] + read else read;
      joined == Incremental(queue, currentLatest, n, c, latest) && Contiguous(joined, latest, n)
  {
    SpliceKept(queue, latest - currentLatest, ForkDepth(queue, c), n, c, latest, start, end, newStart);
    IncrementalIsContiguous(queue, currentLatest, n, c, latest);
  }

  /** The same hash at the tip means the same window: not fetching again is right. */
  lemma SameTipSameWindow(c: Chain, d: Chain, latest: int, n: nat)
    requires HashLinked(c, d)
    ensures HashAt(c, latest) == HashAt(d, latest) ==> Window(c, latest, n) == Window(d, latest, n)
  {}

  // ---- Polls ------------------------------------------------------------------------------------

  datatype View = View(latestBlockNum: int, blocksQueue: seq<BlockStore>)

  /** What the node says during one poll; it may stop answering between the two uses. */
  datatype Poll = Poll(latest: Result<int, Error>, nodeForFork: Node, node: Node)

  /** The poll learnt the latest block and could compare the newest saved hash with the node's. */
  predicate Concluded(v: View, serverBlockMemory: nat, poll: Poll)
    requires v.blocksQueue != []
  {
    poll.latest.Success? && Answered(poll.nodeForFork, v.latestBlockNum, serverBlockMemory, v.latestBlockNum, 0)
  }

  predicate Forked(v: View, poll: Poll)
    requires v.blocksQueue != []
  {
    v.blocksQueue[|v.blocksQueue| - 1].hash != HashAt(poll.nodeForFork.chain, v.latestBlockNum)
  }

  /** The poll refreshes the window: there is something new, and the node answers all that is asked. */
  ghost predicate Refreshes(v: View, blocksToSave: nat, serverBlockMemory: nat, poll: Poll)
    requires v.blocksQueue != []
  {
    && Concluded(v, serverBlockMemory, poll)
    && (poll.latest.value > v.latestBlockNum || (poll.latest.value == v.latestBlockNum && Forked(v, poll)))
    && AllAnswered(poll.node, v.latestBlockNum, serverBlockMemory, poll.latest.value,
                   Cost(v.blocksQueue, v.latestBlockNum, blocksToSave, poll.node.chain, poll.latest.value))
  }

  /** The poll learns a latest block not below the saved one, and the node answers for the tip and a whole window. */
  ghost predicate FullyAnswered(v: View, blocksToSave: nat, serverBlockMemory: nat, poll: Poll) {
    && poll.latest.Success? && poll.latest.value >= v.latestBlockNum
    && Answered(poll.nodeForFork, v.latestBlockNum, serverBlockMemory, v.latestBlockNum, 0)
    && AllAnswered(poll.node, v.latestBlockNum, serverBlockMemory, poll.latest.value, blocksToSave)
  }

  /** Such a poll refreshes, unless the tip is what it was. */
  lemma AnsweredPollRefreshes(v: View, blocksToSave: nat, serverBlockMemory: nat, poll: Poll)
    requires v.blocksQueue != [] && FullyAnswered(v, blocksToSave, serverBlockMemory, poll)
    ensures Refreshes(v, blocksToSave, serverBlockMemory, poll) <==>
      || poll.latest.value > v.latestBlockNum
      || v.blocksQueue[|v.blocksQueue| - 1].hash != HashAt(poll.nodeForFork.chain, v.latestBlockNum)
    ensures Concluded(v, serverBlockMemory, poll)
  {
    assert Cost(v.blocksQueue, v.latestBlockNum, blocksToSave, poll.node.chain, poll.latest.value) <= blocksToSave;
  }

  ghost function NextView(v: View, blocksToSave: nat, serverBlockMemory: nat, poll: Poll): View
    requires v.blocksQueue != [] && |v.blocksQueue| == blocksToSave
  {
    if Refreshes(v, blocksToSave, serverBlockMemory, poll)
    then View(poll.latest.value,
              Incremental(v.blocksQueue, v.latestBlockNum, blocksToSave, poll.node.chain, poll.latest.value))
    else v
  }

  datatype PollResult =
    | LatestUnavailable
    | HashUnavailable
    | RefreshFailed(error: Error)
    | Refreshed(gotNewBlock: bool, forked: bool)
    | WentBackwards
    | UpToDate

  class Tracker {
    const blocksToSave: nat
    const serverBlockMemory: nat
    var latestBlockNum: int
    var blocksQueue: seq<BlockStore>

    constructor (blocksToSave: nat, serverBlockMemory: nat)
      requires blocksToSave > 0
      ensures this.blocksToSave == blocksToSave && this.serverBlockMemory == serverBlockMemory
      ensures Valid() && Contents() == View(0, [])
    {
      this.blocksToSave, this.serverBlockMemory := blocksToSave, serverBlockMemory;
      latestBlockNum, blocksQueue := 0, [];
    }

    ghost predicate Valid()
      reads this
    {
      blocksToSave > 0 && (blocksQueue == [] || Contiguous(blocksQueue, latestBlockNum, blocksToSave))
    }

    ghost function Contents(): View
      reads this
    {
      View(latestBlockNum, blocksQueue)
    }

    /** Reads one hash and looks for it in the saved window. */
    method ReadHash(latest: int, node: Node, readIndexDiff: nat, idx: nat)
      returns (fetched: Result<Hash, Error>, overlap: Overlap)
      requires Valid() && idx < blocksToSave
      requires latest == latestBlockNum + readIndexDiff
      requires blocksQueue != [] ==> ForkDepth(blocksQueue, node.chain) >= Min(idx - readIndexDiff, blocksToSave - 1)
      ensures fetched.Success? <==> Answered(node, latestBlockNum, serverBlockMemory, latest, idx)
      ensures fetched.Success? ==> fetched.value == HashAt(node.chain, latest - idx)
      ensures fetched.Failure? ==> fetched.error.TooEarlyBlock? || fetched.error.NodeError?
      ensures fetched.Success? && overlap.Overlap? ==>
        var f := ForkDepth(blocksQueue, node.chain);
        && blocksQueue != [] && idx == readIndexDiff + f && f < blocksToSave - 1
        && overlap == Overlap(readIndexDiff, blocksToSave - f, blocksToSave - idx)
      ensures fetched.Success? && !overlap.Overlap? ==>
        blocksQueue != [] ==> ForkDepth(blocksQueue, node.chain) >= Min(idx + 1 - readIndexDiff, blocksToSave - 1)
    {
      fetched, overlap := FetchBlockHashByNum(node, latestBlockNum, serverBlockMemory, latest - idx), NoOverlap;
      if fetched.Success? {
        overlap := HashesOverlapIndexes(blocksQueue, blocksToSave, readIndexDiff, idx, latest - idx, fetched.value);
        if blocksQueue != [] {
          SearchFollowsForkDepth(blocksQueue, latestBlockNum, blocksToSave, readIndexDiff, idx, node.chain);
        }
      }
    }

    /**
      Reads hashes from `latest` downwards into the end of `newBlocks`, until an overlap with the saved
      window. The indexes say which part of the window and which part of `newBlocks` to keep.
     */
    method ReadHashes(latest: int, node: Node, readIndexDiff: nat, newBlocks: array<BlockStore>)
      returns (err: Option<Error>, start: int, end: int, newStart: int, ghost queries: nat)
      requires Valid()
      requires latest == latestBlockNum + readIndexDiff
      requires newBlocks.Length == blocksToSave
      modifies newBlocks
      ensures var cost := Cost(blocksQueue, latestBlockNum, blocksToSave, node.chain, latest);
        if err.None? then queries == cost && AllAnswered(node, latestBlockNum, serverBlockMemory, latest, queries)
        else 0 < queries <= cost && !Answered(node, latestBlockNum, serverBlockMemory, latest, queries - 1)
      ensures err.None? ==>
        && 0 <= newStart <= blocksToSave
        && newBlocks[newStart..] == Window(node.chain, latest, blocksToSave - newStart)
      ensures err.None? ==> KeepsIncremental(blocksQueue, readIndexDiff, blocksToSave, node.chain, start, end, newStart)
      ensures err.Some? ==> err.value.TooEarlyBlock? || err.value.NodeError?
    {
      queries := 0;
      ghost var cost := Cost(blocksQueue, latestBlockNum, blocksToSave, node.chain, latest);
      for idx := 0 to blocksToSave
        invariant queries == idx <= cost
        invariant AllAnswered(node, latestBlockNum, serverBlockMemory, latest, idx)
        invariant forall j :: blocksToSave - idx <= j < blocksToSave ==>
          newBlocks[j] == BlockStore(latest - blocksToSave + 1 + j, HashAt(node.chain, latest - blocksToSave + 1 + j))
        invariant blocksQueue != [] ==> ForkDepth(blocksQueue, node.chain) >= Min(idx - readIndexDiff, blocksToSave - 1)
      {
        var fetched, overlap := ReadHash(latest, node, readIndexDiff, idx);
        queries := queries + 1;
        if fetched.Failure? {
          return Some(fetched.error), 0, 0, 0, queries;
        }
        if overlap.Overlap? {
          return None, overlap.blocksQueueStart, overlap.blocksQueueEnd, overlap.newQueueStart, queries;
        }
        newBlocks[blocksToSave - 1 - idx] := BlockStore(latest - idx, fetched.value);
      }
      return None, 0, 0, 0, queries;
    }

    method ReplaceBlocksQueue(latest: int, newStart: int, start: int, end: int, newBlocks: array<BlockStore>)
      requires newStart > 0 ==> newStart <= newBlocks.Length && 0 <= start <= end <= |blocksQueue|
      modifies this`latestBlockNum, this`blocksQueue
      ensures latestBlockNum == latest
      ensures blocksQueue ==
        if newStart > 0 then old(blocksQueue)[start..end] + newBlocks[newStart..] else newBlocks[..]
    {
      latestBlockNum := latest;
      if newStart > 0 {
        blocksQueue := blocksQueue[start..end] + newBlocks[newStart..];
      } else {
        blocksQueue := newBlocks[..];
      }
    }

    /** Replacing the queue with what reading has found leaves the incremental window. */
    method KeepIncremental(latest: int, newStart: int, start: int, end: int, newBlocks: array<BlockStore>,
                           ghost c: Chain)
      requires Valid() && latest >= latestBlockNum && newBlocks.Length == blocksToSave
      requires KeepsIncremental(blocksQueue, latest - latestBlockNum, blocksToSave, c, start, end, newStart)
      requires 0 <= newStart <= blocksToSave && newBlocks[newStart..] == Window(c, latest, blocksToSave - newStart)
      modifies this`latestBlockNum, this`blocksQueue
      ensures Valid() && |blocksQueue| == blocksToSave
      ensures Contents() == View(latest, Incremental(old(blocksQueue), old(latestBlockNum), blocksToSave, c, latest))
    {
      ghost var read := newBlocks[newStart..];
      JoinIsIncremental(blocksQueue, latestBlockNum, blocksToSave, c, latest, start, end, newStart, read);
      assert newStart == 0 ==> read == newBlocks[..];
      ReplaceBlocksQueue(latest, newStart, start, end, newBlocks);
    }

    /** A refresh succeeds exactly when the node answers the queries it needs; a failed one changes nothing. */
    method FetchAllPreviousBlocks(latest: int, node: Node) returns (err: Option<Error>, ghost queries: nat)
      requires Valid()
      modifies this
      ensures Valid()
      ensures var cost := Cost(old(blocksQueue), old(latestBlockNum), blocksToSave, node.chain, latest);
        && (err.None? <==>
              latest >= old(latestBlockNum) && AllAnswered(node, old(latestBlockNum), serverBlockMemory, latest, cost))
        && (err.None? ==> queries == cost)
      ensures err.None? ==>
        Contents() == View(latest, Incremental(old(blocksQueue), old(latestBlockNum), blocksToSave, node.chain, latest))
      ensures err.Some? ==> Contents() == old(Contents())
      ensures err == Some(LatestBlockIsOlder) <==> latest < old(latestBlockNum)
      ensures err != Some(NotEnoughBlocks)
    {
      var newBlocks := new BlockStore[blocksToSave](_ => BlockStore(0, ""));
      if latest < latestBlockNum {
        return Some(LatestBlockIsOlder), 0;
      }
      var start, end, newStart;
      err, start, end, newStart, queries := ReadHashes(latest, node, latest - latestBlockNum, newBlocks);
      if err.Some? {
        return err, queries;
      }
      KeepIncremental(latest, newStart, start, end, newBlocks, node.chain);
      if |blocksQueue| < blocksToSave {
        return Some(NotEnoughBlocks), queries;
      }
      return None, queries;
    }

    /** Compares the newest saved hash with the node's. */
    method ForkChanged(newLatest: int, node: Node) returns (forked: Result<bool, Error>)
      requires Valid() && blocksQueue != []
      ensures forked.Success? <==> Answered(node, latestBlockNum, serverBlockMemory, latestBlockNum, 0)
      ensures forked.Success? ==>
        forked.value == (blocksQueue[|blocksQueue| - 1].hash != HashAt(node.chain, latestBlockNum))
    {
      var saved := blocksQueue[|blocksQueue| - 1];
      var block := if newLatest == latestBlockNum then newLatest else saved.block;
      var fetched := FetchBlockHashByNum(node, latestBlockNum, serverBlockMemory, block);
      if fetched.Failure? {
        return Failure(fetched.error);
      }
      return Success(saved.hash != fetched.value);
    }

    method FetchAllPreviousBlocksIfNecessary(poll: Poll) returns (result: PollResult)
      requires Valid() && blocksQueue != []
      modifies this
      ensures Valid() && blocksQueue != []
      ensures Contents() == NextView(old(Contents()), blocksToSave, serverBlockMemory, poll)
      ensures result.Refreshed? <==> Refreshes(old(Contents()), blocksToSave, serverBlockMemory, poll)
      ensures result.Refreshed? ==>
        && result.gotNewBlock == (poll.latest.value > old(latestBlockNum))
        && result.forked == Forked(old(Contents()), poll)
      ensures FullyAnswered(old(Contents()), blocksToSave, serverBlockMemory, poll) ==>
        result.Refreshed? || result.UpToDate?
      ensures result == RefreshFailed(LatestBlockIsOlder) <==>
        && Concluded(old(Contents()), serverBlockMemory, poll)
        && poll.latest.value < old(latestBlockNum) && Forked(old(Contents()), poll)
      ensures result.UpToDate? <==>
        && Concluded(old(Contents()), serverBlockMemory, poll)
        && poll.latest.value == old(latestBlockNum) && !Forked(old(Contents()), poll)
      ensures result.WentBackwards? <==>
        && Concluded(old(Contents()), serverBlockMemory, poll)
        && poll.latest.value < old(latestBlockNum) && !Forked(old(Contents()), poll)
    {
      if poll.latest.Failure? {
        return LatestUnavailable;
      }
      if FullyAnswered(Contents(), blocksToSave, serverBlockMemory, poll) {
        AnsweredPollRefreshes(Contents(), blocksToSave, serverBlockMemory, poll);
      }
      var newLatest := poll.latest.value;
      var gotNewBlock := newLatest > latestBlockNum;
      var forked := ForkChanged(newLatest, poll.nodeForFork);
      if forked.Failure? {
        return HashUnavailable;
      }
      var prevLatest := latestBlockNum;
      if gotNewBlock || forked.value {
        var err, _ := FetchAllPreviousBlocks(newLatest, poll.node);
        if err.Some? {
          return RefreshFailed(err.value);
        }
        return Refreshed(gotNewBlock, forked.value);
      }
      if prevLatest > newLatest {
        return WentBackwards;
      }
      return UpToDate;
    }

    /** The saved blocks the query asks for, oldest first. */
    method GetLatestBlockData(fromBlock: int, toBlock: int, specificBlock: int)
      returns (latestBlock: int, requested: seq<BlockStore>, err: Option<QueryError>)
      requires Valid()
      ensures latestBlock == latestBlockNum
      ensures err.None? <==>
        && blocksQueue != []
        && Answerable(Query(fromBlock, toBlock, specificBlock), latestBlock, latestBlock - blocksToSave + 1)
      ensures err.None? ==>
        AnswersQuery(requested, blocksQueue, AskedBlocks(Query(fromBlock, toBlock, specificBlock), latestBlock))
      ensures err != Some(InvalidIteration)
    {
      latestBlock := latestBlockNum;
      requested := [];
      if |blocksQueue| == 0 {
        return latestBlock, [], Some(NoBlocks);
      }
      var earliest := blocksQueue[0].block;
      ghost var q := Query(fromBlock, toBlock, specificBlock);
      var wanted := new WantedBlocksData();
      var invalid := wanted.New(fromBlock, toBlock, specificBlock, latestBlock, earliest);
      if invalid.Some? {
        return latestBlock, [], Some(Invalid(invalid.value));
      }
      var idxs := wanted.IterationIndexes(q, latestBlock, earliest);
      for k := 0 to |idxs|
        invariant requested == Pick(blocksQueue, idxs[..k])
        modifies {}
      {
        assert idxs[..k + 1][..k] == idxs[..k];
        var blockStore := blocksQueue[idxs[k]];
        assert idxs[k] in idxs && blockStore.block == earliest + idxs[k];
        var isWanted := wanted.IsWanted(blockStore.block, q, latestBlock, earliest);
        if !isWanted {
          return latestBlock, [], Some(InvalidIteration);
        }
        requested := requested + [blockStore];
      }
      assert idxs[..|idxs|] == idxs;
      PickAnswers(blocksQueue, latestBlock, AskedBlocks(q, latestBlock), idxs);
      return latestBlock, requested, None;
    }
  }

  datatype QueryError = NoBlocks | Invalid(reason: WantedBlocks.Error) | InvalidIteration

  function Pick(queue: seq<BlockStore>, idxs: seq<int>): (picked: seq<BlockStore>)
    requires forall k :: 0 <= k < |idxs| ==> 0 <= idxs[k] < |queue|
    ensures |picked| == |idxs|
    ensures forall k :: 0 <= k < |idxs| ==> picked[k] == queue[idxs[k]]
  {
    seq(|idxs|, k requires 0 <= k < |idxs| => queue[idxs[k]])
  }

  predicate HasBlock(stores: seq<BlockStore>, block: int) {
    exists k :: 0 <= k < |stores| && stores[k].block == block
  }

  /** Exactly the blocks asked for, each once, oldest first, as they are saved. */
  ghost predicate AnswersQuery(requested: seq<BlockStore>, queue: seq<BlockStore>, asked: iset<int>) {
    && (forall i, j :: 0 <= i < j < |requested| ==> requested[i].block < requested[j].block)
    && (forall i :: 0 <= i < |requested| ==> requested[i] in queue && requested[i].block in asked)
    && (forall b :: b in asked ==> HasBlock(requested, b))
  }

  lemma PickAnswers(queue: seq<BlockStore>, latestBlock: int, asked: iset<int>, idxs: seq<int>)
    requires Contiguous(queue, latestBlock, |queue|) && Ascending(idxs)
    requires forall k :: 0 <= k < |idxs| ==> 0 <= idxs[k] < |queue|
    requires forall x :: x in idxs <==> latestBlock - |queue| + 1 + x in asked
    ensures AnswersQuery(Pick(queue, idxs), queue, asked)
  {
    var picked := Pick(queue, idxs);
    forall i | 0 <= i < |picked| ensures picked[i].block in asked {
      assert idxs[i] in idxs;
    }
    forall b | b in asked ensures HasBlock(picked, b) {
      assert b - (latestBlock - |queue| + 1) in idxs;
      var k :| 0 <= k < |idxs| && idxs[k] == b - (latestBlock - |queue| + 1);
      assert picked[k].block == b;
    }
  }

  // ---- Whole runs -------------------------------------------------------------------------------

  /** The window a tracker has after a run of polls. */
  ghost function RunPolls(v: View, blocksToSave: nat, serverBlockMemory: nat, polls: seq<Poll>): (w: View)
    requires v.blocksQueue != [] && Contiguous(v.blocksQueue, v.latestBlockNum, blocksToSave)
    ensures w.blocksQueue != [] && Contiguous(w.blocksQueue, w.latestBlockNum, blocksToSave)
    ensures v.latestBlockNum <= w.latestBlockNum
  {
    if polls == [] then v
    else
      var before := RunPolls(v, blocksToSave, serverBlockMemory, polls[..|polls| - 1]);
      var poll := polls[|polls| - 1];
      assert Refreshes(before, blocksToSave, serverBlockMemory, poll) ==>
        Contiguous(Incremental(before.blocksQueue, before.latestBlockNum, blocksToSave,
                               poll.node.chain, poll.latest.value),
                   poll.latest.value, blocksToSave);
      NextView(before, blocksToSave, serverBlockMemory, poll)
  }

  /** The chain of the last poll that refreshed the window. */
  ghost function LastRead(c: Chain, v: View, blocksToSave: nat, serverBlockMemory: nat, polls: seq<Poll>): Chain
    requires v.blocksQueue != [] && Contiguous(v.blocksQueue, v.latestBlockNum, blocksToSave)
  {
    if polls == [] then c
    else
      var before := polls[..|polls| - 1];
      if Refreshes(RunPolls(v, blocksToSave, serverBlockMemory, before), blocksToSave, serverBlockMemory,
                   polls[|polls| - 1])
      then polls[|polls| - 1].node.chain
      else LastRead(c, v, blocksToSave, serverBlockMemory, before)
  }

  /**
    Each poll sees one chain; those seen over the run share their past with the one read first, and with
    each other.
   */
  ghost predicate OneHistory(c: Chain, polls: seq<Poll>) {
    && (forall i :: 0 <= i < |polls| ==> polls[i].nodeForFork.chain == polls[i].node.chain)
    && (forall i :: 0 <= i < |polls| ==> HashLinked(c, polls[i].node.chain))
    && (forall i, j :: 0 <= i < |polls| && 0 <= j < |polls| ==> HashLinked(polls[i].node.chain, polls[j].node.chain))
  }

  lemma OneHistoryPrefix(c: Chain, polls: seq<Poll>)
    requires OneHistory(c, polls) && polls != []
    ensures OneHistory(c, polls[..|polls| - 1])
  {
    var before := polls[..|polls| - 1];
    forall i, j | 0 <= i < |before| && 0 <= j < |before|
      ensures HashLinked(before[i].node.chain, before[j].node.chain)
    {
      assert before[i] == polls[i] && before[j] == polls[j];
    }
    forall i | 0 <= i < |before| ensures HashLinked(c, before[i].node.chain) {
      assert before[i] == polls[i];
    }
  }

  lemma {:induction false} LastReadIsLinked(c: Chain, v: View, blocksToSave: nat, serverBlockMemory: nat,
                                            polls: seq<Poll>, next: Chain)
    requires v.blocksQueue != [] && Contiguous(v.blocksQueue, v.latestBlockNum, blocksToSave)
    requires HashLinked(c, next) && forall i :: 0 <= i < |polls| ==> HashLinked(polls[i].node.chain, next)
    ensures HashLinked(LastRead(c, v, blocksToSave, serverBlockMemory, polls), next)
  {
    if polls != [] {
      LastReadIsLinked(c, v, blocksToSave, serverBlockMemory, polls[..|polls| - 1], next);
    }
  }

  /**
    Over any run of polls, with forks of any depth, gaps of any size and any failures, the window is always
    exactly what reading all hashes of one served chain gives; and the latest block never goes back.
   */
  lemma {:induction false} RunKeepsWindow(c: Chain, latest: int, blocksToSave: nat, serverBlockMemory: nat,
                                          polls: seq<Poll>)
    requires blocksToSave > 0 && OneHistory(c, polls)
    ensures var start := View(latest, Window(c, latest, blocksToSave));
      var v := RunPolls(start, blocksToSave, serverBlockMemory, polls);
      && v.blocksQueue ==
         Window(LastRead(c, start, blocksToSave, serverBlockMemory, polls), v.latestBlockNum, blocksToSave)
      && latest <= v.latestBlockNum
  {
    if polls != [] {
      var start := View(latest, Window(c, latest, blocksToSave));
      var before := polls[..|polls| - 1];
      var next := polls[|polls| - 1];
      OneHistoryPrefix(c, polls);
      RunKeepsWindow(c, latest, blocksToSave, serverBlockMemory, before);
      LastReadIsLinked(c, start, blocksToSave, serverBlockMemory, before, next.node.chain);
      var v := RunPolls(start, blocksToSave, serverBlockMemory, before);
      if Refreshes(v, blocksToSave, serverBlockMemory, next) {
        IncrementalIsFullRead(LastRead(c, start, blocksToSave, serverBlockMemory, before),
                              v.latestBlockNum, blocksToSave,
                              next.node.chain, next.latest.value);
      }
    }
  }

  /** A poll that refreshes, or that finds nothing new at the saved height, leaves the node's own window. */
  lemma PollLeavesNodesWindow(c: Chain, latest: int, blocksToSave: nat, serverBlockMemory: nat, polls: seq<Poll>,
                              poll: Poll)
    requires blocksToSave > 0 && OneHistory(c, polls + [poll])
    ensures var start := View(latest, Window(c, latest, blocksToSave));
      var v := RunPolls(start, blocksToSave, serverBlockMemory, polls);
      Concluded(v, serverBlockMemory, poll)
      && (Refreshes(v, blocksToSave, serverBlockMemory, poll)
          || (poll.latest.value == v.latestBlockNum && !Forked(v, poll))) ==>
        RunPolls(start, blocksToSave, serverBlockMemory, polls + [poll])
        == View(poll.latest.value, Window(poll.node.chain, poll.latest.value, blocksToSave))
  {
    var start := View(latest, Window(c, latest, blocksToSave));
    var all := polls + [poll];
    assert all[..|all| - 1] == polls && all[|polls|] == poll;
    OneHistoryPrefix(c, all);
    forall i | 0 <= i < |polls| ensures HashLinked(polls[i].node.chain, poll.node.chain) {
      assert all[i] == polls[i];
    }
    RunKeepsWindow(c, latest, blocksToSave, serverBlockMemory, polls);
    RunKeepsWindow(c, latest, blocksToSave, serverBlockMemory, all);
    LastReadIsLinked(c, start, blocksToSave, serverBlockMemory, polls, poll.node.chain);
    var v := RunPolls(start, blocksToSave, serverBlockMemory, polls);
    SameTipSameWindow(LastRead(c, start, blocksToSave, serverBlockMemory, polls), poll.node.chain,
                      v.latestBlockNum, blocksToSave);
  }

  /**
    Whatever happened before, a poll that learns a latest block not below the saved one, and whose queries are all
    answered, leaves exactly the node's own window: a fork at the same height is noticed like a new block.
   */
  lemma AnsweredPollIsCurrent(c: Chain, latest: int, blocksToSave: nat, serverBlockMemory: nat, polls: seq<Poll>,
                              poll: Poll)
    requires blocksToSave > 0 && OneHistory(c, polls + [poll])
    ensures var start := View(latest, Window(c, latest, blocksToSave));
      var v := RunPolls(start, blocksToSave, serverBlockMemory, polls);
      FullyAnswered(v, blocksToSave, serverBlockMemory, poll) ==>
        RunPolls(start, blocksToSave, serverBlockMemory, polls + [poll])
        == View(poll.latest.value, Window(poll.node.chain, poll.latest.value, blocksToSave))
  {
    var start := View(latest, Window(c, latest, blocksToSave));
    var v := RunPolls(start, blocksToSave, serverBlockMemory, polls);
    if FullyAnswered(v, blocksToSave, serverBlockMemory, poll) {
      AnsweredPollRefreshes(v, blocksToSave, serverBlockMemory, poll);
      PollLeavesNodesWindow(c, latest, blocksToSave, serverBlockMemory, polls, poll);
    }
  }
}
