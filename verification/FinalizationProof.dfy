/**
  Proofs of finalization: the map of block hashes a provider attaches to a reply, how it is built from
  the chain tracker's window, and the consumer's check of its shape.
 */
module FinalizationProof {
  import opened ChainTracker
  import opened Sorting
  import opened W = WantedBlocks
  import C = FinalizationConsensus
  import opened Common

  type Hashes = C.Hashes

  function IsFinalizedBlock(requestedBlock: int, latestBlock: int, finalizationCriteria: nat): (finalized: bool)
    ensures finalized <==> 0 <= requestedBlock <= latestBlock - finalizationCriteria
  {
    if requestedBlock == NOT_APPLICABLE then false
    else if requestedBlock < 0 then false
    else requestedBlock <= latestBlock - finalizationCriteria
  }

  // ---- The consumer's check ---------------------------------------------------------------------

  datatype Conflict = NonFinalizedBlock | NonConsecutiveBlocks | OlderLatestBlock | OlderThanSession

  predicate AllFinalized(m: Hashes, latestBlock: int, distance: nat) {
    forall k :: k in m ==> IsFinalizedBlock(k, latestBlock, distance)
  }

  predicate Gapless(m: Hashes) {
    forall a, b, k :: a in m && b in m && a <= k <= b ==> k in m
  }

  /** The newest finalized block of the reply's latest block has no hash. */
  predicate Behind(m: Hashes, latestBlock: int, distance: nat) {
    1 <= latestBlock - distance && latestBlock - distance !in m
  }

  predicate Accepted(m: Hashes, latestBlock: int, latestSessionBlock: int, distance: nat) {
    && AllFinalized(m, latestBlock, distance) && Gapless(m)
    && !Behind(m, latestBlock, distance) && latestSessionBlock <= latestBlock
  }

  predicate IntLe(a: int, b: int) { a <= b }

  predicate ConsecutiveUpTo(xs: seq<int>, n: int)
    requires n <= |xs|
  {
    forall i :: 1 <= i < n ==> xs[i] - 1 == xs[i - 1]
  }

  lemma ConsecutiveAt(xs: seq<int>, i: nat)
    requires ConsecutiveUpTo(xs, |xs|) && i < |xs|
    ensures xs[i] == xs[0] + i
  {
    if i > 0 {
      ConsecutiveAt(xs, i - 1);
    }
  }

  /** The list holds each height of the map once. */
  ghost predicate ListsKeys(xs: seq<int>, m: Hashes) {
    Distinct(xs) && forall k :: k in xs <==> k in m
  }

  lemma ConsecutiveIsGapless(m: Hashes, xs: seq<int>)
    requires ListsKeys(xs, m) && ConsecutiveUpTo(xs, |xs|)
    ensures Gapless(m)
  {
    forall a, b, k | a in m && b in m && a <= k <= b ensures k in m {
      var i :| 0 <= i < |xs| && xs[i] == a;
      var j :| 0 <= j < |xs| && xs[j] == b;
      ConsecutiveAt(xs, i);
      ConsecutiveAt(xs, j);
      ConsecutiveAt(xs, k - xs[0]);
      assert xs[k - xs[0]] in xs;
    }
  }

  lemma GaplessIsConsecutive(m: Hashes, xs: seq<int>)
    requires Ordered(IntLe, xs) && ListsKeys(xs, m) && Gapless(m)
    ensures ConsecutiveUpTo(xs, |xs|)
  {
    forall i | 1 <= i < |xs| ensures xs[i] - 1 == xs[i - 1] {
      assert xs[i] in xs && xs[i - 1] in xs && IntLe(xs[i - 1], xs[i]);
      assert xs[i] - 1 in xs;
      var j :| 0 <= j < |xs| && xs[j] == xs[i] - 1;
      assert i <= j ==> IntLe(xs[i], xs[j]);
      assert j < i - 1 ==> IntLe(xs[j], xs[i - 1]);
    }
  }

  /** Looking at neighbours in the sorted list finds every gap. */
  lemma NeighboursShowGaps(m: Hashes, xs: seq<int>)
    requires Ordered(IntLe, xs) && ListsKeys(xs, m)
    ensures ConsecutiveUpTo(xs, |xs|) <==> Gapless(m)
  {
    if ConsecutiveUpTo(xs, |xs|) {
      ConsecutiveIsGapless(m, xs);
    }
    if Gapless(m) {
      GaplessIsConsecutive(m, xs);
    }
  }

  /** `sort.Slice` with the order on integers. */
  method SortSlice(a: array<int>)
    modifies a
    ensures a[..] == Sort(IntLe, old(a[..]))
  {
    var s := Sort(IntLe, a[..]);
    forall i | 0 <= i < a.Length {
      a[i] := s[i];
    }
    assert a[..] == s;
  }

  /** The first loop of the check: the heights into an array, and the highest of them, from 0 up. */
  method CollectBlocks(latestBlock: int, finalizedBlocks: Hashes, distance: nat)
    returns (allFinalized: bool, blocks: array<int>, maxBlockNum: int)
    ensures fresh(blocks)
    ensures allFinalized <==> AllFinalized(finalizedBlocks, latestBlock, distance)
    ensures allFinalized ==>
      && ListsKeys(blocks[..], finalizedBlocks)
      && (forall k :: k in finalizedBlocks ==> k <= maxBlockNum)
      && (maxBlockNum == 0 || maxBlockNum in finalizedBlocks)
  {
    blocks := new int[|finalizedBlocks|];
    var idx := 0;
    maxBlockNum := 0;
    var left := finalizedBlocks.Keys;
    while left != {}
      invariant left <= finalizedBlocks.Keys && idx + |left| == blocks.Length
      invariant forall k :: k in blocks[..idx] <==> k in finalizedBlocks && k !in left
      invariant Distinct(blocks[..idx])
      invariant forall k :: k in finalizedBlocks && k !in left ==>
        IsFinalizedBlock(k, latestBlock, distance) && k <= maxBlockNum
      invariant maxBlockNum == 0 || maxBlockNum in finalizedBlocks
      decreases left
    {
      SomeElement(left);
      var blockNum :| blockNum in left;
      if !IsFinalizedBlock(blockNum, latestBlock, distance) {
        return false, blocks, maxBlockNum;
      }
      ghost var before := blocks[..idx];
      assert blockNum !in before;
      blocks[idx] := blockNum;
      assert blocks[..idx + 1] == before + [blockNum];
      if blockNum > maxBlockNum {
        maxBlockNum := blockNum;
      }
      idx := idx + 1;
      left := left - {blockNum};
    }
    assert blocks[..idx] == blocks[..];
    return true, blocks, maxBlockNum;
  }

  /** The heights sorted. */
  method SortKeys(blocks: array<int>, ghost m: Hashes)
    requires ListsKeys(blocks[..], m)
    modifies blocks
    ensures Ordered(IntLe, blocks[..]) && ListsKeys(blocks[..], m)
  {
    ghost var keys := blocks[..];
    SortSlice(blocks);
    LeIsTotalOrder();
    SortOrders(IntLe, keys);
    SortKeepsDistinct(IntLe, keys);
  }

  /** The second loop: the heights sorted, and each one above the one before it. */
  method CheckConsecutive(blocks: array<int>, ghost m: Hashes) returns (consecutive: bool)
    requires ListsKeys(blocks[..], m)
    modifies blocks
    ensures consecutive <==> Gapless(m)
  {
    SortKeys(blocks, m);
    NeighboursShowGaps(m, blocks[..]);
    consecutive := EachFollows(blocks);
  }

  method EachFollows(blocks: array<int>) returns (consecutive: bool)
    ensures consecutive <==> ConsecutiveUpTo(blocks[..], blocks.Length)
  {
    for index := 0 to blocks.Length
      invariant ConsecutiveUpTo(blocks[..], index)
    {
      if index != 0 && blocks[index] - 1 != blocks[index - 1] {
        assert blocks[..][index] == blocks[index] && blocks[..][index - 1] == blocks[index - 1];
        return false;
      }
    }
    return true;
  }

  lemma LeIsTotalOrder()
    ensures TotalOrder(IntLe)
  {}

  method VerifyFinalizationDataIntegrity(latestBlock: int, latestSessionBlock: int, finalizedBlocks: Hashes,
                                         distance: nat)
    returns (conflict: Option<Conflict>)
    ensures conflict.None? <==> Accepted(finalizedBlocks, latestBlock, latestSessionBlock, distance)
    ensures conflict == Some(NonFinalizedBlock) <==> !AllFinalized(finalizedBlocks, latestBlock, distance)
    ensures conflict == Some(NonConsecutiveBlocks) <==>
      AllFinalized(finalizedBlocks, latestBlock, distance) && !Gapless(finalizedBlocks)
    ensures conflict == Some(OlderLatestBlock) <==>
      && AllFinalized(finalizedBlocks, latestBlock, distance) && Gapless(finalizedBlocks)
      && Behind(finalizedBlocks, latestBlock, distance)
  {
    var allFinalized, sorted, maxBlockNum := CollectBlocks(latestBlock, finalizedBlocks, distance);
    if !allFinalized {
      return Some(NonFinalizedBlock);
    }
    var consecutive := CheckConsecutive(sorted, finalizedBlocks);
    if !consecutive {
      return Some(NonConsecutiveBlocks);
    }
    if IsFinalizedBlock(maxBlockNum + 1, latestBlock, distance) {
      return Some(OlderLatestBlock);
    }
    if latestSessionBlock > latestBlock {
      return Some(OlderThanSession);
    }
    return None;
  }

  /** The blocks first..last. */
  function Run(first: int, last: int): (r: set<int>)
    ensures forall k :: k in r <==> first <= k <= last
    decreases last - first
  {
    if first > last then {} else Run(first, last - 1) + {last}
  }

  ghost predicate IsRunUpTo(m: Hashes, last: int) {
    exists first :: 0 <= first <= last && m.Keys == Run(first, last)
  }

  /** Where the blocks without a gap below `last` begin. */
  function RunStart(m: Hashes, last: int): (first: int)
    requires 0 <= last && last in m
    ensures 0 <= first <= last && Run(first, last) <= m.Keys && (first == 0 || first - 1 !in m)
  {
    if last == 0 || last - 1 !in m then last
    else
      var first := RunStart(m, last - 1);
      assert forall k :: k in Run(first, last) ==> k in Run(first, last - 1) || k == last;
      first
  }

  /**
    A nonempty map is accepted exactly when its blocks are a consecutive, non-negative run that ends at the
    newest finalized block, and the reply is not older than the session. An empty one is accepted as long as
    no block above 0 is finalized.
   */
  lemma AcceptedExactly(m: Hashes, latestBlock: int, latestSessionBlock: int, distance: nat)
    ensures Accepted(m, latestBlock, latestSessionBlock, distance) <==>
      && latestSessionBlock <= latestBlock
      && (if m == map[] then latestBlock - distance < 1 else IsRunUpTo(m, latestBlock - distance))
  {
    var last := latestBlock - distance;
    if m != map[] {
      SomeElement(m.Keys);
      var some :| some in m.Keys;
      if AllFinalized(m, latestBlock, distance) && Gapless(m) && !Behind(m, latestBlock, distance) {
        assert IsFinalizedBlock(some, latestBlock, distance);
        var first := RunStart(m, last);
        forall k | k in m ensures k in Run(first, last) {
          assert IsFinalizedBlock(k, latestBlock, distance);
          assert k < first ==> first - 1 in m;
        }
        assert m.Keys == Run(first, last);
      }
    }
  }

  // ---- Building the map ---------------------------------------------------------------------------

  /** The hashes of the first `n` blocks of the list, by height. */
  function Collected(stores: seq<BlockStore>, n: nat): Hashes
    requires n <= |stores|
  {
    if n == 0 then map[] else Collected(stores, n - 1)[stores[n - 1].block := stores[n - 1].hash]
  }

  function Blocks(stores: seq<BlockStore>, n: nat): (r: set<int>)
    requires n <= |stores|
    ensures forall i :: 0 <= i < n ==> stores[i].block in r
  {
    if n == 0 then {} else Blocks(stores, n - 1) + {stores[n - 1].block}
  }

  ghost predicate AscendingBlocks(stores: seq<BlockStore>) {
    forall i, j :: 0 <= i < j < |stores| ==> stores[i].block < stores[j].block
  }

  lemma BlockIndex(stores: seq<BlockStore>, n: nat, k: int) returns (i: nat)
    requires n <= |stores| && k in Blocks(stores, n)
    ensures i < n && stores[i].block == k
  {
    if stores[n - 1].block == k {
      return n - 1;
    }
    i := BlockIndex(stores, n - 1, k);
  }

  lemma NextBlockIsNew(stores: seq<BlockStore>, n: nat)
    requires AscendingBlocks(stores) && n < |stores|
    ensures stores[n].block !in Blocks(stores, n)
  {
    if stores[n].block in Blocks(stores, n) {
      var i := BlockIndex(stores, n, stores[n].block);
    }
  }

  lemma {:induction false} CollectedKeys(stores: seq<BlockStore>, n: nat)
    requires AscendingBlocks(stores) && n <= |stores|
    ensures Collected(stores, n).Keys == Blocks(stores, n)
    ensures |Blocks(stores, n)| == n
  {
    if n > 0 {
      CollectedKeys(stores, n - 1);
      NextBlockIsNew(stores, n - 1);
    }
  }

  lemma {:induction false} CollectedHash(stores: seq<BlockStore>, n: nat, i: nat)
    requires AscendingBlocks(stores) && i < n <= |stores|
    ensures var m := Collected(stores, n); stores[i].block in m && m[stores[i].block] == stores[i].hash
  {
    if i < n - 1 {
      CollectedHash(stores, n - 1, i);
      assert stores[i].block < stores[n - 1].block;
    }
  }

  method BuildProofFromBlocks(requestedHashes: seq<BlockStore>) returns (finalizedBlockHashes: Hashes)
    ensures finalizedBlockHashes == Collected(requestedHashes, |requestedHashes|)
  {
    finalizedBlockHashes := map[];
    for i := 0 to |requestedHashes|
      invariant finalizedBlockHashes == Collected(requestedHashes, i)
    {
      var block := requestedHashes[i];
      finalizedBlockHashes := finalizedBlockHashes[block.block := block.hash];
    }
  }

  lemma RunSize(first: int, last: int)
    requires first <= last + 1
    ensures |Run(first, last)| == last - first + 1
    decreases last - first + 1
  {
    if first <= last {
      RunSize(first, last - 1);
    }
  }

  /** The number of answers to a query for a range and one more block tells whether the range covers that block. */
  lemma CountShowsCover(stores: seq<BlockStore>, first: int, last: int, requestBlock: int)
    requires AscendingBlocks(stores) && first <= last
    requires Blocks(stores, |stores|) == Run(first, last) + {requestBlock}
    ensures |stores| == last - first + 1 <==> requestBlock in Run(first, last)
  {
    CollectedKeys(stores, |stores|);
    RunSize(first, last);
    if requestBlock in Run(first, last) {
      assert Run(first, last) + {requestBlock} == Run(first, last);
    }
  }

  /** The requested block's hash, and the other hashes by height; the requested one is among them only if `keep`. */
  function Found(m: Hashes, stores: seq<BlockStore>, n: nat, requestBlock: int, keep: bool): (Option<Hash>, Hashes)
    requires n <= |stores|
  {
    if n == 0 then (None, m)
    else
      var (hash, found) := Found(m, stores, n - 1, requestBlock, keep);
      var block := stores[n - 1];
      if block.block == requestBlock then (Some(block.hash), if keep then found[block.block := block.hash] else found)
      else (hash, found[block.block := block.hash])
  }

  method FindRequestedBlockHash(requestedHashes: seq<BlockStore>, requestBlock: int, toBlock: int, fromBlock: int,
                                finalizedBlockHashes: Hashes)
    returns (requestedBlockHash: Option<Hash>, finalizedBlockHashesRet: Hashes)
    ensures (requestedBlockHash, finalizedBlockHashesRet)
      == Found(finalizedBlockHashes, requestedHashes, |requestedHashes|, requestBlock,
               |requestedHashes| == toBlock - fromBlock + 1)
  {
    requestedBlockHash, finalizedBlockHashesRet := None, finalizedBlockHashes;
    for n := 0 to |requestedHashes|
      invariant (requestedBlockHash, finalizedBlockHashesRet)
        == Found(finalizedBlockHashes, requestedHashes, n, requestBlock, |requestedHashes| == toBlock - fromBlock + 1)
    {
      var block := requestedHashes[n];
      if block.block == requestBlock {
        requestedBlockHash := Some(block.hash);
        if |requestedHashes| == toBlock - fromBlock + 1 {
          finalizedBlockHashesRet := finalizedBlockHashesRet[block.block := block.hash];
        }
      } else {
        finalizedBlockHashesRet := finalizedBlockHashesRet[block.block := block.hash];
      }
    }
  }

  lemma {:induction false} FoundKeys(stores: seq<BlockStore>, n: nat, requestBlock: int, keep: bool)
    requires n <= |stores|
    ensures Found(map[], stores, n, requestBlock, keep).1.Keys
         == if keep then Blocks(stores, n) else Blocks(stores, n) - {requestBlock}
  {
    if n > 0 {
      FoundKeys(stores, n - 1, requestBlock, keep);
    }
  }

  /** What is found is added to the map that is passed in. */
  lemma {:induction false} FoundAddsTo(m: Hashes, stores: seq<BlockStore>, n: nat, requestBlock: int, keep: bool)
    requires n <= |stores|
    ensures Found(m, stores, n, requestBlock, keep).0 == Found(map[], stores, n, requestBlock, keep).0
    ensures Found(m, stores, n, requestBlock, keep).1 == m + Found(map[], stores, n, requestBlock, keep).1
  {
    if n > 0 {
      FoundAddsTo(m, stores, n - 1, requestBlock, keep);
    }
  }

  lemma {:induction false} FoundAt(stores: seq<BlockStore>, n: nat, requestBlock: int, keep: bool, i: nat)
    requires AscendingBlocks(stores) && i < n <= |stores|
    ensures var (hash, found) := Found(map[], stores, n, requestBlock, keep);
      && (stores[i].block in found ==> found[stores[i].block] == stores[i].hash)
      && (stores[i].block == requestBlock ==> hash == Some(stores[i].hash))
    decreases n
  {
    if i < n - 1 {
      FoundAt(stores, n - 1, requestBlock, keep, i);
      assert stores[i].block < stores[n - 1].block;
    } else {
      NextBlockIsNew(stores, i);
      FoundKeys(stores, i, requestBlock, keep);
    }
  }

  /**
    From the answer to a query for a range and one more block, exactly the range's hashes are collected,
    whether or not the range covers that block, and that block's hash is found.
   */
  lemma RequestedBlockIsSetApart(stores: seq<BlockStore>, requestBlock: int, toBlock: int, fromBlock: int, first: int,
                                 last: int)
    requires AscendingBlocks(stores) && first <= last && last - first == toBlock - fromBlock
    requires Blocks(stores, |stores|) == Run(first, last) + {requestBlock}
    ensures var (hash, found) := Found(map[], stores, |stores|, requestBlock, |stores| == toBlock - fromBlock + 1);
      && found.Keys == Run(first, last)
      && (forall i :: 0 <= i < |stores| && stores[i].block in found ==> found[stores[i].block] == stores[i].hash)
      && hash.Some? && BlockStore(requestBlock, hash.value) in stores
  {
    CountShowsCover(stores, first, last, requestBlock);
    var keep := |stores| == toBlock - fromBlock + 1;
    FoundKeys(stores, |stores|, requestBlock, keep);
    forall i | 0 <= i < |stores| && stores[i].block in Found(map[], stores, |stores|, requestBlock, keep).1
      ensures Found(map[], stores, |stores|, requestBlock, keep).1[stores[i].block] == stores[i].hash
    {
      FoundAt(stores, |stores|, requestBlock, keep, i);
    }
    assert requestBlock in Blocks(stores, |stores|);
    var i := BlockIndex(stores, |stores|, requestBlock);
    FoundAt(stores, |stores|, requestBlock, keep, i);
    assert stores[i] in stores;
  }

  // ---- An honest provider -------------------------------------------------------------------------

  /** The map holds exactly the window's hashes of the blocks first..last. */
  ghost predicate ProofOf(m: Hashes, queue: seq<BlockStore>, first: int, last: int) {
    m.Keys == Run(first, last) && forall k :: k in m ==> BlockStore(k, m[k]) in queue
  }

  lemma AnswersGiveProof(requested: seq<BlockStore>, queue: seq<BlockStore>, asked: iset<int>, first: int, last: int)
    requires AnswersQuery(requested, queue, asked)
    requires forall b :: b in asked <==> first <= b <= last
    ensures ProofOf(Collected(requested, |requested|), queue, first, last)
  {
    var n := |requested|;
    var m := Collected(requested, n);
    CollectedKeys(requested, n);
    forall k ensures k in m <==> first <= k <= last {
      if k in m {
        var i := BlockIndex(requested, n, k);
        assert requested[i].block in asked;
      }
      if first <= k <= last {
        assert HasBlock(requested, k);
      }
    }
    forall k | k in m ensures BlockStore(k, m[k]) in queue {
      var i := BlockIndex(requested, n, k);
      CollectedHash(requested, n, i);
      assert requested[i] in queue && requested[i] == BlockStore(k, m[k]);
    }
  }

  lemma ProofIsAccepted(m: Hashes, queue: seq<BlockStore>, first: int, last: int, latestBlock: int, session: int,
                        distance: nat)
    requires ProofOf(m, queue, first, last) && 0 <= first <= last
    ensures Accepted(m, latestBlock, session, distance) <==> last == latestBlock - distance && session <= latestBlock
  {
    assert first in m && last in m;
    assert IsFinalizedBlock(last, latestBlock, distance) ==> last <= latestBlock - distance;
  }

  /** The answer to a query for a range and one more block has the shape that sets that block apart. */
  lemma AnswersListRangeAndBlock(requested: seq<BlockStore>, queue: seq<BlockStore>, asked: iset<int>, first: int,
                                 last: int, block: int)
    requires AnswersQuery(requested, queue, asked)
    requires forall b :: b in asked <==> first <= b <= last || b == block
    ensures AscendingBlocks(requested)
    ensures Blocks(requested, |requested|) == Run(first, last) + {block}
  {
    forall b ensures b in Blocks(requested, |requested|) <==> b in Run(first, last) + {block} {
      if b in Blocks(requested, |requested|) {
        var i := BlockIndex(requested, |requested|, b);
        assert requested[i].block in asked;
      }
      if b in Run(first, last) + {block} {
        assert HasBlock(requested, b);
      }
    }
  }

  /** From that answer the range's proof is collected, and the block's hash is the one of the window. */
  lemma AnswersGiveProofAndHash(requested: seq<BlockStore>, queue: seq<BlockStore>, asked: iset<int>,
                                first: int, last: int, block: int, toBlock: int, fromBlock: int)
    requires AnswersQuery(requested, queue, asked) && first <= last && last - first == toBlock - fromBlock
    requires forall b :: b in asked <==> first <= b <= last || b == block
    ensures var (hash, found) := Found(map[], requested, |requested|, block, |requested| == toBlock - fromBlock + 1);
      ProofOf(found, queue, first, last) && hash.Some? && BlockStore(block, hash.value) in queue
  {
    AnswersListRangeAndBlock(requested, queue, asked, first, last, block);
    RequestedBlockIsSetApart(requested, block, toBlock, fromBlock, first, last);
    var (hash, found) := Found(map[], requested, |requested|, block, |requested| == toBlock - fromBlock + 1);
    forall k | k in found ensures BlockStore(k, found[k]) in queue {
      assert k in Blocks(requested, |requested|);
      var i := BlockIndex(requested, |requested|, k);
      assert requested[i] in queue && requested[i] == BlockStore(k, found[k]);
    }
  }

  /**
    The proof a provider attaches to a reply. Once the window is full of non-negative blocks, the query
    succeeds, and the consumer accepts the proof whatever older latest block it has seen.
   */
  method ProvideProof(tracker: Tracker, distance: nat, blocksInFinalizationData: nat)
    returns (latestBlock: int, proof: Hashes, err: Option<QueryError>)
    requires tracker.Valid() && blocksInFinalizationData >= 1
    requires distance + blocksInFinalizationData <= tracker.blocksToSave
    ensures latestBlock == tracker.latestBlockNum
    ensures err.None? <==> tracker.blocksQueue != [] && 0 <= latestBlock - tracker.blocksToSave + 1
    ensures err.None? ==>
      ProofOf(proof, tracker.blocksQueue, latestBlock - distance - blocksInFinalizationData + 1, latestBlock - distance)
    ensures err.None? ==> forall session :: session <= latestBlock ==> Accepted(proof, latestBlock, session, distance)
  {
    var toBlock := LATEST_BLOCK - distance;
    var fromBlock := toBlock - blocksInFinalizationData + 1;
    var requested;
    latestBlock, requested, err := tracker.GetLatestBlockData(fromBlock, toBlock, NOT_APPLICABLE);
    proof := map[];
    if err.None? {
      proof := BuildProofFromBlocks(requested);
      ghost var first, last := latestBlock - distance - blocksInFinalizationData + 1, latestBlock - distance;
      AnswersGiveProof(requested, tracker.blocksQueue,
                       AskedBlocks(Query(fromBlock, toBlock, NOT_APPLICABLE), latestBlock), first, last);
      forall session | session <= latestBlock ensures Accepted(proof, latestBlock, session, distance) {
        ProofIsAccepted(proof, tracker.blocksQueue, first, last, latestBlock, session, distance);
      }
    }
  }

  /**
    The same with one more block, given by its number or relative to the latest one. The query succeeds exactly
    when that block is in the window too; the proof is the range's, and the block's hash is found.
   */
  method ProvideProofAndHash(tracker: Tracker, distance: nat, blocksInFinalizationData: nat, specificBlock: int)
    returns (latestBlock: int, proof: Hashes, hash: Option<Hash>, err: Option<QueryError>)
    requires tracker.Valid() && blocksInFinalizationData >= 1
    requires distance + blocksInFinalizationData <= tracker.blocksToSave
    requires specificBlock != NOT_APPLICABLE
    ensures latestBlock == tracker.latestBlockNum
    ensures err.None? <==>
      && tracker.blocksQueue != []
      && 0 <= latestBlock - tracker.blocksToSave + 1 <= LatestArgToBlockNum(specificBlock, latestBlock) <= latestBlock
    ensures err.None? ==>
      && ProofOf(proof, tracker.blocksQueue, latestBlock - distance - blocksInFinalizationData + 1,
                 latestBlock - distance)
      && hash.Some? && BlockStore(LatestArgToBlockNum(specificBlock, latestBlock), hash.value) in tracker.blocksQueue
    ensures err.None? ==> forall session :: session <= latestBlock ==> Accepted(proof, latestBlock, session, distance)
  {
    var toBlock := LATEST_BLOCK - distance;
    var fromBlock := toBlock - blocksInFinalizationData + 1;
    var requested;
    latestBlock, requested, err := tracker.GetLatestBlockData(fromBlock, toBlock, specificBlock);
    proof, hash := map[], None;
    if err.None? {
      var block := LatestArgToBlockNum(specificBlock, latestBlock);
      hash, proof := FindRequestedBlockHash(requested, block, toBlock, fromBlock, map[]);
      ghost var first, last := latestBlock - distance - blocksInFinalizationData + 1, latestBlock - distance;
      ghost var asked := AskedBlocks(Query(fromBlock, toBlock, specificBlock), latestBlock);
      AnswersGiveProofAndHash(requested, tracker.blocksQueue, asked, first, last, block, toBlock, fromBlock);
      forall session | session <= latestBlock ensures Accepted(proof, latestBlock, session, distance) {
        ProofIsAccepted(proof, tracker.blocksQueue, first, last, latestBlock, session, distance);
      }
    }
  }

  /**
    The proof for a block the provider expects but may not have seen: the range asked for is absolute, yet
    the latest block returned is the tracker's. Such a proof is accepted only if the two coincide.
   */
  method ProvideOptimisticProof(tracker: Tracker, requiredProofBlock: int, distance: nat, blocksInFinalizationData: nat)
    returns (proofBlock: int, proof: Hashes, err: Option<QueryError>)
    requires tracker.Valid() && blocksInFinalizationData >= 1
    requires 0 <= requiredProofBlock - distance - blocksInFinalizationData + 1
    ensures proofBlock == tracker.latestBlockNum
    ensures err.None? <==>
      && tracker.blocksQueue != []
      && 0 <= proofBlock - tracker.blocksToSave + 1 <= requiredProofBlock - distance - blocksInFinalizationData + 1
      && requiredProofBlock - distance <= proofBlock
    ensures err.None? ==> forall session ::
      Accepted(proof, proofBlock, session, distance) <==> proofBlock == requiredProofBlock && session <= proofBlock
  {
    var toBlock := requiredProofBlock - distance;
    var fromBlock := toBlock - blocksInFinalizationData + 1;
    var requested;
    proofBlock, requested, err := tracker.GetLatestBlockData(fromBlock, toBlock, NOT_APPLICABLE);
    proof := map[];
    if err.None? {
      proof := BuildProofFromBlocks(requested);
      AnswersGiveProof(requested, tracker.blocksQueue,
                       AskedBlocks(Query(fromBlock, toBlock, NOT_APPLICABLE), proofBlock), fromBlock, toBlock);
      forall session
        ensures Accepted(proof, proofBlock, session, distance) <==>
          proofBlock == requiredProofBlock && session <= proofBlock
      {
        ProofIsAccepted(proof, tracker.blocksQueue, fromBlock, toBlock, proofBlock, session, distance);
      }
    }
  }
}
