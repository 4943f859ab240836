/** Which saved blocks a query asks for: a range, possibly relative to the latest block, plus one more block. */
module WantedBlocks {
  import opened Common

  const NOT_APPLICABLE := -1
  const LATEST_BLOCK := -2

  datatype Error =
    | InvalidLatestBlockNumValue
    | InvalidRequestedBlocks
    | RequestedBlocksOutOfRange
    | InvalidRequestedSpecificBlock

  datatype BlockRange = BlockRange(fromBlock: int, toBlock: int, startIndexFromEarliest: nat, endIndexFromEarliest: nat)

  /** How many blocks before the latest one a relative request asks for. */
  function Offset(request: int): int { LATEST_BLOCK - request }

  /**
    The block number a request stands for: `LATEST_BLOCK - x` means x blocks before the latest one. A relative
    request never leaves 0..latest, and is met exactly unless the chain is too short for it.
   */
  function LatestArgToBlockNum(request: int, latestBlock: int): (block: int)
    ensures request > LATEST_BLOCK ==> block == request
    ensures request <= LATEST_BLOCK && 0 <= latestBlock ==> 0 <= block <= latestBlock
    ensures request < LATEST_BLOCK ==> (latestBlock - block == Offset(request) <==> Offset(request) <= latestBlock)
    ensures request <= LATEST_BLOCK ==> block == latestBlock || latestBlock - block == Offset(request)
  {
    if request > LATEST_BLOCK then request
    else
      var res := request - LATEST_BLOCK + latestBlock;
      if res < 0 then latestBlock else res
  }

  /**
    A relative range keeps its length and its order on the chain exactly when the chain reaches back to its
    first block; otherwise it is inverted, or shrinks to the latest block alone.
   */
  lemma RelativeRangeResolves(fromBlock: int, toBlock: int, latestBlock: int)
    requires fromBlock < toBlock <= LATEST_BLOCK && 0 <= latestBlock
    ensures var first, last := LatestArgToBlockNum(fromBlock, latestBlock), LatestArgToBlockNum(toBlock, latestBlock);
      && (last - first == toBlock - fromBlock <==> Offset(fromBlock) <= latestBlock)
      && (Offset(fromBlock) > latestBlock ==>
        first == latestBlock && (last < first <==> 0 < Offset(toBlock) <= latestBlock))
  {
    var first, last := LatestArgToBlockNum(fromBlock, latestBlock), LatestArgToBlockNum(toBlock, latestBlock);
    if Offset(fromBlock) <= latestBlock {
      assert latestBlock - first == Offset(fromBlock) && latestBlock - last == Offset(toBlock);
    }
  }

  predicate InRange(range: Option<BlockRange>, block: int) {
    range.Some? && range.value.fromBlock <= block <= range.value.toBlock
  }

  method NewBlockRange(fromBlock: int, toBlock: int, earliestBlockSaved: int, latestBlock: int)
    returns (range: Option<BlockRange>, err: Option<Error>)
    ensures range.Some? <==> err.None?
    ensures range.Some? <==> 0 <= earliestBlockSaved <= fromBlock <= toBlock <= latestBlock
    ensures range.Some? ==>
      range.value == BlockRange(fromBlock, toBlock, fromBlock - earliestBlockSaved, toBlock - earliestBlockSaved)
    ensures err.Some? ==> err.value.InvalidRequestedBlocks? || err.value.RequestedBlocksOutOfRange?
    ensures err == Some(InvalidRequestedBlocks) <==> 0 <= toBlock < fromBlock && 0 <= earliestBlockSaved
  {
    if fromBlock < 0 || toBlock < 0 || earliestBlockSaved < 0 {
      return None, Some(RequestedBlocksOutOfRange);
    }
    if toBlock < fromBlock {
      return None, Some(InvalidRequestedBlocks);
    }
    if fromBlock < earliestBlockSaved || toBlock > latestBlock {
      return None, Some(RequestedBlocksOutOfRange);
    }
    return Some(BlockRange(fromBlock, toBlock, fromBlock - earliestBlockSaved, toBlock - earliestBlockSaved)), None;
  }

  method RangeIndexes(br: BlockRange) returns (indexes: array<int>)
    requires br.startIndexFromEarliest <= br.endIndexFromEarliest
    ensures fresh(indexes)
    ensures indexes[..] == Consecutive(br.startIndexFromEarliest, br.endIndexFromEarliest + 1)
  {
    indexes := new int[br.endIndexFromEarliest - br.startIndexFromEarliest + 1];
    for i := 0 to indexes.Length
      invariant forall j :: 0 <= j < i ==> indexes[j] == br.startIndexFromEarliest + j
    {
      indexes[i] := br.startIndexFromEarliest + i;
    }
  }

  /** lo, lo + 1, ..., hi - 1 */
  function Consecutive(lo: int, hi: int): (xs: seq<int>)
    requires lo <= hi
    ensures |xs| == hi - lo
    ensures forall i :: 0 <= i < |xs| ==> xs[i] == lo + i
  {
    seq(hi - lo, i => lo + i)
  }

  lemma InConsecutive(lo: int, hi: int, x: int)
    requires lo <= x < hi
    ensures x in Consecutive(lo, hi)
  {
    assert Consecutive(lo, hi)[x - lo] == x;
  }

  // ---- What a query means ----------------------------------------------------------------------

  datatype Query = Query(fromBlock: int, toBlock: int, specificBlock: int)

  predicate HasRange(q: Query) { q.fromBlock != NOT_APPLICABLE && q.toBlock != NOT_APPLICABLE }
  predicate HasSpecific(q: Query) { q.specificBlock != NOT_APPLICABLE }

  /** The block is in the range asked for, once relative numbers are resolved. */
  predicate AsksInRange(q: Query, latestBlock: int, block: int) {
    && HasRange(q)
    && LatestArgToBlockNum(q.fromBlock, latestBlock) <= block <= LatestArgToBlockNum(q.toBlock, latestBlock)
  }

  predicate Asks(q: Query, latestBlock: int, block: int) {
    || AsksInRange(q, latestBlock, block)
    || (HasSpecific(q) && block == LatestArgToBlockNum(q.specificBlock, latestBlock))
  }

  ghost function AskedBlocks(q: Query, latestBlock: int): iset<int> {
    iset b: int | Asks(q, latestBlock, b)
  }

  /** The query can be answered from the blocks earliest..latest: it asks for something, and only for those. */
  predicate Answerable(q: Query, latestBlock: int, earliestBlockSaved: int) {
    && 0 <= earliestBlockSaved <= latestBlock
    && (HasRange(q) || HasSpecific(q))
    && (HasRange(q) ==>
          earliestBlockSaved <= LatestArgToBlockNum(q.fromBlock, latestBlock)
          <= LatestArgToBlockNum(q.toBlock, latestBlock) <= latestBlock)
    && (HasSpecific(q) ==> earliestBlockSaved <= LatestArgToBlockNum(q.specificBlock, latestBlock) <= latestBlock)
  }

  /** A range and one more block, all by number. */
  lemma AbsoluteQuery(q: Query, latestBlock: int, earliestBlockSaved: int)
    requires q.fromBlock >= 0 && q.toBlock >= 0 && q.specificBlock >= 0
    ensures forall b :: b in AskedBlocks(q, latestBlock) <==> q.fromBlock <= b <= q.toBlock || b == q.specificBlock
    ensures Answerable(q, latestBlock, earliestBlockSaved) <==>
      && 0 <= earliestBlockSaved <= q.fromBlock <= q.toBlock <= latestBlock
      && earliestBlockSaved <= q.specificBlock <= latestBlock
  {}

  /** Without one of its ends there is no range, and without any of the three there is no query. */
  lemma NothingApplicable(block: int, other: int, latestBlock: int, earliestBlockSaved: int)
    requires 0 <= block && other >= NOT_APPLICABLE
    ensures forall q, b :: q in {Query(NOT_APPLICABLE, other, block), Query(other, NOT_APPLICABLE, block)} ==>
      (b in AskedBlocks(q, latestBlock) <==> b == block)
    ensures forall q :: q in {Query(NOT_APPLICABLE, other, block), Query(other, NOT_APPLICABLE, block)} ==>
      (Answerable(q, latestBlock, earliestBlockSaved) <==> 0 <= earliestBlockSaved <= block <= latestBlock)
    ensures !Answerable(Query(NOT_APPLICABLE, other, NOT_APPLICABLE), latestBlock, earliestBlockSaved)
  {}

  predicate Ascending(xs: seq<int>) {
    forall i, j :: 0 <= i < j < |xs| ==> xs[i] < xs[j]
  }

  class WantedBlocksData {
    var rangeBlocks: Option<BlockRange>
    var specificBlock: Option<BlockRange>

    constructor ()
      ensures rangeBlocks == None && specificBlock == None
    {
      rangeBlocks, specificBlock := None, None;
    }

    /** The ranges stand for the query: every block asked for is in exactly one of them. */
    ghost predicate StandsFor(q: Query, latestBlock: int, earliestBlockSaved: int)
      reads this
    {
      && Answerable(q, latestBlock, earliestBlockSaved)
      && WellPlaced(rangeBlocks, latestBlock, earliestBlockSaved)
      && WellPlaced(specificBlock, latestBlock, earliestBlockSaved)
      && (specificBlock.Some? ==> specificBlock.value.fromBlock == specificBlock.value.toBlock)
      && (forall b :: InRange(rangeBlocks, b) <==> AsksInRange(q, latestBlock, b))
      && (forall b :: InRange(specificBlock, b) <==> Asks(q, latestBlock, b) && !AsksInRange(q, latestBlock, b))
    }

    method New(fromBlockArg: int, toBlockArg: int, specificBlockArg: int, latestBlock: int, earliestBlockSaved: int)
      returns (err: Option<Error>)
      modifies this
      ensures var q := Query(fromBlockArg, toBlockArg, specificBlockArg);
        && (err.None? <==> Answerable(q, latestBlock, earliestBlockSaved))
        && (err.None? ==> StandsFor(q, latestBlock, earliestBlockSaved))
        && (err == Some(InvalidLatestBlockNumValue) <==> earliestBlockSaved > latestBlock)
        && (err == Some(InvalidRequestedSpecificBlock) ==>
          HasSpecific(q) && !AsksInRange(q, latestBlock, LatestArgToBlockNum(specificBlockArg, latestBlock)))
    {
      if earliestBlockSaved > latestBlock {
        return Some(InvalidLatestBlockNumValue);
      }
      var ignoreRange := fromBlockArg == NOT_APPLICABLE || toBlockArg == NOT_APPLICABLE;
      var ignoreSpecific := specificBlockArg == NOT_APPLICABLE;
      if ignoreRange && ignoreSpecific {
        return Some(InvalidRequestedBlocks);
      }
      if !ignoreRange {
        var fromBlock := LatestArgToBlockNum(fromBlockArg, latestBlock);
        var toBlock := LatestArgToBlockNum(toBlockArg, latestBlock);
        rangeBlocks, err := NewBlockRange(fromBlock, toBlock, earliestBlockSaved, latestBlock);
        if err.Some? {
          return;
        }
      } else {
        rangeBlocks := None;
      }
      if !ignoreSpecific {
        var block := LatestArgToBlockNum(specificBlockArg, latestBlock);
        if InRange(rangeBlocks, block) {
          specificBlock := None;
        } else {
          specificBlock, err := NewBlockRange(block, block, earliestBlockSaved, latestBlock);
          if err.Some? {
            return Some(InvalidRequestedSpecificBlock);
          }
        }
      } else {
        specificBlock := None;
      }
      return None;
    }

    method IsWanted(blockNum: int, ghost q: Query, ghost latestBlock: int, ghost earliestBlockSaved: int)
      returns (wanted: bool)
      requires StandsFor(q, latestBlock, earliestBlockSaved)
      ensures wanted <==> blockNum in AskedBlocks(q, latestBlock)
    {
      if blockNum < 0 {
        return false;
      }
      if InRange(specificBlock, blockNum) {
        return true;
      }
      return InRange(rangeBlocks, blockNum);
    }

    method IterationIndexes(ghost q: Query, ghost latestBlock: int, ghost earliestBlockSaved: int)
      returns (idxs: seq<int>)
      requires StandsFor(q, latestBlock, earliestBlockSaved)
      ensures Ascending(idxs)
      ensures forall k :: 0 <= k < |idxs| ==> 0 <= idxs[k] <= latestBlock - earliestBlockSaved
      ensures forall x :: x in idxs <==> earliestBlockSaved + x in AskedBlocks(q, latestBlock)
    {
      idxs := [];
      RangesAreApart(q, latestBlock, earliestBlockSaved);
      JoinedAscends(rangeBlocks, specificBlock, latestBlock, earliestBlockSaved);
      IndexesAreAsked(q, latestBlock, earliestBlockSaved);
      if rangeBlocks.Some? {
        var ranged := RangeIndexes(rangeBlocks.value);
        if specificBlock.Some? {
          var specific := RangeIndexes(specificBlock.value);
          if rangeBlocks.value.startIndexFromEarliest < specificBlock.value.startIndexFromEarliest {
            idxs := ranged[..] + specific[..];
          } else {
            idxs := specific[..] + ranged[..];
          }
        } else {
          idxs := ranged[..];
        }
      } else if specificBlock.Some? {
        var specific := RangeIndexes(specificBlock.value);
        idxs := specific[..];
      }
      assert idxs == JoinedIndexes(rangeBlocks, specificBlock);
    }

    /** A specific block of its own lies below the range or above it. */
    lemma RangesAreApart(q: Query, latestBlock: int, earliestBlockSaved: int)
      requires StandsFor(q, latestBlock, earliestBlockSaved)
      ensures Apart(rangeBlocks, specificBlock)
    {
      if rangeBlocks.Some? && specificBlock.Some? {
        assert InRange(specificBlock, specificBlock.value.fromBlock);
        assert !InRange(rangeBlocks, specificBlock.value.fromBlock);
      }
    }

    lemma IndexesAreAsked(q: Query, latestBlock: int, earliestBlockSaved: int)
      requires StandsFor(q, latestBlock, earliestBlockSaved)
      ensures forall x :: x in JoinedIndexes(rangeBlocks, specificBlock) <==>
        earliestBlockSaved + x in AskedBlocks(q, latestBlock)
    {
      forall x
        ensures x in JoinedIndexes(rangeBlocks, specificBlock) <==>
          earliestBlockSaved + x in AskedBlocks(q, latestBlock)
      {
        IndexInRange(rangeBlocks, latestBlock, earliestBlockSaved, x);
        IndexInRange(specificBlock, latestBlock, earliestBlockSaved, x);
      }
    }
  }

  predicate Apart(range: Option<BlockRange>, specific: Option<BlockRange>) {
    range.Some? && specific.Some? ==>
      || specific.value.endIndexFromEarliest < range.value.startIndexFromEarliest
      || range.value.endIndexFromEarliest < specific.value.startIndexFromEarliest
  }

  /** The indexes of both ranges, the lower range first. */
  function JoinedIndexes(range: Option<BlockRange>, specific: Option<BlockRange>): (idxs: seq<int>)
    ensures forall x :: x in idxs <==> x in IndexesOf(range) || x in IndexesOf(specific)
  {
    if range.Some? && specific.Some? && range.value.startIndexFromEarliest >= specific.value.startIndexFromEarliest
    then IndexesOf(specific) + IndexesOf(range)
    else IndexesOf(range) + IndexesOf(specific)
  }

  lemma JoinedAscends(range: Option<BlockRange>, specific: Option<BlockRange>, latestBlock: int,
                      earliestBlockSaved: int)
    requires WellPlaced(range, latestBlock, earliestBlockSaved) && WellPlaced(specific, latestBlock, earliestBlockSaved)
    requires Apart(range, specific)
    ensures var idxs := JoinedIndexes(range, specific);
      Ascending(idxs) && forall k :: 0 <= k < |idxs| ==> 0 <= idxs[k] <= latestBlock - earliestBlockSaved
  {}

  /** The indexes of the blocks of a range; none if there is no range. */
  function IndexesOf(range: Option<BlockRange>): seq<int> {
    if range.None? || range.value.startIndexFromEarliest > range.value.endIndexFromEarliest then []
    else Consecutive(range.value.startIndexFromEarliest, range.value.endIndexFromEarliest + 1)
  }

  /** The indexes of a range are those of its blocks. */
  lemma IndexInRange(range: Option<BlockRange>, latestBlock: int, earliestBlockSaved: int, x: int)
    requires WellPlaced(range, latestBlock, earliestBlockSaved)
    ensures InRange(range, earliestBlockSaved + x) <==> x in IndexesOf(range)
  {
    if InRange(range, earliestBlockSaved + x) {
      InConsecutive(range.value.startIndexFromEarliest, range.value.endIndexFromEarliest + 1, x);
    }
  }

  predicate WellPlaced(range: Option<BlockRange>, latestBlock: int, earliestBlockSaved: int) {
    range.Some? ==>
      && 0 <= earliestBlockSaved <= range.value.fromBlock <= range.value.toBlock <= latestBlock
      && range.value.startIndexFromEarliest == range.value.fromBlock - earliestBlockSaved
      && range.value.endIndexFromEarliest == range.value.toBlock - earliestBlockSaved
  }
}
