/**
  What the bytes of the chain tracker's messages are, apart from reading them back (Protocol Buffers Encoding, "Base 128
  Varints", "Signed Integers" and "Message Structure"), and which bytes are refused.
 */
module WireFormat {
  import opened Common
  import opened Codec
  import opened UnknownFields

  // ---- Numbers ------------------------------------------------------------------------------------

  /** An int64 is written as its two's complement. */
  lemma WordIsTwosComplement(x: int64)
    ensures ToUint64(x) == x % 0x1_0000_0000_0000_0000
  {}

  /** Field numbers are taken from the lowest 32 bits, as a signed number. */
  lemma NumberIsLowWord(u: uint64)
    ensures -0x8000_0000 <= ToInt32(u) < 0x8000_0000
    ensures ToInt32(u) % 0x1_0000_0000 == u % 0x1_0000_0000
  {}

  /** The `k`-th group of seven bits, lowest first. */
  function Digit(v: nat, k: nat): nat
    decreases k
  {
    if k == 0 then v % 128 else Digit(v / 128, k - 1)
  }

  /** What is left above the first `k` groups. */
  function Above(v: nat, k: nat): nat
    decreases k
  {
    if k == 0 then v else Above(v / 128, k - 1)
  }

  /** Each byte of a varint holds its group, and its high bit says whether anything is left above it. */
  lemma {:induction false} VarintDigits(v: nat, k: nat)
    requires k < |Varint(v)|
    ensures Varint(v)[k] == Digit(v, k) + (if Above(v, k + 1) > 0 then 128 else 0)
    ensures k + 1 < |Varint(v)| <==> Above(v, k + 1) > 0
    decreases k
  {
    if v < 128 {
      assert Above(v, 1) == v / 128 == 0;
    } else if k == 0 {
      assert Above(v, 1) == v / 128 > 0;
    } else {
      VarintDigits(v / 128, k - 1);
      assert Varint(v)[k] == Varint(v / 128)[k - 1];
    }
  }

  // ---- Messages -----------------------------------------------------------------------------------

  lemma SmallField(tag: byte, x: int64)
    requires 0 < x < 128
    ensures NumberField(tag, x) == [tag, x]
  {}

  /** The three numbers stand under the tags 8, 16 and 24: fields 1, 2 and 3, as numbers. */
  lemma RequestBytes(a: int64, b: int64, c: int64)
    requires 0 < a < 128 && 0 < b < 128 && 0 < c < 128
    ensures EncodeLatestBlockData(LatestBlockData(a, b, c)) == [8, a, 16, b, 24, c]
    ensures EncodeLatestBlockData(LatestBlockData(a, 0, 0)) == [8, a]
    ensures EncodeLatestBlockData(LatestBlockData(0, b, 0)) == [16, b]
    ensures EncodeLatestBlockData(LatestBlockData(0, 0, c)) == [24, c]
  {
    SmallField(0x8, a);
    SmallField(0x10, b);
    SmallField(0x18, c);
  }

  lemma ShortBytes(tag: byte, bytes: seq<byte>)
    requires |bytes| < 128
    ensures BytesField(tag, bytes) == [tag, |bytes|] + bytes
  {}

  /** A block is its number under the tag 8 and its hash, with the length, under the tag 18. */
  lemma BlockBytes(block: int64, hash: seq<byte>)
    requires 0 < block < 128 && 0 < |hash| < 128
    ensures EncodeBlockStore(BlockStore(block, hash)) == [8, block, 18, |hash|] + hash
  {
    SmallField(0x8, block);
    ShortBytes(0x12, hash);
    assert [8, block] + ([18, |hash|] + hash) == [8, block, 18, |hash|] + hash;
  }

  /** A response is the latest block under the tag 8, and each block, with its length, under the tag 18. */
  lemma ResponseBytes(latest: int64, store: BlockStore)
    requires 0 < latest < 128 && |EncodeBlockStore(store)| < 128
    ensures var bytes := EncodeBlockStore(store);
      EncodeResponse(LatestBlockDataResponse(latest, [store])) == [8, latest, 18, |bytes|] + bytes
  {
    var bytes, fields := EncodeBlockStore(store), HashFields([store]);
    SmallField(0x8, latest);
    ShortBytes(0x12, bytes);
    assert IsField(fields, [store], 0);
    assert Concat(fields, 1) == [];
    assert Concat(fields, 0) == [18, |bytes|] + bytes;
    assert [8, latest] + ([18, |bytes|] + bytes) == [8, latest, 18, |bytes|] + bytes;
  }

  /** Blocks follow each other in order: the field of the next one stands right behind those before it. */
  lemma {:induction false} BlocksInOrder(fields: seq<seq<byte>>, n: nat, k: nat)
    requires n <= k <= |fields|
    ensures exists before :: Concat(fields, n) == before + Concat(fields, k)
    decreases k - n
  {
    if n == k {
      assert Concat(fields, n) == [] + Concat(fields, k);
    } else {
      BlocksInOrder(fields, n + 1, k);
      var before :| Concat(fields, n + 1) == before + Concat(fields, k);
      assert Concat(fields, n) == (fields[n] + before) + Concat(fields, k);
    }
  }

  // ---- What is refused ------------------------------------------------------------------------------

  predicate Continues(data: seq<byte>, i: nat, k: nat) {
    i + k <= |data| && forall j :: i <= j < i + k ==> data[j] >= 128
  }

  /** A number that is cut off, or that goes on for ten bytes. */
  lemma {:induction false} EndlessNumber(data: seq<byte>, i: nat, left: nat)
    requires i <= |data| && Continues(data, i, Min(left, |data| - i))
    ensures Groups(data, i, left) == Failure(if left <= |data| - i then IntOverflow else UnexpectedEOF)
    decreases left
  {
    if left > 0 && i < |data| {
      EndlessNumber(data, i + 1, left - 1);
    }
  }

  lemma BadNumber(data: seq<byte>, i: nat)
    requires i <= |data| && Continues(data, i, Min(10, |data| - i))
    ensures ReadVarint(data, i) == Failure(if 10 <= |data| - i then IntOverflow else UnexpectedEOF)
  {
    EndlessNumber(data, i, MAX_GROUPS);
  }

  /** What each field number and wire type leads to before the payload is looked at. */
  lemma TagIsChecked(data: seq<byte>, i: nat, num: nat, wireType: nat, schema: map<int, Kind>)
    requires num < MAX_FIELD && wireType < 8 && At(data, i, Tag(num, wireType))
    ensures wireType == 4 ==> NextField(data, i, schema) == Failure(EndGroupForNonGroup)
    ensures wireType != 4 && num == 0 ==> NextField(data, i, schema) == Failure(IllegalTag)
    ensures wireType != 4 && num > 0 && num in schema && wireType != WireType(schema[num]) ==>
      NextField(data, i, schema) == Failure(WrongWireType)
  {
    TagRead(data, i, num, wireType);
    SmallNumber(num);
  }

  /** Wire types 6 and 7 do not exist. */
  lemma NoSuchWireType(data: seq<byte>, i: nat, num: nat, wireType: nat, depth: nat)
    requires num < MAX_FIELD && 6 <= wireType < 8 && At(data, i, Tag(num, wireType))
    ensures SkipFrom(data, i, depth) == Failure(IllegalWireType)
  {
    TagRead(data, i, num, wireType);
    assert SkipItem(data, i, depth) == Failure(IllegalWireType);
    assert SkipFrom(data, i, depth) == SkipOn(data, i, depth);
  }

  /** A group that is closed without having been opened. */
  lemma StrayClosing(data: seq<byte>, i: nat, num: nat)
    requires num < MAX_FIELD && At(data, i, Tag(num, 4))
    ensures SkipFrom(data, i, 0) == Failure(UnexpectedEndOfGroup)
  {
    TagRead(data, i, num, 4);
    assert SkipItem(data, i, 0) == Failure(UnexpectedEndOfGroup);
    assert SkipFrom(data, i, 0) == SkipOn(data, i, 0);
  }

  /** A group whose fields end the data is not closed. */
  lemma UnclosedGroup(data: seq<byte>, i: nat, num: nat, fields: Unknowns)
    requires num < MAX_FIELD && ProperFields(fields) && |data| < TWO63
    requires At(data, i, Tag(num, 3) + EncAll(fields)) && i + |Tag(num, 3) + EncAll(fields)| == |data|
    ensures SkipFrom(data, i, 0) == Failure(UnexpectedEOF)
  {
    AtParts(data, i, Tag(num, 3), EncAll(fields));
    SkipOpening(data, i, 0, num);
    FieldsAreSkipped(data, i + |Tag(num, 3)|, 0, fields);
  }

  /** Bytes whose length reaches past the end of the data, past the largest index, or is no length at all. */
  lemma BadLength(data: seq<byte>, i: nat, num: nat, length: uint64)
    requires At(data, i, Varint(length)) && |data| < TWO63 && i + |Varint(length)| + length > |data|
    ensures BytesPayload(data, i, num) ==
      Failure(if i + |Varint(length)| + length < TWO63 then UnexpectedEOF else InvalidLength)
  {
    VarintAt(data, i, length);
  }

  lemma BadSkippedLength(data: seq<byte>, i: nat, num: nat, length: uint64, depth: nat)
    requires num < MAX_FIELD && At(data, i, Tag(num, 2) + Varint(length)) && |data| < TWO63
    requires i + |Tag(num, 2)| + |Varint(length)| + length >= TWO63
    ensures SkipFrom(data, i, depth) == Failure(InvalidLength)
  {
    var tag := Tag(num, 2);
    AtParts(data, i, tag, Varint(length));
    TagRead(data, i, num, 2);
    VarintAt(data, i + |tag|, length);
    assert SkipFrom(data, i, depth) == SkipOn(data, i, depth);
  }

  /** An unknown field whose 8 or 4 bytes are not all there. */
  lemma CutFixedField(data: seq<byte>, i: nat, num: nat, wireType: nat)
    requires num < MAX_FIELD && At(data, i, Tag(num, wireType)) && |data| < TWO63 - 8
    requires wireType == 1 || wireType == 5
    requires i + |Tag(num, wireType)| + (if wireType == 1 then 8 else 4) > |data|
    ensures SkippedPayload(data, i, num) == Failure(UnexpectedEOF)
  {
    var tag := Tag(num, wireType);
    TailAt(data, i, tag);
    AtFront(tag, data[i + |tag|..]);
    TagRead(data[i..], 0, num, wireType);
    assert SkipFrom(data[i..], 0, 0) == SkipOn(data[i..], 0, 0);
  }

  // ---- Requests cut short -----------------------------------------------------------------------------

  lemma {:induction false} VarintLength(v: nat, n: nat)
    requires v < Power128(n) && n >= 1
    ensures |Varint(v)| <= n
    decreases n
  {
    if v >= 128 {
      assert n >= 2 && v / 128 < Power128(n - 1);
      VarintLength(v / 128, n - 1);
    }
  }

  /** A varint that is cut off. */
  lemma NumberIsCut(data: seq<byte>, i: nat, v: uint64, k: nat)
    requires k < |Varint(v)| && At(data, i, Varint(v)[..k]) && i + k == |data|
    ensures ReadVarint(data, i) == Failure(UnexpectedEOF)
  {
    TenGroupsSuffice();
    VarintLength(v, MAX_GROUPS);
    forall j | i <= j < i + k ensures data[j] >= 128 {
      VarintDigits(v, j - i);
      assert data[i + (j - i)] == Varint(v)[..k][j - i];
    }
    BadNumber(data, i);
  }

  lemma TagThenCut(data: seq<byte>, i: nat, num: nat, schema: map<int, Kind>)
    requires 1 <= num < 15 && num in schema && schema[num] == NumberKind
    requires i < |data| && data[i] == 8 * num && ReadVarint(data, i + 1) == Failure(UnexpectedEOF)
    ensures NextField(data, i, schema) == Failure(UnexpectedEOF)
  {
    TagAt(data, i, 8 * num);
    TagParts(num, 0);
  }

  lemma FieldIsCut(data: seq<byte>, i: nat, num: nat, x: int64, field: seq<byte>, k: nat, schema: map<int, Kind>)
    requires 1 <= num < 15 && num in schema && schema[num] == NumberKind
    requires field == NumberField(8 * num, x) && 0 < k < |field|
    requires At(data, i, field[..k]) && i + k == |data|
    ensures NextField(data, i, schema) == Failure(UnexpectedEOF)
  {
    var rest := Varint(ToUint64(x));
    assert field[..k] == [8 * num] + rest[..k - 1];
    AtParts(data, i, [8 * num], rest[..k - 1]);
    FirstAt(data, i, [8 * num]);
    NumberIsCut(data, i + 1, ToUint64(x), k - 1);
    TagThenCut(data, i, num, schema);
  }

  /** The message up to its `num`-th number, of which `k` bytes are there: an error, unless none or all of them are. */
  lemma RequestIsCut(m: LatestBlockData, data: seq<byte>, i: nat, num: nat, x: int64, field: seq<byte>, k: nat)
    requires 1 <= num <= 3 && field == NumberField(8 * num, x) && k <= |field|
    requires x == 0 ==> WithNumber(m, num, 0) == m
    requires At(data, i, field[..k]) && i + k == |data|
    ensures DecodeLatestBlockData(m, data, i) ==
      if k == |field| then Success(WithNumber(m, num, x))
      else if k == 0 then Success(m)
      else Failure(UnexpectedEOF)
  {
    if k == |field| {
      assert field[..k] + [] == field;
      LatestBlockDataStep(m, data, i, num, x, field, []);
    } else if k > 0 {
      FieldIsCut(data, i, num, x, field, k, LATEST_BLOCK_DATA);
      DecodeLatestBlockDataStep(m, data, i);
    }
  }

  /** How much of the request is left when `k` bytes of its encoding are: whole numbers, or nothing but an error. */
  function Remaining(m: LatestBlockData, k: nat): Result<LatestBlockData, Error> {
    var first := |NumberField(0x8, m.fromBlock)|;
    var second := first + |NumberField(0x10, m.toBlock)|;
    if k == |EncodeLatestBlockData(m)| then Success(m)
    else if k == second then Success(m.(specificBlock := 0))
    else if k == first then Success(m.(toBlock := 0, specificBlock := 0))
    else if k == 0 then Success(LatestBlockData(0, 0, 0))
    else Failure(UnexpectedEOF)
  }

  /** A request cut short is noticed, unless it is cut between two numbers. */
  lemma CutRequest(m: LatestBlockData, k: nat, data: seq<byte>, first: seq<byte>, second: seq<byte>, third: seq<byte>)
    requires first == NumberField(0x8, m.fromBlock) && second == NumberField(0x10, m.toBlock)
    requires third == NumberField(0x18, m.specificBlock) && k <= |first| + |second| + |third|
    requires data == (first + (second + third))[..k]
    ensures DecodeLatestBlockData(LatestBlockData(0, 0, 0), data, 0) == Remaining(m, k)
  {
    var none := LatestBlockData(0, 0, 0);
    if k <= |first| {
      assert data == first[..k];
      assert At(data, 0, first[..k]);
      RequestIsCut(none, data, 0, 1, m.fromBlock, first, k);
    } else {
      var left := k - |first|;
      assert data == first + (second + third)[..left];
      assert At(data, 0, first + (second + third)[..left]);
      LatestBlockDataStep(none, data, 0, 1, m.fromBlock, first, (second + third)[..left]);
      CutAfterFirst(m, left, data, |first|, second, third);
    }
  }

  lemma CutAfterFirst(m: LatestBlockData, left: nat, data: seq<byte>, i: nat, second: seq<byte>, third: seq<byte>)
    requires second == NumberField(0x10, m.toBlock) && third == NumberField(0x18, m.specificBlock)
    requires 0 < left <= |second| + |third| && At(data, i, (second + third)[..left]) && i + left == |data|
    ensures DecodeLatestBlockData(m.(toBlock := 0, specificBlock := 0), data, i) ==
      if left == |second| + |third| then Success(m)
      else if left == |second| then Success(m.(specificBlock := 0))
      else Failure(UnexpectedEOF)
  {
    var start := m.(toBlock := 0, specificBlock := 0);
    if left <= |second| {
      assert (second + third)[..left] == second[..left];
      RequestIsCut(start, data, i, 2, m.toBlock, second, left);
    } else {
      assert (second + third)[..left] == second + third[..left - |second|];
      LatestBlockDataStep(start, data, i, 2, m.toBlock, second, third[..left - |second|]);
      RequestIsCut(m.(specificBlock := 0), data, i + |second|, 3, m.specificBlock, third, left - |second|);
    }
  }

  /** Whatever is left of a request's encoding: it decodes to whole numbers of it, or to an error. */
  lemma CutRequestIsNoticed(m: LatestBlockData, k: nat)
    requires k <= |EncodeLatestBlockData(m)|
    ensures DecodeLatestBlockData(LatestBlockData(0, 0, 0), EncodeLatestBlockData(m)[..k], 0) == Remaining(m, k)
  {
    CutRequest(m, k, EncodeLatestBlockData(m)[..k], NumberField(0x8, m.fromBlock), NumberField(0x10, m.toBlock),
               NumberField(0x18, m.specificBlock));
  }
}
