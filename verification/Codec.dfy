/**
  The wire format of the chain tracker's messages (Protocol Buffers Encoding, "Base 128 Varints" and
  "Message Structure"): an encoder that writes backwards into a buffer of the exact size, and a decoder
  that reads forwards and skips fields it does not know.

  Shifts and masks on machine words are written as division, remainder and addition.
 */
module Codec {
  import opened Common

  const TWO63 := 0x8000_0000_0000_0000
  const TWO64 := 0x1_0000_0000_0000_0000

  type byte = x: int | 0 <= x < 256
  type uint64 = x: int | 0 <= x < 0x1_0000_0000_0000_0000
  type int64 = x: int | -0x8000_0000_0000_0000 <= x < 0x8000_0000_0000_0000

  function ToUint64(x: int64): uint64 { if x < 0 then x + TWO64 else x }

  function ToInt64(u: uint64): (x: int64)
    ensures ToUint64(x) == u
  {
    if u >= TWO63 then u - TWO64 else u
  }

  /** What `int32` makes of a word. */
  function ToInt32(u: uint64): int {
    var low := u % 0x1_0000_0000;
    if low >= 0x8000_0000 then low - 0x1_0000_0000 else low
  }

  // ---- Varints -----------------------------------------------------------------------------------

  /** Seven bits a byte, lowest first; the high bit says that more follow. */
  function Varint(v: nat): (s: seq<byte>)
    ensures |s| >= 1
  {
    if v < 128 then [v] else [v % 128 + 128] + Varint(v / 128)
  }

  /** `math/bits.Len64` */
  function Len64(x: nat): nat { if x == 0 then 0 else 1 + Len64(x / 2) }

  /** x | 1 */
  function WithLowBit(x: nat): nat { if x % 2 == 0 then x + 1 else x }

  function Sov(x: nat): nat { (Len64(WithLowBit(x)) + 6) / 7 }

  lemma LowBitKeepsLen(x: nat)
    requires x >= 1
    ensures Len64(WithLowBit(x)) == Len64(x)
  {
    assert WithLowBit(x) / 2 == x / 2;
  }

  lemma ThreeBits(x: nat)
    requires x >= 4
    ensures Len64(x) == 3 + Len64(x / 8)
  {
    assert Len64(x / 2) == 1 + Len64(x / 2 / 2);
    assert x / 2 / 2 / 2 == x / 8;
  }

  lemma SevenBits(x: nat)
    requires x >= 128
    ensures Len64(x) == 7 + Len64(x / 128)
  {
    ThreeBits(x);
    ThreeBits(x / 8);
    assert x / 8 / 8 == x / 64 && x / 64 / 2 == x / 128;
  }

  lemma LenOfSmall(x: nat)
    requires 1 <= x < 128
    ensures 1 <= Len64(x) <= 7
  {
    LenBound(x, 7, 128);
  }

  lemma LenBound(x: nat, n: nat, power: nat)
    requires x < power && power == Power2(n)
    ensures Len64(x) <= n
  {
    if x > 0 {
      LenBound(x / 2, n - 1, Power2(n - 1));
    }
  }

  function Power2(n: nat): (p: nat)
    ensures p >= 1
  {
    if n == 0 then 1 else 2 * Power2(n - 1)
  }

  lemma SovOfSmall(v: nat)
    requires v < 128
    ensures Sov(v) == 1
  {
    assert 128 == Power2(7);
    LenOfSmall(WithLowBit(v));
  }

  lemma SovOfLarge(v: nat)
    requires v >= 128
    ensures Sov(v) == 1 + Sov(v / 128)
  {
    SevenBits(WithLowBit(v));
    assert WithLowBit(v) / 128 == v / 128;
    LowBitKeepsLen(v / 128);
  }

  /** The size computed from the bit length is the number of bytes of the varint. */
  lemma {:induction false} SovIsVarintSize(v: nat)
    ensures Sov(v) == |Varint(v)|
    decreases v
  {
    if v < 128 {
      SovOfSmall(v);
    } else {
      SovOfLarge(v);
      SovIsVarintSize(v / 128);
    }
  }

  /** The buffer with `s` written at `i`. */
  function Patch(b: seq<byte>, i: nat, s: seq<byte>): (r: seq<byte>)
    requires i + |s| <= |b|
    ensures |r| == |b|
  {
    b[..i] + s + b[i + |s|..]
  }

  lemma PatchAfter(b: seq<byte>, i: nat, s: seq<byte>, t: seq<byte>)
    requires i + |s| + |t| <= |b|
    ensures Patch(Patch(b, i, s), i + |s|, t) == Patch(b, i, s + t)
  {}

  lemma PatchBefore(b: seq<byte>, i: nat, s: seq<byte>, t: seq<byte>)
    requires |t| <= i && i + |s| <= |b|
    ensures Patch(Patch(b, i, s), i - |t|, t) == Patch(b, i - |t|, t + s)
  {}

  lemma NothingPatched(b: seq<byte>, i: nat)
    requires i <= |b|
    ensures Patch(b, i, []) == b
  {}

  method PutByte(dAtA: array<byte>, at: nat, b: byte)
    requires at < dAtA.Length
    modifies dAtA
    ensures dAtA[..] == Patch(old(dAtA[..]), at, [b])
  {
    dAtA[at] := b;
  }

  lemma OneMoreByte(written: seq<byte>, rest: nat, b: byte)
    requires rest >= 128 && b == rest % 128 + 128
    ensures (written + [b]) + Varint(rest / 128) == written + Varint(rest)
  {}

  /** One more byte behind those `written` at `base`. */
  method PutNext(dAtA: array<byte>, at: nat, b: byte, ghost before: seq<byte>, ghost base: nat,
                 ghost written: seq<byte>)
    requires base + |written| == at < dAtA.Length == |before| && dAtA[..] == Patch(before, base, written)
    modifies dAtA
    ensures dAtA[..] == Patch(before, base, written + [b])
  {
    PatchAfter(before, base, written, [b]);
    PutByte(dAtA, at, b);
  }

  lemma LastByte(written: seq<byte>, rest: nat)
    requires rest < 128
    ensures written + Varint(rest) == written + [rest]
  {}

  lemma RoomForByte(written: seq<byte>, rest: nat, total: nat)
    requires |written + Varint(rest)| == total
    ensures |written| < total
  {}

  method EncodeVarint(dAtA: array<byte>, offset: nat, v: uint64) returns (base: nat)
    requires |Varint(v)| <= offset <= dAtA.Length
    modifies dAtA
    ensures base == offset - |Varint(v)|
    ensures dAtA[..] == Patch(old(dAtA[..]), base, Varint(v))
  {
    SovIsVarintSize(v);
    base := offset - Sov(v);
    var at, rest := base, v;
    ghost var written: seq<byte>, before, whole := [], dAtA[..], Varint(v);
    NothingPatched(before, base);
    while rest >= 128
      invariant at == base + |written| && written + Varint(rest) == whole
      invariant dAtA[..] == Patch(before, base, written)
      decreases rest
    {
      var b := rest % 128 + 128;
      RoomForByte(written, rest, |whole|);
      OneMoreByte(written, rest, b);
      PutNext(dAtA, at, b, before, base, written);
      written := written + [b];
      rest := rest / 128;
      at := at + 1;
    }
    RoomForByte(written, rest, |whole|);
    LastByte(written, rest);
    PutNext(dAtA, at, rest, before, base, written);
  }

  // ---- Messages and their encoding -----------------------------------------------------------------

  datatype LatestBlockData = LatestBlockData(fromBlock: int64, toBlock: int64, specificBlock: int64)

  datatype BlockStore = BlockStore(block: int64, hash: seq<byte>)

  datatype LatestBlockDataResponse = LatestBlockDataResponse(latestBlock: int64, requestedHashes: seq<BlockStore>)

  /** A number under its tag; zero is left out. */
  function NumberField(tag: byte, x: int64): seq<byte> {
    if x == 0 then [] else [tag] + Varint(ToUint64(x))
  }

  /** Bytes under their tag, with their length. */
  function BytesField(tag: byte, bytes: seq<byte>): seq<byte> { [tag] + Varint(|bytes|) + bytes }

  function FromSecond(m: LatestBlockData): seq<byte> {
    NumberField(0x10, m.toBlock) + NumberField(0x18, m.specificBlock)
  }

  function EncodeLatestBlockData(m: LatestBlockData): seq<byte> { NumberField(0x8, m.fromBlock) + FromSecond(m) }

  function HashBytes(m: BlockStore): seq<byte> { if m.hash == [] then [] else BytesField(0x12, m.hash) }

  function EncodeBlockStore(m: BlockStore): seq<byte> {
    NumberField(0x8, m.block) + HashBytes(m)
  }

  function HashField(m: BlockStore): seq<byte> { BytesField(0x12, EncodeBlockStore(m)) }

  predicate IsField(fields: seq<seq<byte>>, hashes: seq<BlockStore>, n: nat)
    requires n < |fields| == |hashes|
  {
    fields[n] == HashField(hashes[n])
  }

  /** The fields are those of the blocks, one by one. */
  predicate Matches(fields: seq<seq<byte>>, hashes: seq<BlockStore>) {
    |fields| == |hashes| && forall n :: 0 <= n < |fields| ==> IsField(fields, hashes, n)
  }

  function HashFields(hashes: seq<BlockStore>): (fields: seq<seq<byte>>)
    ensures Matches(fields, hashes)
  {
    seq(|hashes|, n requires 0 <= n < |hashes| => HashField(hashes[n]))
  }

  /** The fields from the `n`-th on, one after the other. */
  function Concat(fields: seq<seq<byte>>, n: nat): seq<byte>
    requires n <= |fields|
    decreases |fields| - n
  {
    if n == |fields| then [] else fields[n] + Concat(fields, n + 1)
  }

  function EncodeResponse(m: LatestBlockDataResponse): seq<byte> {
    NumberField(0x8, m.latestBlock) + Concat(HashFields(m.requestedHashes), 0)
  }

  // ---- Sizes ----------------------------------------------------------------------------------------

  function NumberSize(x: int64): (n: nat)
    ensures n == |NumberField(0, x)|
  {
    SovIsVarintSize(ToUint64(x));
    if x != 0 then 1 + Sov(ToUint64(x)) else 0
  }

  function LatestBlockDataSize(m: LatestBlockData): (n: nat)
    ensures n == |EncodeLatestBlockData(m)|
  {
    NumberSize(m.fromBlock) + NumberSize(m.toBlock) + NumberSize(m.specificBlock)
  }

  function BlockStoreSize(m: BlockStore): (n: nat)
    ensures n == |EncodeBlockStore(m)|
  {
    var l := |m.hash|;
    SovIsVarintSize(l);
    NumberSize(m.block) + if l > 0 then 1 + l + Sov(l) else 0
  }

  lemma HashFieldSize(m: BlockStore)
    ensures |HashField(m)| == 1 + BlockStoreSize(m) + Sov(BlockStoreSize(m))
  {
    SovIsVarintSize(BlockStoreSize(m));
  }

  lemma ConcatGrows(fields: seq<seq<byte>>, n: nat)
    requires n <= |fields|
    ensures |Concat(fields, 0)| >= |Concat(fields, n)|
  {
    if n > 0 {
      ConcatGrows(fields, n - 1);
    }
  }

  /** The loop over the blocks. */
  method HashesSize(hashes: seq<BlockStore>, ghost fields: seq<seq<byte>>) returns (n: nat)
    requires Matches(fields, hashes)
    ensures n == |Concat(fields, 0)|
  {
    n := 0;
    for i := 0 to |hashes|
      invariant n + |Concat(fields, i)| == |Concat(fields, 0)|
    {
      assert IsField(fields, hashes, i);
      var l := BlockStoreSize(hashes[i]);
      HashFieldSize(hashes[i]);
      n := n + 1 + l + Sov(l);
    }
  }

  method ResponseSize(m: LatestBlockDataResponse) returns (n: nat)
    ensures n == |EncodeResponse(m)|
  {
    n := HashesSize(m.requestedHashes, HashFields(m.requestedHashes));
    if m.latestBlock != 0 {
      n := n + NumberSize(m.latestBlock);
    }
  }

  // ---- Writing backwards ------------------------------------------------------------------------------

  /** A number field in front of the `bytes` that have been written at `i`. */
  method PutNumber(dAtA: array<byte>, i: nat, tag: byte, x: int64, ghost before: seq<byte>, ghost bytes: seq<byte>)
    returns (at: nat)
    requires i + |bytes| <= dAtA.Length == |before| && dAtA[..] == Patch(before, i, bytes)
    requires |NumberField(tag, x)| <= i
    modifies dAtA
    ensures at == i - |NumberField(tag, x)|
    ensures dAtA[..] == Patch(before, at, NumberField(tag, x) + bytes)
  {
    at := i;
    if x != 0 {
      PatchBefore(before, i, bytes, Varint(ToUint64(x)));
      at := EncodeVarint(dAtA, at, ToUint64(x));
      PatchBefore(before, at, Varint(ToUint64(x)) + bytes, [tag]);
      at := at - 1;
      PutByte(dAtA, at, tag);
      assert [tag] + (Varint(ToUint64(x)) + bytes) == NumberField(tag, x) + bytes;
    } else {
      assert NumberField(tag, x) + bytes == bytes;
    }
  }

  /** The length and the tag of the `size` bytes that have been written at `i`. */
  method PutHeader(dAtA: array<byte>, i: nat, size: nat, tag: byte, ghost before: seq<byte>, ghost bytes: seq<byte>)
    returns (at: nat)
    requires size == |bytes| < TWO63
    requires i + |bytes| <= dAtA.Length == |before| && dAtA[..] == Patch(before, i, bytes)
    requires 1 + |Varint(size)| <= i
    modifies dAtA
    ensures at == i - 1 - |Varint(size)|
    ensures dAtA[..] == Patch(before, at, BytesField(tag, bytes))
  {
    PatchBefore(before, i, bytes, Varint(size));
    at := EncodeVarint(dAtA, i, size);
    PatchBefore(before, at, Varint(size) + bytes, [tag]);
    at := at - 1;
    PutByte(dAtA, at, tag);
    assert [tag] + (Varint(size) + bytes) == BytesField(tag, bytes);
  }

  method PutThird(m: LatestBlockData, dAtA: array<byte>, end: nat) returns (i: nat)
    requires |NumberField(0x18, m.specificBlock)| <= end <= dAtA.Length
    modifies dAtA
    ensures i == end - |NumberField(0x18, m.specificBlock)|
    ensures dAtA[..] == Patch(old(dAtA[..]), i, NumberField(0x18, m.specificBlock))
  {
    NothingPatched(dAtA[..], end);
    i := PutNumber(dAtA, end, 0x18, m.specificBlock, dAtA[..], []);
    assert NumberField(0x18, m.specificBlock) + [] == NumberField(0x18, m.specificBlock);
  }

  method PutFromSecond(m: LatestBlockData, dAtA: array<byte>, end: nat) returns (i: nat)
    requires |FromSecond(m)| <= end <= dAtA.Length
    modifies dAtA
    ensures i == end - |FromSecond(m)|
    ensures dAtA[..] == Patch(old(dAtA[..]), i, FromSecond(m))
  {
    ghost var before := dAtA[..];
    i := PutThird(m, dAtA, end);
    i := PutNumber(dAtA, i, 0x10, m.toBlock, before, NumberField(0x18, m.specificBlock));
  }

  method MarshalLatestBlockDataTo(m: LatestBlockData, dAtA: array<byte>, end: nat) returns (n: nat)
    requires |EncodeLatestBlockData(m)| <= end <= dAtA.Length
    modifies dAtA
    ensures n == |EncodeLatestBlockData(m)|
    ensures dAtA[..] == Patch(old(dAtA[..]), end - n, EncodeLatestBlockData(m))
  {
    ghost var before := dAtA[..];
    var i := PutFromSecond(m, dAtA, end);
    i := PutNumber(dAtA, i, 0x8, m.fromBlock, before, FromSecond(m));
    return end - i;
  }

  /** The bytes, their length and the tag, in front of `i`. */
  method PutBytes(dAtA: array<byte>, i: nat, tag: byte, bytes: seq<byte>) returns (at: nat)
    requires |BytesField(tag, bytes)| <= i <= dAtA.Length && |bytes| < TWO63
    modifies dAtA
    ensures at == i - |BytesField(tag, bytes)|
    ensures dAtA[..] == Patch(old(dAtA[..]), at, BytesField(tag, bytes))
  {
    ghost var before := dAtA[..];
    at := i - |bytes|;
    forall k | 0 <= k < |bytes| {
      dAtA[at + k] := bytes[k];
    }
    assert dAtA[..] == Patch(before, at, bytes);
    at := PutHeader(dAtA, at, |bytes|, tag, before, bytes);
  }

  method MarshalBlockStoreTo(m: BlockStore, dAtA: array<byte>, end: nat) returns (n: nat)
    requires |EncodeBlockStore(m)| <= end <= dAtA.Length && |m.hash| < TWO63
    modifies dAtA
    ensures n == |EncodeBlockStore(m)|
    ensures dAtA[..] == Patch(old(dAtA[..]), end - n, EncodeBlockStore(m))
  {
    ghost var before := dAtA[..];
    ghost var bytes := HashBytes(m);
    var i := end;
    NothingPatched(before, end);
    if |m.hash| > 0 {
      i := PutBytes(dAtA, i, 0x12, m.hash);
    }
    i := PutNumber(dAtA, i, 0x8, m.block, before, bytes);
    return end - i;
  }

  ghost predicate LengthsFit(m: LatestBlockDataResponse) {
    |EncodeResponse(m)| < TWO63
  }

  /** A block in front of the `bytes` that have been written at `i`: the block, its length, and the tag. */
  method PutHash(dAtA: array<byte>, i: nat, store: BlockStore, ghost before: seq<byte>, ghost bytes: seq<byte>,
                 ghost field: seq<byte>)
    returns (at: nat)
    requires i + |bytes| <= dAtA.Length == |before| && dAtA[..] == Patch(before, i, bytes)
    requires field == HashField(store) && |field| <= i && |field| < TWO63
    modifies dAtA
    ensures at == i - |field|
    ensures dAtA[..] == Patch(before, at, field + bytes)
  {
    ghost var started := dAtA[..];
    var size := MarshalBlockStoreTo(store, dAtA, i);
    at := PutHeader(dAtA, i - size, size, 0x12, started, EncodeBlockStore(store));
    PatchBefore(before, i, bytes, field);
  }

  /** The `n`-th block in front of the later ones. */
  method PutPrevious(dAtA: array<byte>, i: nat, hashes: seq<BlockStore>, n: nat, ghost before: seq<byte>,
                     ghost fields: seq<seq<byte>>)
    returns (at: nat)
    requires Matches(fields, hashes) && n < |hashes| && |Concat(fields, n)| < TWO63
    requires |fields[n]| <= i && i + |Concat(fields, n + 1)| <= dAtA.Length == |before|
    requires dAtA[..] == Patch(before, i, Concat(fields, n + 1))
    modifies dAtA
    ensures at == i - |fields[n]| && at + |Concat(fields, n)| <= dAtA.Length
    ensures dAtA[..] == Patch(before, at, Concat(fields, n))
  {
    assert IsField(fields, hashes, n);
    at := PutHash(dAtA, i, hashes[n], before, Concat(fields, n + 1), fields[n]);
  }

  lemma NextConcat(fields: seq<seq<byte>>, n: nat)
    requires n < |fields|
    ensures |Concat(fields, n)| == |fields[n]| + |Concat(fields, n + 1)| && |Concat(fields, n)| <= |Concat(fields, 0)|
  {
    ConcatGrows(fields, n);
  }

  /** The loop over the blocks, from the last one to the first. */
  method PutHashes(dAtA: array<byte>, end: nat, hashes: seq<BlockStore>, ghost before: seq<byte>,
                   ghost fields: seq<seq<byte>>)
    returns (i: nat)
    requires Matches(fields, hashes)
    requires |Concat(fields, 0)| <= end <= dAtA.Length && |Concat(fields, 0)| < TWO63
    requires dAtA[..] == before
    modifies dAtA
    ensures i == end - |Concat(fields, 0)|
    ensures dAtA[..] == Patch(before, i, Concat(fields, 0))
  {
    i := end;
    var index := |hashes|;
    NothingPatched(before, end);
    while index > 0
      invariant 0 <= index <= |hashes|
      invariant i == end - |Concat(fields, index)|
      invariant dAtA[..] == Patch(before, i, Concat(fields, index))
    {
      index := index - 1;
      NextConcat(fields, index);
      i := PutPrevious(dAtA, i, hashes, index, before, fields);
    }
  }

  method MarshalResponseTo(m: LatestBlockDataResponse, dAtA: array<byte>, end: nat) returns (n: nat)
    requires |EncodeResponse(m)| <= end <= dAtA.Length && LengthsFit(m)
    modifies dAtA
    ensures n == |EncodeResponse(m)|
    ensures dAtA[..] == Patch(old(dAtA[..]), end - n, EncodeResponse(m))
  {
    ghost var before := dAtA[..];
    ghost var fields := HashFields(m.requestedHashes);
    var i := PutHashes(dAtA, end, m.requestedHashes, before, fields);
    i := PutNumber(dAtA, i, 0x8, m.latestBlock, before, Concat(fields, 0));
    return end - i;
  }

  method MarshalLatestBlockData(m: LatestBlockData) returns (bytes: seq<byte>)
    ensures bytes == EncodeLatestBlockData(m)
  {
    var size := LatestBlockDataSize(m);
    var dAtA := new byte[size];
    var n := MarshalLatestBlockDataTo(m, dAtA, size);
    return dAtA[..n];
  }

  method MarshalResponse(m: LatestBlockDataResponse) returns (bytes: seq<byte>)
    requires LengthsFit(m)
    ensures bytes == EncodeResponse(m)
  {
    var size := ResponseSize(m);
    var dAtA := new byte[size];
    var n := MarshalResponseTo(m, dAtA, size);
    return dAtA[..n];
  }

  // ---- Reading varints ---------------------------------------------------------------------------------

  datatype Error =
    | IntOverflow
    | UnexpectedEOF
    | InvalidLength
    | EndGroupForNonGroup
    | IllegalTag
    | WrongWireType
    | IllegalWireType
    | UnexpectedEndOfGroup

  /** A value, and the index after it. */
  datatype Read = Read(value: nat, next: nat)

  /** The number in the groups of seven bits from `i` on, at most `left` of them. */
  function Groups(data: seq<byte>, i: nat, left: nat): (r: Result<Read, Error>)
    requires i <= |data|
    ensures r.Success? ==> i < r.value.next <= |data|
    decreases |data| - i
  {
    if left == 0 then Failure(IntOverflow)
    else if i >= |data| then Failure(UnexpectedEOF)
    else if data[i] < 128 then Success(Read(data[i], i + 1))
    else
      match Groups(data, i + 1, left - 1)
      case Failure(e) => Failure(e)
      case Success(rest) => Success(Read(data[i] % 128 + 128 * rest.value, rest.next))
  }

  /** A shift by 64 or more is an overflow: at most this many groups of seven bits are read. */
  const MAX_GROUPS: nat := 10

  /** Ten groups reach past 64 bits; what is shifted out is lost. */
  function ReadVarint(data: seq<byte>, i: nat): (r: Result<Read, Error>)
    requires i <= |data|
    ensures r.Success? ==> i < r.value.next <= |data| && r.value.value < TWO64
  {
    match Groups(data, i, MAX_GROUPS)
    case Failure(e) => Failure(e)
    case Success(r) => Success(Read(r.value % 0x1_0000_0000_0000_0000, r.next))
  }

  function Scaled(r: Result<Read, Error>, total: nat, scale: nat): Result<Read, Error> {
    match r
    case Failure(e) => Failure(e)
    case Success(r) => Success(Read(total + scale * r.value, r.next))
  }

  lemma NextGroup(data: seq<byte>, i: nat, left: nat, total: nat, scale: nat)
    requires i < |data| && left > 0 && data[i] >= 128
    ensures Scaled(Groups(data, i, left), total, scale)
         == Scaled(Groups(data, i + 1, left - 1), total + Shifted(data[i], scale), scale * 128)
  {
    var rest := Groups(data, i + 1, left - 1);
    if rest.Success? {
      var b, v := data[i] % 128, rest.value.value;
      assert scale * (b + 128 * v) == b * scale + (scale * 128) * v;
    }
  }

  lemma AddModulo(total: nat, x: nat)
    ensures (total % 0x1_0000_0000_0000_0000 + x) % 0x1_0000_0000_0000_0000 == (total + x) % 0x1_0000_0000_0000_0000
  {
    var q := total / 0x1_0000_0000_0000_0000;
    assert total + x == q * TWO64 + (total % 0x1_0000_0000_0000_0000 + x);
    ModuloShift(total % 0x1_0000_0000_0000_0000 + x, q);
  }

  lemma ModuloShift(y: nat, q: nat)
    ensures (q * TWO64 + y) % 0x1_0000_0000_0000_0000 == y % 0x1_0000_0000_0000_0000
  {
    if q > 0 {
      ModuloShift(y, q - 1);
      assert q * TWO64 + y == ((q - 1) * TWO64 + y) + TWO64;
    }
  }

  /** `b & 0x7F` shifted left. */
  function Shifted(b: nat, scale: nat): nat { b % 128 * scale }

  lemma LastGroup(data: seq<byte>, i: nat, left: nat, total: nat, scale: nat)
    requires i < |data| && left > 0 && data[i] < 128
    ensures Scaled(Groups(data, i, left), total, scale) == Success(Read(total + Shifted(data[i], scale), i + 1))
  {
    assert scale * data[i] == data[i] % 128 * scale;
  }

  method ReadVarintChainTracker(data: seq<byte>, start: nat) returns (r: Result<Read, Error>)
    requires start <= |data|
    ensures r == ReadVarint(data, start)
  {
    var iNdEx, value, shift, scale: nat := start, 0, 0, 1;
    ghost var total: nat, left: nat := 0, MAX_GROUPS;
    while true
      invariant start <= iNdEx <= |data| && shift == 7 * (10 - left) && 0 <= left <= 10
      invariant value == total % 0x1_0000_0000_0000_0000
      invariant Groups(data, start, MAX_GROUPS) == Scaled(Groups(data, iNdEx, left), total, scale)
      decreases left
    {
      if shift >= 64 {
        return Failure(IntOverflow);
      }
      if iNdEx >= |data| {
        return Failure(UnexpectedEOF);
      }
      var b := data[iNdEx];
      iNdEx := iNdEx + 1;
      var group := Shifted(b, scale);
      AddModulo(total, group);
      value := (value + group) % 0x1_0000_0000_0000_0000;
      if b < 128 {
        LastGroup(data, iNdEx - 1, left, total, scale);
        return Success(Read(value, iNdEx));
      }
      NextGroup(data, iNdEx - 1, left, total, scale);
      total, left := total + group, left - 1;
      shift, scale := shift + 7, scale * 128;
    }
  }

  // ---- Skipping a field ----------------------------------------------------------------------------------

  /** The index after one item of a field that is skipped, and the depth of groups there. */
  datatype Place = Place(index: nat, depth: nat)

  function SkipVarint(d: seq<byte>, i: nat, depth: nat): Result<Place, Error>
    requires i <= |d|
  {
    match ReadVarint(d, i)
    case Failure(e) => Failure(e)
    case Success(r) => Success(Place(r.next, depth))
  }

  /** A length that does not fit an int64 shows as a negative number. */
  function SkipBytes(d: seq<byte>, i: nat, depth: nat): Result<Place, Error>
    requires i <= |d|
  {
    match ReadVarint(d, i)
    case Failure(e) => Failure(e)
    case Success(r) =>
      if ToInt64(r.value) < 0 then Failure(InvalidLength) else Success(Place(r.next + r.value, depth))
  }

  function SkipItem(d: seq<byte>, i: nat, depth: nat): (r: Result<Place, Error>)
    requires i < |d|
    ensures r.Success? ==> r.value.index > i
  {
    match ReadVarint(d, i)
    case Failure(e) => Failure(e)
    case Success(wire) =>
      var j := wire.next;
      match wire.value % 8
      case 0 => SkipVarint(d, j, depth)
      case 1 => Success(Place(j + 8, depth))
      case 2 => SkipBytes(d, j, depth)
      case 3 => Success(Place(j, depth + 1))
      case 4 => if depth == 0 then Failure(UnexpectedEndOfGroup) else Success(Place(j, depth - 1))
      case 5 => Success(Place(j + 4, depth))
      case _ => Failure(IllegalWireType)
  }

  /** The index after the field that starts at `i`, at this depth of groups; it may lie past the end. */
  function SkipFrom(d: seq<byte>, i: nat, depth: nat): (r: Result<nat, Error>)
    ensures r.Success? ==> i < r.value
    decreases if i < |d| then |d| - i else 0, 1
  {
    if i >= |d| then Failure(UnexpectedEOF) else SkipOn(d, i, depth)
  }

  function SkipOn(d: seq<byte>, i: nat, depth: nat): (r: Result<nat, Error>)
    requires i < |d|
    ensures r.Success? ==> i < r.value
    decreases |d| - i, 0
  {
    match SkipItem(d, i, depth)
    case Failure(e) => Failure(e)
    case Success(p) =>
      if Wrapped(p.index) < 0 then Failure(InvalidLength)
      else if p.depth == 0 then Success(p.index)
      else SkipFrom(d, p.index, p.depth)
  }

  /** The switch on the wire type. */
  method SkipOneItem(d: seq<byte>, start: nat, outer: nat) returns (r: Result<Place, Error>)
    requires start < |d|
    ensures r == SkipItem(d, start, outer)
  {
    var wire := ReadVarintChainTracker(d, start);
    if wire.Failure? {
      return Failure(wire.error);
    }
    var iNdEx, depth := wire.value.next, outer;
    match wire.value.value % 8 {
      case 0 =>
        var skipped := ReadVarintChainTracker(d, iNdEx);
        if skipped.Failure? {
          return Failure(skipped.error);
        }
        iNdEx := skipped.value.next;
      case 1 =>
        iNdEx := iNdEx + 8;
      case 2 =>
        var length := ReadVarintChainTracker(d, iNdEx);
        if length.Failure? {
          return Failure(length.error);
        }
        if ToInt64(length.value.value) < 0 {
          return Failure(InvalidLength);
        }
        iNdEx := length.value.next + length.value.value;
      case 3 =>
        depth := depth + 1;
      case 4 =>
        if depth == 0 {
          return Failure(UnexpectedEndOfGroup);
        }
        depth := depth - 1;
      case 5 =>
        iNdEx := iNdEx + 4;
      case _ =>
        return Failure(IllegalWireType);
    }
    return Success(Place(iNdEx, depth));
  }

  method SkipChainTracker(d: seq<byte>) returns (r: Result<nat, Error>)
    ensures r == SkipFrom(d, 0, 0)
  {
    var iNdEx: nat, depth: nat := 0, 0;
    while iNdEx < |d|
      invariant SkipFrom(d, 0, 0) == SkipFrom(d, iNdEx, depth)
      decreases if iNdEx < |d| then |d| - iNdEx else 0
    {
      var place := SkipOneItem(d, iNdEx, depth);
      if place.Failure? {
        return Failure(place.error);
      }
      iNdEx, depth := place.value.index, place.value.depth;
      if Wrapped(iNdEx) < 0 {
        return Failure(InvalidLength);
      }
      if depth == 0 {
        return Success(iNdEx);
      }
    }
    return Failure(UnexpectedEOF);
  }

  /** The sum of two lengths, as an int64. */
  function Wrapped(x: nat): int { if TWO63 <= x < TWO64 then x - TWO64 else x }

  // ---- Fields -------------------------------------------------------------------------------------------

  datatype Kind = NumberKind | BytesKind

  datatype Payload = Number(number: uint64) | Bytes(bytes: seq<byte>) | Skipped

  datatype Field = Field(num: int, payload: Payload, next: nat)

  function NumberPayload(data: seq<byte>, i: nat, num: int): (r: Result<Field, Error>)
    requires i <= |data|
    ensures r.Success? ==> i < r.value.next <= |data|
  {
    match ReadVarint(data, i)
    case Failure(e) => Failure(e)
    case Success(r) => Success(Field(num, Number(r.value), r.next))
  }

  function BytesPayload(data: seq<byte>, i: nat, num: int): (r: Result<Field, Error>)
    requires i <= |data|
    ensures r.Success? ==> i < r.value.next <= |data|
  {
    match ReadVarint(data, i)
    case Failure(e) => Failure(e)
    case Success(r) =>
      if ToInt64(r.value) < 0 then Failure(InvalidLength)
      else
        var postIndex := r.next + r.value;
        if Wrapped(postIndex) < 0 then Failure(InvalidLength)
        else if postIndex > |data| then Failure(UnexpectedEOF)
        else Success(Field(num, Bytes(data[r.next..postIndex]), postIndex))
  }

  function SkippedPayload(data: seq<byte>, i: nat, num: int): (r: Result<Field, Error>)
    requires i <= |data|
    ensures r.Success? ==> i < r.value.next <= |data|
  {
    match SkipFrom(data[i..], 0, 0)
    case Failure(e) => Failure(e)
    case Success(skippy) =>
      if Wrapped(i + skippy) < 0 then Failure(InvalidLength)
      else if i + skippy > |data| then Failure(UnexpectedEOF)
      else Success(Field(num, Skipped, i + skippy))
  }

  /** The field at `i`, given which numbers the message knows and how they are encoded. */
  function NextField(data: seq<byte>, i: nat, schema: map<int, Kind>): (r: Result<Field, Error>)
    requires i <= |data|
    ensures r.Success? ==> i < r.value.next <= |data|
  {
    match ReadVarint(data, i)
    case Failure(e) => Failure(e)
    case Success(wire) =>
      var fieldNum := ToInt32(wire.value / 8);
      var wireType := wire.value % 8;
      if wireType == 4 then Failure(EndGroupForNonGroup)
      else if fieldNum <= 0 then Failure(IllegalTag)
      else if fieldNum !in schema then SkippedPayload(data, i, fieldNum)
      else
        match schema[fieldNum]
        case NumberKind => if wireType != 0 then Failure(WrongWireType) else NumberPayload(data, wire.next, fieldNum)
        case BytesKind => if wireType != 2 then Failure(WrongWireType) else BytesPayload(data, wire.next, fieldNum)
  }

  method ReadField(data: seq<byte>, i: nat, schema: map<int, Kind>) returns (r: Result<Field, Error>)
    requires i <= |data|
    ensures r == NextField(data, i, schema)
  {
    var wire := ReadVarintChainTracker(data, i);
    if wire.Failure? {
      return Failure(wire.error);
    }
    var fieldNum, wireType := ToInt32(wire.value.value / 8), wire.value.value % 8;
    var iNdEx := wire.value.next;
    if wireType == 4 {
      return Failure(EndGroupForNonGroup);
    }
    if fieldNum <= 0 {
      return Failure(IllegalTag);
    }
    if fieldNum !in schema {
      var skippy := SkipChainTracker(data[i..]);
      if skippy.Failure? {
        return Failure(skippy.error);
      }
      if Wrapped(i + skippy.value) < 0 {
        return Failure(InvalidLength);
      }
      if i + skippy.value > |data| {
        return Failure(UnexpectedEOF);
      }
      return Success(Field(fieldNum, Skipped, i + skippy.value));
    }
    if wireType != (if schema[fieldNum] == NumberKind then 0 else 2) {
      return Failure(WrongWireType);
    }
    var number := ReadVarintChainTracker(data, iNdEx);
    if number.Failure? {
      return Failure(number.error);
    }
    if schema[fieldNum] == NumberKind {
      return Success(Field(fieldNum, Number(number.value.value), number.value.next));
    }
    iNdEx := number.value.next;
    if ToInt64(number.value.value) < 0 {
      return Failure(InvalidLength);
    }
    var postIndex := iNdEx + number.value.value;
    if Wrapped(postIndex) < 0 {
      return Failure(InvalidLength);
    }
    if postIndex > |data| {
      return Failure(UnexpectedEOF);
    }
    return Success(Field(fieldNum, Bytes(data[iNdEx..postIndex]), postIndex));
  }

  // ---- Messages ----------------------------------------------------------------------------------------

  const LATEST_BLOCK_DATA: map<int, Kind> := map[1 := NumberKind, 2 := NumberKind, 3 := NumberKind]
  const BLOCK_STORE: map<int, Kind> := map[1 := NumberKind, 2 := BytesKind]
  const RESPONSE: map<int, Kind> := map[1 := NumberKind, 2 := BytesKind]

  /** Fields are taken in whatever order they come, each over what was there. */
  function SetLatestBlockData(m: LatestBlockData, f: Field): LatestBlockData {
    if !f.payload.Number? then m
    else if f.num == 1 then m.(fromBlock := ToInt64(f.payload.number))
    else if f.num == 2 then m.(toBlock := ToInt64(f.payload.number))
    else m.(specificBlock := ToInt64(f.payload.number))
  }

  function DecodeLatestBlockData(m: LatestBlockData, data: seq<byte>, i: nat): Result<LatestBlockData, Error>
    requires i <= |data|
    decreases |data| - i, 2
  {
    if i == |data| then Success(m) else DecodeLatestBlockDataRest(m, data, i)
  }

  // a step of its own, so that proofs about whole messages do not unfold single fields
  function DecodeLatestBlockDataRest(m: LatestBlockData, data: seq<byte>, i: nat): Result<LatestBlockData, Error>
    requires i < |data|
    decreases |data| - i, 1
  {
    DecodeLatestBlockDataField(m, data, i)
  }

  function DecodeLatestBlockDataField(m: LatestBlockData, data: seq<byte>, i: nat): Result<LatestBlockData, Error>
    requires i < |data|
    decreases |data| - i, 0
  {
    match NextField(data, i, LATEST_BLOCK_DATA)
    case Failure(e) => Failure(e)
    case Success(f) => DecodeLatestBlockData(SetLatestBlockData(m, f), data, f.next)
  }

  lemma DecodeLatestBlockDataStep(m: LatestBlockData, data: seq<byte>, i: nat)
    requires i < |data|
    ensures DecodeLatestBlockData(m, data, i) == DecodeLatestBlockDataField(m, data, i)
  {
    assert DecodeLatestBlockData(m, data, i) == DecodeLatestBlockDataRest(m, data, i);
  }

  function SetBlockStore(m: BlockStore, f: Field): BlockStore {
    match f.payload
    case Number(number) => m.(block := ToInt64(number))
    case Bytes(bytes) => m.(hash := bytes)
    case Skipped => m
  }

  function DecodeBlockStore(m: BlockStore, data: seq<byte>, i: nat): Result<BlockStore, Error>
    requires i <= |data|
    decreases |data| - i, 2
  {
    if i == |data| then Success(m) else DecodeBlockStoreRest(m, data, i)
  }

  // a step of its own, so that proofs about whole messages do not unfold single fields
  function DecodeBlockStoreRest(m: BlockStore, data: seq<byte>, i: nat): Result<BlockStore, Error>
    requires i < |data|
    decreases |data| - i, 1
  {
    DecodeBlockStoreField(m, data, i)
  }

  function DecodeBlockStoreField(m: BlockStore, data: seq<byte>, i: nat): Result<BlockStore, Error>
    requires i < |data|
    decreases |data| - i, 0
  {
    match NextField(data, i, BLOCK_STORE)
    case Failure(e) => Failure(e)
    case Success(f) => DecodeBlockStore(SetBlockStore(m, f), data, f.next)
  }

  lemma DecodeBlockStoreStep(m: BlockStore, data: seq<byte>, i: nat)
    requires i < |data|
    ensures DecodeBlockStore(m, data, i) == DecodeBlockStoreField(m, data, i)
  {
    assert DecodeBlockStore(m, data, i) == DecodeBlockStoreRest(m, data, i);
  }

  const NEW_BLOCK_STORE := BlockStore(0, [])

  /** Each nested message is appended to those there are. */
  function SetResponse(m: LatestBlockDataResponse, f: Field): Result<LatestBlockDataResponse, Error> {
    match f.payload
    case Number(number) => Success(m.(latestBlock := ToInt64(number)))
    case Bytes(bytes) =>
      (match DecodeBlockStore(NEW_BLOCK_STORE, bytes, 0)
       case Failure(e) => Failure(e)
       case Success(store) => Success(m.(requestedHashes := m.requestedHashes + [store])))
    case Skipped => Success(m)
  }

  function DecodeResponse(m: LatestBlockDataResponse, data: seq<byte>, i: nat): Result<LatestBlockDataResponse, Error>
    requires i <= |data|
    decreases |data| - i, 2
  {
    if i == |data| then Success(m) else DecodeResponseRest(m, data, i)
  }

  // a step of its own, so that proofs about whole messages do not unfold single fields
  function DecodeResponseRest(m: LatestBlockDataResponse, data: seq<byte>,
                              i: nat): Result<LatestBlockDataResponse, Error>
    requires i < |data|
    decreases |data| - i, 1
  {
    DecodeResponseField(m, data, i)
  }

  function DecodeResponseField(m: LatestBlockDataResponse, data: seq<byte>,
                               i: nat): Result<LatestBlockDataResponse, Error>
    requires i < |data|
    decreases |data| - i, 0
  {
    match NextField(data, i, RESPONSE)
    case Failure(e) => Failure(e)
    case Success(f) =>
      match SetResponse(m, f)
      case Failure(e) => Failure(e)
      case Success(m') => DecodeResponse(m', data, f.next)
  }

  lemma DecodeResponseStep(m: LatestBlockDataResponse, data: seq<byte>, i: nat)
    requires i < |data|
    ensures DecodeResponse(m, data, i) == DecodeResponseField(m, data, i)
  {
    assert DecodeResponse(m, data, i) == DecodeResponseRest(m, data, i);
  }

  method UnmarshalLatestBlockData(start: LatestBlockData, dAtA: seq<byte>) returns (r: Result<LatestBlockData, Error>)
    ensures r == DecodeLatestBlockData(start, dAtA, 0)
  {
    var m, iNdEx: nat := start, 0;
    while iNdEx < |dAtA|
      invariant iNdEx <= |dAtA|
      invariant DecodeLatestBlockData(start, dAtA, 0) == DecodeLatestBlockData(m, dAtA, iNdEx)
    {
      DecodeLatestBlockDataStep(m, dAtA, iNdEx);
      var field := ReadField(dAtA, iNdEx, LATEST_BLOCK_DATA);
      if field.Failure? {
        return Failure(field.error);
      }
      m := SetLatestBlockData(m, field.value);
      iNdEx := field.value.next;
    }
    return Success(m);
  }

  method UnmarshalBlockStore(start: BlockStore, dAtA: seq<byte>) returns (r: Result<BlockStore, Error>)
    ensures r == DecodeBlockStore(start, dAtA, 0)
  {
    var m, iNdEx: nat := start, 0;
    while iNdEx < |dAtA|
      invariant iNdEx <= |dAtA|
      invariant DecodeBlockStore(start, dAtA, 0) == DecodeBlockStore(m, dAtA, iNdEx)
    {
      DecodeBlockStoreStep(m, dAtA, iNdEx);
      var field := ReadField(dAtA, iNdEx, BLOCK_STORE);
      if field.Failure? {
        return Failure(field.error);
      }
      m := SetBlockStore(m, field.value);
      iNdEx := field.value.next;
    }
    return Success(m);
  }

  method UnmarshalResponse(start: LatestBlockDataResponse, dAtA: seq<byte>)
    returns (r: Result<LatestBlockDataResponse, Error>)
    ensures r == DecodeResponse(start, dAtA, 0)
  {
    var m, iNdEx: nat := start, 0;
    while iNdEx < |dAtA|
      invariant iNdEx <= |dAtA|
      invariant DecodeResponse(start, dAtA, 0) == DecodeResponse(m, dAtA, iNdEx)
    {
      DecodeResponseStep(m, dAtA, iNdEx);
      var field := ReadField(dAtA, iNdEx, RESPONSE);
      if field.Failure? {
        return Failure(field.error);
      }
      if field.value.payload.Number? {
        m := m.(latestBlock := ToInt64(field.value.payload.number));
      } else if field.value.payload.Bytes? {
        var store := UnmarshalBlockStore(NEW_BLOCK_STORE, field.value.payload.bytes);
        if store.Failure? {
          return Failure(store.error);
        }
        m := m.(requestedHashes := m.requestedHashes + [store.value]);
      }
      iNdEx := field.value.next;
    }
    return Success(m);
  }

  // ---- Round trips ----------------------------------------------------------------------------------------

  /** The bytes `s` stand in the data at `i`. */
  predicate At(data: seq<byte>, i: nat, s: seq<byte>) {
    i + |s| <= |data| && forall k :: 0 <= k < |s| ==> data[i + k] == s[k]
  }

  lemma AtParts(data: seq<byte>, i: nat, s: seq<byte>, t: seq<byte>)
    requires At(data, i, s + t)
    ensures At(data, i, s) && At(data, i + |s|, t)
  {
    var st := s + t;
    assert forall k :: 0 <= k < |s| ==> st[k] == s[k];
    forall k | 0 <= k < |t| ensures data[i + |s| + k] == t[k] {
      assert st[|s| + k] == t[k];
    }
  }

  lemma FirstAt(data: seq<byte>, i: nat, s: seq<byte>)
    requires At(data, i, s) && s != []
    ensures i < |data| && data[i] == s[0]
  {
    assert data[i + 0] == s[0];
  }

  function Power128(n: nat): (p: nat)
    ensures p >= 1
  {
    if n == 0 then 1 else 128 * Power128(n - 1)
  }

  lemma Recompose(v: nat)
    ensures (v % 128 + 128) % 128 + 128 * (v / 128) == v
  {}

  lemma {:induction false} GroupsOfVarint(data: seq<byte>, i: nat, v: nat, left: nat)
    requires At(data, i, Varint(v)) && v < Power128(left) && left > 0
    ensures Groups(data, i, left) == Success(Read(v, i + |Varint(v)|))
    decreases left
  {
    FirstAt(data, i, Varint(v));
    if v >= 128 {
      AtParts(data, i, [v % 128 + 128], Varint(v / 128));
      GroupsOfVarint(data, i + 1, v / 128, left - 1);
      Recompose(v);
    }
  }

  lemma TenGroupsSuffice()
    ensures Power128(MAX_GROUPS) >= TWO64
  {
    assert Power128(3) == 128 * 128 * 128;
    assert Power128(6) == 128 * 128 * 128 * Power128(3);
    assert Power128(9) == 128 * 128 * 128 * Power128(6);
  }

  lemma WordIsKept(v: nat)
    requires v < TWO64
    ensures v % 0x1_0000_0000_0000_0000 == v
  {}

  lemma VarintAt(data: seq<byte>, i: nat, v: uint64)
    requires At(data, i, Varint(v))
    ensures ReadVarint(data, i) == Success(Read(v, i + |Varint(v)|))
  {
    TenGroupsSuffice();
    WordIsKept(v);
    GroupsOfVarint(data, i, v, MAX_GROUPS);
  }

  lemma TagAt(data: seq<byte>, i: nat, tag: byte)
    requires i < |data| && data[i] == tag < 128
    ensures ReadVarint(data, i) == Success(Read(tag, i + 1))
  {}

  lemma TagParts(num: nat, wireType: nat)
    requires 1 <= num < 15 && wireType < 8
    ensures ToInt32((8 * num + wireType) / 8) == num && (8 * num + wireType) % 8 == wireType
  {}

  function WireType(kind: Kind): nat { if kind == NumberKind then 0 else 2 }

  function KnownPayload(data: seq<byte>, i: nat, num: int, kind: Kind): Result<Field, Error>
    requires i <= |data|
  {
    if kind == NumberKind then NumberPayload(data, i, num) else BytesPayload(data, i, num)
  }

  /** The tag of a known field, number and wire type in one byte, leads to its payload. */
  lemma KnownField(data: seq<byte>, i: nat, num: nat, kind: Kind, schema: map<int, Kind>, f: Field)
    requires 1 <= num < 15 && num in schema && schema[num] == kind
    requires i < |data| && data[i] == 8 * num + WireType(kind)
    requires KnownPayload(data, i + 1, num, kind) == Success(f)
    ensures NextField(data, i, schema) == Success(f)
  {
    TagAt(data, i, 8 * num + WireType(kind));
    TagParts(num, WireType(kind));
  }

  lemma NumberPayloadAt(data: seq<byte>, i: nat, num: nat, v: uint64)
    requires At(data, i, Varint(v))
    ensures NumberPayload(data, i, num) == Success(Field(num, Number(v), i + |Varint(v)|))
  {
    VarintAt(data, i, v);
  }

  lemma NumberFieldParts(data: seq<byte>, i: nat, tag: byte, x: int64)
    requires x != 0 && At(data, i, NumberField(tag, x))
    ensures |NumberField(tag, x)| == 1 + |Varint(ToUint64(x))|
    ensures i < |data| && data[i] == tag && At(data, i + 1, Varint(ToUint64(x)))
  {
    AtParts(data, i, [tag], Varint(ToUint64(x)));
    FirstAt(data, i, [tag]);
  }

  lemma KnownNumber(data: seq<byte>, i: nat, num: nat, schema: map<int, Kind>, f: Field)
    requires 1 <= num < 15 && num in schema && schema[num] == NumberKind
    requires i < |data| && data[i] == 8 * num && NumberPayload(data, i + 1, num) == Success(f)
    ensures NextField(data, i, schema) == Success(f)
  {
    KnownField(data, i, num, NumberKind, schema, f);
  }

  lemma KnownBytes(data: seq<byte>, i: nat, num: nat, schema: map<int, Kind>, f: Field)
    requires 1 <= num < 15 && num in schema && schema[num] == BytesKind
    requires i < |data| && data[i] == 8 * num + 2 && BytesPayload(data, i + 1, num) == Success(f)
    ensures NextField(data, i, schema) == Success(f)
  {
    KnownField(data, i, num, BytesKind, schema, f);
  }

  lemma WordAt(data: seq<byte>, i: nat, num: nat, v: uint64, schema: map<int, Kind>, next: nat)
    requires 1 <= num < 15 && num in schema && schema[num] == NumberKind
    requires i < |data| && data[i] == 8 * num && At(data, i + 1, Varint(v)) && next == i + 1 + |Varint(v)|
    ensures NextField(data, i, schema) == Success(Field(num, Number(v), next))
  {
    NumberPayloadAt(data, i + 1, num, v);
    KnownNumber(data, i, num, schema, Field(num, Number(v), next));
  }

  lemma NumberAt(data: seq<byte>, i: nat, num: nat, x: int64, schema: map<int, Kind>)
    requires 1 <= num < 15 && num in schema && schema[num] == NumberKind
    requires x != 0 && At(data, i, NumberField(8 * num, x))
    ensures NextField(data, i, schema) == Success(Field(num, Number(ToUint64(x)), i + |NumberField(8 * num, x)|))
  {
    NumberFieldParts(data, i, 8 * num, x);
    WordAt(data, i, num, ToUint64(x), schema, i + |NumberField(8 * num, x)|);
  }

  lemma BytesPayloadAfter(data: seq<byte>, i: nat, num: nat, bytes: seq<byte>, start: nat)
    requires i <= |data| < TWO63 && ReadVarint(data, i) == Success(Read(|bytes|, start)) && At(data, start, bytes)
    ensures BytesPayload(data, i, num) == Success(Field(num, Bytes(bytes), start + |bytes|))
  {
    assert data[start..start + |bytes|] == bytes;
  }

  lemma BytesFieldParts(data: seq<byte>, i: nat, tag: byte, bytes: seq<byte>)
    requires At(data, i, BytesField(tag, bytes))
    ensures |BytesField(tag, bytes)| == 1 + |Varint(|bytes|)| + |bytes|
    ensures i < |data| && data[i] == tag
    ensures At(data, i + 1, Varint(|bytes|)) && At(data, i + 1 + |Varint(|bytes|)|, bytes)
  {
    AtParts(data, i, [tag] + Varint(|bytes|), bytes);
    AtParts(data, i, [tag], Varint(|bytes|));
    FirstAt(data, i, [tag]);
  }

  lemma BytesBehind(data: seq<byte>, i: nat, num: nat, bytes: seq<byte>, schema: map<int, Kind>, start: nat)
    requires 1 <= num < 15 && num in schema && schema[num] == BytesKind && i < |data| < TWO63
    requires data[i] == 8 * num + 2
    requires ReadVarint(data, i + 1) == Success(Read(|bytes|, start)) && At(data, start, bytes)
    ensures NextField(data, i, schema) == Success(Field(num, Bytes(bytes), start + |bytes|))
  {
    BytesPayloadAfter(data, i + 1, num, bytes, start);
    KnownBytes(data, i, num, schema, Field(num, Bytes(bytes), start + |bytes|));
  }

  lemma BytesAt(data: seq<byte>, i: nat, num: nat, bytes: seq<byte>, schema: map<int, Kind>)
    requires 1 <= num < 15 && num in schema && schema[num] == BytesKind
    requires At(data, i, BytesField(8 * num + 2, bytes)) && |data| < TWO63
    ensures NextField(data, i, schema) == Success(Field(num, Bytes(bytes), i + |BytesField(8 * num + 2, bytes)|))
  {
    BytesFieldParts(data, i, 8 * num + 2, bytes);
    VarintAt(data, i + 1, |bytes|);
    BytesBehind(data, i, num, bytes, schema, i + 1 + |Varint(|bytes|)|);
  }

  lemma WordRoundTrip(x: int64)
    ensures ToInt64(ToUint64(x)) == x
  {}

  /** The message with its `num`-th field set. */
  function WithNumber(m: LatestBlockData, num: nat, x: int64): LatestBlockData {
    if num == 1 then m.(fromBlock := x) else if num == 2 then m.(toBlock := x) else m.(specificBlock := x)
  }

  lemma FieldIsSet(m: LatestBlockData, num: nat, x: int64, next: nat)
    requires 1 <= num <= 3
    ensures SetLatestBlockData(m, Field(num, Number(ToUint64(x)), next)) == WithNumber(m, num, x)
  {
    WordRoundTrip(x);
  }

  lemma NextFieldDecodes(m: LatestBlockData, data: seq<byte>, i: nat, f: Field, m': LatestBlockData)
    requires i < |data| && NextField(data, i, LATEST_BLOCK_DATA) == Success(f) && SetLatestBlockData(m, f) == m'
    ensures DecodeLatestBlockData(m, data, i) == DecodeLatestBlockData(m', data, f.next)
  {
    DecodeLatestBlockDataStep(m, data, i);
  }

  lemma NextStoreField(m: BlockStore, data: seq<byte>, i: nat, f: Field, m': BlockStore)
    requires i < |data| && NextField(data, i, BLOCK_STORE) == Success(f) && SetBlockStore(m, f) == m'
    ensures DecodeBlockStore(m, data, i) == DecodeBlockStore(m', data, f.next)
  {
    DecodeBlockStoreStep(m, data, i);
  }

  lemma NextResponseField(m: LatestBlockDataResponse, data: seq<byte>, i: nat, f: Field, m': LatestBlockDataResponse)
    requires i < |data| && NextField(data, i, RESPONSE) == Success(f) && SetResponse(m, f) == Success(m')
    ensures DecodeResponse(m, data, i) == DecodeResponse(m', data, f.next)
  {
    DecodeResponseStep(m, data, i);
  }

  lemma LatestBlockDataStep(m: LatestBlockData, data: seq<byte>, i: nat, num: nat, x: int64, field: seq<byte>,
                            rest: seq<byte>)
    requires 1 <= num <= 3 && field == NumberField(8 * num, x) && At(data, i, field + rest)
    requires x == 0 ==> WithNumber(m, num, 0) == m
    ensures At(data, i + |field|, rest)
    ensures DecodeLatestBlockData(m, data, i) == DecodeLatestBlockData(WithNumber(m, num, x), data, i + |field|)
  {
    AtParts(data, i, field, rest);
    if x != 0 {
      var next := i + |field|;
      NumberAt(data, i, num, x, LATEST_BLOCK_DATA);
      FieldIsSet(m, num, x, next);
      NextFieldDecodes(m, data, i, Field(num, Number(ToUint64(x)), next), WithNumber(m, num, x));
    }
  }

  lemma ThirdDecodes(m: LatestBlockData, data: seq<byte>, i: nat, third: seq<byte>)
    requires third == NumberField(0x18, m.specificBlock) && At(data, i, third) && i + |third| == |data|
    ensures DecodeLatestBlockData(m.(specificBlock := 0), data, i) == Success(m)
  {
    assert third + [] == third;
    LatestBlockDataStep(m.(specificBlock := 0), data, i, 3, m.specificBlock, third, []);
  }

  lemma SecondDecodes(m: LatestBlockData, data: seq<byte>, i: nat, second: seq<byte>, third: seq<byte>)
    requires second == NumberField(0x10, m.toBlock) && third == NumberField(0x18, m.specificBlock)
    requires At(data, i, second + third) && i + |second| + |third| == |data|
    ensures DecodeLatestBlockData(m.(toBlock := 0, specificBlock := 0), data, i) == Success(m)
  {
    LatestBlockDataStep(m.(toBlock := 0, specificBlock := 0), data, i, 2, m.toBlock, second, third);
    ThirdDecodes(m, data, i + |second|, third);
  }

  lemma FirstDecodes(m: LatestBlockData, data: seq<byte>, first: seq<byte>, second: seq<byte>, third: seq<byte>)
    requires first == NumberField(0x8, m.fromBlock) && second == NumberField(0x10, m.toBlock)
    requires third == NumberField(0x18, m.specificBlock) && data == first + (second + third)
    ensures DecodeLatestBlockData(LatestBlockData(0, 0, 0), data, 0) == Success(m)
  {
    assert At(data, 0, first + (second + third));
    LatestBlockDataStep(LatestBlockData(0, 0, 0), data, 0, 1, m.fromBlock, first, second + third);
    SecondDecodes(m, data, |first|, second, third);
  }

  /** What is decoded is what was encoded. */
  lemma LatestBlockDataRoundTrip(m: LatestBlockData)
    ensures DecodeLatestBlockData(LatestBlockData(0, 0, 0), EncodeLatestBlockData(m), 0) == Success(m)
  {
    var first, second, third :=
      NumberField(0x8, m.fromBlock), NumberField(0x10, m.toBlock), NumberField(0x18, m.specificBlock);
    FirstDecodes(m, EncodeLatestBlockData(m), first, second, third);
  }

  lemma StoreHash(m: BlockStore, d: seq<byte>, i: nat, hash: seq<byte>)
    requires hash == BytesField(0x12, m.hash) && At(d, i, hash) && |d| < TWO63
    ensures DecodeBlockStore(m.(hash := []), d, i) == DecodeBlockStore(m, d, i + |hash|)
  {
    BytesAt(d, i, 2, m.hash, BLOCK_STORE);
    NextStoreField(m.(hash := []), d, i, Field(2, Bytes(m.hash), i + |hash|), m);
  }

  lemma StoreNumber(m: BlockStore, d: seq<byte>, i: nat, number: seq<byte>)
    requires number == NumberField(0x8, m.block) && m.block != 0 && At(d, i, number) && m.hash == []
    ensures DecodeBlockStore(NEW_BLOCK_STORE, d, i) == DecodeBlockStore(m, d, i + |number|)
  {
    NumberAt(d, i, 1, m.block, BLOCK_STORE);
    WordRoundTrip(m.block);
    NextStoreField(NEW_BLOCK_STORE, d, i, Field(1, Number(ToUint64(m.block)), i + |number|), m);
  }

  lemma BlockStoreRoundTrip(m: BlockStore)
    requires |EncodeBlockStore(m)| < TWO63
    ensures DecodeBlockStore(NEW_BLOCK_STORE, EncodeBlockStore(m), 0) == Success(m)
  {
    var data, number, hash := EncodeBlockStore(m), NumberField(0x8, m.block), HashBytes(m);
    assert At(data, 0, number + hash);
    AtParts(data, 0, number, hash);
    if m.block != 0 {
      StoreNumber(m.(hash := []), data, 0, number);
    }
    if m.hash != [] {
      StoreHash(m, data, |number|, hash);
    }
  }

  lemma NextHashIsSet(m: LatestBlockDataResponse, data: seq<byte>, i: nat, bytes: seq<byte>, store: BlockStore,
                      next: nat)
    requires i < |data| && NextField(data, i, RESPONSE) == Success(Field(2, Bytes(bytes), next))
    requires DecodeBlockStore(NEW_BLOCK_STORE, bytes, 0) == Success(store)
    ensures DecodeResponse(m, data, i)
         == DecodeResponse(m.(requestedHashes := m.requestedHashes + [store]), data, next)
  {
    NextResponseField(m, data, i, Field(2, Bytes(bytes), next),
                      m.(requestedHashes := m.requestedHashes + [store]));
  }

  lemma HashIsAppended(m: LatestBlockDataResponse, data: seq<byte>, i: nat, bytes: seq<byte>, store: BlockStore)
    requires At(data, i, BytesField(0x12, bytes)) && |data| < TWO63
    requires DecodeBlockStore(NEW_BLOCK_STORE, bytes, 0) == Success(store)
    ensures DecodeResponse(m, data, i)
         == DecodeResponse(m.(requestedHashes := m.requestedHashes + [store]), data, i + |BytesField(0x12, bytes)|)
  {
    BytesAt(data, i, 2, bytes, RESPONSE);
    NextHashIsSet(m, data, i, bytes, store, i + |BytesField(0x12, bytes)|);
  }

  lemma HashFieldDecodes(latest: int64, prefix: seq<BlockStore>, data: seq<byte>, i: nat, store: BlockStore,
                         field: seq<byte>)
    requires field == HashField(store) && At(data, i, field) && |data| < TWO63
    ensures DecodeResponse(LatestBlockDataResponse(latest, prefix), data, i)
         == DecodeResponse(LatestBlockDataResponse(latest, prefix + [store]), data, i + |field|)
  {
    BlockStoreRoundTrip(store);
    HashIsAppended(LatestBlockDataResponse(latest, prefix), data, i, EncodeBlockStore(store), store);
  }

  lemma NextHash(latest: int64, data: seq<byte>, i: nat, hashes: seq<BlockStore>, fields: seq<seq<byte>>, n: nat)
    requires Matches(fields, hashes) && n < |hashes| && |data| < TWO63
    requires At(data, i, fields[n] + Concat(fields, n + 1))
    ensures At(data, i + |fields[n]|, Concat(fields, n + 1))
    ensures DecodeResponse(LatestBlockDataResponse(latest, hashes[..n]), data, i)
         == DecodeResponse(LatestBlockDataResponse(latest, hashes[..n + 1]), data, i + |fields[n]|)
  {
    AtParts(data, i, fields[n], Concat(fields, n + 1));
    assert IsField(fields, hashes, n);
    HashFieldDecodes(latest, hashes[..n], data, i, hashes[n], fields[n]);
    assert hashes[..n] + [hashes[n]] == hashes[..n + 1];
  }

  /** From the point where the fields from the `n`-th on are written, the blocks are all appended. */
  lemma {:induction false} HashesRoundTrip(latest: int64, data: seq<byte>, i: nat, hashes: seq<BlockStore>,
                                           fields: seq<seq<byte>>, n: nat)
    requires Matches(fields, hashes) && n <= |hashes| && |data| < TWO63
    requires At(data, i, Concat(fields, n)) && i + |Concat(fields, n)| == |data|
    ensures DecodeResponse(LatestBlockDataResponse(latest, hashes[..n]), data, i)
      == Success(LatestBlockDataResponse(latest, hashes))
    decreases |hashes| - n
  {
    if n == |hashes| {
      assert hashes[..n] == hashes;
    } else {
      NextHash(latest, data, i, hashes, fields, n);
      HashesRoundTrip(latest, data, i + |fields[n]|, hashes, fields, n + 1);
    }
  }

  lemma ResponseNumber(latest: int64, d: seq<byte>, i: nat, number: seq<byte>)
    requires number == NumberField(0x8, latest) && latest != 0 && At(d, i, number)
    ensures DecodeResponse(LatestBlockDataResponse(0, []), d, i)
         == DecodeResponse(LatestBlockDataResponse(latest, []), d, i + |number|)
  {
    var m := LatestBlockDataResponse(0, []);
    NumberAt(d, i, 1, latest, RESPONSE);
    WordRoundTrip(latest);
    NextResponseField(m, d, i, Field(1, Number(ToUint64(latest)), i + |number|), m.(latestBlock := latest));
  }

  lemma ResponseNumberStep(m: LatestBlockDataResponse, latest: int64, data: seq<byte>, i: nat, number: seq<byte>,
                           rest: seq<byte>)
    requires number == NumberField(0x8, latest) && At(data, i, number + rest) && m == LatestBlockDataResponse(0, [])
    ensures At(data, i + |number|, rest)
    ensures DecodeResponse(m, data, i) == DecodeResponse(m.(latestBlock := latest), data, i + |number|)
  {
    AtParts(data, i, number, rest);
    if latest != 0 {
      ResponseNumber(latest, data, i, number);
    }
  }

  lemma ResponseDecodes(m: LatestBlockDataResponse, none: LatestBlockDataResponse, data: seq<byte>, i: nat,
                        number: seq<byte>, rest: seq<byte>, fields: seq<seq<byte>>)
    requires none == LatestBlockDataResponse(0, []) && number == NumberField(0x8, m.latestBlock)
    requires Matches(fields, m.requestedHashes) && rest == Concat(fields, 0)
    requires At(data, i, number + rest) && i + |number| + |rest| == |data| < TWO63
    ensures DecodeResponse(none, data, i) == Success(m)
  {
    ResponseNumberStep(none, m.latestBlock, data, i, number, rest);
    assert m.requestedHashes[..0] == [];
    HashesRoundTrip(m.latestBlock, data, i + |number|, m.requestedHashes, fields, 0);
  }

  lemma ResponseRoundTrip(m: LatestBlockDataResponse)
    requires LengthsFit(m)
    ensures DecodeResponse(LatestBlockDataResponse(0, []), EncodeResponse(m), 0) == Success(m)
  {
    var number, fields := NumberField(0x8, m.latestBlock), HashFields(m.requestedHashes);
    assert At(EncodeResponse(m), 0, number + Concat(fields, 0));
    ResponseDecodes(m, LatestBlockDataResponse(0, []), EncodeResponse(m), 0, number, Concat(fields, 0), fields);
  }
}
