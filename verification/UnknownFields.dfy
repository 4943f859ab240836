/**
  Fields a reader does not know (Protocol Buffers Encoding, "Message Structure" and "Groups"): numbers, 8 or 4 bytes,
  bytes with their length, and groups of fields. Wherever they stand in a message, decoding steps over exactly their
  bytes, so a message with fields added later is still read.
 */
module UnknownFields {
  import opened Common
  import opened Codec

  /** A group may be closed under any number: the reader does not compare it with the one it was opened under. */
  datatype Unknown =
    | Varied(num: nat, value: uint64)
    | Fixed64(num: nat, bytes: seq<byte>)
    | Delimited(num: nat, bytes: seq<byte>)
    | Group(num: nat, fields: Unknowns, closedBy: nat)
    | Fixed32(num: nat, bytes: seq<byte>)

  datatype Unknowns = Nil | Cons(head: Unknown, tail: Unknowns)

  const MAX_FIELD := 0x2000_0000

  predicate ProperField(u: Unknown) {
    u.num < MAX_FIELD &&
    match u
    case Varied(_, _) => true
    case Fixed64(_, bytes) => |bytes| == 8
    case Delimited(_, bytes) => |bytes| < TWO63
    case Group(_, fields, closedBy) => closedBy < MAX_FIELD && ProperFields(fields)
    case Fixed32(_, bytes) => |bytes| == 4
  }

  predicate ProperFields(us: Unknowns) {
    us.Cons? ==> ProperField(us.head) && ProperFields(us.tail)
  }

  function Tag(num: nat, wireType: nat): (tag: seq<byte>)
    ensures tag != []
  {
    Varint(8 * num + wireType)
  }

  function Enc(u: Unknown): (bytes: seq<byte>)
    ensures bytes != []
  {
    match u
    case Varied(num, value) => Tag(num, 0) + Varint(value)
    case Fixed64(num, bytes) => Tag(num, 1) + bytes
    case Delimited(num, bytes) => Tag(num, 2) + (Varint(|bytes|) + bytes)
    case Group(num, fields, closedBy) => Tag(num, 3) + (EncAll(fields) + Tag(closedBy, 4))
    case Fixed32(num, bytes) => Tag(num, 5) + bytes
  }

  function EncAll(us: Unknowns): seq<byte> {
    match us
    case Nil => []
    case Cons(u, rest) => Enc(u) + EncAll(rest)
  }

  // ---- Skipping -----------------------------------------------------------------------------------

  lemma TagRead(d: seq<byte>, i: nat, num: nat, wireType: nat)
    requires num < MAX_FIELD && wireType < 8 && At(d, i, Tag(num, wireType))
    ensures ReadVarint(d, i) == Success(Read(8 * num + wireType, i + |Tag(num, wireType)|))
    ensures (8 * num + wireType) % 8 == wireType && (8 * num + wireType) / 8 == num
    ensures i < |d|
  {
    VarintAt(d, i, 8 * num + wireType);
    FirstAt(d, i, Tag(num, wireType));
  }

  /** Where the skipping goes on: at depth 0 it is over. */
  function Resume(d: seq<byte>, i: nat, depth: nat): Result<nat, Error> {
    if depth == 0 then Success(i) else SkipFrom(d, i, depth)
  }

  /** One item of a field has been stepped over, up to `next`. */
  lemma ItemSkipped(d: seq<byte>, i: nat, depth: nat, next: nat, inner: nat)
    requires i < |d| && next <= |d| < TWO63 && SkipItem(d, i, depth) == Success(Place(next, inner))
    ensures SkipFrom(d, i, depth) == Resume(d, next, inner)
  {
    assert SkipFrom(d, i, depth) == SkipOn(d, i, depth);
  }

  lemma SkipNumber(d: seq<byte>, i: nat, depth: nat, num: nat, value: uint64)
    requires num < MAX_FIELD && At(d, i, Enc(Varied(num, value))) && |d| < TWO63
    ensures SkipFrom(d, i, depth) == Resume(d, i + |Enc(Varied(num, value))|, depth)
  {
    var tag := Tag(num, 0);
    AtParts(d, i, tag, Varint(value));
    TagRead(d, i, num, 0);
    VarintAt(d, i + |tag|, value);
    ItemSkipped(d, i, depth, i + |tag| + |Varint(value)|, depth);
  }

  lemma SkipFixed(d: seq<byte>, i: nat, depth: nat, num: nat, wireType: nat, bytes: seq<byte>)
    requires num < MAX_FIELD && At(d, i, Tag(num, wireType) + bytes) && |d| < TWO63
    requires (wireType == 1 && |bytes| == 8) || (wireType == 5 && |bytes| == 4)
    ensures SkipFrom(d, i, depth) == Resume(d, i + |Tag(num, wireType) + bytes|, depth)
  {
    var tag := Tag(num, wireType);
    AtParts(d, i, tag, bytes);
    TagRead(d, i, num, wireType);
    ItemSkipped(d, i, depth, i + |tag| + |bytes|, depth);
  }

  lemma SkipDelimited(d: seq<byte>, i: nat, depth: nat, num: nat, bytes: seq<byte>)
    requires num < MAX_FIELD && |bytes| < TWO63 && At(d, i, Enc(Delimited(num, bytes))) && |d| < TWO63
    ensures SkipFrom(d, i, depth) == Resume(d, i + |Enc(Delimited(num, bytes))|, depth)
  {
    var tag, length := Tag(num, 2), Varint(|bytes|);
    AtParts(d, i, tag, length + bytes);
    AtParts(d, i + |tag|, length, bytes);
    TagRead(d, i, num, 2);
    VarintAt(d, i + |tag|, |bytes|);
    ItemSkipped(d, i, depth, i + |tag| + |length| + |bytes|, depth);
  }

  lemma SkipOpening(d: seq<byte>, i: nat, depth: nat, num: nat)
    requires num < MAX_FIELD && At(d, i, Tag(num, 3)) && |d| < TWO63
    ensures SkipFrom(d, i, depth) == SkipFrom(d, i + |Tag(num, 3)|, depth + 1)
  {
    TagRead(d, i, num, 3);
    ItemSkipped(d, i, depth, i + |Tag(num, 3)|, depth + 1);
  }

  lemma SkipClosing(d: seq<byte>, i: nat, depth: nat, num: nat)
    requires num < MAX_FIELD && At(d, i, Tag(num, 4)) && |d| < TWO63
    ensures SkipFrom(d, i, depth + 1) == Resume(d, i + |Tag(num, 4)|, depth)
  {
    TagRead(d, i, num, 4);
    ItemSkipped(d, i, depth + 1, i + |Tag(num, 4)|, depth);
  }

  /** Whatever the depth, a field is stepped over up to its last byte. */
  lemma {:induction false} FieldIsSkipped(d: seq<byte>, i: nat, depth: nat, u: Unknown)
    requires ProperField(u) && At(d, i, Enc(u)) && |d| < TWO63
    ensures SkipFrom(d, i, depth) == Resume(d, i + |Enc(u)|, depth)
    decreases u
  {
    match u
    case Varied(num, value) => SkipNumber(d, i, depth, num, value);
    case Fixed64(num, bytes) => SkipFixed(d, i, depth, num, 1, bytes);
    case Delimited(num, bytes) => SkipDelimited(d, i, depth, num, bytes);
    case Fixed32(num, bytes) => SkipFixed(d, i, depth, num, 5, bytes);
    case Group(num, fields, closedBy) =>
      GroupParts(d, i, num, fields, closedBy);
      FieldsAreSkipped(d, i + |Tag(num, 3)|, depth, fields);
      GroupIsSkipped(d, i, depth, num, fields, closedBy);
  }

  lemma GroupParts(d: seq<byte>, i: nat, num: nat, fields: Unknowns, closedBy: nat)
    requires At(d, i, Enc(Group(num, fields, closedBy)))
    ensures At(d, i, Tag(num, 3)) && At(d, i + |Tag(num, 3)|, EncAll(fields))
    ensures At(d, i + |Tag(num, 3)| + |EncAll(fields)|, Tag(closedBy, 4))
    ensures |Enc(Group(num, fields, closedBy))| == |Tag(num, 3)| + |EncAll(fields)| + |Tag(closedBy, 4)|
  {
    var open, inner, close := Tag(num, 3), EncAll(fields), Tag(closedBy, 4);
    AtParts(d, i, open, inner + close);
    AtParts(d, i + |open|, inner, close);
  }

  lemma GroupIsSkipped(d: seq<byte>, i: nat, depth: nat, num: nat, fields: Unknowns, closedBy: nat)
    requires num < MAX_FIELD && closedBy < MAX_FIELD && At(d, i, Enc(Group(num, fields, closedBy))) && |d| < TWO63
    requires var inner := i + |Tag(num, 3)|;
      SkipFrom(d, inner, depth + 1) == SkipFrom(d, inner + |EncAll(fields)|, depth + 1)
    ensures SkipFrom(d, i, depth) == Resume(d, i + |Enc(Group(num, fields, closedBy))|, depth)
  {
    GroupParts(d, i, num, fields, closedBy);
    SkipOpening(d, i, depth, num);
    SkipClosing(d, i + |Tag(num, 3)| + |EncAll(fields)|, depth, closedBy);
  }

  lemma {:induction false} FieldsAreSkipped(d: seq<byte>, i: nat, depth: nat, us: Unknowns)
    requires ProperFields(us) && At(d, i, EncAll(us)) && |d| < TWO63
    ensures SkipFrom(d, i, depth + 1) == SkipFrom(d, i + |EncAll(us)|, depth + 1)
    decreases us
  {
    if us.Cons? {
      AtParts(d, i, Enc(us.head), EncAll(us.tail));
      FieldIsSkipped(d, i, depth + 1, us.head);
      FieldsAreSkipped(d, i + |Enc(us.head)|, depth, us.tail);
    }
  }

  lemma AtFront(s: seq<byte>, rest: seq<byte>)
    ensures At(s + rest, 0, s)
  {}

  /** Skipping finds exactly the end of any field, with groups to any depth, whatever follows it. */
  lemma SkipsExactlyTheField(u: Unknown, rest: seq<byte>)
    requires ProperField(u) && |Enc(u) + rest| < TWO63
    ensures SkipFrom(Enc(u) + rest, 0, 0) == Success(|Enc(u)|)
  {
    AtFront(Enc(u), rest);
    FieldIsSkipped(Enc(u) + rest, 0, 0, u);
  }

  // ---- Decoding over unknown fields ----------------------------------------------------------------

  /** Fields that are legal, and that this message does not know. */
  predicate Foreign(us: Unknowns, schema: map<int, Kind>) {
    us.Cons? ==> ProperField(us.head) && 1 <= us.head.num && us.head.num !in schema && Foreign(us.tail, schema)
  }

  /** The wire type under which the field's tag is written. */
  function WireTypeOf(u: Unknown): nat {
    match u
    case Varied(_, _) => 0
    case Fixed64(_, _) => 1
    case Delimited(_, _) => 2
    case Group(_, _, _) => 3
    case Fixed32(_, _) => 5
  }

  lemma StartsWithTag(u: Unknown, d: seq<byte>, i: nat)
    requires At(d, i, Enc(u))
    ensures At(d, i, Tag(u.num, WireTypeOf(u)))
  {
    var tag := Tag(u.num, WireTypeOf(u));
    assert Enc(u) == tag + Enc(u)[|tag|..];
    AtParts(d, i, tag, Enc(u)[|tag|..]);
  }

  lemma TailAt(d: seq<byte>, i: nat, s: seq<byte>)
    requires At(d, i, s) && i <= |d|
    ensures d[i..] == s + d[i + |s|..]
  {
    assert forall k :: 0 <= k < |s| ==> d[i..][k] == s[k];
  }

  lemma SmallNumber(num: nat)
    requires num < MAX_FIELD
    ensures ToInt32(num) == num
  {}

  lemma SkippedField(d: seq<byte>, i: nat, u: Unknown)
    requires ProperField(u) && At(d, i, Enc(u)) && |d| < TWO63
    ensures SkippedPayload(d, i, u.num) == Success(Field(u.num, Skipped, i + |Enc(u)|))
  {
    TailAt(d, i, Enc(u));
    SkipsExactlyTheField(u, d[i + |Enc(u)|..]);
  }

  lemma NextIsSkipped(d: seq<byte>, i: nat, u: Unknown, schema: map<int, Kind>)
    requires ProperField(u) && 1 <= u.num && u.num !in schema && At(d, i, Enc(u)) && |d| < TWO63
    ensures i < |d| && NextField(d, i, schema) == Success(Field(u.num, Skipped, i + |Enc(u)|))
  {
    StartsWithTag(u, d, i);
    TagRead(d, i, u.num, WireTypeOf(u));
    SmallNumber(u.num);
    SkippedField(d, i, u);
  }

  lemma SumParts(d: seq<byte>, i: nat, s: seq<byte>, t: seq<byte>, rest: seq<byte>)
    requires At(d, i, (s + t) + rest)
    ensures At(d, i, s) && At(d, i + |s|, t + rest)
  {
    assert (s + t) + rest == s + (t + rest);
    AtParts(d, i, s, t + rest);
  }

  lemma ForeignParts(d: seq<byte>, i: nat, us: Unknowns, rest: seq<byte>)
    requires us.Cons? && At(d, i, EncAll(us) + rest)
    ensures At(d, i, Enc(us.head)) && At(d, i + |Enc(us.head)|, EncAll(us.tail) + rest)
    ensures |EncAll(us)| == |Enc(us.head)| + |EncAll(us.tail)|
  {
    SumParts(d, i, Enc(us.head), EncAll(us.tail), rest);
  }

  lemma RequestStepsOverOne(m: LatestBlockData, d: seq<byte>, i: nat, u: Unknown)
    requires ProperField(u) && 1 <= u.num && u.num !in LATEST_BLOCK_DATA && At(d, i, Enc(u)) && |d| < TWO63
    ensures DecodeLatestBlockData(m, d, i) == DecodeLatestBlockData(m, d, i + |Enc(u)|)
  {
    NextIsSkipped(d, i, u, LATEST_BLOCK_DATA);
    NextFieldDecodes(m, d, i, Field(u.num, Skipped, i + |Enc(u)|), m);
  }

  lemma {:induction false} RequestStepsOver(m: LatestBlockData, d: seq<byte>, i: nat, us: Unknowns, rest: seq<byte>)
    requires Foreign(us, LATEST_BLOCK_DATA) && At(d, i, EncAll(us) + rest) && |d| < TWO63
    ensures At(d, i + |EncAll(us)|, rest)
    ensures DecodeLatestBlockData(m, d, i) == DecodeLatestBlockData(m, d, i + |EncAll(us)|)
    decreases us
  {
    if us.Nil? {
      assert EncAll(us) + rest == rest;
    } else {
      ForeignParts(d, i, us, rest);
      RequestStepsOverOne(m, d, i, us.head);
      RequestStepsOver(m, d, i + |Enc(us.head)|, us.tail, rest);
    }
  }

  lemma StoreStepsOverOne(m: BlockStore, d: seq<byte>, i: nat, u: Unknown)
    requires ProperField(u) && 1 <= u.num && u.num !in BLOCK_STORE && At(d, i, Enc(u)) && |d| < TWO63
    ensures DecodeBlockStore(m, d, i) == DecodeBlockStore(m, d, i + |Enc(u)|)
  {
    NextIsSkipped(d, i, u, BLOCK_STORE);
    NextStoreField(m, d, i, Field(u.num, Skipped, i + |Enc(u)|), m);
  }

  lemma {:induction false} StoreStepsOver(m: BlockStore, d: seq<byte>, i: nat, us: Unknowns, rest: seq<byte>)
    requires Foreign(us, BLOCK_STORE) && At(d, i, EncAll(us) + rest) && |d| < TWO63
    ensures At(d, i + |EncAll(us)|, rest)
    ensures DecodeBlockStore(m, d, i) == DecodeBlockStore(m, d, i + |EncAll(us)|)
    decreases us
  {
    if us.Nil? {
      assert EncAll(us) + rest == rest;
    } else {
      ForeignParts(d, i, us, rest);
      StoreStepsOverOne(m, d, i, us.head);
      StoreStepsOver(m, d, i + |Enc(us.head)|, us.tail, rest);
    }
  }

  lemma ResponseStepsOverOne(m: LatestBlockDataResponse, d: seq<byte>, i: nat, u: Unknown)
    requires ProperField(u) && 1 <= u.num && u.num !in RESPONSE && At(d, i, Enc(u)) && |d| < TWO63
    ensures DecodeResponse(m, d, i) == DecodeResponse(m, d, i + |Enc(u)|)
  {
    NextIsSkipped(d, i, u, RESPONSE);
    NextResponseField(m, d, i, Field(u.num, Skipped, i + |Enc(u)|), m);
  }

  lemma {:induction false} ResponseStepsOver(m: LatestBlockDataResponse, d: seq<byte>, i: nat, us: Unknowns,
                                             rest: seq<byte>)
    requires Foreign(us, RESPONSE) && At(d, i, EncAll(us) + rest) && |d| < TWO63
    ensures At(d, i + |EncAll(us)|, rest)
    ensures DecodeResponse(m, d, i) == DecodeResponse(m, d, i + |EncAll(us)|)
    decreases us
  {
    if us.Nil? {
      assert EncAll(us) + rest == rest;
    } else {
      ForeignParts(d, i, us, rest);
      ResponseStepsOverOne(m, d, i, us.head);
      ResponseStepsOver(m, d, i + |Enc(us.head)|, us.tail, rest);
    }
  }

  // ---- Gaps: bytes that decoding steps over -----------------------------------------------------------

  predicate RequestSkipsAt(m: LatestBlockData, d: seq<byte>, i: nat, gap: seq<byte>) {
    At(d, i, gap) && |d| < TWO63 ==> DecodeLatestBlockData(m, d, i) == DecodeLatestBlockData(m, d, i + |gap|)
  }

  ghost predicate RequestSkips(gap: seq<byte>) {
    forall m, d, i :: RequestSkipsAt(m, d, i, gap)
  }

  predicate StoreSkipsAt(m: BlockStore, d: seq<byte>, i: nat, gap: seq<byte>) {
    At(d, i, gap) && |d| < TWO63 ==> DecodeBlockStore(m, d, i) == DecodeBlockStore(m, d, i + |gap|)
  }

  ghost predicate StoreSkips(gap: seq<byte>) {
    forall m, d, i :: StoreSkipsAt(m, d, i, gap)
  }

  predicate ResponseSkipsAt(m: LatestBlockDataResponse, d: seq<byte>, i: nat, gap: seq<byte>) {
    At(d, i, gap) && |d| < TWO63 ==> DecodeResponse(m, d, i) == DecodeResponse(m, d, i + |gap|)
  }

  ghost predicate ResponseSkips(gap: seq<byte>) {
    forall m, d, i :: ResponseSkipsAt(m, d, i, gap)
  }

  lemma RequestForeign(us: Unknowns)
    requires Foreign(us, LATEST_BLOCK_DATA)
    ensures RequestSkips(EncAll(us))
  {
    var gap := EncAll(us);
    forall m, d, i ensures RequestSkipsAt(m, d, i, gap) {
      if At(d, i, gap) && |d| < TWO63 {
        assert gap + [] == gap;
        RequestStepsOver(m, d, i, us, []);
      }
    }
  }

  lemma StoreForeign(us: Unknowns)
    requires Foreign(us, BLOCK_STORE)
    ensures StoreSkips(EncAll(us))
  {
    var gap := EncAll(us);
    forall m, d, i ensures StoreSkipsAt(m, d, i, gap) {
      if At(d, i, gap) && |d| < TWO63 {
        assert gap + [] == gap;
        StoreStepsOver(m, d, i, us, []);
      }
    }
  }

  lemma ResponseForeign(us: Unknowns)
    requires Foreign(us, RESPONSE)
    ensures ResponseSkips(EncAll(us))
  {
    var gap := EncAll(us);
    forall m, d, i ensures ResponseSkipsAt(m, d, i, gap) {
      if At(d, i, gap) && |d| < TWO63 {
        assert gap + [] == gap;
        ResponseStepsOver(m, d, i, us, []);
      }
    }
  }

  // ---- The request ------------------------------------------------------------------------------------

  /** A gap, then the `num`-th number of the request. */
  lemma RequestNext(m: LatestBlockData, d: seq<byte>, i: nat, gap: seq<byte>, num: nat, x: int64, field: seq<byte>,
                    rest: seq<byte>)
    requires RequestSkips(gap) && At(d, i, gap + (field + rest)) && |d| < TWO63
    requires 1 <= num <= 3 && field == NumberField(8 * num, x) && (x == 0 ==> WithNumber(m, num, 0) == m)
    ensures At(d, i + |gap| + |field|, rest)
    ensures DecodeLatestBlockData(m, d, i) == DecodeLatestBlockData(WithNumber(m, num, x), d, i + |gap| + |field|)
  {
    AtParts(d, i, gap, field + rest);
    assert RequestSkipsAt(m, d, i, gap);
    LatestBlockDataStep(m, d, i + |gap|, num, x, field, rest);
  }

  lemma RequestEnds(m: LatestBlockData, d: seq<byte>, i: nat, gap: seq<byte>)
    requires RequestSkips(gap) && At(d, i, gap) && i + |gap| == |d| < TWO63
    ensures DecodeLatestBlockData(m, d, i) == Success(m)
  {
    assert RequestSkipsAt(m, d, i, gap);
  }

  lemma RequestFromThird(m: LatestBlockData, d: seq<byte>, i: nat, c: seq<byte>, third: seq<byte>, e: seq<byte>)
    requires RequestSkips(c) && RequestSkips(e) && third == NumberField(0x18, m.specificBlock)
    requires At(d, i, c + (third + e)) && i + |c| + |third| + |e| == |d| < TWO63
    ensures DecodeLatestBlockData(m.(specificBlock := 0), d, i) == Success(m)
  {
    RequestNext(m.(specificBlock := 0), d, i, c, 3, m.specificBlock, third, e);
    RequestEnds(m, d, i + |c| + |third|, e);
  }

  lemma RequestFromSecond(m: LatestBlockData, d: seq<byte>, i: nat, b: seq<byte>, second: seq<byte>, c: seq<byte>,
                          third: seq<byte>, e: seq<byte>)
    requires RequestSkips(b) && RequestSkips(c) && RequestSkips(e)
    requires second == NumberField(0x10, m.toBlock) && third == NumberField(0x18, m.specificBlock)
    requires At(d, i, b + (second + (c + (third + e))))
    requires i + |b| + |second| + |c| + |third| + |e| == |d| < TWO63
    ensures DecodeLatestBlockData(m.(toBlock := 0, specificBlock := 0), d, i) == Success(m)
  {
    RequestNext(m.(toBlock := 0, specificBlock := 0), d, i, b, 2, m.toBlock, second, c + (third + e));
    RequestFromThird(m, d, i + |b| + |second|, c, third, e);
  }

  lemma WholeAt(d: seq<byte>)
    ensures At(d, 0, d)
  {}

  lemma RequestWithGaps(m: LatestBlockData, a: seq<byte>, first: seq<byte>, b: seq<byte>, second: seq<byte>,
                        c: seq<byte>, third: seq<byte>, e: seq<byte>, d: seq<byte>, i: nat)
    requires RequestSkips(a) && RequestSkips(b) && RequestSkips(c) && RequestSkips(e)
    requires first == NumberField(0x8, m.fromBlock) && second == NumberField(0x10, m.toBlock)
    requires third == NumberField(0x18, m.specificBlock)
    requires At(d, i, a + (first + (b + (second + (c + (third + e))))))
    requires i + |a| + |first| + |b| + |second| + |c| + |third| + |e| == |d| < TWO63
    ensures DecodeLatestBlockData(LatestBlockData(0, 0, 0), d, i) == Success(m)
  {
    RequestNext(LatestBlockData(0, 0, 0), d, i, a, 1, m.fromBlock, first, b + (second + (c + (third + e))));
    RequestFromSecond(m, d, i + |a| + |first|, b, second, c, third, e);
  }

  /** The request with unknown fields in front of, between and behind its numbers. */
  function RequestWith(m: LatestBlockData, a: Unknowns, b: Unknowns, c: Unknowns, e: Unknowns): seq<byte> {
    EncAll(a) + (NumberField(0x8, m.fromBlock)
    + (EncAll(b) + (NumberField(0x10, m.toBlock)
    + (EncAll(c) + (NumberField(0x18, m.specificBlock) + EncAll(e))))))
  }

  /** A request with unknown fields anywhere is read as if they were not there. */
  lemma RequestSurvivesUnknownFields(m: LatestBlockData, a: Unknowns, b: Unknowns, c: Unknowns, e: Unknowns)
    requires Foreign(a, LATEST_BLOCK_DATA) && Foreign(b, LATEST_BLOCK_DATA)
    requires Foreign(c, LATEST_BLOCK_DATA) && Foreign(e, LATEST_BLOCK_DATA)
    requires |RequestWith(m, a, b, c, e)| < TWO63
    ensures DecodeLatestBlockData(LatestBlockData(0, 0, 0), RequestWith(m, a, b, c, e), 0) == Success(m)
  {
    RequestForeign(a);
    RequestForeign(b);
    RequestForeign(c);
    RequestForeign(e);
    WholeAt(RequestWith(m, a, b, c, e));
    RequestWithGaps(m, EncAll(a), NumberField(0x8, m.fromBlock), EncAll(b), NumberField(0x10, m.toBlock),
                    EncAll(c), NumberField(0x18, m.specificBlock), EncAll(e), RequestWith(m, a, b, c, e), 0);
  }

  // ---- Blocks -----------------------------------------------------------------------------------------

  lemma StoreFromHash(m: BlockStore, d: seq<byte>, i: nat, b: seq<byte>, hash: seq<byte>, c: seq<byte>)
    requires StoreSkips(b) && StoreSkips(c) && hash == HashBytes(m)
    requires At(d, i, b + (hash + c)) && i + |b| + |hash| + |c| == |d| < TWO63
    ensures DecodeBlockStore(m.(hash := []), d, i) == Success(m)
  {
    AtParts(d, i, b, hash + c);
    AtParts(d, i + |b|, hash, c);
    assert StoreSkipsAt(m.(hash := []), d, i, b);
    if m.hash != [] {
      StoreHash(m, d, i + |b|, hash);
    }
    assert StoreSkipsAt(m, d, i + |b| + |hash|, c);
  }

  lemma StoreFromNumber(m: BlockStore, d: seq<byte>, i: nat, number: seq<byte>, b: seq<byte>, hash: seq<byte>,
                        c: seq<byte>)
    requires StoreSkips(b) && StoreSkips(c) && number == NumberField(0x8, m.block) && hash == HashBytes(m)
    requires At(d, i, number + (b + (hash + c))) && i + |number| + |b| + |hash| + |c| == |d| < TWO63
    ensures DecodeBlockStore(NEW_BLOCK_STORE, d, i) == Success(m)
  {
    AtParts(d, i, number, b + (hash + c));
    if m.block != 0 {
      StoreNumber(m.(hash := []), d, i, number);
    }
    StoreFromHash(m, d, i + |number|, b, hash, c);
  }

  lemma StoreWithGaps(m: BlockStore, a: seq<byte>, number: seq<byte>, b: seq<byte>, hash: seq<byte>, c: seq<byte>,
                      d: seq<byte>, i: nat)
    requires StoreSkips(a) && StoreSkips(b) && StoreSkips(c)
    requires number == NumberField(0x8, m.block) && hash == HashBytes(m)
    requires At(d, i, a + (number + (b + (hash + c)))) && i + |a| + |number| + |b| + |hash| + |c| == |d| < TWO63
    ensures DecodeBlockStore(NEW_BLOCK_STORE, d, i) == Success(m)
  {
    AtParts(d, i, a, number + (b + (hash + c)));
    assert StoreSkipsAt(NEW_BLOCK_STORE, d, i, a);
    StoreFromNumber(m, d, i + |a|, number, b, hash, c);
  }

  /** A block with unknown fields inside, and unknown fields after it in the response. */
  datatype Dressed = Dressed(store: BlockStore, a: Unknowns, b: Unknowns, c: Unknowns, after: Unknowns)

  predicate ForeignDress(x: Dressed) {
    && Foreign(x.a, BLOCK_STORE) && Foreign(x.b, BLOCK_STORE) && Foreign(x.c, BLOCK_STORE)
    && Foreign(x.after, RESPONSE)
  }

  function StoreWith(x: Dressed): seq<byte> {
    EncAll(x.a) + (NumberField(0x8, x.store.block) + (EncAll(x.b) + (HashBytes(x.store) + EncAll(x.c))))
  }

  /** A block with unknown fields anywhere is read as if they were not there. */
  lemma StoreSurvivesUnknownFields(x: Dressed)
    requires ForeignDress(x) && |StoreWith(x)| < TWO63
    ensures DecodeBlockStore(NEW_BLOCK_STORE, StoreWith(x), 0) == Success(x.store)
  {
    StoreForeign(x.a);
    StoreForeign(x.b);
    StoreForeign(x.c);
    WholeAt(StoreWith(x));
    StoreWithGaps(x.store, EncAll(x.a), NumberField(0x8, x.store.block), EncAll(x.b), HashBytes(x.store), EncAll(x.c),
                  StoreWith(x), 0);
  }

  // ---- Responses --------------------------------------------------------------------------------------

  /** The bytes of a block, and of what stands behind it. */
  datatype Piece = Piece(store: BlockStore, bytes: seq<byte>, gap: seq<byte>)

  /** The bytes decode to the block, and what stands behind it is stepped over. */
  ghost predicate GoodPiece(p: Piece) {
    DecodeBlockStore(NEW_BLOCK_STORE, p.bytes, 0) == Success(p.store) && ResponseSkips(p.gap)
  }

  ghost predicate IsGood(ps: seq<Piece>, k: nat)
    requires k < |ps|
  {
    GoodPiece(ps[k])
  }

  ghost predicate GoodPieces(ps: seq<Piece>) {
    forall k :: 0 <= k < |ps| ==> IsGood(ps, k)
  }

  /** The blocks from the `n`-th on, each with what stands behind it. */
  function PieceBytes(ps: seq<Piece>, n: nat): seq<byte>
    requires n <= |ps|
    decreases |ps| - n
  {
    if n == |ps| then [] else BytesField(0x12, ps[n].bytes) + (ps[n].gap + PieceBytes(ps, n + 1))
  }

  function Stores(ps: seq<Piece>, n: nat): (stores: seq<BlockStore>)
    requires n <= |ps|
    ensures |stores| == n && forall k :: 0 <= k < n ==> stores[k] == ps[k].store
  {
    seq(n, k requires 0 <= k < n => ps[k].store)
  }

  lemma NextPiece(m: LatestBlockDataResponse, p: Piece, d: seq<byte>, i: nat, field: seq<byte>, rest: seq<byte>)
    requires GoodPiece(p) && field == BytesField(0x12, p.bytes) && |d| < TWO63 && At(d, i, field + (p.gap + rest))
    ensures At(d, i + |field| + |p.gap|, rest)
    ensures DecodeResponse(m, d, i)
         == DecodeResponse(m.(requestedHashes := m.requestedHashes + [p.store]), d, i + |field| + |p.gap|)
  {
    var m' := m.(requestedHashes := m.requestedHashes + [p.store]);
    AtParts(d, i, field, p.gap + rest);
    AtParts(d, i + |field|, p.gap, rest);
    HashIsAppended(m, d, i, p.bytes, p.store);
    assert ResponseSkipsAt(m', d, i + |field|, p.gap);
  }

  lemma {:induction false} PiecesDecode(latest: int64, ps: seq<Piece>, d: seq<byte>, i: nat, n: nat)
    requires n <= |ps| && GoodPieces(ps) && |d| < TWO63
    requires At(d, i, PieceBytes(ps, n)) && i + |PieceBytes(ps, n)| == |d|
    ensures DecodeResponse(LatestBlockDataResponse(latest, Stores(ps, n)), d, i)
         == Success(LatestBlockDataResponse(latest, Stores(ps, |ps|)))
    decreases |ps| - n
  {
    if n < |ps| {
      var field, rest := BytesField(0x12, ps[n].bytes), PieceBytes(ps, n + 1);
      assert IsGood(ps, n);
      NextPiece(LatestBlockDataResponse(latest, Stores(ps, n)), ps[n], d, i, field, rest);
      assert Stores(ps, n) + [ps[n].store] == Stores(ps, n + 1);
      PiecesDecode(latest, ps, d, i + |field| + |ps[n].gap|, n + 1);
    }
  }

  /** Over a gap. */
  lemma ResponseGap(m: LatestBlockDataResponse, d: seq<byte>, i: nat, gap: seq<byte>, rest: seq<byte>)
    requires ResponseSkips(gap) && At(d, i, gap + rest) && |d| < TWO63
    ensures At(d, i + |gap|, rest) && DecodeResponse(m, d, i) == DecodeResponse(m, d, i + |gap|)
  {
    AtParts(d, i, gap, rest);
    assert ResponseSkipsAt(m, d, i, gap);
  }

  /** Up to the first block. */
  lemma ResponseHead(m: LatestBlockDataResponse, latest: int64, a: seq<byte>, number: seq<byte>, b: seq<byte>,
                     rest: seq<byte>, d: seq<byte>, i: nat)
    requires ResponseSkips(a) && ResponseSkips(b) && m == LatestBlockDataResponse(0, [])
    requires number == NumberField(0x8, latest) && At(d, i, a + (number + (b + rest))) && |d| < TWO63
    ensures At(d, i + |a| + |number| + |b|, rest)
    ensures DecodeResponse(m, d, i) == DecodeResponse(m.(latestBlock := latest), d, i + |a| + |number| + |b|)
  {
    ResponseGap(m, d, i, a, number + (b + rest));
    ResponseNumberStep(m, latest, d, i + |a|, number, b + rest);
    ResponseGap(m.(latestBlock := latest), d, i + |a| + |number|, b, rest);
  }

  function PieceOf(x: Dressed): Piece { Piece(x.store, StoreWith(x), EncAll(x.after)) }

  function PiecesOf(xs: seq<Dressed>): (ps: seq<Piece>)
    ensures |ps| == |xs| && forall k :: 0 <= k < |xs| ==> ps[k] == PieceOf(xs[k])
  {
    seq(|xs|, k requires 0 <= k < |xs| => PieceOf(xs[k]))
  }

  /** The response with unknown fields around its number, inside its blocks and behind each of them. */
  function ResponseWith(latest: int64, xs: seq<Dressed>, a: Unknowns, b: Unknowns): seq<byte> {
    EncAll(a) + (NumberField(0x8, latest) + (EncAll(b) + PieceBytes(PiecesOf(xs), 0)))
  }

  lemma DressedPiece(x: Dressed)
    requires ForeignDress(x) && |StoreWith(x)| < TWO63
    ensures GoodPiece(PieceOf(x))
  {
    StoreSurvivesUnknownFields(x);
    ResponseForeign(x.after);
  }

  lemma {:induction false} PieceFits(ps: seq<Piece>, n: nat, k: nat)
    requires n <= k < |ps|
    ensures |ps[k].bytes| <= |PieceBytes(ps, n)|
    decreases k - n
  {
    if n < k {
      PieceFits(ps, n + 1, k);
    }
  }

  /** A response with unknown fields anywhere, also inside its blocks, is read as if they were not there. */
  lemma ResponseSurvivesUnknownFields(latest: int64, xs: seq<Dressed>, a: Unknowns, b: Unknowns)
    requires Foreign(a, RESPONSE) && Foreign(b, RESPONSE) && forall k :: 0 <= k < |xs| ==> ForeignDress(xs[k])
    requires |ResponseWith(latest, xs, a, b)| < TWO63
    ensures DecodeResponse(LatestBlockDataResponse(0, []), ResponseWith(latest, xs, a, b), 0)
         == Success(LatestBlockDataResponse(latest, Stores(PiecesOf(xs), |xs|)))
  {
    var ps := PiecesOf(xs);
    forall k | 0 <= k < |ps| ensures IsGood(ps, k) {
      PieceFits(ps, 0, k);
      DressedPiece(xs[k]);
    }
    ResponseForeign(a);
    ResponseForeign(b);
    WholeAt(ResponseWith(latest, xs, a, b));
    PiecesDecodeAnywhere(latest, ps);
    DecodesOverGaps(LatestBlockDataResponse(0, []), latest, EncAll(a), NumberField(0x8, latest), EncAll(b),
                    PieceBytes(ps, 0), ResponseWith(latest, xs, a, b), 0,
                    LatestBlockDataResponse(latest, Stores(ps, |ps|)));
  }

  lemma PiecesFromStart(latest: int64, ps: seq<Piece>, blocks: seq<byte>, d: seq<byte>, i: nat,
                        m: LatestBlockDataResponse)
    requires GoodPieces(ps) && blocks == PieceBytes(ps, 0) && m == LatestBlockDataResponse(latest, [])
    requires At(d, i, blocks) && i + |blocks| == |d| < TWO63
    ensures DecodeResponse(m, d, i) == Success(LatestBlockDataResponse(latest, Stores(ps, |ps|)))
  {
    assert Stores(ps, 0) == [];
    PiecesDecode(latest, ps, d, i, 0);
  }

  lemma DecodesOverGaps(m: LatestBlockDataResponse, latest: int64, a: seq<byte>, number: seq<byte>, b: seq<byte>,
                        blocks: seq<byte>, d: seq<byte>, i: nat, m': LatestBlockDataResponse)
    requires ResponseSkips(a) && ResponseSkips(b) && m == LatestBlockDataResponse(0, [])
    requires number == NumberField(0x8, latest) && At(d, i, a + (number + (b + blocks)))
    requires |d| < TWO63 && i + |a| + |number| + |b| + |blocks| == |d|
    requires BlocksDecode(m.(latestBlock := latest), blocks, m')
    ensures DecodeResponse(m, d, i) == Success(m')
  {
    ResponseHead(m, latest, a, number, b, blocks, d, i);
    assert EndsIn(m.(latestBlock := latest), blocks, m', d, i + |a| + |number| + |b|);
  }

  predicate EndsIn(m: LatestBlockDataResponse, blocks: seq<byte>, m': LatestBlockDataResponse, d: seq<byte>, i: nat) {
    At(d, i, blocks) && i + |blocks| == |d| < TWO63 ==> DecodeResponse(m, d, i) == Success(m')
  }

  /** Wherever these bytes end the data, they lead from one message to the other. */
  ghost predicate BlocksDecode(m: LatestBlockDataResponse, blocks: seq<byte>, m': LatestBlockDataResponse) {
    forall d, i: nat :: EndsIn(m, blocks, m', d, i)
  }

  lemma PiecesDecodeAnywhere(latest: int64, ps: seq<Piece>)
    requires GoodPieces(ps)
    ensures BlocksDecode(LatestBlockDataResponse(latest, []), PieceBytes(ps, 0),
                         LatestBlockDataResponse(latest, Stores(ps, |ps|)))
  {
    var m, m' := LatestBlockDataResponse(latest, []), LatestBlockDataResponse(latest, Stores(ps, |ps|));
    var blocks := PieceBytes(ps, 0);
    forall d, i: nat ensures EndsIn(m, blocks, m', d, i) {
      if At(d, i, blocks) && i + |blocks| == |d| < TWO63 {
        PiecesFromStart(latest, ps, blocks, d, i, m);
      }
    }
  }
}
