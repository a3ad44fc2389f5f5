/** The thirteen leading fields that an execution payload and its header share. */
module ExecutionFields {
  import opened Common
  import opened Bytes
  import opened Pieces
  import opened Ssz

  const MAX_EXTRA_DATA: nat := 32

  datatype Fields = Fields(
    parentHash: Bytes32,
    feeRecipient: Bytes20,
    stateRoot: Bytes32,
    receiptsRoot: Bytes32,
    logsBloom: Bytes256,
    random: Bytes32,
    blockNumber: uint64,
    gasLimit: uint64,
    gasUsed: uint64,
    timestamp: uint64,
    baseFeePerGas: Bytes32,
    blockHash: Bytes32)

  /** Parts 0 to 12 of either container; the extra data is the only variable one among them. */
  function FieldParts(f: Fields, extraData: seq<byte>): (parts: seq<Part>)
    ensures |parts| == 13
  {
    [ Fixed(f.parentHash), Fixed(f.feeRecipient), Fixed(f.stateRoot), Fixed(f.receiptsRoot),
      Fixed(f.logsBloom), Fixed(f.random), Fixed(LeBytes(f.blockNumber, 8)), Fixed(LeBytes(f.gasLimit, 8)),
      Fixed(LeBytes(f.gasUsed, 8)), Fixed(LeBytes(f.timestamp, 8)), Variable(extraData),
      Fixed(f.baseFeePerGas), Fixed(f.blockHash) ]
  }

  /** What those parts put in the fixed-length section when the extra data is at `offset`. */
  function FieldHeads(f: Fields, offset: nat): (pieces: seq<seq<byte>>)
    ensures |pieces| == 13
  {
    [ f.parentHash, f.feeRecipient, f.stateRoot, f.receiptsRoot, f.logsBloom, f.random,
      LeBytes(f.blockNumber, 8), LeBytes(f.gasLimit, 8), LeBytes(f.gasUsed, 8), LeBytes(f.timestamp, 8),
      LeBytes(offset, 4), f.baseFeePerGas, f.blockHash ]
  }

  function EncodeFields(f: Fields, offset: nat): (s: seq<byte>)
    ensures |s| == 504
  {
    Layout(f, offset);
    Join(FieldHeads(f, offset), 13)
  }

  const POSITIONS: seq<nat> := [0, 32, 52, 84, 116, 372, 404, 412, 420, 428, 436, 440, 472, 504]

  lemma Layout(f: Fields, offset: nat)
    ensures forall i :: 0 <= i <= 13 ==> Pos(FieldHeads(f, offset), i) == POSITIONS[i]
  {
    var p := FieldHeads(f, offset);
    assert Pos(p, 1) == 32;
    assert Pos(p, 2) == 52;
    assert Pos(p, 3) == 84;
    assert Pos(p, 4) == 116;
    assert Pos(p, 5) == 372;
    assert Pos(p, 6) == 404;
    assert Pos(p, 7) == 412;
    assert Pos(p, 8) == 420;
    assert Pos(p, 9) == 428;
    assert Pos(p, 10) == 436;
    assert Pos(p, 11) == 440;
    assert Pos(p, 12) == 472;
    assert Pos(p, 13) == 504;
  }

  function DecodeFields(buf: seq<byte>): Fields
    requires |buf| >= 504
  {
    Fields(buf[0..32], buf[32..52], buf[52..84], buf[84..116], buf[116..372], buf[372..404],
           UnmarshallUint64(buf[404..412]), UnmarshallUint64(buf[412..420]),
           UnmarshallUint64(buf[420..428]), UnmarshallUint64(buf[428..436]),
           buf[440..472], buf[472..504])
  }

  function ExtraDataOffset(buf: seq<byte>): nat
    requires |buf| >= 504
  {
    ReadOffset(buf[436..440])
  }

  lemma FieldFound(f: Fields, offset: nat, more: seq<byte>, i: nat)
    requires i < 13
    ensures POSITIONS[i] <= POSITIONS[i + 1] <= 504
    ensures (EncodeFields(f, offset) + more)[POSITIONS[i]..POSITIONS[i + 1]] == FieldHeads(f, offset)[i]
  {
    Layout(f, offset);
    JoinHolds(FieldHeads(f, offset), i, 13);
    SliceOfLeft(EncodeFields(f, offset), more, POSITIONS[i], POSITIONS[i + 1]);
  }

  /** Where each field is in a payload and in a header. */
  ghost predicate HoldsFields(buf: seq<byte>, f: Fields) {
    && |buf| >= 504
    && buf[0..32] == f.parentHash && buf[32..52] == f.feeRecipient && buf[52..84] == f.stateRoot
    && buf[84..116] == f.receiptsRoot && buf[116..372] == f.logsBloom && buf[372..404] == f.random
    && buf[404..412] == LeBytes(f.blockNumber, 8) && buf[412..420] == LeBytes(f.gasLimit, 8)
    && buf[420..428] == LeBytes(f.gasUsed, 8) && buf[428..436] == LeBytes(f.timestamp, 8)
    && buf[440..472] == f.baseFeePerGas && buf[472..504] == f.blockHash
  }

  /** The decoder reads the fields that are there. */
  lemma FieldsHeld(buf: seq<byte>, f: Fields)
    requires |buf| >= 504
    ensures DecodeFields(buf) == f <==> HoldsFields(buf, f)
  {
    Uint64Read(buf[404..412], f.blockNumber);
    Uint64Read(buf[412..420], f.gasLimit);
    Uint64Read(buf[420..428], f.gasUsed);
    Uint64Read(buf[428..436], f.timestamp);
  }

  lemma Uint64Read(s: seq<byte>, x: uint64)
    requires |s| == 8
    ensures UnmarshallUint64(s) == x <==> s == LeBytes(x, 8)
  {
    Uint64RoundTrip(x);
    LeBytesOfLeNat(s);
  }

  lemma FieldBytes(f: Fields, offset: nat, more: seq<byte>)
    ensures HoldsFields(EncodeFields(f, offset) + more, f)
    ensures (EncodeFields(f, offset) + more)[436..440] == LeBytes(offset, 4)
  {
    FieldFound(f, offset, more, 0);
    FieldFound(f, offset, more, 1);
    FieldFound(f, offset, more, 2);
    FieldFound(f, offset, more, 3);
    FieldFound(f, offset, more, 4);
    FieldFound(f, offset, more, 5);
    FieldFound(f, offset, more, 6);
    FieldFound(f, offset, more, 7);
    FieldFound(f, offset, more, 8);
    FieldFound(f, offset, more, 9);
    FieldFound(f, offset, more, 10);
    FieldFound(f, offset, more, 11);
    FieldFound(f, offset, more, 12);
  }

  /** The fields are read back from any buffer that starts with their encoding. */
  lemma FieldsRoundTrip(f: Fields, offset: nat, more: seq<byte>)
    ensures DecodeFields(EncodeFields(f, offset) + more) == f
    ensures ExtraDataOffset(EncodeFields(f, offset) + more) == ReadOffset(LeBytes(offset, 4))
  {
    FieldBytes(f, offset, more);
    FieldsHeld(EncodeFields(f, offset) + more, f);
  }

  /** Re-encoding the fields read from a buffer gives back its first 504 bytes. */
  lemma FieldsCanonical(buf: seq<byte>)
    requires |buf| >= 504
    ensures EncodeFields(DecodeFields(buf), ExtraDataOffset(buf)) == buf[..504]
  {
    var f, offset := DecodeFields(buf), ExtraDataOffset(buf);
    var p := FieldHeads(f, offset);
    Layout(f, offset);
    OffsetBytes(buf[436..440]);
    assert PieceAt(p, buf, 0) && PieceAt(p, buf, 1) && PieceAt(p, buf, 2) && PieceAt(p, buf, 3);
    assert PieceAt(p, buf, 4) && PieceAt(p, buf, 5) && PieceAt(p, buf, 6) && PieceAt(p, buf, 7);
    assert PieceAt(p, buf, 8) && PieceAt(p, buf, 9) && PieceAt(p, buf, 10) && PieceAt(p, buf, 11);
    assert PieceAt(p, buf, 12);
    JoinDetermined(p, buf, 13);
  }

  /** The appends for fields 0 to 5 of an encoder. */
  method MarshalHashesTo(f: Fields, ghost offset: nat, buf: seq<byte>) returns (dst: seq<byte>)
    ensures dst == buf + Join(FieldHeads(f, offset), 6)
  {
    ghost var p := FieldHeads(f, offset);
    dst := buf;
    AppendPiece(buf, p, 0, dst, f.parentHash);
    dst := dst + f.parentHash;
    AppendPiece(buf, p, 1, dst, f.feeRecipient);
    dst := dst + f.feeRecipient;
    AppendPiece(buf, p, 2, dst, f.stateRoot);
    dst := dst + f.stateRoot;
    AppendPiece(buf, p, 3, dst, f.receiptsRoot);
    dst := dst + f.receiptsRoot;
    AppendPiece(buf, p, 4, dst, f.logsBloom);
    dst := dst + f.logsBloom;
    AppendPiece(buf, p, 5, dst, f.random);
    dst := dst + f.random;
  }

  /** The appends for fields 0 to 12 of an encoder. */
  method MarshalFieldsTo(f: Fields, offset: nat, buf: seq<byte>) returns (dst: seq<byte>)
    ensures dst == buf + EncodeFields(f, offset)
  {
    ghost var p := FieldHeads(f, offset);
    dst := MarshalHashesTo(f, offset, buf);
    AppendPiece(buf, p, 6, dst, LeBytes(f.blockNumber, 8));
    dst := dst + LeBytes(f.blockNumber, 8);
    AppendPiece(buf, p, 7, dst, LeBytes(f.gasLimit, 8));
    dst := dst + LeBytes(f.gasLimit, 8);
    AppendPiece(buf, p, 8, dst, LeBytes(f.gasUsed, 8));
    dst := dst + LeBytes(f.gasUsed, 8);
    AppendPiece(buf, p, 9, dst, LeBytes(f.timestamp, 8));
    dst := dst + LeBytes(f.timestamp, 8);
    AppendPiece(buf, p, 10, dst, LeBytes(offset, 4));
    dst := dst + LeBytes(offset, 4);
    AppendPiece(buf, p, 11, dst, f.baseFeePerGas);
    dst := dst + f.baseFeePerGas;
    AppendPiece(buf, p, 12, dst, f.blockHash);
    dst := dst + f.blockHash;
  }

  /** Field positions in a container that starts with these parts. */
  lemma FieldPositions(f: Fields, extraData: seq<byte>, more: seq<Part>, i: nat)
    requires i <= 13
    ensures HeadPos(FieldParts(f, extraData) + more, i) == POSITIONS[i]
    ensures TailPos(FieldParts(f, extraData) + more, i) == if i <= 10 then 0 else |extraData|
  {
    var p := FieldParts(f, extraData) + more;
    if i == 0 {
    } else {
      FieldPositions(f, extraData, more, i - 1);
      assert p[i - 1] == FieldParts(f, extraData)[i - 1];
    }
  }

  function HeadTotal(more: seq<Part>): nat
    requires |more| == 2
  {
    504 + HeadSize(more[0]) + HeadSize(more[1])
  }

  lemma Sizes(f: Fields, extraData: seq<byte>, more: seq<Part>)
    requires |more| == 2
    ensures var parts := FieldParts(f, extraData) + more;
            && Offset(parts, 10) == HeadTotal(more)
            && Offset(parts, 13) == HeadTotal(more) + |extraData|
            && Offset(parts, 14) == HeadTotal(more) + |extraData| + TailSize(more[0])
            && Offset(parts, 15) == HeadTotal(more) + |extraData| + TailSize(more[0]) + TailSize(more[1])
  {
    var parts := FieldParts(f, extraData) + more;
    FieldPositions(f, extraData, more, 10);
    FieldPositions(f, extraData, more, 13);
    assert parts[13] == more[0] && parts[14] == more[1];
    assert HeadPos(parts, 14) == 504 + HeadSize(more[0]);
    assert HeadPos(parts, 15) == HeadTotal(more);
    assert TailPos(parts, 14) == |extraData| + TailSize(more[0]);
  }

  /** A container of these thirteen parts and two more, written out. */
  lemma Shape(f: Fields, extraData: seq<byte>, more: seq<Part>)
    requires |more| == 2
    ensures var parts := FieldParts(f, extraData) + more;
            Container(parts) == (EncodeFields(f, HeadTotal(more)) + Head(parts, 13) + Head(parts, 14))
            + (extraData + Tail(more[0]) + Tail(more[1]))
  {
    var parts := FieldParts(f, extraData) + more;
    ShapeOfHeads(f, extraData, more, Heads(parts));
    ShapeOfTails(f, extraData, more, Tails(parts));
  }

  lemma ShapeOfHeads(f: Fields, extraData: seq<byte>, more: seq<Part>, heads: seq<seq<byte>>)
    requires |more| == 2 && heads == Heads(FieldParts(f, extraData) + more)
    ensures Join(heads, 15) == EncodeFields(f, HeadTotal(more)) + heads[13] + heads[14]
  {
    Sizes(f, extraData, more);
    var fieldHeads := FieldHeads(f, HeadTotal(more));
    forall i | 0 <= i < 13
      ensures heads[i] == fieldHeads[i]
    {
      assert (FieldParts(f, extraData) + more)[i] == FieldParts(f, extraData)[i];
    }
    assert heads == fieldHeads + heads[13..];
    JoinPrefix(fieldHeads, heads[13..], 13);
    assert Join(heads, 14) == Join(heads, 13) + heads[13];
  }

  lemma ShapeOfTails(f: Fields, extraData: seq<byte>, more: seq<Part>, tails: seq<seq<byte>>)
    requires |more| == 2 && tails == Tails(FieldParts(f, extraData) + more)
    ensures Join(tails, 15) == extraData + Tail(more[0]) + Tail(more[1])
  {
    forall i | 0 <= i < 13
      ensures tails[i] == if i == 10 then extraData else []
    {
      assert (FieldParts(f, extraData) + more)[i] == FieldParts(f, extraData)[i];
    }
    JoinSkip(tails, 0, 10);
    assert Join(tails, 11) == extraData;
    JoinSkip(tails, 11, 13);
    assert Join(tails, 14) == extraData + tails[13];
  }
}

/** The execution payload of a Capella block and its SSZ codec. */
module ExecutionPayloads {
  import opened Common
  import opened Bytes
  import opened Pieces
  import opened Ssz
  import opened ExecutionFields
  import opened Transactions
  import Withdrawals

  /** `withdrawals` is None where the Go slice is nil, which the header projection tells from empty. */
  datatype ExecutionPayload = ExecutionPayload(
    fields: Fields,
    extraData: seq<byte>,
    transactions: seq<Transaction>,
    withdrawals: Option<seq<Withdrawals.Withdrawal>>)

  function WithdrawalList(e: ExecutionPayload): seq<Withdrawals.Withdrawal> {
    if e.withdrawals.Some? then e.withdrawals.value else []
  }

  /** The payload that a decoder can return: it never leaves the withdrawals nil. */
  function Normal(e: ExecutionPayload): ExecutionPayload {
    e.(withdrawals := Some(WithdrawalList(e)))
  }

  ghost predicate WithinLimits(e: ExecutionPayload) {
    && |e.extraData| <= 32
    && Transactions.WithinLimits(e.transactions)
    && |WithdrawalList(e)| <= 16
  }

  function LastParts(e: ExecutionPayload): (parts: seq<Part>)
    ensures |parts| == 2
  {
    [Variable(EncodeTxs(e.transactions)), Variable(Withdrawals.EncodeList(WithdrawalList(e)))]
  }

  function Encode(e: ExecutionPayload): seq<byte> {
    Container(FieldParts(e.fields, e.extraData) + LastParts(e))
  }

  function TransactionsOffset(e: ExecutionPayload): nat {
    512 + |e.extraData|
  }

  function WithdrawalsOffset(e: ExecutionPayload): nat {
    TransactionsOffset(e) + |EncodeTxs(e.transactions)|
  }

  /** A payload's encoding, from its fields and the bytes of its three variable sections. */
  function Assemble(f: Fields, x: seq<byte>, t: seq<byte>, w: seq<byte>): seq<byte> {
    FixedSection(f, |x|, |t|) + (x + t + w)
  }

  function FixedSection(f: Fields, extraSize: nat, txsSize: nat): seq<byte> {
    EncodeFields(f, 512) + LeBytes(512 + extraSize, 4) + LeBytes(512 + extraSize + txsSize, 4)
  }

  lemma EncodeShape(e: ExecutionPayload)
    ensures Encode(e) == Assemble(e.fields, e.extraData, EncodeTxs(e.transactions),
                                  Withdrawals.EncodeList(WithdrawalList(e)))
  {
    var x, t, w := e.extraData, EncodeTxs(e.transactions), Withdrawals.EncodeList(WithdrawalList(e));
    ShapeFrom(e.fields, x, t, w, 512, 512 + |x|, 512 + |x| + |t|);
  }

  lemma ShapeFrom(f: Fields, x: seq<byte>, t: seq<byte>, w: seq<byte>, base: nat, o13: nat, o14: nat)
    requires base == HeadTotal([Variable(t), Variable(w)]) && o13 == base + |x| && o14 == base + |x| + |t|
    ensures Container(FieldParts(f, x) + [Variable(t), Variable(w)])
         == (EncodeFields(f, base) + LeBytes(o13, 4) + LeBytes(o14, 4)) + (x + t + w)
  {
    var more := [Variable(t), Variable(w)];
    var parts := FieldParts(f, x) + more;
    Sizes(f, x, more);
    assert Head(parts, 13) == LeBytes(o13, 4);
    assert Head(parts, 14) == LeBytes(o14, 4);
    Shape(f, x, more);
  }

  // ---------- Decoding ----------

  function Decode(buf: seq<byte>): Result<ExecutionPayload, SszError> {
    if |buf| < 512 then Err(ErrSize)
    else
      var o10, o13, o14 := ExtraDataOffset(buf), ReadOffset(buf[504..508]), ReadOffset(buf[508..512]);
      if o10 > |buf| then Err(ErrOffset)
      else if o10 < 512 then Err(ErrInvalidVariableOffset)
      else if o13 > |buf| || o10 > o13 then Err(ErrOffset)
      else if o14 > |buf| || o13 > o14 then Err(ErrOffset)
      else if o13 - o10 > MAX_EXTRA_DATA then Err(ErrBytesLength)
      else
        match DecodeTxs(buf[o13..o14])
        case Err(e) => Err(e)
        case Ok(txs) =>
          match Withdrawals.DecodeList(buf[o14..])
          case Err(e) => Err(e)
          case Ok(ws) => Ok(ExecutionPayload(DecodeFields(buf), buf[o10..o13], txs, Some(ws)))
  }

  /** The three variable sections of `buf`, cut at 512, o13 and o14. */
  ghost predicate Sections(buf: seq<byte>, o13: nat, o14: nat, x: seq<byte>, t: seq<byte>, w: seq<byte>) {
    && 512 <= o13 <= o14 <= |buf|
    && buf[512..o13] == x && buf[o13..o14] == t && buf[o14..] == w
  }

  lemma CutSections(buf: seq<byte>, head: seq<byte>, a: seq<byte>, b: seq<byte>,
                    x: seq<byte>, t: seq<byte>, w: seq<byte>)
    requires buf == (head + a + b) + (x + t + w)
    requires |head| == 504 && |a| == 4 && |b| == 4
    ensures |buf| == 512 + |x| + |t| + |w|
    ensures Sections(buf, 512 + |x|, 512 + |x| + |t|, x, t, w)
    ensures buf[504..508] == a && buf[508..512] == b
    ensures buf == head + (a + b + (x + t + w))
  {
  }

  /** Where everything is in an assembled payload. */
  lemma Located(f: Fields, x: seq<byte>, t: seq<byte>, w: seq<byte>, buf: seq<byte>)
    requires buf == Assemble(f, x, t, w)
    ensures |buf| == 512 + |x| + |t| + |w|
    ensures Sections(buf, 512 + |x|, 512 + |x| + |t|, x, t, w)
    ensures buf[504..508] == LeBytes(512 + |x|, 4)
    ensures buf[508..512] == LeBytes(512 + |x| + |t|, 4)
    ensures DecodeFields(buf) == f && ExtraDataOffset(buf) == 512
  {
    var a, b := LeBytes(512 + |x|, 4), LeBytes(512 + |x| + |t|, 4);
    CutSections(buf, EncodeFields(f, 512), a, b, x, t, w);
    FieldsRoundTrip(f, 512, a + b + (x + t + w));
    OffsetRoundTrip(512);
  }

  lemma AssembledBytes(f: Fields, x: seq<byte>, t: seq<byte>, w: seq<byte>, s: seq<byte>)
    requires s == Assemble(f, x, t, w)
    ensures HoldsFields(s, f) && s[436..440] == LeBytes(512, 4)
    ensures |s| == 512 + |x| + |t| + |w| && Sections(s, 512 + |x|, 512 + |x| + |t|, x, t, w)
    ensures s[504..508] == LeBytes(512 + |x|, 4) && s[508..512] == LeBytes(512 + |x| + |t|, 4)
  {
    var a, b := LeBytes(512 + |x|, 4), LeBytes(512 + |x| + |t|, 4);
    CutSections(s, EncodeFields(f, 512), a, b, x, t, w);
    FieldBytes(f, 512, a + b + (x + t + w));
  }

  /** Where everything is in an encoded payload. */
  lemma EncodedBytes(e: ExecutionPayload)
    ensures var x, t := e.extraData, EncodeTxs(e.transactions);
            && HoldsFields(Encode(e), e.fields) && |Encode(e)| >= 512
            && Encode(e)[436..440] == LeBytes(512, 4)
            && Encode(e)[504..508] == LeBytes(512 + |x|, 4) && Encode(e)[508..512] == LeBytes(512 + |x| + |t|, 4)
            && Sections(Encode(e), 512 + |x|, 512 + |x| + |t|, x, t, Withdrawals.EncodeList(WithdrawalList(e)))
  {
    var x, t, w := e.extraData, EncodeTxs(e.transactions), Withdrawals.EncodeList(WithdrawalList(e));
    EncodeShape(e);
    AssembledBytes(e.fields, x, t, w, Encode(e));
  }

  /** The three offsets of a buffer, in order and inside it. */
  ghost predicate OffsetsOrdered(buf: seq<byte>, o10: nat, o13: nat, o14: nat) {
    && |buf| >= 512
    && LeNat(buf[436..440]) == o10 && LeNat(buf[504..508]) == o13 && LeNat(buf[508..512]) == o14
    && 512 <= o10 <= o13 <= o14 <= |buf|
  }

  /**
    * A buffer decodes to a payload exactly when its offsets cut it into the fields, the extra data, a section that
    * is accepted for the transactions and the encoding of the withdrawals, within the limits.
    */
  lemma AcceptedExactlyWhen(buf: seq<byte>, e: ExecutionPayload)
    ensures Decode(buf) == Ok(e) <==>
            exists o10: nat, o13: nat, o14: nat ::
              && OffsetsOrdered(buf, o10, o13, o14) && HoldsFields(buf, e.fields)
              && e.extraData == buf[o10..o13] && |e.extraData| <= 32
              && DecodeTxs(buf[o13..o14]) == Ok(e.transactions)
              && e.withdrawals.Some? && |e.withdrawals.value| <= 16
              && buf[o14..] == Withdrawals.EncodeList(e.withdrawals.value)
  {
    if |buf| >= 512 {
      var o10, o13, o14 := LeNat(buf[436..440]), LeNat(buf[504..508]), LeNat(buf[508..512]);
      OffsetsRead(buf);
      FieldsHeld(buf, e.fields);
      if OffsetsOrdered(buf, o10, o13, o14) {
        AcceptedBetween(buf, e, o10, o13, o14);
        if e.withdrawals.Some? {
          Withdrawals.ListAccepted(buf[o14..], e.withdrawals.value);
        }
      }
    }
  }

  lemma OffsetsRead(buf: seq<byte>)
    requires |buf| >= 512
    ensures ExtraDataOffset(buf) == LeNat(buf[436..440])
    ensures ReadOffset(buf[504..508]) == LeNat(buf[504..508]) && ReadOffset(buf[508..512]) == LeNat(buf[508..512])
  {
    assert buf[436..440][..4] == buf[436..440];
    assert buf[504..508][..4] == buf[504..508];
    assert buf[508..512][..4] == buf[508..512];
  }

  lemma AcceptedBetween(buf: seq<byte>, e: ExecutionPayload, o10: nat, o13: nat, o14: nat)
    requires OffsetsOrdered(buf, o10, o13, o14)
    ensures Decode(buf) == Ok(e) <==>
            && DecodeFields(buf) == e.fields
            && e.extraData == buf[o10..o13] && |e.extraData| <= 32
            && DecodeTxs(buf[o13..o14]) == Ok(e.transactions)
            && e.withdrawals.Some? && Withdrawals.DecodeList(buf[o14..]) == Ok(e.withdrawals.value)
  {
    OffsetsRead(buf);
  }

  /** Which error a buffer with bad offsets, or with too much between them, is rejected with. */
  lemma Rejected(buf: seq<byte>)
    ensures |buf| < 512 ==> Decode(buf) == Err(ErrSize)
    ensures |buf| >= 512 ==>
              var o10, o13, o14 := LeNat(buf[436..440]), LeNat(buf[504..508]), LeNat(buf[508..512]);
              && (o10 < 512 ==> Decode(buf) == Err(ErrInvalidVariableOffset))
              && (o10 >= 512 && !OffsetsOrdered(buf, o10, o13, o14) ==> Decode(buf) == Err(ErrOffset))
              && (OffsetsOrdered(buf, o10, o13, o14) && o13 - o10 > 32 ==> Decode(buf) == Err(ErrBytesLength))
  {
    if |buf| >= 512 {
      OffsetsRead(buf);
    }
  }

  lemma DecodeOfSections(buf: seq<byte>, o13: nat, o14: nat, x: seq<byte>, t: seq<byte>, w: seq<byte>)
    requires |buf| >= 512 && ExtraDataOffset(buf) == 512
    requires ReadOffset(buf[504..508]) == o13 && ReadOffset(buf[508..512]) == o14
    requires Sections(buf, o13, o14, x, t, w) && |x| <= 32
    requires DecodeTxs(t).Ok? && Withdrawals.DecodeList(w).Ok?
    ensures Decode(buf) == Ok(ExecutionPayload(DecodeFields(buf), x, DecodeTxs(t).value,
                                               Some(Withdrawals.DecodeList(w).value)))
  {
  }

  lemma DecodeAssembled(f: Fields, x: seq<byte>, t: seq<byte>, w: seq<byte>)
    requires |x| <= 32 && 512 + |x| + |t| < TWO_32
    requires DecodeTxs(t).Ok? && Withdrawals.DecodeList(w).Ok?
    ensures Decode(Assemble(f, x, t, w)) == Ok(ExecutionPayload(f, x, DecodeTxs(t).value,
                                                                Some(Withdrawals.DecodeList(w).value)))
  {
    Located(f, x, t, w, Assemble(f, x, t, w));
    OffsetRoundTrip(512 + |x|);
    OffsetRoundTrip(512 + |x| + |t|);
    DecodeOfSections(Assemble(f, x, t, w), 512 + |x|, 512 + |x| + |t|, x, t, w);
  }

  /** A wrapped withdrawals offset cuts off a withdrawals section that is far too long. */
  lemma DecodeWrapped(f: Fields, x: seq<byte>, t: seq<byte>, w: seq<byte>)
    requires 512 + |x| + |t| >= TWO_32
    ensures Decode(Assemble(f, x, t, w)).Err?
  {
    var buf := Assemble(f, x, t, w);
    Located(f, x, t, w, buf);
    OffsetRoundTrip(512 + |x| + |t|);
    WrapLoses(512 + |x| + |t|);
    LongTailRejected(buf);
  }

  /**
    * Decoding the encoding of a payload within the list limits gives the payload back
    * exactly when the offset of its withdrawals fits four bytes; nil withdrawals come back empty.
    */
  lemma RoundTrip(e: ExecutionPayload)
    requires WithinLimits(e)
    ensures Decode(Encode(e)) == Ok(Normal(e)) <==> WithdrawalsOffset(e) < TWO_32
    ensures WithdrawalsOffset(e) >= TWO_32 ==> Decode(Encode(e)).Err?
  {
    var t, w := EncodeTxs(e.transactions), Withdrawals.EncodeList(WithdrawalList(e));
    EncodeShape(e);
    if WithdrawalsOffset(e) < TWO_32 {
      SmallFits(e.transactions);
      TxsRoundTrip(e.transactions);
      Withdrawals.ListRoundTrip(WithdrawalList(e));
      DecodeAssembled(e.fields, e.extraData, t, w);
    } else {
      DecodeWrapped(e.fields, e.extraData, t, w);
    }
  }

  /** Four transactions of the greatest length that is allowed. */
  function LargePayload(f: Fields): ExecutionPayload {
    var tx := Zeros(1073741824);
    ExecutionPayload(f, [], [tx, tx, tx, tx], Some([]))
  }

  lemma FourOfSize(txs: seq<Transaction>, size: nat)
    requires |txs| == 4 && forall i :: 0 <= i < 4 ==> |txs[i]| == size
    ensures Pos(txs, 4) == 4 * size
  {
    assert Pos(txs, 1) == size;
    assert Pos(txs, 2) == 2 * size;
    assert Pos(txs, 3) == 3 * size;
  }

  /** The list limits do not imply the condition. */
  lemma WithinLimitsIsNotEnough(f: Fields)
    ensures WithinLimits(LargePayload(f)) && Decode(Encode(LargePayload(f))).Err?
  {
    var e := LargePayload(f);
    FourOfSize(e.transactions, 1073741824);
    EncodedSize(e.transactions);
    RoundTrip(e);
  }

  lemma WrapLoses(x: nat)
    requires x >= TWO_32
    ensures x - x % 0x1_0000_0000 >= TWO_32
  {
  }

  lemma LongTailRejected(buf: seq<byte>)
    requires |buf| >= 512 && |buf| - ReadOffset(buf[508..512]) >= TWO_32
    ensures Decode(buf).Err?
  {
    var rest := buf[ReadOffset(buf[508..512])..];
    if Withdrawals.DecodeList(rest).Ok? {
      Withdrawals.SectionSize(rest);
    }
  }

  // ---------- Normal form of what is accepted ----------

  lemma Reassembled(buf: seq<byte>, o13: nat, o14: nat)
    requires |buf| >= 512 && ExtraDataOffset(buf) == 512
    requires ReadOffset(buf[504..508]) == o13 && ReadOffset(buf[508..512]) == o14
    requires 512 <= o13 <= o14 <= |buf|
    ensures Assemble(DecodeFields(buf), buf[512..o13], buf[o13..o14], buf[o14..]) == buf
  {
    FieldsCanonical(buf);
    OffsetBytes(buf[504..508]);
    OffsetBytes(buf[508..512]);
    Glue(buf, o13, o14);
  }

  lemma Glue(buf: seq<byte>, o13: nat, o14: nat)
    requires 512 <= o13 <= o14 <= |buf|
    ensures (buf[..504] + buf[504..508] + buf[508..512]) + (buf[512..o13] + buf[o13..o14] + buf[o14..]) == buf
  {
    assert buf[..504] + buf[504..508] + buf[508..512] == buf[..512];
    assert buf[512..o13] + buf[o13..o14] + buf[o14..] == buf[512..];
  }

  /** The sections that re-encoding an accepted buffer assembles. */
  lemma Reencoded(buf: seq<byte>)
    requires Decode(buf).Ok?
    ensures var e := Decode(buf).value;
            var o10, o13, o14 := ExtraDataOffset(buf), ReadOffset(buf[504..508]), ReadOffset(buf[508..512]);
            && o14 < TWO_32 && WithinLimits(e)
            && 512 <= o10 <= o13 <= o14 <= |buf|
            && EncodeTxs(e.transactions) == (if e.transactions == [] then [] else buf[o13..o14])
            && Withdrawals.EncodeList(WithdrawalList(e)) == buf[o14..]
            && e.fields == DecodeFields(buf) && e.extraData == buf[o10..o13]
            && e.withdrawals.Some?
  {
    var o13, o14 := ReadOffset(buf[504..508]), ReadOffset(buf[508..512]);
    OffsetBytes(buf[508..512]);
    TxsCanonical(buf[o13..o14]);
    Withdrawals.ListCanonical(buf[o14..]);
  }

  /** The first offset is 512, and an empty list of transactions has an empty section. */
  predicate Canonical(buf: seq<byte>)
    requires Decode(buf).Ok?
  {
    && ExtraDataOffset(buf) == 512
    && (Decode(buf).value.transactions == [] ==> buf[504..508] == buf[508..512])
  }

  /**
    * Every accepted buffer re-encodes to one that is no longer and decodes to the same
    * payload; it is the same buffer exactly when it is canonical.
    */
  lemma NormalForm(buf: seq<byte>)
    requires Decode(buf).Ok?
    ensures WithinLimits(Decode(buf).value)
    ensures Decode(Encode(Decode(buf).value)) == Decode(buf)
    ensures Encode(Decode(buf).value) == buf <==> Canonical(buf)
    ensures |Encode(Decode(buf).value)| <= |buf|
    ensures Encode(Decode(buf).value) != buf ==> |Encode(Decode(buf).value)| < |buf|
  {
    Redecoded(buf);
    ReencodedSame(buf);
    ReencodedShorter(buf);
  }

  lemma Redecoded(buf: seq<byte>)
    requires Decode(buf).Ok?
    ensures WithinLimits(Decode(buf).value) && Decode(Encode(Decode(buf).value)) == Decode(buf)
  {
    Reencoded(buf);
    RoundTrip(Decode(buf).value);
  }

  lemma ReencodedSame(buf: seq<byte>)
    requires Decode(buf).Ok?
    ensures Encode(Decode(buf).value) == buf <==> Canonical(buf)
  {
    var e, o13, o14 := Decode(buf).value, ReadOffset(buf[504..508]), ReadOffset(buf[508..512]);
    Reencoded(buf);
    ReencodedBytes(buf);
    SameBytes(buf, e, if e.transactions == [] then [] else buf[o13..o14]);
  }

  lemma ReencodedShorter(buf: seq<byte>)
    requires Decode(buf).Ok?
    ensures |Encode(Decode(buf).value)| <= |buf|
    ensures !Canonical(buf) ==> |Encode(Decode(buf).value)| < |buf|
  {
    ReencodedSize(buf);
    if buf[504..508] != buf[508..512] {
      DifferentOffsets(buf[504..508], buf[508..512]);
    }
  }

  lemma ReencodedBytes(buf: seq<byte>)
    requires Decode(buf).Ok?
    ensures var e, o13, o14 := Decode(buf).value, ReadOffset(buf[504..508]), ReadOffset(buf[508..512]);
            && o13 <= o14 <= |buf|
            && var t := if e.transactions == [] then [] else buf[o13..o14];
            Encode(e) == Assemble(e.fields, e.extraData, t, buf[o14..])
  {
    Reencoded(buf);
    EncodeShape(Decode(buf).value);
  }

  lemma ReencodedSize(buf: seq<byte>)
    requires Decode(buf).Ok?
    ensures var e := Decode(buf).value;
            var o10, o13, o14 := ExtraDataOffset(buf), ReadOffset(buf[504..508]), ReadOffset(buf[508..512]);
            && 512 <= o10 <= o13 <= o14 <= |buf|
            && |Encode(e)| == 512 + (o13 - o10) + (if e.transactions == [] then 0 else o14 - o13) + (|buf| - o14)
  {
    var e, o13, o14 := Decode(buf).value, ReadOffset(buf[504..508]), ReadOffset(buf[508..512]);
    Reencoded(buf);
    ReencodedBytes(buf);
    Located(e.fields, e.extraData, if e.transactions == [] then [] else buf[o13..o14], buf[o14..], Encode(e));
  }

  lemma SameBytes(buf: seq<byte>, e: ExecutionPayload, t: seq<byte>)
    requires |buf| >= 512
    requires var o10, o13, o14 := ExtraDataOffset(buf), ReadOffset(buf[504..508]), ReadOffset(buf[508..512]);
             && 512 <= o10 <= o13 <= o14 <= |buf|
             && t == (if e.transactions == [] then [] else buf[o13..o14])
             && e.fields == DecodeFields(buf) && e.extraData == buf[o10..o13]
    ensures Assemble(e.fields, e.extraData, t, buf[ReadOffset(buf[508..512])..]) == buf <==>
            && ExtraDataOffset(buf) == 512
            && (e.transactions == [] ==> buf[504..508] == buf[508..512])
  {
    var o13, o14 := ReadOffset(buf[504..508]), ReadOffset(buf[508..512]);
    var again := Assemble(e.fields, e.extraData, t, buf[o14..]);
    Located(e.fields, e.extraData, t, buf[o14..], again);
    if ExtraDataOffset(buf) == 512 && (e.transactions == [] ==> buf[504..508] == buf[508..512]) {
      assert t == buf[o13..o14];
      Reassembled(buf, o13, o14);
    }
  }

  // ---------- The methods ----------

  /** The first limit, in the encoder's order, that a payload exceeds. */
  function LimitError(e: ExecutionPayload): Option<SszError> {
    if |e.extraData| > MAX_EXTRA_DATA then Some(ErrBytesLength)
    else if |e.transactions| > MAX_TRANSACTIONS then Some(ErrListTooBig)
    else if exists i :: 0 <= i < |e.transactions| && |e.transactions[i]| > MAX_TRANSACTION_SIZE
    then Some(ErrBytesLength)
    else if |WithdrawalList(e)| > Withdrawals.MAX_WITHDRAWALS then Some(ErrListTooBig)
      else None
  }

  lemma LimitsAgree(e: ExecutionPayload)
    ensures LimitError(e).None? <==> WithinLimits(e)
    ensures |e.extraData| > 32 ==> LimitError(e) == Some(ErrBytesLength)
    ensures |e.extraData| <= 32 && |e.transactions| > 1048576 ==> LimitError(e) == Some(ErrListTooBig)
    ensures |e.extraData| <= 32 && Transactions.WithinLimits(e.transactions) && |WithdrawalList(e)| > 16 ==>
              LimitError(e) == Some(ErrListTooBig)
    ensures |e.extraData| <= 32 && |e.transactions| <= 1048576 && !Transactions.WithinLimits(e.transactions) ==>
              LimitError(e) == Some(ErrBytesLength)
  {
  }

  method MarshalFixedTo(e: ExecutionPayload, buf: seq<byte>) returns (dst: seq<byte>)
    ensures dst == buf + FixedSection(e.fields, |e.extraData|, |EncodeTxs(e.transactions)|)
  {
    var offset := 512 + |e.extraData|;
    var next := SizeOfTransactions(offset, e.transactions);
    assert next == 512 + |e.extraData| + |EncodeTxs(e.transactions)|;
    dst := MarshalWithOffsetsTo(e.fields, 512, offset, next, buf);
  }

  method MarshalWithOffsetsTo(f: Fields, o10: nat, o13: nat, o14: nat, buf: seq<byte>) returns (dst: seq<byte>)
    ensures dst == buf + (EncodeFields(f, o10) + LeBytes(o13, 4) + LeBytes(o14, 4))
  {
    dst := MarshalFieldsTo(f, o10, buf);
    AppendThree(buf, EncodeFields(f, o10), LeBytes(o13, 4), LeBytes(o14, 4));
    dst := dst + LeBytes(o13, 4);
    dst := dst + LeBytes(o14, 4);
  }

  method MarshalVariableTo(e: ExecutionPayload, buf: seq<byte>) returns (dst: seq<byte>, err: Option<SszError>)
    ensures err == LimitError(e)
    ensures err.None? <==> WithinLimits(e)
    ensures err.None? ==> dst == buf + (e.extraData + EncodeTxs(e.transactions)
                                        + Withdrawals.EncodeList(WithdrawalList(e)))
  {
    if |e.extraData| > MAX_EXTRA_DATA {
      return buf, Some(ErrBytesLength);
    }
    dst := buf + e.extraData;
    dst, err := MarshalTransactionsTo(dst, e.transactions);
    if err.Some? {
      return;
    }
    dst, err := Withdrawals.MarshalListTo(dst, WithdrawalList(e));
    AppendThree(buf, e.extraData, EncodeTxs(e.transactions), Withdrawals.EncodeList(WithdrawalList(e)));
  }

  method MarshalSSZTo(e: ExecutionPayload, buf: seq<byte>) returns (dst: seq<byte>, err: Option<SszError>)
    ensures err == LimitError(e)
    ensures err.None? <==> WithinLimits(e)
    ensures err.None? ==> dst == buf + Encode(e)
  {
    dst := MarshalFixedTo(e, buf);
    dst, err := MarshalVariableTo(e, dst);
    EncodeShape(e);
    ghost var t, w := EncodeTxs(e.transactions), Withdrawals.EncodeList(WithdrawalList(e));
    AppendAssoc(buf, FixedSection(e.fields, |e.extraData|, |t|), e.extraData + t + w);
  }

  /** The decoder, filling `recv` field by field; extra data is appended to what `recv` held. */
  method UnmarshalSSZ(recv: ExecutionPayload, buf: seq<byte>) returns (e: ExecutionPayload, err: Option<SszError>)
    ensures Decode(buf).Err? ==> err == Some(Decode(buf).error)
    ensures Decode(buf).Ok? ==> err.None? &&
                                e == Decode(buf).value.(extraData := recv.extraData + Decode(buf).value.extraData)
  {
    e := recv;
    if |buf| < 512 {
      return e, Some(ErrSize);
    }
    e := e.(fields := DecodeFields(buf));
    var o10, o13, o14 := ExtraDataOffset(buf), ReadOffset(buf[504..508]), ReadOffset(buf[508..512]);
    if o10 > |buf| {
      return e, Some(ErrOffset);
    }
    if o10 < 512 {
      return e, Some(ErrInvalidVariableOffset);
    }
    if o13 > |buf| || o10 > o13 {
      return e, Some(ErrOffset);
    }
    if o14 > |buf| || o13 > o14 {
      return e, Some(ErrOffset);
    }
    if o13 - o10 > MAX_EXTRA_DATA {
      return e, Some(ErrBytesLength);
    }
    e := e.(extraData := e.extraData + buf[o10..o13]);
    var txs, txErr := UnmarshalTransactions(buf[o13..o14]);
    e := e.(transactions := txs);
    if txErr.Some? {
      return e, txErr;
    }
    var ws, wErr := Withdrawals.UnmarshalList(buf[o14..]);
    e := e.(withdrawals := Some(ws));
    return e, wErr;
  }

  /** SizeSSZ is the length of the encoding. */
  method SizeSSZ(e: ExecutionPayload) returns (size: nat)
    ensures size == |Encode(e)|
  {
    size := 512;
    size := size + |e.extraData|;
    size := SizeOfTransactions(size, e.transactions);
    size := size + |WithdrawalList(e)| * 44;
    EncodeShape(e);
    Located(e.fields, e.extraData, EncodeTxs(e.transactions), Withdrawals.EncodeList(WithdrawalList(e)), Encode(e));
    Withdrawals.UniformPos(Withdrawals.Encoded(WithdrawalList(e)), |WithdrawalList(e)|);
  }
}
