/** The stored and streamed form of a submitted block: its payload, bid trace and header root. */
module BlockTraces {
  import opened Common
  import opened Bytes
  import opened Pieces
  import opened Ssz
  import opened Frames
  import opened ExecutionFields
  import opened ExecutionPayloads

  // ---------- BidTrace ----------

  datatype BidTrace = BidTrace(
    slot: uint64,
    parentHash: Bytes32,
    blockHash: Bytes32,
    builderPubkey: Bytes48,
    proposerPubkey: Bytes48,
    proposerFeeRecipient: Bytes20,
    gasLimit: uint64,
    gasUsed: uint64,
    value: Bytes32)

  function TracePieces(t: BidTrace): (pieces: seq<seq<byte>>)
    ensures |pieces| == 9
  {
    [ LeBytes(t.slot, 8), t.parentHash, t.blockHash, t.builderPubkey, t.proposerPubkey,
      t.proposerFeeRecipient, LeBytes(t.gasLimit, 8), LeBytes(t.gasUsed, 8), t.value ]
  }

  function TraceParts(t: BidTrace): (parts: seq<Part>)
    ensures |parts| == 9
  {
    seq(9, i requires 0 <= i < 9 => Fixed(TracePieces(t)[i]))
  }

  function EncodeTrace(t: BidTrace): (s: seq<byte>)
    ensures |s| == 236
  {
    TraceLayout(t);
    Join(TracePieces(t), 9)
  }

  const TRACE_POSITIONS: seq<nat> := [0, 8, 40, 72, 120, 168, 188, 196, 204, 236]

  lemma TraceLayout(t: BidTrace)
    ensures forall i :: 0 <= i <= 9 ==> Pos(TracePieces(t), i) == TRACE_POSITIONS[i]
  {
    var p := TracePieces(t);
    assert Pos(p, 1) == 8;
    assert Pos(p, 2) == 40;
    assert Pos(p, 3) == 72;
    assert Pos(p, 4) == 120;
    assert Pos(p, 5) == 168;
    assert Pos(p, 6) == 188;
    assert Pos(p, 7) == 196;
    assert Pos(p, 8) == 204;
    assert Pos(p, 9) == 236;
  }

  lemma TraceIsContainer(t: BidTrace)
    ensures EncodeTrace(t) == Container(TraceParts(t))
  {
    var parts := TraceParts(t);
    assert Heads(parts) == TracePieces(t);
    JoinSkip(Tails(parts), 0, 9);
  }

  function DecodeTrace(buf: seq<byte>): BidTrace
    requires |buf| == 236
  {
    BidTrace(UnmarshallUint64(buf[0..8]), buf[8..40], buf[40..72], buf[72..120], buf[120..168], buf[168..188],
             UnmarshallUint64(buf[188..196]), UnmarshallUint64(buf[196..204]), buf[204..236])
  }

  lemma TraceField(t: BidTrace, i: nat)
    requires i < 9
    ensures TRACE_POSITIONS[i] <= TRACE_POSITIONS[i + 1] <= 236
    ensures EncodeTrace(t)[TRACE_POSITIONS[i]..TRACE_POSITIONS[i + 1]] == TracePieces(t)[i]
  {
    TraceLayout(t);
    JoinHolds(TracePieces(t), i, 9);
  }

  /** Where each field of a trace is. */
  ghost predicate HoldsTrace(buf: seq<byte>, t: BidTrace) {
    && |buf| == 236
    && buf[0..8] == LeBytes(t.slot, 8) && buf[8..40] == t.parentHash && buf[40..72] == t.blockHash
    && buf[72..120] == t.builderPubkey && buf[120..168] == t.proposerPubkey
    && buf[168..188] == t.proposerFeeRecipient && buf[188..196] == LeBytes(t.gasLimit, 8)
    && buf[196..204] == LeBytes(t.gasUsed, 8) && buf[204..236] == t.value
  }

  lemma TraceBytes(t: BidTrace)
    ensures HoldsTrace(EncodeTrace(t), t)
  {
    TraceField(t, 0);
    TraceField(t, 1);
    TraceField(t, 2);
    TraceField(t, 3);
    TraceField(t, 4);
    TraceField(t, 5);
    TraceField(t, 6);
    TraceField(t, 7);
    TraceField(t, 8);
  }

  lemma TraceHeld(buf: seq<byte>, t: BidTrace)
    requires |buf| == 236
    ensures DecodeTrace(buf) == t <==> HoldsTrace(buf, t)
  {
    Uint64Read(buf[0..8], t.slot);
    Uint64Read(buf[188..196], t.gasLimit);
    Uint64Read(buf[196..204], t.gasUsed);
  }

  lemma TraceRoundTrip(t: BidTrace)
    ensures DecodeTrace(EncodeTrace(t)) == t
  {
    TraceBytes(t);
    TraceHeld(EncodeTrace(t), t);
  }

  lemma TraceCanonical(buf: seq<byte>)
    requires |buf| == 236
    ensures EncodeTrace(DecodeTrace(buf)) == buf
  {
    var p := TracePieces(DecodeTrace(buf));
    TraceLayout(DecodeTrace(buf));
    assert PieceAt(p, buf, 0) && PieceAt(p, buf, 1) && PieceAt(p, buf, 2) && PieceAt(p, buf, 3);
    assert PieceAt(p, buf, 4) && PieceAt(p, buf, 5) && PieceAt(p, buf, 6) && PieceAt(p, buf, 7);
    assert PieceAt(p, buf, 8);
    JoinDetermined(p, buf, 9);
    SplitAt(buf, 236);
  }

  method MarshalTraceTo(t: BidTrace, buf: seq<byte>) returns (dst: seq<byte>)
    ensures dst == buf + EncodeTrace(t)
  {
    ghost var p := TracePieces(t);
    dst := buf;
    AppendPiece(buf, p, 0, dst, LeBytes(t.slot, 8));
    dst := dst + LeBytes(t.slot, 8);
    AppendPiece(buf, p, 1, dst, t.parentHash);
    dst := dst + t.parentHash;
    AppendPiece(buf, p, 2, dst, t.blockHash);
    dst := dst + t.blockHash;
    AppendPiece(buf, p, 3, dst, t.builderPubkey);
    dst := dst + t.builderPubkey;
    AppendPiece(buf, p, 4, dst, t.proposerPubkey);
    dst := dst + t.proposerPubkey;
    AppendPiece(buf, p, 5, dst, t.proposerFeeRecipient);
    dst := dst + t.proposerFeeRecipient;
    AppendPiece(buf, p, 6, dst, LeBytes(t.gasLimit, 8));
    dst := dst + LeBytes(t.gasLimit, 8);
    AppendPiece(buf, p, 7, dst, LeBytes(t.gasUsed, 8));
    dst := dst + LeBytes(t.gasUsed, 8);
    AppendPiece(buf, p, 8, dst, t.value);
    dst := dst + t.value;
  }

  // ---------- SignedBidTrace ----------

  datatype SignedBidTrace = SignedBidTrace(signature: Bytes96, message: BidTrace)

  function EncodeSigned(s: SignedBidTrace): (r: seq<byte>)
    ensures |r| == 332
  {
    s.signature + EncodeTrace(s.message)
  }

  /** Two fixed parts, the second one a container itself. */
  lemma SignedIsContainer(s: SignedBidTrace)
    ensures EncodeSigned(s) == Container([Fixed(s.signature), Fixed(Container(TraceParts(s.message)))])
  {
    TraceIsContainer(s.message);
    var parts := [Fixed(s.signature), Fixed(EncodeTrace(s.message))];
    assert Join(Heads(parts), 1) == s.signature;
    assert Join(Heads(parts), 2) == EncodeSigned(s);
    JoinSkip(Tails(parts), 0, 2);
  }

  function DecodeSigned(buf: seq<byte>): Result<SignedBidTrace, SszError> {
    if |buf| < 332 then Err(ErrSize) else Ok(SignedBidTrace(buf[..96], DecodeTrace(buf[96..332])))
  }

  lemma SignedRoundTrip(s: SignedBidTrace)
    ensures DecodeSigned(EncodeSigned(s)) == Ok(s)
  {
    TraceRoundTrip(s.message);
    assert EncodeSigned(s)[..96] == s.signature;
    assert EncodeSigned(s)[96..332] == EncodeTrace(s.message);
  }

  // ---------- GetPayloadResponse ----------

  datatype GetPayloadResponse = GetPayloadResponse(version: seq<byte>, data: ExecutionPayload)

  function ResponseParts(r: GetPayloadResponse): seq<Part> {
    [Variable(r.version), Variable(ExecutionPayloads.Encode(r.data))]
  }

  function EncodeResponse(r: GetPayloadResponse): seq<byte> {
    Container(ResponseParts(r))
  }

  function AssembleResponse(v: seq<byte>, p: seq<byte>): (s: seq<byte>)
    ensures |s| == 8 + |v| + |p|
  {
    LeBytes(8, 4) + LeBytes(8 + |v|, 4) + v + p
  }

  lemma ResponseShape(v: seq<byte>, p: seq<byte>)
    ensures Container([Variable(v), Variable(p)]) == AssembleResponse(v, p)
  {
    var parts := [Variable(v), Variable(p)];
    assert HeadPos(parts, 1) == 4;
    assert HeadPos(parts, 2) == 8;
    assert TailPos(parts, 1) == |v|;
    assert Join(Heads(parts), 1) == LeBytes(8, 4);
    assert Join(Heads(parts), 2) == LeBytes(8, 4) + LeBytes(8 + |v|, 4);
    assert Join(Tails(parts), 1) == v;
    assert Join(Tails(parts), 2) == v + p;
    AppendAssoc(LeBytes(8, 4) + LeBytes(8 + |v|, 4), v, p);
  }

  function DecodeResponse(buf: seq<byte>): Result<GetPayloadResponse, SszError> {
    if |buf| < 8 then Err(ErrSize)
    else
      var o0, o1 := ReadOffset(buf[0..4]), ReadOffset(buf[4..8]);
      if o0 > |buf| then Err(ErrOffset)
      else if o0 < 8 then Err(ErrInvalidVariableOffset)
      else if o1 > |buf| || o0 > o1 then Err(ErrOffset)
      else
        match ExecutionPayloads.Decode(buf[o1..])
        case Err(e) => Err(e)
        case Ok(p) => Ok(GetPayloadResponse(buf[o0..o1], p))
  }

  lemma ResponseAccepted(buf: seq<byte>, r: GetPayloadResponse)
    ensures DecodeResponse(buf) == Ok(r) <==>
            && |buf| >= 8 && 8 <= LeNat(buf[0..4]) <= LeNat(buf[4..8]) <= |buf|
            && buf[LeNat(buf[0..4])..LeNat(buf[4..8])] == r.version
            && ExecutionPayloads.Decode(buf[LeNat(buf[4..8])..]) == Ok(r.data)
    ensures |buf| < 8 ==> DecodeResponse(buf) == Err(ErrSize)
    ensures |buf| >= 8 && LeNat(buf[0..4]) < 8 ==> DecodeResponse(buf) == Err(ErrInvalidVariableOffset)
    ensures |buf| >= 8 && 8 <= LeNat(buf[0..4]) && !(LeNat(buf[0..4]) <= LeNat(buf[4..8]) <= |buf|) ==>
              DecodeResponse(buf) == Err(ErrOffset)
  {
    if |buf| >= 8 {
      assert buf[0..4][..4] == buf[0..4] && buf[4..8][..4] == buf[4..8];
    }
  }

  lemma DecodeAssembledResponse(v: seq<byte>, p: seq<byte>)
    requires 8 + |v| < TWO_32
    ensures ExecutionPayloads.Decode(p).Ok? ==>
              DecodeResponse(AssembleResponse(v, p)) == Ok(GetPayloadResponse(v, ExecutionPayloads.Decode(p).value))
    ensures ExecutionPayloads.Decode(p).Err? ==> DecodeResponse(AssembleResponse(v, p)).Err?
  {
    var s := AssembleResponse(v, p);
    assert s[0..4] == LeBytes(8, 4) && s[4..8] == LeBytes(8 + |v|, 4);
    assert s[8..8 + |v|] == v && s[8 + |v|..] == p;
    OffsetRoundTrip(8);
    OffsetRoundTrip(8 + |v|);
  }

  /** A data offset that wraps cuts the version short. */
  lemma LongVersionCut(v: seq<byte>, p: seq<byte>)
    requires 8 + |v| >= TWO_32 && DecodeResponse(AssembleResponse(v, p)).Ok?
    ensures |DecodeResponse(AssembleResponse(v, p)).value.version| < |v|
  {
    OffsetBytes(AssembleResponse(v, p)[4..8]);
  }

  /** The data offset and the withdrawals offset of the payload fit their four bytes. */
  predicate OffsetsFit(r: GetPayloadResponse) {
    8 + |r.version| < TWO_32 && WithdrawalsOffset(r.data) < TWO_32
  }

  /** A response survives, up to nil withdrawals, exactly when both offsets fit. */
  lemma ResponseRoundTrip(r: GetPayloadResponse)
    requires ExecutionPayloads.WithinLimits(r.data)
    ensures DecodeResponse(EncodeResponse(r)) == Ok(r.(data := Normal(r.data))) <==> OffsetsFit(r)
    ensures 8 + |r.version| < TWO_32 && !OffsetsFit(r) ==> DecodeResponse(EncodeResponse(r)).Err?
  {
    var p := ExecutionPayloads.Encode(r.data);
    ResponseShape(r.version, p);
    if 8 + |r.version| < TWO_32 {
      ExecutionPayloads.RoundTrip(r.data);
      DecodeAssembledResponse(r.version, p);
    } else if DecodeResponse(AssembleResponse(r.version, p)).Ok? {
      LongVersionCut(r.version, p);
    }
  }

  lemma GlueResponse(buf: seq<byte>, o: nat)
    requires 8 <= o <= |buf|
    ensures buf[0..4] + buf[4..8] + buf[8..o] + buf[o..] == buf
  {
  }

  lemma AssembleCanonical(buf: seq<byte>, o0: nat, o1: nat, p: seq<byte>)
    requires 8 <= o0 <= o1 <= |buf| && o0 == ReadOffset(buf[0..4]) && o1 == ReadOffset(buf[4..8])
    requires p != buf[o1..] ==> |p| < |buf| - o1
    ensures var again := AssembleResponse(buf[o0..o1], p);
            && |again| <= |buf|
            && (again == buf <==> o0 == 8 && p == buf[o1..])
            && (again != buf ==> |again| < |buf|)
  {
    OffsetBytes(buf[0..4]);
    OffsetBytes(buf[4..8]);
    if o0 == 8 && p == buf[o1..] {
      GlueResponse(buf, o1);
    }
  }

  /** What an accepted response decodes to can be encoded again. */
  lemma DecodedFits(buf: seq<byte>)
    requires DecodeResponse(buf).Ok?
    ensures var r := DecodeResponse(buf).value;
            ExecutionPayloads.WithinLimits(r.data) && OffsetsFit(r) && Normal(r.data) == r.data
  {
    var o1 := ReadOffset(buf[4..8]);
    OffsetBytes(buf[4..8]);
    ExecutionPayloads.NormalForm(buf[o1..]);
    ExecutionPayloads.Reencoded(buf[o1..]);
    ExecutionPayloads.RoundTrip(DecodeResponse(buf).value.data);
  }

  lemma ResponseNormalForm(buf: seq<byte>)
    requires DecodeResponse(buf).Ok?
    ensures var r := DecodeResponse(buf).value;
            && |EncodeResponse(r)| <= |buf|
            && (EncodeResponse(r) == buf <==> ReadOffset(buf[0..4]) == 8 && Canonical(buf[ReadOffset(buf[4..8])..]))
            && (EncodeResponse(r) != buf ==> |EncodeResponse(r)| < |buf|)
  {
    var r, o0, o1 := DecodeResponse(buf).value, ReadOffset(buf[0..4]), ReadOffset(buf[4..8]);
    var p := ExecutionPayloads.Encode(r.data);
    ExecutionPayloads.NormalForm(buf[o1..]);
    ResponseShape(r.version, p);
    AssembleCanonical(buf, o0, o1, p);
  }

  // ---------- BlockAndTraceExtended ----------

  datatype BlockAndTrace = BlockAndTrace(payload: GetPayloadResponse, trace: SignedBidTrace, headerHash: Bytes32)

  function Encode(b: BlockAndTrace): seq<byte> {
    Container([Variable(EncodeResponse(b.payload)), Fixed(EncodeSigned(b.trace)), Fixed(b.headerHash)])
  }

  /** All the way down, the encoding is the serialization of nested containers. */
  lemma EncodeIsNested(b: BlockAndTrace)
    ensures var trace := [Fixed(b.trace.signature), Fixed(Container(TraceParts(b.trace.message)))];
            var payload := [Variable(b.payload.version), Variable(ExecutionPayloads.Encode(b.payload.data))];
            Encode(b) == Container([Variable(Container(payload)), Fixed(Container(trace)), Fixed(b.headerHash)])
  {
    SignedIsContainer(b.trace);
  }

  function Decode(buf: seq<byte>): Result<BlockAndTrace, SszError> {
    if |buf| < 368 then Err(ErrSize)
    else
      var o := ReadOffset(buf[0..4]);
      if o > |buf| then Err(ErrOffset)
      else if o < 368 then Err(ErrInvalidVariableOffset)
      else
        match DecodeResponse(buf[o..])
        case Err(e) => Err(e)
        case Ok(r) => Ok(BlockAndTrace(r, SignedBidTrace(buf[4..100], DecodeTrace(buf[100..336])), buf[336..368]))
  }

  /** Where everything is in a streamed block. */
  lemma EncodedBytes(b: BlockAndTrace)
    ensures var s := Encode(b);
            && |s| >= 368 && s[0..4] == LeBytes(368, 4)
            && s[4..100] == b.trace.signature && HoldsTrace(s[100..336], b.trace.message)
            && s[336..368] == b.headerHash && s[368..] == EncodeResponse(b.payload)
  {
    FrameIsContainer(EncodeResponse(b.payload), EncodeSigned(b.trace), b.headerHash);
    FrameBytes(EncodeResponse(b.payload), EncodeSigned(b.trace), b.headerHash, Encode(b));
    SignedSlices(Encode(b), b.trace.signature, EncodeTrace(b.trace.message));
    TraceBytes(b.trace.message);
  }

  lemma SignedSlices(s: seq<byte>, signature: seq<byte>, trace: seq<byte>)
    requires |s| >= 336 && |signature| == 96 && |trace| == 236 && s[4..336] == signature + trace
    ensures s[4..100] == signature && s[100..336] == trace
  {
    assert s[4..100] == s[4..336][..96];
    assert s[100..336] == s[4..336][96..332];
  }

  /** A buffer decodes to a block exactly when it holds trace and root, and its last part decodes to the response. */
  lemma Accepted(buf: seq<byte>, b: BlockAndTrace)
    ensures Decode(buf) == Ok(b) <==>
            && |buf| >= 368 && buf[4..100] == b.trace.signature && HoldsTrace(buf[100..336], b.trace.message)
            && buf[336..368] == b.headerHash
            && 368 <= LeNat(buf[0..4]) <= |buf| && DecodeResponse(buf[LeNat(buf[0..4])..]) == Ok(b.payload)
    ensures |buf| < 368 ==> Decode(buf) == Err(ErrSize)
    ensures |buf| >= 368 && LeNat(buf[0..4]) < 368 ==> Decode(buf) == Err(ErrInvalidVariableOffset)
    ensures |buf| >= 368 && LeNat(buf[0..4]) > |buf| ==> Decode(buf) == Err(ErrOffset)
  {
    if |buf| >= 368 {
      assert buf[0..4][..4] == buf[0..4];
      TraceHeld(buf[100..336], b.trace.message);
    }
  }

  /** What the stream delivers in place of b: the same block, its withdrawals never nil. */
  function Streamed(b: BlockAndTrace): BlockAndTrace {
    b.(payload := b.payload.(data := Normal(b.payload.data)))
  }

  lemma DecodeFrame(v: seq<byte>, signed: SignedBidTrace, hash: Bytes32)
    ensures DecodeResponse(v).Ok? ==>
              Decode(Frame(v, EncodeSigned(signed), hash)) == Ok(BlockAndTrace(DecodeResponse(v).value, signed, hash))
    ensures DecodeResponse(v).Err? ==> Decode(Frame(v, EncodeSigned(signed), hash)).Err?
  {
    var s := Frame(v, EncodeSigned(signed), hash);
    FrameCut(v, EncodeSigned(signed), hash, s);
    SignedRoundTrip(signed);
    assert s[4..100] == s[4..336][..96];
    assert s[100..336] == s[4..336][96..332];
  }

  /**
    * A stored block survives encoding and decoding, up to nil withdrawals, exactly when its data
    * offset and the withdrawals offset of its payload fit four bytes.
    */
  lemma RoundTrip(b: BlockAndTrace)
    requires ExecutionPayloads.WithinLimits(b.payload.data)
    ensures Decode(Encode(b)) == Ok(Streamed(b)) <==> OffsetsFit(b.payload)
    ensures 8 + |b.payload.version| < TWO_32 && !OffsetsFit(b.payload) ==> Decode(Encode(b)).Err?
  {
    var v := EncodeResponse(b.payload);
    FrameIsContainer(v, EncodeSigned(b.trace), b.headerHash);
    ResponseRoundTrip(b.payload);
    DecodeFrame(v, b.trace, b.headerHash);
  }

  lemma SignedCanonical(buf: seq<byte>)
    requires |buf| == 332
    ensures EncodeSigned(SignedBidTrace(buf[..96], DecodeTrace(buf[96..332]))) == buf
  {
    TraceCanonical(buf[96..332]);
  }

  /**
    * Every accepted block buffer re-encodes to one that is no longer and decodes to the same block; it
    * is the same buffer exactly when its offsets are 368 and 8 and its payload is canonical.
    */
  lemma NormalForm(buf: seq<byte>)
    requires Decode(buf).Ok?
    ensures |Encode(Decode(buf).value)| <= |buf|
    ensures Decode(Encode(Decode(buf).value)) == Decode(buf)
    ensures Encode(Decode(buf).value) == buf <==>
            ReadOffset(buf[0..4]) == 368 &&
            var inner := buf[368..];
            ReadOffset(inner[0..4]) == 8 && Canonical(inner[ReadOffset(inner[4..8])..])
  {
    var b, o := Decode(buf).value, ReadOffset(buf[0..4]);
    DecodedFits(buf[o..]);
    ResponseNormalForm(buf[o..]);
    Reframed(buf);
    FrameCanonical(buf, 332, 32, o, EncodeResponse(b.payload));
    Redecoded(b);
  }

  /** Re-encoding keeps the trace's and the header root's bytes. */
  lemma Reframed(buf: seq<byte>)
    requires Decode(buf).Ok?
    ensures Encode(Decode(buf).value) == Frame(EncodeResponse(Decode(buf).value.payload), buf[4..336], buf[336..368])
  {
    var b := Decode(buf).value;
    SignedCanonical(buf[4..336]);
    assert buf[4..336][..96] == buf[4..100] && buf[4..336][96..332] == buf[100..336];
    FrameIsContainer(EncodeResponse(b.payload), EncodeSigned(b.trace), b.headerHash);
  }

  lemma Redecoded(b: BlockAndTrace)
    requires ExecutionPayloads.WithinLimits(b.payload.data) && OffsetsFit(b.payload)
    requires Normal(b.payload.data) == b.payload.data
    ensures Decode(Encode(b)) == Ok(b)
  {
    RoundTrip(b);
  }

  // ---------- The methods ----------

  method MarshalResponseTo(r: GetPayloadResponse, buf: seq<byte>) returns (dst: seq<byte>, err: Option<SszError>)
    ensures err == LimitError(r.data)
    ensures err.None? ==> dst == buf + EncodeResponse(r)
  {
    var versionOffset := 8;
    dst := buf + LeBytes(versionOffset, 4);
    var dataOffset := versionOffset + |r.version|;
    dst := dst + LeBytes(dataOffset, 4);
    dst := dst + r.version;
    dst, err := ExecutionPayloads.MarshalSSZTo(r.data, dst);
    ghost var p := ExecutionPayloads.Encode(r.data);
    ResponseShape(r.version, p);
    AppendFour(buf, LeBytes(8, 4), LeBytes(dataOffset, 4), r.version, p);
  }

  method UnmarshalResponse(recv: GetPayloadResponse, buf: seq<byte>)
    returns (r: GetPayloadResponse, err: Option<SszError>)
    ensures DecodeResponse(buf).Err? ==> err == Some(DecodeResponse(buf).error)
    ensures DecodeResponse(buf).Ok? ==> err.None? && r == ResponseInto(recv, DecodeResponse(buf).value)
  {
    r := recv;
    if |buf| < 8 {
      return r, Some(ErrSize);
    }
    var versionOffset := ReadOffset(buf[0..4]);
    if versionOffset > |buf| {
      return r, Some(ErrOffset);
    }
    if versionOffset < 8 {
      return r, Some(ErrInvalidVariableOffset);
    }
    var dataOffset := ReadOffset(buf[4..8]);
    if dataOffset > |buf| || versionOffset > dataOffset {
      return r, Some(ErrOffset);
    }
    r := r.(version := buf[versionOffset..dataOffset]);
    var data, dErr := ExecutionPayloads.UnmarshalSSZ(r.data, buf[dataOffset..]);
    r := r.(data := data);
    return r, dErr;
  }

  function ResponseInto(recv: GetPayloadResponse, decoded: GetPayloadResponse): GetPayloadResponse {
    decoded.(data := decoded.data.(extraData := recv.data.extraData + decoded.data.extraData))
  }

  method MarshalSSZTo(b: BlockAndTrace, buf: seq<byte>) returns (dst: seq<byte>, err: Option<SszError>)
    ensures err == LimitError(b.payload.data)
    ensures err.None? ==> dst == buf + Encode(b)
  {
    var payloadOffset := 4 + 332 + 32;
    dst := buf + LeBytes(payloadOffset, 4);
    ghost var start := dst;
    dst := dst + b.trace.signature;
    dst := MarshalTraceTo(b.trace.message, dst);
    AppendAssoc(start, b.trace.signature, EncodeTrace(b.trace.message));
    dst := dst + b.headerHash;
    dst, err := MarshalResponseTo(b.payload, dst);
    FrameAppends(buf, EncodeResponse(b.payload), EncodeSigned(b.trace), b.headerHash, 368);
  }

  /** Decoding into a fresh value; a used one would have its payload's extra data appended to. */
  method UnmarshalSSZ(recv: BlockAndTrace, buf: seq<byte>) returns (b: BlockAndTrace, err: Option<SszError>)
    ensures Decode(buf).Err? ==> err == Some(Decode(buf).error)
    ensures Decode(buf).Ok? ==>
              var decoded := Decode(buf).value;
              err.None? && b == decoded.(payload := ResponseInto(recv.payload, decoded.payload))
  {
    b := recv;
    if |buf| < 368 {
      return b, Some(ErrSize);
    }
    var payloadOffset := ReadOffset(buf[0..4]);
    if payloadOffset > |buf| {
      return b, Some(ErrOffset);
    }
    if payloadOffset < 368 {
      return b, Some(ErrInvalidVariableOffset);
    }
    b := b.(trace := SignedBidTrace(buf[4..100], DecodeTrace(buf[100..336])));
    b := b.(headerHash := buf[336..368]);
    var r, rErr := UnmarshalResponse(b.payload, buf[payloadOffset..]);
    b := b.(payload := r);
    return b, rErr;
  }

  method SizeOfResponse(r: GetPayloadResponse) returns (size: nat)
    ensures size == |EncodeResponse(r)|
  {
    ResponseShape(r.version, ExecutionPayloads.Encode(r.data));
    size := 4 + |r.version|;
    var dataSize := ExecutionPayloads.SizeSSZ(r.data);
    size := size + 4 + dataSize;
  }

  method SizeSSZ(b: BlockAndTrace) returns (size: nat)
    ensures size == |Encode(b)|
  {
    FrameIsContainer(EncodeResponse(b.payload), EncodeSigned(b.trace), b.headerHash);
    size := 368;
    var payloadSize := SizeOfResponse(b.payload);
    size := size + payloadSize;
  }
}
