/** Containers of one variable part followed by two fixed ones, the shape the relay streams. */
module Frames {
  import opened Bytes
  import opened Pieces
  import opened Ssz

  function Frame(v: seq<byte>, a: seq<byte>, b: seq<byte>): (s: seq<byte>)
    ensures |s| == 4 + |a| + |b| + |v|
  {
    LeBytes(4 + |a| + |b|, 4) + a + b + v
  }

  lemma FrameIsContainer(v: seq<byte>, a: seq<byte>, b: seq<byte>)
    ensures Container([Variable(v), Fixed(a), Fixed(b)]) == Frame(v, a, b)
  {
    var parts := [Variable(v), Fixed(a), Fixed(b)];
    assert HeadPos(parts, 1) == 4;
    assert HeadPos(parts, 2) == 4 + |a|;
    assert HeadPos(parts, 3) == 4 + |a| + |b|;
    assert TailPos(parts, 0) == 0;
    var heads, tails := Heads(parts), Tails(parts);
    assert Join(heads, 1) == LeBytes(4 + |a| + |b|, 4);
    assert Join(heads, 2) == LeBytes(4 + |a| + |b|, 4) + a;
    assert Join(tails, 1) == v;
    JoinSkip(tails, 1, 3);
  }

  /** Appending offset, fixed parts and variable part, one after the other. */
  lemma FrameAppends(buf: seq<byte>, v: seq<byte>, a: seq<byte>, b: seq<byte>, offset: nat)
    requires offset == 4 + |a| + |b|
    ensures buf + LeBytes(offset, 4) + a + b + v == buf + Container([Variable(v), Fixed(a), Fixed(b)])
  {
    FrameIsContainer(v, a, b);
    AppendFour(buf, LeBytes(offset, 4), a, b, v);
  }

  lemma FrameCut(v: seq<byte>, a: seq<byte>, b: seq<byte>, s: seq<byte>)
    requires s == Frame(v, a, b)
    requires 4 + |a| + |b| < TWO_32
    ensures ReadOffset(s[0..4]) == 4 + |a| + |b|
    ensures s[4..4 + |a|] == a && s[4 + |a|..4 + |a| + |b|] == b && s[4 + |a| + |b|..] == v
  {
    assert s[0..4] == LeBytes(4 + |a| + |b|, 4);
    OffsetRoundTrip(4 + |a| + |b|);
  }

  /** Where everything is in such a container. */
  lemma FrameBytes(v: seq<byte>, a: seq<byte>, b: seq<byte>, s: seq<byte>)
    requires s == Frame(v, a, b)
    ensures |s| == 4 + |a| + |b| + |v|
    ensures s[0..4] == LeBytes(4 + |a| + |b|, 4)
    ensures s[4..4 + |a|] == a && s[4 + |a|..4 + |a| + |b|] == b && s[4 + |a| + |b|..] == v
  {
    FourSlices(LeBytes(4 + |a| + |b|, 4), a, b, v, s);
  }

  lemma FourSlices(o: seq<byte>, a: seq<byte>, b: seq<byte>, v: seq<byte>, s: seq<byte>)
    requires |o| == 4 && s == o + a + b + v
    ensures s[0..4] == o
    ensures s[4..4 + |a|] == a && s[4 + |a|..4 + |a| + |b|] == b && s[4 + |a| + |b|..] == v
  {
  }

  /**
    * A frame around an inner part that is never longer than what it was decoded from is
    * the original buffer exactly when the offset follows the fixed parts and the inner part is unchanged.
    */
  lemma FrameCanonical(s: seq<byte>, n: nat, m: nat, o: nat, inner: seq<byte>)
    requires 4 <= 4 + n + m <= o <= |s| && o == ReadOffset(s[0..4])
    requires inner != s[o..] ==> |inner| < |s| - o
    ensures var again := Frame(inner, s[4..4 + n], s[4 + n..4 + n + m]);
            && |again| <= |s|
            && (again == s <==> o == 4 + n + m && inner == s[o..])
            && (again != s ==> |again| < |s|)
  {
    OffsetBytes(s[0..4]);
    if o == 4 + n + m && inner == s[o..] {
      assert Frame(inner, s[4..4 + n], s[4 + n..4 + n + m])
          == s[0..4] + s[4..4 + n] + s[4 + n..4 + n + m] + s[4 + n + m..];
    }
  }
}

/** Execution payload headers and builder bids, as they are streamed between relays. */
module BuilderBids {
  import opened Common
  import opened Bytes
  import opened Pieces
  import opened Ssz
  import opened ExecutionFields
  import opened Frames

  datatype Header = Header(fields: Fields, extraData: seq<byte>, transactionsRoot: Bytes32, withdrawalsRoot: Bytes32)

  // ---------- ExecutionPayloadHeader ----------

  function HeaderLastParts(h: Header): (parts: seq<Part>)
    ensures |parts| == 2
  {
    [Fixed(h.transactionsRoot), Fixed(h.withdrawalsRoot)]
  }

  function EncodeHeader(h: Header): seq<byte> {
    Container(FieldParts(h.fields, h.extraData) + HeaderLastParts(h))
  }

  function AssembleHeader(h: Header): (s: seq<byte>)
    ensures |s| == 568 + |h.extraData|
  {
    EncodeFields(h.fields, 568) + (h.transactionsRoot + h.withdrawalsRoot + h.extraData)
  }

  lemma HeaderShape(h: Header)
    ensures EncodeHeader(h) == AssembleHeader(h)
  {
    var more := HeaderLastParts(h);
    var parts := FieldParts(h.fields, h.extraData) + more;
    assert HeadTotal(more) == 568;
    assert parts[13] == more[0] && parts[14] == more[1];
    assert Head(parts, 13) == h.transactionsRoot && Head(parts, 14) == h.withdrawalsRoot;
    Shape(h.fields, h.extraData, more);
    Regroup(EncodeFields(h.fields, 568), h.transactionsRoot, h.withdrawalsRoot, h.extraData);
  }

  lemma Regroup(a: seq<byte>, b: seq<byte>, c: seq<byte>, d: seq<byte>)
    ensures (a + b + c) + (d + [] + []) == a + (b + c + d)
    ensures a + b + c + d == a + (b + c + d)
  {
  }

  function DecodeHeader(buf: seq<byte>): Result<Header, SszError> {
    if |buf| < 568 then Err(ErrSize)
    else
      var o10 := ExtraDataOffset(buf);
      if o10 > |buf| then Err(ErrOffset)
      else if o10 < 568 then Err(ErrInvalidVariableOffset)
      else if |buf| - o10 > MAX_EXTRA_DATA then Err(ErrBytesLength)
      else Ok(Header(DecodeFields(buf), buf[o10..], buf[504..536], buf[536..568]))
  }

  /** Where everything is in an encoded header. */
  lemma HeaderBytes(h: Header)
    ensures var s := EncodeHeader(h);
            && HoldsFields(s, h.fields) && |s| == 568 + |h.extraData| && s[436..440] == LeBytes(568, 4)
            && s[504..536] == h.transactionsRoot && s[536..568] == h.withdrawalsRoot && s[568..] == h.extraData
  {
    HeaderShape(h);
    FieldBytes(h.fields, 568, h.transactionsRoot + h.withdrawalsRoot + h.extraData);
    HeaderTail(EncodeFields(h.fields, 568), h.transactionsRoot, h.withdrawalsRoot, h.extraData);
  }

  lemma HeaderTail(head: seq<byte>, a: Bytes32, b: Bytes32, x: seq<byte>)
    requires |head| == 504
    ensures var s := head + (a + b + x); s[504..536] == a && s[536..568] == b && s[568..] == x
  {
  }

  /** A buffer decodes to a header exactly when it holds its fields and roots, and its last part is the extra data. */
  lemma HeaderAccepted(buf: seq<byte>, h: Header)
    ensures DecodeHeader(buf) == Ok(h) <==>
            && |buf| >= 568 && HoldsFields(buf, h.fields)
            && buf[504..536] == h.transactionsRoot && buf[536..568] == h.withdrawalsRoot
            && 568 <= LeNat(buf[436..440]) <= |buf|
            && buf[LeNat(buf[436..440])..] == h.extraData && |h.extraData| <= 32
    ensures |buf| < 568 ==> DecodeHeader(buf) == Err(ErrSize)
    ensures |buf| >= 568 && LeNat(buf[436..440]) < 568 ==> DecodeHeader(buf) == Err(ErrInvalidVariableOffset)
    ensures |buf| >= 568 && LeNat(buf[436..440]) > |buf| ==> DecodeHeader(buf) == Err(ErrOffset)
  {
    if |buf| >= 568 {
      FieldsHeld(buf, h.fields);
      assert buf[436..440][..4] == buf[436..440];
    }
  }

  /** Decoding an encoded header gives it back, whenever the encoder accepts it. */
  lemma HeaderRoundTrip(h: Header)
    requires |h.extraData| <= 32
    ensures DecodeHeader(EncodeHeader(h)) == Ok(h)
  {
    HeaderShape(h);
    var s := AssembleHeader(h);
    FieldsRoundTrip(h.fields, 568, h.transactionsRoot + h.withdrawalsRoot + h.extraData);
    OffsetRoundTrip(568);
    assert s[504..536] == h.transactionsRoot && s[536..568] == h.withdrawalsRoot && s[568..] == h.extraData;
  }

  /** An accepted header buffer is the canonical encoding exactly when its offset is 568. */
  lemma HeaderNormalForm(buf: seq<byte>)
    requires DecodeHeader(buf).Ok?
    ensures |DecodeHeader(buf).value.extraData| <= 32
    ensures |EncodeHeader(DecodeHeader(buf).value)| <= |buf|
    ensures EncodeHeader(DecodeHeader(buf).value) == buf <==> ExtraDataOffset(buf) == 568
    ensures EncodeHeader(DecodeHeader(buf).value) != buf ==> |EncodeHeader(DecodeHeader(buf).value)| < |buf|
  {
    var h := DecodeHeader(buf).value;
    HeaderShape(h);
    FieldsCanonical(buf);
    if ExtraDataOffset(buf) == 568 {
      assert buf == buf[..504] + (buf[504..536] + buf[536..568] + buf[568..]);
    }
  }

  method MarshalHeaderTo(h: Header, buf: seq<byte>) returns (dst: seq<byte>, err: Option<SszError>)
    ensures |h.extraData| > 32 ==> err == Some(ErrBytesLength)
    ensures |h.extraData| <= 32 ==> err.None? && dst == buf + EncodeHeader(h)
  {
    dst := MarshalFieldsTo(h.fields, 568, buf);
    dst := dst + h.transactionsRoot;
    dst := dst + h.withdrawalsRoot;
    if |h.extraData| > MAX_EXTRA_DATA {
      return dst, Some(ErrBytesLength);
    }
    dst := dst + h.extraData;
    HeaderShape(h);
    ghost var head := EncodeFields(h.fields, 568);
    Regroup(buf + head, h.transactionsRoot, h.withdrawalsRoot, h.extraData);
    AppendAssoc(buf, head, h.transactionsRoot + h.withdrawalsRoot + h.extraData);
    return dst, None;
  }

  method UnmarshalHeader(recv: Header, buf: seq<byte>) returns (h: Header, err: Option<SszError>)
    ensures DecodeHeader(buf).Err? ==> err == Some(DecodeHeader(buf).error)
    ensures DecodeHeader(buf).Ok? ==> err.None? && h == HeaderInto(recv, DecodeHeader(buf).value)
  {
    h := recv;
    if |buf| < 568 {
      return h, Some(ErrSize);
    }
    h := h.(fields := DecodeFields(buf));
    var o10 := ExtraDataOffset(buf);
    if o10 > |buf| {
      return h, Some(ErrOffset);
    }
    if o10 < 568 {
      return h, Some(ErrInvalidVariableOffset);
    }
    h := h.(transactionsRoot := buf[504..536]);
    h := h.(withdrawalsRoot := buf[536..568]);
    if |buf| - o10 > MAX_EXTRA_DATA {
      return h, Some(ErrBytesLength);
    }
    h := h.(extraData := h.extraData + buf[o10..]);
    return h, None;
  }

  /** Decoding into a used receiver appends to its extra data. */
  function HeaderInto(recv: Header, decoded: Header): Header {
    decoded.(extraData := recv.extraData + decoded.extraData)
  }

  method SizeOfHeader(h: Header) returns (size: nat)
    ensures size == |EncodeHeader(h)|
  {
    HeaderShape(h);
    size := 568;
    size := size + |h.extraData|;
  }

  // ---------- BuilderBid ----------

  /** `value` is the little-endian U256 that the auction compares. */
  datatype BuilderBid = BuilderBid(header: Header, value: Bytes32, pubkey: Bytes48)

  function EncodeBid(b: BuilderBid): seq<byte> {
    Container([Variable(EncodeHeader(b.header)), Fixed(Reverse(b.value)), Fixed(b.pubkey)])
  }

  function DecodeBid(buf: seq<byte>): Result<BuilderBid, SszError> {
    if |buf| < 84 then Err(ErrSize)
    else
      var o0 := ReadOffset(buf[0..4]);
      if o0 > |buf| then Err(ErrOffset)
      else if o0 < 84 then Err(ErrInvalidVariableOffset)
      else
        match DecodeHeader(buf[o0..])
        case Err(e) => Err(e)
        case Ok(h) => Ok(BuilderBid(h, Reverse(buf[4..36]), buf[36..84]))
  }

  lemma ReverseTwice(s: seq<byte>)
    ensures Reverse(Reverse(s)) == s
  {
  }

  lemma DecodeBidFrame(v: seq<byte>, a: Bytes32, b: Bytes48)
    requires DecodeHeader(v).Ok?
    ensures DecodeBid(Frame(v, a, b)) == Ok(BuilderBid(DecodeHeader(v).value, Reverse(a), b))
  {
    FrameCut(v, a, b, Frame(v, a, b));
  }

  /** Where everything is in an encoded bid; the value is written most significant byte first. */
  lemma BidBytes(b: BuilderBid)
    ensures var s := EncodeBid(b);
            && |s| == 84 + |EncodeHeader(b.header)| && s[0..4] == LeBytes(84, 4)
            && s[4..36] == Reverse(b.value) && s[36..84] == b.pubkey && s[84..] == EncodeHeader(b.header)
  {
    FrameIsContainer(EncodeHeader(b.header), Reverse(b.value), b.pubkey);
    FrameBytes(EncodeHeader(b.header), Reverse(b.value), b.pubkey, EncodeBid(b));
  }

  lemma BidAccepted(buf: seq<byte>, b: BuilderBid)
    ensures DecodeBid(buf) == Ok(b) <==>
            && |buf| >= 84 && buf[4..36] == Reverse(b.value) && buf[36..84] == b.pubkey
            && 84 <= LeNat(buf[0..4]) <= |buf| && DecodeHeader(buf[LeNat(buf[0..4])..]) == Ok(b.header)
    ensures |buf| < 84 ==> DecodeBid(buf) == Err(ErrSize)
    ensures |buf| >= 84 && LeNat(buf[0..4]) < 84 ==> DecodeBid(buf) == Err(ErrInvalidVariableOffset)
    ensures |buf| >= 84 && LeNat(buf[0..4]) > |buf| ==> DecodeBid(buf) == Err(ErrOffset)
  {
    if |buf| >= 84 {
      assert buf[0..4][..4] == buf[0..4];
      ReverseTwice(buf[4..36]);
      ReverseTwice(b.value);
    }
  }

  lemma BidRoundTrip(b: BuilderBid)
    requires |b.header.extraData| <= 32
    ensures DecodeBid(EncodeBid(b)) == Ok(b)
  {
    FrameIsContainer(EncodeHeader(b.header), Reverse(b.value), b.pubkey);
    HeaderRoundTrip(b.header);
    ReverseTwice(b.value);
    DecodeBidFrame(EncodeHeader(b.header), Reverse(b.value), b.pubkey);
  }

  lemma BidNormalForm(buf: seq<byte>)
    requires DecodeBid(buf).Ok?
    ensures |DecodeBid(buf).value.header.extraData| <= 32
    ensures |EncodeBid(DecodeBid(buf).value)| <= |buf|
    ensures EncodeBid(DecodeBid(buf).value) == buf <==>
            ReadOffset(buf[0..4]) == 84 && ExtraDataOffset(buf[84..]) == 568
    ensures EncodeBid(DecodeBid(buf).value) != buf ==> |EncodeBid(DecodeBid(buf).value)| < |buf|
  {
    var b, o0 := DecodeBid(buf).value, ReadOffset(buf[0..4]);
    HeaderNormalForm(buf[o0..]);
    ReverseTwice(buf[4..36]);
    FrameIsContainer(EncodeHeader(b.header), Reverse(b.value), b.pubkey);
    FrameCanonical(buf, 32, 48, o0, EncodeHeader(b.header));
  }

  method MarshalBidTo(b: BuilderBid, buf: seq<byte>) returns (dst: seq<byte>, err: Option<SszError>)
    ensures |b.header.extraData| > 32 ==> err == Some(ErrBytesLength)
    ensures |b.header.extraData| <= 32 ==> err.None? && dst == buf + EncodeBid(b)
  {
    dst := buf + LeBytes(84, 4);
    dst := AppendReversed(dst, b.value);
    dst := dst + b.pubkey;
    dst, err := MarshalHeaderTo(b.header, dst);
    FrameAppends(buf, EncodeHeader(b.header), Reverse(b.value), b.pubkey, 84);
  }

  method AppendReversed(buf: seq<byte>, value: Bytes32) returns (dst: seq<byte>)
    ensures dst == buf + Reverse(value)
  {
    dst := buf;
    for i := 0 to 32
      invariant dst == buf + Reverse(value)[..i]
    {
      dst := dst + [value[31 - i]];
    }
    assert Reverse(value)[..32] == Reverse(value);
  }

  method UnmarshalBid(recv: BuilderBid, buf: seq<byte>) returns (b: BuilderBid, err: Option<SszError>)
    ensures DecodeBid(buf).Err? ==> err == Some(DecodeBid(buf).error)
    ensures DecodeBid(buf).Ok? ==> err.None? && b == BidInto(recv, DecodeBid(buf).value)
  {
    b := recv;
    if |buf| < 84 {
      return b, Some(ErrSize);
    }
    var o0 := ReadOffset(buf[0..4]);
    if o0 > |buf| {
      return b, Some(ErrOffset);
    }
    if o0 < 84 {
      return b, Some(ErrInvalidVariableOffset);
    }
    var value: seq<byte> := [];
    for i := 0 to 32
      invariant value == Reverse(buf[4..36])[..i]
    {
      value := value + [buf[35 - i]];
    }
    b := b.(value := value);
    b := b.(pubkey := buf[36..84]);
    var h, hErr := UnmarshalHeader(b.header, buf[o0..]);
    b := b.(header := h);
    return b, hErr;
  }

  function BidInto(recv: BuilderBid, decoded: BuilderBid): BuilderBid {
    decoded.(header := HeaderInto(recv.header, decoded.header))
  }

  method SizeOfBid(b: BuilderBid) returns (size: nat)
    ensures size == |EncodeBid(b)|
  {
    FrameIsContainer(EncodeHeader(b.header), Reverse(b.value), b.pubkey);
    size := 84;
    var headerSize := SizeOfHeader(b.header);
    size := size + headerSize;
  }

  // ---------- BuilderBidExtended ----------

  datatype BuilderBidExtended = BuilderBidExtended(bid: BuilderBid, proposer: Bytes48, slot: uint64)

  function Encode(x: BuilderBidExtended): seq<byte> {
    Container([Variable(EncodeBid(x.bid)), Fixed(x.proposer), Fixed(LeBytes(x.slot, 8))])
  }

  function Decode(buf: seq<byte>): Result<BuilderBidExtended, SszError> {
    if |buf| < 60 then Err(ErrSize)
    else
      var o0 := ReadOffset(buf[0..4]);
      if o0 > |buf| then Err(ErrOffset)
      else if o0 < 60 then Err(ErrInvalidVariableOffset)
      else
        match DecodeBid(buf[o0..])
        case Err(e) => Err(e)
        case Ok(b) => Ok(BuilderBidExtended(b, buf[4..52], UnmarshallUint64(buf[52..60])))
  }

  lemma DecodeFrame(v: seq<byte>, a: Bytes48, slot: uint64)
    requires DecodeBid(v).Ok?
    ensures Decode(Frame(v, a, LeBytes(slot, 8))) == Ok(BuilderBidExtended(DecodeBid(v).value, a, slot))
  {
    FrameCut(v, a, LeBytes(slot, 8), Frame(v, a, LeBytes(slot, 8)));
    Uint64RoundTrip(slot);
  }

  /** Where everything is in a streamed bid. */
  lemma EncodedBytes(x: BuilderBidExtended)
    ensures var s := Encode(x);
            && |s| == 60 + |EncodeBid(x.bid)| && s[0..4] == LeBytes(60, 4)
            && s[4..52] == x.proposer && s[52..60] == LeBytes(x.slot, 8) && s[60..] == EncodeBid(x.bid)
  {
    FrameIsContainer(EncodeBid(x.bid), x.proposer, LeBytes(x.slot, 8));
    FrameBytes(EncodeBid(x.bid), x.proposer, LeBytes(x.slot, 8), Encode(x));
  }

  lemma Accepted(buf: seq<byte>, x: BuilderBidExtended)
    ensures Decode(buf) == Ok(x) <==>
            && |buf| >= 60 && buf[4..52] == x.proposer && buf[52..60] == LeBytes(x.slot, 8)
            && 60 <= LeNat(buf[0..4]) <= |buf| && DecodeBid(buf[LeNat(buf[0..4])..]) == Ok(x.bid)
    ensures |buf| < 60 ==> Decode(buf) == Err(ErrSize)
    ensures |buf| >= 60 && LeNat(buf[0..4]) < 60 ==> Decode(buf) == Err(ErrInvalidVariableOffset)
    ensures |buf| >= 60 && LeNat(buf[0..4]) > |buf| ==> Decode(buf) == Err(ErrOffset)
  {
    if |buf| >= 60 {
      assert buf[0..4][..4] == buf[0..4];
      Uint64Read(buf[52..60], x.slot);
    }
  }

  /** A bid survives encoding and decoding, value, header and all. */
  lemma RoundTrip(x: BuilderBidExtended)
    requires |x.bid.header.extraData| <= 32
    ensures Decode(Encode(x)) == Ok(x)
  {
    FrameIsContainer(EncodeBid(x.bid), x.proposer, LeBytes(x.slot, 8));
    BidRoundTrip(x.bid);
    DecodeFrame(EncodeBid(x.bid), x.proposer, x.slot);
  }

  /**
    * Every accepted bid buffer re-encodes to one that is no longer and decodes to the same bid;
    * it is the same buffer exactly when all three offsets are the ones the encoder writes.
    */
  lemma NormalForm(buf: seq<byte>)
    requires Decode(buf).Ok?
    ensures |Encode(Decode(buf).value)| <= |buf|
    ensures Decode(Encode(Decode(buf).value)) == Decode(buf)
    ensures Encode(Decode(buf).value) == buf <==>
            ReadOffset(buf[0..4]) == 60 &&
            var inner := buf[60..];
            ReadOffset(inner[0..4]) == 84 && ExtraDataOffset(inner[84..]) == 568
  {
    var x, o0 := Decode(buf).value, ReadOffset(buf[0..4]);
    BidNormalForm(buf[o0..]);
    FrameIsContainer(EncodeBid(x.bid), x.proposer, LeBytes(x.slot, 8));
    FrameCanonical(buf, 48, 8, o0, EncodeBid(x.bid));
    RoundTrip(x);
  }

  method MarshalSSZTo(x: BuilderBidExtended, buf: seq<byte>) returns (dst: seq<byte>, err: Option<SszError>)
    ensures |x.bid.header.extraData| > 32 ==> err == Some(ErrBytesLength)
    ensures |x.bid.header.extraData| <= 32 ==> err.None? && dst == buf + Encode(x)
  {
    dst := buf + LeBytes(60, 4);
    dst := dst + x.proposer;
    dst := dst + LeBytes(x.slot, 8);
    dst, err := MarshalBidTo(x.bid, dst);
    FrameAppends(buf, EncodeBid(x.bid), x.proposer, LeBytes(x.slot, 8), 60);
  }

  method UnmarshalSSZ(recv: BuilderBidExtended, buf: seq<byte>) returns (x: BuilderBidExtended, err: Option<SszError>)
    ensures Decode(buf).Err? ==> err == Some(Decode(buf).error)
    ensures Decode(buf).Ok? ==> err.None? &&
                                x == Decode(buf).value.(bid := BidInto(recv.bid, Decode(buf).value.bid))
  {
    x := recv;
    if |buf| < 60 {
      return x, Some(ErrSize);
    }
    var o0 := ReadOffset(buf[0..4]);
    if o0 > |buf| {
      return x, Some(ErrOffset);
    }
    if o0 < 60 {
      return x, Some(ErrInvalidVariableOffset);
    }
    x := x.(proposer := buf[4..52]);
    x := x.(slot := UnmarshallUint64(buf[52..60]));
    var b, bErr := UnmarshalBid(x.bid, buf[o0..]);
    x := x.(bid := b);
    return x, bErr;
  }

  method SizeSSZ(x: BuilderBidExtended) returns (size: nat)
    ensures size == |Encode(x)|
  {
    FrameIsContainer(EncodeBid(x.bid), x.proposer, LeBytes(x.slot, 8));
    size := 60;
    var bidSize := SizeOfBid(x.bid);
    size := size + bidSize;
  }
}
