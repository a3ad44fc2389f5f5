/** Streaming bids and blocks between relays: the format a fork is published in, and the handlers. */
module Streaming {
  import opened Common
  import opened Bytes
  import opened Forks
  import opened Ssz
  import BuilderBids
  import BlockTraces
  import ExecutionFields
  import ExecutionPayloads

  datatype Format = Unknown | AltairJson | BellatrixJson | CapellaJson | CapellaSSZ

  datatype Message = Message(encoding: Format, payload: seq<byte>)

  datatype StreamError = BadPayload | UnknownEncoding

  /** JSON, as the standard library encodes and decodes a type. */
  datatype Json<!T> = Json(encode: T -> seq<byte>, decode: seq<byte> -> Option<T>)

  function ToFormat(fork: ForkVersion): Format {
    match fork
    case ForkAltair => AltairJson
    case ForkBellatrix => BellatrixJson
    case ForkCapella => CapellaSSZ
    case ForkUnknown => Unknown
  }

  // ---------- Bids ----------

  function PublishBid(json: Json<BuilderBids.BuilderBidExtended>, fork: ForkVersion,
                      bid: BuilderBids.BuilderBidExtended)
    : Result<Message, StreamError>
  {
    if ToFormat(fork) == CapellaSSZ then
      if |bid.bid.header.extraData| > ExecutionFields.MAX_EXTRA_DATA then Err(BadPayload)
      else Ok(Message(CapellaSSZ, BuilderBids.Encode(bid)))
    else Ok(Message(ToFormat(fork), json.encode(bid)))
  }

  function HandleBid(json: Json<BuilderBids.BuilderBidExtended>, msg: Message)
    : Result<BuilderBids.BuilderBidExtended, StreamError>
  {
    match msg.encoding
    case CapellaSSZ =>
      (match BuilderBids.Decode(msg.payload)
       case Ok(b) => Ok(b)
       case Err(_) => Err(BadPayload))
    case BellatrixJson | CapellaJson =>
      (match json.decode(msg.payload)
       case Some(b) => Ok(b)
       case None => Err(BadPayload))
    case Unknown | AltairJson => Err(UnknownEncoding)
  }

  /**
    * The format chosen for Capella is one that the handler decodes to the bid that was published; the
    * formats that no handler decodes are those of forks before Bellatrix.
    */
  lemma BidArrives(json: Json<BuilderBids.BuilderBidExtended>, fork: ForkVersion, bid: BuilderBids.BuilderBidExtended)
    requires PublishBid(json, fork, bid).Ok?
    ensures var r := HandleBid(json, PublishBid(json, fork, bid).value);
            && (fork == ForkCapella ==> r == Ok(bid))
            && (r == Err(UnknownEncoding) <==> fork == ForkAltair || fork == ForkUnknown)
  {
    if fork == ForkCapella {
      BuilderBids.RoundTrip(bid);
    }
  }

  /** The handler: it decodes into a fresh value, so nothing of an earlier message is left in it. */
  method HandleBidMessage(json: Json<BuilderBids.BuilderBidExtended>, msg: Message, zero: ExecutionFields.Fields)
    returns (r: Result<BuilderBids.BuilderBidExtended, StreamError>)
    ensures r == HandleBid(json, msg)
  {
    match msg.encoding
    case CapellaSSZ =>
      var header := BuilderBids.Header(zero, [], Zeros(32), Zeros(32));
      var blank := BuilderBids.BuilderBidExtended(BuilderBids.BuilderBid(header, Zeros(32), Zeros(48)), Zeros(48), 0);
      var b, err := BuilderBids.UnmarshalSSZ(blank, msg.payload);
      if err.Some? {
        return Err(BadPayload);
      }
      FreshBid(blank, BuilderBids.Decode(msg.payload).value);
      return Ok(b);
    case BellatrixJson | CapellaJson =>
      var b := json.decode(msg.payload);
      return if b.Some? then Ok(b.value) else Err(BadPayload);
    case Unknown | AltairJson =>
      return Err(UnknownEncoding);
  }

  lemma FreshBid(blank: BuilderBids.BuilderBidExtended, decoded: BuilderBids.BuilderBidExtended)
    requires blank.bid.header.extraData == []
    ensures decoded.(bid := BuilderBids.BidInto(blank.bid, decoded.bid)) == decoded
  {
    assert [] + decoded.bid.header.extraData == decoded.bid.header.extraData;
  }

  // ---------- Blocks ----------

  function PublishBlock(json: Json<BlockTraces.BlockAndTrace>, fork: ForkVersion, b: BlockTraces.BlockAndTrace)
    : Result<Message, StreamError>
  {
    if ToFormat(fork) == CapellaSSZ then
      if ExecutionPayloads.LimitError(b.payload.data).Some? then Err(BadPayload)
      else Ok(Message(CapellaSSZ, BlockTraces.Encode(b)))
    else Ok(Message(ToFormat(fork), json.encode(b)))
  }

  function HandleBlock(json: Json<BlockTraces.BlockAndTrace>, msg: Message)
    : Result<BlockTraces.BlockAndTrace, StreamError>
  {
    match msg.encoding
    case CapellaSSZ =>
      (match BlockTraces.Decode(msg.payload)
       case Ok(b) => Ok(b)
       case Err(_) => Err(BadPayload))
    case BellatrixJson | CapellaJson =>
      (match json.decode(msg.payload)
       case Some(b) => Ok(b)
       case None => Err(BadPayload))
    case Unknown | AltairJson => Err(UnknownEncoding)
  }

  lemma PublishedBytes(json: Json<BlockTraces.BlockAndTrace>, b: BlockTraces.BlockAndTrace)
    requires ExecutionPayloads.WithinLimits(b.payload.data)
    ensures PublishBlock(json, ForkCapella, b) == Ok(Message(CapellaSSZ, BlockTraces.Encode(b)))
  {
    ExecutionPayloads.LimitsAgree(b.payload.data);
  }

  /** Whatever its fork, a bid in either of the JSON formats that are handled is decoded as JSON. */
  lemma JsonIsHandled(json: Json<BuilderBids.BuilderBidExtended>, blockJson: Json<BlockTraces.BlockAndTrace>,
                      format: Format, payload: seq<byte>)
    requires format == BellatrixJson || format == CapellaJson
    ensures var bid, block := json.decode(payload), blockJson.decode(payload);
            && HandleBid(json, Message(format, payload)) == (if bid.Some? then Ok(bid.value) else Err(BadPayload))
            && HandleBlock(blockJson, Message(format, payload))
               == (if block.Some? then Ok(block.value) else Err(BadPayload))
  {
  }

  /** The format that bids and blocks of each fork are published in. */
  lemma PublishedFormats(json: Json<BuilderBids.BuilderBidExtended>, blockJson: Json<BlockTraces.BlockAndTrace>,
                         bid: BuilderBids.BuilderBidExtended, block: BlockTraces.BlockAndTrace)
    ensures PublishBid(json, ForkBellatrix, bid) == Ok(Message(BellatrixJson, json.encode(bid)))
    ensures PublishBlock(blockJson, ForkBellatrix, block) == Ok(Message(BellatrixJson, blockJson.encode(block)))
    ensures PublishBid(json, ForkAltair, bid) == Ok(Message(AltairJson, json.encode(bid)))
    ensures PublishBid(json, ForkUnknown, bid) == Ok(Message(Unknown, json.encode(bid)))
    ensures |bid.bid.header.extraData| <= 32 ==>
              PublishBid(json, ForkCapella, bid) == Ok(Message(CapellaSSZ, BuilderBids.Encode(bid)))
    ensures |bid.bid.header.extraData| > 32 ==> PublishBid(json, ForkCapella, bid) == Err(BadPayload)
    ensures PublishBlock(blockJson, ForkCapella, block).Ok? <==> ExecutionPayloads.WithinLimits(block.payload.data)
  {
    ExecutionPayloads.LimitsAgree(block.payload.data);
  }

  lemma DecodedBytes(b: BlockTraces.BlockAndTrace, payload: seq<byte>)
    requires ExecutionPayloads.WithinLimits(b.payload.data) && BlockTraces.OffsetsFit(b.payload)
    requires payload == BlockTraces.Encode(b)
    ensures BlockTraces.Decode(payload) == Ok(BlockTraces.Streamed(b))
  {
    BlockTraces.RoundTrip(b);
  }

  /** A published Capella block arrives with trace, header root, version and payload, nil withdrawals now empty. */
  lemma BlockArrives(json: Json<BlockTraces.BlockAndTrace>, b: BlockTraces.BlockAndTrace)
    requires ExecutionPayloads.WithinLimits(b.payload.data) && BlockTraces.OffsetsFit(b.payload)
    ensures PublishBlock(json, ForkCapella, b).Ok?
    ensures HandleBlock(json, PublishBlock(json, ForkCapella, b).value) == Ok(BlockTraces.Streamed(b))
  {
    PublishedBytes(json, b);
    var payload := PublishBlock(json, ForkCapella, b).value.payload;
    DecodedBytes(b, payload);
    HandleBytes(json, payload, BlockTraces.Streamed(b));
  }

  lemma HandleBytes(json: Json<BlockTraces.BlockAndTrace>, payload: seq<byte>, b: BlockTraces.BlockAndTrace)
    requires BlockTraces.Decode(payload) == Ok(b)
    ensures HandleBlock(json, Message(CapellaSSZ, payload)) == Ok(b)
  {
  }

  /**
    * A published Capella block arrives exactly when its offsets fit. One whose payload does not fit is
    * not delivered at all; only a version of 4 GB could arrive cut short.
    */
  lemma BlockArrivesExactlyWhen(json: Json<BlockTraces.BlockAndTrace>, b: BlockTraces.BlockAndTrace)
    requires PublishBlock(json, ForkCapella, b).Ok?
    ensures var r := HandleBlock(json, PublishBlock(json, ForkCapella, b).value);
            && (r == Ok(BlockTraces.Streamed(b)) <==> BlockTraces.OffsetsFit(b.payload))
            && (8 + |b.payload.version| < TWO_32 && !BlockTraces.OffsetsFit(b.payload) ==> r.Err?)
  {
    ExecutionPayloads.LimitsAgree(b.payload.data);
    if BlockTraces.OffsetsFit(b.payload) {
      BlockArrives(json, b);
    } else {
      PublishedBytes(json, b);
      Undelivered(json, b, PublishBlock(json, ForkCapella, b).value.payload);
    }
  }

  lemma Undelivered(json: Json<BlockTraces.BlockAndTrace>, b: BlockTraces.BlockAndTrace, payload: seq<byte>)
    requires ExecutionPayloads.WithinLimits(b.payload.data)
    requires !BlockTraces.OffsetsFit(b.payload) && payload == BlockTraces.Encode(b)
    ensures HandleBlock(json, Message(CapellaSSZ, payload)) != Ok(BlockTraces.Streamed(b))
    ensures 8 + |b.payload.version| < TWO_32 ==> HandleBlock(json, Message(CapellaSSZ, payload)).Err?
  {
    BlockTraces.RoundTrip(b);
  }
}
