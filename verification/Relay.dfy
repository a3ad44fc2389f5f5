/** The relay's decisions: admitting a submission, building what is stored and bid, revealing a payload. */
module RelayRules {
  import opened Common
  import opened Bytes
  import opened Transactions
  import Withdrawals
  import opened ExecutionFields
  import opened ExecutionPayloads
  import opened BuilderBids
  import opened BlockTraces
  import opened SlotWindow

  /** Tree hashing, which is third-party code: None where a list is over its limit. */
  datatype Hasher = Hasher(
    txRoot: seq<Transaction> -> Option<Bytes32>,
    withdrawalsRoot: seq<Withdrawals.Withdrawal> -> Option<Bytes32>,
    headerRoot: Header -> Option<Bytes32>)

  /** A block submission: the builder's bid trace, its execution payload and its signature. */
  datatype Submission = Submission(message: BidTrace, payload: ExecutionPayload, signature: Bytes96)

  datatype PayloadKey = PayloadKey(blockHash: Bytes32, proposer: Bytes48, slot: uint64)

  /** A proposer's signed blinded block; the header is None where the body or the header is nil. */
  datatype SignedBlock = SignedBlock(slot: uint64, proposerIndex: uint64, header: Option<Header>)

  // ---------- Headers, stored entries, bids ----------

  /** PayloadToPayloadHeader; nil withdrawals give the zero root, an empty list its own root. */
  function PayloadToHeader(h: Hasher, p: ExecutionPayload): Option<Header> {
    match h.txRoot(p.transactions)
    case None => None
    case Some(txRoot) =>
      if p.withdrawals.None? then Some(Header(p.fields, p.extraData, txRoot, Zeros(32)))
      else
        match h.withdrawalsRoot(p.withdrawals.value)
        case None => None
        case Some(wRoot) => Some(Header(p.fields, p.extraData, txRoot, wRoot))
  }

  /** A payload's header: its fields and extra data, and the roots of its lists; zeros for nil withdrawals. */
  ghost predicate IsHeaderOf(h: Hasher, p: ExecutionPayload, header: Header) {
    && header.fields == p.fields && header.extraData == p.extraData
    && h.txRoot(p.transactions) == Some(header.transactionsRoot)
    && (p.withdrawals.None? ==> forall i :: 0 <= i < 32 ==> header.withdrawalsRoot[i] == 0)
    && (p.withdrawals.Some? ==> h.withdrawalsRoot(p.withdrawals.value) == Some(header.withdrawalsRoot))
  }

  /** There is a header exactly when both lists can be hashed, and it is the one that goes with the payload. */
  lemma HeaderExactlyWhen(h: Hasher, p: ExecutionPayload, header: Header)
    ensures PayloadToHeader(h, p) == Some(header) <==> IsHeaderOf(h, p, header)
    ensures PayloadToHeader(h, p).None? <==>
            h.txRoot(p.transactions).None? || (p.withdrawals.Some? && h.withdrawalsRoot(p.withdrawals.value).None?)
  {
    if p.withdrawals.None? && IsHeaderOf(h, p, header) {
      assert header.withdrawalsRoot == Zeros(32);
    }
  }

  /** The header of this payload has this root. */
  ghost predicate HasRoot(h: Hasher, p: ExecutionPayload, root: Bytes32) {
    exists header :: IsHeaderOf(h, p, header) && h.headerRoot(header) == Some(root)
  }

  lemma RootExactlyWhen(h: Hasher, p: ExecutionPayload, root: Bytes32)
    ensures RootOf(h, p) == Some(root) <==> HasRoot(h, p, root)
  {
    if RootOf(h, p) == Some(root) {
      HeaderExactlyWhen(h, p, PayloadToHeader(h, p).value);
    }
    if HasRoot(h, p, root) {
      var header :| IsHeaderOf(h, p, header) && h.headerRoot(header) == Some(root);
      HeaderExactlyWhen(h, p, header);
    }
  }

  /** The root of the header that a payload has. */
  function RootOf(h: Hasher, p: ExecutionPayload): Option<Bytes32> {
    match PayloadToHeader(h, p)
    case None => None
    case Some(header) => h.headerRoot(header)
  }

  /** "capella" */
  const VERSION: seq<byte> := [99, 97, 112, 101, 108, 108, 97]

  /** toBlockBidAndTrace: what is stored for a submission, under the root of its own header. */
  function ToEntry(h: Hasher, s: Submission): Option<BlockAndTrace> {
    match RootOf(h, s.payload)
    case None => None
    case Some(root) =>
      Some(BlockAndTrace(GetPayloadResponse(VERSION, s.payload), SignedBidTrace(s.signature, s.message), root))
  }

  /** An entry of a submission: its payload as it is, marked as Capella, its signed trace, and its header's root. */
  ghost predicate IsEntryOf(h: Hasher, s: Submission, e: BlockAndTrace) {
    && e.payload.data == s.payload && e.trace == SignedBidTrace(s.signature, s.message)
    && |e.payload.version| == 7 && (forall i :: 0 <= i < 7 ==> e.payload.version[i] == "capella"[i] as int)
    && HasRoot(h, s.payload, e.headerHash)
  }

  lemma EntryExactlyWhen(h: Hasher, s: Submission, e: BlockAndTrace)
    ensures ToEntry(h, s) == Some(e) <==> IsEntryOf(h, s, e)
  {
    RootExactlyWhen(h, s.payload, e.headerHash);
    if IsEntryOf(h, s, e) {
      assert e.payload.version == VERSION;
    }
  }

  /** bidExtended: the bid that enters the auction. */
  function ToBid(s: Submission, header: Header): BuilderBidExtended {
    BuilderBidExtended(BuilderBid(header, s.message.value, s.message.builderPubkey), s.message.proposerPubkey,
                       s.message.slot)
  }

  /** A bid carries what its submission's trace says, and the header of its payload. */
  ghost predicate Carries(h: Hasher, s: Submission, b: BuilderBidExtended) {
    && IsHeaderOf(h, s.payload, b.bid.header)
    && b.bid.value == s.message.value && b.bid.pubkey == s.message.builderPubkey
    && b.proposer == s.message.proposerPubkey && b.slot == s.message.slot
  }

  lemma BidCarries(h: Hasher, s: Submission, b: BuilderBidExtended)
    ensures PayloadToHeader(h, s.payload).Some? && b == ToBid(s, PayloadToHeader(h, s.payload).value) <==>
            Carries(h, s, b)
  {
    HeaderExactlyWhen(h, s.payload, b.bid.header);
  }

  /** The key a submission is stored under: its trace's block hash. */
  function StoreKey(s: Submission): PayloadKey {
    PayloadKey(s.message.blockHash, s.message.proposerPubkey, s.message.slot)
  }

  /** The key GetHeader looks a bid's payload up by: its header's block hash. */
  function BidKey(b: BuilderBidExtended): PayloadKey {
    PayloadKey(b.bid.header.fields.blockHash, b.proposer, b.slot)
  }

  /** The key a streamed entry is cached under: its payload's block hash. */
  function EntryKey(e: BlockAndTrace): PayloadKey {
    PayloadKey(e.payload.data.fields.blockHash, e.trace.message.proposerPubkey, e.trace.message.slot)
  }

  /** The key under which a submission's streamed entry is cached. */
  function HashKey(s: Submission): PayloadKey {
    PayloadKey(s.payload.fields.blockHash, s.message.proposerPubkey, s.message.slot)
  }

  /** An entry is genuine when it carries the root of the header of its own payload. */
  predicate Genuine(h: Hasher, e: BlockAndTrace) {
    RootOf(h, e.payload.data) == Some(e.headerHash)
  }

  predicate HashesMatch(s: Submission) {
    s.message.blockHash == s.payload.fields.blockHash
  }

  lemma EntriesAreGenuine(h: Hasher, s: Submission)
    requires ToEntry(h, s).Some?
    ensures Genuine(h, ToEntry(h, s).value)
    ensures PayloadToHeader(h, s.payload).Some?
    ensures h.headerRoot(PayloadToHeader(h, s.payload).value) == Some(ToEntry(h, s).value.headerHash)
  {
  }

  /** A bid's payload is looked up where it was stored exactly when trace and payload agree on the block hash. */
  lemma FoundExactlyWhen(h: Hasher, s: Submission)
    requires PayloadToHeader(h, s.payload).Some?
    ensures BidKey(ToBid(s, PayloadToHeader(h, s.payload).value)) == HashKey(s)
    ensures HashKey(s) == StoreKey(s) <==> HashesMatch(s)
  {
  }

  /** Nil and empty withdrawals give this payload different header roots. */
  predicate NilTold(h: Hasher, p: ExecutionPayload) {
    RootOf(h, p.(withdrawals := None)) != RootOf(h, p.(withdrawals := Some([])))
  }

  // ---------- Admission ----------

  datatype VerifyError =
    | EmptyBlock | InvalidTimestamp | InvalidSlot | RandaoNotFound | InvalidRandao | ZeroBid | TraceMismatch

  function HexDigit(n: nat): char
    requires n < 16
  {
    "0123456789abcdef"[n]
  }

  function Hex(s: seq<byte>): string {
    if s == [] then "" else [HexDigit(s[0] / 16), HexDigit(s[0] % 16)] + Hex(s[1..])
  }

  function HashString(b: Bytes32): string {
    "0x" + Hex(b)
  }

  /** The text of a hash: "0x", then two lower-case hexadecimal digits for each byte. */
  lemma HashStringDigits(b: Bytes32, i: nat)
    requires i < 32
    ensures |HashString(b)| == 66 && HashString(b)[..2] == "0x"
    ensures HashString(b)[2 + 2 * i] == "0123456789abcdef"[b[i] / 16]
    ensures HashString(b)[3 + 2 * i] == "0123456789abcdef"[b[i] % 16]
  {
    HexDigits(b, i);
  }

  lemma {:induction false} HexDigits(s: seq<byte>, i: nat)
    requires i < |s|
    ensures |Hex(s)| == 2 * |s|
    ensures Hex(s)[2 * i] == "0123456789abcdef"[s[i] / 16] && Hex(s)[2 * i + 1] == "0123456789abcdef"[s[i] % 16]
  {
    if |s| == 1 {
      assert s[1..] == [];
    } else {
      HexDigits(s[1..], if i == 0 then 0 else i - 1);
    }
  }

  /** What verifyBlock makes of its first read of the randao. */
  datatype Verdict = Verified | Refused(e: VerifyError) | AskAgain

  /**
    * verifyBlock, up to and including its first read: `randao` is what the beacon state says for the
    * parent slot. The bid and trace checks are made only if it is the submission's.
    */
  function VerifyBlock(s: Submission, genesisTime: uint64, head: uint64, n: nat, randao: string): Verdict {
    if s.message.slot == 0 then Refused(EmptyBlock)
    else if s.payload.fields.timestamp != Wrap64(genesisTime + s.message.slot * 12) then Refused(InvalidTimestamp)
    else if !Admits(head, n, s.message.slot) then Refused(InvalidSlot)
    else if randao == "" || randao != HashString(s.payload.fields.random) then AskAgain
    else if LeNat(s.message.value) == 0 && s.payload.transactions == [] then Refused(ZeroBid)
    else if s.payload.fields.blockHash != s.message.blockHash then Refused(TraceMismatch)
    else if s.payload.fields.parentHash != s.message.parentHash then Refused(TraceMismatch)
    else Verified
  }

  /** The second read, after the recheck delay, on which verifyBlock returns. */
  function VerifyAgain(s: Submission, randao: string): Option<VerifyError> {
    if randao == "" then Some(RandaoNotFound)
    else if randao != HashString(s.payload.fields.random) then Some(InvalidRandao)
    else None
  }

  /** The timestamp that a block for this slot must have, and the slots that are taken. */
  predicate Timed(s: Submission, genesisTime: uint64) {
    s.payload.fields.timestamp == (genesisTime + 12 * s.message.slot) % 0x1_0000_0000_0000_0000
  }

  /** A bid worth something: it pays, or it has transactions. */
  predicate Worthy(s: Submission) {
    LeNat(s.message.value) > 0 || s.payload.transactions != []
  }

  /** Trace and payload name the same block and the same parent. */
  predicate Consistent(s: Submission) {
    HashesMatch(s) && s.message.parentHash == s.payload.fields.parentHash
  }

  /** Each verdict, exactly. */
  lemma VerdictExactlyWhen(s: Submission, genesisTime: uint64, head: uint64, n: nat, randao: string)
    ensures var v, due := VerifyBlock(s, genesisTime, head, n, randao), s.message.slot > 0 && Timed(s, genesisTime);
            var found := due && Admits(head, n, s.message.slot) && randao == HashString(s.payload.fields.random);
            && (v == Verified <==> found && Worthy(s) && Consistent(s))
            && (v == Refused(ZeroBid) <==> found && !Worthy(s))
            && (v == Refused(TraceMismatch) <==> found && Worthy(s) && !Consistent(s))
            && (v == AskAgain <==> due && Admits(head, n, s.message.slot) && !found)
            && (v == Refused(InvalidSlot) <==> due && !Admits(head, n, s.message.slot))
            && (v == Refused(InvalidTimestamp) <==> s.message.slot > 0 && !due)
            && (v == Refused(EmptyBlock) <==> s.message.slot == 0)
  {
    HashStringDigits(s.payload.fields.random, 0);
  }

  lemma AgainExactlyWhen(s: Submission, randao: string)
    ensures VerifyAgain(s, randao).None? <==> randao == HashString(s.payload.fields.random)
    ensures VerifyAgain(s, randao) == Some(RandaoNotFound) <==> randao == ""
    ensures VerifyAgain(s, randao).None? || VerifyAgain(s, randao) in {Some(RandaoNotFound), Some(InvalidRandao)}
  {
    HashStringDigits(s.payload.fields.random, 0);
  }

  datatype WithdrawalsVerdict = WithdrawalsOk | WithdrawalsNotFound | WithdrawalsUnhashable | WithdrawalsDiffer

  /** verifyWithdrawals, for one read of the root: nil withdrawals pass; after a zero root it reads once more. */
  function VerifyWithdrawals(h: Hasher, s: Submission, root: Bytes32): WithdrawalsVerdict {
    if s.payload.withdrawals.None? then WithdrawalsOk
    else if root == Zeros(32) then WithdrawalsNotFound
    else
      match h.withdrawalsRoot(s.payload.withdrawals.value)
      case None => WithdrawalsUnhashable
      case Some(w) => if w == root then WithdrawalsOk else WithdrawalsDiffer
  }

  /** Nil withdrawals pass; others pass exactly when their root is the one recorded, which is not the zero root. */
  lemma WithdrawalsExactlyWhen(h: Hasher, s: Submission, root: Bytes32)
    ensures var v, ws := VerifyWithdrawals(h, s, root), s.payload.withdrawals;
            && (v == WithdrawalsOk <==> ws.None? || (root != Zeros(32) && h.withdrawalsRoot(ws.value) == Some(root)))
            && (v == WithdrawalsNotFound <==> ws.Some? && root == Zeros(32))
            && (v == WithdrawalsUnhashable <==> ws.Some? && root != Zeros(32) && h.withdrawalsRoot(ws.value).None?)
  {
  }

  // ---------- Revealing ----------

  /** validatePayload: the stored root is the root of the header that was signed. */
  predicate ValidPayload(h: Hasher, e: BlockAndTrace, header: Header) {
    h.headerRoot(header) == Some(e.headerHash)
  }

  datatype LastDelivered = LastDelivered(slot: uint64, blockHash: Bytes32)

  datatype DeliveryError = DiffBlockHash | HigherSlotDelivered

  /** The last-delivered load, compare and store, as one step. */
  function Deliver(last: LastDelivered, slot: uint64, blockHash: Bytes32): Result<LastDelivered, DeliveryError> {
    if last.slot < slot then Ok(LastDelivered(slot, blockHash))
    else if last.slot == slot && last.blockHash != blockHash then Err(DiffBlockHash)
    else if last.slot == slot then Ok(last)
    else Err(HigherSlotDelivered)
  }

  predicate MayDeliver(last: LastDelivered, slot: uint64, blockHash: Bytes32) {
    last.slot < slot || last == LastDelivered(slot, blockHash)
  }

  /** A later slot may be delivered, and the last block again; then it is the last. */
  lemma DeliverExactlyWhen(last: LastDelivered, slot: uint64, blockHash: Bytes32)
    ensures var r := Deliver(last, slot, blockHash);
            && (r == Ok(LastDelivered(slot, blockHash)) <==> MayDeliver(last, slot, blockHash))
            && (r == Err(DiffBlockHash) <==> last.slot == slot && last.blockHash != blockHash)
            && (r == Err(HigherSlotDelivered) <==> last.slot > slot)
  {
  }
}
