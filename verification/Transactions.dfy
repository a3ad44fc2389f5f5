/**
  * The transactions of an execution payload: a list of byte lists, encoded as an
  * offset table followed by the transactions' bytes.
  */
module Transactions {
  import opened Common
  import opened Bytes
  import opened Pieces
  import opened Ssz

  type Transaction = seq<byte>

  const MAX_TRANSACTIONS: nat := 1048576
  const MAX_TRANSACTION_SIZE: nat := 1073741824

  function TxParts(txs: seq<Transaction>): (parts: seq<Part>)
    ensures |parts| == |txs|
    ensures forall i :: 0 <= i < |txs| ==> parts[i] == Variable(txs[i])
  {
    seq(|txs|, i requires 0 <= i < |txs| => Variable(txs[i]))
  }

  function EncodeTxs(txs: seq<Transaction>): seq<byte> {
    Container(TxParts(txs))
  }

  ghost predicate WithinLimits(txs: seq<Transaction>) {
    && |txs| <= 1048576
    && forall i :: 0 <= i < |txs| ==> |txs[i]| <= 1073741824
  }

  /** Where transaction i starts in the encoding. */
  function TxOffset(txs: seq<Transaction>, i: nat): nat
    requires i <= |txs|
  {
    4 * |txs| + Pos(txs, i)
  }

  lemma {:induction false} TableSize(txs: seq<Transaction>, i: nat)
    requires i <= |txs|
    ensures HeadPos(TxParts(txs), i) == 4 * i
    ensures TailPos(TxParts(txs), i) == Pos(txs, i)
  {
    if i == 0 {
    } else {
      TableSize(txs, i - 1);
    }
  }

  lemma OffsetsOfParts(txs: seq<Transaction>, i: nat)
    requires i <= |txs|
    ensures Offset(TxParts(txs), i) == TxOffset(txs, i)
  {
    TableSize(txs, i);
    TableSize(txs, |txs|);
  }

  /** What the encoder's offset loop and SizeSSZ's loop add up for the transactions. */
  lemma EncodedSize(txs: seq<Transaction>)
    ensures |EncodeTxs(txs)| == TxOffset(txs, |txs|)
  {
    OffsetsOfParts(txs, |txs|);
    ContainerSize(TxParts(txs));
  }

  /** The encoding is the table followed by the transactions. */
  lemma EncodingShape(txs: seq<Transaction>)
    ensures EncodeTxs(txs) == Join(Heads(TxParts(txs)), |txs|) + Join(txs, |txs|)
  {
    assert Tails(TxParts(txs)) == txs;
  }

  // ---------- Decoding ----------

  datatype Scan = Scan(items: seq<Transaction>, next: nat)

  /**
    * The transactions read by the first k rounds of UnmarshalDynamic over an n-entry
    * offset table, and the offset where the next one starts.
    */
  function ItemsUpTo(src: seq<byte>, n: nat, k: nat): (r: Result<Scan, SszError>)
    requires |src| >= 4 && k <= n
    ensures r.Ok? ==> |r.value.items| == k
  {
    if k == 0 then Ok(Scan([], ReadOffset(src)))
    else
      match ItemsUpTo(src, n, k - 1)
      case Err(e) => Err(e)
      case Ok(Scan(items, offset)) =>
        if k < n && |src| < 4 * k + 4 then Err(ErrDynamicLength)
        else
          var end := if k < n then ReadOffset(src[4 * k..4 * k + 4]) else |src|;
          if offset > end || end > |src| then Err(ErrOffset)
          else if end - offset > MAX_TRANSACTION_SIZE then Err(ErrBytesLength)
          else Ok(Scan(items + [src[offset..end]], end))
  }

  function DecodeTxs(src: seq<byte>): Result<seq<Transaction>, SszError> {
    match DecodeDynamicLength(src, MAX_TRANSACTIONS)
    case Err(e) => Err(e)
    case Ok(n) =>
      if n == 0 then Ok([])
      else
        match ItemsUpTo(src, n, n)
        case Err(e) => Err(e)
        case Ok(Scan(items, _)) => Ok(items)
  }

  lemma {:induction false} ItemsError(src: seq<byte>, n: nat, k: nat, m: nat)
    requires |src| >= 4 && k <= m <= n
    requires ItemsUpTo(src, n, k).Err?
    ensures ItemsUpTo(src, n, m) == ItemsUpTo(src, n, k)
    decreases m
  {
    if k == m {
    } else {
      ItemsError(src, n, k, m - 1);
    }
  }

  lemma NextFour(src: seq<byte>, rest: seq<byte>, at: nat)
    requires at + 4 <= |src| && rest == src[at..]
    ensures rest[..4] == src[at..at + 4][..4] && rest[4..] == src[at + 4..]
  {
  }

  /** The UnmarshalDynamic loop over the n entries of a table. */
  method UnmarshalDynamic(src: seq<byte>, n: nat) returns (txs: seq<Transaction>, err: Option<SszError>)
    requires |src| >= 4 && n > 0
    ensures ItemsUpTo(src, n, n).Ok? ==> err.None? && txs == ItemsUpTo(src, n, n).value.items
    ensures ItemsUpTo(src, n, n).Err? ==> err == Some(ItemsUpTo(src, n, n).error)
  {
    txs := [];
    var offset: nat, indx: nat, rest := ReadOffset(src), 0, src[4..];
    while indx < n
      invariant indx <= n
      invariant ItemsUpTo(src, n, indx) == Ok(Scan(txs, offset))
      invariant indx < n ==> 4 * indx + 4 <= |src| && rest == src[4 * indx + 4..]
    {
      var end: nat := |src|;
      if indx + 1 < n {
        if |rest| < 4 {
          ItemsError(src, n, indx + 1, n);
          return txs, Some(ErrDynamicLength);
        }
        NextFour(src, rest, 4 * (indx + 1));
        end, rest := ReadOffset(rest), rest[4..];
      }
      if offset > end || end > |src| {
        ItemsError(src, n, indx + 1, n);
        return txs, Some(ErrOffset);
      }
      if end - offset > MAX_TRANSACTION_SIZE {
        ItemsError(src, n, indx + 1, n);
        return txs, Some(ErrBytesLength);
      }
      txs := txs + [src[offset..end]];
      indx := indx + 1;
      offset := end;
    }
    return txs, None;
  }

  /** The transactions section of UnmarshalSSZ: DecodeDynamicLength, then UnmarshalDynamic. */
  method UnmarshalTransactions(src: seq<byte>) returns (txs: seq<Transaction>, err: Option<SszError>)
    ensures DecodeTxs(src).Ok? ==> err.None? && txs == DecodeTxs(src).value
    ensures DecodeTxs(src).Err? ==> err == Some(DecodeTxs(src).error)
  {
    var num := DecodeDynamicLength(src, MAX_TRANSACTIONS);
    if num.Err? {
      return [], Some(num.error);
    }
    if num.value == 0 {
      return [], None;
    }
    txs, err := UnmarshalDynamic(src, num.value);
  }

  // ---------- Round trip ----------

  /** The table of `src` says that transaction k lies between its offset and the next one's. */
  ghost predicate Row(src: seq<byte>, txs: seq<Transaction>, k: nat)
    requires k < |txs|
  {
    && 4 * k + 4 <= |src|
    && ReadOffset(src[4 * k..4 * k + 4]) == TxOffset(txs, k)
    && TxOffset(txs, k + 1) <= |src|
    && src[TxOffset(txs, k)..TxOffset(txs, k + 1)] == txs[k]
  }

  ghost predicate Tabled(src: seq<byte>, txs: seq<Transaction>) {
    && |src| == TxOffset(txs, |txs|)
    && forall k :: 0 <= k < |txs| ==> Row(src, txs, k)
  }

  lemma {:induction false} ItemsOfTable(src: seq<byte>, txs: seq<Transaction>, k: nat)
    requires WithinLimits(txs) && 0 < |txs| && k <= |txs|
    requires Tabled(src, txs)
    ensures |src| >= 4
    ensures ItemsUpTo(src, |txs|, k) == Ok(Scan(txs[..k], TxOffset(txs, k)))
  {
    assert Row(src, txs, if k < |txs| then k else 0);
    if k == 0 {
      assert src[..4] == src[4 * 0..4 * 0 + 4][..4];
    } else {
      ItemsOfTable(src, txs, k - 1);
      assert Row(src, txs, k - 1);
      assert txs[..k] == txs[..k - 1] + [txs[k - 1]];
    }
  }

  lemma DecodeOfTable(src: seq<byte>, txs: seq<Transaction>)
    requires WithinLimits(txs) && 0 < |txs|
    requires Tabled(src, txs)
    ensures DecodeTxs(src) == Ok(txs)
  {
    ItemsOfTable(src, txs, 0);
    ItemsOfTable(src, txs, |txs|);
    assert txs[..|txs|] == txs;
  }

  lemma EncodedRow(txs: seq<Transaction>, k: nat)
    requires k < |txs| && TxOffset(txs, k) < TWO_32
    ensures Row(EncodeTxs(txs), txs, k)
  {
    EncodedSize(txs);
    PosMonotone(txs, k, |txs|);
    OffsetsOfParts(txs, k);
    OffsetsOfParts(txs, k + 1);
    OffsetsLocateFields(TxParts(txs), k);
    TableSize(txs, k);
  }

  /** The offset of the last transaction, the greatest in the table, fits four bytes. */
  predicate LastOffsetFits(txs: seq<Transaction>) {
    txs == [] || TxOffset(txs, |txs| - 1) < TWO_32
  }

  lemma SmallFits(txs: seq<Transaction>)
    requires |EncodeTxs(txs)| < TWO_32
    ensures LastOffsetFits(txs)
  {
    EncodedSize(txs);
  }

  lemma FitsDecodes(txs: seq<Transaction>)
    requires WithinLimits(txs) && LastOffsetFits(txs)
    ensures DecodeTxs(EncodeTxs(txs)) == Ok(txs)
  {
    EncodedSize(txs);
    if |txs| > 0 {
      forall k | 0 <= k < |txs|
        ensures Row(EncodeTxs(txs), txs, k)
      {
        PosMonotone(txs, k, |txs| - 1);
        EncodedRow(txs, k);
      }
      DecodeOfTable(EncodeTxs(txs), txs);
    } else {
      assert EncodeTxs(txs) == [];
    }
  }

  // ---------- Canonical form ----------

  /** Everything the first |items| rounds establish about the buffer they accept. */
  ghost predicate Accounted(src: seq<byte>, n: nat, items: seq<Transaction>, offset: nat) {
    && |items| <= n
    && (|items| > 0 ==> offset <= |src|)
    && (0 < |items| == n ==> offset == |src|)
    && offset == 4 * n + Pos(items, |items|)
    && (|items| > 0 ==> src[4 * n..offset] == Join(items, |items|))
    && (forall i :: 0 <= i < |items| ==> |items[i]| <= MAX_TRANSACTION_SIZE)
    && (|items| < n && |items| > 0 ==> EntryOk(src, n, items, |items|))
    && forall j :: 1 <= j < |items| ==> EntryOk(src, n, items, j)
  }

  /** Entry j of the offset table says where transaction j starts. */
  ghost predicate EntryOk(src: seq<byte>, n: nat, items: seq<Transaction>, j: nat)
    requires j <= |items|
  {
    4 * j + 4 <= |src| && ReadOffset(src[4 * j..4 * j + 4]) == 4 * n + Pos(items, j)
  }

  lemma {:induction false} ItemsAccounted(src: seq<byte>, n: nat, k: nat)
    requires |src| >= 4 && k <= n && ReadOffset(src) == 4 * n
    requires ItemsUpTo(src, n, k).Ok?
    ensures Accounted(src, n, ItemsUpTo(src, n, k).value.items, ItemsUpTo(src, n, k).value.next)
  {
    if k == 0 {
    } else {
      ItemsAccounted(src, n, k - 1);
      var Scan(before, offset) := ItemsUpTo(src, n, k - 1).value;
      var Scan(items, end) := ItemsUpTo(src, n, k).value;
      AccountOneMore(src, n, before, offset, end);
    }
  }

  lemma AccountOneMore(src: seq<byte>, n: nat, before: seq<Transaction>, offset: nat, end: nat)
    requires |before| < n && Accounted(src, n, before, offset)
    requires offset <= end <= |src| && end - offset <= MAX_TRANSACTION_SIZE
    requires var k := |before| + 1;
             if k < n then 4 * k + 4 <= |src| && end == ReadOffset(src[4 * k..4 * k + 4]) else end == |src|
    ensures Accounted(src, n, before + [src[offset..end]], end)
  {
    var item := src[offset..end];
    var items, k := before + [item], |before| + 1;
    JoinPrefix(before, [item], k - 1);
    assert Pos(items, k) == Pos(before, k - 1) + |item|;
    SplitSlice(src, 4 * n, offset, end);
    forall j | 1 <= j < k
      ensures EntryOk(src, n, items, j)
    {
      JoinPrefix(before, [item], j);
      assert EntryOk(src, n, before, j);
    }
  }

  lemma {:induction false} TableBytes(src: seq<byte>, txs: seq<Transaction>, k: nat)
    requires |src| >= 4 * |txs| && |txs| > 0 && k <= |txs|
    requires ReadOffset(src) == 4 * |txs|
    requires forall j :: 1 <= j < |txs| ==> EntryOk(src, |txs|, txs, j)
    ensures Join(Heads(TxParts(txs)), k) == src[0..4 * k]
  {
    if k == 0 {
    } else {
      var j := k - 1;
      TableBytes(src, txs, j);
      TableEntry(src, txs, j);
      SplitSlice(src, 0, 4 * j, 4 * k);
    }
  }

  lemma TableEntry(src: seq<byte>, txs: seq<Transaction>, j: nat)
    requires |src| >= 4 * |txs| && j < |txs|
    requires ReadOffset(src) == 4 * |txs|
    requires j > 0 ==> EntryOk(src, |txs|, txs, j)
    ensures src[4 * j..4 * j + 4] == Head(TxParts(txs), j)
  {
    var entry := src[4 * j..4 * j + 4];
    OffsetBytes(entry);
    OffsetsOfParts(txs, j);
    assert ReadOffset(entry) == TxOffset(txs, j) by {
      assert j == 0 ==> entry[..4] == src[..4];
    }
  }

  /**
    * Every non-empty list that is accepted was encoded canonically: re-encoding gives
    * back the same bytes. An accepted empty list says nothing about its bytes.
    */
  lemma TxsCanonical(src: seq<byte>)
    requires DecodeTxs(src).Ok?
    ensures WithinLimits(DecodeTxs(src).value)
    ensures EncodeTxs(DecodeTxs(src).value) == if DecodeTxs(src).value == [] then [] else src
  {
    var txs := DecodeTxs(src).value;
    EncodingShape(txs);
    if txs == [] {
      EncodedSize(txs);
    } else {
      var n := |txs|;
      ItemsAccounted(src, n, n);
      TableBytes(src, txs, n);
      SplitSlice(src, 0, 4 * n, |src|);
      assert src[0..|src|] == src;
    }
  }

  // ---------- Encoding ----------

  /** Whatever a section decodes to has offsets that fit, since they were read from four bytes. */
  lemma DecodedFits(src: seq<byte>)
    requires DecodeTxs(src).Ok?
    ensures LastOffsetFits(DecodeTxs(src).value)
  {
    var txs := DecodeTxs(src).value;
    if |txs| > 1 {
      var n, j := |txs|, |txs| - 1;
      ItemsAccounted(src, n, n);
      assert EntryOk(src, n, txs, j);
      OffsetBytes(src[4 * j..4 * j + 4]);
    }
  }

  /**
    * A list of transactions within the limits is decoded from its encoding, for any number and length of
    * transactions, exactly when the offset of the last one fits four bytes.
    */
  lemma TxsRoundTrip(txs: seq<Transaction>)
    requires WithinLimits(txs)
    ensures DecodeTxs(EncodeTxs(txs)) == Ok(txs) <==> LastOffsetFits(txs)
  {
    if LastOffsetFits(txs) {
      FitsDecodes(txs);
    } else if DecodeTxs(EncodeTxs(txs)).Ok? {
      DecodedFits(EncodeTxs(txs));
    }
  }

  /**
    * A section is accepted as a non-empty list exactly when it is the encoding of that list, within the limits and
    * with offsets that fit; as the empty list exactly when it is empty or starts with a zero offset.
    */
  lemma TxsAccepted(src: seq<byte>, txs: seq<Transaction>)
    ensures txs != [] ==>
              (DecodeTxs(src) == Ok(txs) <==> WithinLimits(txs) && LastOffsetFits(txs) && EncodeTxs(txs) == src)
    ensures DecodeTxs(src) == Ok([]) <==> src == [] || (|src| >= 4 && LeNat(src[..4]) == 0)
    ensures 0 < |src| < 4 || (|src| >= 4 && LeNat(src[..4]) % 4 != 0) ==> DecodeTxs(src) == Err(ErrDynamicLength)
    ensures |src| >= 4 && LeNat(src[..4]) % 4 == 0 && LeNat(src[..4]) > 4194304 ==> DecodeTxs(src) == Err(ErrListTooBig)
  {
    if DecodeTxs(src) == Ok(txs) {
      TxsCanonical(src);
      DecodedFits(src);
    }
    if WithinLimits(txs) && LastOffsetFits(txs) && EncodeTxs(txs) == src {
      FitsDecodes(txs);
    }
  }

  lemma TableHead(txs: seq<Transaction>, i: nat, offset: nat)
    requires i < |txs| && offset == TxOffset(txs, i)
    ensures Heads(TxParts(txs))[i] == LeBytes(offset, 4)
  {
    OffsetsOfParts(txs, i);
  }

  method WriteOffsetTable(buf: seq<byte>, txs: seq<Transaction>) returns (dst: seq<byte>)
    ensures dst == buf + Join(Heads(TxParts(txs)), |txs|)
  {
    dst := buf;
    var offset := 4 * |txs|;
    ghost var heads := Heads(TxParts(txs));
    for i := 0 to |txs|
      invariant offset == TxOffset(txs, i)
      invariant dst == buf + Join(heads, i)
    {
      TableHead(txs, i, offset);
      AppendPiece(buf, heads, i, dst, LeBytes(offset, 4));
      dst := dst + LeBytes(offset, 4);
      offset := offset + |txs[i]|;
    }
  }

  method AppendTransactions(buf: seq<byte>, txs: seq<Transaction>)
    returns (dst: seq<byte>, err: Option<SszError>)
    ensures err.None? <==> forall i :: 0 <= i < |txs| ==> |txs[i]| <= 1073741824
    ensures err.None? ==> dst == buf + Join(txs, |txs|)
    ensures err.None? || err == Some(ErrBytesLength)
  {
    dst := buf;
    for i := 0 to |txs|
      invariant dst == buf + Join(txs, i)
      invariant forall j :: 0 <= j < i ==> |txs[j]| <= MAX_TRANSACTION_SIZE
    {
      if |txs[i]| > MAX_TRANSACTION_SIZE {
        return dst, Some(ErrBytesLength);
      }
      AppendPiece(buf, txs, i, dst, txs[i]);
      dst := dst + txs[i];
    }
    return dst, None;
  }

  /** The offset table loop, then the loop that appends each transaction. */
  method MarshalTransactionsTo(buf: seq<byte>, txs: seq<Transaction>)
    returns (dst: seq<byte>, err: Option<SszError>)
    ensures WithinLimits(txs) ==> err.None? && dst == buf + EncodeTxs(txs)
    ensures |txs| > 1048576 ==> err == Some(ErrListTooBig)
    ensures |txs| <= 1048576 && !WithinLimits(txs) ==> err == Some(ErrBytesLength)
  {
    if |txs| > MAX_TRANSACTIONS {
      return buf, Some(ErrListTooBig);
    }
    dst := WriteOffsetTable(buf, txs);
    dst, err := AppendTransactions(dst, txs);
    EncodingShape(txs);
    AppendAssoc(buf, Join(Heads(TxParts(txs)), |txs|), Join(txs, |txs|));
  }

  /** What a payload's offset loop and its SizeSSZ loop compute: the size of the encoded list. */
  method SizeOfTransactions(start: nat, txs: seq<Transaction>) returns (size: nat)
    ensures size == start + |EncodeTxs(txs)|
  {
    size := start;
    for i := 0 to |txs|
      invariant size == start + 4 * i + Pos(txs, i)
    {
      size := size + 4;
      size := size + |txs[i]|;
    }
    EncodedSize(txs);
  }
}
