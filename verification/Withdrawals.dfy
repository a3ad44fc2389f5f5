/** Withdrawals: 44-byte records, at most 16 in a payload. */
module Withdrawals {
  import opened Common
  import opened Bytes
  import opened Pieces
  import opened Ssz

  datatype Withdrawal = Withdrawal(index: uint64, validatorIndex: uint64, address: Bytes20, amount: uint64)

  const MAX_WITHDRAWALS: nat := 16

  function Parts(w: Withdrawal): (parts: seq<Part>)
    ensures |parts| == 4
  {
    [ Fixed(LeBytes(w.index, 8)), Fixed(LeBytes(w.validatorIndex, 8)),
      Fixed(w.address), Fixed(LeBytes(w.amount, 8)) ]
  }

  function Encode(w: Withdrawal): (s: seq<byte>)
    ensures |s| == 44
  {
    Layout(w);
    ContainerSize(Parts(w));
    Container(Parts(w))
  }

  lemma Layout(w: Withdrawal)
    ensures HeadPos(Parts(w), 0) == 0 && HeadPos(Parts(w), 1) == 8 && HeadPos(Parts(w), 2) == 16
    ensures HeadPos(Parts(w), 3) == 36 && HeadPos(Parts(w), 4) == 44
    ensures forall i :: 0 <= i <= 4 ==> TailPos(Parts(w), i) == 0
  {
    var p := Parts(w);
    assert HeadPos(p, 1) == 8;
    assert HeadPos(p, 2) == 16;
    assert HeadPos(p, 3) == 36;
    assert TailPos(p, 1) == 0;
    assert TailPos(p, 2) == 0;
    assert TailPos(p, 3) == 0;
    assert TailPos(p, 4) == 0;
  }

  function Fields(buf: seq<byte>): Withdrawal
    requires |buf| == 44
  {
    Withdrawal(UnmarshallUint64(buf[0..8]), UnmarshallUint64(buf[8..16]), buf[16..36],
               UnmarshallUint64(buf[36..44]))
  }

  /** A record and its 44 bytes determine each other. */
  lemma RecordRoundTrip(w: Withdrawal)
    ensures Fields(Encode(w)) == w
  {
    Layout(w);
    ContainerHead(Parts(w), 0);
    ContainerHead(Parts(w), 1);
    ContainerHead(Parts(w), 2);
    ContainerHead(Parts(w), 3);
    Uint64RoundTrip(w.index);
    Uint64RoundTrip(w.validatorIndex);
    Uint64RoundTrip(w.amount);
  }

  /** Where each field is in a record. */
  lemma RecordBytes(w: Withdrawal)
    ensures Encode(w)[0..8] == LeBytes(w.index, 8) && Encode(w)[8..16] == LeBytes(w.validatorIndex, 8)
    ensures Encode(w)[16..36] == w.address && Encode(w)[36..44] == LeBytes(w.amount, 8)
  {
    Layout(w);
    ContainerHead(Parts(w), 0);
    ContainerHead(Parts(w), 1);
    ContainerHead(Parts(w), 2);
    ContainerHead(Parts(w), 3);
  }

  lemma RecordCanonical(buf: seq<byte>)
    requires |buf| == 44
    ensures Encode(Fields(buf)) == buf
  {
    var w := Fields(buf);
    Layout(w);
    assert HeadMatches(Parts(w), buf, 0);
    assert HeadMatches(Parts(w), buf, 1);
    assert HeadMatches(Parts(w), buf, 2);
    assert HeadMatches(Parts(w), buf, 3);
    MatchesIsContainer(Parts(w), buf);
  }

  method MarshalSSZTo(w: Withdrawal, buf: seq<byte>) returns (dst: seq<byte>)
    ensures dst == buf + Encode(w)
  {
    ghost var heads := Heads(Parts(w));
    dst := buf;
    AppendPiece(buf, heads, 0, dst, LeBytes(w.index, 8));
    dst := dst + LeBytes(w.index, 8);
    AppendPiece(buf, heads, 1, dst, LeBytes(w.validatorIndex, 8));
    dst := dst + LeBytes(w.validatorIndex, 8);
    AppendPiece(buf, heads, 2, dst, w.address);
    dst := dst + w.address;
    AppendPiece(buf, heads, 3, dst, LeBytes(w.amount, 8));
    dst := dst + LeBytes(w.amount, 8);
    JoinSkip(Tails(Parts(w)), 0, 4);
  }

  method UnmarshalSSZ(recv: Withdrawal, buf: seq<byte>) returns (w: Withdrawal, err: Option<SszError>)
    ensures |buf| != 44 ==> err == Some(ErrSize) && w == recv
    ensures |buf| == 44 ==> err.None? && w == Fields(buf) && Encode(w) == buf
  {
    w := recv;
    if |buf| != 44 {
      return w, Some(ErrSize);
    }
    w := w.(index := UnmarshallUint64(buf[0..8]));
    w := w.(validatorIndex := UnmarshallUint64(buf[8..16]));
    w := w.(address := buf[16..36]);
    w := w.(amount := UnmarshallUint64(buf[36..44]));
    RecordCanonical(buf);
    return w, None;
  }

  // ---------- Lists of withdrawals ----------

  function Encoded(ws: seq<Withdrawal>): (pieces: seq<seq<byte>>)
    ensures |pieces| == |ws|
    ensures forall i :: 0 <= i < |ws| ==> pieces[i] == Encode(ws[i])
  {
    seq(|ws|, i requires 0 <= i < |ws| => Encode(ws[i]))
  }

  function EncodeList(ws: seq<Withdrawal>): seq<byte> {
    Join(Encoded(ws), |ws|)
  }

  lemma {:induction false} UniformPos(pieces: seq<seq<byte>>, i: nat)
    requires forall k :: 0 <= k < |pieces| ==> |pieces[k]| == 44
    requires i <= |pieces|
    ensures Pos(pieces, i) == 44 * i
  {
    if i == 0 {
    } else {
      UniformPos(pieces, i - 1);
    }
  }

  lemma UniformPieceAt(pieces: seq<seq<byte>>, buf: seq<byte>, i: nat)
    requires forall k :: 0 <= k < |pieces| ==> |pieces[k]| == 44
    requires i < |pieces| && |buf| == 44 * |pieces|
    ensures PieceAt(pieces, buf, i) <==> buf[44 * i..44 * i + 44] == pieces[i]
  {
    UniformPos(pieces, i);
    UniformPos(pieces, i + 1);
  }

  function Records(buf: seq<byte>, num: nat): (ws: seq<Withdrawal>)
    requires |buf| == 44 * num
    ensures |ws| == num
    ensures forall i :: 0 <= i < num ==> ws[i] == Fields(buf[44 * i..44 * i + 44])
  {
    seq(num, i requires 0 <= i < num => Fields(buf[44 * i..44 * i + 44]))
  }

  function DecodeList(buf: seq<byte>): Result<seq<Withdrawal>, SszError> {
    match DivideInt2(|buf|, 44, MAX_WITHDRAWALS)
    case Err(e) => Err(e)
    case Ok(num) => Ok(Records(buf, num))
  }

  lemma SectionSize(buf: seq<byte>)
    requires DecodeList(buf).Ok?
    ensures |buf| == 44 * |DecodeList(buf).value|
    ensures |DecodeList(buf).value| <= 16
  {
  }

  lemma DecodeSection(buf: seq<byte>, n: nat)
    requires |buf| == 44 * n && n <= 16
    ensures DecodeList(buf) == Ok(Records(buf, n))
  {
    assert 44 * n % 44 == 0 && 44 * n / 44 == n;
    assert DivideInt2(44 * n, 44, MAX_WITHDRAWALS) == Ok(n);
  }

  /** Lists of at most 16 withdrawals and sections of their size determine each other. */
  lemma ListRoundTrip(ws: seq<Withdrawal>)
    requires |ws| <= 16
    ensures |EncodeList(ws)| == 44 * |ws|
    ensures DecodeList(EncodeList(ws)) == Ok(ws)
  {
    UniformPos(Encoded(ws), |ws|);
    var buf := EncodeList(ws);
    forall i | 0 <= i < |ws|
      ensures Fields(buf[44 * i..44 * i + 44]) == ws[i]
    {
      RecordFound(ws, i);
    }
    DecodeSection(buf, |ws|);
    assert Records(buf, |ws|) == ws;
  }

  lemma RecordFound(ws: seq<Withdrawal>, i: nat)
    requires i < |ws| && |EncodeList(ws)| == 44 * |ws|
    ensures Fields(EncodeList(ws)[44 * i..44 * i + 44]) == ws[i]
  {
    JoinHolds(Encoded(ws), i, |ws|);
    UniformPieceAt(Encoded(ws), EncodeList(ws), i);
    RecordRoundTrip(ws[i]);
  }

  lemma ListCanonical(buf: seq<byte>)
    requires DecodeList(buf).Ok?
    ensures |DecodeList(buf).value| <= 16
    ensures EncodeList(DecodeList(buf).value) == buf
  {
    SectionSize(buf);
    var ws := DecodeList(buf).value;
    forall i | 0 <= i < |ws|
      ensures PieceAt(Encoded(ws), buf, i)
    {
      UniformPieceAt(Encoded(ws), buf, i);
      RecordCanonical(buf[44 * i..44 * i + 44]);
    }
    JoinDetermined(Encoded(ws), buf, |ws|);
    UniformPos(Encoded(ws), |ws|);
    SplitAt(buf, |buf|);
  }

  /**
    * A section is accepted exactly when it is the encoding of at most 16 records, which are what it decodes to; one
    * that is no whole number of records is told from one that has too many.
    */
  lemma ListAccepted(buf: seq<byte>, ws: seq<Withdrawal>)
    ensures DecodeList(buf) == Ok(ws) <==> |ws| <= 16 && EncodeList(ws) == buf
    ensures |buf| % 44 != 0 ==> DecodeList(buf) == Err(ErrSize)
    ensures |buf| % 44 == 0 && |buf| > 704 ==> DecodeList(buf) == Err(ErrListTooBig)
  {
    if DecodeList(buf) == Ok(ws) {
      ListCanonical(buf);
    }
    if |ws| <= 16 && EncodeList(ws) == buf {
      ListRoundTrip(ws);
    }
  }

  method MarshalListTo(buf: seq<byte>, ws: seq<Withdrawal>) returns (dst: seq<byte>, err: Option<SszError>)
    ensures |ws| <= 16 ==> err.None? && dst == buf + EncodeList(ws)
    ensures |ws| > 16 ==> err == Some(ErrListTooBig)
  {
    dst := buf;
    if |ws| > MAX_WITHDRAWALS {
      return dst, Some(ErrListTooBig);
    }
    for i := 0 to |ws|
      invariant dst == buf + Join(Encoded(ws), i)
    {
      dst := MarshalRecordTo(ws, i, buf, dst);
    }
    return dst, None;
  }

  method MarshalRecordTo(ws: seq<Withdrawal>, i: nat, ghost buf: seq<byte>, before: seq<byte>) returns (dst: seq<byte>)
    requires i < |ws| && before == buf + Join(Encoded(ws), i)
    ensures dst == buf + Join(Encoded(ws), i + 1)
  {
    dst := MarshalSSZTo(ws[i], before);
    AppendPiece(buf, Encoded(ws), i, before, Encode(ws[i]));
  }

  method UnmarshalList(buf: seq<byte>) returns (ws: seq<Withdrawal>, err: Option<SszError>)
    ensures DecodeList(buf).Ok? ==> err.None? && ws == DecodeList(buf).value
    ensures DecodeList(buf).Err? ==> err == Some(DecodeList(buf).error)
    ensures err.None? <==> |buf| % 44 == 0 && |buf| <= 704
  {
    ws := [];
    var num := DivideInt2(|buf|, 44, MAX_WITHDRAWALS);
    if num.Err? {
      return ws, Some(num.error);
    }
    SectionSize(buf);
    var n := num.value;
    ghost var records := Records(buf, n);
    for i := 0 to n
      invariant ws == records[..i]
    {
      var w := UnmarshalRecord(buf, i, n);
      ws := ws + [w];
    }
    return ws, None;
  }

  /** Record i of a section, decoded into a new value. */
  method UnmarshalRecord(buf: seq<byte>, i: nat, n: nat) returns (w: Withdrawal)
    requires i < n && |buf| == 44 * n
    ensures w == Fields(buf[44 * i..44 * i + 44])
  {
    var zero := Withdrawal(0, 0, Zeros(20), 0);
    var err;
    w, err := UnmarshalSSZ(zero, buf[44 * i..44 * i + 44]);
  }
}
