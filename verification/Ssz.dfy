/** Joining byte strings, and finding the pieces again by position. */
module Pieces {
  import opened Bytes

  /** The first n pieces, joined. */
  function Join(pieces: seq<seq<byte>>, n: nat): (s: seq<byte>)
    requires n <= |pieces|
    ensures |s| == Pos(pieces, n)
  {
    if n == 0 then [] else Join(pieces, n - 1) + pieces[n - 1]
  }

  /** Where piece n starts. */
  function Pos(pieces: seq<seq<byte>>, n: nat): nat
    requires n <= |pieces|
  {
    if n == 0 then 0 else Pos(pieces, n - 1) + |pieces[n - 1]|
  }

  /** `buf` holds piece i where the joined pieces have it. */
  ghost predicate PieceAt(pieces: seq<seq<byte>>, buf: seq<byte>, i: nat)
    requires i < |pieces|
  {
    Pos(pieces, i + 1) <= |buf| && buf[Pos(pieces, i)..Pos(pieces, i + 1)] == pieces[i]
  }

  lemma {:induction false} PosMonotone(pieces: seq<seq<byte>>, i: nat, j: nat)
    requires i <= j <= |pieces|
    ensures Pos(pieces, i) <= Pos(pieces, j)
    decreases j
  {
    if i == j {
    } else {
      PosMonotone(pieces, i, j - 1);
    }
  }

  lemma {:induction false} JoinHolds(pieces: seq<seq<byte>>, i: nat, n: nat)
    requires i < n <= |pieces|
    ensures PieceAt(pieces, Join(pieces, n), i)
    decreases n
  {
    if i + 1 < n {
      JoinHolds(pieces, i, n - 1);
      SliceOfLeft(Join(pieces, n - 1), pieces[n - 1], Pos(pieces, i), Pos(pieces, i + 1));
    } else {
      SliceOfRight(Join(pieces, i), pieces[i]);
    }
  }

  lemma {:induction false} JoinDetermined(pieces: seq<seq<byte>>, buf: seq<byte>, n: nat)
    requires n <= |pieces|
    requires forall i :: 0 <= i < n ==> PieceAt(pieces, buf, i)
    ensures Pos(pieces, n) <= |buf|
    ensures buf[..Pos(pieces, n)] == Join(pieces, n)
  {
    if n == 0 {
    } else {
      JoinDetermined(pieces, buf, n - 1);
      assert PieceAt(pieces, buf, n - 1);
      SplitSlice(buf, 0, Pos(pieces, n - 1), Pos(pieces, n));
    }
  }

  /** Empty pieces add nothing. */
  lemma {:induction false} JoinSkip(pieces: seq<seq<byte>>, i: nat, j: nat)
    requires i <= j <= |pieces|
    requires forall k :: i <= k < j ==> pieces[k] == []
    ensures Join(pieces, j) == Join(pieces, i) && Pos(pieces, j) == Pos(pieces, i)
    decreases j
  {
    if i == j {
    } else {
      JoinSkip(pieces, i, j - 1);
      assert pieces[j - 1] == [];
    }
  }

  /** Joining depends only on the pieces joined. */
  lemma {:induction false} JoinPrefix(pieces: seq<seq<byte>>, more: seq<seq<byte>>, n: nat)
    requires n <= |pieces|
    ensures Join(pieces + more, n) == Join(pieces, n) && Pos(pieces + more, n) == Pos(pieces, n)
  {
    if n == 0 {
    } else {
      JoinPrefix(pieces, more, n - 1);
    }
  }

  /** One append of an encoder: the next piece goes after the pieces before it. */
  lemma AppendPiece(buf: seq<byte>, pieces: seq<seq<byte>>, i: nat, dst: seq<byte>, bytes: seq<byte>)
    requires i < |pieces| && bytes == pieces[i]
    requires dst == buf + Join(pieces, i)
    ensures dst + bytes == buf + Join(pieces, i + 1)
  {
    AppendAssoc(buf, Join(pieces, i), bytes);
  }

  lemma AppendAssoc(a: seq<byte>, b: seq<byte>, c: seq<byte>)
    ensures (a + b) + c == a + (b + c)
  {
  }

  lemma AppendThree(buf: seq<byte>, a: seq<byte>, b: seq<byte>, c: seq<byte>)
    ensures buf + a + b + c == buf + (a + b + c)
  {
  }

  lemma AppendFour(buf: seq<byte>, a: seq<byte>, b: seq<byte>, c: seq<byte>, d: seq<byte>)
    ensures buf + a + b + c + d == buf + (a + b + c + d)
  {
  }

  lemma SliceOfLeft(a: seq<byte>, b: seq<byte>, lo: nat, hi: nat)
    requires lo <= hi <= |a|
    ensures (a + b)[lo..hi] == a[lo..hi]
  {
  }

  lemma SliceOfRight(a: seq<byte>, b: seq<byte>)
    ensures (a + b)[|a|..|a| + |b|] == b
  {
  }

  lemma SliceInRight(a: seq<byte>, b: seq<byte>, lo: nat, hi: nat)
    requires lo <= hi <= |b|
    ensures (a + b)[|a| + lo..|a| + hi] == b[lo..hi]
  {
  }

  lemma SliceOfSuffix(s: seq<byte>, n: nat, lo: nat, hi: nat)
    requires n <= |s| && lo <= hi <= |s| - n
    ensures s[n..][lo..hi] == s[n + lo..n + hi]
  {
  }

  lemma SplitAt(s: seq<byte>, n: nat)
    requires n <= |s|
    ensures s == s[..n] + s[n..]
    ensures s[..|s|] == s
  {
  }

  lemma SplitSlice(s: seq<byte>, lo: nat, mid: nat, hi: nat)
    requires lo <= mid <= hi <= |s|
    ensures s[lo..hi] == s[lo..mid] + s[mid..hi]
  {
  }
}

/**
  * SimpleSerialize (SSZ). `Container` follows the section "Serialization" of
  * ssz/simple-serialize.md in the Ethereum consensus-specs, for any sequence of
  * already serialized parts; the hand-written encoders are proved against it.
  * The remaining members are the fastssz helpers that those encoders and decoders call.
  */
module Ssz {
  import opened Common
  import opened Bytes
  import opened Pieces

  datatype SszError =
    | ErrSize
    | ErrOffset
    | ErrInvalidVariableOffset
    | ErrBytesLength
    | ErrListTooBig
    | ErrDynamicLength

  // ---------- Reference serialization of a container or list ----------

  /** One serialized element: in the fixed-length section, or referred to from it by an offset. */
  datatype Part = Fixed(bytes: seq<byte>) | Variable(bytes: seq<byte>)

  function HeadSize(p: Part): nat {
    if p.Fixed? then |p.bytes| else 4
  }

  function TailSize(p: Part): nat {
    if p.Fixed? then 0 else |p.bytes|
  }

  /** Where the head of part i starts. */
  function HeadPos(parts: seq<Part>, i: nat): nat
    requires i <= |parts|
  {
    if i == 0 then 0 else HeadPos(parts, i - 1) + HeadSize(parts[i - 1])
  }

  /** How many bytes of variable-length parts precede part i. */
  function TailPos(parts: seq<Part>, i: nat): nat
    requires i <= |parts|
  {
    if i == 0 then 0 else TailPos(parts, i - 1) + TailSize(parts[i - 1])
  }

  /** Where the bytes of a variable part i start, from the start of the container. */
  function Offset(parts: seq<Part>, i: nat): nat
    requires i <= |parts|
  {
    HeadPos(parts, |parts|) + TailPos(parts, i)
  }

  /** The head of part i: its bytes, or the offset at which they are. */
  function Head(parts: seq<Part>, i: nat): (s: seq<byte>)
    requires i < |parts|
    ensures |s| == HeadSize(parts[i])
  {
    if parts[i].Fixed? then parts[i].bytes else LeBytes(Offset(parts, i), 4)
  }

  function Tail(p: Part): (s: seq<byte>)
    ensures |s| == TailSize(p)
  {
    if p.Fixed? then [] else p.bytes
  }

  function Heads(parts: seq<Part>): (pieces: seq<seq<byte>>)
    ensures |pieces| == |parts|
    ensures forall i :: 0 <= i < |parts| ==> pieces[i] == Head(parts, i)
  {
    seq(|parts|, i requires 0 <= i < |parts| => Head(parts, i))
  }

  function Tails(parts: seq<Part>): (pieces: seq<seq<byte>>)
    ensures |pieces| == |parts|
    ensures forall i :: 0 <= i < |parts| ==> pieces[i] == Tail(parts[i])
  {
    seq(|parts|, i requires 0 <= i < |parts| => Tail(parts[i]))
  }

  function Container(parts: seq<Part>): seq<byte> {
    Join(Heads(parts), |parts|) + Join(Tails(parts), |parts|)
  }

  lemma {:induction false} HeadPosIsPos(parts: seq<Part>, i: nat)
    requires i <= |parts|
    ensures Pos(Heads(parts), i) == HeadPos(parts, i)
  {
    if i == 0 {
    } else {
      HeadPosIsPos(parts, i - 1);
    }
  }

  lemma {:induction false} TailPosIsPos(parts: seq<Part>, i: nat)
    requires i <= |parts|
    ensures Pos(Tails(parts), i) == TailPos(parts, i)
  {
    if i == 0 {
    } else {
      TailPosIsPos(parts, i - 1);
    }
  }

  lemma ContainerSize(parts: seq<Part>)
    ensures |Container(parts)| == Offset(parts, |parts|)
  {
    HeadPosIsPos(parts, |parts|);
    TailPosIsPos(parts, |parts|);
  }

  /** `buf` holds the head of part i where a container of `parts` has it. */
  ghost predicate HeadMatches(parts: seq<Part>, buf: seq<byte>, i: nat)
    requires i < |parts|
  {
    HeadPos(parts, i + 1) <= |buf| && buf[HeadPos(parts, i)..HeadPos(parts, i + 1)] == Head(parts, i)
  }

  /** `buf` holds the bytes of variable part i where a container of `parts` has them. */
  ghost predicate TailMatches(parts: seq<Part>, buf: seq<byte>, i: nat)
    requires i < |parts|
  {
    Offset(parts, i + 1) <= |buf| && buf[Offset(parts, i)..Offset(parts, i + 1)] == Tail(parts[i])
  }

  ghost predicate Matches(parts: seq<Part>, buf: seq<byte>) {
    && |buf| == Offset(parts, |parts|)
    && (forall i :: 0 <= i < |parts| ==> HeadMatches(parts, buf, i))
    && (forall i :: 0 <= i < |parts| ==> TailMatches(parts, buf, i))
  }

  lemma ContainerHead(parts: seq<Part>, i: nat)
    requires i < |parts|
    ensures HeadMatches(parts, Container(parts), i)
  {
    var heads := Heads(parts);
    JoinHolds(heads, i, |parts|);
    HeadPosIsPos(parts, i);
    HeadPosIsPos(parts, i + 1);
    SliceOfLeft(Join(heads, |parts|), Join(Tails(parts), |parts|), Pos(heads, i), Pos(heads, i + 1));
  }

  lemma ContainerTail(parts: seq<Part>, i: nat)
    requires i < |parts|
    ensures TailMatches(parts, Container(parts), i)
  {
    var tails := Tails(parts);
    JoinHolds(tails, i, |parts|);
    TailPosIsPos(parts, i);
    TailPosIsPos(parts, i + 1);
    HeadPosIsPos(parts, |parts|);
    SliceInRight(Join(Heads(parts), |parts|), Join(tails, |parts|), Pos(tails, i), Pos(tails, i + 1));
  }

  /** In the serialization of its parts, each part is found in its place. */
  lemma ContainerMatches(parts: seq<Part>)
    ensures Matches(parts, Container(parts))
  {
    ContainerSize(parts);
    forall i | 0 <= i < |parts|
      ensures HeadMatches(parts, Container(parts), i) && TailMatches(parts, Container(parts), i)
    {
      ContainerHead(parts, i);
      ContainerTail(parts, i);
    }
  }

  lemma HeadsFound(parts: seq<Part>, buf: seq<byte>)
    requires Matches(parts, buf)
    ensures HeadPos(parts, |parts|) <= |buf|
    ensures buf[..HeadPos(parts, |parts|)] == Join(Heads(parts), |parts|)
  {
    forall i | 0 <= i < |parts|
      ensures PieceAt(Heads(parts), buf, i)
    {
      assert HeadMatches(parts, buf, i);
      HeadPosIsPos(parts, i);
      HeadPosIsPos(parts, i + 1);
    }
    JoinDetermined(Heads(parts), buf, |parts|);
    HeadPosIsPos(parts, |parts|);
  }

  lemma TailsFound(parts: seq<Part>, buf: seq<byte>, rest: seq<byte>)
    requires Matches(parts, buf)
    requires HeadPos(parts, |parts|) <= |buf| && rest == buf[HeadPos(parts, |parts|)..]
    ensures rest == Join(Tails(parts), |parts|)
  {
    var h := HeadPos(parts, |parts|);
    forall i | 0 <= i < |parts|
      ensures PieceAt(Tails(parts), rest, i)
    {
      assert TailMatches(parts, buf, i);
      TailPosIsPos(parts, i);
      TailPosIsPos(parts, i + 1);
      SliceOfSuffix(buf, h, TailPos(parts, i), TailPos(parts, i + 1));
    }
    JoinDetermined(Tails(parts), rest, |parts|);
    TailPosIsPos(parts, |parts|);
    SplitAt(rest, |rest|);
  }

  /** A buffer that has each part in its place is the serialization of its parts. */
  lemma MatchesIsContainer(parts: seq<Part>, buf: seq<byte>)
    requires Matches(parts, buf)
    ensures buf == Container(parts)
  {
    var h := HeadPos(parts, |parts|);
    HeadsFound(parts, buf);
    TailsFound(parts, buf, buf[h..]);
    SplitAt(buf, h);
  }

  /**
    * Every offset written is the position where the bytes of its field begin,
    * whenever that position fits the four bytes an offset has.
    */
  lemma OffsetsLocateFields(parts: seq<Part>, i: nat)
    requires i < |parts| && parts[i].Variable?
    requires Offset(parts, i) < TWO_32
    ensures HeadPos(parts, i) + 4 == HeadPos(parts, i + 1) <= |Container(parts)|
    ensures Offset(parts, i) + |parts[i].bytes| == Offset(parts, i + 1) <= |Container(parts)|
    ensures ReadOffset(Container(parts)[HeadPos(parts, i)..HeadPos(parts, i + 1)]) == Offset(parts, i)
    ensures Container(parts)[Offset(parts, i)..Offset(parts, i + 1)] == parts[i].bytes
  {
    ContainerHead(parts, i);
    ContainerTail(parts, i);
    OffsetRoundTrip(Offset(parts, i));
  }

  // ---------- fastssz helpers ----------

  function ReadOffset(b: seq<byte>): nat
    requires |b| >= 4
  {
    LeNat(b[..4])
  }

  /** An offset survives being written exactly when it fits four bytes. */
  lemma OffsetRoundTrip(x: nat)
    ensures ReadOffset(LeBytes(x, 4)) == x % 0x1_0000_0000
    ensures x < TWO_32 <==> ReadOffset(LeBytes(x, 4)) == x
  {
    LeNat32(x);
    assert LeBytes(x, 4)[..4] == LeBytes(x, 4);
  }

  lemma OffsetBytes(b: seq<byte>)
    requires |b| == 4
    ensures b == LeBytes(ReadOffset(b), 4)
    ensures ReadOffset(b) < TWO_32
  {
    Pow256Values();
    LeBytesOfLeNat(b);
    assert b[..4] == b;
  }

  lemma DifferentOffsets(a: seq<byte>, b: seq<byte>)
    requires |a| == |b| == 4 && a != b
    ensures ReadOffset(a) != ReadOffset(b)
  {
    OffsetBytes(a);
    OffsetBytes(b);
  }

  function UnmarshallUint64(b: seq<byte>): (x: uint64)
    requires |b| == 8
    ensures LeBytes(x, 8) == b
  {
    Pow256Values();
    LeBytesOfLeNat(b);
    LeNat(b)
  }

  lemma Uint64RoundTrip(x: uint64)
    ensures UnmarshallUint64(LeBytes(x, 8)) == x
  {
    LeNat64(x);
  }

  /** Number of elements of a list of variable-size elements, from its first offset. */
  function DecodeDynamicLength(buf: seq<byte>, max: nat): Result<nat, SszError> {
    if |buf| == 0 then Ok(0)
    else if |buf| < 4 then Err(ErrDynamicLength)
    else if ReadOffset(buf) % 4 != 0 then Err(ErrDynamicLength)
    else if ReadOffset(buf) / 4 > max then Err(ErrListTooBig)
    else Ok(ReadOffset(buf) / 4)
  }

  /** Number of fixed-size elements in a section. */
  function DivideInt2(a: nat, b: nat, max: nat): Result<nat, SszError>
    requires b > 0
  {
    if a % b != 0 then Err(ErrSize)
    else if a / b > max then Err(ErrListTooBig)
    else Ok(a / b)
  }
}
