/**
  * The auction ring. For each slot modulo the ring size there is one live auction with two
  * maps: the last bid of each builder for each parent, and the best bid for each parent.
  */
module Auctions {
  import opened Common
  import opened Bytes
  import opened BuilderBids

  type Bid = BuilderBidExtended

  datatype LatestKey = LatestKey(builder: Bytes48, parent: Bytes32)

  function Parent(b: Bid): Bytes32 { b.bid.header.fields.parentHash }

  function Value(b: Bid): nat { LeNat(b.bid.value) }

  function Key(b: Bid): LatestKey { LatestKey(b.bid.pubkey, Parent(b)) }

  /** A bid's value is the number whose 32 bytes, least significant first, it carries. */
  lemma ValueIs(b: Bid, x: nat)
    requires x < Pow256(32)
    ensures Value(b) == x <==> b.bid.value == LeBytes(x, 32)
  {
    LeNatOfLeBytes(x, 32);
    LeBytesOfLeNat(b.bid.value);
  }

  // ---------- What an auction should say, from the bids recorded in it ----------

  /** The last bid of every builder for every parent. */
  function LastBids(log: seq<Bid>): map<LatestKey, Bid> {
    if log == [] then map[]
    else LastBids(log[..|log| - 1])[Key(log[|log| - 1]) := log[|log| - 1]]
  }

  ghost predicate IsLast(latest: map<LatestKey, Bid>, parent: Bytes32, b: Bid) {
    Parent(b) == parent && Key(b) in latest && latest[Key(b)] == b
  }

  ghost predicate TopOf(latest: map<LatestKey, Bid>, parent: Bytes32, b: Bid) {
    && IsLast(latest, parent, b)
    && forall k :: k in latest && k.parent == parent ==> Value(latest[k]) <= Value(b)
  }

  /** b is the last bid of its builder for `parent`, and no builder's last bid for it is higher. */
  ghost predicate IsBest(log: seq<Bid>, parent: Bytes32, b: Bid) {
    TopOf(LastBids(log), parent, b)
  }

  ghost predicate HasBid(log: seq<Bid>, parent: Bytes32) {
    exists b :: b in log && Parent(b) == parent
  }

  /** The best-bid map is an index of the last-bid map. */
  ghost predicate Indexes(best: map<Bytes32, Bid>, latest: map<LatestKey, Bid>) {
    && (forall k {:trigger latest[k]} :: k in latest ==> Key(latest[k]) == k)
    && (forall p {:trigger best[p]} :: p in best ==> IsLast(latest, p, best[p]))
    && (forall k {:trigger latest[k]} :: k in latest ==> k.parent in best && Value(latest[k]) <= Value(best[k.parent]))
  }

  lemma {:induction false} LastBidsKeyed(log: seq<Bid>)
    ensures forall k :: k in LastBids(log) ==> Key(LastBids(log)[k]) == k && LastBids(log)[k] in log
    ensures forall b :: b in log ==> Key(b) in LastBids(log)
  {
    if log == [] {
    } else {
      LastBidsKeyed(log[..|log| - 1]);
      assert log == log[..|log| - 1] + [log[|log| - 1]];
    }
  }

  /** It is the last: no later bid has the same builder and parent. */
  lemma {:induction false} LastBidsLast(log: seq<Bid>, k: LatestKey)
    requires k in LastBids(log)
    ensures exists j :: 0 <= j < |log| && log[j] == LastBids(log)[k] && Key(log[j]) == k && NoneAfter(log, j, k)
  {
    var n := |log| - 1;
    if Key(log[n]) == k {
      assert NoneAfter(log, n, k);
    } else {
      LastBidsLast(log[..n], k);
      var j :| 0 <= j < n && log[..n][j] == LastBids(log[..n])[k] && Key(log[..n][j]) == k && NoneAfter(log[..n], j, k);
      assert NoneAfter(log, j, k) by {
        forall i | j < i < |log|
          ensures Key(log[i]) != k
        {
          assert i < n ==> log[i] == log[..n][i];
        }
      }
      assert log[j] == log[..n][j];
    }
  }

  ghost predicate NoneAfter(log: seq<Bid>, j: nat, k: LatestKey) {
    forall i :: j < i < |log| ==> Key(log[i]) != k
  }

  /** Bid j is the last one of its builder for its parent. */
  ghost predicate Stays(log: seq<Bid>, j: nat)
    requires j < |log|
  {
    forall i :: j < i < |log| ==>
                  || log[i].bid.pubkey != log[j].bid.pubkey
                  || log[i].bid.header.fields.parentHash != log[j].bid.header.fields.parentHash
  }

  lemma {:induction false} StaysIsLast(log: seq<Bid>, j: nat)
    requires j < |log|
    ensures Key(log[j]) in LastBids(log)
    ensures Stays(log, j) ==> LastBids(log)[Key(log[j])] == log[j]
  {
    var n := |log| - 1;
    if j < n {
      StaysIsLast(log[..n], j);
      if Stays(log, j) {
        assert forall i :: j < i < n ==> log[..n][i] == log[i];
        assert Key(log[n]) != Key(log[j]);
      }
    }
  }

  lemma LastStays(log: seq<Bid>, k: LatestKey) returns (j: nat)
    requires k in LastBids(log)
    ensures j < |log| && log[j] == LastBids(log)[k] && Key(log[j]) == k && Stays(log, j)
  {
    LastBidsLast(log, k);
    j :| 0 <= j < |log| && log[j] == LastBids(log)[k] && Key(log[j]) == k && NoneAfter(log, j, k);
    assert forall i :: j < i < |log| ==> Key(log[i]) != k;
  }

  /**
    * From the bids alone: a bid is best for a parent exactly when it is for that parent, is the last of its builder
    * for it, and is not below the last bid for it of any builder.
    */
  lemma BestExactlyWhen(log: seq<Bid>, parent: Bytes32, b: Bid)
    ensures IsBest(log, parent, b) <==>
            && b.bid.header.fields.parentHash == parent
            && (exists j :: 0 <= j < |log| && log[j] == b && Stays(log, j))
            && forall i :: 0 <= i < |log| && log[i].bid.header.fields.parentHash == parent && Stays(log, i) ==>
                             LeNat(log[i].bid.value) <= LeNat(b.bid.value)
  {
    if IsBest(log, parent, b) {
      var _ := LastStays(log, Key(b));
      forall i | 0 <= i < |log| && log[i].bid.header.fields.parentHash == parent && Stays(log, i)
        ensures LeNat(log[i].bid.value) <= LeNat(b.bid.value)
      {
        StaysIsLast(log, i);
      }
    } else if b.bid.header.fields.parentHash == parent && exists j :: 0 <= j < |log| && log[j] == b && Stays(log, j) {
      var j :| 0 <= j < |log| && log[j] == b && Stays(log, j);
      StaysIsLast(log, j);
      var k :| k in LastBids(log) && k.parent == parent && Value(LastBids(log)[k]) > Value(b);
      var i := LastStays(log, k);
      assert log[i].bid.header.fields.parentHash == parent && LeNat(log[i].bid.value) > LeNat(b.bid.value);
    }
  }

  lemma LastBidsSnoc(log: seq<Bid>, bid: Bid)
    ensures LastBids(log + [bid]) == LastBids(log)[Key(bid) := bid]
  {
    assert (log + [bid])[..|log|] == log;
  }

  ghost predicate AllFor(log: seq<Bid>, slot: uint64) {
    forall i :: 0 <= i < |log| ==> log[i].slot == slot
  }

  lemma AllForSnoc(log: seq<Bid>, slot: uint64, bid: Bid)
    requires AllFor(log, slot) && bid.slot == slot
    ensures AllFor(log + [bid], slot)
  {
  }

  lemma {:induction false} LastBidsFor(log: seq<Bid>, slot: uint64)
    requires AllFor(log, slot)
    ensures forall k :: k in LastBids(log) ==> LastBids(log)[k].slot == slot
  {
    if log == [] {
    } else {
      LastBidsFor(log[..|log| - 1], slot);
    }
  }

  /** What the index answers is the best bid, and it answers exactly when there is a bid. */
  lemma IndexAnswers(best: map<Bytes32, Bid>, log: seq<Bid>, parent: Bytes32)
    requires Indexes(best, LastBids(log))
    ensures parent in best <==> HasBid(log, parent)
    ensures parent in best ==> IsBest(log, parent, best[parent])
  {
    LastBidsKeyed(log);
    if parent in best {
      assert LastBids(log)[Key(best[parent])] in log;
    }
    if HasBid(log, parent) {
      var b :| b in log && Parent(b) == parent;
      assert Key(b) in LastBids(log);
    }
  }

  /** A bid that beats its parent's best bid, or is the first for its parent, becomes the best. */
  lemma IndexAfterHigher(best: map<Bytes32, Bid>, latest: map<LatestKey, Bid>, bid: Bid)
    requires Indexes(best, latest)
    requires Parent(bid) in best ==> Value(best[Parent(bid)]) <= Value(bid)
    ensures Indexes(best[Parent(bid) := bid], latest[Key(bid) := bid])
  {
  }

  /** A lower bid of a builder that was not winning leaves the best bid alone. */
  lemma IndexAfterLower(best: map<Bytes32, Bid>, latest: map<LatestKey, Bid>, bid: Bid)
    requires Indexes(best, latest)
    requires Parent(bid) in best && Value(best[Parent(bid)]) > Value(bid)
    requires best[Parent(bid)].bid.pubkey != bid.bid.pubkey
    ensures Indexes(best, latest[Key(bid) := bid])
  {
  }

  /** After a builder lowered its own winning bid, any highest last bid may become the best. */
  lemma IndexAfterRerank(best: map<Bytes32, Bid>, latest: map<LatestKey, Bid>, bid: Bid, b: Bid)
    requires Indexes(best, latest)
    requires TopOf(latest[Key(bid) := bid], Parent(bid), b)
    ensures Indexes(best[Parent(bid) := b], latest[Key(bid) := bid])
  {
  }

  ghost predicate BeatsAll(latest: map<LatestKey, Bid>, bid: Bid) {
    forall k :: k in latest && k.parent == Parent(bid) ==> Value(latest[k]) <= Value(bid)
  }

  lemma BeatsBest(best: map<Bytes32, Bid>, latest: map<LatestKey, Bid>, bid: Bid)
    requires Indexes(best, latest)
    ensures BeatsAll(latest, bid) <==> (Parent(bid) in best ==> Value(best[Parent(bid)]) <= Value(bid))
  {
    if Parent(bid) in best && Value(best[Parent(bid)]) <= Value(bid) {
      forall k | k in latest && k.parent == Parent(bid)
        ensures Value(latest[k]) <= Value(bid)
      {
      }
    }
  }

  // ---------- One auction ----------

  datatype AuctionState = AuctionState(
    slot: uint64,
    maxProfit: map<Bytes32, Bid>,
    latestBlockByBuilder: map<LatestKey, Bid>)

  /** An auction's two maps say what the bids recorded in it say. */
  ghost predicate Agrees(a: AuctionState, log: seq<Bid>) {
    && a.latestBlockByBuilder == LastBids(log)
    && Indexes(a.maxProfit, a.latestBlockByBuilder)
    && AllFor(log, a.slot)
  }

  /** The loop over all last bids, in any order, after a builder lowered its winning bid. */
  method Rerank(best: map<Bytes32, Bid>, latest: map<LatestKey, Bid>, bid: Bid)
    returns (maxProfit: map<Bytes32, Bid>, top: Bid)
    requires Key(bid) in latest && latest[Key(bid)] == bid
    requires forall k :: k in latest ==> Key(latest[k]) == k && latest[k].slot == bid.slot
    ensures maxProfit == best[Parent(bid) := top]
    ensures TopOf(latest, Parent(bid), top)
  {
    var parent := Parent(bid);
    maxProfit := best[parent := bid];
    var left := latest.Keys;
    top := bid;
    while left != {}
      invariant left <= latest.Keys
      invariant maxProfit == best[parent := top]
      invariant Parent(top) == parent && Key(top) in latest && latest[Key(top)] == top
      invariant forall k :: k in latest && k !in left && k.parent == parent ==> Value(latest[k]) <= Value(top)
      decreases left
    {
      var k :| k in left;
      var b := latest[k];
      if Parent(b) == parent && bid.slot == b.slot {
        if Value(maxProfit[parent]) <= Value(b) {
          maxProfit := maxProfit[parent := b];
          top := b;
        }
      }
      left := left - {k};
    }
  }

  /** The part of AddBlock that keeps the best-bid map an index of the last-bid map. */
  method Rank(best: map<Bytes32, Bid>, before: map<LatestKey, Bid>, bid: Bid)
    returns (maxProfit: map<Bytes32, Bid>, newMax: bool)
    requires Indexes(best, before)
    requires forall k :: k in before ==> before[k].slot == bid.slot
    ensures Indexes(maxProfit, before[Key(bid) := bid])
    ensures newMax <==> BeatsAll(before, bid)
    ensures newMax ==> maxProfit == best[Parent(bid) := bid]
    ensures !newMax ==> Parent(bid) in best && (best[Parent(bid)].bid.pubkey != bid.bid.pubkey ==> maxProfit == best)
  {
    maxProfit := best;
    BeatsBest(best, before, bid);
    if Parent(bid) !in maxProfit {
      IndexAfterHigher(best, before, bid);
      maxProfit := maxProfit[Parent(bid) := bid];
      return maxProfit, true;
    }
    var mp := maxProfit[Parent(bid)];
    if Value(mp) <= Value(bid) {
      IndexAfterHigher(best, before, bid);
      maxProfit := maxProfit[Parent(bid) := bid];
      return maxProfit, true;
    }
    if mp.bid.pubkey == bid.bid.pubkey && Value(mp) > Value(bid) {
      var top;
      maxProfit, top := Rerank(best, before[Key(bid) := bid], bid);
      IndexAfterRerank(best, before, bid, top);
    } else {
      IndexAfterLower(best, before, bid);
    }
    return maxProfit, bid == mp;
  }

  /** A new maximum is offered from then on; another builder's lower bid leaves the offer as it was. */
  ghost predicate Ranked(before: map<Bytes32, Bid>, after: map<Bytes32, Bid>, bid: Bid, newMax: bool) {
    if newMax then after == before[Parent(bid) := bid]
    else Parent(bid) in before && (before[Parent(bid)].bid.pubkey != bid.bid.pubkey ==> after == before)
  }

  /** AddBlock for a bid of the auction's slot. */
  method Record(a: AuctionState, bid: Bid, ghost log: seq<Bid>) returns (r: AuctionState, newMax: bool)
    requires Agrees(a, log) && bid.slot == a.slot
    ensures r.slot == a.slot && Agrees(r, log + [bid])
    ensures newMax <==> BeatsAll(LastBids(log), bid)
    ensures Ranked(a.maxProfit, r.maxProfit, bid, newMax)
  {
    LastBidsFor(log, a.slot);
    LastBidsSnoc(log, bid);
    AllForSnoc(log, a.slot, bid);
    var maxProfit;
    maxProfit, newMax := Rank(a.maxProfit, a.latestBlockByBuilder, bid);
    r := AuctionState(a.slot, maxProfit, a.latestBlockByBuilder[Key(bid) := bid]);
  }

  // ---------- The ring ----------

  /** An auction object: what the ring's places point to. */
  class Auction {
    var state: AuctionState

    constructor (s: uint64)
      ensures state == AuctionState(s, map[], map[])
    {
      state := AuctionState(s, map[], map[]);
    }
  }

  /** One place of the ring: the slot of its live auction and the bids recorded in it, in order. */
  datatype Round = Round(slot: uint64, log: seq<Bid>)

  /** An auction object's maps stand for the bids of its round. */
  ghost predicate Stands(a: AuctionState, round: Round) {
    a.slot == round.slot && Agrees(a, round.log)
  }

  lemma EmptyStands(a: AuctionState, round: Round)
    requires a == AuctionState(round.slot, map[], map[]) && round.log == []
    ensures Stands(a, round)
  {
  }

  function InitRing(n: nat): (ring: seq<Round>)
    requires 0 < n < TWO_64
    ensures |ring| == n
  {
    seq(n, i requires 0 <= i < n => Round(i, []))
  }

  /**
    * One AddBlock, as the code has it: a bid for a later slot replaces the live auction by an
    * empty one and is recorded in the auction it replaced, which nothing refers to any more.
    */
  function RingStep(ring: seq<Round>, bid: Bid): (r: seq<Round>)
    requires |ring| > 0
    ensures |r| == |ring|
  {
    var i := bid.slot % |ring|;
    var round := ring[i];
    if round.slot > bid.slot then ring
    else if round.slot < bid.slot then ring[i := Round(bid.slot, [])]
    else ring[i := round.(log := round.log + [bid])]
  }

  class Auctioneer {
    var auctions: seq<Auction>
    /** For each place, the slot and the bids its live auction stands for. */
    ghost var ring: seq<Round>

    ghost predicate Valid()
      reads this, auctions
    {
      && 0 < |auctions| == |ring| < TWO_64
      && (forall i, j :: 0 <= i < j < |auctions| ==> auctions[i] != auctions[j])
      && (forall i {:trigger Stands(auctions[i].state, ring[i])} ::
            0 <= i < |auctions| ==> Stands(auctions[i].state, ring[i]))
      && (forall i :: 0 <= i < |auctions| ==> ring[i].slot % |ring| == i)
    }

    constructor (n: nat)
      requires 0 < n < TWO_64
      ensures Valid() && fresh(auctions) && ring == InitRing(n)
    {
      auctions, ring := [], InitRing(n);
      new;
      for i := 0 to n
        invariant |auctions| == i && fresh(auctions) && ring == InitRing(n)
        invariant forall j :: 0 <= j < i ==> auctions[j].state == AuctionState(j, map[], map[])
        invariant forall j, k :: 0 <= j < k < i ==> auctions[j] != auctions[k]
      {
        var a := new Auction(i);
        auctions := auctions + [a];
      }
      forall j | 0 <= j < n
        ensures ring[j].slot % n == j
      {
        SmallMod(j, n);
      }
      forall j | 0 <= j < n
        ensures Stands(auctions[j].state, ring[j])
      {
        EmptyStands(auctions[j].state, ring[j]);
      }
    }

    /** A bid for a later slot: the live auction is replaced, then the replaced one is written to. */
    method Roll(i: nat, bid: Bid)
      requires Valid() && i < |auctions| && i == bid.slot % |auctions|
      modifies this, auctions
      ensures Valid() && forall a :: a in auctions ==> a in old(auctions) || fresh(a)
      ensures ring == old(ring)[i := Round(bid.slot, [])]
    {
      var auction := auctions[i];
      var live := new Auction(bid.slot);
      auctions := auctions[i := live];
      auction.state := auction.state.(maxProfit := auction.state.maxProfit[Parent(bid) := bid]);
      var latest := auction.state.latestBlockByBuilder[Key(bid) := bid];
      auction.state := auction.state.(latestBlockByBuilder := latest);
      ring := ring[i := Round(bid.slot, [])];
      EmptyStands(live.state, ring[i]);
      forall j | 0 <= j < |auctions| && j != i
        ensures Stands(auctions[j].state, ring[j])
      {
        assert old(Stands(auctions[j].state, ring[j]));
      }
    }

    /** Writing through the auction that is live at place i. */
    method Write(i: nat, state: AuctionState, ghost round: Round)
      requires Valid() && i < |auctions| && Stands(state, round) && round.slot == ring[i].slot
      modifies this`ring, auctions
      ensures Valid() && auctions[i].state == state
      ensures ring == old(ring)[i := round]
    {
      auctions[i].state := state;
      ring := ring[i := round];
      forall j | 0 <= j < |auctions| && j != i
        ensures Stands(auctions[j].state, ring[j])
      {
        assert old(Stands(auctions[j].state, ring[j]));
      }
    }

    method RecordAt(i: nat, bid: Bid) returns (newMax: bool)
      requires Valid() && i < |auctions| && ring[i].slot == bid.slot
      modifies this`ring, auctions
      ensures Valid()
      ensures ring == old(ring)[i := Round(bid.slot, old(ring)[i].log + [bid])]
      ensures newMax <==> BeatsAll(LastBids(old(ring)[i].log), bid)
      ensures Ranked(old(auctions[i].state.maxProfit), auctions[i].state.maxProfit, bid, newMax)
    {
      assert Stands(auctions[i].state, ring[i]);
      var state;
      state, newMax := Record(auctions[i].state, bid, ring[i].log);
      Write(i, state, Round(bid.slot, ring[i].log + [bid]));
    }

    method AddBlock(bid: Bid) returns (newMax: bool)
      requires Valid()
      modifies this, auctions
      ensures Valid() && forall a :: a in auctions ==> a in old(auctions) || fresh(a)
      ensures ring == RingStep(old(ring), bid)
      ensures var round := old(ring)[bid.slot % |old(ring)|];
              newMax <==> || round.slot < bid.slot
                          || (round.slot == bid.slot && BeatsAll(LastBids(round.log), bid))
      ensures var i := bid.slot % |auctions|;
              old(ring)[i].slot == bid.slot ==>
                Ranked(old(auctions[i].state.maxProfit), auctions[i].state.maxProfit, bid, newMax)
    {
      var i := bid.slot % |auctions|;
      var slot := auctions[i].state.slot;
      assert Stands(auctions[i].state, ring[i]);
      if slot > bid.slot {
        return false;
      }
      if slot < bid.slot {
        Roll(i, bid);
        return true;
      }
      newMax := RecordAt(i, bid);
    }

    /** The bid to offer for a slot and parent: the best one of the live auction, if it is for that slot. */
    method MaxProfitBlock(slot: uint64, parent: Bytes32) returns (r: Option<Bid>)
      requires Valid()
      ensures var round := ring[slot % |ring|];
              && (r.Some? <==> round.slot == slot && HasBid(round.log, parent))
              && (r.Some? ==> IsBest(round.log, parent, r.value))
      ensures var maxProfit := auctions[slot % |auctions|].state.maxProfit;
              r.Some? ==> parent in maxProfit && r.value == maxProfit[parent]
    {
      var i := slot % |auctions|;
      var state := auctions[i].state;
      assert Stands(state, ring[i]);
      IndexAnswers(state.maxProfit, ring[i].log, parent);
      if parent in state.maxProfit {
        var mp := state.maxProfit[parent];
        LastBidsFor(ring[i].log, state.slot);
        if mp.slot == slot {
          return Some(mp);
        }
      }
      return None;
    }
  }

  lemma SmallMod(j: nat, n: nat)
    requires j < n
    ensures j % n == j
  {
  }
}

/** What the ring holds after any run of AddBlock calls. */
module AuctionRuns {
  import opened Bytes
  import opened Auctions

  function Run(n: nat, bids: seq<Bid>): (ring: seq<Round>)
    requires 0 < n < TWO_64
    ensures |ring| == n
  {
    if bids == [] then InitRing(n) else RingStep(Run(n, bids[..|bids| - 1]), bids[|bids| - 1])
  }

  /** The latest slot that any bid for place i had; i itself to begin with. */
  function TopSlot(n: nat, bids: seq<Bid>, i: nat): uint64
    requires 0 < n < TWO_64 && i < n
  {
    if bids == [] then i
    else
      var top, b := TopSlot(n, bids[..|bids| - 1], i), bids[|bids| - 1];
      if b.slot % n == i && b.slot > top then b.slot else top
  }

  /** The bids for one slot, in order. */
  function ForSlot(bids: seq<Bid>, slot: uint64): seq<Bid> {
    if bids == [] then []
    else
      var rest, b := ForSlot(bids[..|bids| - 1], slot), bids[|bids| - 1];
      if b.slot == slot then rest + [b] else rest
  }

  /** The bids that count, as written: the one that rolled the ring over does not. */
  function LiveLog(n: nat, bids: seq<Bid>, i: nat): seq<Bid>
    requires 0 < n < TWO_64 && i < n
  {
    var slot := TopSlot(n, bids, i);
    var log := ForSlot(bids, slot);
    if slot < n || log == [] then log else log[1..]
  }

  lemma {:induction false} TopSlotBounds(n: nat, bids: seq<Bid>, i: nat)
    requires 0 < n < TWO_64 && i < n
    ensures TopSlot(n, bids, i) % n == i
    ensures TopSlot(n, bids, i) < n ==> TopSlot(n, bids, i) == i
    ensures TopSlot(n, bids, i) >= n ==> ForSlot(bids, TopSlot(n, bids, i)) != []
    ensures forall s: uint64 :: s % n == i && s > TopSlot(n, bids, i) ==> ForSlot(bids, s) == []
  {
    if bids == [] {
      SmallMod(i, n);
    } else {
      TopSlotBounds(n, bids[..|bids| - 1], i);
      if TopSlot(n, bids, i) < n {
        SmallMod(TopSlot(n, bids, i), n);
      }
    }
  }

  /** What one bid does to place i. */
  function RoundStep(round: Round, bid: Bid): Round {
    if round.slot > bid.slot then round
    else if round.slot < bid.slot then Round(bid.slot, [])
    else round.(log := round.log + [bid])
  }

  lemma RingStepAt(ring: seq<Round>, n: nat, bid: Bid, i: nat)
    requires |ring| == n && i < n
    ensures RingStep(ring, bid)[i] == if bid.slot % n == i then RoundStep(ring[i], bid) else ring[i]
  {
  }

  /** Counting one more bid. */
  lemma LiveLogStep(n: nat, before: seq<Bid>, bid: Bid, i: nat)
    requires 0 < n < TWO_64 && i < n
    ensures var round := Round(TopSlot(n, before, i), LiveLog(n, before, i));
            Round(TopSlot(n, before + [bid], i), LiveLog(n, before + [bid], i))
            == if bid.slot % n == i then RoundStep(round, bid) else round
  {
    var bids := before + [bid];
    assert bids[..|bids| - 1] == before;
    TopSlotBounds(n, before, i);
    if bid.slot % n == i && bid.slot > TopSlot(n, before, i) {
      assert ForSlot(before, bid.slot) == [];
      if bid.slot < n {
        SmallMod(bid.slot, n);
      }
    }
  }

  /**
    * As written: after any run of bids, the live auction of a place is for the latest slot
    * bid for there, and stands for that slot's bids except the one that rolled the ring over.
    */
  lemma {:induction false} RunCharacterized(n: nat, bids: seq<Bid>, i: nat)
    requires 0 < n < TWO_64 && i < n
    ensures Run(n, bids)[i] == Round(TopSlot(n, bids, i), LiveLog(n, bids, i))
  {
    if bids == [] {
    } else {
      var before, b := bids[..|bids| - 1], bids[|bids| - 1];
      RunCharacterized(n, before, i);
      RingStepAt(Run(n, before), n, b, i);
      LiveLogStep(n, before, b, i);
      assert before + [b] == bids;
    }
  }

  // ---------- The intended ring ----------

  /** AddBlock as the comment above the roll-over has it: the bid that rolls the ring over is recorded. */
  function IntendedStep(ring: seq<Round>, bid: Bid): (r: seq<Round>)
    requires |ring| > 0
    ensures |r| == |ring|
  {
    var i := bid.slot % |ring|;
    ring[i := IntendedRound(ring[i], bid)]
  }

  function IntendedRound(round: Round, bid: Bid): Round {
    if round.slot > bid.slot then round
    else if round.slot < bid.slot then Round(bid.slot, [bid])
    else round.(log := round.log + [bid])
  }

  function IntendedRun(n: nat, bids: seq<Bid>): (ring: seq<Round>)
    requires 0 < n < TWO_64
    ensures |ring| == n
  {
    if bids == [] then InitRing(n) else IntendedStep(IntendedRun(n, bids[..|bids| - 1]), bids[|bids| - 1])
  }

  /** Every bid for the slot. */
  function IntendedLog(n: nat, bids: seq<Bid>, i: nat): seq<Bid>
    requires 0 < n < TWO_64 && i < n
  {
    ForSlot(bids, TopSlot(n, bids, i))
  }

  lemma IntendedLogStep(n: nat, before: seq<Bid>, bid: Bid, i: nat)
    requires 0 < n < TWO_64 && i < n
    ensures var round := Round(TopSlot(n, before, i), IntendedLog(n, before, i));
            Round(TopSlot(n, before + [bid], i), IntendedLog(n, before + [bid], i))
            == if bid.slot % n == i then IntendedRound(round, bid) else round
  {
    var bids := before + [bid];
    assert bids[..|bids| - 1] == before;
    TopSlotBounds(n, before, i);
    if bid.slot % n == i && bid.slot > TopSlot(n, before, i) {
      assert ForSlot(before, bid.slot) == [];
    }
  }

  /** After any run of bids, the intended auction of a place stands for all bids of the latest slot bid for there. */
  lemma {:induction false} IntendedRunCharacterized(n: nat, bids: seq<Bid>, i: nat)
    requires 0 < n < TWO_64 && i < n
    ensures IntendedRun(n, bids)[i] == Round(TopSlot(n, bids, i), IntendedLog(n, bids, i))
  {
    if bids == [] {
      assert IntendedLog(n, bids, i) == [];
    } else {
      var before, b := bids[..|bids| - 1], bids[|bids| - 1];
      IntendedRunCharacterized(n, before, i);
      IntendedLogStep(n, before, b, i);
      assert before + [b] == bids;
    }
  }

  lemma {:induction false} LastBidsTail(b: Bid, log: seq<Bid>)
    ensures LastBids([b] + log) == map[Key(b) := b] + LastBids(log)
  {
    if log == [] {
      assert [b] + log == [b];
      assert LastBids([b]) == LastBids([])[Key(b) := b];
    } else {
      var init, last := log[..|log| - 1], log[|log| - 1];
      LastBidsTail(b, init);
      assert ([b] + log)[..|log|] == [b] + init;
      assert LastBids([b] + log) == LastBids([b] + init)[Key(last) := last];
    }
  }

  ghost predicate BidAgain(log: seq<Bid>, k: LatestKey) {
    exists j :: 0 <= j < |log| && Key(log[j]) == k
  }

  lemma {:induction false} LastBidsDomain(log: seq<Bid>, k: LatestKey)
    ensures k in LastBids(log) <==> BidAgain(log, k)
  {
    if log == [] {
    } else {
      var init := log[..|log| - 1];
      LastBidsDomain(init, k);
      if BidAgain(init, k) {
        var j :| 0 <= j < |init| && Key(init[j]) == k;
        assert Key(log[j]) == k;
      }
      if j :| 0 <= j < |log| && Key(log[j]) == k {
        assert j < |init| ==> Key(init[j]) == k;
      }
    }
  }

  // ---------- When the code offers what is intended ----------

  /** The same bids may be offered for a parent. */
  ghost predicate SameOffer(log: seq<Bid>, other: seq<Bid>, parent: Bytes32) {
    forall b :: IsBest(log, parent, b) <==> IsBest(other, parent, b)
  }

  /** Some builder's last bid for the same parent is higher. */
  ghost predicate Outbid(latest: map<LatestKey, Bid>, first: Bid) {
    exists k :: k in latest && k.parent == Parent(first) && Value(latest[k]) > Value(first)
  }

  lemma TopWithOneMore(latest: map<LatestKey, Bid>, first: Bid, parent: Bytes32, b: Bid)
    requires forall k :: k in latest ==> Key(latest[k]) == k
    requires parent != Parent(first) || Key(first) in latest || Outbid(latest, first)
    ensures TopOf(latest, parent, b) <==> TopOf(map[Key(first) := first] + latest, parent, b)
  {
    var more := map[Key(first) := first] + latest;
    if Key(first) in latest {
      assert more == latest;
    } else if parent == Parent(first) {
      var k :| k in latest && k.parent == Parent(first) && Value(latest[k]) > Value(first);
      assert k in more && more[k] == latest[k];
    }
  }

  lemma FirstIsTop(latest: map<LatestKey, Bid>, first: Bid)
    requires Key(first) !in latest && !Outbid(latest, first)
    ensures TopOf(map[Key(first) := first] + latest, Parent(first), first)
    ensures !TopOf(latest, Parent(first), first)
  {
  }

  /** Dropping the first bid of a log changes the offer for a parent exactly when it decided it. */
  lemma OfferWithoutFirst(log: seq<Bid>, parent: Bytes32)
    requires log != []
    ensures SameOffer(log[1..], log, parent) <==>
            || Parent(log[0]) != parent
            || BidAgain(log[1..], Key(log[0]))
            || Outbid(LastBids(log[1..]), log[0])
  {
    var first, rest := log[0], log[1..];
    assert log == [first] + rest;
    LastBidsTail(first, rest);
    LastBidsDomain(rest, Key(first));
    LastBidsKeyed(rest);
    if Parent(first) != parent || Key(first) in LastBids(rest) || Outbid(LastBids(rest), first) {
      forall b
        ensures IsBest(rest, parent, b) <==> IsBest(log, parent, b)
      {
        TopWithOneMore(LastBids(rest), first, parent, b);
      }
    } else {
      FirstIsTop(LastBids(rest), first);
      assert IsBest(log, parent, first) && !IsBest(rest, parent, first);
    }
  }

  /**
    * After any run, the code may offer for a parent exactly the bids that are intended if and only if the
    * slot is one of the first n, or the bid that rolled the ring over was for another parent, was
    * followed by another of its builder, or is below some builder's last bid.
    */
  lemma IntendedExactlyWhen(n: nat, bids: seq<Bid>, i: nat, parent: Bytes32)
    requires 0 < n < TWO_64 && i < n
    ensures IntendedRun(n, bids)[i].slot == Run(n, bids)[i].slot
    ensures Run(n, bids)[i].slot >= n ==> IntendedRun(n, bids)[i].log != []
    ensures SameOffer(Run(n, bids)[i].log, IntendedRun(n, bids)[i].log, parent) <==>
            || Run(n, bids)[i].slot < n
            || var log := IntendedRun(n, bids)[i].log;
               || Parent(log[0]) != parent
               || BidAgain(log[1..], Key(log[0]))
               || Outbid(LastBids(log[1..]), log[0])
  {
    RunCharacterized(n, bids, i);
    IntendedRunCharacterized(n, bids, i);
    TopSlotBounds(n, bids, i);
    if TopSlot(n, bids, i) >= n {
      OfferWithoutFirst(IntendedLog(n, bids, i), parent);
    }
  }

  /** A slot past the first n with a single bid offers nothing, although AddBlock reported a new maximum. */
  lemma LoneBidLost(n: nat, bid: Bid)
    requires 0 < n <= bid.slot && n < TWO_64
    ensures Run(n, [bid])[bid.slot % n] == Round(bid.slot, [])
    ensures !HasBid(Run(n, [bid])[bid.slot % n].log, Parent(bid))
  {
    assert [bid][..0] == [];
    assert Run(n, [bid]) == RingStep(InitRing(n), bid);
  }
}
