/** Over every run: when a recorded bid leaves the ring while a header for its slot can still be asked for. */
module NoEarlyEviction {
  import opened Common
  import opened Bytes
  import opened Forks
  import opened SlotWindow
  import opened BeaconState
  import BeaconRuns
  import opened Auctions
  import opened Streaming
  import opened RelayRules
  import opened Cluster
  import opened Scripts

  // ---------- One bid ----------

  /** Every place has an auction for one of its slots, with bids for that slot alone. */
  ghost predicate Placed(ring: seq<Round>, n: nat) {
    && 0 < n == |ring|
    && forall i :: 0 <= i < n ==> ring[i].slot % n == i && AllFor(ring[i].log, ring[i].slot)
  }

  lemma RingStepPlaced(ring: seq<Round>, n: nat, bid: Bid)
    requires Placed(ring, n)
    ensures Placed(RingStep(ring, bid), n)
  {
    var k := bid.slot % n;
    assert AllFor(ring[k].log, ring[k].slot);
    if ring[k].slot == bid.slot {
      AllForSnoc(ring[k].log, ring[k].slot, bid);
    }
  }

  /** The slot of a place is the latest one bid for there. */
  lemma RingStepSlot(ring: seq<Round>, n: nat, bid: Bid, i: nat)
    requires Placed(ring, n) && i < n
    ensures RingStep(ring, bid)[i].slot
         == if bid.slot % n == i && bid.slot > ring[i].slot then bid.slot else ring[i].slot
  {
  }

  /** Too old at this head, in a way that no later head undoes. */
  predicate PastWindow(head: uint64, n: nat, slot: uint64) {
    slot + n < head + 2
  }

  lemma PastIsOld(head: uint64, n: nat, slot: uint64)
    requires 0 < n < TWO_64 && head + 1 < TWO_64 && PastWindow(head, n, slot)
    ensures OldSlot(head, n, slot)
  {
    WindowBounds(head, n, slot);
  }

  /** What a bid throws out of the ring. */
  ghost predicate Evicts(ring: seq<Round>, bid: Bid, b: Bid)
    requires |ring| > 0
  {
    var i := bid.slot % |ring|;
    b in ring[i].log && b !in RingStep(ring, bid)[i].log
  }

  /**
    * A bid from anywhere throws out one of its place that can still be asked for, and is not itself
    * from the future, if and only if it is for a slot past the one after the head.
    */
  lemma EvictsExactlyWhen(ring: seq<Round>, n: nat, head: uint64, bid: Bid, b: Bid)
    requires Placed(ring, n) && n < TWO_64 && head + 1 < TWO_64
    requires b in ring[bid.slot % n].log && b.slot <= head + 1 && !OldSlot(head, n, b.slot)
    ensures Evicts(ring, bid, b) <==> bid.slot > head + 1
  {
    var i := bid.slot % n;
    assert ring[i].slot % n == i && AllFor(ring[i].log, ring[i].slot);
    RingStepPlaced(ring, n, bid);
    assert AllFor(RingStep(ring, bid)[i].log, RingStep(ring, bid)[i].slot);
    if b.slot < bid.slot <= head + 1 {
      BeaconRuns.SamePlace(b.slot, bid.slot, n);
      PastIsOld(head, n, b.slot);
    }
  }

  // ---------- What a step does to the ring and the head ----------

  /** The bid that a step of a relay hands to AddBlock: its own, or one from the stream. */
  function TakenBid(cfg: Config, c: State, p: Replica, step: Step): Option<Bid> {
    match step
    case Record(s, _) =>
      if Bids(cfg, p, s) then Some(ToBid(s, PayloadToHeader(cfg.h, s.payload).value)) else None
    case ReceiveBid(msg) =>
      if msg in c.bids && HandleBid(cfg.bidJson, msg).Ok? then Some(HandleBid(cfg.bidJson, msg).value) else None
    case _ => None
  }

  lemma LocalRing(cfg: Config, c: State, p: Replica, step: Step)
    requires Live(p)
    ensures var bid := TakenBid(cfg, c, p, step);
            Local(cfg, c, p, step).ring == if bid.Some? then RingStep(p.ring, bid.value) else p.ring
  {
  }

  /** The head only rises, and stays below the last slot of all, since an event names the slot after it. */
  lemma HeadNeverFalls(cfg: Config, c: State, p: Replica, step: Step)
    requires Live(p)
    ensures HeadSlot(p.beacon) <= HeadSlot(Local(cfg, c, p, step).beacon)
    ensures HeadSlot(p.beacon) + 1 < TWO_64 ==> HeadSlot(Local(cfg, c, p, step).beacon) + 1 < TWO_64
  {
    if step.HeadEvent? {
      BeaconRuns.StepShape(p.beacon, step.ev);
    }
  }

  ghost predicate Inv(p: Replica, n: nat) {
    0 < n < TWO_64 && Placed(p.ring, n) && |p.beacon.slots| == n && HeadSlot(p.beacon) + 1 < TWO_64
  }

  lemma LocalKeepsInv(cfg: Config, c: State, p: Replica, step: Step, n: nat)
    requires Inv(p, n)
    ensures Inv(Local(cfg, c, p, step), n)
  {
    LocalRing(cfg, c, p, step);
    HeadNeverFalls(cfg, c, p, step);
    var bid := TakenBid(cfg, c, p, step);
    if bid.Some? {
      RingStepPlaced(p.ring, n, bid.value);
    }
  }

  lemma InitInv(n: nat, fork: ForkState)
    requires 0 < n < TWO_64
    ensures Inv(InitReplica(n, fork), n)
  {
    forall i | 0 <= i < n
      ensures InitRing(n)[i].slot % n == i
    {
      SmallMod(i, n);
    }
  }

  lemma {:induction false} RunKeepsInv(cfg: Config, c: State, acts: seq<Action>, r: nat, n: nat)
    requires r < |c.replicas| && Inv(c.replicas[r], n)
    ensures var d := RunFrom(cfg, c, acts); r < |d.replicas| && Inv(d.replicas[r], n)
    decreases |acts|
  {
    if acts == [] {
    } else {
      if acts[0].at == r {
        LocalKeepsInv(cfg, c, c.replicas[r], acts[0].step, n);
      }
      RunKeepsInv(cfg, Next(cfg, c, acts[0]), acts[1..], r, n);
    }
  }

  // ---------- Runs ----------

  /** A bid that this step takes at place i is for at most the slot after the head at that moment. */
  ghost predicate NearAt(cfg: Config, c: State, p: Replica, step: Step, n: nat, i: nat)
    requires n > 0
  {
    var bid := TakenBid(cfg, c, p, step);
    bid.Some? && bid.value.slot % n == i ==> bid.value.slot <= HeadSlot(p.beacon) + 1
  }

  /** So are all bids that relay r takes at place i in a run. */
  ghost predicate AllNear(cfg: Config, c: State, acts: seq<Action>, r: nat, n: nat, i: nat)
    requires n > 0
    decreases |acts|
  {
    acts == [] ||
    (&& (acts[0].at == r && r < |c.replicas| ==> NearAt(cfg, c, c.replicas[r], acts[0].step, n, i))
     && AllNear(cfg, Next(cfg, c, acts[0]), acts[1..], r, n, i))
  }

  /** A bid is still in its place's live auction, or its slot is past the window. */
  ghost predicate Kept(p: Replica, n: nat, i: nat, b: Bid)
    requires i < |p.ring|
  {
    b in p.ring[i].log || PastWindow(HeadSlot(p.beacon), n, b.slot)
  }

  lemma NearKeeps(ring: seq<Round>, n: nat, head: uint64, i: nat, b: Bid, bid: Bid)
    requires Placed(ring, n) && i < n && b in ring[i].log
    requires bid.slot % n == i ==> bid.slot <= head + 1
    ensures b in RingStep(ring, bid)[i].log || PastWindow(head, n, b.slot)
  {
    assert ring[i].slot % n == i && AllFor(ring[i].log, ring[i].slot);
    if bid.slot % n == i && ring[i].slot < bid.slot {
      BeaconRuns.SamePlace(ring[i].slot, bid.slot, n);
    }
  }

  lemma LocalKeepsBid(cfg: Config, c: State, p: Replica, step: Step, n: nat, i: nat, b: Bid)
    requires Inv(p, n) && i < n && Kept(p, n, i, b) && NearAt(cfg, c, p, step, n, i)
    ensures Kept(Local(cfg, c, p, step), n, i, b)
  {
    HeadNeverFalls(cfg, c, p, step);
    LocalRing(cfg, c, p, step);
    var bid := TakenBid(cfg, c, p, step);
    if bid.Some? && b in p.ring[i].log {
      NearKeeps(p.ring, n, HeadSlot(p.beacon), i, b, bid.value);
    }
  }

  lemma {:induction false} RunKeepsBid(cfg: Config, c: State, acts: seq<Action>, r: nat, n: nat, i: nat, b: Bid)
    requires r < |c.replicas| && Inv(c.replicas[r], n) && i < n && Kept(c.replicas[r], n, i, b)
    requires AllNear(cfg, c, acts, r, n, i)
    ensures var d := RunFrom(cfg, c, acts); r < |d.replicas| && Inv(d.replicas[r], n) && Kept(d.replicas[r], n, i, b)
    decreases |acts|
  {
    if acts == [] {
    } else {
      if acts[0].at == r {
        LocalKeepsInv(cfg, c, c.replicas[r], acts[0].step, n);
        LocalKeepsBid(cfg, c, c.replicas[r], acts[0].step, n, i, b);
      }
      RunKeepsBid(cfg, Next(cfg, c, acts[0]), acts[1..], r, n, i, b);
    }
  }

  /** The slot of a place never goes back. */
  lemma LocalKeepsSlot(cfg: Config, c: State, p: Replica, step: Step, n: nat, i: nat)
    requires Inv(p, n) && i < n
    ensures Local(cfg, c, p, step).ring[i].slot >= p.ring[i].slot
    ensures var bid := TakenBid(cfg, c, p, step);
            bid.Some? && bid.value.slot % n == i ==> Local(cfg, c, p, step).ring[i].slot >= bid.value.slot
  {
    LocalRing(cfg, c, p, step);
    var bid := TakenBid(cfg, c, p, step);
    if bid.Some? {
      RingStepSlot(p.ring, n, bid.value, i);
    }
  }

  lemma {:induction false} RunKeepsSlot(cfg: Config, c: State, acts: seq<Action>, r: nat, n: nat, i: nat)
    requires r < |c.replicas| && Inv(c.replicas[r], n) && i < n
    ensures var d := RunFrom(cfg, c, acts);
            r < |d.replicas| && Inv(d.replicas[r], n) && d.replicas[r].ring[i].slot >= c.replicas[r].ring[i].slot
    decreases |acts|
  {
    if acts == [] {
    } else {
      if acts[0].at == r {
        LocalKeepsInv(cfg, c, c.replicas[r], acts[0].step, n);
        LocalKeepsSlot(cfg, c, c.replicas[r], acts[0].step, n, i);
      }
      RunKeepsSlot(cfg, Next(cfg, c, acts[0]), acts[1..], r, n, i);
    }
  }

  /** After a bid from the future, a place is past every slot up to the one after the head for good. */
  lemma {:induction false} FarRunPasses(cfg: Config, c: State, acts: seq<Action>, r: nat, n: nat, i: nat, slot: uint64)
    requires r < |c.replicas| && Inv(c.replicas[r], n) && i < n
    requires slot <= HeadSlot(c.replicas[r].beacon) + 1 && !AllNear(cfg, c, acts, r, n, i)
    ensures var d := RunFrom(cfg, c, acts);
            r < |d.replicas| && Inv(d.replicas[r], n) && d.replicas[r].ring[i].slot > slot
    decreases |acts|
  {
    var a, d, p := acts[0], Next(cfg, c, acts[0]), c.replicas[r];
    if a.at == r {
      LocalKeepsInv(cfg, c, p, a.step, n);
      LocalKeepsSlot(cfg, c, p, a.step, n, i);
      HeadNeverFalls(cfg, c, p, a.step);
    }
    if a.at == r && !NearAt(cfg, c, p, a.step, n, i) {
      RunKeepsSlot(cfg, d, acts[1..], r, n, i);
    } else {
      FarRunPasses(cfg, d, acts[1..], r, n, i, slot);
    }
  }

  lemma PassedIsGone(p: Replica, n: nat, i: nat, b: Bid)
    requires Inv(p, n) && i < n && p.ring[i].slot > b.slot
    ensures b !in p.ring[i].log
  {
    assert AllFor(p.ring[i].log, p.ring[i].slot);
  }

  /**
    * In every run, whatever the ring size and whatever is streamed: a bid that was in the ring for a slot up to
    * the one after the head, and for whose slot GetHeader does not answer that it is old, is still
    * there if and only if every bid that the relay took since at its place was, when taken, for at
    * most the slot after the head.
    */
  lemma KeptExactlyWhen(cfg: Config, relays: nat, n: nat, fork: ForkState, before: seq<Action>, after: seq<Action>,
                        r: nat, i: nat, b: Bid)
    requires 0 < n < TWO_64 && r < relays && i < n
    requires var c := RunFrom(cfg, Cluster.Init(relays, n, fork), before);
             var d := RunFrom(cfg, c, after);
             && r < |c.replicas| && i < |c.replicas[r].ring| && b in c.replicas[r].ring[i].log
             && b.slot <= HeadSlot(c.replicas[r].beacon) + 1
             && r < |d.replicas| && i < |d.replicas[r].ring|
             && !OldSlot(HeadSlot(d.replicas[r].beacon), n, b.slot)
    ensures var c := RunFrom(cfg, Cluster.Init(relays, n, fork), before);
            b in RunFrom(cfg, c, after).replicas[r].ring[i].log <==> AllNear(cfg, c, after, r, n, i)
  {
    var c := RunFrom(cfg, Cluster.Init(relays, n, fork), before);
    var d := RunFrom(cfg, c, after);
    InitInv(n, fork);
    RunKeepsInv(cfg, Cluster.Init(relays, n, fork), before, r, n);
    if AllNear(cfg, c, after, r, n, i) {
      RunKeepsBid(cfg, c, after, r, n, i, b);
      if PastWindow(HeadSlot(d.replicas[r].beacon), n, b.slot) {
        PastIsOld(HeadSlot(d.replicas[r].beacon), n, b.slot);
      }
    } else {
      FarRunPasses(cfg, c, after, r, n, i, b.slot);
      PassedIsGone(d.replicas[r], n, i, b);
    }
  }

  // ---------- A relay's own bids are always near ----------

  ghost predicate NearIn(p: Replica, subs: set<Submission>) {
    forall s :: s in subs ==> s.message.slot <= HeadSlot(p.beacon) + 1
  }

  /** Every submission that got past the range check is for at most the slot after the head. */
  ghost predicate OwnNear(p: Replica) {
    && p.stored <= p.admitted <= p.verified && p.unrooted <= p.verified
    && NearIn(p, p.asked) && NearIn(p, p.verified)
  }

  lemma VerifiedBound(cfg: Config, p: Replica, s: Submission)
    requires 0 < |p.beacon.slots| < TWO_64 && HeadSlot(p.beacon) + 1 < TWO_64
    requires s.message.slot > 0 && !VerdictOn(cfg, p, s).Refused?
    ensures s.message.slot <= HeadSlot(p.beacon) + 1
  {
    VerdictExactlyWhen(s, cfg.genesisTime, HeadSlot(p.beacon), |p.beacon.slots|, RandaoFor(p, s));
    WindowBounds(HeadSlot(p.beacon), |p.beacon.slots|, s.message.slot);
  }

  lemma LocalKeepsOwnNear(cfg: Config, c: State, p: Replica, step: Step, n: nat)
    requires Inv(p, n) && OwnNear(p)
    ensures OwnNear(Local(cfg, c, p, step))
  {
    HeadNeverFalls(cfg, c, p, step);
    if step.Verify? && Readable(p, step.s) && !VerdictOn(cfg, p, step.s).Refused? {
      VerifiedBound(cfg, p, step.s);
    }
  }

  lemma {:induction false} RunKeepsOwnNear(cfg: Config, c: State, acts: seq<Action>, r: nat, n: nat)
    requires r < |c.replicas| && Inv(c.replicas[r], n) && OwnNear(c.replicas[r])
    ensures var d := RunFrom(cfg, c, acts); r < |d.replicas| && Inv(d.replicas[r], n) && OwnNear(d.replicas[r])
    decreases |acts|
  {
    if acts == [] {
    } else {
      if acts[0].at == r {
        LocalKeepsInv(cfg, c, c.replicas[r], acts[0].step, n);
        LocalKeepsOwnNear(cfg, c, c.replicas[r], acts[0].step, n);
      }
      RunKeepsOwnNear(cfg, Next(cfg, c, acts[0]), acts[1..], r, n);
    }
  }

  /** Each bid that relay r takes from the stream is, when taken, for at most the slot after the head. */
  ghost predicate StreamedNear(cfg: Config, c: State, acts: seq<Action>, r: nat)
    decreases |acts|
  {
    acts == [] ||
    (&& (acts[0].at == r && r < |c.replicas| && acts[0].step.ReceiveBid? ==>
           var bid := TakenBid(cfg, c, c.replicas[r], acts[0].step);
           bid.Some? ==> bid.value.slot <= HeadSlot(c.replicas[r].beacon) + 1)
     && StreamedNear(cfg, Next(cfg, c, acts[0]), acts[1..], r))
  }

  lemma {:induction false} StreamedNearIsEnough(cfg: Config, c: State, acts: seq<Action>, r: nat, n: nat, i: nat)
    requires r < |c.replicas| && Inv(c.replicas[r], n) && OwnNear(c.replicas[r]) && StreamedNear(cfg, c, acts, r)
    ensures AllNear(cfg, c, acts, r, n, i)
    decreases |acts|
  {
    if acts == [] {
    } else {
      if acts[0].at == r {
        LocalKeepsInv(cfg, c, c.replicas[r], acts[0].step, n);
        LocalKeepsOwnNear(cfg, c, c.replicas[r], acts[0].step, n);
      }
      StreamedNearIsEnough(cfg, Next(cfg, c, acts[0]), acts[1..], r, n, i);
    }
  }

  /**
    * So at a relay that takes no bid from the stream that is past the slot after its head, a bid that leaves
    * the ring is for a slot for which GetHeader then answers that it is old.
    */
  lemma EvictedOnlyWhenOld(cfg: Config, relays: nat, n: nat, fork: ForkState, before: seq<Action>, after: seq<Action>,
                           r: nat, i: nat, b: Bid)
    requires 0 < n < TWO_64 && r < relays && i < n
    requires var c := RunFrom(cfg, Cluster.Init(relays, n, fork), before);
             var d := RunFrom(cfg, c, after);
             && r < |c.replicas| && i < |c.replicas[r].ring| && b in c.replicas[r].ring[i].log
             && StreamedNear(cfg, c, after, r)
             && r < |d.replicas| && i < |d.replicas[r].ring| && b !in d.replicas[r].ring[i].log
    ensures var d := RunFrom(cfg, RunFrom(cfg, Cluster.Init(relays, n, fork), before), after);
            OldSlot(HeadSlot(d.replicas[r].beacon), n, b.slot)
  {
    var c := RunFrom(cfg, Cluster.Init(relays, n, fork), before);
    InitInv(n, fork);
    RunKeepsOwnNear(cfg, Cluster.Init(relays, n, fork), before, r, n);
    StreamedNearIsEnough(cfg, c, after, r, n, i);
    RunKeepsBid(cfg, c, after, r, n, i, b);
    PastIsOld(HeadSlot(RunFrom(cfg, c, after).replicas[r].beacon), n, b.slot);
  }

  // ---------- A run in which a bid leaves early ----------

  /** Relay 0 learns of a parent n slots ahead, accepts a submission that builds on it and publishes its bid. */
  function Overtaking(t: Submission, ahead: Bytes32): seq<Action> {
    [Action(0, HeadEvent(EventFor(t, ahead)))] + Submit(0, t, false, true)
  }

  lemma OvertakingRun(cfg: Config, c: State, n: nat, fork: ForkState, t: Submission, ahead: Bytes32, msg: Message)
    requires 0 < n < TWO_64 && |c.replicas| == 2 && c.replicas[0] == InitReplica(n, fork)
    requires Proper(cfg, n, fork, t) && VerifyWithdrawals(cfg.h, t, ahead) == WithdrawalsOk
    requires PayloadToHeader(cfg.h, t.payload).Some?
    requires PublishBid(cfg.bidJson, ForkCapella, BidOf(cfg.h, t)) == Ok(msg)
    ensures var d := RunFrom(cfg, c, Overtaking(t, ahead));
            |d.replicas| == 2 && d.replicas[1] == c.replicas[1] && msg in d.bids
  {
    var a, p := Action(0, HeadEvent(EventFor(t, ahead))), Announced(n, fork, t, ahead);
    ProperPasses(cfg, n, fork, t, ahead);
    var c1 := c.(replicas := c.replicas[0 := p]);
    assert Next(cfg, c, a) == c1;
    RunOne(cfg, c, a);
    SubmitRun(cfg, c1, 0, t, false, true);
    RunAppend(cfg, c, [a], Submit(0, t, false, true));
  }

  lemma SameRemainder(n: nat, q: nat, r: nat, p: nat, t: nat)
    requires r < n && t < n && n * q + r == n * p + t
    ensures r == t
  {
    if q < p {
      BeaconRuns.TimesMonotone(n, q + 1, p);
    } else if p < q {
      BeaconRuns.TimesMonotone(n, p + 1, q);
    }
  }

  /** One round further on is the same place. */
  lemma OnePlaceOn(x: nat, n: nat)
    requires n > 0
    ensures (x + n) % n == x % n
  {
    var y := x + n;
    assert x == n * (x / n) + x % n && y == n * (y / n) + y % n;
    assert n * (x / n + 1) == n * (x / n) + n;
    SameRemainder(n, y / n, y % n, x / n + 1, x % n);
  }

  lemma RollsOver(ring: seq<Round>, n: nat, b: Bid, next: Bid)
    requires 0 < n == |ring| && next.slot == b.slot + n && ring[b.slot % n].slot == b.slot
    ensures next.slot % n == b.slot % n && RingStep(ring, next)[b.slot % n] == Round(next.slot, [])
  {
    OnePlaceOn(b.slot, n);
  }

  lemma NextIsNotOld(head: uint64, n: nat)
    requires 0 < n < TWO_64 && head + 1 < TWO_64 && n <= head + 2
    ensures !OldSlot(head, n, head + 1)
  {
    WindowBounds(head, n, head + 1);
  }

  lemma TookIt(cfg: Config, c: State, p: Replica, msg: Message, next: Bid)
    requires |p.ring| > 0 && msg in c.bids && HandleBid(cfg.bidJson, msg) == Ok(next)
    ensures TookBid(cfg, c, p, msg) == p.(ring := RingStep(p.ring, next))
  {
  }

  /** The best bid of its auction, for the slot after the head. */
  ghost predicate HasBest(p: Replica, n: nat, b: Bid) {
    && 0 < n == |p.ring| && b.slot == HeadSlot(p.beacon) + 1
    && var round := p.ring[b.slot % n];
    round.slot == b.slot && b in round.log && IsBest(round.log, Parent(b), b)
  }

  /** The bid is gone, and its slot is not old. */
  ghost predicate LostEarly(p: Replica, n: nat, b: Bid) {
    0 < n == |p.ring| && b !in p.ring[b.slot % n].log && !OldSlot(HeadSlot(p.beacon), n, b.slot)
  }

  lemma TakingLoses(cfg: Config, c: State, n: nat, b: Bid, next: Bid, msg: Message)
    requires |c.replicas| == 2 && Live(c.replicas[1]) && HasBest(c.replicas[1], n, b)
    requires n < TWO_64 && n <= b.slot + 1 && next.slot == b.slot + n
    requires msg in c.bids && HandleBid(cfg.bidJson, msg) == Ok(next)
    ensures var d := RunFrom(cfg, c, [Action(1, ReceiveBid(msg))]); |d.replicas| == 2 && LostEarly(d.replicas[1], n, b)
  {
    var p, a := c.replicas[1], Action(1, ReceiveBid(msg));
    TookIt(cfg, c, p, msg, next);
    RollsOver(p.ring, n, b, next);
    NextIsNotOld(HeadSlot(p.beacon), n);
    RunOne(cfg, c, a);
    assert Next(cfg, c, a).replicas == c.replicas[1 := TookBid(cfg, c, p, msg)];
  }

  lemma OfferedHasBest(cfg: Config, n: nat, fork: ForkState, s: Submission, root: Bytes32)
    requires 0 < n < TWO_64 && Passes(cfg, Announced(n, fork, s, root), s, false)
    requires HeadSlot(Announced(n, fork, s, root).beacon) == s.message.slot - 1
    ensures HasBest(SubmittedTwice(cfg, Announced(n, fork, s, root), s, false), n, BidOf(cfg.h, s))
  {
    BestAfterTwo(n, BidOf(cfg.h, s));
  }

  /**
    * From two new relays: relay 1 has the best bid for the slot after its head; relay 0, n slots ahead, publishes
    * one for the same place. Relay 1 takes it and loses its bid, although a header for its slot can still be
    * asked for.
    */
  lemma StreamedBidEvictsEarly(cfg: Config, n: nat, fork: ForkState, s: Submission, root: Bytes32, t: Submission,
                               ahead: Bytes32, msg: Message)
    requires 0 < n < TWO_64 && Proper(cfg, n, fork, s) && VerifyWithdrawals(cfg.h, s, root) == WithdrawalsOk
    requires Proper(cfg, n, fork, t) && VerifyWithdrawals(cfg.h, t, ahead) == WithdrawalsOk
    requires t.message.slot == s.message.slot + n
    requires PayloadToHeader(cfg.h, s.payload).Some? && PayloadToHeader(cfg.h, t.payload).Some?
    requires PublishBid(cfg.bidJson, ForkCapella, BidOf(cfg.h, t)) == Ok(msg)
    ensures var c := RunFrom(cfg, Cluster.Init(2, n, fork), Offering(1, s, root) + Overtaking(t, ahead));
            var d := RunFrom(cfg, c, [Action(1, ReceiveBid(msg))]);
            var b := BidOf(cfg.h, s);
            && |c.replicas| == 2 && HasBest(c.replicas[1], n, b)
            && |d.replicas| == 2 && LostEarly(d.replicas[1], n, b)
  {
    var c := RunFrom(cfg, Cluster.Init(2, n, fork), Offering(1, s, root) + Overtaking(t, ahead));
    OvertakenState(cfg, n, fork, s, root, t, ahead, msg);
    OfferedHasBest(cfg, n, fork, s, root);
    BidArrives(cfg.bidJson, ForkCapella, BidOf(cfg.h, t));
    TakingLoses(cfg, c, n, BidOf(cfg.h, s), BidOf(cfg.h, t), msg);
  }

  /** Both relays before the bid is taken. */
  lemma OvertakenState(cfg: Config, n: nat, fork: ForkState, s: Submission, root: Bytes32, t: Submission,
                       ahead: Bytes32, msg: Message)
    requires 0 < n < TWO_64 && Proper(cfg, n, fork, s) && VerifyWithdrawals(cfg.h, s, root) == WithdrawalsOk
    requires Proper(cfg, n, fork, t) && VerifyWithdrawals(cfg.h, t, ahead) == WithdrawalsOk
    requires PayloadToHeader(cfg.h, s.payload).Some? && PayloadToHeader(cfg.h, t.payload).Some?
    requires PublishBid(cfg.bidJson, ForkCapella, BidOf(cfg.h, t)) == Ok(msg)
    ensures Passes(cfg, Announced(n, fork, s, root), s, false)
    ensures HeadSlot(Announced(n, fork, s, root).beacon) == s.message.slot - 1
    ensures var c := RunFrom(cfg, Cluster.Init(2, n, fork), Offering(1, s, root) + Overtaking(t, ahead));
            && |c.replicas| == 2 && msg in c.bids
            && c.replicas[1] == SubmittedTwice(cfg, Announced(n, fork, s, root), s, false)
  {
    var init := Cluster.Init(2, n, fork);
    ProperPasses(cfg, n, fork, s, root);
    OfferingRun(cfg, init, 1, n, fork, s, root);
    OvertakingRun(cfg, RunFrom(cfg, init, Offering(1, s, root)), n, fork, t, ahead, msg);
    RunAppend(cfg, init, Offering(1, s, root), Overtaking(t, ahead));
  }
}
