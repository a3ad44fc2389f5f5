/** Pieces of runs, with what they lead to: the runs that show where a promise fails are put together from these. */
module Scripts {
  import opened Common
  import opened Bytes
  import opened Forks
  import opened BuilderBids
  import opened BlockTraces
  import opened SlotWindow
  import BeaconState
  import opened SlotManager
  import BeaconRuns
  import opened Auctions
  import opened Streaming
  import opened RelayRules
  import opened Cluster

  // ---------- A call of SubmitBlock that nothing interrupts ----------

  /** From a first read that passes, or from the second read. */
  function Submit(r: nat, s: Submission, again: bool, publish: bool): seq<Action> {
    [ Action(r, if again then VerifyLater(s) else Verify(s)), Action(r, CheckWithdrawals(s, true)),
      Action(r, PutPayload(s)), Action(r, Record(s, publish)) ]
  }

  /** The relay gets as far as making a bid. */
  ghost predicate Passes(cfg: Config, p: Replica, s: Submission, again: bool) {
    && Live(p) && Readable(p, s)
    && (if again then s in p.asked && VerifyAgain(s, RandaoFor(p, s)).None? else VerdictOn(cfg, p, s) == Verified)
    && VerifyWithdrawals(cfg.h, s, RootFor(p, s)) == WithdrawalsOk
    && CapellaAt(p, s.message.slot)
    && ToEntry(cfg.h, s).Some? && PayloadToHeader(cfg.h, s.payload).Some?
  }

  function BidOf(h: Hasher, s: Submission): Bid
    requires PayloadToHeader(h, s.payload).Some?
  {
    ToBid(s, PayloadToHeader(h, s.payload).value)
  }

  function Verifying(p: Replica, s: Submission, again: bool): Replica {
    p.(verified := p.verified + {s}, reverified := if again then p.reverified + {s} else p.reverified)
  }

  function Submitted(cfg: Config, p: Replica, s: Submission, again: bool): Replica
    requires |p.ring| > 0 && PayloadToHeader(cfg.h, s.payload).Some?
  {
    Verifying(p, s, again).(admitted := p.admitted + {s}, stored := p.stored + {s},
    ring := RingStep(p.ring, BidOf(cfg.h, s)))
  }

  /** The messages on the stream, with the bid's if it was published. */
  function BidsWith(cfg: Config, bids: set<Message>, b: Bid, publish: bool): set<Message> {
    var msg := PublishBid(cfg.bidJson, ForkCapella, b);
    if publish && msg.Ok? then bids + {msg.value} else bids
  }

  function AfterSubmit(cfg: Config, c: State, r: nat, s: Submission, again: bool, publish: bool): State
    requires r < |c.replicas| && Passes(cfg, c.replicas[r], s, again)
  {
    c.(store := c.store[StoreKey(s) := ToEntry(cfg.h, s).value],
    replicas := c.replicas[r := Submitted(cfg, c.replicas[r], s, again)],
    bids := BidsWith(cfg, c.bids, BidOf(cfg.h, s), publish),
    entered := c.entered + {s})
  }

  lemma AdmitSteps(cfg: Config, c: State, r: nat, s: Submission, again: bool)
    requires r < |c.replicas| && Passes(cfg, c.replicas[r], s, again)
    ensures var p, acts := c.replicas[r], Submit(r, s, again, false);
            Next(cfg, Next(cfg, c, acts[0]), acts[1])
            == c.(replicas := c.replicas[r := Verifying(p, s, again).(admitted := p.admitted + {s})])
  {
    var p, acts := c.replicas[r], Submit(r, s, again, false);
    var p1 := Verifying(p, s, again);
    var p2 := p1.(admitted := p.admitted + {s});
    var c1 := c.(replicas := c.replicas[r := p1]);
    assert Next(cfg, c, acts[0]) == c1;
    assert c1.replicas[r := p2] == c.replicas[r := p2];
    assert Next(cfg, c1, acts[1]) == c.(replicas := c.replicas[r := p2]);
  }

  lemma StoreSteps(cfg: Config, c: State, r: nat, s: Submission, publish: bool)
    requires r < |c.replicas| && Live(c.replicas[r]) && s in c.replicas[r].admitted
    requires CapellaAt(c.replicas[r], s.message.slot)
    requires ToEntry(cfg.h, s).Some? && PayloadToHeader(cfg.h, s.payload).Some?
    ensures var p, b := c.replicas[r], BidOf(cfg.h, s);
            Next(cfg, Next(cfg, c, Action(r, PutPayload(s))), Action(r, Record(s, publish)))
            == State(c.store[StoreKey(s) := ToEntry(cfg.h, s).value],
                     c.replicas[r := p.(stored := p.stored + {s}, ring := RingStep(p.ring, b))],
                     BidsWith(cfg, c.bids, b, publish), c.blocks, c.entered + {s})
  {
    var p, b := c.replicas[r], BidOf(cfg.h, s);
    var p1 := p.(stored := p.stored + {s});
    var p2 := p1.(ring := RingStep(p.ring, b));
    var store := c.store[StoreKey(s) := ToEntry(cfg.h, s).value];
    var c1 := State(store, c.replicas[r := p1], c.bids, c.blocks, c.entered + {s});
    assert Next(cfg, c, Action(r, PutPayload(s))) == c1;
    assert c1.replicas[r := p2] == c.replicas[r := p2];
  }

  lemma RunFour(cfg: Config, c: State, acts: seq<Action>)
    requires |acts| == 4
    ensures RunFrom(cfg, c, acts) == Next(cfg, Next(cfg, Next(cfg, Next(cfg, c, acts[0]), acts[1]), acts[2]), acts[3])
  {
    assert acts == [acts[0]] + [acts[1]] + [acts[2]] + [acts[3]];
    RunOne(cfg, c, acts[0]);
    RunSnoc(cfg, c, [acts[0]], acts[1]);
    RunSnoc(cfg, c, [acts[0]] + [acts[1]], acts[2]);
    RunSnoc(cfg, c, [acts[0]] + [acts[1]] + [acts[2]], acts[3]);
  }

  lemma SubmitRun(cfg: Config, c: State, r: nat, s: Submission, again: bool, publish: bool)
    requires r < |c.replicas| && Passes(cfg, c.replicas[r], s, again)
    ensures RunFrom(cfg, c, Submit(r, s, again, publish)) == AfterSubmit(cfg, c, r, s, again, publish)
  {
    var acts, p := Submit(r, s, again, publish), c.replicas[r];
    AdmitSteps(cfg, c, r, s, again);
    var p2 := Verifying(p, s, again).(admitted := p.admitted + {s});
    var c2 := c.(replicas := c.replicas[r := p2]);
    StoreSteps(cfg, c2, r, s, publish);
    assert c2.replicas[r := Submitted(cfg, p, s, again)] == c.replicas[r := Submitted(cfg, p, s, again)];
    RunFour(cfg, c, acts);
  }

  /** Two submissions of the same block, one after the other. */
  function SubmitTwice(r: nat, s: Submission, again: bool): seq<Action> {
    Submit(r, s, again, false) + Submit(r, s, again, false)
  }

  function SubmittedTwice(cfg: Config, p: Replica, s: Submission, again: bool): Replica
    requires |p.ring| > 0 && PayloadToHeader(cfg.h, s.payload).Some?
  {
    Submitted(cfg, Submitted(cfg, p, s, again), s, again)
  }

  lemma SubmitTwiceRun(cfg: Config, c: State, r: nat, s: Submission, again: bool)
    requires r < |c.replicas| && Passes(cfg, c.replicas[r], s, again)
    ensures RunFrom(cfg, c, SubmitTwice(r, s, again))
         == c.(store := c.store[StoreKey(s) := ToEntry(cfg.h, s).value],
            replicas := c.replicas[r := SubmittedTwice(cfg, c.replicas[r], s, again)],
            entered := c.entered + {s})
  {
    var one := Submit(r, s, again, false);
    var c1 := AfterSubmit(cfg, c, r, s, again, false);
    Twice(cfg, c, r, s, again);
    SubmitRun(cfg, c, r, s, again, false);
    SubmitRun(cfg, c1, r, s, again, false);
    RunAppend(cfg, c, one, one);
  }

  lemma Twice(cfg: Config, c: State, r: nat, s: Submission, again: bool)
    requires r < |c.replicas| && Passes(cfg, c.replicas[r], s, again)
    ensures Passes(cfg, AfterSubmit(cfg, c, r, s, again, false).replicas[r], s, again)
    ensures AfterSubmit(cfg, AfterSubmit(cfg, c, r, s, again, false), r, s, again, false)
         == c.(store := c.store[StoreKey(s) := ToEntry(cfg.h, s).value],
            replicas := c.replicas[r := SubmittedTwice(cfg, c.replicas[r], s, again)],
            entered := c.entered + {s})
  {
    var p, c1 := c.replicas[r], AfterSubmit(cfg, c, r, s, again, false);
    var q := SubmittedTwice(cfg, p, s, again);
    assert c1.replicas[r := q] == c.replicas[r := q];
    assert c1.store[StoreKey(s) := ToEntry(cfg.h, s).value] == c1.store;
    assert c1.entered + {s} == c1.entered;
  }

  // ---------- The auction after that ----------

  /** Twice is enough for a bid to be the best in a new ring's auction, whether or not the first rolled it over. */
  lemma BestAfterTwo(n: nat, b: Bid)
    requires 0 < n < TWO_64
    ensures var round := RingStep(RingStep(InitRing(n), b), b)[b.slot % n];
            round.slot == b.slot && b in round.log && IsBest(round.log, Parent(b), b)
  {
    RecordedTwice(n, b);
    OnlyBidIsBest(RingStep(RingStep(InitRing(n), b), b)[b.slot % n].log, b);
  }

  lemma RecordedTwice(n: nat, b: Bid)
    requires 0 < n < TWO_64
    ensures var ring := RingStep(RingStep(InitRing(n), b), b);
            && ring[b.slot % n].slot == b.slot
            && (ring[b.slot % n].log == [b] || ring[b.slot % n].log == [b, b])
  {
    var i := b.slot % n;
    if i == b.slot {
      assert InitRing(n)[i] == Round(b.slot, []);
      assert [] + [b] == [b] && [b] + [b] == [b, b];
    } else {
      ModBelow(b.slot, n);
      assert [] + [b] == [b];
    }
  }

  lemma ModBelow(x: nat, n: nat)
    requires n > 0
    ensures x % n <= x
  {
    if x < n {
      SmallMod(x, n);
    }
  }

  lemma OnlyBidIsBest(log: seq<Bid>, b: Bid)
    requires log == [b] || log == [b, b]
    ensures IsBest(log, Parent(b), b)
  {
    LastBidsKeyed(log);
    assert b in log;
    assert forall x :: x in log ==> x == b;
  }

  // ---------- A submission and the event it builds on ----------

  /** A submission for a slot that a new relay's window of n slots admits once the event before it arrived. */
  ghost predicate Timely(cfg: Config, n: nat, fork: ForkState, s: Submission) {
    && 1 < s.message.slot && n <= s.message.slot + 1
    && s.payload.fields.timestamp == Wrap64(cfg.genesisTime + s.message.slot * 12)
    && Version(fork, s.message.slot) == ForkCapella
    && !IsAltair(fork, s.message.slot - 1) && !IsBellatrix(fork, s.message.slot - 1)
    && ToEntry(cfg.h, s).Some?
  }

  /** And that passes all of verifyBlock's checks. */
  ghost predicate Proper(cfg: Config, n: nat, fork: ForkState, s: Submission) {
    && Timely(cfg, n, fork, s)
    && HashesMatch(s) && s.payload.fields.parentHash == s.message.parentHash && LeNat(s.message.value) > 0
  }

  /** The event that announces what the submission builds on. */
  function EventFor(s: Submission, root: Bytes32): Event {
    Event(s.message.slot, Some(s.payload.fields.parentHash), Some(root), HashString(s.payload.fields.random), true)
  }

  /** A relay, otherwise new, once that event was recorded, from a state that has not seen it. */
  lemma EventIsRead(cfg: Config, n: nat, fork: ForkState, b: BeaconState.Beacon, s: Submission, root: Bytes32)
    requires 0 < n == |b.slots| && b.fork == fork && Timely(cfg, n, fork, s)
    requires b.head.None? || (b.head.value == s.message.slot - 1 && b.parentBlockHash != s.payload.fields.parentHash)
    ensures var d := BeaconRuns.Step(b, EventFor(s, root));
            && |d.slots| == n && d.fork == fork && BeaconState.HeadSlot(d) == s.message.slot - 1
            && BeaconState.ReadRandao(d, s.message.slot - 1, s.payload.fields.parentHash).randao
               == HashString(s.payload.fields.random)
            && BeaconState.ReadWithdrawals(d, s.message.slot - 1, s.payload.fields.parentHash).root == root
  {
    BeaconRuns.StepShape(b, EventFor(s, root));
    BeaconRuns.RecordedReads(b, EventFor(s, root));
  }

  /** A new relay that has seen the event. */
  function Announced(n: nat, fork: ForkState, s: Submission, root: Bytes32): Replica
    requires 0 < n < TWO_64
  {
    Headed(InitReplica(n, fork), EventFor(s, root))
  }

  lemma ProperPasses(cfg: Config, n: nat, fork: ForkState, s: Submission, root: Bytes32)
    requires 0 < n < TWO_64 && Proper(cfg, n, fork, s) && VerifyWithdrawals(cfg.h, s, root) == WithdrawalsOk
    ensures Passes(cfg, Announced(n, fork, s, root), s, false)
    ensures BeaconState.HeadSlot(Announced(n, fork, s, root).beacon) == s.message.slot - 1
  {
    EventIsRead(cfg, n, fork, BeaconState.Init(n, fork), s, root);
    WindowBounds(s.message.slot - 1, n, s.message.slot);
    EntriesAreGenuine(cfg.h, s);
  }

  /** The event, at a relay that is still new, and then two submissions of a block that builds on it. */
  function Offering(r: nat, s: Submission, root: Bytes32): seq<Action> {
    [Action(r, HeadEvent(EventFor(s, root)))] + SubmitTwice(r, s, false)
  }

  lemma OfferingRun(cfg: Config, c: State, r: nat, n: nat, fork: ForkState, s: Submission, root: Bytes32)
    requires 0 < n < TWO_64 && r < |c.replicas| && c.replicas[r] == InitReplica(n, fork)
    requires Proper(cfg, n, fork, s) && VerifyWithdrawals(cfg.h, s, root) == WithdrawalsOk
    ensures Passes(cfg, Announced(n, fork, s, root), s, false)
    ensures RunFrom(cfg, c, Offering(r, s, root))
         == c.(store := c.store[StoreKey(s) := ToEntry(cfg.h, s).value],
            replicas := c.replicas[r := SubmittedTwice(cfg, Announced(n, fork, s, root), s, false)],
            entered := c.entered + {s})
  {
    var p, a := Announced(n, fork, s, root), Action(r, HeadEvent(EventFor(s, root)));
    ProperPasses(cfg, n, fork, s, root);
    var c1 := c.(replicas := c.replicas[r := p]);
    assert Next(cfg, c, a) == c1;
    RunOne(cfg, c, a);
    SubmitTwiceRun(cfg, c1, r, s, false);
    RunAppend(cfg, c, [a], SubmitTwice(r, s, false));
    var q := SubmittedTwice(cfg, p, s, false);
    assert c1.replicas[r := q] == c.replicas[r := q];
  }
}
