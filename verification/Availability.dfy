/** Over every run: when a header that is offered can be traded for its payload. */
module PayloadAvailability {
  import opened Common
  import opened Bytes
  import opened Forks
  import opened BuilderBids
  import opened BlockTraces
  import opened ExecutionPayloads
  import BeaconState
  import opened SlotManager
  import BeaconRuns
  import opened SlotWindow
  import opened Auctions
  import opened RelayRules
  import opened Cluster
  import opened Provenance
  import opened Scripts

  // ---------- What is in the datastore ----------

  ghost predicate NoExpiry(acts: seq<Action>, key: PayloadKey) {
    forall k :: 0 <= k < |acts| ==> acts[k].step != Expire(key)
  }

  ghost predicate WasPut(u: set<Submission>, key: PayloadKey) {
    exists t :: t in u && StoreKey(t) == key
  }

  lemma StepKeepsKey(cfg: Config, c: State, a: Action, key: PayloadKey)
    requires WasPut(c.entered, key) ==> key in c.store
    requires a.step != Expire(key)
    ensures var d := Next(cfg, c, a); WasPut(d.entered, key) ==> key in d.store
  {
  }

  lemma {:induction false} RunKeepsKey(cfg: Config, c: State, acts: seq<Action>, key: PayloadKey)
    requires WasPut(c.entered, key) ==> key in c.store
    requires NoExpiry(acts, key)
    ensures var d := RunFrom(cfg, c, acts); WasPut(d.entered, key) ==> key in d.store
    decreases |acts|
  {
    if acts == [] {
    } else {
      StepKeepsKey(cfg, c, acts[0], key);
      RunKeepsKey(cfg, Next(cfg, c, acts[0]), acts[1..], key);
    }
  }

  /** Unless it expired, a key is in the datastore exactly when a submission was stored under it. */
  lemma StoredExactlyWhen(cfg: Config, relays: nat, n: nat, fork: ForkState, acts: seq<Action>, key: PayloadKey)
    requires 0 < n < TWO_64 && NoExpiry(acts, key)
    ensures var c := RunFrom(cfg, Init(relays, n, fork), acts); key in c.store <==> WasPut(c.entered, key)
  {
    var c := RunFrom(cfg, Init(relays, n, fork), acts);
    RunInv(cfg, relays, n, fork, acts);
    RunKeepsKey(cfg, Init(relays, n, fork), acts, key);
    if key in c.store {
      var t :| t in c.entered && IsStored(cfg.h, t, key, c.store[key]);
    }
  }

  // ---------- When a bid can be redeemed ----------

  /** The stored submissions that a bid's key may lead to all carry the payload that was bid. */
  ghost predicate Agreed(h: Hasher, u: set<Submission>, b: Bid) {
    forall s, t :: s in u && t in u && IsBidOf(h, s, b) && Touches(t, BidKey(b)) ==> t.payload == s.payload
  }

  /** Asked with a bid's header, the relay returns the payload of the submission that made the bid. */
  ghost predicate Redeems(p: Replica, q: Replica, b: Bid, s: Submission) {
    || q.delivered == p.delivered + [Delivery(b.slot, b.bid.header, s.payload)]
    || q.delivered == p.delivered + [Delivery(b.slot, b.bid.header, Normal(s.payload))]
  }

  /** An entry under a bid's key carries the root of the bid's header, and the payload that was bid. */
  lemma EntryOfBid(h: Hasher, u: set<Submission>, s: Submission, b: Bid, e: BlockAndTrace)
    requires Agreed(h, u, b) && s in u && IsBidOf(h, s, b) && CachedFrom(h, u, BidKey(b), e)
    ensures ValidPayload(h, e, b.bid.header)
    ensures e.payload.data == s.payload || e.payload.data == Normal(s.payload)
  {
    var t :| t in u && IsCached(h, t, BidKey(b), e);
    assert t.payload == s.payload;
    EntriesAreGenuine(h, s);
  }

  lemma FoundIsRevealed(cfg: Config, c: State, p: Replica, b: Bid, req: SignedBlock)
    requires req.header == Some(b.bid.header) && req.slot == b.slot && CapellaAt(p, b.slot)
    requires MayDeliver(p.last, b.slot, b.bid.header.fields.blockHash)
    requires var e := Lookup(c, p, BidKey(b)); e.Some? ==> ValidPayload(cfg.h, e.value, b.bid.header)
    ensures var q, e := Revealed(cfg, c, p, req, b.proposer), Lookup(c, p, BidKey(b));
            && (q != p <==> e.Some?)
            && (e.Some? ==> q.delivered == p.delivered + [Delivery(b.slot, b.bid.header, e.value.payload.data)])
  {
    DeliverExactlyWhen(p.last, b.slot, b.bid.header.fields.blockHash);
  }

  /**
    * In every run, expiry and second reads included: for a bid in any relay's auction on whose payload the
    * submissions that touch its key agree, any relay that may still deliver for the slot answers the signed
    * header if and only if the bid's key is in its cache or in the datastore, and the answer is the
    * payload of a submission that made the bid.
    */
  lemma RedeemableExactlyWhen(cfg: Config, relays: nat, n: nat, fork: ForkState, acts: seq<Action>,
                              r: nat, i: nat, b: Bid, at: nat, req: SignedBlock)
    requires 0 < n < TWO_64
    requires var c := RunFrom(cfg, Init(relays, n, fork), acts);
             && r < |c.replicas| && i < |c.replicas[r].ring| && b in c.replicas[r].ring[i].log
             && at < |c.replicas| && CapellaAt(c.replicas[at], b.slot)
             && MayDeliver(c.replicas[at].last, b.slot, b.bid.header.fields.blockHash)
             && Agreed(cfg.h, c.entered, b)
    requires req.header == Some(b.bid.header) && req.slot == b.slot
    ensures var c := RunFrom(cfg, Init(relays, n, fork), acts);
            var p, q := c.replicas[at], Revealed(cfg, c, c.replicas[at], req, b.proposer);
            && (q != p <==> BidKey(b) in p.cache || BidKey(b) in c.store)
            && exists s :: s in c.entered && IsBidOf(cfg.h, s, b) && (q != p ==> Redeems(p, q, b, s))
  {
    var c := RunFrom(cfg, Init(relays, n, fork), acts);
    RunInv(cfg, relays, n, fork, acts);
    var s := SourceOf(cfg, c, r, i, b);
    var p, e := c.replicas[at], Lookup(c, c.replicas[at], BidKey(b));
    if e.Some? {
      assert ReplicaOk(cfg.h, c.entered, p);
      LookupFrom(cfg.h, c.entered, c, p, BidKey(b));
      EntryOfBid(cfg.h, c.entered, s, b, e.value);
    }
    FoundIsRevealed(cfg, c, p, b, req);
    assert Revealed(cfg, c, p, req, b.proposer) != p ==> Redeems(p, Revealed(cfg, c, p, req, b.proposer), b, s);
  }

  /**
    * A payload that was fetched when its header was asked for is found after it expired in the datastore, until it is
    * dropped from the cache; and fetching one publishes nothing unless it is to be published.
    */
  lemma FetchedIsFound(cfg: Config, c: State, r: nat, at: nat, key: PayloadKey)
    requires r < |c.replicas| && Live(c.replicas[r]) && key in c.store && CapellaAt(c.replicas[r], key.slot)
    ensures var c1 := Next(cfg, c, Action(r, Fetch(key, false)));
            var c2 := Next(cfg, c1, Action(at, Expire(key)));
            var c3 := Next(cfg, c2, Action(r, DropCached(key)));
            && c1.blocks == c.blocks && |c3.replicas| == |c2.replicas| == |c.replicas|
            && Lookup(c2, c2.replicas[r], key) == Some(c.store[key])
            && key !in c3.replicas[r].cache
            && forall k :: k in c2.replicas[r].cache && k != key ==> k in c3.replicas[r].cache
  {
  }

  /** The submission that made a bid. */
  lemma SourceOf(cfg: Config, c: State, r: nat, i: nat, b: Bid) returns (s: Submission)
    requires Inv(cfg, c) && r < |c.replicas| && i < |c.replicas[r].ring| && b in c.replicas[r].ring[i].log
    ensures s in c.entered && IsBidOf(cfg.h, s, b)
  {
    assert ReplicaOk(cfg.h, c.entered, c.replicas[r]);
    assert LogOk(cfg.h, c.entered, c.replicas[r].ring[i].log);
    assert BidFrom(cfg.h, c.entered, b);
    s :| s in c.entered && IsBidOf(cfg.h, s, b);
  }

  // ---------- Submissions that are accepted on the first read ----------

  /** No relay verified a submission of this bid with differing hashes on a second read. */
  ghost predicate FirstReadOnly(h: Hasher, c: State, b: Bid) {
    forall r, s :: 0 <= r < |c.replicas| && s in c.replicas[r].reverified && IsBidOf(h, s, b) ==> HashesMatch(s)
  }

  /** What verifyBlock checks before it reads the randao, and what it checks after a first read that matches. */
  ghost predicate Due(genesisTime: uint64, s: Submission) {
    s.message.slot > 0 && Timed(s, genesisTime)
  }

  /** What got on was verified, on the first read with all checks, or on the second one with those before it. */
  ghost predicate Accounted(genesisTime: uint64, p: Replica) {
    && p.stored <= p.admitted <= p.verified && p.unrooted <= p.verified && p.reverified <= p.asked
    && (forall s :: s in p.asked ==> Due(genesisTime, s))
    && forall s :: s in p.verified && s !in p.reverified ==> Due(genesisTime, s) && Worthy(s) && Consistent(s)
  }

  ghost predicate StoredSomewhere(c: State, s: Submission) {
    exists r :: 0 <= r < |c.replicas| && s in c.replicas[r].stored
  }

  ghost predicate AllAccounted(genesisTime: uint64, c: State) {
    && (forall r :: 0 <= r < |c.replicas| ==> Accounted(genesisTime, c.replicas[r]))
    && forall s :: s in c.entered ==> StoredSomewhere(c, s)
  }

  lemma LocalAccounted(cfg: Config, c: State, p: Replica, step: Step)
    requires Accounted(cfg.genesisTime, p) && Live(p)
    ensures Accounted(cfg.genesisTime, Local(cfg, c, p, step)) && p.stored <= Local(cfg, c, p, step).stored
    ensures step.PutPayload? && Stores(cfg, p, step.s) ==> step.s in Local(cfg, c, p, step).stored
  {
    if step.Verify? && Readable(p, step.s) {
      VerdictExactlyWhen(step.s, cfg.genesisTime, BeaconState.HeadSlot(p.beacon), |p.beacon.slots|,
                         RandaoFor(p, step.s));
    }
  }

  lemma StepKeepsAccounted(cfg: Config, c: State, a: Action)
    requires AllAccounted(cfg.genesisTime, c)
    ensures AllAccounted(cfg.genesisTime, Next(cfg, c, a))
  {
    if a.at < |c.replicas| && Live(c.replicas[a.at]) {
      var p, d := c.replicas[a.at], Next(cfg, c, a);
      LocalAccounted(cfg, c, p, a.step);
      forall s | s in d.entered
        ensures StoredSomewhere(d, s)
      {
        if s in c.entered {
          var r :| 0 <= r < |c.replicas| && s in c.replicas[r].stored;
          assert s in d.replicas[r].stored;
        } else {
          assert s in d.replicas[a.at].stored;
        }
      }
    }
  }

  lemma {:induction false} RunKeepsAccounted(cfg: Config, c: State, acts: seq<Action>)
    requires AllAccounted(cfg.genesisTime, c)
    ensures AllAccounted(cfg.genesisTime, RunFrom(cfg, c, acts))
    decreases |acts|
  {
    if acts == [] {
    } else {
      StepKeepsAccounted(cfg, c, acts[0]);
      RunKeepsAccounted(cfg, Next(cfg, c, acts[0]), acts[1..]);
    }
  }

  lemma AcceptedMatches(cfg: Config, c: State, s: Submission, b: Bid)
    requires AllAccounted(cfg.genesisTime, c) && FirstReadOnly(cfg.h, c, b) && s in c.entered && IsBidOf(cfg.h, s, b)
    ensures HashesMatch(s)
  {
    var r :| 0 <= r < |c.replicas| && s in c.replicas[r].stored;
    assert Accounted(cfg.genesisTime, c.replicas[r]);
  }

  /** A relay verified it on a second read. */
  ghost predicate Reverified(c: State, s: Submission) {
    exists r :: 0 <= r < |c.replicas| && s in c.replicas[r].reverified
  }

  /**
    * In every run, whatever was stored is for a slot above 0 and has that slot's timestamp; unless it was verified on a
    * second read, it pays or has transactions, and its trace names the block hash and the parent of its payload.
    */
  lemma StoredIsChecked(cfg: Config, relays: nat, n: nat, fork: ForkState, acts: seq<Action>, s: Submission)
    requires 0 < n < TWO_64 && s in RunFrom(cfg, Init(relays, n, fork), acts).entered
    ensures s.message.slot > 0
    ensures s.payload.fields.timestamp == (cfg.genesisTime + 12 * s.message.slot) % 0x1_0000_0000_0000_0000
    ensures || Reverified(RunFrom(cfg, Init(relays, n, fork), acts), s)
            || ((LeNat(s.message.value) > 0 || s.payload.transactions != [])
                && s.message.blockHash == s.payload.fields.blockHash
                && s.message.parentHash == s.payload.fields.parentHash)
  {
    var c := RunFrom(cfg, Init(relays, n, fork), acts);
    RunKeepsAccounted(cfg, Init(relays, n, fork), acts);
    var r :| 0 <= r < |c.replicas| && s in c.replicas[r].stored;
    assert Accounted(cfg.genesisTime, c.replicas[r]);
  }

  /**
    * In every run in which the bid's key did not expire and its submission was accepted on the first read,
    * a bid in any auction has its payload in the datastore under the key GetHeader builds.
    */
  lemma OfferedIsStored(cfg: Config, relays: nat, n: nat, fork: ForkState, acts: seq<Action>, r: nat, i: nat, b: Bid)
    requires 0 < n < TWO_64 && NoExpiry(acts, BidKey(b))
    requires var c := RunFrom(cfg, Init(relays, n, fork), acts);
             && r < |c.replicas| && i < |c.replicas[r].ring| && b in c.replicas[r].ring[i].log
             && FirstReadOnly(cfg.h, c, b)
    ensures BidKey(b) in RunFrom(cfg, Init(relays, n, fork), acts).store
  {
    var c := RunFrom(cfg, Init(relays, n, fork), acts);
    RunInv(cfg, relays, n, fork, acts);
    var s := SourceOf(cfg, c, r, i, b);
    RunKeepsAccounted(cfg, Init(relays, n, fork), acts);
    AcceptedMatches(cfg, c, s, b);
    FoundExactlyWhen(cfg.h, s);
    StoredExactlyWhen(cfg, relays, n, fork, acts, BidKey(b));
  }

  /**
    * Then a header offered by any relay, signed and sent to any relay that may still deliver for the slot,
    * gets the payload of the submission that made the bid.
    */
  lemma OfferedIsRedeemable(cfg: Config, relays: nat, n: nat, fork: ForkState, acts: seq<Action>,
                            r: nat, i: nat, b: Bid, at: nat, req: SignedBlock)
    requires 0 < n < TWO_64 && NoExpiry(acts, BidKey(b))
    requires var c := RunFrom(cfg, Init(relays, n, fork), acts);
             && r < |c.replicas| && i < |c.replicas[r].ring| && b in c.replicas[r].ring[i].log
             && at < |c.replicas| && CapellaAt(c.replicas[at], b.slot)
             && MayDeliver(c.replicas[at].last, b.slot, b.bid.header.fields.blockHash)
             && Agreed(cfg.h, c.entered, b) && FirstReadOnly(cfg.h, c, b)
    requires req.header == Some(b.bid.header) && req.slot == b.slot
    ensures var c := RunFrom(cfg, Init(relays, n, fork), acts);
            var p, q := c.replicas[at], Revealed(cfg, c, c.replicas[at], req, b.proposer);
            exists s :: s in c.entered && IsBidOf(cfg.h, s, b) && Redeems(p, q, b, s)
  {
    OfferedIsStored(cfg, relays, n, fork, acts, r, i, b);
    RedeemableExactlyWhen(cfg, relays, n, fork, acts, r, i, b, at, req);
  }

  // ---------- A run in which a second read breaks it ----------

  /** An event for the slot before a submission's, but for another parent; nothing is recorded for it. */
  function OtherParent(s: Submission, other: Bytes32): Event {
    Event(s.message.slot, Some(other), None, "", false)
  }

  /** That event, two submissions of the same block that wait to read again, and the event they build on. */
  function Waiting(s: Submission, other: Bytes32, root: Bytes32): seq<Action> {
    [Action(0, HeadEvent(OtherParent(s, other)))] + [Action(0, Verify(s))] + [Action(0, Verify(s))]
    + [Action(0, HeadEvent(EventFor(s, root)))]
  }

  /** The relay after it. */
  function Waited(n: nat, fork: ForkState, s: Submission, other: Bytes32, root: Bytes32): Replica
    requires 0 < n < TWO_64
  {
    BeaconRuns.StepShape(BeaconState.Init(n, fork), OtherParent(s, other));
    Headed(Headed(InitReplica(n, fork), OtherParent(s, other)).(asked := {s}), EventFor(s, root))
  }

  lemma OtherParentSeen(cfg: Config, n: nat, fork: ForkState, s: Submission, other: Bytes32)
    requires 0 < n < TWO_64 && Timely(cfg, n, fork, s)
    ensures var p := Headed(InitReplica(n, fork), OtherParent(s, other));
            && |p.beacon.slots| == n && p.beacon.fork == fork
            && p.beacon.head == Some(s.message.slot - 1) && p.beacon.parentBlockHash == other
            && Readable(p, s) && VerdictOn(cfg, p, s) == AskAgain
  {
    BeaconRuns.StepShape(BeaconState.Init(n, fork), OtherParent(s, other));
    WindowBounds(s.message.slot - 1, n, s.message.slot);
  }

  lemma WaitingRun(cfg: Config, n: nat, fork: ForkState, s: Submission, other: Bytes32, root: Bytes32)
    requires 0 < n < TWO_64 && Timely(cfg, n, fork, s) && other != s.payload.fields.parentHash
    ensures RunFrom(cfg, Init(1, n, fork), Waiting(s, other, root))
         == Init(1, n, fork).(replicas := [Waited(n, fork, s, other, root)])
  {
    var init, acts := Init(1, n, fork), Waiting(s, other, root);
    var p1 := Headed(InitReplica(n, fork), OtherParent(s, other));
    OtherParentSeen(cfg, n, fork, s, other);
    var p2 := p1.(asked := {s});
    assert p1.asked + {s} == {s} && p2.asked + {s} == {s};
    var c1, c2 := init.(replicas := [p1]), init.(replicas := [p2]);
    OwnStep(cfg, init, InitReplica(n, fork), acts[0].step);
    VerifyAsks(cfg, c1, p1, s);
    VerifyAsks(cfg, c2, p2, s);
    OwnStep(cfg, c2, p2, acts[3].step);
    RunFour(cfg, init, acts);
  }

  lemma VerifyAsks(cfg: Config, c: State, p: Replica, s: Submission)
    requires c.replicas == [p] && Live(p) && Readable(p, s) && VerdictOn(cfg, p, s) == AskAgain
    ensures Next(cfg, c, Action(0, Verify(s))) == c.(replicas := [p.(asked := p.asked + {s})])
  {
  }

  /** An event at a lone relay. */
  lemma OwnStep(cfg: Config, c: State, p: Replica, step: Step)
    requires c.replicas == [p] && Live(p) && step.HeadEvent?
    ensures Next(cfg, c, Action(0, step)) == c.(replicas := [Local(cfg, c, p, step)])
  {
  }

  lemma WaitedPasses(cfg: Config, n: nat, fork: ForkState, s: Submission, other: Bytes32, root: Bytes32)
    requires 0 < n < TWO_64 && Timely(cfg, n, fork, s) && other != s.payload.fields.parentHash
    requires VerifyWithdrawals(cfg.h, s, root) == WithdrawalsOk
    ensures Passes(cfg, Waited(n, fork, s, other, root), s, true)
  {
    OtherParentSeen(cfg, n, fork, s, other);
    EventIsRead(cfg, n, fork, Headed(InitReplica(n, fork), OtherParent(s, other)).beacon, s, root);
    EntriesAreGenuine(cfg.h, s);
  }

  /** The best bid of its auction, for which there is nothing under the key that GetHeader builds. */
  ghost predicate OfferedNotFound(cfg: Config, c: State, b: Bid) {
    && |c.replicas| == 1 && |c.replicas[0].ring| > 0
    && Lookup(c, c.replicas[0], BidKey(b)).None?
    && var round := c.replicas[0].ring[b.slot % |c.replicas[0].ring|];
    round.slot == b.slot && IsBest(round.log, Parent(b), b)
  }

  /**
    * From a new relay that knows of another parent: two submissions of a block whose trace names another block hash
    * do not find their randao, the event they build on arrives, and they pass on their second read of it. Their
    * payload is stored, their bid is the best in the auction, and the relay refuses to reveal the payload to
    * whoever signed that bid's header.
    */
  lemma SecondReadBreaksIt(cfg: Config, n: nat, fork: ForkState, s: Submission, other: Bytes32, root: Bytes32,
                           req: SignedBlock)
    requires 0 < n < TWO_64 && Timely(cfg, n, fork, s) && !HashesMatch(s) && other != s.payload.fields.parentHash
    requires VerifyWithdrawals(cfg.h, s, root) == WithdrawalsOk
    requires req.header == PayloadToHeader(cfg.h, s.payload) && req.slot == s.message.slot
    ensures PayloadToHeader(cfg.h, s.payload).Some?
    ensures var c := RunFrom(cfg, Init(1, n, fork), Waiting(s, other, root) + SubmitTwice(0, s, true));
            && s in c.entered && OfferedNotFound(cfg, c, BidOf(cfg.h, s))
            && Revealed(cfg, c, c.replicas[0], req, s.message.proposerPubkey) == c.replicas[0]
  {
    EntriesAreGenuine(cfg.h, s);
    FoundExactlyWhen(cfg.h, s);
    var init, b := Init(1, n, fork), BidOf(cfg.h, s);
    WaitingRun(cfg, n, fork, s, other, root);
    WaitedPasses(cfg, n, fork, s, other, root);
    var c1 := init.(replicas := [Waited(n, fork, s, other, root)]);
    SubmitTwiceRun(cfg, c1, 0, s, true);
    RunAppend(cfg, init, Waiting(s, other, root), SubmitTwice(0, s, true));
    BestAfterTwo(n, b);
  }
}
