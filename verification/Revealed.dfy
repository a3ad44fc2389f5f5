/** Over every run: when the payload that is revealed is the one whose header was signed. */
module RevealedPayloads {
  import opened Common
  import opened Bytes
  import opened Forks
  import opened BuilderBids
  import opened BlockTraces
  import opened ExecutionPayloads
  import BeaconRuns
  import opened Auctions
  import opened Streaming
  import opened RelayRules
  import opened Cluster
  import opened Provenance
  import opened Scripts

  /** The header of the revealed payload has the tree root of the header that was signed. */
  ghost predicate Matches(h: Hasher, d: Delivery) {
    h.headerRoot(d.header).Some? && HasRoot(h, d.payload, h.headerRoot(d.header).value)
  }

  /** The same payload with nil withdrawals. */
  function Nil(p: ExecutionPayload): ExecutionPayload {
    p.(withdrawals := None)
  }

  /** What was submitted, with nil withdrawals, before streaming made them empty. */
  ghost predicate WasNil(h: Hasher, d: Delivery) {
    && d.payload.withdrawals == Some([])
    && h.headerRoot(d.header).Some? && HasRoot(h, Nil(d.payload), h.headerRoot(d.header).value)
  }

  lemma MatchesRoot(h: Hasher, d: Delivery)
    ensures Matches(h, d) <==> RootOf(h, d.payload).Some? && RootOf(h, d.payload) == h.headerRoot(d.header)
    ensures WasNil(h, d) <==> && d.payload.withdrawals == Some([]) && RootOf(h, Nil(d.payload)).Some?
                              && RootOf(h, Nil(d.payload)) == h.headerRoot(d.header)
  {
    if h.headerRoot(d.header).Some? {
      RootExactlyWhen(h, d.payload, h.headerRoot(d.header).value);
      RootExactlyWhen(h, Nil(d.payload), h.headerRoot(d.header).value);
    }
  }

  lemma DeliveryMatches(h: Hasher, s: Submission, d: Delivery)
    requires IsDelivery(h, s, d)
    ensures Matches(h, d) <==> d.payload == s.payload || !NilTold(h, s.payload)
    ensures Matches(h, d) || WasNil(h, d)
  {
    MatchesRoot(h, d);
    if d.payload != s.payload {
      assert Nil(d.payload) == s.payload;
      assert s.payload.(withdrawals := None) == s.payload;
    }
  }

  /**
    * In every run, every payload returned goes back to a submission that was stored and whose header has the
    * root that was signed. Its header has that root if and only if the payload is the one submitted, or
    * nil and empty withdrawals are not told apart.
    */
  lemma MatchesExactlyWhen(cfg: Config, relays: nat, n: nat, fork: ForkState, acts: seq<Action>, r: nat, i: nat)
    requires 0 < n < TWO_64
    requires var c := RunFrom(cfg, Init(relays, n, fork), acts); r < |c.replicas| && i < |c.replicas[r].delivered|
    ensures var c := RunFrom(cfg, Init(relays, n, fork), acts);
            var d := c.replicas[r].delivered[i];
            exists s :: && s in c.entered && IsDelivery(cfg.h, s, d)
                        && (Matches(cfg.h, d) <==> d.payload == s.payload || !NilTold(cfg.h, s.payload))
  {
    var c := RunFrom(cfg, Init(relays, n, fork), acts);
    var d := c.replicas[r].delivered[i];
    RunInv(cfg, relays, n, fork, acts);
    assert ReplicaOk(cfg.h, c.entered, c.replicas[r]);
    var s :| s in c.entered && IsDelivery(cfg.h, s, d);
    DeliveryMatches(cfg.h, s, d);
  }

  /**
    * In terms of the answer alone: where nil and empty withdrawals are told apart, the revealed payload's
    * header fails to have the signed root exactly when its withdrawals are empty and the header
    * that was signed is the one with nil withdrawals.
    */
  lemma RevealedMatchesSigned(cfg: Config, relays: nat, n: nat, fork: ForkState, acts: seq<Action>, r: nat, i: nat)
    requires 0 < n < TWO_64
    requires var c := RunFrom(cfg, Init(relays, n, fork), acts); r < |c.replicas| && i < |c.replicas[r].delivered|
    ensures var d := RunFrom(cfg, Init(relays, n, fork), acts).replicas[r].delivered[i];
            && (Matches(cfg.h, d) || WasNil(cfg.h, d))
            && (NilTold(cfg.h, d.payload) ==> (!Matches(cfg.h, d) <==> WasNil(cfg.h, d)))
  {
    var c := RunFrom(cfg, Init(relays, n, fork), acts);
    var d := c.replicas[r].delivered[i];
    RunInv(cfg, relays, n, fork, acts);
    assert ReplicaOk(cfg.h, c.entered, c.replicas[r]);
    var s :| s in c.entered && IsDelivery(cfg.h, s, d);
    DeliveryMatches(cfg.h, s, d);
    MatchesRoot(cfg.h, d);
    if WasNil(cfg.h, d) {
      assert d.payload.(withdrawals := Some([])) == d.payload;
    }
  }

  /** So if every payload stored had withdrawals, every payload revealed matches. */
  lemma WithWithdrawalsMatches(cfg: Config, relays: nat, n: nat, fork: ForkState, acts: seq<Action>, r: nat, i: nat)
    requires 0 < n < TWO_64
    requires var c := RunFrom(cfg, Init(relays, n, fork), acts); r < |c.replicas| && i < |c.replicas[r].delivered|
    requires var c := RunFrom(cfg, Init(relays, n, fork), acts);
             forall s :: s in c.entered ==> s.payload.withdrawals.Some?
    ensures Matches(cfg.h, RunFrom(cfg, Init(relays, n, fork), acts).replicas[r].delivered[i])
  {
    MatchesExactlyWhen(cfg, relays, n, fork, acts, r, i);
  }

  // ---------- Relays that take no blocks from the stream ----------

  ghost predicate AsSubmitted(h: Hasher, u: set<Submission>, d: Delivery) {
    exists s :: s in u && IsDelivery(h, s, d) && d.payload == s.payload
  }

  /** Everything cached is as it was stored, for a Capella slot, and everything delivered as it was submitted. */
  ghost predicate Plain(h: Hasher, u: set<Submission>, p: Replica) {
    && StoreOk(h, u, p.cache)
    && (forall k :: k in p.cache ==> CapellaAt(p, k.slot))
    && forall i :: 0 <= i < |p.delivered| ==> AsSubmitted(h, u, p.delivered[i])
  }

  lemma PlainGrows(h: Hasher, u: set<Submission>, more: set<Submission>, p: Replica)
    requires u <= more && Plain(h, u, p)
    ensures Plain(h, more, p)
  {
    StoreGrows(h, u, more, p.cache);
  }

  lemma RevealedPlain(cfg: Config, c: State, p: Replica, req: SignedBlock, proposer: Bytes48, u: set<Submission>)
    requires StoreOk(cfg.h, u, c.store) && Plain(cfg.h, u, p)
    ensures Plain(cfg.h, u, Revealed(cfg, c, p, req, proposer))
  {
    var q := Revealed(cfg, c, p, req, proposer);
    if q.delivered != p.delivered {
      var k := RequestKey(req, req.header.value, proposer);
      var e := Lookup(c, p, k).value;
      var s :| s in u && IsStored(cfg.h, s, k, e);
      assert IsDelivery(cfg.h, s, Delivery(req.slot, req.header.value, e.payload.data));
    }
  }

  lemma LocalPlain(cfg: Config, c: State, p: Replica, step: Step, u: set<Submission>)
    requires StoreOk(cfg.h, u, c.store) && Plain(cfg.h, u, p) && Live(p) && !step.ReceiveBlock?
    ensures Plain(cfg.h, u, Local(cfg, c, p, step))
  {
    if step.GetPayload? {
      RevealedPlain(cfg, c, p, step.req, step.proposer, u);
    } else if step.HeadEvent? {
      BeaconRuns.StepShape(p.beacon, step.ev);
    }
  }

  ghost predicate NoBlocksAt(acts: seq<Action>, r: nat) {
    forall k :: 0 <= k < |acts| && acts[k].at == r ==> !acts[k].step.ReceiveBlock?
  }

  lemma {:induction false} RunPlain(cfg: Config, c: State, acts: seq<Action>, r: nat)
    requires Inv(cfg, c) && r < |c.replicas| && Plain(cfg.h, c.entered, c.replicas[r]) && NoBlocksAt(acts, r)
    ensures var d := RunFrom(cfg, c, acts); r < |d.replicas| && Plain(cfg.h, d.entered, d.replicas[r])
    decreases |acts|
  {
    if acts == [] {
    } else {
      var a, d := acts[0], Next(cfg, c, acts[0]);
      StepKeepsInv(cfg, c, a);
      PlainGrows(cfg.h, c.entered, d.entered, c.replicas[r]);
      if a.at == r && Live(c.replicas[r]) {
        StoreGrows(cfg.h, c.entered, d.entered, c.store);
        LocalPlain(cfg, c, c.replicas[r], a.step, d.entered);
      }
      RunPlain(cfg, d, acts[1..], r);
    }
  }

  /**
    * In every run, whatever is submitted, a relay that takes no blocks from the stream returns the payload
    * that was submitted, and its header has the root that was signed.
    */
  lemma WithoutStreamMatches(cfg: Config, relays: nat, n: nat, fork: ForkState, acts: seq<Action>, r: nat, i: nat)
    requires 0 < n < TWO_64 && r < relays && NoBlocksAt(acts, r)
    requires var c := RunFrom(cfg, Init(relays, n, fork), acts); r < |c.replicas| && i < |c.replicas[r].delivered|
    ensures var c := RunFrom(cfg, Init(relays, n, fork), acts);
            && Matches(cfg.h, c.replicas[r].delivered[i])
            && AsSubmitted(cfg.h, c.entered, c.replicas[r].delivered[i])
  {
    RunPlain(cfg, Init(relays, n, fork), acts, r);
    var c := RunFrom(cfg, Init(relays, n, fork), acts);
    var d := c.replicas[r].delivered[i];
    var s :| s in c.entered && IsDelivery(cfg.h, s, d) && d.payload == s.payload;
    MatchesRoot(cfg.h, d);
  }

  /** And it caches nothing but Capella entries, each as it was stored under its key. */
  lemma WithoutStreamCaches(cfg: Config, relays: nat, n: nat, fork: ForkState, acts: seq<Action>, r: nat, k: PayloadKey)
    requires 0 < n < TWO_64 && r < relays && NoBlocksAt(acts, r)
    requires var c := RunFrom(cfg, Init(relays, n, fork), acts); r < |c.replicas| && k in c.replicas[r].cache
    ensures var c := RunFrom(cfg, Init(relays, n, fork), acts);
            && CapellaAt(c.replicas[r], k.slot)
            && exists s :: && s in c.entered && IsEntryOf(cfg.h, s, c.replicas[r].cache[k])
                           && k == PayloadKey(s.message.blockHash, s.message.proposerPubkey, s.message.slot)
  {
    RunPlain(cfg, Init(relays, n, fork), acts, r);
    var c := RunFrom(cfg, Init(relays, n, fork), acts);
    var s :| s in c.entered && IsStored(cfg.h, s, k, c.replicas[r].cache[k]);
    EntryExactlyWhen(cfg.h, s, c.replicas[r].cache[k]);
  }

  // ---------- A run in which it fails ----------

  /** GetHeader fetches and publishes the payload of a bid; another relay receives it and is asked for it. */
  function StreamSteps(s: Submission, msg: Message, req: SignedBlock): seq<Action> {
    [Action(0, Fetch(StoreKey(s), true))]
    + [Action(1, ReceiveBlock(msg))]
    + [Action(1, GetPayload(req, s.message.proposerPubkey))]
  }

  lemma StreamRun(cfg: Config, c: State, s: Submission, msg: Message, req: SignedBlock)
    ensures var acts := StreamSteps(s, msg, req);
            RunFrom(cfg, c, acts) == Next(cfg, Next(cfg, Next(cfg, c, acts[0]), acts[1]), acts[2])
  {
    var acts := StreamSteps(s, msg, req);
    RunOne(cfg, c, acts[0]);
    RunSnoc(cfg, c, [acts[0]], acts[1]);
    RunSnoc(cfg, c, [acts[0]] + [acts[1]], acts[2]);
  }

  lemma FetchPublishes(cfg: Config, c: State, key: PayloadKey, msg: Message)
    requires |c.replicas| == 2 && Live(c.replicas[0]) && CapellaAt(c.replicas[0], key.slot)
    requires key in c.store && PublishBlock(cfg.blockJson, ForkCapella, c.store[key]) == Ok(msg)
    ensures var d := Next(cfg, c, Action(0, Fetch(key, true)));
            msg in d.blocks && |d.replicas| == 2 && d.replicas[1] == c.replicas[1]
  {
  }

  lemma ReceiveAskSteps(cfg: Config, c: State, msg: Message, req: SignedBlock, proposer: Bytes48)
    requires |c.replicas| == 2 && Live(c.replicas[1])
    ensures var d := Next(cfg, c, Action(1, ReceiveBlock(msg)));
            var e := Next(cfg, d, Action(1, GetPayload(req, proposer)));
            && |e.replicas| == 2
            && e.replicas[1] == Revealed(cfg, d, TookBlock(cfg, c, c.replicas[1], msg), req, proposer)
  {
  }

  /** Receiving a block that is not cached yet, and then being asked for it. */
  lemma ReceiveThenAsk(cfg: Config, c: State, d: State, p: Replica, msg: Message, e: BlockAndTrace, header: Header,
                       req: SignedBlock)
    requires msg in c.blocks && HandleBlock(cfg.blockJson, msg) == Ok(e) && EntryKey(e) !in p.cache
    requires req.header == Some(header) && req.slot == e.trace.message.slot
    requires header.fields.blockHash == e.payload.data.fields.blockHash && ValidPayload(cfg.h, e, header)
    requires CapellaAt(p, req.slot) && p.last.slot < req.slot
    ensures var q := Revealed(cfg, d, TookBlock(cfg, c, p, msg), req, e.trace.message.proposerPubkey);
            q.delivered == p.delivered + [Delivery(req.slot, header, e.payload.data)]
  {
    var p1 := TookBlock(cfg, c, p, msg);
    assert Lookup(d, p1, RequestKey(req, header, e.trace.message.proposerPubkey)) == Some(e);
  }

  /** From a state in which a relay has the submission stored and the other relay is new. */
  lemma StreamedNilRevealed(cfg: Config, c: State, n: nat, fork: ForkState, s: Submission, e: BlockAndTrace,
                            msg: Message, header: Header, req: SignedBlock)
    requires 0 < n < TWO_64 && Version(fork, s.message.slot) == ForkCapella && s.message.slot > 0
    requires |c.replicas| == 2 && c.replicas[1] == InitReplica(n, fork)
    requires Live(c.replicas[0]) && CapellaAt(c.replicas[0], s.message.slot)
    requires StoreKey(s) in c.store && c.store[StoreKey(s)] == e && ToEntry(cfg.h, s) == Some(e)
    requires PublishBlock(cfg.blockJson, ForkCapella, e) == Ok(msg)
    requires HandleBlock(cfg.blockJson, msg) == Ok(Streamed(e))
    requires PayloadToHeader(cfg.h, s.payload) == Some(header)
    requires req == SignedBlock(s.message.slot, req.proposerIndex, Some(header))
    ensures var d := RunFrom(cfg, c, StreamSteps(s, msg, req));
            && |d.replicas| == 2
            && d.replicas[1].delivered == [Delivery(s.message.slot, header, Normal(s.payload))]
  {
    var acts := StreamSteps(s, msg, req);
    var c1 := Next(cfg, c, acts[0]);
    var c2 := Next(cfg, c1, acts[1]);
    FetchPublishes(cfg, c, StoreKey(s), msg);
    ReceiveAskSteps(cfg, c1, msg, req, s.message.proposerPubkey);
    ReceiveThenAsk(cfg, c1, c2, c.replicas[1], msg, Streamed(e), header, req);
    StreamRun(cfg, c, s, msg, req);
  }

  /** What the run publishes. */
  function MessageFor(e: BlockAndTrace): Message {
    Message(CapellaSSZ, BlockTraces.Encode(e))
  }

  lemma NilArrives(cfg: Config, e: BlockAndTrace)
    requires ExecutionPayloads.WithinLimits(e.payload.data) && OffsetsFit(e.payload)
    ensures PublishBlock(cfg.blockJson, ForkCapella, e) == Ok(MessageFor(e))
    ensures HandleBlock(cfg.blockJson, MessageFor(e)) == Ok(Streamed(e))
  {
    PublishedBytes(cfg.blockJson, e);
    BlockArrives(cfg.blockJson, e);
  }

  /** The bid that GetHeader finds best for its parent, and whose payload it therefore fetches. */
  ghost predicate Offered(p: Replica, s: Submission, b: Bid) {
    && |p.ring| > 0 && b.slot == s.message.slot && BidKey(b) == StoreKey(s)
    && var round := p.ring[b.slot % |p.ring|];
    round.slot == b.slot && IsBest(round.log, Parent(b), b)
  }

  /**
    * From two new relays: the first learns of a parent and accepts, twice, a submission that builds on it and has
    * nil withdrawals, so that its bid is the best; when its header is asked for, it fetches the payload
    * and publishes it. The second receives it, is sent that header, signed, and returns a
    * payload whose header has another root.
    */
  lemma NilWithdrawalsBreakIt(cfg: Config, n: nat, fork: ForkState, s: Submission, root: Bytes32, req: SignedBlock)
    requires 0 < n < TWO_64 && Proper(cfg, n, fork, s) && s.payload.withdrawals.None? && NilTold(cfg.h, s.payload)
    requires ExecutionPayloads.WithinLimits(s.payload) && WithdrawalsOffset(s.payload) < TWO_32
    requires req == SignedBlock(s.message.slot, req.proposerIndex, PayloadToHeader(cfg.h, s.payload))
    ensures PayloadToHeader(cfg.h, s.payload).Some?
    ensures var c := RunFrom(cfg, Init(2, n, fork), Offering(0, s, root));
            var d := RunFrom(cfg, c, StreamSteps(s, MessageFor(ToEntry(cfg.h, s).value), req));
            && |c.replicas| == 2 && Offered(c.replicas[0], s, BidOf(cfg.h, s))
            && |d.replicas| == 2 && |d.replicas[1].delivered| == 1 && !Matches(cfg.h, d.replicas[1].delivered[0])
  {
    EntriesAreGenuine(cfg.h, s);
    var e, b, header := ToEntry(cfg.h, s).value, BidOf(cfg.h, s), PayloadToHeader(cfg.h, s.payload).value;
    var init := Init(2, n, fork);
    OfferingRun(cfg, init, 0, n, fork, s, root);
    var c := RunFrom(cfg, init, Offering(0, s, root));
    BestAfterTwo(n, b);
    FoundExactlyWhen(cfg.h, s);
    assert c.replicas[0].ring == RingStep(RingStep(InitRing(n), b), b);
    NilArrives(cfg, e);
    StreamedNilRevealed(cfg, c, n, fork, s, e, MessageFor(e), header, req);
    DeliveryMatches(cfg.h, s, Delivery(s.message.slot, header, Normal(s.payload)));
  }
}
