/**
  * Where everything comes from. In every run, whatever is stored, cached, streamed, bid or delivered
  * goes back to a submission whose payload was put in the datastore.
  */
module Provenance {
  import opened Common
  import opened Bytes
  import opened Forks
  import opened BuilderBids
  import opened BlockTraces
  import opened ExecutionPayloads
  import opened Auctions
  import opened Streaming
  import opened RelayRules
  import opened Cluster

  /** A key that a submission's payload may be found under: its trace's hash, or its payload's. */
  predicate Touches(s: Submission, k: PayloadKey) {
    StoreKey(s) == k || HashKey(s) == k
  }

  ghost predicate IsStored(h: Hasher, s: Submission, k: PayloadKey, e: BlockAndTrace) {
    StoreKey(s) == k && ToEntry(h, s) == Some(e)
  }

  /** An entry as stored, or as streamed. */
  ghost predicate IsCached(h: Hasher, s: Submission, k: PayloadKey, e: BlockAndTrace) {
    Touches(s, k) && ToEntry(h, s).Some? && (e == ToEntry(h, s).value || e == Streamed(ToEntry(h, s).value))
  }

  ghost predicate IsBidOf(h: Hasher, s: Submission, b: Bid) {
    ToEntry(h, s).Some? && PayloadToHeader(h, s.payload).Some? && b == ToBid(s, PayloadToHeader(h, s.payload).value)
  }

  /** The signed header has the root of the submission's own; the payload is as submitted, or as streamed. */
  ghost predicate IsDelivery(h: Hasher, s: Submission, d: Delivery) {
    && RootOf(h, s.payload).Some? && RootOf(h, s.payload) == h.headerRoot(d.header)
    && (d.payload == s.payload || d.payload == Normal(s.payload))
  }

  ghost predicate StoredFrom(h: Hasher, u: set<Submission>, k: PayloadKey, e: BlockAndTrace) {
    exists s :: s in u && IsStored(h, s, k, e)
  }

  ghost predicate CachedFrom(h: Hasher, u: set<Submission>, k: PayloadKey, e: BlockAndTrace) {
    exists s :: s in u && IsCached(h, s, k, e)
  }

  ghost predicate BidFrom(h: Hasher, u: set<Submission>, b: Bid) {
    exists s :: s in u && IsBidOf(h, s, b)
  }

  ghost predicate DeliveredFrom(h: Hasher, u: set<Submission>, d: Delivery) {
    exists s :: s in u && IsDelivery(h, s, d)
  }

  ghost predicate StoreOk(h: Hasher, u: set<Submission>, m: map<PayloadKey, BlockAndTrace>) {
    forall k :: k in m ==> StoredFrom(h, u, k, m[k])
  }

  ghost predicate CacheOk(h: Hasher, u: set<Submission>, m: map<PayloadKey, BlockAndTrace>) {
    forall k :: k in m ==> CachedFrom(h, u, k, m[k])
  }

  ghost predicate LogOk(h: Hasher, u: set<Submission>, log: seq<Bid>) {
    forall i :: 0 <= i < |log| ==> BidFrom(h, u, log[i])
  }

  ghost predicate RingOk(h: Hasher, u: set<Submission>, ring: seq<Round>) {
    forall i :: 0 <= i < |ring| ==> LogOk(h, u, ring[i].log)
  }

  ghost predicate DeliveriesOk(h: Hasher, u: set<Submission>, ds: seq<Delivery>) {
    forall i :: 0 <= i < |ds| ==> DeliveredFrom(h, u, ds[i])
  }

  ghost predicate BidsOk(cfg: Config, u: set<Submission>, bids: set<Message>) {
    forall msg :: msg in bids && HandleBid(cfg.bidJson, msg).Ok? ==>
                    BidFrom(cfg.h, u, HandleBid(cfg.bidJson, msg).value)
  }

  ghost predicate BlocksOk(cfg: Config, u: set<Submission>, blocks: set<Message>) {
    forall msg :: msg in blocks && HandleBlock(cfg.blockJson, msg).Ok? ==>
                    var e := HandleBlock(cfg.blockJson, msg).value;
                    CachedFrom(cfg.h, u, EntryKey(e), e)
  }

  ghost predicate ReplicaOk(h: Hasher, u: set<Submission>, p: Replica) {
    && p.stored <= u
    && CacheOk(h, u, p.cache)
    && RingOk(h, u, p.ring)
    && DeliveriesOk(h, u, p.delivered)
  }

  ghost predicate Inv(cfg: Config, c: State) {
    && (forall s :: s in c.entered ==> ToEntry(cfg.h, s).Some?)
    && StoreOk(cfg.h, c.entered, c.store)
    && BidsOk(cfg, c.entered, c.bids)
    && BlocksOk(cfg, c.entered, c.blocks)
    && forall r :: 0 <= r < |c.replicas| ==> ReplicaOk(cfg.h, c.entered, c.replicas[r])
  }

  // ---------- More submissions explain whatever fewer did ----------

  lemma MessagesGrow(cfg: Config, u: set<Submission>, more: set<Submission>, bids: set<Message>, blocks: set<Message>)
    requires u <= more && BidsOk(cfg, u, bids) && BlocksOk(cfg, u, blocks)
    ensures BidsOk(cfg, more, bids) && BlocksOk(cfg, more, blocks)
  {
  }

  lemma StoreGrows(h: Hasher, u: set<Submission>, more: set<Submission>, m: map<PayloadKey, BlockAndTrace>)
    requires u <= more && StoreOk(h, u, m)
    ensures StoreOk(h, more, m)
  {
  }

  lemma RingGrows(h: Hasher, u: set<Submission>, more: set<Submission>, ring: seq<Round>)
    requires u <= more && RingOk(h, u, ring)
    ensures RingOk(h, more, ring)
  {
    forall i | 0 <= i < |ring|
      ensures LogOk(h, more, ring[i].log)
    {
      assert LogOk(h, u, ring[i].log);
    }
  }

  lemma ReplicaGrows(h: Hasher, u: set<Submission>, more: set<Submission>, p: Replica)
    requires u <= more && ReplicaOk(h, u, p)
    ensures ReplicaOk(h, more, p)
  {
    RingGrows(h, u, more, p.ring);
  }

  // ---------- One step of a relay ----------

  lemma RingStepOk(h: Hasher, u: set<Submission>, ring: seq<Round>, b: Bid)
    requires |ring| > 0 && BidFrom(h, u, b) && RingOk(h, u, ring)
    ensures RingOk(h, u, RingStep(ring, b))
  {
    var i := b.slot % |ring|;
    assert LogOk(h, u, ring[i].log);
  }

  lemma StoredIsCached(h: Hasher, u: set<Submission>, k: PayloadKey, e: BlockAndTrace)
    requires StoredFrom(h, u, k, e)
    ensures CachedFrom(h, u, k, e)
  {
    var s :| s in u && IsStored(h, s, k, e);
    assert IsCached(h, s, k, e);
  }

  lemma RecordedFrom(cfg: Config, u: set<Submission>, p: Replica, s: Submission)
    requires p.stored <= u && Bids(cfg, p, s) && ToEntry(cfg.h, s).Some?
    ensures BidFrom(cfg.h, u, ToBid(s, PayloadToHeader(cfg.h, s.payload).value))
  {
    assert IsBidOf(cfg.h, s, ToBid(s, PayloadToHeader(cfg.h, s.payload).value));
  }

  /** What is looked up goes back to a submission that touches the key. */
  lemma LookupFrom(h: Hasher, u: set<Submission>, c: State, p: Replica, k: PayloadKey)
    requires StoreOk(h, u, c.store) && CacheOk(h, u, p.cache) && Lookup(c, p, k).Some?
    ensures CachedFrom(h, u, k, Lookup(c, p, k).value)
  {
    if k !in p.cache {
      StoredIsCached(h, u, k, c.store[k]);
    }
  }

  lemma DeliveryFrom(h: Hasher, u: set<Submission>, k: PayloadKey, e: BlockAndTrace, header: Header, slot: uint64)
    requires CachedFrom(h, u, k, e) && ValidPayload(h, e, header)
    ensures DeliveredFrom(h, u, Delivery(slot, header, e.payload.data))
  {
    var s :| s in u && IsCached(h, s, k, e);
    assert IsDelivery(h, s, Delivery(slot, header, e.payload.data));
  }

  lemma RevealedOk(cfg: Config, c: State, p: Replica, req: SignedBlock, proposer: Bytes48, u: set<Submission>)
    requires StoreOk(cfg.h, u, c.store) && ReplicaOk(cfg.h, u, p)
    ensures ReplicaOk(cfg.h, u, Revealed(cfg, c, p, req, proposer))
  {
    var q := Revealed(cfg, c, p, req, proposer);
    if q.delivered != p.delivered {
      var k := RequestKey(req, req.header.value, proposer);
      LookupFrom(cfg.h, u, c, p, k);
      DeliveryFrom(cfg.h, u, k, Lookup(c, p, k).value, req.header.value, req.slot);
    }
  }

  lemma FetchedOk(cfg: Config, c: State, p: Replica, key: PayloadKey, u: set<Submission>)
    requires StoreOk(cfg.h, u, c.store) && ReplicaOk(cfg.h, u, p)
    ensures ReplicaOk(cfg.h, u, Fetched(c, p, key))
  {
    if key in c.store {
      StoredIsCached(cfg.h, u, key, c.store[key]);
    }
  }

  lemma RecordedOk(cfg: Config, p: Replica, s: Submission, u: set<Submission>)
    requires ReplicaOk(cfg.h, u, p) && |p.ring| > 0 && (s in u ==> ToEntry(cfg.h, s).Some?)
    ensures ReplicaOk(cfg.h, u, Recorded(cfg, p, s))
  {
    if Bids(cfg, p, s) {
      RecordedFrom(cfg, u, p, s);
      RingStepOk(cfg.h, u, p.ring, ToBid(s, PayloadToHeader(cfg.h, s.payload).value));
    }
  }

  lemma TookBidOk(cfg: Config, c: State, p: Replica, msg: Message, u: set<Submission>)
    requires ReplicaOk(cfg.h, u, p) && BidsOk(cfg, u, c.bids) && |p.ring| > 0
    ensures ReplicaOk(cfg.h, u, TookBid(cfg, c, p, msg))
  {
    if msg in c.bids && HandleBid(cfg.bidJson, msg).Ok? {
      RingStepOk(cfg.h, u, p.ring, HandleBid(cfg.bidJson, msg).value);
    }
  }

  lemma TookBlockOk(cfg: Config, c: State, p: Replica, msg: Message, u: set<Submission>)
    requires ReplicaOk(cfg.h, u, p) && BlocksOk(cfg, u, c.blocks)
    ensures ReplicaOk(cfg.h, u, TookBlock(cfg, c, p, msg))
  {
  }

  lemma LocalOk(cfg: Config, c: State, p: Replica, step: Step, u: set<Submission>)
    requires ReplicaOk(cfg.h, u, p) && StoreOk(cfg.h, u, c.store)
    requires BidsOk(cfg, u, c.bids) && BlocksOk(cfg, u, c.blocks)
    requires forall s :: s in u ==> ToEntry(cfg.h, s).Some?
    requires step.PutPayload? && Stores(cfg, p, step.s) ==> step.s in u
    requires Live(p)
    ensures ReplicaOk(cfg.h, u, Local(cfg, c, p, step))
  {
    match step
    case Record(s, _) => RecordedOk(cfg, p, s, u);
    case ReceiveBid(msg) => TookBidOk(cfg, c, p, msg, u);
    case Fetch(key, _) => FetchedOk(cfg, c, p, key, u);
    case ReceiveBlock(msg) => TookBlockOk(cfg, c, p, msg, u);
    case GetPayload(req, proposer) => RevealedOk(cfg, c, p, req, proposer, u);
    case _ =>
  }

  // ---------- What it does to what is shared ----------

  lemma StoreStep(cfg: Config, c: State, p: Replica, step: Step, u: set<Submission>)
    requires StoreOk(cfg.h, u, c.store)
    requires step.PutPayload? && Stores(cfg, p, step.s) ==> step.s in u
    ensures StoreOk(cfg.h, u, NextStore(cfg, c, p, step))
  {
    if step.PutPayload? && Stores(cfg, p, step.s) {
      assert IsStored(cfg.h, step.s, StoreKey(step.s), ToEntry(cfg.h, step.s).value);
    }
  }

  lemma BidsStep(cfg: Config, c: State, p: Replica, step: Step, u: set<Submission>)
    requires BidsOk(cfg, u, c.bids) && p.stored <= u
    requires forall s :: s in u ==> ToEntry(cfg.h, s).Some?
    ensures BidsOk(cfg, u, NextBids(cfg, c, p, step))
  {
    if step.Record? && step.publish && Bids(cfg, p, step.s) {
      var b := ToBid(step.s, PayloadToHeader(cfg.h, step.s.payload).value);
      RecordedFrom(cfg, u, p, step.s);
      if PublishBid(cfg.bidJson, ForkCapella, b).Ok? {
        BidArrives(cfg.bidJson, ForkCapella, b);
      }
    }
  }

  /** What is published for a stored entry arrives under its payload's hash. */
  lemma PublishedFrom(cfg: Config, u: set<Submission>, k: PayloadKey, e: BlockAndTrace, msg: Message)
    requires StoredFrom(cfg.h, u, k, e) && PublishBlock(cfg.blockJson, ForkCapella, e) == Ok(msg)
    requires HandleBlock(cfg.blockJson, msg).Ok?
    ensures var a := HandleBlock(cfg.blockJson, msg).value; CachedFrom(cfg.h, u, EntryKey(a), a)
  {
    var s :| s in u && IsStored(cfg.h, s, k, e);
    BlockArrivesExactlyWhen(cfg.blockJson, e);
    assert IsCached(cfg.h, s, HashKey(s), Streamed(e));
  }

  lemma BlocksStep(cfg: Config, c: State, p: Replica, step: Step, u: set<Submission>)
    requires BlocksOk(cfg, u, c.blocks) && StoreOk(cfg.h, u, c.store)
    ensures BlocksOk(cfg, u, NextBlocks(cfg, c, p, step))
  {
    if step.Fetch? && step.key in c.store {
      var msg := PublishBlock(cfg.blockJson, ForkCapella, c.store[step.key]);
      if msg.Ok? && HandleBlock(cfg.blockJson, msg.value).Ok? {
        PublishedFrom(cfg, u, step.key, c.store[step.key], msg.value);
      }
    }
  }

  lemma StepKeepsInv(cfg: Config, c: State, a: Action)
    requires Inv(cfg, c)
    ensures Inv(cfg, Next(cfg, c, a))
  {
    if a.at < |c.replicas| && Live(c.replicas[a.at]) {
      var p, u, more := c.replicas[a.at], c.entered, NextEntered(cfg, c, c.replicas[a.at], a.step);
      MessagesGrow(cfg, u, more, c.bids, c.blocks);
      StoreGrows(cfg.h, u, more, c.store);
      ReplicaGrows(cfg.h, u, more, p);
      StoreStep(cfg, c, p, a.step, more);
      BidsStep(cfg, c, p, a.step, more);
      BlocksStep(cfg, c, p, a.step, more);
      LocalOk(cfg, c, p, a.step, more);
      var after := c.replicas[a.at := Local(cfg, c, p, a.step)];
      forall r | 0 <= r < |after|
        ensures ReplicaOk(cfg.h, more, after[r])
      {
        if r != a.at {
          ReplicaGrows(cfg.h, u, more, c.replicas[r]);
        }
      }
    }
  }

  lemma {:induction false} RunKeepsInv(cfg: Config, c: State, acts: seq<Action>)
    requires Inv(cfg, c)
    ensures Inv(cfg, RunFrom(cfg, c, acts))
    decreases |acts|
  {
    if acts == [] {
    } else {
      StepKeepsInv(cfg, c, acts[0]);
      RunKeepsInv(cfg, Next(cfg, c, acts[0]), acts[1..]);
    }
  }

  /** In every run of any number of relays. */
  lemma RunInv(cfg: Config, relays: nat, n: nat, fork: ForkState, acts: seq<Action>)
    requires 0 < n < TWO_64
    ensures Inv(cfg, RunFrom(cfg, Init(relays, n, fork), acts))
  {
    RunKeepsInv(cfg, Init(relays, n, fork), acts);
  }

  /**
    * In every run, the header of every bid in every auction is that of the payload of a submission that was stored,
    * field by field and root by root, and value, builder, proposer and slot are those of its trace.
    */
  lemma BidsCarryPayloads(cfg: Config, relays: nat, n: nat, fork: ForkState, acts: seq<Action>, r: nat, i: nat, b: Bid)
    requires 0 < n < TWO_64
    requires var c := RunFrom(cfg, Init(relays, n, fork), acts);
             r < |c.replicas| && i < |c.replicas[r].ring| && b in c.replicas[r].ring[i].log
    ensures var c := RunFrom(cfg, Init(relays, n, fork), acts);
            exists s :: s in c.entered && Carries(cfg.h, s, b)
  {
    var c := RunFrom(cfg, Init(relays, n, fork), acts);
    RunInv(cfg, relays, n, fork, acts);
    assert ReplicaOk(cfg.h, c.entered, c.replicas[r]);
    assert LogOk(cfg.h, c.entered, c.replicas[r].ring[i].log);
    assert BidFrom(cfg.h, c.entered, b);
    var s :| s in c.entered && IsBidOf(cfg.h, s, b);
    BidCarries(cfg.h, s, b);
  }

  /**
    * And whatever is in the datastore is the payload and the signed trace of a submission, under the block hash,
    * proposer and slot of that trace, with the root of the payload's own header.
    */
  lemma EntriesCarryPayloads(cfg: Config, relays: nat, n: nat, fork: ForkState, acts: seq<Action>, k: PayloadKey)
    requires 0 < n < TWO_64 && k in RunFrom(cfg, Init(relays, n, fork), acts).store
    ensures var c := RunFrom(cfg, Init(relays, n, fork), acts);
            exists s :: && s in c.entered && IsEntryOf(cfg.h, s, c.store[k])
                        && k == PayloadKey(s.message.blockHash, s.message.proposerPubkey, s.message.slot)
  {
    var c := RunFrom(cfg, Init(relays, n, fork), acts);
    RunInv(cfg, relays, n, fork, acts);
    var s :| s in c.entered && IsStored(cfg.h, s, k, c.store[k]);
    EntryExactlyWhen(cfg.h, s, c.store[k]);
  }
}
