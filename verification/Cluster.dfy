/**
  * Relays that share a datastore and stream bids and blocks to each other, in every interleaving
  * of their steps. A call is several steps: a submission is verified, on one or on two reads of the beacon
  * state, its withdrawals are checked, again on one or two, its payload is put in the datastore, and its bid
  * is recorded; anything may happen in between. Streamed messages may be lost, repeated and
  * reordered; caches may drop entries.
  */
module Cluster {
  import opened Common
  import opened Bytes
  import opened Forks
  import opened BuilderBids
  import opened BlockTraces
  import opened ExecutionPayloads
  import opened SlotWindow
  import opened BeaconState
  import opened SlotManager
  import BeaconRuns
  import opened Auctions
  import opened Streaming
  import opened RelayRules

  datatype Config = Config(
    h: Hasher,
    bidJson: Json<BuilderBidExtended>,
    blockJson: Json<BlockAndTrace>,
    genesisTime: uint64)

  /** A payload that was returned, and the header that had been signed for it. */
  datatype Delivery = Delivery(slot: uint64, header: Header, payload: ExecutionPayload)

  /**
    * `asked` and `unrooted` are the submissions that wait to read again, for the randao and for the
    * withdrawals root; `reverified` are those that passed verifyBlock on their second read.
    */
  datatype Replica = Replica(
    beacon: Beacon,
    ring: seq<Round>,
    cache: map<PayloadKey, BlockAndTrace>,
    last: LastDelivered,
    asked: set<Submission>,
    verified: set<Submission>,
    reverified: set<Submission>,
    unrooted: set<Submission>,
    admitted: set<Submission>,
    stored: set<Submission>,
    delivered: seq<Delivery>)

  /** `entered` remembers every submission whose payload was put in the datastore, whether or not it expired since. */
  datatype State = State(
    store: map<PayloadKey, BlockAndTrace>,
    replicas: seq<Replica>,
    bids: set<Message>,
    blocks: set<Message>,
    entered: set<Submission>)

  datatype Step =
    | HeadEvent(ev: Event)
    | Verify(s: Submission)
    | VerifyLater(s: Submission)
    | CheckWithdrawals(s: Submission, checksPass: bool)
    | CheckWithdrawalsLater(s: Submission, checksPass: bool)
    | PutPayload(s: Submission)
    | Record(s: Submission, publish: bool)
    | ReceiveBid(msg: Message)
    | Fetch(key: PayloadKey, publish: bool)
    | ReceiveBlock(msg: Message)
    | DropCached(key: PayloadKey)
    | Expire(key: PayloadKey)
    | GetPayload(req: SignedBlock, proposer: Bytes48)

  /** Step `step` of relay `at`. */
  datatype Action = Action(at: nat, step: Step)

  function InitReplica(n: nat, fork: ForkState): Replica
    requires 0 < n < TWO_64
  {
    Replica(BeaconState.Init(n, fork), InitRing(n), map[], LastDelivered(0, Zeros(32)), {}, {}, {}, {}, {}, {}, [])
  }

  function Init(relays: nat, n: nat, fork: ForkState): State
    requires 0 < n < TWO_64
  {
    State(map[], seq(relays, _ => InitReplica(n, fork)), {}, {}, {})
  }

  // ---------- What a submission reads ----------

  predicate Readable(p: Replica, s: Submission)
    requires |p.beacon.slots| > 0
  {
    s.message.slot > 0 && !Crashes(p.beacon, s.message.slot - 1)
  }

  function RandaoFor(p: Replica, s: Submission): string
    requires |p.beacon.slots| > 0 && s.message.slot > 0
  {
    ReadRandao(p.beacon, s.message.slot - 1, s.payload.fields.parentHash).randao
  }

  function RootFor(p: Replica, s: Submission): Bytes32
    requires |p.beacon.slots| > 0 && s.message.slot > 0
  {
    ReadWithdrawals(p.beacon, s.message.slot - 1, s.payload.fields.parentHash).root
  }

  function VerdictOn(cfg: Config, p: Replica, s: Submission): Verdict
    requires |p.beacon.slots| > 0 && s.message.slot > 0
  {
    VerifyBlock(s, cfg.genesisTime, HeadSlot(p.beacon), |p.beacon.slots|, RandaoFor(p, s))
  }

  predicate CapellaAt(p: Replica, slot: uint64) {
    Version(p.beacon.fork, slot) == ForkCapella
  }

  /**
    * The cache, then the datastore, which is read as an entry of the slot's fork: under another fork than
    * Capella there is either an error or an entry without a header root, which is not valid.
    */
  function Lookup(c: State, p: Replica, key: PayloadKey): Option<BlockAndTrace> {
    if key in p.cache then Some(p.cache[key])
    else if key in c.store && CapellaAt(p, key.slot) then Some(c.store[key])
    else None
  }

  function RequestKey(req: SignedBlock, header: Header, proposer: Bytes48): PayloadKey {
    PayloadKey(header.fields.blockHash, proposer, req.slot)
  }

  // ---------- What a relay's own step does to that relay ----------

  function Headed(p: Replica, ev: Event): Replica
    requires |p.beacon.slots| > 0
  {
    p.(beacon := BeaconRuns.Step(p.beacon, ev))
  }

  function Checked(cfg: Config, p: Replica, s: Submission): Replica
    requires |p.beacon.slots| > 0
  {
    if !Readable(p, s) then p
    else
      match VerdictOn(cfg, p, s)
      case Verified => p.(verified := p.verified + {s})
      case AskAgain => p.(asked := p.asked + {s})
      case Refused(_) => p
  }

  function Rechecked(p: Replica, s: Submission): Replica
    requires |p.beacon.slots| > 0
  {
    if s in p.asked && Readable(p, s) && VerifyAgain(s, RandaoFor(p, s)).None? then
      p.(verified := p.verified + {s}, reverified := p.reverified + {s})
    else p
  }

  /** `checksPass` stands for the checks of registration, signature and simulation. */
  function Rooted(cfg: Config, p: Replica, s: Submission, checksPass: bool): Replica
    requires |p.beacon.slots| > 0
  {
    if s !in p.verified || !Readable(p, s) then p
    else
      match VerifyWithdrawals(cfg.h, s, RootFor(p, s))
      case WithdrawalsOk => if checksPass then p.(admitted := p.admitted + {s}) else p
      case WithdrawalsNotFound => p.(unrooted := p.unrooted + {s})
      case _ => p
  }

  function Rerooted(cfg: Config, p: Replica, s: Submission, checksPass: bool): Replica
    requires |p.beacon.slots| > 0
  {
    if s in p.unrooted && Readable(p, s) && checksPass && VerifyWithdrawals(cfg.h, s, RootFor(p, s)) == WithdrawalsOk
    then p.(admitted := p.admitted + {s})
    else p
  }

  predicate Stores(cfg: Config, p: Replica, s: Submission) {
    s in p.admitted && ToEntry(cfg.h, s).Some?
  }

  function Stored(cfg: Config, p: Replica, s: Submission): Replica {
    if Stores(cfg, p, s) then p.(stored := p.stored + {s}) else p
  }

  predicate Bids(cfg: Config, p: Replica, s: Submission) {
    s in p.stored && CapellaAt(p, s.message.slot) && PayloadToHeader(cfg.h, s.payload).Some?
  }

  function Recorded(cfg: Config, p: Replica, s: Submission): Replica
    requires |p.ring| > 0
  {
    if Bids(cfg, p, s) then p.(ring := RingStep(p.ring, ToBid(s, PayloadToHeader(cfg.h, s.payload).value))) else p
  }

  function TookBid(cfg: Config, c: State, p: Replica, msg: Message): Replica
    requires |p.ring| > 0
  {
    if msg in c.bids && HandleBid(cfg.bidJson, msg).Ok? then
      p.(ring := RingStep(p.ring, HandleBid(cfg.bidJson, msg).value))
    else p
  }

  function Fetched(c: State, p: Replica, key: PayloadKey): Replica {
    if key in c.store && CapellaAt(p, key.slot) then p.(cache := p.cache[key := c.store[key]]) else p
  }

  /** An entry that is cached already is kept. */
  function Cached(p: Replica, e: BlockAndTrace): Replica {
    if EntryKey(e) in p.cache then p else p.(cache := p.cache[EntryKey(e) := e])
  }

  function TookBlock(cfg: Config, c: State, p: Replica, msg: Message): Replica {
    if msg in c.blocks && HandleBlock(cfg.blockJson, msg).Ok? then
      Cached(p, HandleBlock(cfg.blockJson, msg).value)
    else p
  }

  /** A slot of another fork is turned away after the last delivery was updated. */
  function Revealed(cfg: Config, c: State, p: Replica, req: SignedBlock, proposer: Bytes48): Replica {
    if req.header.None? then p
    else
      var header := req.header.value;
      var e := Lookup(c, p, RequestKey(req, header, proposer));
      if e.None? || !ValidPayload(cfg.h, e.value, header) then p
      else
        match Deliver(p.last, req.slot, header.fields.blockHash)
        case Err(_) => p
        case Ok(last) =>
          if !CapellaAt(p, req.slot) then p.(last := last)
          else p.(last := last, delivered := p.delivered + [Delivery(req.slot, header, e.value.payload.data)])
  }

  function Local(cfg: Config, c: State, p: Replica, step: Step): (q: Replica)
    requires |p.ring| > 0 && |p.beacon.slots| > 0
    ensures |q.ring| == |p.ring| && |q.beacon.slots| == |p.beacon.slots|
  {
    match step
    case HeadEvent(ev) =>
      BeaconRuns.StepShape(p.beacon, ev);
      Headed(p, ev)
    case Verify(s) => Checked(cfg, p, s)
    case VerifyLater(s) => Rechecked(p, s)
    case CheckWithdrawals(s, checksPass) => Rooted(cfg, p, s, checksPass)
    case CheckWithdrawalsLater(s, checksPass) => Rerooted(cfg, p, s, checksPass)
    case PutPayload(s) => Stored(cfg, p, s)
    case Record(s, _) => Recorded(cfg, p, s)
    case ReceiveBid(msg) => TookBid(cfg, c, p, msg)
    case Fetch(key, _) => Fetched(c, p, key)
    case ReceiveBlock(msg) => TookBlock(cfg, c, p, msg)
    case DropCached(key) => p.(cache := p.cache - {key})
    case Expire(_) => p
    case GetPayload(req, proposer) => Revealed(cfg, c, p, req, proposer)
  }

  // ---------- What it does to what is shared ----------

  function NextStore(cfg: Config, c: State, p: Replica, step: Step): map<PayloadKey, BlockAndTrace> {
    match step
    case PutPayload(s) =>
      if Stores(cfg, p, s) then c.store[StoreKey(s) := ToEntry(cfg.h, s).value] else c.store
    case Expire(key) => c.store - {key}
    case _ => c.store
  }

  function NextBids(cfg: Config, c: State, p: Replica, step: Step): set<Message> {
    match step
    case Record(s, true) =>
      if Bids(cfg, p, s) then
        var msg := PublishBid(cfg.bidJson, ForkCapella, ToBid(s, PayloadToHeader(cfg.h, s.payload).value));
        if msg.Ok? then c.bids + {msg.value} else c.bids
      else c.bids
    case _ => c.bids
  }

  function NextBlocks(cfg: Config, c: State, p: Replica, step: Step): set<Message> {
    match step
    case Fetch(key, true) =>
      if key in c.store && CapellaAt(p, key.slot) then
        var msg := PublishBlock(cfg.blockJson, ForkCapella, c.store[key]);
        if msg.Ok? then c.blocks + {msg.value} else c.blocks
      else c.blocks
    case _ => c.blocks
  }

  function NextEntered(cfg: Config, c: State, p: Replica, step: Step): set<Submission> {
    if step.PutPayload? && Stores(cfg, p, step.s) then c.entered + {step.s} else c.entered
  }

  /** A relay whose rings have places, as every relay that was started has. */
  predicate Live(p: Replica) {
    |p.ring| > 0 && |p.beacon.slots| > 0
  }

  function Next(cfg: Config, c: State, a: Action): State {
    if a.at >= |c.replicas| || !Live(c.replicas[a.at]) then c
    else
      var p := c.replicas[a.at];
      State(NextStore(cfg, c, p, a.step), c.replicas[a.at := Local(cfg, c, p, a.step)],
            NextBids(cfg, c, p, a.step), NextBlocks(cfg, c, p, a.step), NextEntered(cfg, c, p, a.step))
  }

  function RunFrom(cfg: Config, c: State, acts: seq<Action>): State
    decreases |acts|
  {
    if acts == [] then c else RunFrom(cfg, Next(cfg, c, acts[0]), acts[1..])
  }

  lemma {:induction false} RunSnoc(cfg: Config, c: State, acts: seq<Action>, a: Action)
    ensures RunFrom(cfg, c, acts + [a]) == Next(cfg, RunFrom(cfg, c, acts), a)
    decreases |acts|
  {
    if acts == [] {
      assert acts + [a] == [a] && [a][1..] == [];
    } else {
      assert (acts + [a])[1..] == acts[1..] + [a];
      RunSnoc(cfg, Next(cfg, c, acts[0]), acts[1..], a);
    }
  }

  lemma {:induction false} RunAppend(cfg: Config, c: State, first: seq<Action>, rest: seq<Action>)
    ensures RunFrom(cfg, c, first + rest) == RunFrom(cfg, RunFrom(cfg, c, first), rest)
    decreases |first|
  {
    if first == [] {
      assert first + rest == rest;
    } else {
      assert (first + rest)[1..] == first[1..] + rest;
      RunAppend(cfg, Next(cfg, c, first[0]), first[1..], rest);
    }
  }

  lemma RunOne(cfg: Config, c: State, a: Action)
    ensures RunFrom(cfg, c, [a]) == Next(cfg, c, a)
  {
    assert [] + [a] == [a];
    RunSnoc(cfg, c, [], a);
  }
}
