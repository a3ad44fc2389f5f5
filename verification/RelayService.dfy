/**
  * The relay service object. Each call is proved to do what the corresponding steps of the
  * cluster model do, so what holds over every run there holds of these calls.
  */
module RelayService {
  import opened Common
  import opened Bytes
  import opened Forks
  import opened BuilderBids
  import opened BlockTraces
  import opened ExecutionPayloads
  import opened SlotWindow
  import opened BeaconState
  import opened SlotManager
  import BeaconRuns
  import opened Auctions
  import opened RelayRules
  import opened Cluster

  /** The outcomes of the calls into other services that a submission leads to. */
  datatype Checks = Checks(registration: bool, signature: bool, simulation: bool, put: bool)

  datatype SubmitError =
    | Verification(e: VerifyError) | WrongRegistration | BadSignature | BadWithdrawals(v: WithdrawalsVerdict)
    | SimulationFailed | NoContents | NotStored | WrongFork | Panicked

  /** How a check that may have to read again goes on. */
  datatype Progress = Go | Wait | Stop(e: SubmitError)

  datatype HeaderError = TooOld | LateRequest | NoBuilderBid | ZeroValue | IncompatibleFork

  datatype PayloadError =
    | Unsigned | LatePayload | UnknownValidator | NoPayloadFound | WrongPayload | NotPublished | OtherFork
    | NotDelivered(e: DeliveryError)

  class Relay {
    const cfg: Config
    const pubkey: Bytes48
    const auctioneer: Auctioneer
    const beacon: MultiSlotState
    var cache: map<PayloadKey, BlockAndTrace>
    var store: map<PayloadKey, BlockAndTrace>
    var lastDelivered: LastDelivered
    ghost var asked: set<Submission>
    ghost var verified: set<Submission>
    ghost var reverified: set<Submission>
    ghost var unrooted: set<Submission>
    ghost var admitted: set<Submission>
    ghost var stored: set<Submission>
    ghost var delivered: seq<Delivery>

    ghost predicate Valid()
      reads this, auctioneer, auctioneer.auctions, beacon
    {
      auctioneer.Valid() && |beacon.slots| == |auctioneer.ring|
    }

    ghost function View(): Replica
      reads this, auctioneer, beacon
    {
      Replica(beacon.View(), auctioneer.ring, cache, lastDelivered, asked, verified, reverified, unrooted, admitted,
              stored, delivered)
    }

    /** The cluster as this relay sees it, with nothing on the stream. */
    ghost function World(): State
      reads this, auctioneer, beacon
    {
      State(store, [View()], {}, {}, stored)
    }

    constructor (c: Config, pk: Bytes48, n: nat, fork: ForkState)
      requires 0 < n < TWO_64
      ensures Valid() && World() == Cluster.Init(1, n, fork)
      ensures fresh(auctioneer) && fresh(auctioneer.auctions) && fresh(beacon) && cfg == c && pubkey == pk
    {
      cfg, pubkey := c, pk;
      cache, store, lastDelivered := map[], map[], LastDelivered(0, Zeros(32));
      asked, verified, reverified, unrooted := {}, {}, {}, {};
      admitted, stored, delivered := {}, {}, [];
      auctioneer := new Auctioneer(n);
      beacon := new MultiSlotState(n, fork);
      new;
      assert [View()] == seq(1, _ => InitReplica(n, fork));
    }

    // ---------- Submitting ----------

    /** A sleep, during which the slot manager handles these events. */
    method Sleep(evs: seq<Event>)
      requires Valid()
      modifies beacon
      ensures Valid() && View() == old(View()).(beacon := BeaconRuns.Run(old(beacon.View()), evs))
    {
      ghost var b := beacon.View();
      for i := 0 to |evs|
        invariant Valid() && View() == old(View()).(beacon := BeaconRuns.Run(b, evs[..i]))
      {
        assert evs[..i + 1][..i] == evs[..i];
        if evs[i].proposalSlot > 0 {
          var _ := ProcessNewSlot(beacon, evs[i]);
        }
      }
      assert evs[..|evs|] == evs;
    }

    /** verifyBlock up to its first read; a read that panics ends the request. */
    method ReadFirst(s: Submission) returns (v: Progress)
      requires Valid()
      ensures v.Go? <==> Readable(View(), s) && VerdictOn(cfg, View(), s) == Verified
      ensures v.Wait? <==> Readable(View(), s) && VerdictOn(cfg, View(), s) == AskAgain
      ensures v.Stop? ==> Some(v.e) == FirstError(cfg, View(), s)
    {
      var early := CheckBeforeRead(s, cfg.genesisTime, HeadSlot(beacon.View()), |beacon.slots|);
      if early.Some? {
        return Stop(Verification(early.value));
      }
      var slot := s.message.slot;
      if slot == 1 && beacon.slots[0].Zero? {
        return Stop(Panicked);
      }
      var randao := ReadRandao(beacon.View(), slot - 1, s.payload.fields.parentHash).randao;
      match VerifyBlock(s, cfg.genesisTime, HeadSlot(beacon.View()), |beacon.slots|, randao)
      case Verified => return Go;
      case AskAgain => return Wait;
      case Refused(e) => return Stop(Verification(e));
    }

    /** The same, remembering what passed and what must read again. */
    method VerifySubmission(s: Submission) returns (v: Progress)
      requires Valid()
      modifies this`verified, this`asked
      ensures Valid() && View() == Checked(cfg, old(View()), s)
      ensures v.Go? <==> Readable(old(View()), s) && VerdictOn(cfg, old(View()), s) == Verified
      ensures v.Wait? <==> Readable(old(View()), s) && VerdictOn(cfg, old(View()), s) == AskAgain
      ensures v.Stop? ==> Some(v.e) == FirstError(cfg, old(View()), s)
    {
      v := ReadFirst(s);
      if v.Go? {
        verified := verified + {s};
      } else if v.Wait? {
        asked := asked + {s};
      }
    }

    /** Its second read, on which it returns. */
    method VerifySubmissionLater(s: Submission) returns (v: Progress)
      requires Valid() && s in asked
      modifies this`verified, this`reverified
      ensures Valid() && View() == Rechecked(old(View()), s)
      ensures v.Go? <==> Readable(old(View()), s) && VerifyAgain(s, RandaoFor(old(View()), s)).None?
      ensures !v.Wait? && (v.Stop? ==> Some(v.e) == AgainError(old(View()), s))
    {
      var slot := s.message.slot;
      if slot == 0 || (slot == 1 && beacon.slots[0].Zero?) {
        return Stop(Panicked);
      }
      var e := VerifyAgain(s, ReadRandao(beacon.View(), slot - 1, s.payload.fields.parentHash).randao);
      if e.Some? {
        return Stop(Verification(e.value));
      }
      verified, reverified := verified + {s}, reverified + {s};
      return Go;
    }

    /** verifyWithdrawals up to its first read, and the verdict of the simulation after it. */
    method CheckWithdrawals(s: Submission, simulation: bool) returns (v: Progress)
      requires Valid() && s in verified
      modifies this`unrooted, this`admitted
      ensures Valid() && View() == Rooted(cfg, old(View()), s, simulation)
      ensures v.Go? <==> Readable(old(View()), s) && simulation
                         && VerifyWithdrawals(cfg.h, s, RootFor(old(View()), s)) == WithdrawalsOk
      ensures v.Wait? <==> Readable(old(View()), s)
                           && VerifyWithdrawals(cfg.h, s, RootFor(old(View()), s)) == WithdrawalsNotFound
      ensures v.Stop? ==> Some(v.e) == RootError(cfg, old(View()), s, simulation)
    {
      var slot := s.message.slot;
      if slot == 0 || (slot == 1 && beacon.slots[0].Zero?) {
        return Stop(Panicked);
      }
      var w := VerifyWithdrawals(cfg.h, s, ReadWithdrawals(beacon.View(), slot - 1, s.payload.fields.parentHash).root);
      if w == WithdrawalsNotFound {
        unrooted := unrooted + {s};
        return Wait;
      }
      if w != WithdrawalsOk {
        return Stop(BadWithdrawals(w));
      }
      if !simulation {
        return Stop(SimulationFailed);
      }
      admitted := admitted + {s};
      return Go;
    }

    /** Its second read. */
    method CheckWithdrawalsLater(s: Submission, simulation: bool) returns (v: Progress)
      requires Valid() && s in unrooted
      modifies this`admitted
      ensures Valid() && View() == Rerooted(cfg, old(View()), s, simulation)
      ensures v.Go? <==> Readable(old(View()), s) && simulation
                         && VerifyWithdrawals(cfg.h, s, RootFor(old(View()), s)) == WithdrawalsOk
      ensures !v.Wait? && (v.Stop? ==> Some(v.e) == RootError(cfg, old(View()), s, simulation))
    {
      var slot := s.message.slot;
      if slot == 0 || (slot == 1 && beacon.slots[0].Zero?) {
        return Stop(Panicked);
      }
      var w := VerifyWithdrawals(cfg.h, s, ReadWithdrawals(beacon.View(), slot - 1, s.payload.fields.parentHash).root);
      if w != WithdrawalsOk {
        return Stop(BadWithdrawals(w));
      }
      if !simulation {
        return Stop(SimulationFailed);
      }
      admitted := admitted + {s};
      return Go;
    }

    /** verifyBlock: `during` are the events that arrive while it waits to read again. */
    method Verify(s: Submission, during: seq<Event>) returns (e: Option<SubmitError>, ghost acts: seq<Action>)
      requires Valid()
      modifies beacon, this`asked, this`verified, this`reverified
      ensures Valid() && World() == RunFrom(cfg, old(World()), acts)
      ensures e == VerifyResult(cfg, old(View()), s, during)
      ensures beacon.View() == Slept(old(View()), s, cfg, during)
      ensures e.None? ==> s in verified
      ensures auctioneer.ring == old(auctioneer.ring) && store == old(store)
    {
      var v := VerifySubmission(s);
      acts := [Action(0, Cluster.Verify(s))];
      RunOne(cfg, old(World()), acts[0]);
      OwnOnly(cfg, old(World()), acts[0].step);
      if v.Wait? {
        ghost var c1 := World();
        Sleep(during);
        HeadsRun(cfg, c1, during);
        RunAppend(cfg, old(World()), acts, Heads(during));
        acts := acts + Heads(during);
        ghost var c2 := World();
        v := VerifySubmissionLater(s);
        OwnOnly(cfg, c2, VerifyLater(s));
        RunSnoc(cfg, old(World()), acts, Action(0, VerifyLater(s)));
        acts := acts + [Action(0, VerifyLater(s))];
      }
      return if v.Stop? then Some(v.e) else None, acts;
    }

    /** verifyWithdrawals, likewise, and the simulation. */
    method Root(s: Submission, during: seq<Event>, simulation: bool)
      returns (e: Option<SubmitError>, ghost acts: seq<Action>)
      requires Valid() && s in verified
      modifies beacon, this`unrooted, this`admitted
      ensures Valid() && World() == RunFrom(cfg, old(World()), acts)
      ensures e == RootResult(cfg, old(View()), s, during, simulation)
      ensures e.None? ==> s in admitted
      ensures beacon.View().fork == old(beacon.View()).fork
      ensures auctioneer.ring == old(auctioneer.ring) && store == old(store)
    {
      var v := CheckWithdrawals(s, simulation);
      acts := [Action(0, Cluster.CheckWithdrawals(s, simulation))];
      RunOne(cfg, old(World()), acts[0]);
      OwnOnly(cfg, old(World()), acts[0].step);
      if v.Wait? {
        ghost var c1 := World();
        Sleep(during);
        HeadsRun(cfg, c1, during);
        RunAppend(cfg, old(World()), acts, Heads(during));
        acts := acts + Heads(during);
        ghost var c2 := World();
        v := CheckWithdrawalsLater(s, simulation);
        OwnOnly(cfg, c2, Cluster.CheckWithdrawalsLater(s, simulation));
        RunSnoc(cfg, old(World()), acts, Action(0, Cluster.CheckWithdrawalsLater(s, simulation)));
        acts := acts + [Action(0, Cluster.CheckWithdrawalsLater(s, simulation))];
      }
      return if v.Stop? then Some(v.e) else None, acts;
    }

    /** Everything SubmitBlock checks before it stores. */
    method Admit(s: Submission, first: seq<Event>, second: seq<Event>, checks: Checks)
      returns (e: Option<SubmitError>, ghost acts: seq<Action>)
      requires Valid()
      modifies beacon, this`asked, this`verified, this`reverified, this`unrooted, this`admitted
      ensures Valid() && World() == RunFrom(cfg, old(World()), acts)
      ensures e == AdmitResult(cfg, old(View()), s, first, second, checks)
      ensures e.None? ==> s in admitted
      ensures auctioneer.ring == old(auctioneer.ring) && store == old(store)
      ensures beacon.fork == old(beacon.fork)
    {
      e, acts := Verify(s, first);
      if e.Some? {
        return;
      }
      if !checks.registration {
        return Some(WrongRegistration), acts;
      }
      if !checks.signature {
        return Some(BadSignature), acts;
      }
      ghost var more;
      e, more := Root(s, second, checks.simulation);
      RunAppend(cfg, old(World()), acts, more);
      acts := acts + more;
    }

    method PutPayload(s: Submission, entry: BlockAndTrace)
      requires s in admitted && ToEntry(cfg.h, s) == Some(entry)
      modifies this`store, this`stored
      ensures View() == Stored(cfg, old(View()), s)
      ensures store == NextStore(cfg, old(World()), old(View()), Cluster.PutPayload(s))
    {
      store := store[StoreKey(s) := entry];
      stored := stored + {s};
    }

    /** A bid is only made for a Capella slot. */
    method RecordBid(s: Submission, header: Header) returns (r: Result<bool, SubmitError>)
      requires Valid() && s in stored && PayloadToHeader(cfg.h, s.payload) == Some(header)
      modifies auctioneer, auctioneer.auctions
      ensures Valid() && forall a :: a in auctioneer.auctions ==> a in old(auctioneer.auctions) || fresh(a)
      ensures r.Ok? <==> Version(beacon.fork, s.message.slot) == ForkCapella
      ensures r.Err? ==> r.error == WrongFork
      ensures auctioneer.ring
           == if r.Ok? then RingStep(old(auctioneer.ring), ToBid(s, header)) else old(auctioneer.ring)
    {
      if Version(beacon.fork, s.message.slot) != ForkCapella {
        return Err(WrongFork);
      }
      var newMax := auctioneer.AddBlock(ToBid(s, header));
      return Ok(newMax);
    }

    /**
      * storeSubmission: the payload is stored first and the bid enters the auction after; a failure
      * before the payload is stored changes nothing, one after it leaves the auction alone.
      */
    method StoreSubmission(s: Submission, put: bool) returns (r: Result<bool, SubmitError>)
      requires Valid() && s in admitted
      modifies this`store, this`stored, auctioneer, auctioneer.auctions
      ensures Valid() && forall a :: a in auctioneer.auctions ==> a in old(auctioneer.auctions) || fresh(a)
      ensures r.Ok? || r == Err(WrongFork) <==> put && ToEntry(cfg.h, s).Some?
      ensures r.Ok? || r == Err(WrongFork) ==> store == NextStore(cfg, old(World()), old(View()), Cluster.PutPayload(s))
      ensures r.Ok? || r == Err(WrongFork) ==> View() == Recorded(cfg, Stored(cfg, old(View()), s), s)
      ensures r == Err(WrongFork) <==> put && ToEntry(cfg.h, s).Some? && !CapellaAt(old(View()), s.message.slot)
      ensures r == Err(NoContents) <==> ToEntry(cfg.h, s).None?
      ensures r == Err(NotStored) <==> ToEntry(cfg.h, s).Some? && !put
      ensures r.Err? && r != Err(WrongFork) ==> store == old(store) && View() == old(View())
    {
      var entry := ToEntry(cfg.h, s);
      if entry.None? {
        return Err(NoContents);
      }
      if !put {
        return Err(NotStored);
      }
      EntriesAreGenuine(cfg.h, s);
      PutPayload(s, entry.value);
      ghost var between := View();
      r := RecordBid(s, PayloadToHeader(cfg.h, s.payload).value);
      assert View() == Recorded(cfg, between, s);
    }

    /**
      * The relay after a submission is what a run of the cluster's steps leads to; it ends with putting the payload and
      * recording the bid exactly when the submission gets through, and one that is turned away before that
      * changes neither datastore nor auction.
      */
    method SubmitBlock(s: Submission, first: seq<Event>, second: seq<Event>, checks: Checks)
      returns (r: Result<bool, SubmitError>, ghost acts: seq<Action>)
      requires Valid()
      modifies beacon, this`asked, this`verified, this`reverified, this`unrooted, this`admitted
      modifies this`store, this`stored, auctioneer, auctioneer.auctions
      ensures Valid() && forall a :: a in auctioneer.auctions ==> a in old(auctioneer.auctions) || fresh(a)
      ensures World() == RunFrom(cfg, old(World()), acts)
      ensures (if r.Ok? then None else Some(r.error)) == SubmitResult(cfg, old(View()), s, first, second, checks)
      ensures r.Ok? ==> exists admission :: acts == admission + Storing(s)
      ensures r.Err? && r != Err(WrongFork) ==> store == old(store) && auctioneer.ring == old(auctioneer.ring)
    {
      ghost var before := World();
      var e;
      e, acts := Admit(s, first, second, checks);
      if e.Some? {
        return Err(e.value), acts;
      }
      ghost var between := World();
      r := StoreSubmission(s, checks.put);
      if r.Ok? || r == Err(WrongFork) {
        StoringRuns(cfg, between, World(), s);
        RunAppend(cfg, before, acts, Storing(s));
        acts := acts + Storing(s);
      }
    }

    // ---------- Offering and revealing ----------

    /**
      * `best` is the bid that the auction offers for the slot and parent. It is answered unless the slot is too
      * old, the request too late, or the bid another proposer's, zero or not for Capella; then
      * nothing changes.
      */
    method GetHeader(slot: uint64, parent: Bytes32, pk: Bytes48, late: bool)
      returns (r: Result<BuilderBid, HeaderError>, ghost best: Option<Bid>)
      requires Valid()
      modifies this`cache
      ensures Valid()
      ensures var round := auctioneer.ring[slot % |auctioneer.ring|];
              && (best.Some? <==> round.slot == slot && HasBid(round.log, parent))
              && (best.Some? ==> IsBest(round.log, parent, best.value) && best.value.slot == slot)
      ensures var tooOld := OldSlot(HeadSlot(beacon.View()), |beacon.slots|, slot);
              && (r == Err(TooOld) <==> tooOld)
              && (r == Err(LateRequest) <==> !tooOld && late)
              && (r == Err(NoBuilderBid) <==> !tooOld && !late && (best.None? || best.value.proposer != pk))
              && (r == Err(ZeroValue) <==> !tooOld && !late && Mine(best, pk) && Value(best.value) == 0)
              && (r == Err(IncompatibleFork) <==>
                  !tooOld && !late && Mine(best, pk) && Value(best.value) > 0 && !CapellaAt(View(), slot))
      ensures r.Ok? ==> Mine(best, pk) && r.value == BuilderBid(best.value.bid.header, best.value.bid.value, pubkey)
                        && r.value.header.fields.parentHash == parent
      ensures View() == if r.Err? || BidKey(best.value) in old(cache) then old(View())
                        else Fetched(old(World()), old(View()), BidKey(best.value))
    {
      var b := auctioneer.MaxProfitBlock(slot, parent);
      best := b;
      if b.Some? {
        BestIsFor(auctioneer, slot, parent, b.value);
      }
      if slot < MinSlot(HeadSlot(beacon.View()), |beacon.slots|) {
        return Err(TooOld), best;
      }
      if late {
        return Err(LateRequest), best;
      }
      if b.None? || b.value.proposer != pk {
        return Err(NoBuilderBid), best;
      }
      if Value(b.value) == 0 {
        return Err(ZeroValue), best;
      }
      var key := BidKey(b.value);
      if Version(beacon.fork, slot) != ForkCapella {
        return Err(IncompatibleFork), best;
      }
      if key !in cache && key in store {
        cache := cache[key := store[key]];
      }
      return Ok(BuilderBid(b.value.bid.header, b.value.bid.value, pubkey)), best;
    }

    ghost predicate Mine(best: Option<Bid>, pk: Bytes48) {
      best.Some? && best.value.proposer == pk
    }

    /**
      * `proposer` is the known validator of the block's index, `signed` whether its signature
      * verifies, `published` whether publication, where it is configured, succeeds.
      */
    method GetPayload(req: SignedBlock, proposer: Option<Bytes48>, late: bool, signed: bool, published: bool)
      returns (r: Result<ExecutionPayload, PayloadError>)
      requires Valid()
      modifies this`lastDelivered, this`delivered
      ensures Valid()
      ensures View() == if !late && proposer.Some? && signed && published
                        then Revealed(cfg, old(World()), old(View()), req, proposer.value) else old(View())
      ensures r.Ok? <==> delivered != old(delivered)
      ensures r.Ok? ==> req.header.Some?
                        && delivered == old(delivered) + [Delivery(req.slot, req.header.value, r.value)]
      ensures r.Err? && !r.error.OtherFork? ==> View() == old(View())
      ensures r == Err(LatePayload) <==> late
      ensures r == Err(UnknownValidator) <==> !late && proposer.None?
      ensures r == Err(Unsigned) <==> !late && proposer.Some? && !signed
      ensures r == Err(NoPayloadFound) <==>
              !late && proposer.Some? && signed && Asked(old(World()), old(View()), req, proposer.value).None?
      ensures r == Err(WrongPayload) <==>
              && !late && proposer.Some? && signed && Asked(old(World()), old(View()), req, proposer.value).Some?
              && !Right(cfg.h, old(World()), old(View()), req, proposer.value)
      ensures !late && proposer.Some? && signed && Right(cfg.h, old(World()), old(View()), req, proposer.value) ==>
                var last, hash := old(lastDelivered), req.header.value.fields.blockHash;
                && (r == Err(NotPublished) <==> !published)
                && (r == Err(NotDelivered(DiffBlockHash)) <==>
                    published && last.slot == req.slot && last.blockHash != hash)
                && (r == Err(NotDelivered(HigherSlotDelivered)) <==> published && last.slot > req.slot)
                && (r == Err(OtherFork) <==>
                    published && MayDeliver(last, req.slot, hash) && !CapellaAt(old(View()), req.slot))
    {
      if late {
        return Err(LatePayload);
      }
      if proposer.None? {
        return Err(UnknownValidator);
      }
      if !signed {
        return Err(Unsigned);
      }
      if req.header.None? {
        return Err(NoPayloadFound);
      }
      var header := req.header.value;
      var key := RequestKey(req, header, proposer.value);
      var payload;
      if key in cache {
        payload := cache[key];
      } else if key in store && Version(beacon.fork, req.slot) == ForkCapella {
        payload := store[key];
      } else {
        return Err(NoPayloadFound);
      }
      if cfg.h.headerRoot(header) != Some(payload.headerHash) {
        return Err(WrongPayload);
      }
      if !published {
        return Err(NotPublished);
      }
      var hash := header.fields.blockHash;
      if lastDelivered.slot < req.slot {
        lastDelivered := LastDelivered(req.slot, hash);
      } else if lastDelivered.slot == req.slot && lastDelivered.blockHash != hash {
        return Err(NotDelivered(DiffBlockHash));
      } else if lastDelivered.slot > req.slot {
        return Err(NotDelivered(HigherSlotDelivered));
      }
      if Version(beacon.fork, req.slot) != ForkCapella {
        return Err(OtherFork);
      }
      delivered := delivered + [Delivery(req.slot, header, payload.payload.data)];
      return Ok(payload.payload.data);
    }

    // ---------- Subscribers ----------

    /** runSubscriberBid, for one bid. */
    method TakeBid(bid: Bid)
      requires Valid()
      modifies auctioneer, auctioneer.auctions
      ensures Valid() && forall a :: a in auctioneer.auctions ==> a in old(auctioneer.auctions) || fresh(a)
      ensures View() == old(View()).(ring := RingStep(old(auctioneer.ring), bid))
    {
      var _ := auctioneer.AddBlock(bid);
    }

    /** runSubscriberBlockCache, for one block: an entry that is already cached is kept. */
    method TakeBlock(e: BlockAndTrace)
      requires Valid()
      modifies this`cache
      ensures Valid() && View() == Cached(old(View()), e)
      ensures cache == if EntryKey(e) in old(cache) then old(cache) else old(cache)[EntryKey(e) := e]
    {
      if EntryKey(e) !in cache {
        cache := cache[EntryKey(e) := e];
      }
    }
  }

  /** What verifyBlock checks before it reads: its verdict if one fails, and otherwise it depends on the read. */
  method CheckBeforeRead(s: Submission, genesisTime: uint64, head: uint64, n: nat) returns (e: Option<VerifyError>)
    ensures e.Some? ==> forall randao :: VerifyBlock(s, genesisTime, head, n, randao) == Refused(e.value)
    ensures s.message.slot == 0 <==> e == Some(EmptyBlock)
    ensures e.None? ==> VerifyBlock(s, genesisTime, head, n, "") == AskAgain
  {
    if s.message.slot == 0 {
      return Some(EmptyBlock);
    }
    if s.payload.fields.timestamp != Wrap64(genesisTime + s.message.slot * 12) {
      return Some(InvalidTimestamp);
    }
    if !Admits(head, n, s.message.slot) {
      return Some(InvalidSlot);
    }
    return None;
  }

  /** A live auction's best bid is for the auction's slot and the parent asked for. */
  lemma BestIsFor(a: Auctioneer, slot: uint64, parent: Bytes32, b: Bid)
    requires a.Valid() && a.ring[slot % |a.ring|].slot == slot && IsBest(a.ring[slot % |a.ring|].log, parent, b)
    ensures b.slot == slot && Parent(b) == parent
  {
    var i := slot % |a.ring|;
    assert Stands(a.auctions[i].state, a.ring[i]);
    LastBidsFor(a.ring[i].log, slot);
  }

  /** The entry that a request is answered from: cached or stored for its block hash, proposer and slot. */
  ghost function Asked(c: State, p: Replica, req: SignedBlock, proposer: Bytes48): Option<BlockAndTrace> {
    if req.header.None? then None
    else Lookup(c, p, PayloadKey(req.header.value.fields.blockHash, proposer, req.slot))
  }

  /** It has the root of the header that was signed. */
  ghost predicate Right(h: Hasher, c: State, p: Replica, req: SignedBlock, proposer: Bytes48) {
    var e := Asked(c, p, req, proposer);
    e.Some? && h.headerRoot(req.header.value) == Some(e.value.headerHash)
  }

  // ---------- Two reads ----------

  /** A relay at a later moment, when its slot manager has handled some events. */
  function Later(p: Replica, evs: seq<Event>): Replica
    requires |p.beacon.slots| > 0
  {
    p.(beacon := BeaconRuns.Run(p.beacon, evs))
  }

  /** What verifyBlock returns on its first read, unless it must read again; a read that panics ends the request. */
  function FirstError(cfg: Config, p: Replica, s: Submission): Option<SubmitError>
    requires |p.beacon.slots| > 0
  {
    if s.message.slot == 0 then Some(Verification(EmptyBlock))
    else
      match VerdictOn(cfg, p, s)
      case Refused(e) => Some(Verification(e))
      case _ => if Readable(p, s) then None else Some(Panicked)
  }

  /** And on its second one. */
  function AgainError(p: Replica, s: Submission): Option<SubmitError>
    requires |p.beacon.slots| > 0
  {
    if !Readable(p, s) then Some(Panicked)
    else
      match VerifyAgain(s, RandaoFor(p, s))
      case Some(e) => Some(Verification(e))
      case None => None
  }

  /** What verifyBlock returns, with these events arriving while it waits, if it does. */
  function VerifyResult(cfg: Config, p: Replica, s: Submission, during: seq<Event>): Option<SubmitError>
    requires |p.beacon.slots| > 0
  {
    if FirstError(cfg, p, s).Some? then FirstError(cfg, p, s)
    else if VerdictOn(cfg, p, s) == AskAgain then AgainError(Later(p, during), s)
    else None
  }

  /** The beacon state when verifyBlock returns. */
  function Slept(p: Replica, s: Submission, cfg: Config, during: seq<Event>): Beacon
    requires |p.beacon.slots| > 0
  {
    if Readable(p, s) && VerdictOn(cfg, p, s) == AskAgain then Later(p, during).beacon else p.beacon
  }

  /** What verifyWithdrawals returns on one read, and the simulation after it. */
  function RootError(cfg: Config, p: Replica, s: Submission, simulation: bool): Option<SubmitError>
    requires |p.beacon.slots| > 0
  {
    if !Readable(p, s) then Some(Panicked)
    else
      var v := VerifyWithdrawals(cfg.h, s, RootFor(p, s));
      if v != WithdrawalsOk then Some(BadWithdrawals(v))
      else if simulation then None
      else Some(SimulationFailed)
  }

  /** A root that is not found is read again. */
  function RootResult(cfg: Config, p: Replica, s: Submission, during: seq<Event>, simulation: bool): Option<SubmitError>
    requires |p.beacon.slots| > 0
  {
    var e := RootError(cfg, p, s, simulation);
    if e == Some(BadWithdrawals(WithdrawalsNotFound)) then RootError(cfg, Later(p, during), s, simulation) else e
  }

  /** The first check that a submission fails, with `first` and `second` arriving while each read waits, if it does. */
  function AdmitResult(cfg: Config, p: Replica, s: Submission, first: seq<Event>, second: seq<Event>, checks: Checks)
    : Option<SubmitError>
    requires |p.beacon.slots| > 0
  {
    var e := VerifyResult(cfg, p, s, first);
    if e.Some? then e
    else if !checks.registration then Some(WrongRegistration)
    else if !checks.signature then Some(BadSignature)
    else RootResult(cfg, p.(beacon := Slept(p, s, cfg, first)), s, second, checks.simulation)
  }

  /** And the first thing that goes wrong after that. */
  function SubmitResult(cfg: Config, p: Replica, s: Submission, first: seq<Event>, second: seq<Event>, checks: Checks)
    : Option<SubmitError>
    requires |p.beacon.slots| > 0
  {
    var e := AdmitResult(cfg, p, s, first, second, checks);
    if e.Some? then e
    else if ToEntry(cfg.h, s).None? then Some(NoContents)
    else if !checks.put then Some(NotStored)
    else if !CapellaAt(p, s.message.slot) then Some(WrongFork)
    else None
  }

  /** The checks that verifyBlock makes before it reads. */
  ghost predicate InTime(cfg: Config, p: Replica, s: Submission) {
    && s.message.slot > 0
    && s.payload.fields.timestamp == (cfg.genesisTime + 12 * s.message.slot) % 0x1_0000_0000_0000_0000
    && Admits(HeadSlot(p.beacon), |p.beacon.slots|, s.message.slot)
  }

  /** The relay has recorded the submission's random for the slot before and its parent. */
  ghost predicate ReadsRandom(p: Replica, s: Submission)
    requires |p.beacon.slots| > 0
  {
    Readable(p, s) && RandaoFor(p, s) == HashString(s.payload.fields.random)
  }

  /** Its withdrawals are nil, or have the root that the relay has recorded. */
  ghost predicate ReadsRoot(h: Hasher, p: Replica, s: Submission)
    requires |p.beacon.slots| > 0
  {
    && Readable(p, s)
    && (s.payload.withdrawals.Some? ==>
          RootFor(p, s) != Zeros(32) && h.withdrawalsRoot(s.payload.withdrawals.value) == Some(RootFor(p, s)))
  }

  /** Exactly when verifyBlock passes: on its first read with every check, or on its second without the last ones. */
  lemma VerifiedWhen(cfg: Config, p: Replica, s: Submission, during: seq<Event>)
    requires |p.beacon.slots| > 0
    ensures VerifyResult(cfg, p, s, during).None? <==>
            && InTime(cfg, p, s) && Readable(p, s)
            && if ReadsRandom(p, s) then Worthy(s) && Consistent(s) else ReadsRandom(Later(p, during), s)
  {
    if s.message.slot > 0 {
      VerdictExactlyWhen(s, cfg.genesisTime, HeadSlot(p.beacon), |p.beacon.slots|, RandaoFor(p, s));
      AgainExactlyWhen(s, RandaoFor(Later(p, during), s));
    }
  }

  /** Exactly when verifyWithdrawals passes: on its first read, or where it finds no root, on its second one. */
  lemma RootedWhen(cfg: Config, p: Replica, s: Submission, during: seq<Event>)
    requires |p.beacon.slots| > 0
    ensures RootResult(cfg, p, s, during, true).None? <==>
            || ReadsRoot(cfg.h, p, s)
            || (Readable(p, s) && RootFor(p, s) == Zeros(32) && ReadsRoot(cfg.h, Later(p, during), s))
  {
    if s.message.slot > 0 {
      WithdrawalsExactlyWhen(cfg.h, s, RootFor(p, s));
      WithdrawalsExactlyWhen(cfg.h, s, RootFor(Later(p, during), s));
    }
  }

  /** A submission gets through exactly when both pass, and so does everything else. */
  lemma SubmittedWhen(cfg: Config, p: Replica, s: Submission, first: seq<Event>, second: seq<Event>, checks: Checks)
    requires |p.beacon.slots| > 0
    ensures SubmitResult(cfg, p, s, first, second, checks).None? <==>
            && VerifyResult(cfg, p, s, first).None?
            && RootResult(cfg, p.(beacon := Slept(p, s, cfg, first)), s, second, true).None?
            && checks == Checks(true, true, true, true)
            && RootOf(cfg.h, s.payload).Some? && CapellaAt(p, s.message.slot)
  {
  }

  // ---------- Calls as runs ----------

  function Heads(evs: seq<Event>): (acts: seq<Action>)
    ensures |acts| == |evs|
  {
    seq(|evs|, i requires 0 <= i < |evs| => Action(0, HeadEvent(evs[i])))
  }

  /** A step of a lone relay that changes nothing but the relay. */
  lemma OwnOnly(cfg: Config, c: State, step: Step)
    requires |c.replicas| == 1 && Live(c.replicas[0])
    requires || step.HeadEvent? || step.Verify? || step.VerifyLater?
             || step.CheckWithdrawals? || step.CheckWithdrawalsLater?
    ensures Next(cfg, c, Action(0, step)) == c.(replicas := [Local(cfg, c, c.replicas[0], step)])
  {
  }

  lemma {:induction false} HeadsRun(cfg: Config, c: State, evs: seq<Event>)
    requires |c.replicas| == 1 && Live(c.replicas[0])
    ensures RunFrom(cfg, c, Heads(evs)) == c.(replicas := [Later(c.replicas[0], evs)])
  {
    if evs == [] {
      assert c.replicas == [c.replicas[0]];
    } else {
      var n := |evs| - 1;
      var before, a := evs[..n], Action(0, HeadEvent(evs[n]));
      HeadsRun(cfg, c, before);
      assert Heads(evs) == Heads(before) + [a];
      RunSnoc(cfg, c, Heads(before), a);
      OwnOnly(cfg, c.(replicas := [Later(c.replicas[0], before)]), a.step);
    }
  }

  /** The steps that a submission ends with. */
  function Storing(s: Submission): seq<Action> {
    [Action(0, Cluster.PutPayload(s))] + [Action(0, Record(s, false))]
  }

  lemma StoringRuns(cfg: Config, before: State, after: State, s: Submission)
    requires |before.replicas| == |after.replicas| == 1 && Live(before.replicas[0])
    requires before.bids == after.bids && before.blocks == after.blocks
    requires var p := before.replicas[0];
             && after.store == NextStore(cfg, before, p, Cluster.PutPayload(s))
             && after.entered == NextEntered(cfg, before, p, Cluster.PutPayload(s))
             && after.replicas[0] == Recorded(cfg, Stored(cfg, p, s), s)
    ensures RunFrom(cfg, before, Storing(s)) == after
  {
    var put, record := Action(0, Cluster.PutPayload(s)), Action(0, Record(s, false));
    RunOne(cfg, before, put);
    RunSnoc(cfg, before, [put], record);
    assert Next(cfg, Next(cfg, before, put), record) == after;
  }
}
