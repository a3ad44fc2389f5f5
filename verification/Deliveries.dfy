/** One block per slot at each relay. */
module OneBlockPerSlot {
  import opened Common
  import opened Bytes
  import opened Forks
  import opened RelayRules
  import opened Cluster

  function HashOf(d: Delivery): Bytes32 {
    d.header.fields.blockHash
  }

  /** Slots never go back, and one slot has one block hash. */
  ghost predicate Ordered(ds: seq<Delivery>) {
    forall i, j :: 0 <= i < j < |ds| ==>
                     ds[i].slot <= ds[j].slot && (ds[i].slot == ds[j].slot ==> HashOf(ds[i]) == HashOf(ds[j]))
  }

  /** The last delivery on record covers everything delivered. */
  ghost predicate Covers(last: LastDelivered, ds: seq<Delivery>) {
    forall i :: 0 <= i < |ds| ==>
                  ds[i].slot <= last.slot && (ds[i].slot == last.slot ==> HashOf(ds[i]) == last.blockHash)
  }

  ghost predicate Inv(p: Replica) {
    Ordered(p.delivered) && Covers(p.last, p.delivered)
  }

  lemma DeliverKeepsOrder(ds: seq<Delivery>, last: LastDelivered, d: Delivery)
    requires Ordered(ds) && Covers(last, ds) && Deliver(last, d.slot, HashOf(d)).Ok?
    ensures var next := Deliver(last, d.slot, HashOf(d)).value;
            Covers(next, ds) && Ordered(ds + [d]) && Covers(next, ds + [d])
  {
  }

  lemma RevealedKeepsInv(cfg: Config, c: State, p: Replica, req: SignedBlock, proposer: Bytes48)
    requires Inv(p)
    ensures Inv(Revealed(cfg, c, p, req, proposer))
  {
    if req.header.Some? {
      var header := req.header.value;
      var e := Lookup(c, p, RequestKey(req, header, proposer));
      if e.Some? && Deliver(p.last, req.slot, header.fields.blockHash).Ok? {
        DeliverKeepsOrder(p.delivered, p.last, Delivery(req.slot, header, e.value.payload.data));
      }
    }
  }

  lemma LocalKeepsInv(cfg: Config, c: State, p: Replica, step: Step)
    requires Inv(p) && |p.ring| > 0 && |p.beacon.slots| > 0
    ensures Inv(Local(cfg, c, p, step))
  {
    if step.GetPayload? {
      RevealedKeepsInv(cfg, c, p, step.req, step.proposer);
    }
  }

  lemma {:induction false} RunKeepsInv(cfg: Config, c: State, acts: seq<Action>)
    requires forall r :: 0 <= r < |c.replicas| ==> Inv(c.replicas[r])
    ensures |RunFrom(cfg, c, acts).replicas| == |c.replicas|
    ensures forall r :: 0 <= r < |c.replicas| ==> Inv(RunFrom(cfg, c, acts).replicas[r])
    decreases |acts|
  {
    if acts == [] {
    } else {
      var a := acts[0];
      if a.at < |c.replicas| && |c.replicas[a.at].ring| > 0 && |c.replicas[a.at].beacon.slots| > 0 {
        LocalKeepsInv(cfg, c, c.replicas[a.at], a.step);
      }
      RunKeepsInv(cfg, Next(cfg, c, a), acts[1..]);
    }
  }

  /** In every run, at every relay, delivered slots never go back and no slot is delivered with two block hashes. */
  lemma DeliveriesOrdered(cfg: Config, relays: nat, n: nat, fork: ForkState, acts: seq<Action>, r: nat)
    requires 0 < n < TWO_64 && r < relays
    ensures var c := RunFrom(cfg, Cluster.Init(relays, n, fork), acts);
            r < |c.replicas| && Ordered(c.replicas[r].delivered)
  {
    RunKeepsInv(cfg, Cluster.Init(relays, n, fork), acts);
    assert Inv(RunFrom(cfg, Cluster.Init(relays, n, fork), acts).replicas[r]);
  }

  /**
    * A request that was answered is answered again, with the same payload, for as long as the entry is found and
    * nothing else was delivered: at the same relay at any later moment.
    */
  lemma AnsweredAgain(cfg: Config, c: State, p: Replica, d: State, later: Replica, req: SignedBlock, proposer: Bytes48)
    requires var q := Revealed(cfg, c, p, req, proposer);
             && q.delivered != p.delivered
             && later.last == q.last && later.beacon.fork == p.beacon.fork
             && Lookup(d, later, RequestKey(req, req.header.value, proposer))
                == Lookup(c, p, RequestKey(req, req.header.value, proposer))
    ensures var q := Revealed(cfg, c, p, req, proposer);
            && q.delivered == p.delivered + [q.delivered[|p.delivered|]]
            && q.last == LastDelivered(req.slot, req.header.value.fields.blockHash)
            && Revealed(cfg, d, later, req, proposer)
               == later.(delivered := later.delivered + [q.delivered[|p.delivered|]])
  {
    DeliverExactlyWhen(p.last, req.slot, req.header.value.fields.blockHash);
    DeliverExactlyWhen(later.last, req.slot, req.header.value.fields.blockHash);
  }

  /** In particular when it is sent twice in a row. */
  lemma SentTwice(cfg: Config, c: State, p: Replica, req: SignedBlock, proposer: Bytes48)
    requires Revealed(cfg, c, p, req, proposer).delivered != p.delivered
    ensures var q := Revealed(cfg, c, p, req, proposer);
            Revealed(cfg, c, q, req, proposer).delivered == q.delivered + [q.delivered[|p.delivered|]]
  {
    var q := Revealed(cfg, c, p, req, proposer);
    AnsweredAgain(cfg, c, p, c, q, req, proposer);
  }

  /** A request for a slot of another fork gets no payload, but counts as the last delivery if its entry is cached. */
  lemma OtherForkCounts(cfg: Config, c: State, p: Replica, req: SignedBlock, proposer: Bytes48)
    requires req.header.Some? && !CapellaAt(p, req.slot)
    ensures var header, q := req.header.value, Revealed(cfg, c, p, req, proposer);
            var key := PayloadKey(header.fields.blockHash, proposer, req.slot);
            && q.delivered == p.delivered
            && q.last == if key in p.cache && cfg.h.headerRoot(header) == Some(p.cache[key].headerHash)
                            && MayDeliver(p.last, req.slot, key.blockHash)
                         then LastDelivered(req.slot, key.blockHash) else p.last
  {
    DeliverExactlyWhen(p.last, req.slot, req.header.value.fields.blockHash);
  }
}
