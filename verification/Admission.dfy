/** Over every run: what a submission that is admitted has to do with the events it builds on. */
module AdmittedBids {
  import opened Common
  import opened Bytes
  import opened Forks
  import opened BuilderBids
  import BeaconState
  import opened SlotManager
  import BeaconRuns
  import opened RelayRules
  import opened Cluster

  // ---------- A relay's events ----------

  /** The payload-attributes events of a relay, in order. */
  function EventsOf(acts: seq<Action>, r: nat): seq<Event> {
    if acts == [] then []
    else
      var rest, a := EventsOf(acts[..|acts| - 1], r), acts[|acts| - 1];
      if a.at == r && a.step.HeadEvent? then rest + [a.step.ev] else rest
  }

  lemma EventsSnoc(acts: seq<Action>, a: Action, r: nat)
    ensures EventsOf(acts + [a], r)
         == if a.at == r && a.step.HeadEvent? then EventsOf(acts, r) + [a.step.ev] else EventsOf(acts, r)
  {
    assert (acts + [a])[..|acts|] == acts;
  }

  /** What one action does to relay r's beacon state. */
  lemma NextBeacon(cfg: Config, c: State, a: Action, r: nat, n: nat)
    requires r < |c.replicas| && |c.replicas[r].ring| == n && |c.replicas[r].beacon.slots| == n && n > 0
    ensures var d, b := Next(cfg, c, a), c.replicas[r].beacon;
            && r < |d.replicas| && |d.replicas[r].ring| == n && |d.replicas[r].beacon.slots| == n
            && d.replicas[r].beacon == if a.at == r && a.step.HeadEvent? then BeaconRuns.Step(b, a.step.ev) else b
  {
  }

  lemma RunEventSnoc(b: BeaconState.Beacon, evs: seq<Event>, ev: Event)
    requires |b.slots| > 0
    ensures BeaconRuns.Run(b, evs + [ev]) == BeaconRuns.Step(BeaconRuns.Run(b, evs), ev)
  {
    assert (evs + [ev])[..|evs|] == evs;
  }

  /** A relay's beacon state is what the slot manager makes of its events. */
  lemma {:induction false} BeaconOfRun(cfg: Config, relays: nat, n: nat, fork: ForkState, acts: seq<Action>, r: nat)
    requires 0 < n < TWO_64 && r < relays
    ensures var c := RunFrom(cfg, Init(relays, n, fork), acts);
            && r < |c.replicas| && |c.replicas[r].ring| == n
            && c.replicas[r].beacon == BeaconRuns.Run(BeaconState.Init(n, fork), EventsOf(acts, r))
  {
    if acts == [] {
      assert Init(relays, n, fork).replicas[r] == InitReplica(n, fork);
    } else {
      var before, a := acts[..|acts| - 1], acts[|acts| - 1];
      BeaconOfRun(cfg, relays, n, fork, before, r);
      assert acts == before + [a];
      RunSnoc(cfg, Init(relays, n, fork), before, a);
      NextBeacon(cfg, RunFrom(cfg, Init(relays, n, fork), before), a, r, n);
      if a.step.HeadEvent? {
        RunEventSnoc(BeaconState.Init(n, fork), EventsOf(before, r), a.step.ev);
      }
    }
  }

  // ---------- What is read was recorded ----------

  /** Event k was recorded for the slot before a submission's and its parent. */
  ghost predicate BuiltOn(n: nat, fork: ForkState, evs: seq<Event>, s: Submission, k: nat)
    requires n > 0 && s.message.slot > 0
  {
    BeaconRuns.RecordedAt(n, fork, evs, k, s.message.slot - 1, s.payload.fields.parentHash)
  }

  /** The submission's random is the randao of such an event. */
  ghost predicate RandaoFrom(n: nat, fork: ForkState, evs: seq<Event>, s: Submission)
    requires n > 0
  {
    && s.message.slot > 0
    && exists k: nat :: BuiltOn(n, fork, evs, s, k) && evs[k].randao == HashString(s.payload.fields.random)
  }

  /** The root of the submission's withdrawals is the root of such an event. */
  ghost predicate RootFrom(h: Hasher, n: nat, fork: ForkState, evs: seq<Event>, s: Submission)
    requires n > 0
  {
    && s.message.slot > 0 && s.payload.withdrawals.Some?
    && exists k: nat :: && BuiltOn(n, fork, evs, s, k) && evs[k].root.Some?
                        && h.withdrawalsRoot(s.payload.withdrawals.value) == evs[k].root
  }

  lemma ReadWasRecorded(n: nat, fork: ForkState, evs: seq<Event>, slot: uint64, parent: Bytes32) returns (k: nat)
    requires n > 0
    requires var b := BeaconRuns.Run(BeaconState.Init(n, fork), evs);
             || BeaconState.ReadRandao(b, slot, parent).randao != ""
             || BeaconState.ReadWithdrawals(b, slot, parent).root != Zeros(32)
    ensures BeaconRuns.RecordedAt(n, fork, evs, k, slot, parent)
    ensures BeaconRuns.ReadsAs(BeaconRuns.Run(BeaconState.Init(n, fork), evs), slot, parent, evs[k])
  {
    var b := BeaconRuns.Run(BeaconState.Init(n, fork), evs);
    BeaconRuns.RunInvariant(n, fork, evs);
    var i := slot % n;
    assert BeaconRuns.EntryOk(b.slots[i], i, n, b.head);
    k := BeaconRuns.RecordsComeFrom(n, fork, evs, slot, parent);
  }

  ghost predicate Traced(h: Hasher, n: nat, fork: ForkState, evs: seq<Event>, p: Replica)
    requires n > 0
  {
    && p.admitted <= p.verified && p.unrooted <= p.verified
    && (forall s :: s in p.verified ==> RandaoFrom(n, fork, evs, s))
    && (forall s :: s in p.admitted && s.payload.withdrawals.Some? ==> RootFrom(h, n, fork, evs, s))
  }

  lemma BuiltOnGrows(n: nat, fork: ForkState, evs: seq<Event>, ev: Event, s: Submission, k: nat)
    requires n > 0 && s.message.slot > 0 && BuiltOn(n, fork, evs, s, k)
    ensures BuiltOn(n, fork, evs + [ev], s, k) && (evs + [ev])[k] == evs[k]
  {
    assert (evs + [ev])[..k] == evs[..k];
  }

  lemma RandaoFromGrows(n: nat, fork: ForkState, evs: seq<Event>, ev: Event, s: Submission)
    requires n > 0 && RandaoFrom(n, fork, evs, s)
    ensures RandaoFrom(n, fork, evs + [ev], s)
  {
    var k: nat :| BuiltOn(n, fork, evs, s, k) && evs[k].randao == HashString(s.payload.fields.random);
    BuiltOnGrows(n, fork, evs, ev, s, k);
  }

  lemma RootFromGrows(h: Hasher, n: nat, fork: ForkState, evs: seq<Event>, ev: Event, s: Submission)
    requires n > 0 && RootFrom(h, n, fork, evs, s)
    ensures RootFrom(h, n, fork, evs + [ev], s)
  {
    var k: nat :| && BuiltOn(n, fork, evs, s, k) && evs[k].root.Some?
                  && h.withdrawalsRoot(s.payload.withdrawals.value) == evs[k].root;
    BuiltOnGrows(n, fork, evs, ev, s, k);
  }

  lemma TracedGrows(h: Hasher, n: nat, fork: ForkState, evs: seq<Event>, ev: Event, p: Replica)
    requires n > 0 && Traced(h, n, fork, evs, p)
    ensures Traced(h, n, fork, evs + [ev], p)
  {
    forall s | s in p.verified
      ensures RandaoFrom(n, fork, evs + [ev], s)
    {
      RandaoFromGrows(n, fork, evs, ev, s);
    }
    forall s | s in p.admitted && s.payload.withdrawals.Some?
      ensures RootFrom(h, n, fork, evs + [ev], s)
    {
      RootFromGrows(h, n, fork, evs, ev, s);
    }
  }

  lemma TextRead(n: nat, fork: ForkState, evs: seq<Event>, p: Replica, s: Submission, text: string) returns (k: nat)
    requires n > 0 && p.beacon == BeaconRuns.Run(BeaconState.Init(n, fork), evs) && s.message.slot > 0
    requires RandaoFor(p, s) == text && text != ""
    ensures BuiltOn(n, fork, evs, s, k) && evs[k].randao == text
  {
    k := ReadWasRecorded(n, fork, evs, s.message.slot - 1, s.payload.fields.parentHash);
  }

  /** A submission that reads its own random reads that of an event. */
  lemma RandaoRead(n: nat, fork: ForkState, evs: seq<Event>, p: Replica, s: Submission)
    requires n > 0 && p.beacon == BeaconRuns.Run(BeaconState.Init(n, fork), evs) && s.message.slot > 0
    requires RandaoFor(p, s) == HashString(s.payload.fields.random)
    ensures RandaoFrom(n, fork, evs, s)
  {
    var k := TextRead(n, fork, evs, p, s, HashString(s.payload.fields.random));
  }

  lemma RootReadAs(n: nat, fork: ForkState, evs: seq<Event>, p: Replica, s: Submission, root: Bytes32) returns (k: nat)
    requires n > 0 && p.beacon == BeaconRuns.Run(BeaconState.Init(n, fork), evs) && s.message.slot > 0
    requires RootFor(p, s) == root && root != Zeros(32)
    ensures BuiltOn(n, fork, evs, s, k) && evs[k].root == Some(root)
  {
    k := ReadWasRecorded(n, fork, evs, s.message.slot - 1, s.payload.fields.parentHash);
  }

  lemma OkMeans(h: Hasher, s: Submission, root: Bytes32)
    requires s.payload.withdrawals.Some? && VerifyWithdrawals(h, s, root) == WithdrawalsOk
    ensures root != Zeros(32) && h.withdrawalsRoot(s.payload.withdrawals.value) == Some(root)
  {
  }

  lemma RootRead(h: Hasher, n: nat, fork: ForkState, evs: seq<Event>, p: Replica, s: Submission)
    requires n > 0 && p.beacon == BeaconRuns.Run(BeaconState.Init(n, fork), evs) && s.message.slot > 0
    requires s.payload.withdrawals.Some? && VerifyWithdrawals(h, s, RootFor(p, s)) == WithdrawalsOk
    ensures RootFrom(h, n, fork, evs, s)
  {
    OkMeans(h, s, RootFor(p, s));
    var k := RootReadAs(n, fork, evs, p, s, RootFor(p, s));
  }

  lemma LocalTraced(cfg: Config, c: State, p: Replica, step: Step, n: nat, fork: ForkState, evs: seq<Event>)
    requires n > 0 && Live(p) && Traced(cfg.h, n, fork, evs, p)
    requires p.beacon == BeaconRuns.Run(BeaconState.Init(n, fork), evs)
    ensures Traced(cfg.h, n, fork, evs, Local(cfg, c, p, step))
  {
    match step
    case Verify(s) =>
      if Readable(p, s) && VerdictOn(cfg, p, s) == Verified {
        RandaoRead(n, fork, evs, p, s);
      }
    case VerifyLater(s) =>
      if Readable(p, s) && VerifyAgain(s, RandaoFor(p, s)).None? {
        RandaoRead(n, fork, evs, p, s);
      }
    case CheckWithdrawals(s, _) => RootChecked(cfg, p, s, n, fork, evs);
    case CheckWithdrawalsLater(s, _) => RootChecked(cfg, p, s, n, fork, evs);
    case _ =>
  }

  lemma RootChecked(cfg: Config, p: Replica, s: Submission, n: nat, fork: ForkState, evs: seq<Event>)
    requires n > 0 && Live(p) && p.beacon == BeaconRuns.Run(BeaconState.Init(n, fork), evs)
    ensures Readable(p, s) && s.payload.withdrawals.Some? ==>
              VerifyWithdrawals(cfg.h, s, RootFor(p, s)) == WithdrawalsOk ==> RootFrom(cfg.h, n, fork, evs, s)
  {
    if Readable(p, s) && VerifyWithdrawals(cfg.h, s, RootFor(p, s)) == WithdrawalsOk && s.payload.withdrawals.Some? {
      RootRead(cfg.h, n, fork, evs, p, s);
    }
  }

  lemma {:induction false} RunTraced(cfg: Config, relays: nat, n: nat, fork: ForkState, acts: seq<Action>, r: nat)
    requires 0 < n < TWO_64 && r < relays
    ensures var c := RunFrom(cfg, Init(relays, n, fork), acts);
            r < |c.replicas| && Traced(cfg.h, n, fork, EventsOf(acts, r), c.replicas[r])
  {
    BeaconOfRun(cfg, relays, n, fork, acts, r);
    if acts == [] {
      assert Init(relays, n, fork).replicas[r] == InitReplica(n, fork);
    } else {
      var before, a := acts[..|acts| - 1], acts[|acts| - 1];
      assert acts == before + [a];
      RunTraced(cfg, relays, n, fork, before, r);
      RunSnoc(cfg, Init(relays, n, fork), before, a);
      BeaconOfRun(cfg, relays, n, fork, before, r);
      EventsSnoc(before, a, r);
      StepTraced(cfg, RunFrom(cfg, Init(relays, n, fork), before), a, r, n, fork, EventsOf(before, r));
    }
  }

  lemma StepTraced(cfg: Config, c: State, a: Action, r: nat, n: nat, fork: ForkState, evs: seq<Event>)
    requires n > 0 && r < |c.replicas| && |c.replicas[r].ring| == n && Traced(cfg.h, n, fork, evs, c.replicas[r])
    requires c.replicas[r].beacon == BeaconRuns.Run(BeaconState.Init(n, fork), evs)
    ensures var d := Next(cfg, c, a);
            && r < |d.replicas|
            && Traced(cfg.h, n, fork, if a.at == r && a.step.HeadEvent? then evs + [a.step.ev] else evs, d.replicas[r])
  {
    if a.at == r {
      if a.step.HeadEvent? {
        TracedGrows(cfg.h, n, fork, evs, a.step.ev, c.replicas[r]);
      } else {
        LocalTraced(cfg, c, c.replicas[r], a.step, n, fork, evs);
      }
    }
  }

  /**
    * In every run: the random of a submission that a relay admitted, on whichever read, is the randao of an event that
    * the relay recorded for the slot before and for the submission's parent; and the header of its bid has the
    * withdrawals root of such an event, unless its withdrawals are nil.
    */
  lemma AdmittedBuildsOnEvents(cfg: Config, relays: nat, n: nat, fork: ForkState, acts: seq<Action>, r: nat,
                               s: Submission)
    requires 0 < n < TWO_64 && r < relays
    requires var c := RunFrom(cfg, Init(relays, n, fork), acts); r < |c.replicas| && s in c.replicas[r].admitted
    ensures RandaoFrom(n, fork, EventsOf(acts, r), s)
    ensures s.payload.withdrawals.Some? && PayloadToHeader(cfg.h, s.payload).Some? ==>
              HeaderRootFrom(n, fork, EventsOf(acts, r), s, PayloadToHeader(cfg.h, s.payload).value)
  {
    RunTraced(cfg, relays, n, fork, acts, r);
    if s.payload.withdrawals.Some? && PayloadToHeader(cfg.h, s.payload).Some? {
      HeaderHasRoot(cfg.h, n, fork, EventsOf(acts, r), s);
    }
  }

  ghost predicate HeaderRootFrom(n: nat, fork: ForkState, evs: seq<Event>, s: Submission, header: Header)
    requires n > 0
  {
    s.message.slot > 0 && exists k: nat :: BuiltOn(n, fork, evs, s, k) && evs[k].root == Some(header.withdrawalsRoot)
  }

  lemma HeaderHasRoot(h: Hasher, n: nat, fork: ForkState, evs: seq<Event>, s: Submission)
    requires n > 0 && RootFrom(h, n, fork, evs, s) && PayloadToHeader(h, s.payload).Some?
    ensures HeaderRootFrom(n, fork, evs, s, PayloadToHeader(h, s.payload).value)
  {
    var k: nat :| && BuiltOn(n, fork, evs, s, k) && evs[k].root.Some?
                  && h.withdrawalsRoot(s.payload.withdrawals.value) == evs[k].root;
    assert evs[k].root == Some(PayloadToHeader(h, s.payload).value.withdrawalsRoot);
  }

  /** At this step the relay was told that registration, signature and simulation are in order. */
  predicate ChecksPassed(a: Action, r: nat, s: Submission) {
    a == Action(r, CheckWithdrawals(s, true)) || a == Action(r, CheckWithdrawalsLater(s, true))
  }

  lemma StepAdmits(cfg: Config, c: State, a: Action, r: nat, s: Submission)
    requires r < |c.replicas|
    ensures var d := Next(cfg, c, a);
            && |d.replicas| == |c.replicas|
            && (s in d.replicas[r].admitted ==> s in c.replicas[r].admitted || ChecksPassed(a, r, s))
  {
  }

  /** In every run, nothing is admitted for which one of those checks failed. */
  lemma {:induction false} AdmittedPassedChecks(cfg: Config, relays: nat, n: nat, fork: ForkState, acts: seq<Action>,
                                                r: nat, s: Submission)
    requires 0 < n < TWO_64 && r < relays
    ensures var c := RunFrom(cfg, Init(relays, n, fork), acts);
            && |c.replicas| == relays
            && (s in c.replicas[r].admitted ==> exists k :: 0 <= k < |acts| && ChecksPassed(acts[k], r, s))
  {
    if acts == [] {
      assert Init(relays, n, fork).replicas[r] == InitReplica(n, fork);
    } else {
      var before, a := acts[..|acts| - 1], acts[|acts| - 1];
      assert acts == before + [a];
      AdmittedPassedChecks(cfg, relays, n, fork, before, r, s);
      RunSnoc(cfg, Init(relays, n, fork), before, a);
      StepAdmits(cfg, RunFrom(cfg, Init(relays, n, fork), before), a, r, s);
    }
  }
}
