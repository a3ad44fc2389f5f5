/** The shared result collector of a batch of signature checks. */
module ResultCollector {
  import opened Common

  datatype Error = Canceled | InvalidSignature | Rejected(message: string)

  /** `doneCloses` counts how often the done channel was closed; a second time would panic. */
  datatype Collector = Collector(
    nonErrors: seq<nat>,
    numAll: int,
    isClosed: bool,
    err: Option<Error>,
    doneCloses: nat)

  function New(numAll: nat): Collector {
    Collector([], numAll, false, None, 0)
  }

  function Shut(c: Collector): Collector {
    if c.isClosed then c else c.(isClosed := true, doneCloses := c.doneCloses + 1)
  }

  function Send(c: Collector, id: nat, err: Option<Error>): Collector {
    if c.isClosed then c
    else if err.Some? then Shut(c.(err := err))
    else
      var c1 := c.(nonErrors := c.nonErrors + [id]);
      if c1.numAll == |c1.nonErrors| then Shut(c1) else c1
  }

  function SkipOne(c: Collector): Collector {
    if c.isClosed then c
    else
      var c1 := c.(numAll := c.numAll - 1);
      if c1.numAll == |c1.nonErrors| then Shut(c1) else c1
  }

  function Close(c: Collector, err: Option<Error>): Collector {
    Shut(if err.Some? then c.(err := err) else c)
  }

  class StoreResp {
    var nonErrors: seq<nat>
    var numAll: int
    var isClosed: bool
    var err: Option<Error>
    ghost var doneCloses: nat

    ghost function View(): Collector
      reads this
    {
      Collector(nonErrors, numAll, isClosed, err, doneCloses)
    }

    constructor (n: nat)
      ensures View() == New(n)
    {
      nonErrors, numAll, isClosed, err, doneCloses := [], n, false, None, 0;
    }

    method SendResult(id: nat, e: Option<Error>)
      modifies this
      ensures View() == Send(old(View()), id, e)
    {
      if isClosed {
        return;
      }
      if e.Some? {
        err := e;
        CloseDone();
        return;
      }
      nonErrors := nonErrors + [id];
      if numAll == |nonErrors| {
        CloseDone();
      }
    }

    method CloseWith(e: Option<Error>)
      modifies this
      ensures View() == Close(old(View()), e)
    {
      if e.Some? {
        err := e;
      }
      CloseDone();
    }

    method Skip()
      modifies this
      ensures View() == SkipOne(old(View()))
    {
      if isClosed {
        return;
      }
      numAll := numAll - 1;
      if numAll == |nonErrors| {
        CloseDone();
      }
    }

    method CloseDone()
      modifies this`isClosed, this`doneCloses
      ensures View() == Shut(old(View()))
    {
      if !isClosed {
        isClosed := true;
        doneCloses := doneCloses + 1;
      }
    }
  }
}

/**
  * A batch of validator registrations: one producer goes through the batch, any number of workers
  * verify signatures, and both report to one collector, in every interleaving.
  */
module RegistrationBatch {
  import opened Common
  import opened Bytes
  import opened RegistrationStore
  import opened ResultCollector

  /** The current time and the known validators, as verifyOther reads them for one registration. */
  datatype Moment = Moment(now: nat, known: set<Bytes48>)

  function VerifyOther(m: Moment, reg: Registration): Option<Error> {
    if reg.timestamp > m.now + 10 then Some(Rejected("request too far in future"))
    else if reg.pubkey !in m.known then Some(Rejected("not a known validator"))
    else None
  }

  /** Not more than ten seconds ahead, and of a known validator. */
  predicate Acceptable(m: Moment, reg: Registration) {
    reg.timestamp <= m.now + 10 && reg.pubkey in m.known
  }

  datatype Phase = Sending | Waiting | Returned(err: Option<Error>)

  /**
    * `passed` remembers, for every registration queued, the moment at which it passed verifyOther;
    * `skipped` holds those counted as already known. `stored` is the store request, once sent.
    */
  datatype Batch = Batch(
    c: Collector,
    phase: Phase,
    next: nat,
    queue: seq<nat>,
    working: multiset<nat>,
    skipped: set<nat>,
    passed: map<nat, Moment>,
    stored: Option<seq<nat>>)

  datatype Job = Job(payload: seq<Registration>, sigOk: nat -> bool)

  datatype Action =
    | CancelSending                 // the context is done at the top of the producer's loop
    | CheckHit                      // the registration is known already
    | Produce(m: Moment)            // verifyOther, then the queue
    | SigningRootFails              // the message has no signing root
    | EndOfLoop
    | Take                          // a worker takes a request
    | Finish(id: nat)               // a worker reports its verdict
    | SeeDone                       // the producer sees the done channel closed
    | CancelWaiting                 // the context is done while waiting

  function Init(job: Job): Batch {
    Batch(New(|job.payload|), Sending, 0, [], multiset{}, {}, map[], None)
  }

  /** One step; an action that is not enabled changes nothing. */
  function Next(job: Job, s: Batch, a: Action): Batch {
    var n := |job.payload|;
    match a
    case CancelSending =>
      if s.phase.Sending? && s.next < n then
        s.(c := Close(s.c, Some(Canceled)), phase := Returned(Some(Canceled)))
      else s
    case CheckHit =>
      if s.phase.Sending? && s.next < n then
        var skipped := if s.c.isClosed then s.skipped else s.skipped + {s.next};
        s.(c := SkipOne(s.c), next := s.next + 1, skipped := skipped)
      else s
    case Produce(m) =>
      if s.phase.Sending? && s.next < n then
        var e := VerifyOther(m, job.payload[s.next]);
        if e.Some? then s.(c := Close(s.c, e), phase := Waiting)
        else s.(queue := s.queue + [s.next], next := s.next + 1, passed := s.passed[s.next := m])
      else s
    case SigningRootFails =>
      if s.phase.Sending? && s.next < n then
        s.(c := Close(s.c, Some(InvalidSignature)), phase := Waiting)
      else s
    case EndOfLoop =>
      if s.phase.Sending? && s.next == n then s.(phase := Waiting) else s
    case Take =>
      if s.queue == [] then s
      else if s.c.isClosed then s.(queue := s.queue[1..])
      else s.(queue := s.queue[1..], working := s.working + multiset{s.queue[0]})
    case Finish(id) =>
      if id in s.working then
        var e := if job.sigOk(id) then None else Some(InvalidSignature);
        s.(working := s.working - multiset{id}, c := Send(s.c, id, e))
      else s
    case SeeDone =>
      if s.phase.Waiting? && s.c.isClosed then
        s.(phase := Returned(s.c.err), stored := if s.c.nonErrors == [] then None else Some(s.c.nonErrors))
      else s
    case CancelWaiting =>
      if s.phase.Waiting? then
        s.(c := Close(s.c, Some(Canceled)), phase := Returned(Some(Canceled)))
      else s
  }

  /** Any schedule of actions, from any state. */
  function RunFrom(job: Job, s: Batch, acts: seq<Action>): Batch
    decreases |acts|
  {
    if acts == [] then s else RunFrom(job, Next(job, s, acts[0]), acts[1..])
  }

  function Run(job: Job, acts: seq<Action>): Batch {
    RunFrom(job, Init(job), acts)
  }

  // ---------- The invariant of every interleaving ----------

  /** The registrations that are queued, being verified, or collected. */
  function Held(s: Batch): multiset<nat> {
    multiset(s.queue) + s.working + multiset(s.c.nonErrors)
  }

  /** Registration id was reached, not skipped, and passed verifyOther. */
  ghost predicate Genuine(job: Job, s: Batch, id: nat) {
    GenuineAt(job, s.next, s.skipped, s.passed, id)
  }

  ghost predicate GenuineAt(job: Job, next: nat, skipped: set<nat>, passed: map<nat, Moment>, id: nat) {
    && id < next && id < |job.payload|
    && id !in skipped
    && id in passed && Acceptable(passed[id], job.payload[id])
  }

  /** No registration is held twice, and all that are held are genuine. */
  ghost predicate Members(job: Job, held: multiset<nat>, next: nat, skipped: set<nat>, passed: map<nat, Moment>) {
    && (forall id :: held[id] <= 1)
    && (forall id :: id in held ==> GenuineAt(job, next, skipped, passed, id))
    && (forall id :: id in skipped ==> id < next)
  }

  /**
    * The counts: while the collector is open, every registration reached is pending, collected or
    * skipped, and the last one has not been; it closes once, and cleanly only when all are accounted for.
    */
  ghost predicate Counts(n: nat, c: Collector, phase: Phase, next: nat, pending: nat, skips: nat) {
    && next <= n
    && c.numAll == n - skips
    && c.doneCloses == (if c.isClosed then 1 else 0)
    && (!c.isClosed ==>
          && pending + |c.nonErrors| + skips == next
          && (n > 0 ==> |c.nonErrors| < c.numAll)
          && c.err.None? && !phase.Returned?
          && (phase.Waiting? ==> next == n))
    && (c.isClosed && c.err.None? ==> |c.nonErrors| == c.numAll)
  }

  ghost predicate Verified(job: Job, ids: seq<nat>) {
    forall i :: 0 <= i < |ids| ==> job.sigOk(ids[i])
  }

  /** The store request is sent on return, with everything collected, unless the context was cancelled. */
  ghost predicate Answered(s: Batch) {
    && (!s.phase.Returned? ==> s.stored.None? && s.c.err != Some(Canceled))
    && (s.phase.Returned? ==>
          && s.c.isClosed && s.c.err == s.phase.err
          && s.stored == if s.phase.err == Some(Canceled) || s.c.nonErrors == [] then None else Some(s.c.nonErrors))
  }

  ghost predicate Inv(job: Job, s: Batch) {
    && Members(job, Held(s), s.next, s.skipped, s.passed)
    && Counts(|job.payload|, s.c, s.phase, s.next, |s.queue| + |s.working|, |s.skipped|)
    && Verified(job, s.c.nonErrors)
    && Answered(s)
  }

  lemma InitInv(job: Job)
    ensures Inv(job, Init(job))
  {
  }

  lemma MembersShrink(job: Job, held: multiset<nat>, fewer: multiset<nat>, next: nat, skipped: set<nat>,
                      passed: map<nat, Moment>)
    requires Members(job, held, next, skipped, passed) && fewer <= held
    ensures Members(job, fewer, next, skipped, passed)
  {
    forall id
      ensures fewer[id] <= held[id]
    {
    }
  }

  lemma MembersHit(job: Job, held: multiset<nat>, next: nat, skipped: set<nat>, passed: map<nat, Moment>, counted: bool)
    requires Members(job, held, next, skipped, passed)
    ensures next !in skipped
    ensures Members(job, held, next + 1, if counted then skipped + {next} else skipped, passed)
  {
  }

  lemma MembersProduce(job: Job, held: multiset<nat>, next: nat, skipped: set<nat>, passed: map<nat, Moment>, m: Moment)
    requires Members(job, held, next, skipped, passed)
    requires next < |job.payload| && VerifyOther(m, job.payload[next]).None?
    ensures Members(job, held + multiset{next}, next + 1, skipped, passed[next := m])
  {
    assert next !in held;
  }

  lemma CloseCounts(n: nat, c: Collector, phase: Phase, phase': Phase, next: nat, pending: nat, skips: nat, e: Error)
    requires Counts(n, c, phase, next, pending, skips)
    ensures Counts(n, Close(c, Some(e)), phase', next, pending, skips)
  {
  }

  lemma HitCounts(n: nat, c: Collector, next: nat, pending: nat, skips: nat)
    requires Counts(n, c, Sending, next, pending, skips) && next < n
    ensures Counts(n, SkipOne(c), Sending, next + 1, pending, if c.isClosed then skips else skips + 1)
  {
  }

  lemma SendCounts(n: nat, c: Collector, phase: Phase, next: nat, pending: nat, skips: nat, id: nat, e: Option<Error>)
    requires Counts(n, c, phase, next, pending, skips) && pending > 0
    ensures Counts(n, Send(c, id, e), phase, next, pending - 1, skips)
  {
  }

  lemma CloseInv(job: Job, s: Batch, r: Batch, e: Error)
    requires Inv(job, s) && !s.phase.Returned?
    requires r == s.(c := Close(s.c, Some(e)), phase := r.phase)
    requires r.phase == if e == Canceled then Returned(Some(e)) else Waiting
    ensures Inv(job, r)
  {
    CloseCounts(|job.payload|, s.c, s.phase, r.phase, s.next, |s.queue| + |s.working|, |s.skipped|, e);
    assert Held(r) == Held(s);
  }

  lemma HitInv(job: Job, s: Batch, r: Batch)
    requires Inv(job, s) && s.phase.Sending? && s.next < |job.payload|
    requires r == Next(job, s, CheckHit)
    ensures Inv(job, r)
  {
    MembersHit(job, Held(s), s.next, s.skipped, s.passed, !s.c.isClosed);
    HitCounts(|job.payload|, s.c, s.next, |s.queue| + |s.working|, |s.skipped|);
    assert |s.skipped + {s.next}| == |s.skipped| + 1;
    assert r.c.nonErrors == s.c.nonErrors;
  }

  lemma ProduceInv(job: Job, s: Batch, m: Moment)
    requires Inv(job, s) && s.phase.Sending? && s.next < |job.payload|
    requires VerifyOther(m, job.payload[s.next]).None?
    ensures Inv(job, Next(job, s, Produce(m)))
  {
    var r := Next(job, s, Produce(m));
    MembersProduce(job, Held(s), s.next, s.skipped, s.passed, m);
    assert Held(r) == Held(s) + multiset{s.next};
  }

  lemma TakeInv(job: Job, s: Batch)
    requires Inv(job, s) && s.queue != []
    ensures Inv(job, Next(job, s, Take))
  {
    var r := Next(job, s, Take);
    var id := s.queue[0];
    assert s.queue == [id] + s.queue[1..];
    assert Held(s) == Held(r) + if s.c.isClosed then multiset{id} else multiset{};
    MembersShrink(job, Held(s), Held(r), s.next, s.skipped, s.passed);
  }

  lemma FinishInv(job: Job, s: Batch, r: Batch, id: nat)
    requires Inv(job, s) && id in s.working
    requires r == Next(job, s, Finish(id))
    ensures Inv(job, r)
  {
    var e := if job.sigOk(id) then None else Some(InvalidSignature);
    SendCounts(|job.payload|, s.c, s.phase, s.next, |s.queue| + |s.working|, |s.skipped|, id, e);
    SendHolds(job, s.c, id, e);
    assert Held(r) <= Held(s);
    MembersShrink(job, Held(s), Held(r), s.next, s.skipped, s.passed);
  }

  lemma SendHolds(job: Job, c: Collector, id: nat, e: Option<Error>)
    requires Verified(job, c.nonErrors) && (e.None? ==> job.sigOk(id))
    ensures Verified(job, Send(c, id, e).nonErrors)
    ensures multiset(Send(c, id, e).nonErrors) <= multiset(c.nonErrors) + multiset{id}
    ensures c.isClosed ==> Send(c, id, e).isClosed && Send(c, id, e).nonErrors == c.nonErrors
  {
  }

  lemma StepInv(job: Job, s: Batch, a: Action)
    requires Inv(job, s)
    ensures Inv(job, Next(job, s, a))
  {
    var r := Next(job, s, a);
    if r != s {
      match a
      case CancelSending => CloseInv(job, s, r, Canceled);
      case CheckHit => HitInv(job, s, r);
      case Produce(m) =>
        var e := VerifyOther(m, job.payload[s.next]);
        if e.Some? {
          CloseInv(job, s, r, e.value);
        } else {
          ProduceInv(job, s, m);
        }
      case SigningRootFails => CloseInv(job, s, r, InvalidSignature);
      case EndOfLoop => assert Held(r) == Held(s);
      case Take => TakeInv(job, s);
      case Finish(id) => FinishInv(job, s, r, id);
      case SeeDone => assert Held(r) == Held(s);
      case CancelWaiting => CloseInv(job, s, r, Canceled);
    }
  }

  lemma {:induction false} RunFromInv(job: Job, s: Batch, acts: seq<Action>)
    requires Inv(job, s)
    ensures Inv(job, RunFrom(job, s, acts))
    decreases |acts|
  {
    if acts == [] {
    } else {
      StepInv(job, s, acts[0]);
      RunFromInv(job, Next(job, s, acts[0]), acts[1..]);
    }
  }

  lemma RunInv(job: Job, acts: seq<Action>)
    ensures Inv(job, Run(job, acts))
  {
    InitInv(job);
    RunFromInv(job, Init(job), acts);
  }

  // ---------- What follows, for every interleaving ----------

  /**
    * The store request holds each index at most once, in range, and only for registrations that
    * passed verifyOther, were not skipped, and whose signature verified.
    */
  lemma StoredAreGenuine(job: Job, acts: seq<Action>)
    requires Run(job, acts).stored.Some?
    ensures var s := Run(job, acts);
            && Distinct(s.stored.value)
            && forall i :: 0 <= i < |s.stored.value| ==>
                             Genuine(job, s, s.stored.value[i]) && job.sigOk(s.stored.value[i])
  {
    RunInv(job, acts);
    var s := Run(job, acts);
    CollectedDistinct(job, s);
    forall i | 0 <= i < |s.c.nonErrors|
      ensures Genuine(job, s, s.c.nonErrors[i]) && job.sigOk(s.c.nonErrors[i])
    {
      assert s.c.nonErrors[i] in multiset(s.c.nonErrors);
      assert s.c.nonErrors[i] in Held(s);
    }
  }

  /**
    * A batch that returns without an error has every registration skipped or in the store request; one that returns
    * with an error stores what was verified before it, unless the context was cancelled.
    */
  lemma ReturnStores(job: Job, acts: seq<Action>, id: nat)
    requires Run(job, acts).phase.Returned?
    ensures var s := Run(job, acts);
            && (s.phase.err.None? && id < |job.payload| ==> id in s.skipped || (s.stored.Some? && id in s.stored.value))
            && (s.phase.err != Some(Canceled) && id in s.c.nonErrors ==> s.stored.Some? && id in s.stored.value)
            && (s.phase.err == Some(Canceled) ==> s.stored.None?)
  {
    RunInv(job, acts);
    if Run(job, acts).phase.err.None? && id < |job.payload| {
      ClosedCleanlyCoversAll(job, acts, id);
    }
  }

  ghost predicate Distinct(ids: seq<nat>) {
    forall i, j :: 0 <= i < j < |ids| ==> ids[i] != ids[j]
  }

  lemma CollectedDistinct(job: Job, s: Batch)
    requires Inv(job, s)
    ensures Distinct(s.c.nonErrors)
  {
    var ids := s.c.nonErrors;
    forall i, j | 0 <= i < j < |ids|
      ensures ids[i] != ids[j]
    {
      assert Held(s)[ids[i]] >= multiset(ids)[ids[i]];
      OnceInMultiset(ids, i, j);
    }
  }

  lemma OnceInMultiset(s: seq<nat>, i: nat, j: nat)
    requires i < j < |s| && multiset(s)[s[i]] <= 1
    ensures s[i] != s[j]
  {
    assert s == s[..j] + [s[j]] + s[j + 1..];
    assert s[..j][i] in multiset(s[..j]);
  }

  /** Once closed, the collected indexes never change again, whatever happens after. */
  lemma {:induction false} FrozenOnceClosed(job: Job, s: Batch, more: seq<Action>)
    requires s.c.isClosed
    ensures RunFrom(job, s, more).c.isClosed
    ensures RunFrom(job, s, more).c.nonErrors == s.c.nonErrors
    decreases |more|
  {
    if more == [] {
    } else {
      StepFrozen(job, s, more[0]);
      FrozenOnceClosed(job, Next(job, s, more[0]), more[1..]);
    }
  }

  lemma StepFrozen(job: Job, s: Batch, a: Action)
    requires s.c.isClosed
    ensures Next(job, s, a).c.isClosed && Next(job, s, a).c.nonErrors == s.c.nonErrors
  {
  }

  /** While open, fewer are collected or skipped than there are; the done channel closes at most once. */
  lemma Conservation(job: Job, acts: seq<Action>)
    requires |job.payload| > 0
    ensures var s := Run(job, acts);
            && (!s.c.isClosed ==> |s.c.nonErrors| + |s.skipped| < |job.payload|)
            && s.c.doneCloses == (if s.c.isClosed then 1 else 0)
  {
    RunInv(job, acts);
  }

  /** Closed without an error, every registration was skipped or verified. */
  lemma ClosedCleanlyCoversAll(job: Job, acts: seq<Action>, id: nat)
    requires Run(job, acts).c.isClosed && Run(job, acts).c.err.None?
    requires id < |job.payload|
    ensures id in Run(job, acts).skipped || (id in Run(job, acts).c.nonErrors && job.sigOk(id))
  {
    RunInv(job, acts);
    var s := Run(job, acts);
    var ids := s.c.nonErrors;
    CollectedDistinct(job, s);
    forall i | 0 <= i < |ids|
      ensures ids[i] < |job.payload| && ids[i] !in s.skipped
    {
      assert ids[i] in multiset(ids);
      assert ids[i] in Held(s);
    }
    Pigeonhole(ids, s.skipped, |job.payload|, id);
    if id in ids {
      var i :| 0 <= i < |ids| && ids[i] == id;
      assert job.sigOk(ids[i]);
    }
  }

  /** n distinct numbers below n, in a list and a disjoint set, are all the numbers below n. */
  lemma Pigeonhole(ids: seq<nat>, skipped: set<nat>, n: nat, id: nat)
    requires Distinct(ids)
    requires forall i :: 0 <= i < |ids| ==> ids[i] < n && ids[i] !in skipped
    requires forall k :: k in skipped ==> k < n
    requires |ids| + |skipped| == n && id < n
    ensures id in ids || id in skipped
  {
    var all := Elements(ids) + skipped;
    assert Elements(ids) !! skipped;
    assert all <= Numbers(n) by {
      forall k | k in all
        ensures k in Numbers(n)
      {
      }
    }
    DistinctCount(ids);
    SubsetOfSameSize(all, Numbers(n));
    assert id in all;
  }

  function Elements(ids: seq<nat>): (s: set<nat>)
    ensures forall k :: k in s <==> k in ids
  {
    if ids == [] then {} else Elements(ids[..|ids| - 1]) + {ids[|ids| - 1]}
  }

  lemma {:induction false} DistinctCount(ids: seq<nat>)
    requires Distinct(ids)
    ensures |Elements(ids)| == |ids|
  {
    if ids == [] {
    } else {
      DistinctCount(ids[..|ids| - 1]);
      assert ids[|ids| - 1] !in ids[..|ids| - 1];
    }
  }

  function Numbers(n: nat): (s: set<nat>)
    ensures |s| == n
    ensures forall k: nat :: k in s <==> k < n
  {
    if n == 0 then {} else Numbers(n - 1) + {n - 1}
  }

  lemma SubsetOfSameSize(a: set<nat>, b: set<nat>)
    requires a <= b && |a| == |b|
    ensures a == b
  {
    assert b == a + (b - a);
    assert |b| == |a| + |b - a|;
  }

  /** When the producer is done and all queued work is processed, the collector is closed. */
  lemma AllProcessedMeansClosed(job: Job, acts: seq<Action>)
    requires |job.payload| > 0
    requires !Run(job, acts).phase.Sending?
    requires Run(job, acts).queue == [] && Run(job, acts).working == multiset{}
    ensures Run(job, acts).c.isClosed
  {
    RunInv(job, acts);
  }

  /** An empty batch is never closed by anything but cancellation: its caller waits for the context. */
  lemma EmptyBatchWaits(job: Job, acts: seq<Action>)
    requires job.payload == []
    requires forall i :: 0 <= i < |acts| ==> acts[i] != CancelWaiting
    ensures !Run(job, acts).c.isClosed && !Run(job, acts).phase.Returned?
  {
    EmptyStays(job, Init(job), acts);
  }

  ghost predicate Idle(s: Batch) {
    s.queue == [] && s.working == multiset{} && !s.c.isClosed && !s.phase.Returned?
  }

  lemma {:induction false} EmptyStays(job: Job, s: Batch, acts: seq<Action>)
    requires job.payload == [] && Idle(s)
    requires forall i :: 0 <= i < |acts| ==> acts[i] != CancelWaiting
    ensures Idle(RunFrom(job, s, acts))
    decreases |acts|
  {
    if acts == [] {
    } else {
      EmptyStays(job, Next(job, s, acts[0]), acts[1..]);
    }
  }

  // ---------- Why a batch fails, and that it ends ----------

  lemma {:induction false} RunSnoc(job: Job, s: Batch, acts: seq<Action>, a: Action)
    ensures RunFrom(job, s, acts + [a]) == Next(job, RunFrom(job, s, acts), a)
    decreases |acts|
  {
    if acts == [] {
      assert acts + [a] == [a] && [a][1..] == [];
    } else {
      assert (acts + [a])[1..] == acts[1..] + [a];
      RunSnoc(job, Next(job, s, acts[0]), acts[1..], a);
    }
  }

  /** The state before action k of a schedule, and after it. */
  function Before(job: Job, acts: seq<Action>, k: nat): Batch
    requires k <= |acts|
  {
    Run(job, acts[..k])
  }

  lemma BeforeNext(job: Job, acts: seq<Action>, k: nat)
    requires k < |acts|
    ensures Before(job, acts, k + 1) == Next(job, Before(job, acts, k), acts[k])
  {
    assert acts[..k + 1] == acts[..k] + [acts[k]];
    RunSnoc(job, Init(job), acts[..k], acts[k]);
  }

  /**
    * What an error goes back to: cancellation, a message that cannot be hashed, a registration that is not
    * acceptable at that moment, or a signature that does not verify.
    */
  ghost predicate Causes(job: Job, s: Batch, a: Action, e: Error) {
    match a
    case CancelSending | CancelWaiting => e == Canceled
    case SigningRootFails => e == InvalidSignature
    case Finish(id) => id < |job.payload| && !job.sigOk(id) && e == InvalidSignature
    case Produce(m) =>
      && s.next < |job.payload|
      && var reg := job.payload[s.next];
      && (reg.timestamp > m.now + 10 || reg.pubkey !in m.known)
      && e == Rejected(if reg.timestamp > m.now + 10 then "request too far in future" else "not a known validator")
    case _ => false
  }

  lemma FinishCauses(job: Job, s: Batch, id: nat)
    requires Inv(job, s)
    ensures var r := Next(job, s, Finish(id));
            r.c.err != s.c.err ==> r.c.err == Some(InvalidSignature) && id < |job.payload| && !job.sigOk(id)
  {
    if id in s.working {
      assert id in Held(s);
    }
  }

  lemma StepCauses(job: Job, s: Batch, a: Action)
    requires Inv(job, s)
    ensures var r := Next(job, s, a); r.c.err != s.c.err ==> r.c.err.Some? && Causes(job, s, a, r.c.err.value)
  {
    if a.Finish? {
      FinishCauses(job, s, a.id);
    }
  }

  /** In every interleaving, an error has one of these causes. */
  lemma {:induction false} ErrorHasCause(job: Job, acts: seq<Action>, n: nat)
    requires n <= |acts| && Before(job, acts, n).c.err.Some?
    ensures exists k :: 0 <= k < n && Causes(job, Before(job, acts, k), acts[k], Before(job, acts, n).c.err.value)
    decreases n
  {
    if n == 0 {
    } else {
      BeforeNext(job, acts, n - 1);
      RunInv(job, acts[..n - 1]);
      StepCauses(job, Before(job, acts, n - 1), acts[n - 1]);
      if Before(job, acts, n - 1).c.err == Before(job, acts, n).c.err {
        ErrorHasCause(job, acts, n - 1);
      }
    }
  }

  /** A registration is skipped only by a hit on it while the batch is gone through. */
  lemma {:induction false} SkippedWasHit(job: Job, acts: seq<Action>, n: nat, id: nat)
    requires n <= |acts| && id in Before(job, acts, n).skipped
    ensures exists k :: 0 <= k < n && acts[k] == CheckHit && Before(job, acts, k).next == id
    decreases n
  {
    if n == 0 {
    } else {
      BeforeNext(job, acts, n - 1);
      if id in Before(job, acts, n - 1).skipped {
        SkippedWasHit(job, acts, n - 1, id);
      }
    }
  }

  predicate Cancels(a: Action) {
    a.CancelSending? || a.CancelWaiting?
  }

  ghost predicate AllAcceptable(job: Job, m: Moment) {
    forall i :: 0 <= i < |job.payload| ==> Acceptable(m, job.payload[i])
  }

  /** Nothing goes wrong in this schedule. */
  ghost predicate Benign(job: Job, acts: seq<Action>) {
    && (forall id :: 0 <= id < |job.payload| ==> job.sigOk(id))
    && forall k :: 0 <= k < |acts| ==>
                     && !Cancels(acts[k]) && !acts[k].SigningRootFails?
                     && (acts[k].Produce? ==> AllAcceptable(job, acts[k].m))
  }

  /**
    * Without cancellation, and with every registration acceptable and signed, a batch that returns stores all that it
    * did not skip, and returns no error.
    */
  lemma GoodBatchSucceeds(job: Job, acts: seq<Action>)
    requires Benign(job, acts) && Run(job, acts).phase.Returned?
    ensures Run(job, acts).phase.err.None?
    ensures var s := Run(job, acts);
            forall id :: 0 <= id < |job.payload| ==> id in s.skipped || (s.stored.Some? && id in s.stored.value)
  {
    assert acts[..|acts|] == acts;
    RunInv(job, acts);
    if Run(job, acts).phase.err.Some? {
      ErrorHasCause(job, acts, |acts|);
      assert false;
    }
    var s := Run(job, acts);
    forall id | 0 <= id < |job.payload|
      ensures id in s.skipped || (s.stored.Some? && id in s.stored.value)
    {
      ReturnStores(job, acts, id);
    }
  }

  /** The producer's own error is the one that is returned, whatever the workers reported before. */
  lemma ProducerErrorWins(job: Job, s: Batch, m: Moment)
    requires s.phase.Sending? && s.next < |job.payload| && !Acceptable(m, job.payload[s.next])
    ensures var r := Next(job, Next(job, s, Produce(m)), SeeDone);
            var future := job.payload[s.next].timestamp > m.now + 10;
            r.phase == Returned(Some(Rejected(if future then "request too far in future" else "not a known validator")))
  {
  }

  function PhaseRank(phase: Phase): nat {
    match phase
    case Sending => 2
    case Waiting => 1
    case Returned(_) => 0
  }

  /** What is left to do. */
  function Work(job: Job, s: Batch): nat
    requires s.next <= |job.payload|
  {
    3 * (|job.payload| - s.next) + 2 * |s.queue| + |s.working| + PhaseRank(s.phase)
  }

  lemma StepWorks(job: Job, s: Batch, a: Action)
    requires s.next <= |job.payload| && Next(job, s, a) != s
    ensures Next(job, s, a).next <= |job.payload| && Work(job, Next(job, s, a)) < Work(job, s)
  {
  }

  lemma WorkAt(job: Job, acts: seq<Action>, k: nat)
    requires k < |acts| && Before(job, acts, k).next <= |job.payload|
    requires Before(job, acts, k + 1) != Before(job, acts, k)
    ensures Before(job, acts, k + 1).next <= |job.payload|
    ensures Work(job, Before(job, acts, k + 1)) < Work(job, Before(job, acts, k))
  {
    BeforeNext(job, acts, k);
    StepWorks(job, Before(job, acts, k), acts[k]);
  }

  /** A schedule whose every action does something has at most three actions for each registration, and two more. */
  lemma {:induction false} RunsEnd(job: Job, acts: seq<Action>, n: nat)
    requires n <= |acts|
    requires forall k :: 0 <= k < n ==> Before(job, acts, k + 1) != Before(job, acts, k)
    ensures Before(job, acts, n).next <= |job.payload|
    ensures n + Work(job, Before(job, acts, n)) <= 3 * |job.payload| + 2
    decreases n
  {
    if n == 0 {
      assert acts[..0] == [];
    } else {
      RunsEnd(job, acts, n - 1);
      WorkAt(job, acts, n - 1);
    }
  }

  lemma WorkersAct(job: Job, s: Batch)
    ensures s.queue != [] ==> Next(job, s, Take) != s
    ensures forall id :: id in s.working ==> Next(job, s, Finish(id)) != s
  {
    if s.queue != [] {
      assert |Next(job, s, Take).queue| < |s.queue|;
    }
    forall id | id in s.working
      ensures Next(job, s, Finish(id)) != s
    {
      assert Next(job, s, Finish(id)).working[id] < s.working[id];
    }
  }

  /** And when nothing but cancellation can do anything any more, a batch that is not empty has returned. */
  lemma StuckMeansReturned(job: Job, acts: seq<Action>)
    requires |job.payload| > 0
    requires forall a :: !Cancels(a) ==> Next(job, Run(job, acts), a) == Run(job, acts)
    ensures Run(job, acts).phase.Returned?
    ensures Run(job, acts).queue == [] && Run(job, acts).working == multiset{}
  {
    var s := Run(job, acts);
    RunInv(job, acts);
    WorkersAct(job, s);
    assert Next(job, s, Produce(Moment(0, {}))) == s;
    assert Next(job, s, EndOfLoop) == s && Next(job, s, Take) == s && Next(job, s, SeeDone) == s;
    assert forall id :: id in s.working ==> Next(job, s, Finish(id)) == s;
    if !s.phase.Sending? {
      AllProcessedMeansClosed(job, acts);
    }
  }
}
