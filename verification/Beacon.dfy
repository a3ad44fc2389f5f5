/** The slots a relay takes submissions for, and those too old to ask a header for. */
module SlotWindow {
  import opened Bytes

  function MaxSlot(head: uint64): uint64 {
    Wrap64(head + 1)
  }

  function MinSlot(head: uint64, n: nat): uint64 {
    Wrap64(MaxSlot(head) - (n - 1))
  }

  /** The range check of verifyBlock, on wrapping counters. */
  predicate Admits(head: uint64, n: nat, slot: uint64) {
    MinSlot(head, n) <= slot <= MaxSlot(head)
  }

  /** When GetHeader answers ErrOldSlot. */
  predicate OldSlot(head: uint64, n: nat, slot: uint64) {
    slot < MinSlot(head, n)
  }

  /** Where nothing wraps, the window is the n slots up to head + 1; where the lower end wraps, it is empty. */
  lemma WindowBounds(head: uint64, n: nat, slot: uint64)
    requires 0 < n < TWO_64 && head + 1 < TWO_64
    ensures Admits(head, n, slot) <==> head + 2 >= n && head + 2 - n <= slot <= head + 1
    ensures head + 2 >= n ==> (OldSlot(head, n, slot) <==> slot < head + 2 - n)
    ensures head + 2 < n ==> !Admits(head, n, slot) && (OldSlot(head, n, slot) <==> slot < TWO_64 + head + 2 - n)
  {
  }
}

/** The beacon state: a ring of N slots keyed by slot and parent hash, and the head slot. */
module BeaconState {
  import opened Common
  import opened Bytes
  import opened Forks

  datatype WithdrawalsState = WithdrawalsState(slot: uint64, parentHash: Bytes32, root: Bytes32)

  datatype RandaoState = RandaoState(slot: uint64, parentHash: Bytes32, randao: string)

  /** `Zero` is the zero value of the Go struct: slot 0, nil mutex, nil maps. */
  datatype AtomicState =
    | Zero
    | Entry(slot: uint64, withdrawals: map<Bytes32, WithdrawalsState>, randao: map<Bytes32, RandaoState>)

  datatype Beacon = Beacon(
    slots: seq<AtomicState>,
    head: Option<uint64>,
    parentBlockHash: Bytes32,
    fork: ForkState)

  function Init(n: nat, fork: ForkState): (b: Beacon)
    ensures |b.slots| == n
  {
    Beacon(seq(n, _ => Zero), None, Zeros(32), fork)
  }

  function HeadSlot(b: Beacon): uint64 {
    if b.head.Some? then b.head.value else 0
  }

  /** The entry that holds a slot's data, if the ring holds that slot. */
  function Find(b: Beacon, slot: uint64): Option<AtomicState>
    requires |b.slots| > 0
  {
    var e := b.slots[slot % |b.slots|];
    if e.Entry? && e.slot == slot then Some(e) else None
  }

  /** A zero-valued entry counts as slot 0's, and has no mutex: reading or writing slot 0 there panics. */
  predicate Crashes(b: Beacon, slot: uint64)
    requires |b.slots| > 0
  {
    slot == 0 && b.slots[0].Zero?
  }

  /** What MultiSlotState.Withdrawals returns: the zero value where nothing is recorded. */
  function ReadWithdrawals(b: Beacon, slot: uint64, parent: Bytes32): WithdrawalsState
    requires |b.slots| > 0
  {
    var e := Find(b, slot);
    if e.Some? && parent in e.value.withdrawals then e.value.withdrawals[parent]
    else WithdrawalsState(0, Zeros(32), Zeros(32))
  }

  function ReadRandao(b: Beacon, slot: uint64, parent: Bytes32): RandaoState
    requires |b.slots| > 0
  {
    var e := Find(b, slot);
    if e.Some? && parent in e.value.randao then e.value.randao[parent]
    else RandaoState(0, Zeros(32), "")
  }

  /** The entry for a slot, a fresh one in place of another slot's. */
  function Claim(b: Beacon, slot: uint64): (e: AtomicState)
    requires |b.slots| > 0
    ensures e.Entry? && e.slot == slot
  {
    var e := b.slots[slot % |b.slots|];
    if e.Entry? && e.slot == slot then e else Entry(slot, map[], map[])
  }

  function PutWithdrawals(b: Beacon, w: WithdrawalsState): (r: Beacon)
    requires |b.slots| > 0
    ensures |r.slots| == |b.slots|
  {
    var e := Claim(b, w.slot);
    b.(slots := b.slots[w.slot % |b.slots| := e.(withdrawals := e.withdrawals[w.parentHash := w])])
  }

  function PutRandao(b: Beacon, x: RandaoState): (r: Beacon)
    requires |b.slots| > 0
    ensures |r.slots| == |b.slots|
  {
    var e := Claim(b, x.slot);
    b.(slots := b.slots[x.slot % |b.slots| := e.(randao := e.randao[x.parentHash := x])])
  }

  /** MultiSlotState: the same state held in fields that the setters update. */
  class MultiSlotState {
    var slots: seq<AtomicState>
    var headSlot: Option<uint64>
    var parentBlockHash: Bytes32
    var fork: ForkState

    function View(): Beacon
      reads this
    {
      Beacon(slots, headSlot, parentBlockHash, fork)
    }

    constructor (n: nat, f: ForkState)
      ensures View() == Init(n, f)
    {
      slots, headSlot, parentBlockHash, fork := seq(n, _ => Zero), None, Zeros(32), f;
    }

    method SetHeadSlotIfHigher(slot: uint64) returns (head: uint64, isNew: bool)
      modifies this`headSlot
      ensures isNew <==> old(headSlot).None? || slot > old(headSlot).value
      ensures headSlot == Some(head)
      ensures head == if isNew then slot else old(headSlot).value
    {
      if headSlot.None? || slot > headSlot.value {
        headSlot := Some(slot);
        return slot, true;
      }
      return headSlot.value, false;
    }

    method SetWithdrawals(w: WithdrawalsState)
      requires |slots| > 0 && !Crashes(View(), w.slot)
      modifies this`slots
      ensures View() == PutWithdrawals(old(View()), w)
    {
      var i := w.slot % |slots|;
      var curr := slots[i];
      if curr.Zero? || curr.slot != w.slot {
        curr := Entry(w.slot, map[], map[]);
        slots := slots[i := curr];
      }
      slots := slots[i := curr.(withdrawals := curr.withdrawals[w.parentHash := w])];
    }

    method SetRandao(x: RandaoState)
      requires |slots| > 0 && !Crashes(View(), x.slot)
      modifies this`slots
      ensures View() == PutRandao(old(View()), x)
    {
      var i := x.slot % |slots|;
      var curr := slots[i];
      if curr.Zero? || curr.slot != x.slot {
        curr := Entry(x.slot, map[], map[]);
        slots := slots[i := curr];
      }
      slots := slots[i := curr.(randao := curr.randao[x.parentHash := x])];
    }

    method SetParentBlockHash(hash: Bytes32)
      modifies this`parentBlockHash
      ensures parentBlockHash == hash
    {
      parentBlockHash := hash;
    }
  }
}

/** The slot manager: what one payload-attributes event does to the beacon state. */
module SlotManager {
  import opened Common
  import opened Bytes
  import opened Forks
  import opened BeaconState

  /**
    * A payload-attributes event, with what the calls it leads to return: None for a parent hash
    * that does not parse or a withdrawals root that cannot be computed, and whether the proposer
    * duties could be fetched.
    */
  datatype Event = Event(
    proposalSlot: uint64,
    parent: Option<Bytes32>,
    root: Option<Bytes32>,
    randao: string,
    dutiesOk: bool)

  /** `Crashed`: the write panics, which ends the process. */
  datatype Outcome = Done | Failed | Crashed

  function Received(ev: Event): uint64
    requires ev.proposalSlot > 0
  {
    ev.proposalSlot - 1
  }

  function WithHead(b: Beacon, slot: uint64): Beacon {
    if b.head.None? || slot > b.head.value then b.(head := Some(slot)) else b
  }

  /** updateWithdrawalsAndRandao: both are recorded, or neither. */
  function Update(b: Beacon, slot: uint64, parent: Bytes32, root: Option<Bytes32>, randao: string): (Beacon, Outcome)
    requires |b.slots| > 0
  {
    if root.None? then (b, Failed)
    else if Crashes(b, slot) then (b, Crashed)
    else
      var b1 := PutWithdrawals(b, WithdrawalsState(slot, parent, root.value));
      (PutRandao(b1, RandaoState(slot, parent, randao)), Done)
  }

  predicate OldFork(b: Beacon, slot: uint64) {
    IsAltair(b.fork, slot) || IsBellatrix(b.fork, slot)
  }

  function Process(b: Beacon, ev: Event): (Beacon, Outcome)
    requires |b.slots| > 0 && ev.proposalSlot > 0
  {
    var slot := Received(ev);
    var isNew := b.head.None? || slot > b.head.value;
    var b1 := WithHead(b, slot);
    var head := b1.head.value;
    if ev.parent.None? then (b1, Failed)
    else if !isNew && slot < head then (b1, Done)
    else if !isNew && slot == head && ev.parent.value == b.parentBlockHash then (b1, Done)
    else if !isNew && slot == head && !OldFork(b, slot) then Update(b1, slot, ev.parent.value, ev.root, ev.randao)
    else
      var version := Version(b.fork, slot);
      if version == ForkAltair || version == ForkBellatrix then (b1, Failed)
      else
        var b2 := b1.(parentBlockHash := ev.parent.value);
        if !ev.dutiesOk then (b2, Failed)
        else if OldFork(b, slot) then (b2, Done)
        else Update(b2, slot, ev.parent.value, ev.root, ev.randao)
  }

  /** The handler of one event in Run, over the mutable state. */
  method ProcessNewSlot(state: MultiSlotState, ev: Event) returns (outcome: Outcome)
    requires |state.slots| > 0 && ev.proposalSlot > 0
    modifies state
    ensures (state.View(), outcome) == Process(old(state.View()), ev)
  {
    var currParentBlockHash := state.parentBlockHash;
    var receivedSlot := ev.proposalSlot - 1;
    var currHeadSlot, isNewHighest := state.SetHeadSlotIfHigher(receivedSlot);
    if ev.parent.None? {
      return Failed;
    }
    var parent := ev.parent.value;
    var oldFork := IsAltair(state.fork, receivedSlot) || IsBellatrix(state.fork, receivedSlot);
    if !isNewHighest && receivedSlot < currHeadSlot {
      return Done;
    } else if !isNewHighest && receivedSlot == currHeadSlot && parent == currParentBlockHash {
      return Done;
    } else if !isNewHighest && receivedSlot == currHeadSlot && parent != currParentBlockHash && !oldFork {
      outcome := UpdateWithdrawalsAndRandao(state, ev, parent);
      return outcome;
    }
    var version := Version(state.fork, receivedSlot);
    if version == ForkAltair || version == ForkBellatrix {
      return Failed;
    }
    state.SetParentBlockHash(parent);
    if !ev.dutiesOk {
      return Failed;
    }
    if oldFork {
      return Done;
    }
    outcome := UpdateWithdrawalsAndRandao(state, ev, parent);
  }

  method UpdateWithdrawalsAndRandao(state: MultiSlotState, ev: Event, parent: Bytes32) returns (outcome: Outcome)
    requires |state.slots| > 0 && ev.proposalSlot > 0
    modifies state`slots
    ensures (state.View(), outcome) == Update(old(state.View()), Received(ev), parent, ev.root, ev.randao)
  {
    var slot := ev.proposalSlot - 1;
    if ev.root.None? {
      return Failed;
    }
    if slot == 0 && state.slots[0].Zero? {
      return Crashed;
    }
    state.SetWithdrawals(WithdrawalsState(slot, parent, ev.root.value));
    state.SetRandao(RandaoState(slot, parent, ev.randao));
    return Done;
  }
}

/** What holds over every run of the manager's event loop. */
module BeaconRuns {
  import opened Common
  import opened Bytes
  import opened Forks
  import opened BeaconState
  import opened SlotManager
  import opened SlotWindow

  /** One turn of Run's loop: events with proposal slot 0 are skipped, and a crash leaves what was there. */
  function Step(b: Beacon, ev: Event): Beacon
    requires |b.slots| > 0
  {
    if ev.proposalSlot == 0 then b else Process(b, ev).0
  }

  function Run(b: Beacon, evs: seq<Event>): (r: Beacon)
    requires |b.slots| > 0
    ensures |r.slots| == |b.slots| && r.fork == b.fork
  {
    if evs == [] then b
    else
      var before := Run(b, evs[..|evs| - 1]);
      StepShape(before, evs[|evs| - 1]);
      Step(before, evs[|evs| - 1])
  }

  /** Whether an event gets as far as recording its withdrawals and randao. */
  predicate Records(b: Beacon, ev: Event) {
    && ev.proposalSlot > 0 && ev.parent.Some? && ev.root.Some?
    && var slot := ev.proposalSlot - 1;
    && !OldFork(b, slot) && |b.slots| > 0 && !Crashes(b, slot)
    && if b.head.None? || slot > b.head.value then ev.dutiesOk
       else slot == b.head.value && ev.parent.value != b.parentBlockHash
  }

  /** For a slot before the head, or for the head and the parent already seen: nothing more is done. */
  predicate Stale(b: Beacon, slot: uint64, parent: Bytes32) {
    b.head.Some? && (slot < b.head.value || (slot == b.head.value && parent == b.parentBlockHash))
  }

  /** Whether an event's parent becomes the one that later events for the same slot are compared with. */
  predicate Adopts(b: Beacon, ev: Event) {
    && ev.proposalSlot > 0 && ev.parent.Some?
    && var slot := ev.proposalSlot - 1;
    && !Stale(b, slot, ev.parent.value) && Version(b.fork, slot) !in {ForkAltair, ForkBellatrix}
    && (b.head.None? || slot > b.head.value || OldFork(b, slot))
  }

  /** What an event's handler returns, exactly. */
  lemma OutcomeExactlyWhen(b: Beacon, ev: Event)
    requires |b.slots| > 0 && ev.proposalSlot > 0
    ensures var slot, outcome := ev.proposalSlot - 1, Process(b, ev).1;
            var goesOn := ev.parent.Some? && !Stale(b, slot, ev.parent.value);
            var updates := goesOn && !OldFork(b, slot) && (b.head.None? || slot > b.head.value ==> ev.dutiesOk);
            && (outcome == Crashed <==> updates && ev.root.Some? && slot == 0 && b.slots[0].Zero?)
            && (outcome == Failed <==>
                || ev.parent.None?
                || (goesOn && Version(b.fork, slot) in {ForkAltair, ForkBellatrix})
                || (Adopts(b, ev) && !ev.dutiesOk)
                || (updates && ev.root.None?))
            && (Records(b, ev) ==> outcome == Done)
  {
  }

  /** The entry an event's update leaves in the ring. */
  function Updated(b: Beacon, slot: uint64, parent: Bytes32, root: Bytes32, randao: string): AtomicState
    requires |b.slots| > 0
  {
    var e := Claim(b, slot);
    Entry(slot, e.withdrawals[parent := WithdrawalsState(slot, parent, root)],
          e.randao[parent := RandaoState(slot, parent, randao)])
  }

  lemma UpdateShape(b: Beacon, slot: uint64, parent: Bytes32, root: Bytes32, randao: string)
    requires |b.slots| > 0 && !Crashes(b, slot)
    ensures Update(b, slot, parent, Some(root), randao).0
         == b.(slots := b.slots[slot % |b.slots| := Updated(b, slot, parent, root, randao)])
  {
  }

  /** A step keeps the larger head, and changes the ring only to record at the head slot. */
  lemma StepShape(b: Beacon, ev: Event)
    requires |b.slots| > 0
    ensures Step(b, ev).fork == b.fork && |Step(b, ev).slots| == |b.slots|
    ensures ev.proposalSlot > 0 ==> Step(b, ev).head == WithHead(b, Received(ev)).head
    ensures ev.proposalSlot == 0 ==> Step(b, ev) == b
    ensures Step(b, ev).parentBlockHash == if Adopts(b, ev) then ev.parent.value else b.parentBlockHash
    ensures !Records(b, ev) ==> Step(b, ev).slots == b.slots
    ensures Records(b, ev) ==>
              && Step(b, ev).head == Some(Received(ev))
              && Step(b, ev).slots == b.slots[Received(ev) % |b.slots| :=
                                      Updated(b, Received(ev), ev.parent.value, ev.root.value, ev.randao)]
  {
    if Records(b, ev) {
      var slot := Received(ev);
      var b1 := WithHead(b, slot);
      UpdateShape(b1, slot, ev.parent.value, ev.root.value, ev.randao);
      UpdateShape(b1.(parentBlockHash := ev.parent.value), slot, ev.parent.value, ev.root.value, ev.randao);
    }
  }

  // ---------- The invariant of every run ----------

  function MaxReceived(evs: seq<Event>): Option<uint64> {
    if evs == [] then None
    else
      var m, ev := MaxReceived(evs[..|evs| - 1]), evs[|evs| - 1];
      if ev.proposalSlot > 0 && (m.None? || ev.proposalSlot - 1 > m.value) then Some(ev.proposalSlot - 1) else m
  }

  /** An entry sits at its slot's place, is no later than the head, and has withdrawals exactly where it has randao. */
  ghost predicate EntryOk(e: AtomicState, i: nat, n: nat, head: Option<uint64>)
    requires n > 0
  {
    e.Entry? ==>
      && e.slot % n == i && 0 < e.slot && head.Some? && e.slot <= head.value
      && e.withdrawals.Keys == e.randao.Keys
      && (forall p :: p in e.withdrawals ==> e.withdrawals[p].slot == e.slot && e.withdrawals[p].parentHash == p)
      && (forall p :: p in e.randao ==> e.randao[p].slot == e.slot && e.randao[p].parentHash == p)
  }

  ghost predicate Inv(b: Beacon) {
    |b.slots| > 0 && forall i {:trigger b.slots[i]} :: 0 <= i < |b.slots| ==> EntryOk(b.slots[i], i, |b.slots|, b.head)
  }

  lemma UpdatedOk(b: Beacon, slot: uint64, parent: Bytes32, root: Bytes32, randao: string)
    requires Inv(b) && slot > 0
    requires b.head.Some? ==> b.head.value <= slot
    ensures EntryOk(Updated(b, slot, parent, root, randao), slot % |b.slots|, |b.slots|, Some(slot))
  {
    assert EntryOk(b.slots[slot % |b.slots|], slot % |b.slots|, |b.slots|, b.head);
  }

  lemma StepKeepsInv(b: Beacon, ev: Event)
    requires Inv(b)
    ensures Inv(Step(b, ev))
  {
    StepShape(b, ev);
    var r := Step(b, ev);
    if Records(b, ev) {
      UpdatedOk(b, Received(ev), ev.parent.value, ev.root.value, ev.randao);
    }
    forall i | 0 <= i < |r.slots|
      ensures EntryOk(r.slots[i], i, |r.slots|, r.head)
    {
      assert EntryOk(b.slots[i], i, |b.slots|, b.head);
    }
  }

  /** Over every run: the head is the greatest slot received, and the ring invariant holds. */
  lemma {:induction false} RunInvariant(n: nat, fork: ForkState, evs: seq<Event>)
    requires n > 0
    ensures Inv(Run(Init(n, fork), evs))
    ensures Run(Init(n, fork), evs).head == MaxReceived(evs)
  {
    if evs == [] {
    } else {
      var before := evs[..|evs| - 1];
      RunInvariant(n, fork, before);
      StepKeepsInv(Run(Init(n, fork), before), evs[|evs| - 1]);
      StepShape(Run(Init(n, fork), before), evs[|evs| - 1]);
    }
  }

  // ---------- The window ----------

  /** An event that the manager would record for this slot and parent. */
  predicate IsFor(ev: Event, slot: uint64, parent: Bytes32) {
    ev.proposalSlot > 0 && ev.proposalSlot - 1 == slot && ev.parent == Some(parent)
  }

  ghost predicate NoneFor(evs: seq<Event>, slot: uint64, parent: Bytes32) {
    forall i :: 0 <= i < |evs| ==> !IsFor(evs[i], slot, parent)
  }

  /** Both records of a slot and parent, as a reader sees them. */
  ghost predicate Same(a: Beacon, b: Beacon, slot: uint64, parent: Bytes32)
    requires |a.slots| > 0 && |b.slots| > 0
  {
    && ReadWithdrawals(a, slot, parent) == ReadWithdrawals(b, slot, parent)
    && ReadRandao(a, slot, parent) == ReadRandao(b, slot, parent)
    && (Find(a, slot).Some? ==> Find(b, slot).Some?)
  }

  /** Two slots of one ring place are at least n apart. */
  lemma SamePlace(s: nat, t: nat, n: nat)
    requires n > 0 && s < t && s % n == t % n
    ensures t >= s + n
  {
    var q, p := s / n, t / n;
    assert s == n * q + s % n && t == n * p + t % n;
    if p <= q {
      TimesMonotone(n, p, q);
    } else {
      TimesMonotone(n, q + 1, p);
    }
  }

  lemma TimesMonotone(n: nat, a: nat, b: nat)
    requires a <= b
    ensures n * a <= n * b
  {
  }

  /** One event, not for this slot and parent, while the head stays less than n past the slot. */
  lemma StepKeepsRecord(b: Beacon, ev: Event, slot: uint64, parent: Bytes32)
    requires Inv(b)
    requires Find(b, slot).Some? && !IsFor(ev, slot, parent)
    requires Step(b, ev).head.Some? && Step(b, ev).head.value < slot + |b.slots|
    ensures |Step(b, ev).slots| == |b.slots|
    ensures Same(b, Step(b, ev), slot, parent)
  {
    StepShape(b, ev);
    var n, i := |b.slots|, slot % |b.slots|;
    assert EntryOk(b.slots[i], i, n, b.head);
    if Records(b, ev) {
      var t := Received(ev);
      if t % n == i && t != slot {
        SamePlace(slot, t, n);
      }
    }
  }

  /**
    * While the head is less than n past a recorded slot, what is recorded for it and a parent stays
    * readable and unchanged by every event for another slot or another parent.
    */
  lemma {:induction false} WindowKept(b: Beacon, evs: seq<Event>, slot: uint64, parent: Bytes32)
    requires Inv(b)
    requires Find(b, slot).Some? && NoneFor(evs, slot, parent)
    requires Run(b, evs).head.Some? && Run(b, evs).head.value < slot + |b.slots|
    ensures Inv(Run(b, evs)) && Same(b, Run(b, evs), slot, parent)
  {
    if evs == [] {
    } else {
      var before, ev := evs[..|evs| - 1], evs[|evs| - 1];
      var mid := Run(b, before);
      StepShape(mid, ev);
      RunHasHead(b, before, slot);
      WindowKept(b, before, slot, parent);
      StepKeepsInv(mid, ev);
      StepKeepsRecord(mid, ev, slot, parent);
    }
  }

  lemma {:induction false} RunHasHead(b: Beacon, evs: seq<Event>, slot: uint64)
    requires Inv(b) && Find(b, slot).Some?
    ensures Run(b, evs).head.Some?
  {
    if evs == [] {
      var i := slot % |b.slots|;
      assert EntryOk(b.slots[i], i, |b.slots|, b.head);
    } else {
      RunHasHead(b, evs[..|evs| - 1], slot);
      StepShape(Run(b, evs[..|evs| - 1]), evs[|evs| - 1]);
    }
  }

  /** A recording event is readable at once. */
  lemma RecordedReads(b: Beacon, ev: Event)
    requires |b.slots| > 0 && Records(b, ev)
    ensures var r, slot, parent := Step(b, ev), Received(ev), ev.parent.value;
            && |r.slots| == |b.slots| && Find(r, slot).Some?
            && ReadWithdrawals(r, slot, parent) == WithdrawalsState(slot, parent, ev.root.value)
            && ReadRandao(r, slot, parent) == RandaoState(slot, parent, ev.randao)
  {
    StepShape(b, ev);
  }

  /** Every slot that the range check admits is read one slot back, inside the window. */
  lemma AdmittedInWindow(head: uint64, n: nat, slot: uint64)
    requires 0 < n < TWO_64 && slot > 0
    requires Admits(head, n, slot)
    ensures head < (slot - 1) + n
  {
    if head + 1 < TWO_64 {
      WindowBounds(head, n, slot);
    }
  }

  /**
    * Whatever happens after an event was recorded, a submission built on it reads exactly what the
    * event said as long as the range check admits the submission and no later event is for the
    * same slot and parent.
    */
  lemma AdmittedReadsRecorded(n: nat, fork: ForkState, before: seq<Event>, ev: Event, after: seq<Event>)
    requires 0 < n < TWO_64 && Records(Run(Init(n, fork), before), ev)
    requires NoneFor(after, Received(ev), ev.parent.value)
    requires var end := Run(Step(Run(Init(n, fork), before), ev), after);
             Admits(HeadSlot(end), n, ev.proposalSlot)
    ensures var end := Run(Step(Run(Init(n, fork), before), ev), after);
            && ReadRandao(end, Received(ev), ev.parent.value).randao == ev.randao
            && ReadWithdrawals(end, Received(ev), ev.parent.value).root == ev.root.value
  {
    RunInvariant(n, fork, before);
    ReadsOn(Run(Init(n, fork), before), n, ev, after);
  }

  lemma ReadsOn(b: Beacon, n: nat, ev: Event, after: seq<Event>)
    requires 0 < n < TWO_64 && |b.slots| == n && Inv(b) && Records(b, ev)
    requires NoneFor(after, Received(ev), ev.parent.value)
    requires Admits(HeadSlot(Run(Step(b, ev), after)), n, ev.proposalSlot)
    ensures ReadRandao(Run(Step(b, ev), after), Received(ev), ev.parent.value).randao == ev.randao
    ensures ReadWithdrawals(Run(Step(b, ev), after), Received(ev), ev.parent.value).root == ev.root.value
  {
    StepKeepsInv(b, ev);
    RecordedReads(b, ev);
    StillReads(Step(b, ev), n, Received(ev), ev.parent.value, after);
  }

  /** From a state in which a slot is recorded, as long as submissions for the next one are admitted. */
  lemma StillReads(mid: Beacon, n: nat, slot: uint64, parent: Bytes32, after: seq<Event>)
    requires 0 < n < TWO_64 && |mid.slots| == n && Inv(mid) && slot + 1 < TWO_64 && Find(mid, slot).Some?
    requires NoneFor(after, slot, parent) && Admits(HeadSlot(Run(mid, after)), n, slot + 1)
    ensures Same(mid, Run(mid, after), slot, parent)
  {
    RunHasHead(mid, after, slot);
    AdmittedInWindow(HeadSlot(Run(mid, after)), n, slot + 1);
    WindowKept(mid, after, slot, parent);
  }

  // ---------- Where records come from ----------

  /** Event k of a run was recorded, for this slot and parent. */
  ghost predicate RecordedAt(n: nat, fork: ForkState, evs: seq<Event>, k: nat, slot: uint64, parent: Bytes32)
    requires n > 0
  {
    k < |evs| && IsFor(evs[k], slot, parent) && Records(Run(Init(n, fork), evs[..k]), evs[k])
  }

  /** What a reader gets is what the event said. */
  ghost predicate ReadsAs(b: Beacon, slot: uint64, parent: Bytes32, ev: Event)
    requires |b.slots| > 0
  {
    && ev.root.Some? && ReadRandao(b, slot, parent).randao == ev.randao
    && ReadWithdrawals(b, slot, parent).root == ev.root.value
  }

  ghost predicate Has(b: Beacon, slot: uint64, parent: Bytes32)
    requires |b.slots| > 0
  {
    Find(b, slot).Some? && parent in Find(b, slot).value.randao && parent in Find(b, slot).value.withdrawals
  }

  /** A record that one event did not make was there before, and reads the same. */
  lemma OldRecord(b: Beacon, ev: Event, slot: uint64, parent: Bytes32)
    requires |b.slots| > 0 && Has(Step(b, ev), slot, parent)
    ensures |Step(b, ev).slots| == |b.slots|
    ensures !(Records(b, ev) && IsFor(ev, slot, parent)) ==> Has(b, slot, parent) && Same(b, Step(b, ev), slot, parent)
  {
    StepShape(b, ev);
  }

  /** Every record in the state was made by an event of the run, and reads as that event. */
  lemma {:induction false} RecordsComeFrom(n: nat, fork: ForkState, evs: seq<Event>, slot: uint64, parent: Bytes32)
    returns (k: nat)
    requires n > 0 && Has(Run(Init(n, fork), evs), slot, parent)
    ensures RecordedAt(n, fork, evs, k, slot, parent) && ReadsAs(Run(Init(n, fork), evs), slot, parent, evs[k])
  {
    var last := |evs| - 1;
    var before, ev := evs[..last], evs[last];
    var b := Run(Init(n, fork), before);
    StepShape(b, ev);
    OldRecord(b, ev, slot, parent);
    if Records(b, ev) && IsFor(ev, slot, parent) {
      RecordedReads(b, ev);
      k := last;
    } else {
      k := RecordsComeFrom(n, fork, before, slot, parent);
      assert before[..k] == evs[..k];
    }
  }
}
