/** The registration store: the newest registration of each validator wins. */
module RegistrationStore {
  import opened Common
  import opened Bytes

  datatype Registration = Registration(pubkey: Bytes48, timestamp: uint64, feeRecipient: Bytes20, gasLimit: uint64,
                                       signature: Bytes96)

  /** The two keys kept for each validator: the registration, and its timestamp in eight bytes. */
  datatype Store = Store(times: map<Bytes48, seq<byte>>, registrations: map<Bytes48, Registration>)

  const EMPTY := Store(map[], map[])

  /** Which of a put's three database calls succeed; a missing key is not a failure. */
  datatype Io = Io(readOk: bool, writeTimeOk: bool, writeRegistrationOk: bool)

  const FINE := Io(true, true, true)

  predicate HaveNewer(s: Store, pk: Bytes48, reg: Registration, io: Io) {
    io.readOk && pk in s.times && |s.times[pk]| == 8 && reg.timestamp < LeNat(s.times[pk])
  }

  function Put(s: Store, pk: Bytes48, reg: Registration, io: Io): Store {
    if HaveNewer(s, pk, reg, io) || !io.writeTimeOk then s
    else
      var s1 := s.(times := s.times[pk := LeBytes(reg.timestamp, 8)]);
      if io.writeRegistrationOk then s1.(registrations := s1.registrations[pk := reg]) else s1
  }

  /** The eight bytes of a timestamp. */
  ghost predicate IsTime(b: seq<byte>, timestamp: uint64) {
    b == LeBytes(timestamp, 8)
  }

  /**
    * What one put does: nothing where its read finds a later timestamp in eight bytes; otherwise it writes the
    * time key, and after that the registration, as far as the writes succeed. Other validators are left alone.
    */
  lemma PutExactly(s: Store, pk: Bytes48, reg: Registration, io: Io, other: Bytes48)
    ensures var r := Put(s, pk, reg, io);
            var newer := io.readOk && pk in s.times && |s.times[pk]| == 8 && LeNat(s.times[pk]) > reg.timestamp;
            && (newer || !io.writeTimeOk ==> r == s)
            && (!newer && io.writeTimeOk ==> pk in r.times && IsTime(r.times[pk], reg.timestamp))
            && (!newer && io.writeTimeOk && !io.writeRegistrationOk ==> r.registrations == s.registrations)
            && (!newer && io.writeTimeOk && io.writeRegistrationOk ==> r.registrations == s.registrations[pk := reg])
            && (other != pk ==> (other in r.times <==> other in s.times)
                                && (other in s.times ==> r.times[other] == s.times[other]))
  {
  }

  // ---------- Runs of puts ----------

  datatype Op = Op(pk: Bytes48, reg: Registration, io: Io)

  function Run(ops: seq<Op>): Store {
    if ops == [] then EMPTY
    else
      var op := ops[|ops| - 1];
      Put(Run(ops[..|ops| - 1]), op.pk, op.reg, op.io)
  }

  /** No write fails; reads may. */
  ghost predicate AllWritten(ops: seq<Op>) {
    forall i :: 0 <= i < |ops| ==> ops[i].io.writeTimeOk && ops[i].io.writeRegistrationOk
  }

  ghost predicate IsPut(ops: seq<Op>, pk: Bytes48) {
    exists i :: 0 <= i < |ops| && ops[i].pk == pk
  }

  /** Of the puts from f on, put j has the greatest timestamp for its key, and is the last that has it. */
  ghost predicate LatestFrom(ops: seq<Op>, pk: Bytes48, f: nat, j: nat) {
    && f <= j < |ops| && ops[j].pk == pk
    && (forall i :: f <= i < |ops| && ops[i].pk == pk ==> ops[i].reg.timestamp <= ops[j].reg.timestamp)
    && (forall i :: j < i < |ops| && ops[i].pk == pk ==> ops[i].reg.timestamp < ops[j].reg.timestamp)
  }

  ghost predicate IsLatest(ops: seq<Op>, pk: Bytes48, j: nat) {
    LatestFrom(ops, pk, 0, j)
  }

  ghost predicate ReadsAfter(ops: seq<Op>, pk: Bytes48, j: nat) {
    forall i :: j < i < |ops| && ops[i].pk == pk ==> ops[i].io.readOk
  }

  /** Put f is the last one for its key whose read failed, or the first of all. */
  ghost predicate LastFailedRead(ops: seq<Op>, pk: Bytes48, f: nat) {
    && f < |ops| && ReadsAfter(ops, pk, f)
    && (f > 0 ==> ops[f].pk == pk && !ops[f].io.readOk)
  }

  ghost predicate Holds(s: Store, pk: Bytes48, reg: Registration) {
    && pk in s.registrations && s.registrations[pk] == reg
    && pk in s.times && s.times[pk] == LeBytes(reg.timestamp, 8)
  }

  /** A put whose writes succeed, for a key that holds a registration: it is turned away if it is read to be older. */
  lemma PutHolds(s: Store, pk: Bytes48, reg: Registration, op: Op)
    requires Holds(s, pk, reg) && op.io.writeTimeOk && op.io.writeRegistrationOk
    ensures Holds(Put(s, op.pk, op.reg, op.io), pk,
                  if op.pk == pk && (!op.io.readOk || op.reg.timestamp >= reg.timestamp) then op.reg else reg)
  {
    LeNat64(reg.timestamp);
  }

  lemma LatestSnoc(before: seq<Op>, pk: Bytes48, f: nat, j: nat, op: Op)
    requires LatestFrom(before, pk, f, j)
    ensures var newer := op.pk == pk && op.reg.timestamp >= before[j].reg.timestamp;
            LatestFrom(before + [op], pk, f, if newer then |before| else j)
  {
  }

  /** One more put, and what the store holds after it. */
  lemma SinceSnoc(before: seq<Op>, pk: Bytes48, f: nat, j: nat, op: Op) returns (g: nat, k: nat)
    requires LastFailedRead(before, pk, f) && LatestFrom(before, pk, f, j)
    ensures LastFailedRead(before + [op], pk, g) && LatestFrom(before + [op], pk, g, k)
    ensures (before + [op])[k].reg
         == if op.pk == pk && (!op.io.readOk || op.reg.timestamp >= before[j].reg.timestamp) then op.reg
            else before[j].reg
  {
    if op.pk == pk && !op.io.readOk {
      g, k := |before|, |before|;
    } else {
      LatestSnoc(before, pk, f, j, op);
      g, k := f, if op.pk == pk && op.reg.timestamp >= before[j].reg.timestamp then |before| else j;
    }
  }

  /**
    * After any run of puts whose writes succeed, a key that was put holds the latest of the puts since the last one
    * whose read failed.
    */
  lemma {:induction false} StoredSince(ops: seq<Op>, pk: Bytes48) returns (f: nat, j: nat)
    requires AllWritten(ops) && IsPut(ops, pk)
    ensures LastFailedRead(ops, pk, f) && LatestFrom(ops, pk, f, j) && Holds(Run(ops), pk, ops[j].reg)
  {
    var n := |ops| - 1;
    var before, op := ops[..n], ops[n];
    assert ops == before + [op] && op.io.writeTimeOk && op.io.writeRegistrationOk;
    RunSnoc(before, op);
    if IsPut(before, pk) {
      f, j := StoredSince(before, pk);
      PutHolds(Run(before), pk, before[j].reg, op);
      f, j := SinceSnoc(before, pk, f, j, op);
    } else {
      OnlyTheLast(before, pk, op);
      f, j := FirstPut(before, pk, op);
    }
  }

  lemma OnlyTheLast(before: seq<Op>, pk: Bytes48, op: Op)
    requires !IsPut(before, pk) && IsPut(before + [op], pk)
    ensures op.pk == pk
  {
    var i :| 0 <= i < |before| + 1 && (before + [op])[i].pk == pk;
  }

  lemma FirstPut(before: seq<Op>, pk: Bytes48, op: Op) returns (f: nat, j: nat)
    requires !IsPut(before, pk) && op.pk == pk && op.io.writeTimeOk && op.io.writeRegistrationOk
    ensures LastFailedRead(before + [op], pk, f) && LatestFrom(before + [op], pk, f, j)
    ensures (before + [op])[j] == op && Holds(Put(Run(before), op.pk, op.reg, op.io), pk, op.reg)
  {
    NothingFor(before, pk);
    f, j := if op.io.readOk then 0 else |before|, |before|;
  }

  lemma {:induction false} LatestExists(ops: seq<Op>, pk: Bytes48) returns (j: nat)
    requires IsPut(ops, pk)
    ensures IsLatest(ops, pk, j)
  {
    var n := |ops| - 1;
    var before, op := ops[..n], ops[n];
    assert ops == before + [op];
    if i :| 0 <= i < n && ops[i].pk == pk {
      assert before[i].pk == pk;
      j := LatestExists(before, pk);
      LatestSnoc(before, pk, 0, j, op);
      j := if op.pk == pk && op.reg.timestamp >= before[j].reg.timestamp then n else j;
    } else {
      j := n;
    }
  }

  /**
    * After any run of puts whose writes succeed, a key holds the registration with the greatest timestamp put
    * for it, the latest of ties, if and only if no read of a later put for it failed; otherwise an older one.
    */
  lemma StoresLatest(ops: seq<Op>, pk: Bytes48, j: nat)
    requires AllWritten(ops) && IsLatest(ops, pk, j)
    ensures pk in Run(ops).registrations
    ensures Run(ops).registrations[pk] == ops[j].reg <==> ReadsAfter(ops, pk, j)
    ensures Run(ops).registrations[pk].timestamp == ops[j].reg.timestamp <==> ReadsAfter(ops, pk, j)
  {
    var f, k := StoredSince(ops, pk);
  }

  lemma {:induction false} NothingFor(ops: seq<Op>, pk: Bytes48)
    requires forall i :: 0 <= i < |ops| ==> ops[i].pk != pk
    ensures pk !in Run(ops).times && pk !in Run(ops).registrations
  {
    if ops == [] {
    } else {
      NothingFor(ops[..|ops| - 1], pk);
    }
  }

  /**
    * Any two orders of the same puts agree on the greatest timestamp. So if one leaves a key with it, the other
    * leaves the same timestamp exactly when no read failed there after the latest put; without failed reads
    * they all agree.
    */
  lemma OrdersAgree(a: seq<Op>, b: seq<Op>, pk: Bytes48, ja: nat, jb: nat)
    requires AllWritten(a) && AllWritten(b) && multiset(a) == multiset(b)
    requires IsLatest(a, pk, ja) && IsLatest(b, pk, jb)
    ensures pk in Run(a).registrations && pk in Run(b).registrations
    ensures a[ja].reg.timestamp == b[jb].reg.timestamp
    ensures ReadsAfter(a, pk, ja) ==>
              (Run(a).registrations[pk].timestamp == Run(b).registrations[pk].timestamp <==> ReadsAfter(b, pk, jb))
  {
    StoresLatest(a, pk, ja);
    StoresLatest(b, pk, jb);
    var kb := IndexIn(a, b, ja);
    var ka := IndexIn(b, a, jb);
  }

  lemma IndexIn(a: seq<Op>, b: seq<Op>, i: nat) returns (j: nat)
    requires multiset(a) == multiset(b) && i < |a|
    ensures j < |b| && b[j] == a[i]
  {
    assert a[i] in multiset(a);
    assert a[i] in b;
    j :| 0 <= j < |b| && b[j] == a[i];
  }

  // ---------- Puts that may fail ----------

  ghost predicate WasPut(ops: seq<Op>, pk: Bytes48, reg: Registration) {
    exists i :: 0 <= i < |ops| && ops[i].pk == pk && ops[i].reg == reg
  }

  /** Whatever fails, what is stored under a key was put there. */
  lemma {:induction false} StoredWasPut(ops: seq<Op>, pk: Bytes48)
    requires pk in Run(ops).registrations
    ensures WasPut(ops, pk, Run(ops).registrations[pk])
  {
    var n := |ops| - 1;
    var before, reg := ops[..n], Run(ops).registrations[pk];
    if pk in Run(before).registrations && Run(before).registrations[pk] == reg {
      StoredWasPut(before, pk);
      var i :| 0 <= i < n && before[i].pk == pk && before[i].reg == reg;
      assert ops[i].pk == pk && ops[i].reg == reg;
    } else {
      assert ops[n].pk == pk && ops[n].reg == reg;
    }
  }

  /** The time key of a stored registration is missing, malformed or below the registration's timestamp. */
  predicate Behind(s: Store, pk: Bytes48) {
    && pk in s.registrations
    && !(pk in s.times && |s.times[pk]| == 8 && LeNat(s.times[pk]) >= s.registrations[pk].timestamp)
  }

  predicate Older(s: Store, pk: Bytes48, reg: Registration) {
    pk in s.registrations && reg.timestamp < s.registrations[pk].timestamp
  }

  /** A put of an older registration whose read fails and whose second write fails. */
  predicate Falls(s: Store, op: Op, pk: Bytes48) {
    && op.pk == pk && Older(s, pk, op.reg)
    && !op.io.readOk && op.io.writeTimeOk && !op.io.writeRegistrationOk
  }

  /** From any state that is not behind, a put leaves the time key behind in exactly that case. */
  lemma BehindExactlyWhen(s: Store, op: Op, pk: Bytes48)
    requires !Behind(s, pk)
    ensures Behind(Put(s, op.pk, op.reg, op.io), pk) <==> Falls(s, op, pk)
  {
    LeNat64(op.reg.timestamp);
  }

  /** And it takes the stored timestamp back exactly when its read failed, its writes did not, and it is older. */
  lemma RegressesExactlyWhen(s: Store, pk: Bytes48, reg: Registration, io: Io)
    requires pk in s.registrations && !Behind(s, pk)
    ensures Put(s, pk, reg, io).registrations[pk].timestamp < s.registrations[pk].timestamp <==>
            Older(s, pk, reg) && !io.readOk && io.writeTimeOk && io.writeRegistrationOk
  {
  }

  ghost predicate NeverBehind(ops: seq<Op>, pk: Bytes48) {
    forall k :: 0 <= k <= |ops| ==> !Behind(Run(ops[..k]), pk)
  }

  ghost predicate NoneFalls(ops: seq<Op>, pk: Bytes48) {
    forall k :: 0 <= k < |ops| ==> !Falls(Run(ops[..k]), ops[k], pk)
  }

  lemma RunSnoc(before: seq<Op>, op: Op)
    ensures Run(before + [op]) == Put(Run(before), op.pk, op.reg, op.io)
  {
    assert (before + [op])[..|before|] == before;
  }

  lemma NeverBehindSnoc(before: seq<Op>, op: Op, pk: Bytes48)
    ensures NeverBehind(before + [op], pk) <==> NeverBehind(before, pk) && !Behind(Run(before + [op]), pk)
  {
    var ops := before + [op];
    assert ops[..|ops|] == ops;
    forall k | 0 <= k <= |before|
      ensures Run(ops[..k]) == Run(before[..k])
    {
      assert ops[..k] == before[..k];
    }
  }

  lemma NoneFallsSnoc(before: seq<Op>, op: Op, pk: Bytes48)
    ensures NoneFalls(before + [op], pk) <==> NoneFalls(before, pk) && !Falls(Run(before), op, pk)
  {
    var ops := before + [op];
    assert ops[..|before|] == before && ops[|before|] == op;
    forall k | 0 <= k < |before|
      ensures Falls(Run(ops[..k]), ops[k], pk) <==> Falls(Run(before[..k]), before[k], pk)
    {
      assert ops[..k] == before[..k];
    }
  }

  /** Over every run, whatever fails: the time key is never behind exactly when there was no such put. */
  lemma {:induction false} TimeNeverBelow(ops: seq<Op>, pk: Bytes48)
    ensures NeverBehind(ops, pk) <==> NoneFalls(ops, pk)
  {
    if ops == [] {
      assert ops[..0] == [];
    } else {
      var n := |ops| - 1;
      var before, op := ops[..n], ops[n];
      TimeNeverBelow(before, pk);
      assert ops == before + [op];
      NeverBehindSnoc(before, op, pk);
      NoneFallsSnoc(before, op, pk);
      if NeverBehind(before, pk) {
        assert before[..n] == before;
        BehindExactlyWhen(Run(before), op, pk);
        RunSnoc(before, op);
      }
    }
  }

  /** It goes back: with both writes, the older registration takes the newer one's place. */
  lemma FailedReadRegresses(pk: Bytes48, newer: Registration, older: Registration)
    requires older.timestamp < newer.timestamp
    ensures var ops := [Op(pk, newer, FINE), Op(pk, older, Io(false, true, true))];
            AllWritten(ops) && IsLatest(ops, pk, 0) && Run(ops).registrations == map[pk := older]
  {
    var first, second := Op(pk, newer, FINE), Op(pk, older, Io(false, true, true));
    assert [] + [first] == [first] && [first] + [second] == [first, second];
    RunSnoc([], first);
    RunSnoc([first], second);
  }

  /** It happens: the newer registration stays, under the older one's time. */
  lemma FailedReadFallsBehind(pk: Bytes48, newer: Registration, older: Registration)
    requires older.timestamp < newer.timestamp
    ensures var ops := [Op(pk, newer, FINE), Op(pk, older, Io(false, true, false))];
            Behind(Run(ops), pk) && Run(ops).registrations[pk] == newer
  {
    var first, second := Op(pk, newer, FINE), Op(pk, older, Io(false, true, false));
    assert [] + [first] == [first] && [first] + [second] == [first, second];
    RunSnoc([], first);
    RunSnoc([first], second);
    LeNat64(older.timestamp);
  }

  // ---------- The store object ----------

  /** Holds what a run of puts leaves, in fields that a put updates. */
  class Datastore {
    var times: map<Bytes48, seq<byte>>
    var registrations: map<Bytes48, Registration>
    ghost var ops: seq<Op>

    function View(): Store
      reads this
    {
      Store(times, registrations)
    }

    ghost predicate Valid()
      reads this
    {
      View() == Run(ops)
    }

    constructor ()
      ensures Valid() && ops == []
    {
      times, registrations, ops := map[], map[], [];
    }

    method PutNewerRegistration(pk: Bytes48, reg: Registration, io: Io) returns (ok: bool)
      requires Valid()
      modifies this
      ensures Valid() && ops == old(ops) + [Op(pk, reg, io)]
      ensures View() == Put(old(View()), pk, reg, io)
      ensures ok <==> HaveNewer(old(View()), pk, reg, io) || (io.writeTimeOk && io.writeRegistrationOk)
    {
      ops := ops + [Op(pk, reg, io)];
      assert ops[..|ops| - 1] == old(ops);
      if io.readOk && pk in times && |times[pk]| == 8 {
        if reg.timestamp < LeNat(times[pk]) {
          return true;
        }
      }
      var b := LeBytes(reg.timestamp, 8);
      if !io.writeTimeOk {
        return false;
      }
      times := times[pk := b];
      if io.writeRegistrationOk {
        registrations := registrations[pk := reg];
      }
      return io.writeRegistrationOk;
    }

    /**
      * A registration that is returned was put for its key; after puts whose writes succeed there is one exactly
      * for keys that were put, and it is the latest since the last put whose read failed.
      */
    method GetRegistration(pk: Bytes48) returns (r: Option<Registration>)
      requires Valid()
      ensures r.Some? ==> WasPut(ops, pk, r.value)
      ensures AllWritten(ops) ==> (r.Some? <==> IsPut(ops, pk))
      ensures AllWritten(ops) && r.Some? ==>
                exists f: nat, j: nat ::
                  LastFailedRead(ops, pk, f) && LatestFrom(ops, pk, f, j) && ops[j].reg == r.value
    {
      if AllWritten(ops) && IsPut(ops, pk) {
        ghost var f, j := StoredSince(ops, pk);
      }
      if pk in registrations {
        StoredWasPut(ops, pk);
        return Some(registrations[pk]);
      }
      return None;
    }
  }
}

/** The scan for recently delivered payloads: downward from a slot, on a wrapping counter. */
module DeliveredScan {
  import opened Common
  import opened Bytes

  /** What the database says about one slot. */
  datatype Lookup<T> = Found(trace: T) | NotFound | Failed

  /** The slot probed d steps below the start. */
  function Below(start: uint64, d: nat): uint64 {
    Wrap64(start - d)
  }

  /** What each probe of a scan sees, d steps below the start. */
  function At<T>(db: uint64 -> Lookup<T>, start: uint64): nat -> Lookup<T> {
    (d: nat) => db(Below(start, d))
  }

  /** The traces found by the first n probes, in order: newest slot first. */
  function FoundIn<T>(at: nat -> Lookup<T>, n: nat): seq<T> {
    if n == 0 then []
    else
      var rest := FoundIn(at, n - 1);
      match at(n - 1)
      case Found(t) => rest + [t]
      case _ => rest
  }

  /** 350 slots, and one more if the last of them had a trace. */
  function Span<T>(at: nat -> Lookup<T>): nat {
    if at(349).Found? then 351 else 350
  }

  /** At most so many, from the front. */
  function Cut<T>(s: seq<T>, limit: nat): (r: seq<T>)
    ensures r <= s && |r| <= limit && (|r| < limit ==> r == s)
  {
    if |s| <= limit then s else s[..limit]
  }

  /** A probe is one slot further down than the one before, and goes on at the top below slot 0. */
  lemma ProbesDown<T>(db: uint64 -> Lookup<T>, start: uint64, d: nat)
    requires d <= 351
    ensures d <= start ==> At(db, start)(d) == db(start - d)
    ensures d > start ==> At(db, start)(d) == db(start - d + 0x1_0000_0000_0000_0000)
  {
    assert Below(start, d) == if d <= start then start - d else start - d + 0x1_0000_0000_0000_0000;
  }

  /** The traces found are those of the probes that found one, in the order of the probes. */
  lemma {:induction false} FoundExactly<T>(at: nat -> Lookup<T>, n: nat) returns (ds: seq<nat>)
    ensures |ds| == |FoundIn(at, n)|
    ensures forall i :: 0 <= i < |ds| ==> ds[i] < n && at(ds[i]) == Found(FoundIn(at, n)[i])
    ensures forall i, j :: 0 <= i < j < |ds| ==> ds[i] < ds[j]
    ensures forall d: nat :: d < n && at(d).Found? ==> d in ds
  {
    if n == 0 {
      ds := [];
    } else {
      ds := FoundExactly(at, n - 1);
      if at(n - 1).Found? {
        ds := ds + [n - 1];
      }
    }
  }

  /** The 350 slots from the start down are looked at, and one more if the last of them had a trace. */
  lemma SpanIs<T>(at: nat -> Lookup<T>)
    ensures FoundIn(at, Span(at))
         == FoundIn(at, 350) + if at(349).Found? && at(350).Found? then [at(350).trace] else []
  {
    assert FoundIn(at, 351) == FoundIn(at, 350) + if at(350).Found? then [at(350).trace] else [];
  }

  lemma {:induction false} FoundGrows<T>(at: nat -> Lookup<T>, n: nat, m: nat)
    requires n <= m
    ensures FoundIn(at, n) <= FoundIn(at, m)
    decreases m
  {
    if n == m {
    } else {
      FoundGrows(at, n, m - 1);
    }
  }

  lemma CutOfPrefix<T>(at: nat -> Lookup<T>, n: nat, m: nat, limit: nat)
    requires n <= m && |FoundIn(at, n)| >= limit
    ensures Cut(FoundIn(at, n), limit) == Cut(FoundIn(at, m), limit)
  {
    FoundGrows(at, n, m);
  }

  /** The distance walked, as the code computes it on unsigned integers. */
  lemma WrappedDistance(start: uint64, d: nat)
    requires d < TWO_64
    ensures Wrap64(start - Below(start, d)) == d
    ensures Wrap64(Below(start, d) - 1) == Below(start, d + 1)
  {
  }

  method StepDown(start: uint64, slot: uint64, ghost d: nat) returns (next: uint64)
    requires d < 351 && slot == Below(start, d)
    ensures next == Below(start, d + 1)
  {
    WrappedDistance(start, d);
    next := Wrap64(slot - 1);
  }

  method Lag(start: uint64, slot: uint64, ghost d: nat) returns (lag: uint64)
    requires d <= 351 && slot == Below(start, d)
    ensures lag == d
  {
    WrappedDistance(start, d);
    lag := Wrap64(start - slot);
  }

  /** The probe at which a scan that reports an error stopped. */
  ghost predicate StoppedBy<T>(at: nat -> Lookup<T>, limit: nat, d: nat) {
    && d < Span(at) && at(d).Failed?
    && (forall k: nat :: k < d ==> !at(k).Failed?)
    && (FoundIn(at, d) == [] || |FoundIn(at, d)| < limit)
  }

  /** Nothing stopped the scan, and its result is what the scanned slots hold, cut at the limit. */
  ghost predicate Complete<T>(at: nat -> Lookup<T>, limit: nat, el: seq<T>) {
    && (forall d :: !StoppedBy(at, limit, d))
    && el == Cut(FoundIn(at, Span(at)), limit)
  }

  /** A scan that read what it needed is complete. */
  lemma ReadEnough<T>(at: nat -> Lookup<T>, limit: nat, n: nat)
    requires forall k: nat :: k < n ==> !at(k).Failed?
    requires || (n == Span(at) && |FoundIn(at, n)| <= limit)
             || (n == Span(at) && FoundIn(at, n) == [])
             || (n <= Span(at) && |FoundIn(at, n)| >= limit && FoundIn(at, n) != [])
    ensures Complete(at, limit, Cut(FoundIn(at, n), limit))
  {
    forall d: nat
      ensures !StoppedBy(at, limit, d)
    {
      if n <= d {
        FoundGrows(at, n, d);
      }
    }
    if n < Span(at) {
      CutOfPrefix(at, n, Span(at), limit);
    }
  }

  /**
    * getlatestDelivered: at most 351 probes, whether or not the counter wraps. Without a database
    * error the result is exactly what the scanned slots hold, newest first, cut at the limit.
    */
  method GetLatestDelivered<T>(db: uint64 -> Lookup<T>, start: uint64, limit: nat)
    returns (el: seq<T>, failed: bool, ghost probes: nat)
    ensures probes <= 351
    ensures failed ==> probes > 0 && StoppedBy(At(db, start), limit, probes - 1)
                       && el == FoundIn(At(db, start), probes - 1)
    ensures !failed ==> Complete(At(db, start), limit, el)
  {
    ghost var at := At(db, start);
    var initialSlot: uint64 := start;
    el, failed, probes := [], false, 0;
    while true
      invariant probes <= 350 && initialSlot == Below(start, probes)
      invariant probes == 350 ==> at(349).Found?
      invariant el == FoundIn(at, probes)
      invariant el == [] || |el| < limit
      invariant forall k: nat :: k < probes ==> !at(k).Failed?
      decreases 351 - probes
    {
      var payload := db(initialSlot);
      assert payload == at(probes);
      if payload.Failed? {
        return el, true, probes + 1;
      }
      probes := probes + 1;
      if payload.NotFound? {
        initialSlot := StepDown(start, initialSlot, probes - 1);
        var lag := Lag(start, initialSlot, probes);
        if lag >= 350 {
          ReadEnough(at, limit, probes);
          return;
        }
        continue;
      }
      el := el + [payload.trace];
      if |el| >= limit {
        ReadEnough(at, limit, probes);
        if |el| > limit {
          el := el[..limit];
        }
        return;
      }
      var lag := Lag(start, initialSlot, probes - 1);
      if lag >= 350 {
        ReadEnough(at, limit, probes);
        return;
      }
      initialSlot := StepDown(start, initialSlot, probes - 1);
    }
  }
}
