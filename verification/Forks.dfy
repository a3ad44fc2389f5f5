/** Fork schedule: which fork a slot belongs to. */
module Forks {
  import opened Bytes

  datatype ForkVersion = ForkUnknown | ForkAltair | ForkBellatrix | ForkCapella

  datatype ForkState = ForkState(altairEpoch: uint64, bellatrixEpoch: uint64, capellaEpoch: uint64)

  function Epoch(slot: uint64): uint64 {
    slot / 32
  }

  predicate IsCapella(fs: ForkState, slot: uint64) {
    fs.capellaEpoch > 0 && Epoch(slot) >= fs.capellaEpoch
  }

  predicate IsBellatrix(fs: ForkState, slot: uint64) {
    if fs.capellaEpoch == 0 then fs.bellatrixEpoch > 0 && Epoch(slot) >= fs.bellatrixEpoch
    else fs.bellatrixEpoch > 0 && Epoch(slot) >= fs.bellatrixEpoch && Epoch(slot) < fs.capellaEpoch
  }

  predicate IsAltair(fs: ForkState, slot: uint64) {
    Epoch(slot) >= fs.altairEpoch && Epoch(slot) < fs.bellatrixEpoch
  }

  function Version(fs: ForkState, slot: uint64): ForkVersion {
    if IsCapella(fs, slot) then ForkCapella
    else if IsBellatrix(fs, slot) then ForkBellatrix
    else if IsAltair(fs, slot) then ForkAltair
    else ForkUnknown
  }

  /** The order in which forks follow each other; the Go constants' values. */
  function Rank(v: ForkVersion): nat {
    match v
    case ForkUnknown => 0
    case ForkAltair => 1
    case ForkBellatrix => 2
    case ForkCapella => 3
  }

  /** The version never goes back, whatever the epochs: unset, equal or out of order. */
  lemma VersionMonotone(fs: ForkState, early: uint64, late: uint64)
    requires early <= late
    ensures Rank(Version(fs, early)) <= Rank(Version(fs, late))
  {
    assert Epoch(early) <= Epoch(late);
  }

  /** The slots of each fork: an epoch has 32 slots, and a fork whose epoch is 0 is never entered, except Altair. */
  lemma VersionExactly(fs: ForkState, slot: uint64)
    ensures Version(fs, slot) == ForkCapella <==> fs.capellaEpoch > 0 && slot >= 32 * fs.capellaEpoch
    ensures Version(fs, slot) == ForkBellatrix <==>
            && fs.bellatrixEpoch > 0 && slot >= 32 * fs.bellatrixEpoch
            && (fs.capellaEpoch == 0 || slot < 32 * fs.capellaEpoch)
    ensures Version(fs, slot) == ForkAltair <==>
            && 32 * fs.altairEpoch <= slot < 32 * fs.bellatrixEpoch
            && (fs.capellaEpoch == 0 || slot < 32 * fs.capellaEpoch)
    ensures IsAltair(fs, slot) <==> 32 * fs.altairEpoch <= slot < 32 * fs.bellatrixEpoch
    ensures IsBellatrix(fs, slot) <==> Version(fs, slot) == ForkBellatrix
  {
  }
}
