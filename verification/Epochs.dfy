/**
 RRSC epochs: how an epoch follows another, and how the data of an epoch is
 reused when epochs are skipped. Slots and indices are unbounded; the source
 stops the node when its 64-bit arithmetic would overflow.
 */
module Epochs {

  type Slot = nat
  type AuthorityId = nat
  type Randomness = nat
  type Authority = (AuthorityId, nat)

  datatype AllowedSlots = PrimarySlots | PrimaryAndSecondaryPlain | PrimaryAndSecondaryVrf

  datatype EpochConfig = EpochConfig(c: (nat, nat), allowed: AllowedSlots)

  /** What a block announces about the next epoch. */
  datatype Descriptor = Descriptor(authorities: seq<Authority>, randomness: Randomness)

  datatype Epoch = Epoch(
    index: nat,
    start: Slot,
    duration: nat,
    authorities: seq<Authority>,
    randomness: Randomness,
    config: EpochConfig)
  {
    function Increment(next: Descriptor, nextConfig: EpochConfig): Epoch
    {
      Epoch(index + 1, start + duration, duration, next.authorities, next.randomness, nextConfig)
    }

    function EndSlot(): Slot { start + duration }

    /** The same data moved forward to the epoch that contains the slot. */
    function CloneForSlot(slot: Slot): (e: Epoch)
      requires duration > 0
      ensures e == this.(index := e.index, start := e.start)
      ensures slot < start ==> e == this
      ensures start <= slot ==> e.start <= slot < e.EndSlot()
      ensures index <= e.index && e.start == start + (e.index - index) * duration
    {
      var skipped := (if slot < start then 0 else slot - start) / duration;
      assert slot < start ==> skipped == 0;
      this.(index := index + skipped, start := start + skipped * duration)
    }
  }

  datatype Configuration = Configuration(epochLength: nat, authorities: seq<Authority>, randomness: Randomness, config: EpochConfig)

  /** Epoch 0 starts at the slot of the first block. */
  function GenesisEpoch(genesis: Configuration, slot: Slot): Epoch
  {
    Epoch(0, slot, genesis.epochLength, genesis.authorities, genesis.randomness, genesis.config)
  }

  /** The epoch after all the given announcements. */
  function IncrementAll(e: Epoch, changes: seq<(Descriptor, EpochConfig)>): Epoch
  {
    if changes == [] then e
    else
      var last := changes[|changes| - 1];
      IncrementAll(e, changes[..|changes| - 1]).Increment(last.0, last.1)
  }

  lemma {:induction false} IncrementAllSchedule(e: Epoch, changes: seq<(Descriptor, EpochConfig)>)
    ensures var r := IncrementAll(e, changes);
            r.index == e.index + |changes| && r.duration == e.duration && r.start == e.start + |changes| * e.duration
  {
    if changes != [] {
      IncrementAllSchedule(e, changes[..|changes| - 1]);
    }
  }

  lemma EpochsApart(duration: int, i: int, j: int)
    requires duration > 0
    ensures i < j ==> i * duration + duration <= j * duration
  {
    if i < j {
      assert (i + 1) * duration <= j * duration;
    }
  }

  /** Only one number of epochs forward reaches the slot. */
  lemma OneEpochPerSlot(start: int, duration: int, i: int, j: int, slot: int)
    requires duration > 0
    requires start + i * duration <= slot < start + i * duration + duration
    requires start + j * duration <= slot < start + j * duration + duration
    ensures i == j
  {
    EpochsApart(duration, i, j);
    EpochsApart(duration, j, i);
  }

  /**
   Skipping is incrementing: after any announcements, the epoch has the schedule of
   the clone exactly when it is the one that contains the slot.
   */
  lemma CloneIsRepeatedIncrement(e: Epoch, slot: Slot, changes: seq<(Descriptor, EpochConfig)>)
    requires e.duration > 0 && e.start <= slot
    ensures var r, clone := IncrementAll(e, changes), e.CloneForSlot(slot);
            && (r.start <= slot < r.EndSlot() <==> |changes| == clone.index - e.index)
            && (r.start <= slot < r.EndSlot() <==> (r.index, r.start, r.duration) == (clone.index, clone.start, clone.duration))
  {
    IncrementAllSchedule(e, changes);
    var r, clone := IncrementAll(e, changes), e.CloneForSlot(slot);
    if r.start <= slot < r.EndSlot() {
      OneEpochPerSlot(e.start, e.duration, |changes|, clone.index - e.index, slot);
    }
  }
}
