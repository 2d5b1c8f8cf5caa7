/**
 When an import succeeds: spelled out over the tree, the weights and the epoch grid,
 for every reachable state and every answer of the environment.
 */
module ImportMeaning {
  import opened Common
  import opened Epochs
  import opened BlockTree
  import opened Import
  import opened Finality
  import opened EpochSchedule
  import Consensus

  /** The block opens an epoch on its chain: its parent is genesis or lies in an earlier epoch. */
  ghost predicate FirstInEpoch(d: nat, b: Block)
    requires b.Child? && d > 0
  {
    b.parent.Genesis? || EpochIndex(d, b.parent) < EpochIndex(d, b)
  }

  /** One announcement and at most one configuration for the first block of an epoch, nothing for any other. */
  ghost predicate AnnouncesRight(first: bool, b: Block)
    requires b.Child?
  {
    if first then |b.announcements| == 1 && |b.configs| <= 1 else b.announcements == [] && b.configs == []
  }

  /** The announcement checks pass exactly for these blocks. */
  lemma AnnouncementMeans(b: Block, first: bool)
    requires b.Child?
    ensures AnnouncementError(b, first).None? <==> AnnouncesRight(first, b)
  {
  }

  /** On the chain of an imported block the epoch found for a child is ahead of the block exactly if the child opens an epoch. */
  lemma AheadMeansFirst(cfg: Configuration, all: EpochChanges, b: Block)
    requires cfg.epochLength > 0 && b.Child? && b.slot > SlotOf(b.parent)
    requires b.parent.Child? ==> Scheduled(cfg, all, b.parent)
    ensures var epoch := EpochFor(cfg, all, b.parent, b.slot);
            && epoch.Some? && (SlotOf(b.parent) < epoch.value.start <==> FirstInEpoch(cfg.epochLength, b))
            && (FirstInEpoch(cfg.epochLength, b) ==> epoch.value.duration == cfg.epochLength)
  {
    hide Lookup, EpochIndex, EpochStart;
    if b.parent.Child? {
      assert Answers(Lookup(all, b.parent, b.slot), PendingOf(all, b.parent).value, b.parent.slot, b.slot);
      Follow(cfg, all, b);
      PendingStartsNext(cfg, all, b);
    }
  }

  /** The pending epoch has started by the slot exactly if the slot is in a later epoch than the parent. */
  lemma PendingStartsNext(cfg: Configuration, all: EpochChanges, b: Block)
    requires cfg.epochLength > 0 && b.Child? && b.parent.Child? && b.slot > SlotOf(b.parent) && Scheduled(cfg, all, b.parent)
    ensures PendingOf(all, b.parent).Some?
    ensures b.slot >= PendingOf(all, b.parent).value.start <==> EpochIndex(cfg.epochLength, b.parent) < EpochIndex(cfg.epochLength, b)
  {
    hide Lookup, EpochStart;
    var d, g := cfg.epochLength, GenesisSlot(b);
    var next := PendingOf(all, b.parent).value;
    TimelyIndex(d, b.parent, next);
    FirstNotLater(d, b.parent, next);
    SlotOnGrid(g, d, b.slot);
    var k, k' := EpochIndex(d, b.parent), EpochIndex(d, b);
    StartsInOrder(g, d, k, k');
    StartsInOrder(g, d, k', k + 1);
  }

  lemma FirstNotLater(d: nat, b: Block, next: Epoch)
    requires b.Child? && d > 0 && Timely(d, GenesisSlot(b), b.slot, next)
    ensures GenesisSlot(b) <= b.slot
  {
    EpochsApart(d, 0, next.index);
  }

  lemma SlotOnGrid(g: Slot, d: nat, slot: Slot)
    requires d > 0 && g <= slot
    ensures var k := IndexAt(g, d, slot);
            EpochStart(g, d, k) <= slot < EpochStart(g, d, k + 1)
  {
    var x := slot - g;
    assert x == x / d * d + x % d;
    assert (x / d + 1) * d == x / d * d + d;
  }

  /** What the environment must answer for this block; each answer only if it is asked for. */
  ghost predicate Answered(s: State, b: Block, env: Env, first: bool)
    requires b.Child?
  {
    && env.statusRead && env.headerRead && env.intermediate && env.inner.Imported?
    && (b.parent.Child? ==> env.parentWeightRead)
    && (s.best != b.parent ==> env.bestWeightRead)
    && (first ==> env.viable && env.pruned.Some? && env.epochImported && !(env.duplicateRefused && b in env.pruned.value))
  }

  /**
   In every reachable state a block is imported exactly if it is new, its parent is imported
   and genesis or live, its slot is later, it announces exactly as the first of its chain in
   its epoch must, and nothing that is asked fails.
   */
  lemma ImportedExactly(
    cfg: Configuration, worlds: seq<Consensus.World>, events: seq<Consensus.Event>, i: nat, b: Block, env: Env)
    requires Consensus.Run(cfg, worlds, events) && cfg.epochLength > 0 && i < |worlds|
    requires Consensus.Enabled(worlds[i], Consensus.ImportBlock(b, env))
    ensures var s := worlds[i].state;
            ImportStep(cfg, s, b, env).1 == Ok(true) <==>
              && b.Child? && b !in s.blocks && b.parent in s.blocks
              && (b.parent.Genesis? || OnChain(s.finalized, b.parent))
              && b.slot > SlotOf(b.parent)
              && AnnouncesRight(FirstInEpoch(cfg.epochLength, b), b)
              && Answered(s, b, env, FirstInEpoch(cfg.epochLength, b))
  {
    hide Consensus.Run, Consensus.Enabled, Consensus.Invariant, EpochsOk;
    Consensus.InvariantAlongRun(cfg, worlds, events, i);
    EpochsAlongRun(cfg, worlds, events, i);
    ImportedInState(cfg, worlds[i], b, env);
  }

  lemma ImportedInState(cfg: Configuration, w: Consensus.World, b: Block, env: Env)
    requires Consensus.Invariant(w) && EpochsOk(cfg, w) && cfg.epochLength > 0
    requires Consensus.Enabled(w, Consensus.ImportBlock(b, env))
    ensures var s := w.state;
            ImportStep(cfg, s, b, env).1 == Ok(true) <==>
              && b.Child? && b !in s.blocks && b.parent in s.blocks
              && (b.parent.Genesis? || OnChain(s.finalized, b.parent))
              && b.slot > SlotOf(b.parent)
              && AnnouncesRight(FirstInEpoch(cfg.epochLength, b), b)
              && Answered(s, b, env, FirstInEpoch(cfg.epochLength, b))
  {
    hide AnnouncementError, EpochFor, FirstInEpoch, EpochsWith, TotalWeight, BecomesBest, OnChain, Prunes,
         Consensus.Invariant, EpochsOk;
    var s := w.state;
    if b.Child? && b !in s.blocks && b.parent in s.blocks && b.slot > SlotOf(b.parent) {
      ParentWeighed(w, b);
      if b.parent.Genesis? || OnChain(s.finalized, b.parent) {
        FoundForChild(cfg, w, b, env);
      }
      AnnouncementMeans(b, FirstInEpoch(cfg.epochLength, b));
      if s.best != b.parent {
        Consensus.BestIsWeighed(w, b);
      }
    }
  }

  lemma ParentWeighed(w: Consensus.World, b: Block)
    requires Consensus.Invariant(w) && b.Child? && b.parent in w.state.blocks
    ensures b.parent.Child? ==> (b.parent in w.state.weights <==> OnChain(w.state.finalized, b.parent))
  {
    hide OnChain, Consensus.Chosen, Consensus.Shape;
    assert b.parent in w.state.weights <==> Live(w.state, b.parent);
  }

  /** The epoch changes in use answer like the full record. */
  lemma FoundForChild(cfg: Configuration, w: Consensus.World, b: Block, env: Env)
    requires Consensus.Invariant(w) && EpochsOk(cfg, w) && cfg.epochLength > 0
    requires b.Child? && b.parent in w.state.blocks && b.slot > SlotOf(b.parent)
    requires b.parent.Genesis? || OnChain(w.state.finalized, b.parent)
    ensures var epoch := EpochFor(cfg, w.state.epochs, b.parent, b.slot);
            && epoch.Some? && (SlotOf(b.parent) < epoch.value.start <==> FirstInEpoch(cfg.epochLength, b))
            && (FirstInEpoch(cfg.epochLength, b) ==> epoch.value.duration == cfg.epochLength)
  {
    hide Scheduled, FirstInEpoch, Lookup, OnChain, Consensus.Invariant;
    AheadMeansFirst(cfg, w.announced, b);
    assert EpochFor(cfg, w.announced, b.parent, b.slot) == EpochFor(cfg, w.state.epochs, b.parent, b.slot);
  }
}
